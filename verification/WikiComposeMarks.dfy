/** The marks that composition puts on constants are right: a marked variable is created only by the
    constant instruction of its mark. */
module WikiComposeMarks {
  import opened Common
  import opened WikiIR
  import opened WikiRun
  import opened WikiCse
  import opened WikiConst
  import opened WikiCompose
  import opened WikiComposeProof

  ghost predicate MarksBelow(st: State) {
    forall v :: v in st.marks ==> v.Local? && v.id < st.next
  }

  // Two sets of marks are the same on the variables created so far.
  ghost predicate Agrees(marks: Marks, st: State) {
    && (forall v :: v in marks ==> v.Local?)
    && forall i: nat :: i < st.next ==>
         && (Local(i) in marks <==> Local(i) in st.marks)
         && (Local(i) in marks ==> marks[Local(i)] == st.marks[Local(i)])
  }

  lemma {:induction false} ComposeMarks(cat: Catalogue, fn: Zid, e: Expr, st: State)
    requires Compose(cat, fn, e, st).Success? && MarksBelow(st)
    ensures var r := Compose(cat, fn, e, st).value.1;
            Grows(st, r) && MarksBelow(r) && Agrees(r.marks, st)
    decreases e, 0
  {
    ComposeGrows(cat, fn, e, st);
    match e
    case Echo(b) => ComposeMarks(cat, fn, b, st);
    case Untype(b) => ComposeMarks(cat, fn, b, st);
    case ListOf(typ, es) => ComposeAllMarks(cat, fn, es, Bump(st));
    case IfThenElse(c, a, b) =>
      var t := Compose(cat, fn, c, st).value.1;
      var result := Local(t.next);
      var p := ComposeBranch(cat, fn, a, result, Bump(t)).value;
      ComposeMarks(cat, fn, c, st);
      ComposeMarks(cat, fn, a, Bump(t).(block := []));
      ComposeMarks(cat, fn, b, p.(block := []));
    case Apply(z, es) =>
      ComposeAllMarks(cat, fn, es, st);
      var q := ComposeAll(cat, fn, es, st).value;
      EvokeGrows(cat, z, cat.funcs[z], Local(q.1.next), q.0, Bump(q.1));
    case _ =>
  }

  lemma {:induction false} ComposeAllMarks(cat: Catalogue, fn: Zid, es: seq<Expr>, st: State)
    requires ComposeAll(cat, fn, es, st).Success? && MarksBelow(st)
    ensures var r := ComposeAll(cat, fn, es, st).value.1;
            Grows(st, r) && MarksBelow(r) && Agrees(r.marks, st)
    decreases es, 0
  {
    ComposeAllGrows(cat, fn, es, st);
    if es != [] {
      ComposeMarks(cat, fn, es[0], st);
      ComposeAllMarks(cat, fn, es[1..], Compose(cat, fn, es[0], st).value.1);
    }
  }

  lemma AgreesBefore(marks: Marks, st: State, st': State)
    requires Agrees(marks, st') && Agrees(st'.marks, st) && st.next <= st'.next
    ensures Agrees(marks, st)
  {
  }

  lemma MarkedOne(n: Node, marks: Marks)
    ensures Marked([n], marks) == NodeMarked(n, marks)
  {
    assert [n][1..] == [];
  }

  lemma MarkedPush(nodes: seq<Node>, n: Node, marks: Marks)
    ensures Marked(nodes + [n], marks) <==> Marked(nodes, marks) && NodeMarked(n, marks)
  {
    MarkedAppend(nodes, [n], marks);
    MarkedOne(n, marks);
  }

  lemma {:induction false} ComposeMarked(cat: Catalogue, fn: Zid, e: Expr, st: State, marks: Marks)
    requires Compose(cat, fn, e, st).Success? && MarksBelow(st)
    requires Agrees(marks, Compose(cat, fn, e, st).value.1)
    ensures var r := Compose(cat, fn, e, st).value.1;
            Grows(st, r) && Marked(Added(st, r), marks)
    decreases e, 2
  {
    ComposeMarks(cat, fn, e, st);
    match e
    case Word(s) => ConstantMarked(st, Text(WordText(s)), marks);
    case Nat(d) => ConstantMarked(st, Natural(d), marks);
    case Bool(b) => ConstantMarked(st, Truth(b), marks);
    case Argument(_) =>
    case Echo(b) => ComposeMarked(cat, fn, b, st, marks);
    case Untype(b) => ComposeMarked(cat, fn, b, st, marks);
    case ListOf(typ, es) =>
      ComposeListMarked(cat, fn, e, st, marks);
    case IfThenElse(c, a, b) => ComposeIfMarked(cat, fn, e, st, marks);
    case Apply(z, es) => ComposeApplyMarked(cat, fn, e, st, marks);
    case Unknown =>
  }

  lemma {:induction false} ComposeListMarked(cat: Catalogue, fn: Zid, e: Expr, st: State, marks: Marks)
    requires e.ListOf? && Compose(cat, fn, e, st).Success? && MarksBelow(st)
    requires Agrees(marks, Compose(cat, fn, e, st).value.1)
    ensures var r := Compose(cat, fn, e, st).value.1;
            Grows(st, r) && Marked(Added(st, r), marks)
    decreases e.elements, 1
  {
    var r := Compose(cat, fn, e, st).value.1;
    ComposeAllMarks(cat, fn, e.elements, Bump(st));
    var q := ComposeAll(cat, fn, e.elements, Bump(st)).value;
    ComposeAllMarked(cat, fn, e.elements, Bump(st), marks);
    var n := Build(Local(st.next), e.typ, q.0);
    assert Added(st, r) == Added(Bump(st), q.1) + [n];
    MarkedPush(Added(Bump(st), q.1), n, marks);
  }

  lemma ConstantMarked(st: State, c: Constant, marks: Marks)
    requires MarksBelow(st) && Agrees(marks, EmitConstant(st, c).1)
    ensures Grows(st, EmitConstant(st, c).1) && Marked(Added(st, EmitConstant(st, c).1), marks)
  {
    var n := Const(Local(st.next), c, None);
    assert Added(st, EmitConstant(st, c).1) == [n];
    MarkedOne(n, marks);
  }

  lemma {:induction false} ComposeAllMarked(cat: Catalogue, fn: Zid, es: seq<Expr>, st: State, marks: Marks)
    requires ComposeAll(cat, fn, es, st).Success? && MarksBelow(st)
    requires Agrees(marks, ComposeAll(cat, fn, es, st).value.1)
    ensures var r := ComposeAll(cat, fn, es, st).value.1;
            Grows(st, r) && Marked(Added(st, r), marks)
    decreases es, 0
  {
    ComposeAllMarks(cat, fn, es, st);
    if es != [] {
      var p, r := Compose(cat, fn, es[0], st).value.1, ComposeAll(cat, fn, es, st).value.1;
      ComposeMarks(cat, fn, es[0], st);
      ComposeAllMarks(cat, fn, es[1..], p);
      AgreesBefore(marks, p, r);
      ComposeMarked(cat, fn, es[0], st, marks);
      ComposeAllMarked(cat, fn, es[1..], p, marks);
      GrowsTransitive(st, p, r);
      MarkedAppend(Added(st, p), Added(p, r), marks);
    }
  }

  lemma {:induction false} ComposeApplyMarked(cat: Catalogue, fn: Zid, e: Expr, st: State, marks: Marks)
    requires e.Apply? && Compose(cat, fn, e, st).Success? && MarksBelow(st)
    requires Agrees(marks, Compose(cat, fn, e, st).value.1)
    ensures var r := Compose(cat, fn, e, st).value.1;
            Grows(st, r) && Marked(Added(st, r), marks)
    decreases e.args, 1
  {
    var z, f, r := e.callee, cat.funcs[e.callee], Compose(cat, fn, e, st).value.1;
    ComposeAllMarks(cat, fn, e.args, st);
    var q := ComposeAll(cat, fn, e.args, st).value;
    var retval, s := Local(q.1.next), Bump(q.1);
    EvokeGrows(cat, z, f, retval, q.0, s);
    assert s.(next := s.next - 1) == q.1;
    AgreesBefore(marks, q.1, r);
    ComposeAllMarked(cat, fn, e.args, st, marks);
    GrowsTransitive(st, q.1, r);
    MarkedAppend(Added(st, q.1), Added(q.1, r), marks);
    assert Marked(Added(q.1, r), marks) by {
      EvokeMarked(cat, z, f, retval, q.0, s, marks);
      assert Added(q.1, r) == Added(s, r);
    }
  }

  lemma NativeCallMarked(cat: Catalogue, z: Zid, f: Func, retval: Variable, args: seq<Variable>, native: Variable,
                         marks: Marks)
    requires retval !in marks && (f.rettype in cat.fromjs ==> native !in marks)
    ensures Marked(NativeCall(cat, z, f, retval, args, native), marks)
  {
    var code := NativeCall(cat, z, f, retval, args, native);
    if f.rettype in cat.fromjs {
      assert code[1..] == [code[1]];
      MarkedOne(code[1], marks);
    } else {
      assert code == [code[0]];
      MarkedOne(code[0], marks);
    }
  }

  lemma EvokeMarked(cat: Catalogue, z: Zid, f: Func, retval: Variable, args: seq<Variable>, st: State, marks: Marks)
    requires |f.params| == |args| && st.next > 0 && retval == Local(st.next - 1)
    requires (forall v :: v in marks ==> v.Local?)
    requires forall i: nat :: st.next - 1 <= i < Evoke(cat, z, f, retval, args, st).next ==> Local(i) !in marks
    ensures var r := Evoke(cat, z, f, retval, args, st); |st.block| <= |r.block| && Marked(Added(st, r), marks)
  {
    var r := Evoke(cat, z, f, retval, args, st);
    if f.kind.Native? {
      var p := NativeArgs(cat, f.params, args, st);
      EvokeAdded(cat, z, f, retval, args, st);
      NativeArgsUnmarked(cat, f.params, args, st, marks);
      NativeCallMarked(cat, z, f, retval, p.0, Local(p.1.next), marks);
      MarkedAppend(Added(st, p.1), NativeCall(cat, z, f, retval, p.0, Local(p.1.next)), marks);
    } else {
      assert Added(st, r) == [Call(z, retval, args)];
      MarkedOne(Call(z, retval, args), marks);
    }
  }

  lemma {:induction false} NativeArgsUnmarked(cat: Catalogue, params: seq<Param>, args: seq<Variable>, st: State,
                                              marks: Marks)
    requires |params| == |args|
    requires forall i: nat :: st.next <= i < NativeArgs(cat, params, args, st).1.next ==> Local(i) !in marks
    ensures var s := NativeArgs(cat, params, args, st).1; Grows(st, s) && Marked(Added(st, s), marks)
  {
    NativeArgsGrows(cat, params, args, st);
    if args != [] {
      var p, s := NativeArg(cat, params[0].typ, args[0], st).1, NativeArgs(cat, params, args, st).1;
      NativeArgsGrows(cat, params[1..], args[1..], p);
      NativeArgsUnmarked(cat, params[1..], args[1..], p, marks);
      GrowsTransitive(st, p, s);
      MarkedAppend(Added(st, p), Added(p, s), marks);
      if p.block != st.block {
        assert Added(st, p) == [p.block[|st.block|]];
        MarkedOne(p.block[|st.block|], marks);
      } else {
        assert Added(st, p) == [];
      }
    }
  }

  lemma {:induction false} BranchMarked(cat: Catalogue, fn: Zid, e: Expr, result: Variable, st: State, marks: Marks)
    requires ComposeBranch(cat, fn, e, result, st).Success? && MarksBelow(st) && result !in marks
    requires Agrees(marks, ComposeBranch(cat, fn, e, result, st).value)
    ensures Marked(ComposeBranch(cat, fn, e, result, st).value.block, marks)
    decreases e, 3
  {
    var empty := st.(block := []);
    var r := Compose(cat, fn, e, empty).value;
    ComposeMarked(cat, fn, e, empty, marks);
    assert Added(empty, r.1) == r.1.block;
    MarkedPush(r.1.block, Assign(result, r.0), marks);
  }

  // The marks agree at every step of a conditional, and its result has none.
  lemma IfAgrees(cat: Catalogue, fn: Zid, e: Expr, st: State, marks: Marks)
    requires e.IfThenElse? && Compose(cat, fn, e, st).Success? && MarksBelow(st)
    requires Agrees(marks, Compose(cat, fn, e, st).value.1)
    ensures var t := Compose(cat, fn, e.test, st).value; var result := Local(t.1.next);
            var p := ComposeBranch(cat, fn, e.thn, result, Bump(t.1)).value;
            var q := ComposeBranch(cat, fn, e.els, result, p).value;
            && Agrees(marks, t.1) && Agrees(marks, p) && Agrees(marks, q) && result !in marks
            && MarksBelow(Bump(t.1)) && MarksBelow(p)
  {
    hide ComposeAll, Evoke, EmitConstant;
    var t := Compose(cat, fn, e.test, st).value;
    var result := Local(t.1.next);
    var p := ComposeBranch(cat, fn, e.thn, result, Bump(t.1)).value;
    var q := ComposeBranch(cat, fn, e.els, result, p).value;
    ComposeMarks(cat, fn, e.test, st);
    ComposeMarks(cat, fn, e.thn, Bump(t.1).(block := []));
    ComposeMarks(cat, fn, e.els, p.(block := []));
    AgreesBefore(marks, p, q);
    AgreesBefore(marks, Bump(t.1), p);
    AgreesBefore(marks, t.1, Bump(t.1));
  }

  lemma {:induction false} ComposeIfMarked(cat: Catalogue, fn: Zid, e: Expr, st: State, marks: Marks)
    requires e.IfThenElse? && Compose(cat, fn, e, st).Success? && MarksBelow(st)
    requires Agrees(marks, Compose(cat, fn, e, st).value.1)
    ensures var r := Compose(cat, fn, e, st).value.1;
            Grows(st, r) && Marked(Added(st, r), marks)
    decreases e, 1
  {
    hide Agrees, Marked, ComposeAll, Evoke, EmitConstant;
    ComposeGrows(cat, fn, e, st);
    var r := Compose(cat, fn, e, st).value.1;
    var t := Compose(cat, fn, e.test, st).value;
    var result := Local(t.1.next);
    var p := ComposeBranch(cat, fn, e.thn, result, Bump(t.1)).value;
    var q := ComposeBranch(cat, fn, e.els, result, p).value;
    IfAgrees(cat, fn, e, st, marks);
    ComposeMarked(cat, fn, e.test, st, marks);
    BranchMarked(cat, fn, e.thn, result, Bump(t.1), marks);
    BranchMarked(cat, fn, e.els, result, p, marks);
    var n := Conditional(t.0, p.block, q.block);
    assert Added(st, r) == Added(st, t.1) + [Declare(result)] + [n];
    MarkedPush(Added(st, t.1), Declare(result), marks);
    MarkedPush(Added(st, t.1) + [Declare(result)], n, marks);
  }
}
