/** Emitted code is well formed: scoped, with every variable created once and constants marked. */
module WikiComposeShape {
  import opened Common
  import opened WikiIR
  import opened WikiRun
  import opened WikiCse
  import opened WikiConst
  import opened WikiCompose
  import opened WikiComposeProof

  ghost predicate NoReturn(nodes: seq<Node>) {
    forall n :: n in nodes ==> !n.Return?
  }

  lemma {:induction false} DefsAfterBound(nodes: seq<Node>, def: set<Variable>, pend: Option<Variable>)
    ensures def <= DefsAfter(nodes, def, pend) <= def + AllDefs(nodes) + Open(pend, None)
  {
    if nodes != [] {
      DefsAfterBound(nodes[1..], NextDefs(nodes[0], def, pend), NextPend(nodes[0], pend));
    }
  }

  // Well-formed code may be continued by code that is well formed where it ends.
  lemma {:induction false} ScopedAppend(a: seq<Node>, b: seq<Node>, def: set<Variable>,
                                        pend: Option<Variable>, target: Option<Variable>)
    requires Scoped(a, def, pend, None) && NoReturn(a)
    requires Scoped(b, DefsAfter(a, def, pend), None, target)
    ensures Scoped(a + b, def, pend, target)
    ensures DefsAfter(a + b, def, pend) == DefsAfter(b, DefsAfter(a, def, pend), None)
  {
    if a == [] {
      assert a + b == b;
    } else {
      assert a[0] in a;
      assert (a + b)[0] == a[0] && (a + b)[1..] == a[1..] + b;
      ScopedAppend(a[1..], b, NextDefs(a[0], def, pend), NextPend(a[0], pend), target);
    }
  }

  lemma {:induction false} UniqueAppend(a: seq<Node>, b: seq<Node>)
    requires Unique(a) && Unique(b) && AllDefs(a) !! AllDefs(b)
    ensures Unique(a + b)
  {
    if a == [] {
      assert a + b == b;
    } else {
      assert (a + b)[0] == a[0] && (a + b)[1..] == a[1..] + b;
      UniqueAppend(a[1..], b);
      AllDefsAppend(a[1..], b);
    }
  }

  // What is known before emission: the readable variables are old, and every conversion so far is readable.
  ghost predicate Static(st: State, def: set<Variable>) {
    && (forall v :: v in def ==> Below(v, st.next))
    && forall n :: n in st.block && n.Convert? ==> n.src in def && n.dst in def
  }

  // What emission adds, when `def` is readable before it and `after` afterwards.
  ghost predicate Shape(st: State, st': State, def: set<Variable>, after: set<Variable>) {
    && Grows(st, st') && InRange(AllDefs(Added(st, st')), st.next, st'.next)
    && Scoped(Added(st, st'), def, None, None) && Unique(Added(st, st')) && NoReturn(Added(st, st'))
    && after == DefsAfter(Added(st, st'), def, None) && def <= after && Static(st', after)
  }

  lemma ShapeTransitive(a: State, b: State, c: State, def: set<Variable>, mid: set<Variable>, after: set<Variable>)
    requires Shape(a, b, def, mid) && Shape(b, c, mid, after)
    ensures Shape(a, c, def, after)
  {
    GrowsTransitive(a, b, c);
    AllDefsAppend(Added(a, b), Added(b, c));
    ScopedAppend(Added(a, b), Added(b, c), def, None, None);
    UniqueAppend(Added(a, b), Added(b, c));
  }

  lemma ShapeOne(st: State, n: Node, def: set<Variable>, dst: Variable, next: nat)
    requires Static(st, def) && Pure(n) && NodeDefs(n) == {dst} && Reads(n) <= def
    requires dst.Local? && st.next <= dst.id < next
    ensures Shape(st, Emit(st, n).(next := next), def, def + {dst})
  {
    var st' := Emit(st, n).(next := next);
    GrowsEmit(st, n, next);
    OneNode(n);
    assert [n][1..] == [];
    assert DefsAfter([n], def, None) == DefsAfter([], NextDefs(n, def, None), None);
    assert Laid([n], def, None, None) && Seen([n], def, None);
  }

  lemma ShapeNothing(st: State, def: set<Variable>, next: nat)
    requires Static(st, def) && st.next <= next
    ensures Shape(st, st.(next := next), def, def)
  {
    assert Added(st, st.(next := next)) == [];
  }

  lemma NativeArgShape(cat: Catalogue, typ: string, arg: Variable, st: State, def: set<Variable>)
    returns (after: set<Variable>)
    requires Static(st, def) && arg in def
    ensures var r := NativeArg(cat, typ, arg, st); Shape(st, r.1, def, after) && r.0 in after
  {
    after := def;
    FindInverseFound(st.block, arg);
    if typ in cat.tojs && FindInverse(st.block, arg).None? {
      after := def + {Local(st.next)};
      ShapeOne(st, Convert(ToNative(typ), Local(st.next), arg), def, Local(st.next), st.next + 1);
    } else {
      ShapeNothing(st, def, st.next);
    }
  }

  lemma {:induction false} NativeArgsShape(cat: Catalogue, params: seq<Param>, args: seq<Variable>, st: State,
                                           def: set<Variable>) returns (after: set<Variable>)
    requires |params| == |args| && Static(st, def) && forall v :: v in args ==> v in def
    ensures var r := NativeArgs(cat, params, args, st);
            Shape(st, r.1, def, after) && forall v :: v in r.0 ==> v in after
  {
    if args == [] {
      after := def;
      ShapeNothing(st, def, st.next);
    } else {
      var r := NativeArg(cat, params[0].typ, args[0], st);
      var mid := NativeArgShape(cat, params[0].typ, args[0], st, def);
      after := NativeArgsShape(cat, params[1..], args[1..], r.1, mid);
      ShapeTransitive(st, r.1, NativeArgs(cat, params, args, st).1, def, mid, after);
    }
  }

  // The result variable was reserved just before the call.
  lemma EvokeShape(cat: Catalogue, z: Zid, f: Func, args: seq<Variable>, st: State, def: set<Variable>)
    returns (after: set<Variable>)
    requires |f.params| == |args| && Static(st, def) && forall v :: v in args ==> v in def
    ensures var s := Evoke(cat, z, f, Local(st.next), args, Bump(st));
            Shape(st, s, def, after) && Local(st.next) in after
  {
    var retval, s0 := Local(st.next), Bump(st);
    if f.kind.Native? {
      var p := NativeArgs(cat, f.params, args, s0);
      var mid := NativeArgsShape(cat, f.params, args, s0, def);
      after := NativeCallShape(cat, z, f, retval, p.0, s0, p.1, def, mid);
      EvokeAdded(cat, z, f, retval, args, s0);
      assert Evoke(cat, z, f, retval, args, s0) ==
             State(p.1.block + NativeCall(cat, z, f, retval, p.0, Local(p.1.next)),
                   if f.rettype in cat.fromjs then p.1.next + 1 else p.1.next, p.1.marks);
      assert Added(st, Evoke(cat, z, f, retval, args, s0)) == Added(s0, Evoke(cat, z, f, retval, args, s0));
      EvokeGrows(cat, z, f, retval, args, s0);
      assert s0.(next := s0.next - 1) == st;
    } else {
      after := def + {retval};
      assert Emit(s0, Call(z, retval, args)) == Emit(st, Call(z, retval, args)).(next := st.next + 1);
      ShapeOne(st, Call(z, retval, args), def, retval, st.next + 1);
    }
  }

  lemma NativeCallShape(cat: Catalogue, z: Zid, f: Func, retval: Variable, args: seq<Variable>, s0: State, s1: State,
                        def: set<Variable>, mid: set<Variable>) returns (after: set<Variable>)
    requires Shape(s0, s1, def, mid) && (forall v :: v in args ==> v in mid)
    requires s0.next > 0 && retval == Local(s0.next - 1) && retval !in def
    ensures var s2 := State(s1.block + NativeCall(cat, z, f, retval, args, Local(s1.next)),
                            if f.rettype in cat.fromjs then s1.next + 1 else s1.next, s1.marks);
            && s0.next <= s2.next && |s0.block| <= |s2.block|
            && InRange(AllDefs(Added(s0, s2)), s0.next - 1, s2.next)
            && Scoped(Added(s0, s2), def, None, None) && Unique(Added(s0, s2)) && NoReturn(Added(s0, s2))
            && after == DefsAfter(Added(s0, s2), def, None) && def <= after && Static(s2, after) && retval in after
  {
    var d0, native := Added(s0, s1), Local(s1.next);
    DefsAfterBound(d0, def, None);
    var code := NativeCall(cat, z, f, retval, args, native);
    NativeCallScoped(cat, z, f, retval, args, native, mid);
    var s2 := State(s1.block + code, if f.rettype in cat.fromjs then s1.next + 1 else s1.next, s1.marks);
    assert Added(s0, s2) == d0 + code;
    AllDefsAppend(d0, code);
    ScopedAppend(d0, code, def, None, None);
    UniqueAppend(d0, code);
    after := DefsAfter(code, mid, None);
  }

  lemma NativeCallScoped(cat: Catalogue, z: Zid, f: Func, retval: Variable, args: seq<Variable>, native: Variable,
                         def: set<Variable>)
    requires (forall v :: v in args ==> v in def) && retval !in def && native !in def && retval != native
    ensures var code := NativeCall(cat, z, f, retval, args, native);
            && Scoped(code, def, None, None) && Unique(code) && NoReturn(code)
            && AllDefs(code) == (if f.rettype in cat.fromjs then {native, retval} else {retval})
            && DefsAfter(code, def, None) == def + AllDefs(code)
  {
    var code := NativeCall(cat, z, f, retval, args, native);
    if f.rettype in cat.fromjs {
      var n1, n2 := Call(z, native, args), Convert(FromNative(f.rettype), retval, native);
      assert code[0] == n1 && code[1..] == [n2] && [n2][1..] == [];
      OneNode(n2);
      assert DefsAfter([n2], def + {native}, None) == DefsAfter([], def + {native} + {retval}, None);
    } else {
      assert code == [Call(z, retval, args)] && code[1..] == [];
      OneNode(Call(z, retval, args));
    }
  }

  lemma {:induction false} ComposeShape(cat: Catalogue, fn: Zid, e: Expr, st: State, def: set<Variable>)
    returns (after: set<Variable>)
    requires Compose(cat, fn, e, st).Success? && Static(st, def) && FormalsReadable(cat, fn, def)
    ensures var r := Compose(cat, fn, e, st).value; Shape(st, r.1, def, after) && r.0 in after
    decreases e, 2
  {
    match e
    case Word(s) => after := ConstantShape(st, Text(WordText(s)), def);
    case Nat(d) => after := ConstantShape(st, Natural(d), def);
    case Bool(b) => after := ConstantShape(st, Truth(b), def);
    case Argument(name) =>
      after := def;
      ShapeNothing(st, def, st.next);
    case Echo(b) => after := ComposeShape(cat, fn, b, st, def);
    case Untype(b) => after := ComposeShape(cat, fn, b, st, def);
    case ListOf(typ, es) =>
      ShapeNothing(st, def, st.next + 1);
      var mid := ComposeAllShape(cat, fn, es, Bump(st), def);
      var q := ComposeAll(cat, fn, es, Bump(st)).value;
      after := ListShape(st, q.1, Build(Local(st.next), typ, q.0), def, mid);
    case IfThenElse(c, a, b) => after := ComposeIfShape(cat, fn, e, st, def);
    case Apply(z, es) =>
      var mid := ComposeAllShape(cat, fn, es, st, def);
      var q := ComposeAll(cat, fn, es, st).value;
      after := EvokeShape(cat, z, cat.funcs[z], q.0, q.1, mid);
      ShapeTransitive(st, q.1, Compose(cat, fn, e, st).value.1, def, mid, after);
    case Unknown =>
  }

  ghost predicate FormalsReadable(cat: Catalogue, fn: Zid, def: set<Variable>) {
    forall name :: fn in cat.funcs && HasParam(cat.funcs[fn], name) ==> Formal(fn, name) in def
  }

  lemma ConstantShape(st: State, c: Constant, def: set<Variable>) returns (after: set<Variable>)
    requires Static(st, def)
    ensures var r := EmitConstant(st, c); Shape(st, r.1, def, after) && r.0 in after
  {
    after := def + {Local(st.next)};
    ShapeOne(st, Const(Local(st.next), c, None), def, Local(st.next), st.next + 1);
  }

  // The list variable is reserved before its elements are composed.
  lemma ListShape(st: State, st': State, n: Node, def: set<Variable>, mid: set<Variable>) returns (after: set<Variable>)
    requires Shape(Bump(st), st', def, mid) && Static(st, def)
    requires n.Build? && n.dst == Local(st.next) && Reads(n) <= mid
    ensures Shape(st, Emit(st', n), def, after) && n.dst in after
  {
    var d := Added(Bump(st), st');
    DefsAfterBound(d, def, None);
    after := mid + {n.dst};
    assert Added(st, Emit(st', n)) == d + [n] && [n][1..] == [];
    OneNode(n);
    AllDefsAppend(d, [n]);
    assert DefsAfter([n], mid, None) == DefsAfter([], mid + {n.dst}, None);
    ScopedAppend(d, [n], def, None, None);
    UniqueAppend(d, [n]);
    assert Emit(st', n).block == st.block + (d + [n]);
  }

  lemma {:induction false} ComposeAllShape(cat: Catalogue, fn: Zid, es: seq<Expr>, st: State, def: set<Variable>)
    returns (after: set<Variable>)
    requires ComposeAll(cat, fn, es, st).Success? && Static(st, def) && FormalsReadable(cat, fn, def)
    ensures var r := ComposeAll(cat, fn, es, st).value; Shape(st, r.1, def, after) && forall v :: v in r.0 ==>
            v in after
    decreases es, 0
  {
    if es == [] {
      after := def;
      ShapeNothing(st, def, st.next);
    } else {
      var p := Compose(cat, fn, es[0], st).value;
      var mid := ComposeShape(cat, fn, es[0], st, def);
      after := ComposeAllShape(cat, fn, es[1..], p.1, mid);
      ShapeTransitive(st, p.1, ComposeAll(cat, fn, es, st).value.1, def, mid, after);
    }
  }

  lemma {:induction false} BranchShape(cat: Catalogue, fn: Zid, e: Expr, result: Variable, st: State,
                                       def: set<Variable>)
    requires ComposeBranch(cat, fn, e, result, st).Success? && FormalsReadable(cat, fn, def)
    requires (forall v :: v in def ==> Below(v, st.next)) && result.Local? && result.id < st.next && result !in def
    ensures var s := ComposeBranch(cat, fn, e, result, st).value;
            && st.next <= s.next && InRange(AllDefs(s.block), st.next, s.next)
            && Scoped(s.block, def, None, Some(result)) && Unique(s.block)
    decreases e, 3
  {
    var empty := st.(block := []);
    var r := Compose(cat, fn, e, empty).value;
    var after := ComposeShape(cat, fn, e, empty, def);
    assert Added(empty, r.1) == r.1.block;
    var l := Assign(result, r.0);
    assert [l][1..] == [];
    OneNode(l);
    AllDefsAppend(r.1.block, [l]);
    ScopedAppend(r.1.block, [l], def, None, Some(result));
    UniqueAppend(r.1.block, [l]);
  }

  lemma {:induction false} ComposeIfShape(cat: Catalogue, fn: Zid, e: Expr, st: State, def: set<Variable>)
    returns (after: set<Variable>)
    requires e.IfThenElse? && Compose(cat, fn, e, st).Success? && Static(st, def) && FormalsReadable(cat, fn, def)
    ensures var r := Compose(cat, fn, e, st).value; Shape(st, r.1, def, after) && r.0 in after
    decreases e, 1
  {
    var t := Compose(cat, fn, e.test, st).value;
    var mid := ComposeShape(cat, fn, e.test, st, def);
    var result := Local(t.1.next);
    var p := ComposeBranch(cat, fn, e.thn, result, Bump(t.1)).value;
    var q := ComposeBranch(cat, fn, e.els, result, p).value;
    BranchShape(cat, fn, e.thn, result, Bump(t.1), mid);
    BranchShape(cat, fn, e.els, result, p, mid);
    var n, r := Conditional(t.0, p.block, q.block), Compose(cat, fn, e, st).value.1;
    after := mid + {result};
    IfShape(t.1, r, result, n, mid);
    ShapeTransitive(st, t.1, r, def, mid, after);
  }

  lemma IfShape(st: State, st': State, result: Variable, n: Node, def: set<Variable>)
    requires Static(st, def) && n.Conditional? && n.condition in def && result == Local(st.next)
    requires st'.block == st.block + [Declare(result), n] && st.next < st'.next
    requires Scoped(n.ifpart, def, None, Some(result)) && Scoped(n.elsepart, def, None, Some(result))
    requires Unique(n.ifpart) && Unique(n.elsepart) && AllDefs(n.ifpart) !! AllDefs(n.elsepart)
    requires InRange(AllDefs(n.ifpart) + AllDefs(n.elsepart), st.next + 1, st'.next)
    ensures Shape(st, st', def, def + {result})
  {
    var d := Declare(result);
    assert Added(st, st') == [d, n] && [d, n][1..] == [n] && [n][1..] == [];
    OneNode(n);
    assert AllDefs([d, n]) == {result} + AllDefs([n]);
    assert Unique([n]);
    assert DefsAfter([n], def, Some(result)) == DefsAfter([], def + {result}, None);
    assert Scoped([n], def, Some(result), None);
    assert DefsAfter([d, n], def, None) == DefsAfter([n], def, Some(result));
  }
}
