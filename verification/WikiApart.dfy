/**
  Which constants of a composition common-subexpression elimination takes for one another, told from the source
  (wikifunc/wikifunc.js:118-136, 435-471, 742-824).
 */
module WikiApart {
  import opened Common
  import opened WikiIR
  import opened WikiRun
  import opened WikiCse
  import opened WikiMerge
  import opened WikiCompose
  import opened WikiComposeProof

  // Different constants that are the same to the pass.
  predicate Clash(h: Host, c: Constant, d: Constant) {
    ConstantTruthy(c) && ConstantTruthy(d) && LooseEqual(h, c, d) && c != d
  }

  ghost predicate ClashFree(h: Host, c: Constant, before: set<Constant>) {
    forall d :: d in before ==> !Clash(h, c, d)
  }

  // The constants of an expression that the compiler emits into the block itself, not into a branch.
  function OwnConstants(e: Expr): set<Constant>
    decreases e
  {
    match e
    case Word(s) => {Text(WordText(s))}
    case Nat(d) => {Natural(d)}
    case Bool(b) => {Truth(b)}
    case ListOf(_, es) => OwnConstantsOfAll(es)
    case IfThenElse(c, _, _) => OwnConstants(c)
    case Echo(b) => OwnConstants(b)
    case Untype(b) => OwnConstants(b)
    case Apply(_, es) => OwnConstantsOfAll(es)
    case _ => {}
  }

  function OwnConstantsOfAll(es: seq<Expr>): set<Constant>
    decreases es
  {
    if es == [] then {} else OwnConstants(es[0]) + OwnConstantsOfAll(es[1..])
  }

  /** No constant comes after one that it clashes with: not after one of its own block, nor after one of an enclosing
      block before the branch. A test comes before both branches, and constants of the two branches never meet. */
  ghost predicate ConstantsApart(h: Host, before: set<Constant>, e: Expr)
    decreases e
  {
    match e
    case Word(s) => ClashFree(h, Text(WordText(s)), before)
    case Nat(d) => ClashFree(h, Natural(d), before)
    case Bool(b) => ClashFree(h, Truth(b), before)
    case ListOf(_, es) => AllApart(h, before, es)
    case IfThenElse(c, a, b) =>
      && ConstantsApart(h, before, c)
      && ConstantsApart(h, before + OwnConstants(c), a) && ConstantsApart(h, before + OwnConstants(c), b)
    case Echo(b) => ConstantsApart(h, before, b)
    case Untype(b) => ConstantsApart(h, before, b)
    case Apply(_, es) => AllApart(h, before, es)
    case _ => true
  }

  ghost predicate AllApart(h: Host, before: set<Constant>, es: seq<Expr>)
    decreases es
  {
    es == [] || (ConstantsApart(h, before, es[0]) && AllApart(h, before + OwnConstants(es[0]), es[1..]))
  }

  // ----- the code -----

  // Constants as composition emits them.
  ghost predicate AsEmitted(nodes: set<Node>) {
    forall n :: n in nodes ==> n.Const? && n.via.None?
  }

  function Held(nodes: set<Node>): set<Constant> {
    set n | n in nodes && n.Const? :: n.constant
  }

  lemma HeldBoth(a: set<Node>, b: set<Node>)
    ensures Held(a + b) == Held(a) + Held(b)
  {
  }

  lemma {:induction false} SafeAppend(h: Host, before: set<Node>, a: seq<Node>, b: seq<Node>)
    ensures ScopeSafe(h, before, a + b) <==> ScopeSafe(h, before, a) && ScopeSafe(h, before + Own(a), b)
    ensures Own(a + b) == Own(a) + Own(b)
    decreases a
  {
    if a == [] {
      assert a + b == b && before + Own(a) == before;
    } else {
      assert (a + b)[0] == a[0] && (a + b)[1..] == a[1..] + b && a == [a[0]] + a[1..];
      SafeAppend(h, before + Own([a[0]]), a[1..], b);
      assert before + Own([a[0]]) + Own(a[1..]) == before + Own(a);
    }
  }

  // An instruction that is no constant and no conditional.
  predicate Idle(n: Node) {
    !n.Const? && !n.Conditional?
  }

  lemma {:induction false} IdleSafe(h: Host, before: set<Node>, nodes: seq<Node>)
    requires forall n :: n in nodes ==> Idle(n)
    ensures ScopeSafe(h, before, nodes) && Own(nodes) == {}
    decreases nodes
  {
    if nodes != [] {
      var n := nodes[0];
      assert Idle(n) && Own([n]) == {} && before + Own([n]) == before;
      IdleSafe(h, before, nodes[1..]);
      assert nodes == [n] + nodes[1..];
    }
  }

  lemma {:induction false} NativeArgsIdle(cat: Catalogue, params: seq<Param>, args: seq<Variable>, st: State)
    requires |params| == |args|
    ensures var s := NativeArgs(cat, params, args, st).1; Grows(st, s) && forall n :: n in Added(st, s) ==> Idle(n)
  {
    NativeArgsGrows(cat, params, args, st);
    if args != [] {
      var p, s := NativeArg(cat, params[0].typ, args[0], st).1, NativeArgs(cat, params, args, st).1;
      NativeArgsIdle(cat, params[1..], args[1..], p);
      GrowsTransitive(st, p, s);
    }
  }

  lemma EvokeIdle(cat: Catalogue, z: Zid, f: Func, retval: Variable, args: seq<Variable>, st: State)
    requires |f.params| == |args|
    ensures var s := Evoke(cat, z, f, retval, args, st);
            |st.block| <= |s.block| && forall n :: n in Added(st, s) ==> Idle(n)
  {
    if f.kind.Native? {
      EvokeAdded(cat, z, f, retval, args, st);
      NativeArgsIdle(cat, f.params, args, st);
    }
  }

  // The code of an expression keeps the constants of its block apart exactly when the source does.
  ghost predicate Tells(h: Host, before: set<Node>, code: seq<Node>, apart: bool, own: set<Constant>) {
    (ScopeSafe(h, before, code) <==> apart) && AsEmitted(Own(code)) && Held(Own(code)) == own
  }

  lemma TellsIdle(h: Host, before: set<Node>, code: seq<Node>, more: seq<Node>, apart: bool, own: set<Constant>)
    requires Tells(h, before, code, apart, own) && forall n :: n in more ==> Idle(n)
    ensures Tells(h, before, code + more, apart, own)
  {
    SafeAppend(h, before, code, more);
    IdleSafe(h, before + Own(code), more);
  }

  lemma TellsBoth(h: Host, before: set<Node>, a: seq<Node>, b: seq<Node>, p: bool, q: bool, c: set<Constant>,
                  d: set<Constant>)
    requires Tells(h, before, a, p, c) && Tells(h, before + Own(a), b, q, d)
    ensures Tells(h, before, a + b, p && q, c + d)
  {
    SafeAppend(h, before, a, b);
    HeldBoth(Own(a), Own(b));
  }

  lemma TellsConstant(h: Host, before: set<Node>, v: Variable, c: Constant)
    requires AsEmitted(before)
    ensures Tells(h, before, [Const(v, c, None)], ClashFree(h, c, Held(before)), {c})
  {
    var n := Const(v, c, None);
    assert [n][1..] == [] && Own([n]) == {n};
    if ClearOf(h, n, before) {
      forall d | d in Held(before) ensures !Clash(h, c, d) {
        var m :| m in before && m.Const? && m.constant == d;
        assert !Mixed(h, n, m);
      }
    }
    if ClashFree(h, c, Held(before)) {
      forall m | m in before ensures !Mixed(h, n, m) {
        assert m.constant in Held(before);
      }
    }
  }

  lemma {:induction false} ComposeTells(h: Host, cat: Catalogue, fn: Zid, e: Expr, st: State, before: set<Node>)
    requires Compose(cat, fn, e, st).Success? && AsEmitted(before)
    ensures var r := Compose(cat, fn, e, st).value.1;
            Grows(st, r) && Tells(h, before, Added(st, r), ConstantsApart(h, Held(before), e), OwnConstants(e))
    decreases e, 2
  {
    hide Tells, Evoke, ScopeSafe, AsEmitted;
    ComposeGrows(cat, fn, e, st);
    var r := Compose(cat, fn, e, st).value.1;
    match e
    case Word(s) => ConstantTells(h, st, Text(WordText(s)), before);
    case Nat(d) => ConstantTells(h, st, Natural(d), before);
    case Bool(b) => ConstantTells(h, st, Truth(b), before);
    case Argument(_) => NothingTells(h, st, before);
    case Echo(b) => ComposeTells(h, cat, fn, b, st, before);
    case Untype(b) => ComposeTells(h, cat, fn, b, st, before);
    case ListOf(typ, es) =>
      ComposeAllTells(h, cat, fn, es, Bump(st), before);
      var q := ComposeAll(cat, fn, es, Bump(st)).value;
      var n := Build(Local(st.next), typ, q.0);
      assert Added(st, r) == Added(Bump(st), q.1) + [n];
      TellsIdle(h, before, Added(Bump(st), q.1), [n], AllApart(h, Held(before), es), OwnConstantsOfAll(es));
    case IfThenElse(_, _, _) => ComposeIfTells(h, cat, fn, e, st, before);
    case Apply(z, es) =>
      ComposeAllTells(h, cat, fn, es, st, before);
      var q := ComposeAll(cat, fn, es, st).value;
      EvokeGrows(cat, z, cat.funcs[z], Local(q.1.next), q.0, Bump(q.1));
      EvokeIdle(cat, z, cat.funcs[z], Local(q.1.next), q.0, Bump(q.1));
      assert Added(Bump(q.1), r) == Added(q.1, r);
      GrowsTransitive(st, q.1, r);
      TellsIdle(h, before, Added(st, q.1), Added(q.1, r), AllApart(h, Held(before), es), OwnConstantsOfAll(es));
    case Unknown =>
  }

  lemma ConstantTells(h: Host, st: State, c: Constant, before: set<Node>)
    requires AsEmitted(before)
    ensures Tells(h, before, Added(st, EmitConstant(st, c).1), ClashFree(h, c, Held(before)), {c})
  {
    assert Added(st, EmitConstant(st, c).1) == [Const(Local(st.next), c, None)];
    TellsConstant(h, before, Local(st.next), c);
  }

  lemma NothingTells(h: Host, st: State, before: set<Node>)
    ensures Tells(h, before, Added(st, st), true, {})
  {
    assert Added(st, st) == [];
  }

  lemma {:induction false} ComposeAllTells(h: Host, cat: Catalogue, fn: Zid, es: seq<Expr>, st: State,
                                           before: set<Node>)
    requires ComposeAll(cat, fn, es, st).Success? && AsEmitted(before)
    ensures var r := ComposeAll(cat, fn, es, st).value.1;
            Grows(st, r) && Tells(h, before, Added(st, r), AllApart(h, Held(before), es), OwnConstantsOfAll(es))
    decreases es, 0
  {
    ComposeAllGrows(cat, fn, es, st);
    if es == [] {
      NothingTells(h, st, before);
    } else {
      var p, r := Compose(cat, fn, es[0], st).value.1, ComposeAll(cat, fn, es, st).value.1;
      ComposeTells(h, cat, fn, es[0], st, before);
      var a := Added(st, p);
      assert AsEmitted(before + Own(a)) && Held(before + Own(a)) == Held(before) + OwnConstants(es[0]) by {
        HeldBoth(before, Own(a));
      }
      ComposeAllTells(h, cat, fn, es[1..], p, before + Own(a));
      GrowsTransitive(st, p, r);
      TellsBoth(h, before, a, Added(p, r), ConstantsApart(h, Held(before), es[0]),
                AllApart(h, Held(before) + OwnConstants(es[0]), es[1..]), OwnConstants(es[0]),
                OwnConstantsOfAll(es[1..]));
    }
  }

  // A branch starts an empty block and ends by assigning the result.
  lemma {:induction false} BranchTells(h: Host, cat: Catalogue, fn: Zid, e: Expr, result: Variable, st: State,
                                       before: set<Node>)
    requires ComposeBranch(cat, fn, e, result, st).Success? && AsEmitted(before)
    ensures ScopeSafe(h, before, ComposeBranch(cat, fn, e, result, st).value.block) <==>
            ConstantsApart(h, Held(before), e)
    decreases e, 3
  {
    var empty := st.(block := []);
    var r := Compose(cat, fn, e, empty).value;
    ComposeTells(h, cat, fn, e, empty, before);
    assert Added(empty, r.1) == r.1.block;
    TellsIdle(h, before, r.1.block, [Assign(result, r.0)], ConstantsApart(h, Held(before), e), OwnConstants(e));
  }

  lemma {:induction false} ComposeIfTells(h: Host, cat: Catalogue, fn: Zid, e: Expr, st: State, before: set<Node>)
    requires e.IfThenElse? && Compose(cat, fn, e, st).Success? && AsEmitted(before)
    ensures var r := Compose(cat, fn, e, st).value.1;
            Grows(st, r) && Tells(h, before, Added(st, r), ConstantsApart(h, Held(before), e), OwnConstants(e))
    decreases e, 1
  {
    ComposeGrows(cat, fn, e, st);
    var r, t := Compose(cat, fn, e, st).value.1, Compose(cat, fn, e.test, st).value;
    ComposeTells(h, cat, fn, e.test, st, before);
    var result, a := Local(t.1.next), Added(st, t.1);
    assert AsEmitted(before + Own(a)) && Held(before + Own(a)) == Held(before) + OwnConstants(e.test) by {
      HeldBoth(before, Own(a));
    }
    var p := ComposeBranch(cat, fn, e.thn, result, Bump(t.1)).value;
    BranchTells(h, cat, fn, e.thn, result, Bump(t.1), before + Own(a));
    var q := ComposeBranch(cat, fn, e.els, result, p).value;
    BranchTells(h, cat, fn, e.els, result, p, before + Own(a));
    var c := Conditional(t.0, p.block, q.block);
    assert Added(st, r) == a + [Declare(result), c];
    ChoiceTells(h, before + Own(a), result, c);
    var both := ConstantsApart(h, Held(before) + OwnConstants(e.test), e.thn)
                && ConstantsApart(h, Held(before) + OwnConstants(e.test), e.els);
    TellsBoth(h, before, a, [Declare(result), c], ConstantsApart(h, Held(before), e.test), both, OwnConstants(e.test),
              {});
    assert OwnConstants(e.test) + {} == OwnConstants(e.test);
  }

  lemma ChoiceTells(h: Host, before: set<Node>, result: Variable, c: Node)
    requires c.Conditional?
    ensures Tells(h, before, [Declare(result), c],
                  ScopeSafe(h, before, c.ifpart) && ScopeSafe(h, before, c.elsepart), {})
  {
    var d := Declare(result);
    IdleSafe(h, before, [d]);
    SafeAppend(h, before, [d], [c]);
    assert [d] + [c] == [d, c] && [c][1..] == [] && Own([c]) == {} && before + Own([d]) == before;
    assert ScopeSafe(h, before, [c]) <==> ScopeSafe(h, before, c.ifpart) && ScopeSafe(h, before, c.elsepart);
  }

  /** The constants of a body come apart in the code that composition emits exactly when they do in the source. */
  lemma ApartExact(h: Host, cat: Catalogue, fn: Zid, e: Expr, st: State)
    requires Compose(cat, fn, e, st.(block := [])).Success?
    ensures var r := Compose(cat, fn, e, st.(block := [])).value;
            ScopeSafe(h, {}, r.1.block + [Return(r.0)]) <==> ConstantsApart(h, {}, e)
  {
    var empty := st.(block := []);
    var r := Compose(cat, fn, e, empty).value;
    var none: set<Node>, n := {}, Return(r.0);
    ComposeTells(h, cat, fn, e, empty, none);
    assert Added(empty, r.1) == r.1.block && Held(none) == {};
    assert forall m :: m in [n] ==> Idle(m);
    TellsIdle(h, none, r.1.block, [n], ConstantsApart(h, Held(none), e), OwnConstants(e));
  }
}
