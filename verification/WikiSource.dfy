/**
  Which compositions the compiler translates correctly, told from their source: conditions on the expression, the
  catalogue and the host under which all passes keep the meaning (wikifunc/wikifunc.js:118-175, 421-482, 742-824).
 */
module WikiSource {
  import opened Common
  import opened WikiIR
  import opened WikiRun
  import opened WikiCse
  import opened WikiMerge
  import opened WikiConst
  import opened WikiDce
  import opened WikiCompose
  import opened WikiComposeProof
  import opened WikiApart
  import opened WikiComposeShape
  import opened WikiComposeMarks
  import opened WikiProgram

  // ----- the source -----

  // How often each function is called.
  function CallsIn(e: Expr): multiset<Zid>
    decreases e
  {
    match e
    case ListOf(_, es) => CallsInAll(es)
    case IfThenElse(c, a, b) => CallsIn(c) + CallsIn(a) + CallsIn(b)
    case Echo(b) => CallsIn(b)
    case Untype(b) => CallsIn(b)
    case Apply(z, es) => multiset{z} + CallsInAll(es)
    case _ => multiset{}
  }

  function CallsInAll(es: seq<Expr>): multiset<Zid>
    decreases es
  {
    if es == [] then multiset{} else CallsIn(es[0]) + CallsInAll(es[1..])
  }

  function ConstantsIn(e: Expr): set<Constant>
    decreases e
  {
    match e
    case Word(s) => {Text(WordText(s))}
    case Nat(d) => {Natural(d)}
    case Bool(b) => {Truth(b)}
    case ListOf(_, es) => ConstantsInAll(es)
    case IfThenElse(c, a, b) => ConstantsIn(c) + ConstantsIn(a) + ConstantsIn(b)
    case Echo(b) => ConstantsIn(b)
    case Untype(b) => ConstantsIn(b)
    case Apply(_, es) => ConstantsInAll(es)
    case _ => {}
  }

  function ConstantsInAll(es: seq<Expr>): set<Constant>
    decreases es
  {
    if es == [] then {} else ConstantsIn(es[0]) + ConstantsInAll(es[1..])
  }

  // Where the value of an expression comes from.
  datatype Head = Given | Chosen | Called(z: Zid) | Made

  function HeadOf(e: Expr): Head {
    match e
    case Argument(_) => Given
    case IfThenElse(_, _, _) => Chosen
    case Echo(b) => HeadOf(b)
    case Untype(b) => HeadOf(b)
    case Apply(z, _) => Called(z)
    case _ => Made
  }

  // The only lists are lists of arguments.
  predicate ArgumentLists(e: Expr)
    decreases e
  {
    match e
    case ListOf(_, es) => forall i :: 0 <= i < |es| ==> HeadOf(es[i]).Given? && ArgumentLists(es[i])
    case IfThenElse(c, a, b) => ArgumentLists(c) && ArgumentLists(a) && ArgumentLists(b)
    case Echo(b) => ArgumentLists(b)
    case Untype(b) => ArgumentLists(b)
    case Apply(_, es) => forall i :: 0 <= i < |es| ==> ArgumentLists(es[i])
    case _ => true
  }

  /** Every test is an argument, a conditional, or a call of a function that is called nowhere else in the body. */
  predicate TestsSimple(e: Expr, calls: multiset<Zid>)
    decreases e
  {
    match e
    case ListOf(_, es) => forall i :: 0 <= i < |es| ==> TestsSimple(es[i], calls)
    case IfThenElse(c, a, b) =>
      && (HeadOf(c).Given? || HeadOf(c).Chosen? || (HeadOf(c).Called? && calls[HeadOf(c).z] <= 1))
      && TestsSimple(c, calls) && TestsSimple(a, calls) && TestsSimple(b, calls)
    case Echo(b) => TestsSimple(b, calls)
    case Untype(b) => TestsSimple(b, calls)
    case Apply(_, es) => forall i :: 0 <= i < |es| ==> TestsSimple(es[i], calls)
    case _ => true
  }

  // The number converter agrees with parseInt on some constants.
  ghost predicate NumbersFit(h: Host, constants: set<Constant>) {
    forall conv: Conv, c :: c in constants && c.Natural? && h.converterName(conv) == NUMBER_CONVERTER ==>
      h.convert(conv, NaturalValue(c.digits)) == Some(h.parseInt(c.digits))
  }

  /** A body that survives all passes: converters that meet cancel, no constant comes after a loosely equal, different
      one, the number converter agrees with parseInt on them, tests are simple, and when the rule for lists is the one
      of the code, lists hold only arguments. */
  ghost predicate SourceFits(rule: ListRule, h: Host, cat: Catalogue, e: Expr) {
    && Cancels(h, cat, e) && ConstantsApart(h, {}, e) && NumbersFit(h, ConstantsIn(e))
    && TestsSimple(e, CallsIn(e)) && (rule.Elements? || ArgumentLists(e))
  }

  // ----- all instructions of some code -----

  lemma {:induction false} AllNodesAppend(a: seq<Node>, b: seq<Node>)
    ensures AllNodes(a + b) == AllNodes(a) + AllNodes(b)
  {
    if a == [] {
      assert a + b == b;
    } else {
      assert (a + b)[0] == a[0] && (a + b)[1..] == a[1..] + b;
      AllNodesAppend(a[1..], b);
    }
  }

  lemma AllNodesPush(a: seq<Node>, n: Node)
    ensures AllNodes(a + [n]) == AllNodes(a) + Flat(n)
  {
    AllNodesAppend(a, [n]);
    assert [n][1..] == [];
  }

  lemma PartsOf(nodes: seq<Node>)
    requires nodes != []
    ensures AllNodes(nodes[1..]) <= AllNodes(nodes)
    ensures if nodes[0].Conditional? then AllNodes(nodes[0].ifpart) + AllNodes(nodes[0].elsepart) <= AllNodes(nodes)
            else nodes[0] in AllNodes(nodes)
  {
  }

  lemma {:induction false} DefinedBy(nodes: seq<Node>, v: Variable) returns (n: Node)
    requires v in AllDefs(nodes)
    ensures n in AllNodes(nodes) && v in NodeDefs(n)
    decreases nodes
  {
    if v in NodeDefs(nodes[0]) {
      if nodes[0].Conditional? {
        n := DefinedBy(if v in AllDefs(nodes[0].ifpart) then nodes[0].ifpart else nodes[0].elsepart, v);
      } else {
        n := nodes[0];
      }
    } else {
      n := DefinedBy(nodes[1..], v);
    }
  }

  lemma {:induction false} DefinesIn(nodes: seq<Node>, n: Node)
    requires n in AllNodes(nodes)
    ensures NodeDefs(n) <= AllDefs(nodes) && !n.Conditional?
    decreases nodes
  {
    if n in Flat(nodes[0]) {
      if nodes[0].Conditional? {
        DefinesIn(if n in AllNodes(nodes[0].ifpart) then nodes[0].ifpart else nodes[0].elsepart, n);
      }
    } else {
      DefinesIn(nodes[1..], n);
    }
  }

  // In code that creates every variable once, an instruction is known by the variable it creates.
  lemma {:induction false} OneDefinition(nodes: seq<Node>, m: Node, n: Node, v: Variable)
    requires Unique(nodes) && m in AllNodes(nodes) && n in AllNodes(nodes) && v in NodeDefs(m) && v in NodeDefs(n)
    ensures m == n
    decreases nodes
  {
    var x, rest := nodes[0], nodes[1..];
    if m in AllNodes(rest) && n in AllNodes(rest) {
      OneDefinition(rest, m, n, v);
    } else if m in AllNodes(rest) || n in AllNodes(rest) {
      DefinesIn(rest, if m in AllNodes(rest) then m else n);
      InFlat(x, if m in AllNodes(rest) then n else m);
    } else if x.Conditional? {
      if m in AllNodes(x.ifpart) && n in AllNodes(x.ifpart) {
        OneDefinition(x.ifpart, m, n, v);
      } else if m in AllNodes(x.elsepart) && n in AllNodes(x.elsepart) {
        OneDefinition(x.elsepart, m, n, v);
      } else {
        DefinesIn(x.ifpart, if m in AllNodes(x.ifpart) then m else n);
        DefinesIn(x.elsepart, if m in AllNodes(x.ifpart) then n else m);
      }
    }
  }

  lemma InFlat(x: Node, n: Node)
    requires n in Flat(x)
    ensures NodeDefs(n) <= NodeDefs(x)
  {
    if x.Conditional? {
      DefinesIn(if n in AllNodes(x.ifpart) then x.ifpart else x.elsepart, n);
    }
  }

  // ----- variables that no duplicate can take away -----

  /** The results of calls that happen once, by function; the results of converting these; declared variables. */
  datatype Guard = Guard(own: map<Zid, Variable>, conv: map<Variable, Variable>, decl: set<Variable>)

  function Guarded(g: Guard): set<Variable> {
    g.own.Values + g.conv.Values + g.decl
  }

  // An instruction respects the guard: it creates a guarded variable only where the guard says so.
  ghost predicate Respects(g: Guard, n: Node) {
    match n
    case Call(z, dst, _) => (z in g.own ==> dst == g.own[z]) && (dst in Guarded(g) ==> z in g.own)
    case Convert(c, dst, src) =>
      && (c.FromNative? && src in g.conv ==> dst == g.conv[src])
      && (dst in Guarded(g) ==> c.FromNative? && src in g.conv)
    case Const(dst, _, _) => dst !in Guarded(g)
    case Build(dst, _, _) => dst !in Guarded(g)
    case Assign(dst, _) => dst !in g.conv
    case _ => true
  }

  ghost predicate AllRespect(g: Guard, nodes: seq<Node>)
    decreases nodes
  {
    nodes == [] || (NodeRespects(g, nodes[0]) && AllRespect(g, nodes[1..]))
  }

  ghost predicate NodeRespects(g: Guard, n: Node)
    decreases n
  {
    if n.Conditional? then AllRespect(g, n.ifpart) && AllRespect(g, n.elsepart) else Respects(g, n)
  }

  // Converted results are results of calls.
  ghost predicate Sensible(g: Guard) {
    g.conv.Keys <= g.own.Values
  }

  lemma {:induction false} RespectAppend(g: Guard, a: seq<Node>, b: seq<Node>)
    ensures AllRespect(g, a + b) <==> AllRespect(g, a) && AllRespect(g, b)
  {
    if a == [] {
      assert a + b == b;
    } else {
      assert (a + b)[0] == a[0] && (a + b)[1..] == a[1..] + b;
      RespectAppend(g, a[1..], b);
    }
  }

  lemma RespectPush(g: Guard, a: seq<Node>, n: Node)
    requires AllRespect(g, a) && NodeRespects(g, n)
    ensures AllRespect(g, a + [n])
  {
    RespectAppend(g, a, [n]);
    assert [n][1..] == [];
  }

  lemma {:induction false} RespectAt(g: Guard, nodes: seq<Node>, n: Node)
    requires AllRespect(g, nodes) && n in nodes
    ensures NodeRespects(g, n)
  {
    if n != nodes[0] {
      RespectAt(g, nodes[1..], n);
    }
  }

  lemma {:induction false} RespectRename(g: Guard, nodes: seq<Node>, a: Variable, b: Variable)
    requires AllRespect(g, nodes) && a !in g.conv && b !in g.conv
    ensures AllRespect(g, Rename(nodes, a, b))
    decreases nodes
  {
    if nodes != [] {
      if nodes[0].Conditional? {
        RespectRename(g, nodes[0].ifpart, a, b);
        RespectRename(g, nodes[0].elsepart, a, b);
      }
      RespectRename(g, nodes[1..], a, b);
      assert Rename(nodes, a, b)[1..] == Rename(nodes[1..], a, b);
      assert NodeRespects(g, RenameNode(nodes[0], a, b));
    }
  }

  // The instructions before create none of the variables that are still to come.
  ghost predicate Earlier(before: seq<Node>, defs: set<Variable>) {
    forall n :: n in before ==> NodeDefs(n) !! defs
  }

  // A duplicate creates no guarded variable, and none of the two has one.
  lemma DuplicateUnguarded(h: Host, g: Guard, x: Node, y: Node, defs: set<Variable>)
    requires Sensible(g) && !x.Conditional? && !x.Empty? && Same(h, x, y)
    requires Respects(g, x) && NodeRespects(g, y) && NodeDefs(y) !! defs && NodeDefs(x) <= defs
    ensures NodeDefs(x) !! Guarded(g)
    ensures Target(x).Some? ==> Target(x).value !in g.conv
    ensures Target(y).Some? ==> Target(y).value !in g.conv
  {
  }

  lemma {:induction false} CseGuards(h: Host, g: Guard, done: seq<Node>, todo: seq<Node>, scope: seq<Node>)
    requires Sensible(g) && AllRespect(g, done) && AllRespect(g, todo) && AllRespect(g, scope)
    requires Unique(todo) && Earlier(done + scope, AllDefs(todo))
    ensures Removed(h, done, todo, scope) !! Guarded(g) && AllRespect(g, Cse(h, done, todo, scope))
    decreases Size(todo), 1
  {
    if todo != [] {
      var x, rest := todo[0], todo[1..];
      if x.Conditional? {
        var y := CseConditional(h, x, scope + done);
        RespectAppend(g, scope, done);
        CseConditionalGuards(h, g, x, scope + done);
        CseConditionalDefs(h, x, scope + done);
        RespectPush(g, done, y);
        assert Earlier(done + [y] + scope, AllDefs(rest));
        CseGuards(h, g, done + [y], rest, scope);
      } else {
        var same := FirstSame(h, x, done + scope);
        if x.Empty? || same.None? {
          RespectPush(g, done, x);
          assert Earlier(done + [x] + scope, AllDefs(rest));
          CseGuards(h, g, done + [x], rest, scope);
        } else {
          CseGuardsRemove(h, g, done, todo, scope);
        }
      }
    }
  }

  lemma {:induction false} CseConditionalGuards(h: Host, g: Guard, x: Node, scope: seq<Node>)
    requires x.Conditional? && Sensible(g) && NodeRespects(g, x) && AllRespect(g, scope)
    requires Unique(x.ifpart) && Unique(x.elsepart) && Earlier(scope, NodeDefs(x))
    ensures RemovedInside(h, x, scope) !! Guarded(g) && NodeRespects(g, CseConditional(h, x, scope))
    decreases NodeSize(x), 0
  {
    assert [] + scope == scope;
    CseGuards(h, g, [], x.ifpart, scope);
    CseGuards(h, g, [], x.elsepart, scope);
  }

  lemma {:induction false} CseGuardsRemove(h: Host, g: Guard, done: seq<Node>, todo: seq<Node>, scope: seq<Node>)
    requires todo != [] && !todo[0].Conditional? && !todo[0].Empty? && FirstSame(h, todo[0], done + scope).Some?
    requires Sensible(g) && AllRespect(g, done) && AllRespect(g, todo) && AllRespect(g, scope)
    requires Unique(todo) && Earlier(done + scope, AllDefs(todo))
    ensures Removed(h, done, todo, scope) !! Guarded(g) && AllRespect(g, Cse(h, done, todo, scope))
    decreases Size(todo), 0
  {
    var x, rest := todo[0], todo[1..];
    var y := FirstSame(h, x, done + scope).value;
    FirstSameIn(h, x, done + scope);
    RespectAppend(g, done, scope);
    RespectAt(g, done + scope, y);
    DuplicateUnguarded(h, g, x, y, AllDefs(todo));
    RedirectSize(rest, x, y);
    RedirectKeeps(rest, x, y);
    RedirectRespects(g, rest, x, y);
    RedirectRespects(g, done, x, y);
    RespectPush(g, Redirect(done, x, y), Empty);
    RedirectEarlier(done, scope, x, y, AllDefs(todo), AllDefs(rest));
    CseGuards(h, g, Redirect(done, x, y) + [Empty], Redirect(rest, x, y), scope);
  }

  lemma RedirectRespects(g: Guard, nodes: seq<Node>, x: Node, y: Node)
    requires AllRespect(g, nodes)
    requires Target(x).Some? ==> Target(x).value !in g.conv
    requires Target(y).Some? ==> Target(y).value !in g.conv
    ensures AllRespect(g, Redirect(nodes, x, y))
  {
    if Target(x).Some? && Target(y).Some? {
      RespectRename(g, nodes, Target(x).value, Target(y).value);
    }
  }

  lemma RedirectEarlier(done: seq<Node>, scope: seq<Node>, x: Node, y: Node, defs: set<Variable>, rest: set<Variable>)
    requires Earlier(done + scope, defs) && rest <= defs
    ensures Earlier(Redirect(done, x, y) + [Empty] + scope, rest)
  {
    assert Earlier(done, defs) && Earlier(scope, defs) by {
      assert forall n :: n in done ==> n in done + scope;
      assert forall n :: n in scope ==> n in done + scope;
    }
    if Target(x).Some? && Target(y).Some? {
      RenameEarlier(done, Target(x).value, Target(y).value, defs);
    }
  }

  lemma {:induction false} RenameEarlier(nodes: seq<Node>, a: Variable, b: Variable, defs: set<Variable>)
    requires Earlier(nodes, defs)
    ensures Earlier(Rename(nodes, a, b), defs)
  {
    if nodes != [] {
      RenameEarlier(nodes[1..], a, b, defs);
      if nodes[0].Conditional? {
        RenameDefs(nodes[0].ifpart, a, b);
        RenameDefs(nodes[0].elsepart, a, b);
      }
      assert NodeDefs(RenameNode(nodes[0], a, b)) == NodeDefs(nodes[0]);
    }
  }

  // ----- what composition emits -----

  predicate IsCall(n: Node, z: Zid) {
    n.Call? && n.func == z
  }

  // A conversion of the result of native code.
  predicate IsFrom(n: Node, src: Variable) {
    n.Convert? && n.conv.FromNative? && n.src == src
  }

  ghost predicate OneEach(nodes: set<Node>, calls: multiset<Zid>) {
    && (forall m, n, z :: m in nodes && n in nodes && IsCall(m, z) && IsCall(n, z) && calls[z] <= 1 ==> m == n)
    && forall m, n, src :: m in nodes && n in nodes && IsFrom(m, src) && IsFrom(n, src) ==> m == n
  }

  predicate OfArguments(vs: seq<Variable>) {
    forall v :: v in vs ==> v.Formal?
  }

  // Instructions emitted for an expression, with variables numbered from lo to hi.
  ghost predicate Emits(lo: nat, hi: nat, calls: multiset<Zid>, constants: set<Constant>, lists: bool,
                        nodes: set<Node>) {
    && lo <= hi && OneEach(nodes, calls)
    && forall n :: n in nodes ==>
         && (n.Call? ==> n.func in calls)
         && (n.Convert? && n.conv.FromNative? ==> n.src.Local? && lo <= n.src.id < hi)
         && (n.Const? ==> n.constant in constants)
         && (n.Build? && !OfArguments(n.elements) ==> lists)
  }

  lemma EmitsBoth(lo: nat, mid: nat, hi: nat, a: multiset<Zid>, b: multiset<Zid>, c: set<Constant>, d: set<Constant>,
                  l: bool, k: bool, m: set<Node>, n: set<Node>)
    requires Emits(lo, mid, a, c, l, m) && Emits(mid, hi, b, d, k, n)
    ensures Emits(lo, hi, a + b, c + d, l || k, m + n)
  {
    forall x, y, z | x in m + n && y in m + n && IsCall(x, z) && IsCall(y, z) && (a + b)[z] <= 1 ensures x == y {
      assert a[z] <= 1 && b[z] <= 1;
      assert z in a ==> a[z] > 0;
      assert z in b ==> b[z] > 0;
    }
  }

  lemma EmitsMore(lo: nat, hi: nat, hi': nat, a: multiset<Zid>, c: set<Constant>, l: bool, k: bool, m: set<Node>,
                  n: Node)
    requires Emits(lo, hi, a, c, l, m) && hi <= hi' && (l ==> k)
    requires n.Declare? || n.Assign? || n.Return? || n.Empty? || (n.Build? && (k || OfArguments(n.elements)))
             || (n.Convert? && n.conv.ToNative?)
    ensures Emits(lo, hi', a, c, k, m + {n})
  {
  }

  // Where a variable comes from.
  ghost predicate HeadIs(v: Variable, nodes: set<Node>, head: Head) {
    match head
    case Given => v.Formal?
    case Chosen => Declare(v) in nodes
    case Called(z) => exists n :: n in nodes && IsCall(n, z)
                                  && (n.dst == v || exists m :: m in nodes && IsFrom(m, n.dst) && m.dst == v)
    case Made => true
  }

  // A variable that may be tested.
  ghost predicate Testable(v: Variable, nodes: set<Node>, calls: multiset<Zid>) {
    || HeadIs(v, nodes, Given) || HeadIs(v, nodes, Chosen)
    || exists z :: calls[z] <= 1 && HeadIs(v, nodes, Called(z))
  }

  lemma HeadStays(v: Variable, m: set<Node>, n: set<Node>, head: Head)
    requires HeadIs(v, m, head) && m <= n
    ensures HeadIs(v, n, head)
  {
  }

  ghost predicate AllTestable(tests: set<Variable>, nodes: set<Node>, calls: multiset<Zid>) {
    forall v :: v in tests ==> Testable(v, nodes, calls)
  }

  lemma TestableStays(tests: set<Variable>, m: set<Node>, n: set<Node>, calls: multiset<Zid>)
    requires AllTestable(tests, m, calls) && m <= n
    ensures AllTestable(tests, n, calls)
  {
    forall v | v in tests ensures Testable(v, n, calls) {
      if HeadIs(v, m, Chosen) {
        HeadStays(v, m, n, Chosen);
      } else if !HeadIs(v, m, Given) {
        var z :| calls[z] <= 1 && HeadIs(v, m, Called(z));
        HeadStays(v, m, n, Called(z));
      }
    }
  }

  lemma {:induction false} NativeArgsNodes(cat: Catalogue, params: seq<Param>, args: seq<Variable>, st: State)
    requires |params| == |args|
    ensures var s := NativeArgs(cat, params, args, st).1;
            && Grows(st, s) && Tests(Added(st, s)) == {}
            && forall n :: n in AllNodes(Added(st, s)) ==> n.Convert? && n.conv.ToNative?
  {
    NativeArgsGrows(cat, params, args, st);
    if args == [] {
      assert Added(st, st) == [];
    } else {
      var p := NativeArg(cat, params[0].typ, args[0], st).1;
      var s := NativeArgs(cat, params, args, st).1;
      NativeArgsNodes(cat, params[1..], args[1..], p);
      if p == st {
        assert Added(st, s) == Added(p, s);
      } else {
        var n := Convert(ToNative(params[0].typ), Local(st.next), args[0]);
        assert Added(st, s) == [n] + Added(p, s);
        AllNodesAppend([n], Added(p, s));
        TestsAppend([n], Added(p, s));
        OneNode(n);
        assert [n][1..] == [];
      }
    }
  }

  lemma OneOnly(n: Node)
    requires !n.Conditional?
    ensures AllNodes([n]) == {n} && Tests([n]) == {}
  {
    assert [n][1..] == [];
  }

  lemma NativeCallEmits(cat: Catalogue, z: Zid, f: Func, retval: Variable, args: seq<Variable>, native: nat, lo: nat)
    requires lo <= native && retval != Local(native)
    ensures var code := NativeCall(cat, z, f, retval, args, Local(native));
            && Emits(lo, if f.rettype in cat.fromjs then native + 1 else native, multiset{z}, {}, false, AllNodes(code))
            && HeadIs(retval, AllNodes(code), Called(z)) && Tests(code) == {}
  {
    var code := NativeCall(cat, z, f, retval, args, Local(native));
    if f.rettype in cat.fromjs {
      var c, d := Call(z, Local(native), args), Convert(FromNative(f.rettype), retval, Local(native));
      assert [d] + [] == [d];
      AllNodesAppend([c], [d]);
      TestsAppend([c], [d]);
      OneOnly(c);
      OneOnly(d);
      assert IsCall(c, z) && IsFrom(d, c.dst);
    } else {
      var c := Call(z, retval, args);
      assert code == [c];
      OneOnly(c);
      assert IsCall(c, z);
    }
  }

  lemma EvokeEmits(cat: Catalogue, z: Zid, f: Func, retval: Variable, args: seq<Variable>, st: State)
    requires |f.params| == |args| && st.next > 0 && retval == Local(st.next - 1)
    ensures var s := Evoke(cat, z, f, retval, args, st);
            && |st.block| <= |s.block| && st.next <= s.next
            && Emits(st.next - 1, s.next, multiset{z}, {}, false, AllNodes(Added(st, s)))
            && HeadIs(retval, AllNodes(Added(st, s)), Called(z)) && Tests(Added(st, s)) == {}
  {
    var s := Evoke(cat, z, f, retval, args, st);
    if f.kind.Native? {
      var p := NativeArgs(cat, f.params, args, st);
      EvokeAdded(cat, z, f, retval, args, st);
      NativeArgsNodes(cat, f.params, args, st);
      var code := NativeCall(cat, z, f, retval, p.0, Local(p.1.next));
      NativeCallEmits(cat, z, f, retval, p.0, p.1.next, p.1.next);
      assert Emits(st.next - 1, p.1.next, multiset{}, {}, false, AllNodes(Added(st, p.1)));
      EmitsBoth(st.next - 1, p.1.next, s.next, multiset{}, multiset{z}, {}, {}, false, false, AllNodes(Added(st, p.1)),
                AllNodes(code));
      assert multiset{} + multiset{z} == multiset{z};
      AllNodesAppend(Added(st, p.1), code);
      TestsAppend(Added(st, p.1), code);
      HeadStays(retval, AllNodes(code), AllNodes(Added(st, s)), Called(z));
    } else {
      var c := Call(z, retval, args);
      assert Added(st, s) == [c];
      OneNode(c);
      assert [c][1..] == [] && AllNodes([c]) == {c};
      assert IsCall(c, z);
    }
  }

  // All that is told about the code of an expression.
  ghost predicate Told(cat: Catalogue, e: Expr, st: State, r: (Variable, State), total: multiset<Zid>) {
    && Grows(st, r.1)
    && Emits(st.next, r.1.next, CallsIn(e), ConstantsIn(e), !ArgumentLists(e), AllNodes(Added(st, r.1)))
    && HeadIs(r.0, AllNodes(Added(st, r.1)), HeadOf(e))
    && (TestsSimple(e, total) ==> AllTestable(Tests(Added(st, r.1)), AllNodes(Added(st, r.1)), total))
  }

  ghost predicate ToldAll(cat: Catalogue, es: seq<Expr>, st: State, st': State, total: multiset<Zid>) {
    && Grows(st, st')
    && Emits(st.next, st'.next, CallsInAll(es), ConstantsInAll(es), exists i ::
               0 <= i < |es| && !ArgumentLists(es[i]), AllNodes(Added(st, st')))
    && ((forall i :: 0 <= i < |es| ==> TestsSimple(es[i], total)) ==>
          AllTestable(Tests(Added(st, st')), AllNodes(Added(st, st')), total))
  }

  lemma {:induction false} ComposeTold(cat: Catalogue, fn: Zid, e: Expr, st: State, total: multiset<Zid>)
    requires Compose(cat, fn, e, st).Success?
    ensures Told(cat, e, st, Compose(cat, fn, e, st).value, total)
    decreases e, 2
  {
    match e
    case Word(s) => ConstantTold(cat, e, st, Text(WordText(s)), total);
    case Nat(d) => ConstantTold(cat, e, st, Natural(d), total);
    case Bool(b) => ConstantTold(cat, e, st, Truth(b), total);
    case Argument(_) => assert Added(st, st) == [];
    case Echo(b) => ComposeTold(cat, fn, b, st, total);
    case Untype(b) => ComposeTold(cat, fn, b, st, total);
    case ListOf(typ, es) =>
      ComposeAllTold(cat, fn, es, Bump(st), total);
      GivenFormals(cat, fn, es, Bump(st));
      ListTold(cat, e, st, ComposeAll(cat, fn, es, Bump(st)).value.1, ComposeAll(cat, fn, es, Bump(st)).value.0, total);
    case IfThenElse(_, _, _) => ComposeIfTold(cat, fn, e, st, total);
    case Apply(z, es) =>
      ComposeAllTold(cat, fn, es, st, total);
      ComposeGrows(cat, fn, e, st);
      ApplyTold(cat, e, st, ComposeAll(cat, fn, es, st).value.1, ComposeAll(cat, fn, es, st).value.0, total);
    case Unknown =>
  }

  lemma ConstantTold(cat: Catalogue, e: Expr, st: State, c: Constant, total: multiset<Zid>)
    requires c in ConstantsIn(e) && HeadOf(e).Made?
    ensures Told(cat, e, st, EmitConstant(st, c), total)
  {
    var n := Const(Local(st.next), c, None);
    assert Added(st, EmitConstant(st, c).1) == [n];
    OneNode(n);
    assert [n][1..] == [];
  }

  lemma ListTold(cat: Catalogue, e: Expr, st: State, q: State, vs: seq<Variable>, total: multiset<Zid>)
    requires e.ListOf? && ToldAll(cat, e.elements, Bump(st), q, total)
    requires (forall i :: 0 <= i < |e.elements| ==> HeadOf(e.elements[i]).Given?) ==> OfArguments(vs)
    ensures Told(cat, e, st, (Local(st.next), Emit(q, Build(Local(st.next), e.typ, vs))), total)
  {
    hide Emits, AllTestable, HeadIs;
    var n := Build(Local(st.next), e.typ, vs);
    var r := Emit(q, n);
    var m := AllNodes(Added(Bump(st), q));
    assert Added(st, r) == Added(Bump(st), q) + [n];
    AllNodesAppend(Added(Bump(st), q), [n]);
    TestsAppend(Added(Bump(st), q), [n]);
    OneOnly(n);
    var k := exists i :: 0 <= i < |e.elements| && !ArgumentLists(e.elements[i]);
    EmitsLower(st.next, Bump(st).next, q.next, CallsInAll(e.elements), ConstantsInAll(e.elements), k, m);
    EmitsMore(st.next, q.next, q.next, CallsInAll(e.elements), ConstantsInAll(e.elements), k, !ArgumentLists(e), m, n);
    MadeHead(Local(st.next), m + {n});
    if TestsSimple(e, total) {
      assert Tests(Added(st, r)) == Tests(Added(Bump(st), q));
      TestableStays(Tests(Added(Bump(st), q)), m, m + {n}, total);
    }
  }

  // An expression that is an argument leaves no code, and its variable is the formal one.
  lemma {:induction false} GivenFormal(cat: Catalogue, fn: Zid, e: Expr, st: State)
    requires Compose(cat, fn, e, st).Success? && HeadOf(e).Given?
    ensures Compose(cat, fn, e, st).value.0.Formal?
    decreases e
  {
    match e
    case Echo(b) => GivenFormal(cat, fn, b, st);
    case Untype(b) => GivenFormal(cat, fn, b, st);
    case _ =>
  }

  lemma {:induction false} GivenFormals(cat: Catalogue, fn: Zid, es: seq<Expr>, st: State)
    requires ComposeAll(cat, fn, es, st).Success?
    ensures (forall i :: 0 <= i < |es| ==> HeadOf(es[i]).Given?) ==> OfArguments(ComposeAll(cat, fn, es, st).value.0)
    decreases es
  {
    if es != [] && forall i :: 0 <= i < |es| ==> HeadOf(es[i]).Given? {
      GivenFormal(cat, fn, es[0], st);
      GivenFormals(cat, fn, es[1..], Compose(cat, fn, es[0], st).value.1);
    }
  }

  lemma EmitsLower(lo: nat, mid: nat, hi: nat, a: multiset<Zid>, c: set<Constant>, l: bool, m: set<Node>)
    requires Emits(mid, hi, a, c, l, m) && lo <= mid
    ensures Emits(lo, hi, a, c, l, m)
  {
  }

  lemma MadeHead(v: Variable, nodes: set<Node>)
    ensures HeadIs(v, nodes, Made)
  {
  }

  // Code after code.
  lemma TestableBoth(a: seq<Node>, b: seq<Node>, total: multiset<Zid>)
    requires AllTestable(Tests(a), AllNodes(a), total) && AllTestable(Tests(b), AllNodes(b), total)
    ensures AllTestable(Tests(a + b), AllNodes(a + b), total)
  {
    AllNodesAppend(a, b);
    TestsAppend(a, b);
    TestableStays(Tests(a), AllNodes(a), AllNodes(a + b), total);
    TestableStays(Tests(b), AllNodes(b), AllNodes(a + b), total);
  }

  lemma {:induction false} ComposeAllTold(cat: Catalogue, fn: Zid, es: seq<Expr>, st: State, total: multiset<Zid>)
    requires ComposeAll(cat, fn, es, st).Success?
    ensures ToldAll(cat, es, st, ComposeAll(cat, fn, es, st).value.1, total)
    decreases es, 0
  {
    if es == [] {
      assert Added(st, st) == [];
    } else {
      var p, r := Compose(cat, fn, es[0], st).value.1, ComposeAll(cat, fn, es, st).value.1;
      ComposeTold(cat, fn, es[0], st, total);
      ComposeAllTold(cat, fn, es[1..], p, total);
      AllTold(cat, es, st, p, r, Compose(cat, fn, es[0], st).value.0, total);
    }
  }

  lemma AllTold(cat: Catalogue, es: seq<Expr>, st: State, p: State, r: State, v: Variable, total: multiset<Zid>)
    requires es != [] && Told(cat, es[0], st, (v, p), total) && ToldAll(cat, es[1..], p, r, total)
    ensures ToldAll(cat, es, st, r, total)
  {
    hide Emits, AllTestable, HeadIs;
    GrowsTransitive(st, p, r);
    AllNodesAppend(Added(st, p), Added(p, r));
    var rest := es[1..];
    var k := exists i :: 0 <= i < |rest| && !ArgumentLists(rest[i]);
    EmitsBoth(st.next, p.next, r.next, CallsIn(es[0]), CallsInAll(rest), ConstantsIn(es[0]), ConstantsInAll(rest),
              !ArgumentLists(es[0]), k, AllNodes(Added(st, p)), AllNodes(Added(p, r)));
    assert (!ArgumentLists(es[0]) || k) == exists i :: 0 <= i < |es| && !ArgumentLists(es[i]) by {
      if i :| 0 <= i < |es| && !ArgumentLists(es[i]) {
        assert i > 0 ==> es[i] == rest[i - 1];
      }
      if i :| 0 <= i < |rest| && !ArgumentLists(rest[i]) {
        assert es[i + 1] == rest[i];
      }
    }
    if forall i :: 0 <= i < |es| ==> TestsSimple(es[i], total) {
      assert forall i :: 0 <= i < |rest| ==> rest[i] == es[i + 1];
      TestableBoth(Added(st, p), Added(p, r), total);
    }
  }

  lemma ApplyTold(cat: Catalogue, e: Expr, st: State, q: State, vs: seq<Variable>, total: multiset<Zid>)
    requires e.Apply? && e.callee in cat.funcs && |cat.funcs[e.callee].params| == |vs|
    requires ToldAll(cat, e.args, st, q, total)
    requires Grows(st, Evoke(cat, e.callee, cat.funcs[e.callee], Local(q.next), vs, Bump(q)))
    ensures Told(cat, e, st, (Local(q.next), Evoke(cat, e.callee, cat.funcs[e.callee], Local(q.next), vs, Bump(q))),
                 total)
  {
    hide Emits, AllTestable, HeadIs, Evoke;
    var z, r := e.callee, Evoke(cat, e.callee, cat.funcs[e.callee], Local(q.next), vs, Bump(q));
    EvokeEmits(cat, z, cat.funcs[z], Local(q.next), vs, Bump(q));
    EvokeGrows(cat, z, cat.funcs[z], Local(q.next), vs, Bump(q));
    assert Bump(q).(next := q.next) == q;
    GrowsTransitive(st, q, r);
    assert Added(Bump(q), r) == Added(q, r);
    AllNodesAppend(Added(st, q), Added(q, r));
    var k := exists i :: 0 <= i < |e.args| && !ArgumentLists(e.args[i]);
    EmitsBoth(st.next, q.next, r.next, CallsInAll(e.args), multiset{z}, ConstantsInAll(e.args), {}, k, false,
              AllNodes(Added(st, q)), AllNodes(Added(q, r)));
    assert CallsIn(e) == CallsInAll(e.args) + multiset{z} && ConstantsIn(e) == ConstantsInAll(e.args) + {}
           && ArgumentLists(e) == !k;
    HeadStays(Local(q.next), AllNodes(Added(q, r)), AllNodes(Added(st, r)), Called(z));
    if TestsSimple(e, total) {
      NoTests(AllNodes(Added(q, r)), total);
      TestableBoth(Added(st, q), Added(q, r), total);
    }
  }

  lemma NoTests(nodes: set<Node>, total: multiset<Zid>)
    ensures AllTestable({}, nodes, total)
  {
  }

  // A branch ends by assigning the result.
  lemma {:induction false} BranchTold(cat: Catalogue, fn: Zid, e: Expr, result: Variable, st: State,
                                      total: multiset<Zid>)
    requires ComposeBranch(cat, fn, e, result, st).Success?
    ensures var p := ComposeBranch(cat, fn, e, result, st).value;
            && Emits(st.next, p.next, CallsIn(e), ConstantsIn(e), !ArgumentLists(e), AllNodes(p.block))
            && (TestsSimple(e, total) ==> AllTestable(Tests(p.block), AllNodes(p.block), total))
    decreases e, 3
  {
    var empty := st.(block := []);
    var r := Compose(cat, fn, e, empty).value;
    ComposeTold(cat, fn, e, empty, total);
    assert Added(empty, r.1) == r.1.block;
    var n := Assign(result, r.0);
    AllNodesPush(r.1.block, n);
    TestsAppend(r.1.block, [n]);
    OneNode(n);
    EmitsMore(st.next, r.1.next, r.1.next, CallsIn(e), ConstantsIn(e), !ArgumentLists(e), !ArgumentLists(e),
              AllNodes(r.1.block), n);
    if TestsSimple(e, total) {
      TestableStays(Tests(r.1.block), AllNodes(r.1.block), AllNodes(r.1.block + [n]), total);
    }
  }

  lemma {:induction false} ComposeIfTold(cat: Catalogue, fn: Zid, e: Expr, st: State, total: multiset<Zid>)
    requires e.IfThenElse? && Compose(cat, fn, e, st).Success?
    ensures Told(cat, e, st, Compose(cat, fn, e, st).value, total)
    decreases e, 1
  {
    hide Emits, AllTestable, HeadIs;
    var t := Compose(cat, fn, e.test, st).value;
    var result := Local(t.1.next);
    ComposeTold(cat, fn, e.test, st, total);
    var p := ComposeBranch(cat, fn, e.thn, result, Bump(t.1)).value;
    BranchTold(cat, fn, e.thn, result, Bump(t.1), total);
    var q := ComposeBranch(cat, fn, e.els, result, p).value;
    BranchTold(cat, fn, e.els, result, p, total);
    ComposeGrows(cat, fn, e, st);
    ChoiceTold(cat, e, st, t, p, q, total);
  }

  // The state after the code of a conditional.
  function Choice(t: (Variable, State), p: State, q: State): State {
    State(t.1.block + [Declare(Local(t.1.next)), Conditional(t.0, p.block, q.block)], q.next, q.marks)
  }

  lemma ChoiceNodes(before: seq<Node>, d: Node, c: Node)
    requires d.Declare? && c.Conditional?
    ensures AllNodes(before + [d, c]) == AllNodes(before) + ({d} + (AllNodes(c.ifpart) + AllNodes(c.elsepart)))
    ensures Tests(before + [d, c]) == Tests(before) + ({c.condition} + Tests(c.ifpart) + Tests(c.elsepart))
  {
    assert [d, c] == [d] + [c];
    AllNodesAppend(before, [d, c]);
    AllNodesAppend([d], [c]);
    TestsAppend(before, [d, c]);
    TestsAppend([d], [c]);
    OneNode(d);
    OneNode(c);
    assert [d][1..] == [] && [c][1..] == [];
  }

  lemma ChoiceEmits(e: Expr, lo: nat, mid: nat, next: nat, hi: nat, m: set<Node>, a: set<Node>, b: set<Node>, d: Node)
    requires e.IfThenElse? && d.Declare?
    requires Emits(lo, mid, CallsIn(e.test), ConstantsIn(e.test), !ArgumentLists(e.test), m)
    requires Emits(mid + 1, next, CallsIn(e.thn), ConstantsIn(e.thn), !ArgumentLists(e.thn), a)
    requires Emits(next, hi, CallsIn(e.els), ConstantsIn(e.els), !ArgumentLists(e.els), b)
    ensures Emits(lo, hi, CallsIn(e), ConstantsIn(e), !ArgumentLists(e), m + ({d} + (a + b)))
  {
    hide Emits;
    EmitsMore(lo, mid, mid + 1, CallsIn(e.test), ConstantsIn(e.test), !ArgumentLists(e.test), !ArgumentLists(e.test), m,
              d);
    EmitsBoth(lo, mid + 1, next, CallsIn(e.test), CallsIn(e.thn), ConstantsIn(e.test), ConstantsIn(e.thn),
              !ArgumentLists(e.test), !ArgumentLists(e.thn), m + {d}, a);
    EmitsBoth(lo, next, hi, CallsIn(e.test) + CallsIn(e.thn), CallsIn(e.els), ConstantsIn(e.test) + ConstantsIn(e.thn),
              ConstantsIn(e.els),
              !ArgumentLists(e.test) || !ArgumentLists(e.thn), !ArgumentLists(e.els), m + {d} + a, b);
    assert m + {d} + a + b == m + ({d} + (a + b));
  }

  lemma ChoiceTold(cat: Catalogue, e: Expr, st: State, t: (Variable, State), p: State, q: State, total: multiset<Zid>)
    requires e.IfThenElse? && Told(cat, e.test, st, t, total) && Grows(st, Choice(t, p, q))
    requires Emits(t.1.next + 1, p.next, CallsIn(e.thn), ConstantsIn(e.thn), !ArgumentLists(e.thn), AllNodes(p.block))
    requires Emits(p.next, q.next, CallsIn(e.els), ConstantsIn(e.els), !ArgumentLists(e.els), AllNodes(q.block))
    requires TestsSimple(e.thn, total) ==> AllTestable(Tests(p.block), AllNodes(p.block), total)
    requires TestsSimple(e.els, total) ==> AllTestable(Tests(q.block), AllNodes(q.block), total)
    ensures Told(cat, e, st, (Local(t.1.next), Choice(t, p, q)), total)
  {
    hide Emits, AllTestable;
    var d, c, r := Declare(Local(t.1.next)), Conditional(t.0, p.block, q.block), Choice(t, p, q);
    var before := Added(st, t.1);
    assert Added(st, r) == before + [d, c];
    ChoiceNodes(before, d, c);
    var all := AllNodes(before + [d, c]);
    ChoiceEmits(e, st.next, t.1.next, p.next, q.next, AllNodes(before), AllNodes(p.block), AllNodes(q.block), d);
    assert d in all;
    if TestsSimple(e, total) {
      ChoiceTestable(e, t.0, AllNodes(before), all, total);
      TestableStays(Tests(before), AllNodes(before), all, total);
      TestableStays(Tests(p.block), AllNodes(p.block), all, total);
      TestableStays(Tests(q.block), AllNodes(q.block), all, total);
      TestableUnion(Tests(before), {t.0}, Tests(p.block), Tests(q.block), all, total);
    }
  }

  lemma ChoiceTestable(e: Expr, v: Variable, before: set<Node>, all: set<Node>, total: multiset<Zid>)
    requires e.IfThenElse? && TestsSimple(e, total) && HeadIs(v, before, HeadOf(e.test)) && before <= all
    ensures AllTestable({v}, all, total)
  {
    HeadStays(v, before, all, HeadOf(e.test));
  }

  lemma TestableUnion(a: set<Variable>, b: set<Variable>, c: set<Variable>, d: set<Variable>, nodes: set<Node>,
                      total: multiset<Zid>)
    requires AllTestable(a, nodes, total) && AllTestable(b, nodes, total) && AllTestable(c, nodes, total)
    requires AllTestable(d, nodes, total)
    ensures AllTestable(a + (b + c + d), nodes, total)
  {
  }

  // ----- the guard of a body -----

  ghost function CallResult(nodes: set<Node>, z: Zid): Variable
    requires exists n :: n in nodes && IsCall(n, z)
  {
    var n :| n in nodes && IsCall(n, z);
    n.dst
  }

  ghost function FromResult(nodes: set<Node>, src: Variable): Variable
    requires exists n :: n in nodes && IsFrom(n, src)
  {
    var n :| n in nodes && IsFrom(n, src);
    n.dst
  }

  ghost function Owned(nodes: set<Node>, calls: multiset<Zid>): map<Zid, Variable> {
    map z | z in calls && calls[z] <= 1 && (exists n :: n in nodes && IsCall(n, z)) :: CallResult(nodes, z)
  }

  ghost function GuardOf(nodes: set<Node>, calls: multiset<Zid>): Guard {
    var own := Owned(nodes, calls);
    Guard(own,
          map v | v in own.Values && (exists n :: n in nodes && IsFrom(n, v)) :: FromResult(nodes, v),
          set n | n in nodes && n.Declare? :: n.dst)
  }

  // The instruction that creates a guarded variable.
  lemma GuardedBy(nodes: set<Node>, calls: multiset<Zid>, v: Variable) returns (n: Node)
    requires v in Guarded(GuardOf(nodes, calls))
    ensures n in nodes && NodeDefs(n) == {v}
    ensures n.Declare? || (n.Call? && n.func in GuardOf(nodes, calls).own) ||
            (n.Convert? && n.conv.FromNative? && n.src in GuardOf(nodes, calls).conv)
  {
    var g := GuardOf(nodes, calls);
    if v in g.own.Values {
      var z :| z in g.own && g.own[z] == v;
      n :| n in nodes && IsCall(n, z) && n.dst == v;
    } else if v in g.conv.Values {
      var r :| r in g.conv && g.conv[r] == v;
      n :| n in nodes && IsFrom(n, r) && n.dst == v;
    } else {
      n :| n in nodes && n.Declare? && n.dst == v;
    }
  }

  // Assignments are to declared variables.
  lemma {:induction false} AssignsDeclared(nodes: seq<Node>, def: set<Variable>, pend: Option<Variable>,
                                           target: Option<Variable>, n: Node)
    requires Scoped(nodes, def, pend, target) && n in AllNodes(nodes) && n.Assign?
    ensures n.dst in Open(pend, target) || Declare(n.dst) in AllNodes(nodes)
    decreases nodes
  {
    var x := nodes[0];
    if n in Flat(x) {
      if x.Conditional? {
        AssignsDeclared(if n in AllNodes(x.ifpart) then x.ifpart else x.elsepart, def, None, pend, n);
      }
    } else {
      AssignsDeclared(nodes[1..], NextDefs(x, def, pend), NextPend(x, pend), target, n);
    }
  }

  lemma GuardRespected(raw: seq<Node>, calls: multiset<Zid>, def: set<Variable>, n: Node)
    requires Scoped(raw, def, None, None) && Unique(raw) && OneEach(AllNodes(raw), calls)
    requires forall m :: m in AllNodes(raw) && m.Call? ==> m.func in calls
    requires n in AllNodes(raw)
    ensures Respects(GuardOf(AllNodes(raw), calls), n)
  {
    hide GuardOf, Scoped, Unique, OneEach;
    var nodes := AllNodes(raw);
    var g := GuardOf(nodes, calls);
    DefinesIn(raw, n);
    if Pure(n) && Target(n).value in Guarded(g) {
      var m := GuardedBy(nodes, calls, Target(n).value);
      OneDefinition(raw, m, n, Target(n).value);
    }
    if n.Call? && n.func in g.own {
      OwnIs(nodes, calls, n);
    }
    if n.Convert? && n.conv.FromNative? && n.src in g.conv {
      ConvIs(nodes, calls, n);
    }
    if n.Assign? && n.dst in g.conv {
      AssignsDeclared(raw, def, None, None, n);
      var k := ConvOfCall(nodes, calls, n.dst);
      OneDefinition(raw, k, Declare(n.dst), n.dst);
    }
  }

  lemma OwnIs(nodes: set<Node>, calls: multiset<Zid>, n: Node)
    requires OneEach(nodes, calls) && n in nodes && n.Call? && n.func in GuardOf(nodes, calls).own
    ensures n.dst == GuardOf(nodes, calls).own[n.func]
  {
    assert IsCall(n, n.func);
  }

  lemma ConvIs(nodes: set<Node>, calls: multiset<Zid>, n: Node)
    requires OneEach(nodes, calls) && n in nodes && n.Convert? && n.conv.FromNative?
    requires n.src in GuardOf(nodes, calls).conv
    ensures n.dst == GuardOf(nodes, calls).conv[n.src]
  {
    assert IsFrom(n, n.src);
  }

  lemma ConvOfCall(nodes: set<Node>, calls: multiset<Zid>, v: Variable) returns (n: Node)
    requires v in GuardOf(nodes, calls).conv
    ensures n in nodes && n.Call? && n.dst == v
  {
    var own := Owned(nodes, calls);
    var z :| z in own && own[z] == v;
    n :| n in nodes && IsCall(n, z) && n.dst == v;
  }

  lemma {:induction false} AllRespectFrom(g: Guard, nodes: seq<Node>)
    requires forall n :: n in AllNodes(nodes) ==> Respects(g, n)
    ensures AllRespect(g, nodes)
    decreases nodes
  {
    if nodes != [] {
      PartsOf(nodes);
      if nodes[0].Conditional? {
        AllRespectFrom(g, nodes[0].ifpart);
        AllRespectFrom(g, nodes[0].elsepart);
      }
      AllRespectFrom(g, nodes[1..]);
    }
  }

  // A variable that may be tested is an argument or guarded.
  lemma TestableGuarded(v: Variable, nodes: set<Node>, calls: multiset<Zid>)
    requires Testable(v, nodes, calls) && OneEach(nodes, calls)
    requires forall m :: m in nodes && m.Call? ==> m.func in calls
    ensures v.Formal? || v in Guarded(GuardOf(nodes, calls))
  {
    var g := GuardOf(nodes, calls);
    if HeadIs(v, nodes, Chosen) {
      assert Declare(v) in nodes && v in g.decl;
    } else if !v.Formal? {
      var z :| calls[z] <= 1 && HeadIs(v, nodes, Called(z));
      CalledGuarded(v, nodes, calls, z);
    }
  }

  lemma CalledGuarded(v: Variable, nodes: set<Node>, calls: multiset<Zid>, z: Zid)
    requires calls[z] <= 1 && HeadIs(v, nodes, Called(z)) && OneEach(nodes, calls)
    requires forall m :: m in nodes && m.Call? ==> m.func in calls
    ensures v in Guarded(GuardOf(nodes, calls))
  {
    hide OneEach;
    var g := GuardOf(nodes, calls);
    var n :| n in nodes && IsCall(n, z) && (n.dst == v || exists m :: m in nodes && IsFrom(m, n.dst) && m.dst == v);
    assert z in g.own;
    OwnIs(nodes, calls, n);
    assert n.dst in g.own.Values;
    if n.dst != v {
      var m :| m in nodes && IsFrom(m, n.dst) && m.dst == v;
      assert m.src in g.conv;
      ConvIs(nodes, calls, m);
      assert v in g.conv.Values;
    }
  }

  /** No test of a body with simple tests is removed. */
  lemma TestsStay(h: Host, raw: seq<Node>, calls: multiset<Zid>, def: set<Variable>, lo: nat, hi: nat)
    requires Scoped(raw, def, None, None) && Unique(raw) && InRange(AllDefs(raw), lo, hi)
    requires OneEach(AllNodes(raw), calls)
    requires forall m :: m in AllNodes(raw) && m.Call? ==> m.func in calls
    requires AllTestable(Tests(raw), AllNodes(raw), calls)
    ensures Removed(h, [], raw, []) !! Tests(raw)
  {
    var g := GuardOf(AllNodes(raw), calls);
    forall n | n in AllNodes(raw) ensures Respects(g, n) {
      GuardRespected(raw, calls, def, n);
    }
    AllRespectFrom(g, raw);
    CseGuards(h, g, [], raw, []);
    CseDefs(h, [], raw, []);
    forall v | v in Tests(raw) ensures v !in Removed(h, [], raw, []) {
      TestableGuarded(v, AllNodes(raw), calls);
    }
  }

  // ----- constants -----

  // A marked variable that the code creates holds one of its constants.
  lemma {:induction false} MarkOfNode(nodes: seq<Node>, marks: Marks, n: Node)
    requires Marked(nodes, marks) && n in AllNodes(nodes)
    ensures NodeMarked(n, marks)
    decreases nodes
  {
    if n in Flat(nodes[0]) {
      if nodes[0].Conditional? {
        MarkOfNode(if n in AllNodes(nodes[0].ifpart) then nodes[0].ifpart else nodes[0].elsepart, marks, n);
      }
    } else {
      MarkOfNode(nodes[1..], marks, n);
    }
  }

  lemma NumbersHold(h: Host, raw: seq<Node>, marks: Marks, constants: set<Constant>, formals: set<Variable>)
    requires Marked(raw, marks) && NumbersFit(h, constants) && (forall v :: v in formals ==> v !in marks)
    requires forall n :: n in AllNodes(raw) && n.Const? ==> n.constant in constants
    ensures NumbersAgree(h, marks, formals + AllDefs(raw))
  {
    forall conv: Conv, v | v in formals + AllDefs(raw) && v in marks && marks[v].Natural?
    && h.converterName(conv) == NUMBER_CONVERTER
      ensures h.convert(conv, NaturalValue(marks[v].digits)) == Some(h.parseInt(marks[v].digits))
    {
      var n := DefinedBy(raw, v);
      MarkOfNode(raw, marks, n);
      DefinesIn(raw, n);
      assert n.Const? && n.constant == marks[v];
    }
  }

  // ----- lists -----

  // Code that makes local variables, and lists of arguments only.
  predicate Plain(nodes: seq<Node>)
    decreases nodes
  {
    nodes == [] || (NodePlain(nodes[0]) && Plain(nodes[1..]))
  }

  predicate NodePlain(n: Node)
    decreases n
  {
    && (n.Build? ==> OfArguments(n.elements)) && (Target(n).Some? ==> Target(n).value.Local?)
    && (n.Conditional? ==> Plain(n.ifpart) && Plain(n.elsepart))
  }

  lemma {:induction false} PlainFrom(nodes: seq<Node>)
    requires forall n :: n in AllNodes(nodes) && n.Build? ==> OfArguments(n.elements)
    requires forall n :: n in AllNodes(nodes) && Target(n).Some? ==> Target(n).value.Local?
    ensures Plain(nodes)
    decreases nodes
  {
    if nodes != [] {
      PartsOf(nodes);
      if nodes[0].Conditional? {
        PlainFrom(nodes[0].ifpart);
        PlainFrom(nodes[0].elsepart);
      }
      PlainFrom(nodes[1..]);
    }
  }

  // Emitted code makes and assigns local variables.
  lemma LocalTargets(raw: seq<Node>, def: set<Variable>, lo: nat, hi: nat)
    requires Scoped(raw, def, None, None) && InRange(AllDefs(raw), lo, hi)
    ensures forall n :: n in AllNodes(raw) && Target(n).Some? ==> Target(n).value.Local?
  {
    forall n | n in AllNodes(raw) && Target(n).Some? ensures Target(n).value.Local? {
      DefinesIn(raw, n);
      if n.Assign? {
        AssignsDeclared(raw, def, None, None, n);
        DefinesIn(raw, Declare(n.dst));
      }
    }
  }

  lemma {:induction false} PlainAppend(a: seq<Node>, b: seq<Node>)
    ensures Plain(a + b) <==> Plain(a) && Plain(b)
  {
    if a == [] {
      assert a + b == b;
    } else {
      assert (a + b)[0] == a[0] && (a + b)[1..] == a[1..] + b;
      PlainAppend(a[1..], b);
    }
  }

  lemma PlainPush(a: seq<Node>, n: Node)
    requires Plain(a) && NodePlain(n)
    ensures Plain(a + [n])
  {
    PlainAppend(a, [n]);
    assert [n][1..] == [];
  }

  lemma {:induction false} RenamePlain(nodes: seq<Node>, a: Variable, b: Variable)
    requires Plain(nodes) && a.Local?
    ensures Plain(Rename(nodes, a, b))
    decreases nodes
  {
    if nodes != [] {
      var n := nodes[0];
      if n.Conditional? {
        RenamePlain(n.ifpart, a, b);
        RenamePlain(n.elsepart, a, b);
      } else if n.Build? {
        assert forall i :: 0 <= i < |n.elements| ==> n.elements[i] in n.elements;
      }
      RenamePlain(nodes[1..], a, b);
      assert Rename(nodes, a, b)[1..] == Rename(nodes[1..], a, b);
      assert NodePlain(RenameNode(n, a, b));
    }
  }

  lemma {:induction false} CsePlain(h: Host, done: seq<Node>, todo: seq<Node>, scope: seq<Node>)
    requires Plain(done) && Plain(todo)
    ensures Plain(Cse(h, done, todo, scope))
    decreases Size(todo), 1
  {
    if todo != [] {
      var x, rest := todo[0], todo[1..];
      if x.Conditional? {
        var y := CseConditional(h, x, scope + done);
        CseConditionalPlain(h, x, scope + done);
        PlainPush(done, y);
        CsePlain(h, done + [y], rest, scope);
      } else {
        var same := FirstSame(h, x, done + scope);
        if x.Empty? || same.None? {
          PlainPush(done, x);
          CsePlain(h, done + [x], rest, scope);
        } else {
          var y := same.value;
          RedirectSize(rest, x, y);
          if Target(x).Some? && Target(y).Some? {
            RenamePlain(done, Target(x).value, Target(y).value);
            RenamePlain(rest, Target(x).value, Target(y).value);
          }
          PlainPush(Redirect(done, x, y), Empty);
          CsePlain(h, Redirect(done, x, y) + [Empty], Redirect(rest, x, y), scope);
        }
      }
    }
  }

  lemma {:induction false} CseConditionalPlain(h: Host, x: Node, scope: seq<Node>)
    requires x.Conditional? && NodePlain(x)
    ensures NodePlain(CseConditional(h, x, scope))
    decreases NodeSize(x), 0
  {
    CsePlain(h, [], x.ifpart, scope);
    CsePlain(h, [], x.elsepart, scope);
  }

  lemma {:induction false} ConvertPlain(h: Host, marks: Marks, nodes: seq<Node>)
    requires Plain(nodes)
    ensures Plain(ConvertConstants(h, marks, nodes))
    decreases nodes
  {
    if nodes != [] {
      if nodes[0].Conditional? {
        ConvertPlain(h, marks, nodes[0].ifpart);
        ConvertPlain(h, marks, nodes[0].elsepart);
      }
      ConvertPlain(h, marks, nodes[1..]);
      assert ConvertConstants(h, marks, nodes)[1..] == ConvertConstants(h, marks, nodes[1..]);
    }
  }

  // Arguments come from outside, so that lists of them are served whatever is needed.
  lemma {:induction false} PlainServed(nodes: seq<Node>, need: set<Variable>, def: set<Variable>, seen: set<Variable>,
                                       pend: Option<Variable>, target: Option<Variable>)
    requires Plain(nodes) && Scoped(nodes, seen, pend, target) && (forall v :: v in seen && v.Formal? ==> v in def)
    requires pend.Some? ==> pend.value.Local?
    ensures ListsServed(nodes, need, def)
    decreases nodes
  {
    if nodes != [] && !nodes[0].Assign? && !nodes[0].Return? {
      var n := nodes[0];
      if n.Conditional? {
        PlainServed(n.ifpart, need, def, seen, None, pend);
        PlainServed(n.elsepart, need, def, seen, None, pend);
      }
      assert forall v :: v in NextDefs(n, seen, pend) && v !in seen ==> v.Local?;
      PlainServed(nodes[1..], need, def, NextDefs(n, seen, pend), NextPend(n, pend), target);
    }
  }

  // Code whose lists hold only arguments is eligible under either rule.
  lemma PlainEligible(rule: ListRule, h: Host, raw: seq<Node>, marks: Marks, live: set<Variable>, def: set<Variable>)
    requires Plain(raw) && Wf(Converted(h, raw, marks), def, None, None)
    ensures Eligible(rule, Converted(h, raw, marks), live, def)
  {
    var code := Converted(h, raw, marks);
    CsePlain(h, [], raw, []);
    ConvertPlain(h, marks, Cse(h, [], raw, []));
    DceIsLeastDemand(rule, code, live, def);
    PlainServed(code, Dce(rule, code, live).1, def, def, None, None);
  }

  // ----- whole programs -----

  // What is told about a whole body, its return included.
  lemma RawTold(cat: Catalogue, z: Zid, start: State)
    requires z in cat.funcs && Raw(cat, z, cat.funcs[z].body, start).Success?
    ensures var e, raw := cat.funcs[z].body, Raw(cat, z, cat.funcs[z].body, start).value;
            && Emits(start.next, raw.next, CallsIn(e), ConstantsIn(e), !ArgumentLists(e), AllNodes(raw.block))
            && InRange(AllDefs(raw.block), start.next, raw.next)
            && (TestsSimple(e, CallsIn(e)) ==> AllTestable(Tests(raw.block), AllNodes(raw.block), CallsIn(e)))
  {
    hide Emits, AllTestable, HeadIs;
    var e, empty := cat.funcs[z].body, start.(block := []);
    var r := Compose(cat, z, e, empty).value;
    ComposeTold(cat, z, e, empty, CallsIn(e));
    ComposeDefs(cat, z, e, empty);
    assert Added(empty, r.1) == r.1.block;
    var n := Return(r.0);
    AllNodesAppend(r.1.block, [n]);
    AllDefsAppend(r.1.block, [n]);
    TestsAppend(r.1.block, [n]);
    OneNode(n);
    OneOnly(n);
    EmitsMore(start.next, r.1.next, r.1.next, CallsIn(e), ConstantsIn(e), !ArgumentLists(e), !ArgumentLists(e),
              AllNodes(r.1.block), n);
    assert Tests(r.1.block + [n]) == Tests(r.1.block);
    if TestsSimple(e, CallsIn(e)) {
      TestableStays(Tests(r.1.block), AllNodes(r.1.block), AllNodes(r.1.block + [n]), CallsIn(e));
    }
  }

  /** A body that fits meets all conditions of the passes, wherever its composition starts. */
  lemma SourceSuffices(rule: ListRule, h: Host, cat: Catalogue, z: Zid, start: State, marks: Marks, live: set<Variable>,
                       code: seq<Node>)
    requires Comes(rule, h, cat, z, start, marks, live, code) && SourceFits(rule, h, cat, cat.funcs[z].body)
    ensures Conditions(rule, h, Raw(cat, z, cat.funcs[z].body, start).value.block, marks, live, Formals(z, cat))
  {
    var e, def := cat.funcs[z].body, Formals(z, cat);
    var st := Raw(cat, z, e, start).value;
    var raw := st.block;
    RawTold(cat, z, start);
    RawWf(cat, z, start, marks, def);
    ApartExact(h, cat, z, e, start);
    TestsStay(h, raw, CallsIn(e), def, start.next, st.next);
    NumbersHold(h, raw, marks, ConstantsIn(e), def);
    if rule.Indices? {
      LocalTargets(raw, def, start.next, st.next);
      PlainFrom(raw);
      CseScopedIffTestsKept(h, raw, def);
      ConvertWf(h, marks, Cse(h, [], raw, []), def, None, None);
      PlainEligible(rule, h, raw, marks, live, def);
    }
  }

  /** The compiler is correct for every program whose bodies fit, as told from their source. */
  lemma SourceSupported(rule: ListRule, h: Host, cat: Catalogue, p: Program)
    requires Emitted(rule, h, cat, p) && forall z :: z in p.code ==> SourceFits(rule, h, cat, cat.funcs[z].body)
    ensures Supported(rule, h, cat, p)
  {
    forall z | z in p.code
      ensures Cancels(h, cat, cat.funcs[z].body)
      ensures Conditions(rule, h, Raw(cat, z, cat.funcs[z].body, p.starts[z]).value.block, p.marks, p.lives[z],
                         Formals(z, cat))
    {
      SourceSuffices(rule, h, cat, z, p.starts[z], p.marks, p.lives[z], p.code[z]);
    }
  }

  lemma MainIdle(cat: Catalogue, z: Zid, f: Func, count: nat)
    requires |f.params| == count
    ensures forall n :: n in MainRaw(cat, z, f, count) ==> Idle(n)
  {
    var st := State([], count + 1, map[]);
    EvokeIdle(cat, z, f, Local(count), MainArgs(count), st);
    assert Added(st, MainState(cat, z, f, count)) == MainState(cat, z, f, count).block;
  }

  // The main body has no tests and no constants.
  lemma MainTold(cat: Catalogue, z: Zid, f: Func, count: nat, marks: Marks, def: set<Variable>)
    requires |f.params| == count && UnmarkedBelow(marks, MainEnd(cat, z, f, count))
    requires def == set v | v in MainArgs(count)
    ensures var raw := MainRaw(cat, z, f, count);
            && Wf(raw, def, None, None) && Plain(raw) && Tests(raw) == {}
            && forall v :: v in def + AllDefs(raw) ==> v !in marks
  {
    hide Emits, Plain;
    var args, st := MainArgs(count), State([], count, map[]);
    var s, raw := MainState(cat, z, f, count), MainRaw(cat, z, f, count);
    EvokeEmits(cat, z, f, Local(count), args, Bump(st));
    EvokeDefs(cat, z, f, Local(count), args, Bump(st));
    assert Added(Bump(st), s) == s.block;
    var n := Return(Local(count));
    AllNodesAppend(s.block, [n]);
    AllDefsAppend(s.block, [n]);
    TestsAppend(s.block, [n]);
    OneNode(n);
    OneOnly(n);
    MainNodes(s.block, n, count, s.next, z);
    MainWf(cat, z, f, count, marks, def);
    LocalTargets(raw, def, count, s.next);
    PlainFrom(raw);
  }

  lemma MainFits(rule: ListRule, h: Host, cat: Catalogue, z: Zid, f: Func, count: nat, marks: Marks,
                 live: set<Variable>)
    requires |f.params| == count && UnmarkedBelow(marks, MainEnd(cat, z, f, count))
    ensures Conditions(rule, h, MainRaw(cat, z, f, count), marks, live, set v | v in MainArgs(count))
  {
    hide Plain, Wf, MainRaw, MainEnd, UnmarkedBelow;
    var raw, def := MainRaw(cat, z, f, count), set v | v in MainArgs(count);
    MainTold(cat, z, f, count, marks, def);
    MainIdle(cat, z, f, count);
    IdleSafe(h, {}, raw);
    CseScopedIffTestsKept(h, raw, def);
    ConvertWf(h, marks, Cse(h, [], raw, []), def, None, None);
    PlainEligible(rule, h, raw, marks, live, def);
  }

  lemma MainNodes(block: seq<Node>, n: Node, lo: nat, hi: nat, z: Zid)
    requires Emits(lo, hi, multiset{z}, {}, false, AllNodes(block)) && n.Return?
    requires AllNodes(block + [n]) == AllNodes(block) + {n}
    ensures forall m :: m in AllNodes(block + [n]) ==> (m.Build? ==> OfArguments(m.elements)) && !m.Const?
  {
  }

  /** A compiled program whose bodies fit does what it means: started on any arguments, the emitted main body
      returns what invoking the compiled function gives. */
  lemma CompiledCorrect(rule: ListRule, h: Host, cat: Catalogue, p: Program, z: Zid, main: seq<Node>, depth: nat,
                        vals: seq<Value>)
    requires Emitted(rule, h, cat, p) && z in p.loaded && |cat.funcs[z].params| == |vals|
    requires UnmarkedBelow(p.marks, MainEnd(cat, z, cat.funcs[z], |vals|))
    requires main == Optimize(rule, h, MainRaw(cat, z, cat.funcs[z], |vals|), p.marks, {}).0
    requires forall y :: y in p.code ==> SourceFits(rule, h, cat, cat.funcs[y].body)
    requires Invoke(h, Meaning(h, cat, depth), cat, z, cat.funcs[z], vals).Some?
    ensures Run(h, Calls(h, cat, p.code, depth), main, BindMain(vals)) ==
            Returned(Invoke(h, Meaning(h, cat, depth), cat, z, cat.funcs[z], vals).value)
  {
    SourceSupported(rule, h, cat, p);
    MainFits(rule, h, cat, z, cat.funcs[z], |vals|, p.marks, {});
    var def := set v | v in MainArgs(|vals|);
    assert BindMain(vals).Keys == def by {
      forall v | v in BindMain(vals) ensures v in def {
        assert v == MainArgs(|vals|)[v.id];
      }
    }
    MainCorrect(rule, h, cat, p, z, {}, depth, vals);
  }
}
