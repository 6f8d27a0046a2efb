/**
  Reachability of functions and converters, and variable names
  (wikifunc/wikifunc.js:65-75, 415-419, 484-488, 702-740).
 */
module WikiReach {
  import opened Common
  import opened WikiIR
  import opened WikiRun
  import opened WikiCse
  import opened WikiConst
  import opened WikiDce
  import opened WikiCompose
  import opened WikiComposeProof
  import opened WikiLinked
  import opened WikiProgram

  function NodeItems(n: Node): set<Item>
    decreases n
  {
    match n
    case Call(z, _, _) => {FuncItem(z)}
    case Convert(c, _, _) => {ConvItem(c)}
    case Const(_, _, via) => if via.Some? then {ConvItem(via.value)} else {}
    case Conditional(_, a, b) => Items(a) + Items(b)
    case _ => {}
  }

  function Items(nodes: seq<Node>): set<Item>
    decreases nodes
  {
    if nodes == [] then {} else NodeItems(nodes[0]) + Items(nodes[1..])
  }

  ghost predicate ClosedItems(code: Code, items: set<Item>) {
    forall i :: i in items && i.FuncItem? && i.z in code ==> Items(code[i.z]) <= items
  }

  // The two oracles answer calls of functions in the set in the same way.
  ghost predicate AnswerAlike(a: Oracle, b: Oracle, items: set<Item>) {
    forall z: Zid, vals: seq<Value> :: FuncItem(z) in items ==> b(z, vals) == a(z, vals)
  }

  lemma {:induction false} StepOnly(h: Host, a: Oracle, b: Oracle, items: set<Item>, n: Node, env: Env)
    requires NodeItems(n) <= items && AnswerAlike(a, b, items)
    ensures Step(OnlyConverters(h, items), b, n, env) == Step(h, a, n, env)
    decreases n
  {
    match n
    case Call(z, _, _) => assert FuncItem(z) in items;
    case Convert(c, _, _) => assert ConvItem(c) in items;
    case Conditional(c, p, q) =>
      RunOnly(h, a, b, items, p, env);
      RunOnly(h, a, b, items, q, env);
    case _ =>
  }

  lemma {:induction false} RunOnly(h: Host, a: Oracle, b: Oracle, items: set<Item>, nodes: seq<Node>, env: Env)
    requires Items(nodes) <= items && AnswerAlike(a, b, items)
    ensures Run(OnlyConverters(h, items), b, nodes, env) == Run(h, a, nodes, env)
    decreases nodes
  {
    if nodes != [] {
      StepOnly(h, a, b, items, nodes[0], env);
      var o := Step(h, a, nodes[0], env);
      if o.Running? {
        RunOnly(h, a, b, items, nodes[1..], o.env);
      }
    }
  }

  lemma {:induction false} CallsOnly(h: Host, cat: Catalogue, code: Code, items: set<Item>, depth: nat)
    requires ClosedItems(code, items)
    ensures AnswerAlike(Calls(h, cat, code, depth),
                        Calls(OnlyConverters(h, items), OnlyFunctions(cat, items), code, depth), items)
    decreases depth
  {
    var h', cat' := OnlyConverters(h, items), OnlyFunctions(cat, items);
    if depth > 0 {
      CallsOnly(h, cat, code, items, depth - 1);
    }
    forall z: Zid, vals: seq<Value> | FuncItem(z) in items
      ensures CallOf(h', cat', code, depth, z, vals) == CallOf(h, cat, code, depth, z, vals)
    {
      if z in cat.funcs && |cat.funcs[z].params| == |vals| && cat.funcs[z].kind.Composition? && depth > 0 && z in code {
        RunOnly(h, Calls(h, cat, code, depth - 1), Calls(h', cat', code, depth - 1), items, code[z],
                Bind(z, cat.funcs[z].params, vals));
      }
    }
  }

  /** Any closed set with what the main body refers to is enough to run it. */
  lemma ClosedEnough(main: seq<Node>, code: Code, items: set<Item>)
    requires Items(main) <= items && ClosedItems(code, items)
    ensures Enough(main, code, items)
  {
    forall h: Host, cat: Catalogue, depth: nat, env: Env ensures SameRun(h, cat, code, main, items, depth, env) {
      CallsOnly(h, cat, code, items, depth);
      RunOnly(h, Calls(h, cat, code, depth), Calls(OnlyConverters(h, items), OnlyFunctions(cat, items), code, depth),
              items, main, env);
    }
  }

  function Universe(code: Code): set<Item> {
    set z, i | z in code && i in Items(code[z]) :: i
  }

  /** The reachable items: the least set that contains what the main body refers to and is closed under the
      bodies of the functions in it. Items found while the set is iterated are visited as well. A program that has
      only these items runs as the whole program does. */
  method Reach(main: seq<Node>, code: Code) returns (reachable: set<Item>)
    ensures Items(main) <= reachable && ClosedItems(code, reachable)
    ensures forall s: set<Item> :: Items(main) <= s && ClosedItems(code, s) ==> reachable <= s
    ensures Enough(main, code, reachable)
  {
    hide Enough;
    reachable := Items(main);
    while true
      invariant Items(main) <= reachable <= Items(main) + Universe(code)
      invariant forall s: set<Item> :: Items(main) <= s && ClosedItems(code, s) ==> reachable <= s
      decreases Items(main) + Universe(code) - reachable
    {
      var before := reachable;
      var visited: set<Item> := {};
      while reachable - visited != {}
        invariant before <= reachable && visited <= reachable
        invariant Items(main) <= reachable <= Items(main) + Universe(code)
        invariant forall i :: i in visited && i.FuncItem? && i.z in code ==> Items(code[i.z]) <= reachable
        invariant forall s: set<Item> :: Items(main) <= s && ClosedItems(code, s) ==> reachable <= s
        decreases Items(main) + Universe(code) - visited
      {
        var item :| item in reachable - visited;
        visited := visited + {item};
        if item.FuncItem? && item.z in code {
          assert Items(code[item.z]) <= Universe(code);
          reachable := reachable + Items(code[item.z]);
        }
      }
      if reachable == before {
        ClosedEnough(main, code, reachable);
        return;
      }
    }
  }

  // ----- everything that is referred to is there -----

  // Loading functions registers them, and the converters of the native ones.
  ghost predicate Provided(cat: Catalogue, loaded: set<Zid>, item: Item) {
    match item
    case FuncItem(z) => z in loaded
    case ConvItem(ToNative(t)) =>
      exists z, p :: z in loaded && z in cat.funcs && cat.funcs[z].kind.Native? && p in cat.funcs[z].params
                     && p.typ == t
    case ConvItem(FromNative(t)) =>
      exists z :: z in loaded && z in cat.funcs && cat.funcs[z].kind.Native? && cat.funcs[z].rettype == t
  }

  ghost predicate AllProvided(cat: Catalogue, loaded: set<Zid>, nodes: seq<Node>) {
    forall i :: i in Items(nodes) ==> Provided(cat, loaded, i)
  }

  lemma {:induction false} ItemsAppend(a: seq<Node>, b: seq<Node>)
    ensures Items(a + b) == Items(a) + Items(b)
  {
    if a == [] {
      assert a + b == b;
    } else {
      assert (a + b)[0] == a[0] && (a + b)[1..] == a[1..] + b;
      ItemsAppend(a[1..], b);
    }
  }

  lemma ItemsPush(a: seq<Node>, n: Node)
    ensures Items(a + [n]) == Items(a) + NodeItems(n)
  {
    ItemsAppend(a, [n]);
    assert [n][1..] == [] && Items([n]) == NodeItems(n) + Items([]);
  }

  lemma {:induction false} NativeArgsItems(cat: Catalogue, loaded: set<Zid>, z: Zid, params: seq<Param>,
                                           args: seq<Variable>, st: State)
    requires |params| == |args| && z in loaded && z in cat.funcs && cat.funcs[z].kind.Native?
    requires forall p :: p in params ==> p in cat.funcs[z].params
    ensures var s := NativeArgs(cat, params, args, st).1; forall i :: i in Items(s.block) ==>
            i in Items(st.block) || Provided(cat, loaded, i)
  {
    if args != [] {
      var p := NativeArg(cat, params[0].typ, args[0], st).1;
      NativeArgsItems(cat, loaded, z, params[1..], args[1..], p);
      if p.block != st.block {
        ItemsPush(st.block, p.block[|st.block|]);
        assert params[0] in cat.funcs[z].params;
      }
    }
  }

  lemma EvokeItems(cat: Catalogue, loaded: set<Zid>, z: Zid, retval: Variable, args: seq<Variable>, st: State)
    requires z in loaded && z in cat.funcs && |cat.funcs[z].params| == |args| && AllProvided(cat, loaded, st.block)
    ensures AllProvided(cat, loaded, Evoke(cat, z, cat.funcs[z], retval, args, st).block)
  {
    var f := cat.funcs[z];
    if f.kind.Native? {
      NativeArgsItems(cat, loaded, z, f.params, args, st);
      var p := NativeArgs(cat, f.params, args, st);
      if f.rettype in cat.fromjs {
        var n := Call(z, Local(p.1.next), p.0);
        ItemsPush(p.1.block, n);
        ItemsPush(p.1.block + [n], Convert(FromNative(f.rettype), retval, Local(p.1.next)));
      } else {
        ItemsPush(p.1.block, Call(z, retval, p.0));
      }
    } else {
      ItemsPush(st.block, Call(z, retval, args));
    }
  }

  lemma {:induction false} ComposeItems(cat: Catalogue, loaded: set<Zid>, fn: Zid, e: Expr, st: State)
    requires Compose(cat, fn, e, st).Success? && Callees(e) <= loaded && AllProvided(cat, loaded, st.block)
    ensures AllProvided(cat, loaded, Compose(cat, fn, e, st).value.1.block)
    decreases e, 0
  {
    match e
    case Word(s) => ItemsPush(st.block, Const(Local(st.next), Text(WordText(s)), None));
    case Nat(d) => ItemsPush(st.block, Const(Local(st.next), Natural(d), None));
    case Bool(b) => ItemsPush(st.block, Const(Local(st.next), Truth(b), None));
    case Argument(_) =>
    case Echo(b) => ComposeItems(cat, loaded, fn, b, st);
    case Untype(b) => ComposeItems(cat, loaded, fn, b, st);
    case ListOf(typ, es) =>
      ComposeAllItems(cat, loaded, fn, es, Bump(st));
      var q := ComposeAll(cat, fn, es, Bump(st)).value;
      ItemsPush(q.1.block, Build(Local(st.next), typ, q.0));
    case IfThenElse(c, a, b) =>
      ComposeItems(cat, loaded, fn, c, st);
      var t := Compose(cat, fn, c, st).value;
      var result := Local(t.1.next);
      var p := ComposeBranch(cat, fn, a, result, Bump(t.1)).value;
      var q := ComposeBranch(cat, fn, b, result, p).value;
      BranchItems(cat, loaded, fn, a, result, Bump(t.1));
      BranchItems(cat, loaded, fn, b, result, p);
      var n := Conditional(t.0, p.block, q.block);
      ItemsPush(t.1.block, Declare(result));
      ItemsPush(t.1.block + [Declare(result)], n);
      assert t.1.block + [Declare(result), n] == t.1.block + [Declare(result)] + [n];
    case Apply(z, es) =>
      ComposeAllItems(cat, loaded, fn, es, st);
      var q := ComposeAll(cat, fn, es, st).value;
      EvokeItems(cat, loaded, z, Local(q.1.next), q.0, Bump(q.1));
    case Unknown =>
  }

  lemma {:induction false} BranchItems(cat: Catalogue, loaded: set<Zid>, fn: Zid, e: Expr, result: Variable, st: State)
    requires ComposeBranch(cat, fn, e, result, st).Success? && Callees(e) <= loaded
    ensures AllProvided(cat, loaded, ComposeBranch(cat, fn, e, result, st).value.block)
    decreases e, 1
  {
    ComposeItems(cat, loaded, fn, e, st.(block := []));
    var r := Compose(cat, fn, e, st.(block := [])).value;
    ItemsPush(r.1.block, Assign(result, r.0));
  }

  lemma {:induction false} ComposeAllItems(cat: Catalogue, loaded: set<Zid>, fn: Zid, es: seq<Expr>, st: State)
    requires ComposeAll(cat, fn, es, st).Success? && CalleesOfAll(es) <= loaded && AllProvided(cat, loaded, st.block)
    ensures AllProvided(cat, loaded, ComposeAll(cat, fn, es, st).value.1.block)
    decreases es, 0
  {
    if es != [] {
      ComposeItems(cat, loaded, fn, es[0], st);
      ComposeAllItems(cat, loaded, fn, es[1..], Compose(cat, fn, es[0], st).value.1);
    }
  }

  // No pass introduces a reference.
  lemma {:induction false} RenameItems(nodes: seq<Node>, a: Variable, b: Variable)
    ensures Items(Rename(nodes, a, b)) == Items(nodes)
    decreases nodes
  {
    if nodes != [] {
      if nodes[0].Conditional? {
        RenameItems(nodes[0].ifpart, a, b);
        RenameItems(nodes[0].elsepart, a, b);
      }
      RenameItems(nodes[1..], a, b);
      assert NodeItems(RenameNode(nodes[0], a, b)) == NodeItems(nodes[0]);
      assert Rename(nodes, a, b)[1..] == Rename(nodes[1..], a, b);
    }
  }

  lemma {:induction false} CseItems(h: Host, done: seq<Node>, todo: seq<Node>, scope: seq<Node>)
    ensures Items(Cse(h, done, todo, scope)) <= Items(done) + Items(todo)
    decreases Size(todo), 1
  {
    if todo != [] {
      var x, rest := todo[0], todo[1..];
      if x.Conditional? {
        var y := CseConditional(h, x, scope + done);
        CseConditionalItems(h, x, scope + done);
        ItemsPush(done, y);
        CseItems(h, done + [y], rest, scope);
      } else {
        var same := FirstSame(h, x, done + scope);
        if x.Empty? || same.None? {
          ItemsPush(done, x);
          CseItems(h, done + [x], rest, scope);
        } else {
          var y := same.value;
          RedirectSize(rest, x, y);
          if Target(x).Some? && Target(y).Some? {
            RenameItems(done, Target(x).value, Target(y).value);
            RenameItems(rest, Target(x).value, Target(y).value);
          }
          ItemsPush(Redirect(done, x, y), Empty);
          CseItems(h, Redirect(done, x, y) + [Empty], Redirect(rest, x, y), scope);
        }
      }
    }
  }

  lemma {:induction false} CseConditionalItems(h: Host, x: Node, scope: seq<Node>)
    requires x.Conditional?
    ensures NodeItems(CseConditional(h, x, scope)) <= NodeItems(x)
    decreases NodeSize(x), 0
  {
    CseItems(h, [], x.ifpart, scope);
    CseItems(h, [], x.elsepart, scope);
  }

  lemma {:induction false} ConvertItems(h: Host, marks: Marks, nodes: seq<Node>)
    ensures Items(ConvertConstants(h, marks, nodes)) == Items(nodes)
    decreases nodes
  {
    if nodes != [] {
      if nodes[0].Conditional? {
        ConvertItems(h, marks, nodes[0].ifpart);
        ConvertItems(h, marks, nodes[0].elsepart);
      }
      ConvertItems(h, marks, nodes[1..]);
      assert NodeItems(ConvertNode(h, marks, nodes[0])) == NodeItems(nodes[0]);
      assert ConvertConstants(h, marks, nodes)[1..] == ConvertConstants(h, marks, nodes[1..]);
    }
  }

  lemma {:induction false} DceItems(rule: ListRule, nodes: seq<Node>, live: set<Variable>)
    ensures Items(Dce(rule, nodes, live).0) <= Items(nodes)
    decreases nodes
  {
    if nodes != [] {
      var n, mid := nodes[0], Dce(rule, nodes[1..], live);
      DceItems(rule, nodes[1..], live);
      if n.Conditional? {
        var l0 := mid.1 + {n.condition};
        DceItems(rule, n.ifpart, l0);
        DceItems(rule, n.elsepart, Dce(rule, n.ifpart, l0).1);
      }
      var q := DceNode(rule, n, mid.1);
      var r := Dce(rule, nodes, live).0;
      assert r[0] == q.0 && r[1..] == mid.0 && NodeItems(q.0) <= NodeItems(n);
    }
  }

  lemma OptimizeItems(rule: ListRule, h: Host, cat: Catalogue, loaded: set<Zid>, raw: seq<Node>, marks: Marks,
                      live: set<Variable>)
    requires AllProvided(cat, loaded, raw)
    ensures AllProvided(cat, loaded, Optimize(rule, h, raw, marks, live).0)
  {
    var c := Cse(h, [], raw, []);
    CseItems(h, [], raw, []);
    ConvertItems(h, marks, c);
    DceItems(rule, ConvertConstants(h, marks, c), live);
  }

  /** Every function or converter that emitted code refers to has been loaded, so code generation, which
      prints exactly the loaded items that are reachable, leaves no reference dangling. */
  lemma ReachableIsProvided(rule: ListRule, h: Host, cat: Catalogue, p: Program, main: seq<Node>, reachable: set<Item>)
    requires Emitted(rule, h, cat, p) && AllProvided(cat, p.loaded, main)
    requires forall s: set<Item> :: Items(main) <= s && ClosedItems(p.code, s) ==> reachable <= s
    ensures forall i :: i in reachable ==> Provided(cat, p.loaded, i)
  {
    var s := set i | i in Items(main) + Universe(p.code) && Provided(cat, p.loaded, i);
    assert Items(main) <= s;
    forall z | z in p.code
      ensures Items(p.code[z]) <= s
    {
      BodyProvided(rule, h, cat, p, z);
      assert Items(p.code[z]) <= Universe(p.code);
    }
    assert ClosedItems(p.code, s);
  }

  lemma BodyProvided(rule: ListRule, h: Host, cat: Catalogue, p: Program, z: Zid)
    requires Emitted(rule, h, cat, p) && z in p.code && z in p.loaded && cat.funcs[z].kind.Composition?
    ensures AllProvided(cat, p.loaded, p.code[z])
  {
    RawProvided(cat, p.loaded, z, p.starts[z]);
    OptimizeItems(rule, h, cat, p.loaded, Raw(cat, z, cat.funcs[z].body, p.starts[z]).value.block, p.marks, p.lives[z]);
  }

  lemma RawProvided(cat: Catalogue, loaded: set<Zid>, z: Zid, start: State)
    requires z in cat.funcs && Callees(cat.funcs[z].body) <= loaded
    requires Raw(cat, z, cat.funcs[z].body, start).Success?
    ensures AllProvided(cat, loaded, Raw(cat, z, cat.funcs[z].body, start).value.block)
  {
    var e, empty := cat.funcs[z].body, start.(block := []);
    var r := Compose(cat, z, e, empty).value;
    ComposeItems(cat, loaded, z, e, empty);
    ItemsPush(r.1.block, Return(r.0));
  }

  lemma MainProvided(rule: ListRule, h: Host, cat: Catalogue, loaded: set<Zid>, z: Zid, marks: Marks,
                     live: set<Variable>)
    requires z in loaded && z in cat.funcs
    ensures AllProvided(cat, loaded,
                        Optimize(rule, h, MainRaw(cat, z, cat.funcs[z], |cat.funcs[z].params|), marks, live).0)
  {
    var f := cat.funcs[z];
    var n := |f.params|;
    EvokeItems(cat, loaded, z, Local(n), MainArgs(n), State([], n + 1, map[]));
    ItemsPush(MainState(cat, z, f, n).block, Return(Local(n)));
    OptimizeItems(rule, h, cat, loaded, MainRaw(cat, z, f, n), marks, live);
  }

  // ----- names -----

  function GeneratedName(index: nat): string {
    "_v" + Decimal(index)
  }

  // The names given so far, and the next index of the generator.
  datatype Names = Names(named: map<Variable, string>, index: nat)

  function BaptizeVariable(v: Variable, names: Names): Names {
    if v.Formal? || v in names.named then names
    else Names(names.named[v := GeneratedName(names.index)], names.index + 1)
  }

  function BaptizeNode(n: Node, names: Names): Names
    decreases n
  {
    if n.Conditional? then Baptize(n.elsepart, Baptize(n.ifpart, BaptizeVariable(n.condition, names)))
    else if Target(n).Some? then BaptizeVariable(Target(n).value, names)
    else names
  }

  function Baptize(nodes: seq<Node>, names: Names): Names
    decreases nodes
  {
    if nodes == [] then names else Baptize(nodes[1..], BaptizeNode(nodes[0], names))
  }

  // Every name so far was generated by an earlier index, and by one index only.
  ghost predicate Generated(names: Names) {
    forall v :: v in names.named ==>
      exists i: nat :: i < names.index && names.named[v] == GeneratedName(i)
  }

  ghost predicate DistinctNames(names: Names) {
    forall v, w :: v in names.named && w in names.named && v != w ==> names.named[v] != names.named[w]
  }

  lemma BaptizeVariableDistinct(v: Variable, names: Names)
    requires Generated(names) && DistinctNames(names)
    ensures Generated(BaptizeVariable(v, names)) && DistinctNames(BaptizeVariable(v, names))
  {
    var r := BaptizeVariable(v, names);
    forall w | w in r.named
      ensures exists i: nat :: i < r.index && r.named[w] == GeneratedName(i)
    {
      if w in names.named {
        var i: nat :| i < names.index && names.named[w] == GeneratedName(i);
        assert i < r.index && r.named[w] == GeneratedName(i);
      } else {
        assert names.index < r.index && r.named[w] == GeneratedName(names.index);
      }
    }
    forall w | w in names.named && v !in names.named && v.Local?
      ensures names.named[w] != GeneratedName(names.index)
    {
      var i: nat :| i < names.index && names.named[w] == GeneratedName(i);
      if GeneratedName(i) == GeneratedName(names.index) {
        assert GeneratedName(i)[2..] == Decimal(i) && GeneratedName(names.index)[2..] == Decimal(names.index);
        DecimalInjective(i, names.index);
      }
    }
  }

  function Locals(vars: set<Variable>): set<Variable> {
    set v | v in vars && v.Local?
  }

  // The local variables to which naming some code gives names: those that it makes, assigns or tests.
  function NodeBaptized(n: Node): set<Variable>
    decreases n
  {
    if n.Conditional? then Locals({n.condition}) + Baptized(n.ifpart) + Baptized(n.elsepart)
    else if Target(n).Some? then Locals({Target(n).value}) else {}
  }

  function Baptized(nodes: seq<Node>): set<Variable>
    decreases nodes
  {
    if nodes == [] then {} else NodeBaptized(nodes[0]) + Baptized(nodes[1..])
  }

  // Names generated for any code are pairwise distinct.
  lemma {:induction false} BaptizeKeepsDistinct(nodes: seq<Node>, names: Names)
    requires Generated(names) && DistinctNames(names)
    ensures Generated(Baptize(nodes, names)) && DistinctNames(Baptize(nodes, names))
    decreases nodes
  {
    hide Generated, DistinctNames, BaptizeVariable;
    if nodes != [] {
      var n := nodes[0];
      if n.Conditional? {
        var c := BaptizeVariable(n.condition, names);
        BaptizeVariableDistinct(n.condition, names);
        BaptizeKeepsDistinct(n.ifpart, c);
        BaptizeKeepsDistinct(n.elsepart, Baptize(n.ifpart, c));
      } else if Target(n).Some? {
        BaptizeVariableDistinct(Target(n).value, names);
      }
      BaptizeKeepsDistinct(nodes[1..], BaptizeNode(n, names));
    }
  }

  lemma BaptizeVariableNames(v: Variable, names: Names)
    ensures BaptizeVariable(v, names).named.Keys == names.named.Keys + Locals({v})
  {
  }

  lemma {:induction false} BaptizeNames(nodes: seq<Node>, names: Names)
    ensures Baptize(nodes, names).named.Keys == names.named.Keys + Baptized(nodes)
    decreases nodes
  {
    hide BaptizeVariable, Locals;
    if nodes != [] {
      var n := nodes[0];
      if n.Conditional? {
        var c := BaptizeVariable(n.condition, names);
        BaptizeVariableNames(n.condition, names);
        BaptizeNames(n.ifpart, c);
        BaptizeNames(n.elsepart, Baptize(n.ifpart, c));
      } else if Target(n).Some? {
        BaptizeVariableNames(Target(n).value, names);
      }
      assert BaptizeNode(n, names).named.Keys == names.named.Keys + NodeBaptized(n);
      BaptizeNames(nodes[1..], BaptizeNode(n, names));
    }
  }

  /** Names generated for any code are pairwise distinct, and exactly the variables that the code makes, assigns or
      tests get one. A variable that is only read gets none. */
  lemma BaptizeDistinct(nodes: seq<Node>, names: Names)
    requires Generated(names) && DistinctNames(names)
    ensures var r := Baptize(nodes, names);
            Generated(r) && DistinctNames(r) && r.named.Keys == names.named.Keys + Baptized(nodes)
  {
    BaptizeKeepsDistinct(nodes, names);
    BaptizeNames(nodes, names);
  }

  lemma {:induction false} DefsBaptized(nodes: seq<Node>)
    ensures Locals(AllDefs(nodes)) <= Baptized(nodes)
    decreases nodes
  {
    if nodes != [] {
      if nodes[0].Conditional? {
        DefsBaptized(nodes[0].ifpart);
        DefsBaptized(nodes[0].elsepart);
      }
      DefsBaptized(nodes[1..]);
    }
  }

  // Of the kept code, only kept and tested variables get names.
  lemma {:induction false} KeepBaptized(nodes: seq<Node>, keep: set<Variable>)
    ensures Baptized(Keep(nodes, keep)) <= keep + Tests(Keep(nodes, keep))
    decreases nodes
  {
    if nodes != [] {
      var n := nodes[0];
      assert Keep(nodes, keep)[0] == KeepNode(n, keep) && Keep(nodes, keep)[1..] == Keep(nodes[1..], keep);
      if n.Conditional? {
        KeepBaptized(n.ifpart, keep);
        KeepBaptized(n.elsepart, keep);
      }
      KeepBaptized(nodes[1..], keep);
      assert NodeBaptized(KeepNode(n, keep)) <= keep + NodeTests(KeepNode(n, keep));
    }
  }

  lemma {:induction false} KeepLists(nodes: seq<Node>, keep: set<Variable>)
    ensures ListReads(Keep(nodes, keep)) <= Uses(nodes) && ListReads(nodes) <= Uses(nodes)
    decreases nodes
  {
    if nodes != [] {
      var n := nodes[0];
      assert Keep(nodes, keep)[0] == KeepNode(n, keep) && Keep(nodes, keep)[1..] == Keep(nodes[1..], keep);
      if n.Conditional? {
        KeepLists(n.ifpart, keep);
        KeepLists(n.elsepart, keep);
      }
      KeepLists(nodes[1..], keep);
    }
  }

  /** Which variables of the printed code have names: after dead-code elimination every local variable that is read
      has one if and only if needed lists have needed elements. Otherwise some list is printed with an element that
      has no name. */
  lemma ReadsNamedExact(rule: ListRule, block: seq<Node>, live: set<Variable>, def: set<Variable>)
    requires Wf(block, def, None, None) && forall v :: v in AllDefs(block) ==> v.Local?
    ensures var r := Dce(rule, block, live).0;
            Locals(Uses(r) + Tests(r)) <= Baptized(r) + def <==> Eligible(rule, block, live, def)
  {
    var r, need := Dce(rule, block, live).0, Dce(rule, block, live).1;
    var keep := need + def;
    DceIsKeep(rule, block, live, keep, def, None, None);
    if Eligible(rule, block, live, def) {
      DceScopedExact(rule, block, live, def);
      VisibleReads(r, def);
      DefsBaptized(r);
      forall v | v in Locals(Uses(r) + Tests(r)) ensures v in Baptized(r) + def {
        assert v in AllDefs(r) ==> v in Locals(AllDefs(r));
      }
    }
    if Locals(Uses(r) + Tests(r)) <= Baptized(r) + def {
      NamedServed(rule, block, live, def);
      DceIsLeastDemand(rule, block, live, def);
    }
  }

  lemma NamedServed(rule: ListRule, block: seq<Node>, live: set<Variable>, def: set<Variable>)
    requires Wf(block, def, None, None) && forall v :: v in AllDefs(block) ==> v.Local?
    requires var r := Dce(rule, block, live).0; Locals(Uses(r) + Tests(r)) <= Baptized(r) + def
    ensures rule.Indices? ==> ListsServed(block, Dce(rule, block, live).1, def)
  {
    var r, need := Dce(rule, block, live).0, Dce(rule, block, live).1;
    var keep := need + def;
    DceIsKeep(rule, block, live, keep, def, None, None);
    KeepBaptized(block, keep);
    KeepLists(block, keep);
    KeepLists(r, keep);
    UsesVisible(block, def, None, None);
    TestsNeeded(rule, block, live);
    assert def !! AllDefs(block);
    ServedReads(block, need, def);
    forall v | v in ListReads(r) ensures v in keep {
      assert v in def + AllDefs(block);
      assert v in AllDefs(block) ==> v in Locals(Uses(r) + Tests(r));
    }
  }

  // Tested variables are needed.
  lemma {:induction false} TestsNeeded(rule: ListRule, nodes: seq<Node>, live: set<Variable>)
    ensures Tests(Dce(rule, nodes, live).0) <= Dce(rule, nodes, live).1
    decreases nodes
  {
    if nodes != [] {
      var n, mid := nodes[0], Dce(rule, nodes[1..], live);
      TestsNeeded(rule, nodes[1..], live);
      var q := DceNode(rule, n, mid.1);
      var r := Dce(rule, nodes, live).0;
      assert r[0] == q.0 && r[1..] == mid.0;
      if n.Conditional? {
        var l0 := mid.1 + {n.condition};
        TestsNeeded(rule, n.ifpart, l0);
        DceGrows(rule, n.ifpart, l0);
        TestsNeeded(rule, n.elsepart, Dce(rule, n.ifpart, l0).1);
        DceGrows(rule, n.elsepart, Dce(rule, n.ifpart, l0).1);
      }
      assert NodeTests(q.0) <= q.1 && mid.1 <= q.1;
    }
  }
}
