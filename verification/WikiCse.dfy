/**
  Scoped common-subexpression elimination (wikifunc/wikifunc.js:118-136, 293-307, 435-471).
  An instruction equal to an earlier one of its block, or of an enclosing block's prefix, is overwritten
  with null and its variable is renamed in the block. The variable a conditional tests is not renamed.
 */
module WikiCse {
  import opened Common
  import opened WikiIR
  import opened WikiRun

  // ----- the pass -----

  predicate ConstantTruthy(c: Constant) {
    match c
    case Text(s) => s != ""
    case Truth(b) => b
    case Natural(_) => true
    case Number(_) => true
  }

  // JavaScript's loose equality; two naturals are distinct objects.
  predicate LooseEqual(h: Host, c: Constant, d: Constant) {
    match (c, d)
    case (Text(s), Text(t)) => s == t
    case (Truth(a), Truth(b)) => a == b
    case (Truth(b), Text(s)) => h.toNumber(s) == Some(if b then 1 else 0)
    case (Text(s), Truth(b)) => h.toNumber(s) == Some(if b then 1 else 0)
    case (Natural(_), Text(s)) => s == "[object Object]"
    case (Text(s), Natural(_)) => s == "[object Object]"
    case (Number(m), Number(n)) => m == n
    case _ => false
  }

  predicate Same(h: Host, x: Node, y: Node) {
    match (x, y)
    case (Call(f, _, s), Call(g, _, t)) => f == g && s == t
    case (Convert(f, _, s), Convert(g, _, t)) => f == g && s == t
    case (Const(a, c, f), Const(b, d, g)) =>
      f == g && if ConstantTruthy(c) then ConstantTruthy(d) && LooseEqual(h, c, d) else a == b
    case (Build(_, s, es), Build(_, t, fs)) => s == t && es == fs
    case (Declare(a), Declare(b)) => a == b
    case (Assign(_, s), Assign(_, t)) => s == t
    case (Return(s), Return(t)) => s == t
    case _ => false
  }

  function FirstSame(h: Host, x: Node, nodes: seq<Node>): Option<Node> {
    if nodes == [] then None
    else if Same(h, x, nodes[0]) then Some(nodes[0])
    else FirstSame(h, x, nodes[1..])
  }

  function Target(n: Node): Option<Variable> {
    match n
    case Call(_, dst, _) => Some(dst)
    case Convert(_, dst, _) => Some(dst)
    case Const(dst, _, _) => Some(dst)
    case Build(dst, _, _) => Some(dst)
    case Declare(dst) => Some(dst)
    case Assign(dst, _) => Some(dst)
    case _ => None
  }

  function Swap(v: Variable, a: Variable, b: Variable): Variable {
    if v == a then b else v
  }

  function SwapAll(vs: seq<Variable>, a: Variable, b: Variable): seq<Variable> {
    seq(|vs|, i requires 0 <= i < |vs| => Swap(vs[i], a, b))
  }

  function RenameNode(n: Node, a: Variable, b: Variable): Node
    decreases n
  {
    match n
    case Call(f, dst, args) => Call(f, dst, SwapAll(args, a, b))
    case Convert(c, dst, src) => Convert(c, dst, Swap(src, a, b))
    case Build(dst, typ, es) => Build(dst, typ, SwapAll(es, a, b))
    case Assign(dst, src) => Assign(dst, Swap(src, a, b))
    case Return(src) => Return(Swap(src, a, b))
    case Conditional(c, p, q) => Conditional(c, Rename(p, a, b), Rename(q, a, b))
    case _ => n
  }

  function Rename(nodes: seq<Node>, a: Variable, b: Variable): (r: seq<Node>)
    ensures |r| == |nodes|
    decreases nodes
  {
    if nodes == [] then [] else [RenameNode(nodes[0], a, b)] + Rename(nodes[1..], a, b)
  }

  // Replacing the uses of x's variable by y's; nothing happens when either has none.
  function Redirect(nodes: seq<Node>, x: Node, y: Node): (r: seq<Node>)
    ensures |r| == |nodes|
  {
    if Target(x).Some? && Target(y).Some? then Rename(nodes, Target(x).value, Target(y).value) else nodes
  }

  function NodeSize(n: Node): (r: nat)
    ensures r > 0
    decreases n
  {
    if n.Conditional? then 1 + Size(n.ifpart) + Size(n.elsepart) else 1
  }

  function Size(nodes: seq<Node>): nat
    decreases nodes
  {
    if nodes == [] then 0 else NodeSize(nodes[0]) + Size(nodes[1..])
  }

  lemma {:induction false} RenameNodeSize(n: Node, a: Variable, b: Variable)
    ensures NodeSize(RenameNode(n, a, b)) == NodeSize(n)
    decreases n
  {
    if n.Conditional? {
      RenameSize(n.ifpart, a, b);
      RenameSize(n.elsepart, a, b);
    }
  }

  lemma {:induction false} RenameSize(nodes: seq<Node>, a: Variable, b: Variable)
    ensures Size(Rename(nodes, a, b)) == Size(nodes)
    decreases nodes
  {
    if nodes != [] {
      RenameNodeSize(nodes[0], a, b);
      RenameSize(nodes[1..], a, b);
    }
  }

  lemma RedirectSize(nodes: seq<Node>, x: Node, y: Node)
    ensures Size(Redirect(nodes, x, y)) == Size(nodes)
  {
    if Target(x).Some? && Target(y).Some? {
      RenameSize(nodes, Target(x).value, Target(y).value);
    }
  }

  /** The block after the pass has gone over `todo`, with `done` the slots before it. A rename reaches
      the whole block, `done` included. */
  function Cse(h: Host, done: seq<Node>, todo: seq<Node>, scope: seq<Node>): (r: seq<Node>)
    ensures |r| == |done| + |todo|
    decreases Size(todo), 1
  {
    if todo == [] then done
    else
      var x, rest := todo[0], todo[1..];
      if x.Conditional? then
        Cse(h, done + [CseConditional(h, x, scope + done)], rest, scope)
      else
        var same := FirstSame(h, x, done + scope);
        if x.Empty? || same.None? then Cse(h, done + [x], rest, scope)
        else
          RedirectSize(rest, x, same.value);
          Cse(h, Redirect(done, x, same.value) + [Empty], Redirect(rest, x, same.value), scope)
  }

  function CseConditional(h: Host, x: Node, scope: seq<Node>): Node
    requires x.Conditional?
    decreases NodeSize(x), 0
  {
    Conditional(x.condition, Cse(h, [], x.ifpart, scope), Cse(h, [], x.elsepart, scope))
  }

  // The variables whose defining instruction the pass removes.
  function Removed(h: Host, done: seq<Node>, todo: seq<Node>, scope: seq<Node>): set<Variable>
    decreases Size(todo)
  {
    if todo == [] then {}
    else
      var x, rest := todo[0], todo[1..];
      if x.Conditional? then
        RemovedInside(h, x, scope + done) + Removed(h, done + [CseConditional(h, x, scope + done)], rest, scope)
      else
        var same := FirstSame(h, x, done + scope);
        if x.Empty? || same.None? then Removed(h, done + [x], rest, scope)
        else
          RedirectSize(rest, x, same.value);
          NodeDefs(x) + Removed(h, Redirect(done, x, same.value) + [Empty], Redirect(rest, x, same.value), scope)
  }

  function RemovedInside(h: Host, x: Node, scope: seq<Node>): set<Variable>
    requires x.Conditional?
    decreases NodeSize(x), 0
  {
    Removed(h, [], x.ifpart, scope) + Removed(h, [], x.elsepart, scope)
  }

  // What the pass makes of `todo` when no rename touches `done`.
  function CseTail(h: Host, done: seq<Node>, todo: seq<Node>, scope: seq<Node>): (r: seq<Node>)
    ensures |r| == |todo|
    decreases Size(todo)
  {
    if todo == [] then []
    else
      var x, rest := todo[0], todo[1..];
      if x.Conditional? then
        var y := CseConditional(h, x, scope + done);
        [y] + CseTail(h, done + [y], rest, scope)
      else
        var same := FirstSame(h, x, done + scope);
        if x.Empty? || same.None? then [x] + CseTail(h, done + [x], rest, scope)
        else
          RedirectSize(rest, x, same.value);
          [Empty] + CseTail(h, done + [Empty], Redirect(rest, x, same.value), scope)
  }

  // ----- renaming -----

  lemma {:induction false} RenameDefs(nodes: seq<Node>, a: Variable, b: Variable)
    ensures AllDefs(Rename(nodes, a, b)) == AllDefs(nodes)
    decreases nodes
  {
    if nodes != [] {
      if nodes[0].Conditional? {
        RenameDefs(nodes[0].ifpart, a, b);
        RenameDefs(nodes[0].elsepart, a, b);
      }
      RenameDefs(nodes[1..], a, b);
      assert NodeDefs(RenameNode(nodes[0], a, b)) == NodeDefs(nodes[0]);
      assert Rename(nodes, a, b)[1..] == Rename(nodes[1..], a, b);
    }
  }

  lemma {:induction false} RenameTests(nodes: seq<Node>, a: Variable, b: Variable)
    ensures Tests(Rename(nodes, a, b)) == Tests(nodes)
    decreases nodes
  {
    if nodes != [] {
      if nodes[0].Conditional? {
        RenameTests(nodes[0].ifpart, a, b);
        RenameTests(nodes[0].elsepart, a, b);
      }
      RenameTests(nodes[1..], a, b);
      assert NodeTests(RenameNode(nodes[0], a, b)) == NodeTests(nodes[0]);
      assert Rename(nodes, a, b)[1..] == Rename(nodes[1..], a, b);
    }
  }

  lemma RenameReads(n: Node, a: Variable, b: Variable)
    requires Pure(n)
    ensures Pure(RenameNode(n, a, b)) && Reads(RenameNode(n, a, b)) <= Reads(n) - {a} + {b}
    ensures NodeDefs(RenameNode(n, a, b)) == NodeDefs(n)
  {
    if n.Call? {
      assert forall i :: 0 <= i < |n.args| ==> n.args[i] in Reads(n);
    } else if n.Build? {
      assert forall i :: 0 <= i < |n.elements| ==> n.elements[i] in Reads(n);
    }
  }

  lemma {:induction false} RenameLaid(nodes: seq<Node>, a: Variable, b: Variable, def: set<Variable>,
                                      pend: Option<Variable>, target: Option<Variable>)
    requires a !in def + AllDefs(nodes) + Open(pend, None) && b in def && Laid(nodes, def + {a}, pend, target)
    ensures Laid(Rename(nodes, a, b), def, pend, target)
    decreases nodes
  {
    if nodes != [] {
      var n, rest := nodes[0], nodes[1..];
      var m := RenameNode(n, a, b);
      assert Rename(nodes, a, b)[0] == m && Rename(nodes, a, b)[1..] == Rename(rest, a, b);
      if n.Assign? || n.Return? {
        assert Rename(rest, a, b) == [];
      } else {
        if n.Conditional? {
          RenameLaid(n.ifpart, a, b, def, None, pend);
          RenameLaid(n.elsepart, a, b, def, None, pend);
        } else if Pure(n) {
          RenameReads(n, a, b);
        }
        var def' := NextDefs(n, def, pend);
        assert NextDefs(n, def + {a}, pend) == def' + {a};
        RenameLaid(rest, a, b, def', NextPend(n, pend), target);
      }
    }
  }

  // Tests are not renamed.
  lemma {:induction false} RenameSeen(nodes: seq<Node>, a: Variable, b: Variable, def: set<Variable>,
                                      pend: Option<Variable>)
    requires a !in Tests(nodes) && Seen(nodes, def + {a}, pend)
    ensures Seen(Rename(nodes, a, b), def, pend)
    decreases nodes
  {
    if nodes != [] {
      var n, rest := nodes[0], nodes[1..];
      assert Rename(nodes, a, b)[0] == RenameNode(n, a, b) && Rename(nodes, a, b)[1..] == Rename(rest, a, b);
      if n.Conditional? {
        RenameSeen(n.ifpart, a, b, def, None);
        RenameSeen(n.elsepart, a, b, def, None);
      }
      assert NextDefs(n, def + {a}, pend) == NextDefs(n, def, pend) + {a};
      RenameSeen(rest, a, b, NextDefs(n, def, pend), NextPend(n, pend));
    }
  }

  // ----- what the pass removes -----

  lemma {:induction false} RenameUnique(nodes: seq<Node>, a: Variable, b: Variable)
    requires Unique(nodes)
    ensures Unique(Rename(nodes, a, b))
    decreases nodes
  {
    if nodes != [] {
      var n, rest := nodes[0], nodes[1..];
      RenameUnique(rest, a, b);
      RenameDefs(rest, a, b);
      assert Rename(nodes, a, b)[1..] == Rename(rest, a, b);
      if n.Conditional? {
        RenameUnique(n.ifpart, a, b);
        RenameUnique(n.elsepart, a, b);
        RenameDefs(n.ifpart, a, b);
        RenameDefs(n.elsepart, a, b);
      }
    }
  }

  lemma RedirectKeeps(nodes: seq<Node>, x: Node, y: Node)
    ensures AllDefs(Redirect(nodes, x, y)) == AllDefs(nodes) && Tests(Redirect(nodes, x, y)) == Tests(nodes)
    ensures Unique(nodes) ==> Unique(Redirect(nodes, x, y))
  {
    if Target(x).Some? && Target(y).Some? {
      var a, b := Target(x).value, Target(y).value;
      RenameDefs(nodes, a, b);
      RenameTests(nodes, a, b);
      if Unique(nodes) {
        RenameUnique(nodes, a, b);
      }
    }
  }

  lemma OneNode(n: Node)
    ensures AllDefs([n]) == NodeDefs(n) && Tests([n]) == NodeTests(n)
  {
    assert [n][1..] == [];
    assert AllDefs([n]) == NodeDefs(n) + AllDefs([]);
    assert Tests([n]) == NodeTests(n) + Tests([]);
  }

  lemma Push(done: seq<Node>, n: Node)
    ensures AllDefs(done + [n]) == AllDefs(done) + NodeDefs(n)
    ensures Tests(done + [n]) == Tests(done) + NodeTests(n)
  {
    OneNode(n);
    AllDefsAppend(done, [n]);
    TestsAppend(done, [n]);
  }

  /** Exactly the removed variables lose their definition; the tested variables stay. */
  lemma {:induction false} CseDefs(h: Host, done: seq<Node>, todo: seq<Node>, scope: seq<Node>)
    requires Unique(todo)
    ensures Removed(h, done, todo, scope) <= AllDefs(todo)
    ensures AllDefs(Cse(h, done, todo, scope)) == AllDefs(done) + (AllDefs(todo) - Removed(h, done, todo, scope))
    decreases Size(todo), 1
  {
    if todo != [] {
      var x, rest := todo[0], todo[1..];
      if x.Conditional? {
        var y := CseConditional(h, x, scope + done);
        CseConditionalDefs(h, x, scope + done);
        Push(done, y);
        CseDefs(h, done + [y], rest, scope);
      } else {
        var same := FirstSame(h, x, done + scope);
        if x.Empty? || same.None? {
          Push(done, x);
          CseDefs(h, done + [x], rest, scope);
        } else {
          RedirectKeeps(done, x, same.value);
          RedirectKeeps(rest, x, same.value);
          RedirectSize(rest, x, same.value);
          Push(Redirect(done, x, same.value), Empty);
          CseDefs(h, Redirect(done, x, same.value) + [Empty], Redirect(rest, x, same.value), scope);
        }
      }
    }
  }

  lemma {:induction false} CseConditionalDefs(h: Host, x: Node, scope: seq<Node>)
    requires x.Conditional? && Unique(x.ifpart) && Unique(x.elsepart)
    requires AllDefs(x.ifpart) !! AllDefs(x.elsepart)
    ensures RemovedInside(h, x, scope) <= NodeDefs(x)
    ensures NodeDefs(CseConditional(h, x, scope)) == NodeDefs(x) - RemovedInside(h, x, scope)
    decreases NodeSize(x), 0
  {
    CseDefs(h, [], x.ifpart, scope);
    CseDefs(h, [], x.elsepart, scope);
  }

  lemma {:induction false} CseTests(h: Host, done: seq<Node>, todo: seq<Node>, scope: seq<Node>)
    ensures Tests(Cse(h, done, todo, scope)) == Tests(done) + Tests(todo)
    decreases Size(todo), 1
  {
    if todo != [] {
      var x, rest := todo[0], todo[1..];
      if x.Conditional? {
        var y := CseConditional(h, x, scope + done);
        CseConditionalTests(h, x, scope + done);
        Push(done, y);
        CseTests(h, done + [y], rest, scope);
      } else {
        var same := FirstSame(h, x, done + scope);
        if x.Empty? || same.None? {
          Push(done, x);
          CseTests(h, done + [x], rest, scope);
        } else {
          RedirectKeeps(done, x, same.value);
          RedirectKeeps(rest, x, same.value);
          RedirectSize(rest, x, same.value);
          Push(Redirect(done, x, same.value), Empty);
          CseTests(h, Redirect(done, x, same.value) + [Empty], Redirect(rest, x, same.value), scope);
        }
      }
    }
  }

  lemma {:induction false} CseConditionalTests(h: Host, x: Node, scope: seq<Node>)
    requires x.Conditional?
    ensures NodeTests(CseConditional(h, x, scope)) == NodeTests(x)
    decreases NodeSize(x), 0
  {
    CseTests(h, [], x.ifpart, scope);
    CseTests(h, [], x.elsepart, scope);
  }

  // ----- scoping after the pass -----

  // Variables whose uses a rename can reach: all but the tested ones.
  function NodeUses(n: Node): set<Variable>
    decreases n
  {
    if n.Conditional? then Uses(n.ifpart) + Uses(n.elsepart) else Reads(n)
  }

  function Uses(nodes: seq<Node>): set<Variable>
    decreases nodes
  {
    if nodes == [] then {} else NodeUses(nodes[0]) + Uses(nodes[1..])
  }

  lemma {:induction false} UsesAppend(a: seq<Node>, b: seq<Node>)
    ensures Uses(a + b) == Uses(a) + Uses(b)
  {
    if a == [] {
      assert a + b == b;
    } else {
      assert (a + b)[0] == a[0] && (a + b)[1..] == a[1..] + b;
      UsesAppend(a[1..], b);
    }
  }

  lemma PushUses(done: seq<Node>, n: Node)
    ensures Uses(done + [n]) == Uses(done) + NodeUses(n)
  {
    UsesAppend(done, [n]);
    assert [n][1..] == [];
    assert Uses([n]) == NodeUses(n) + Uses([]);
  }

  lemma {:induction false} RenameUnused(nodes: seq<Node>, a: Variable, b: Variable)
    requires a !in Uses(nodes)
    ensures Rename(nodes, a, b) == nodes
    decreases nodes
  {
    if nodes != [] {
      var n := nodes[0];
      match n
      case Call(_, _, args) =>
        assert forall i :: 0 <= i < |args| ==> args[i] in Reads(n);
        assert SwapAll(args, a, b) == args;
      case Build(_, _, es) =>
        assert forall i :: 0 <= i < |es| ==> es[i] in Reads(n);
        assert SwapAll(es, a, b) == es;
      case Conditional(_, p, q) =>
        RenameUnused(p, a, b);
        RenameUnused(q, a, b);
      case _ =>
    }
    if nodes != [] {
      RenameUnused(nodes[1..], a, b);
      assert nodes == [nodes[0]] + nodes[1..];
    }
  }

  // Code reads nothing but what it can see or makes itself.
  lemma {:induction false} UsesLaid(nodes: seq<Node>, def: set<Variable>, pend: Option<Variable>,
                                    target: Option<Variable>)
    requires Laid(nodes, def, pend, target)
    ensures Uses(nodes) <= def + AllDefs(nodes) + Open(pend, None)
    decreases nodes
  {
    if nodes != [] {
      var n, rest := nodes[0], nodes[1..];
      if n.Assign? || n.Return? {
        assert Uses(rest) == {};
      } else {
        if n.Conditional? {
          UsesLaid(n.ifpart, def, None, pend);
          UsesLaid(n.elsepart, def, None, pend);
        }
        UsesLaid(rest, NextDefs(n, def, pend), NextPend(n, pend), target);
      }
    }
  }

  // It tests nothing else.
  lemma {:induction false} TestsSeen(nodes: seq<Node>, def: set<Variable>, pend: Option<Variable>)
    requires Seen(nodes, def, pend)
    ensures Tests(nodes) <= def + AllDefs(nodes) + Open(pend, None)
    decreases nodes
  {
    if nodes != [] {
      var n, rest := nodes[0], nodes[1..];
      if n.Conditional? {
        TestsSeen(n.ifpart, def, None);
        TestsSeen(n.elsepart, def, None);
      }
      TestsSeen(rest, NextDefs(n, def, pend), NextPend(n, pend));
      assert NextDefs(n, def, pend) + Open(NextPend(n, pend), None) <= def + NodeDefs(n) + Open(pend, None);
    }
  }

  lemma UsesVisible(nodes: seq<Node>, def: set<Variable>, pend: Option<Variable>, target: Option<Variable>)
    requires Scoped(nodes, def, pend, target)
    ensures Uses(nodes) + Tests(nodes) <= def + AllDefs(nodes) + Open(pend, None)
  {
    UsesLaid(nodes, def, pend, target);
    TestsSeen(nodes, def, pend);
  }

  // The earlier instructions an instruction may be found equal to.
  ghost predicate Context(scope: seq<Node>, def: set<Variable>, todo: seq<Node>) {
    forall n :: n in scope ==>
      && Mentions(n) <= def && !n.Assign? && !n.Return?
      && (n.Declare? ==> n.dst !in AllDefs(todo))
  }

  lemma {:induction false} FirstSameIn(h: Host, x: Node, nodes: seq<Node>)
    ensures FirstSame(h, x, nodes).Some? ==> FirstSame(h, x, nodes).value in nodes
                                             && Same(h, x, FirstSame(h, x, nodes).value)
    ensures FirstSame(h, x, nodes).None? ==> forall n :: n in nodes ==> !Same(h, x, n)
  {
    if nodes != [] {
      FirstSameIn(h, x, nodes[1..]);
      assert nodes == [nodes[0]] + nodes[1..];
    }
  }

  // In well-formed code only pure instructions are ever found equal to an earlier one.
  lemma MatchIsPure(h: Host, todo: seq<Node>, seen: seq<Node>, def: set<Variable>,
                    pend: Option<Variable>, target: Option<Variable>)
    requires todo != [] && Shaped(todo, def, pend, target) && Context(seen, def, todo)
    requires FirstSame(h, todo[0], seen).Some?
    ensures var x, y := todo[0], FirstSame(h, todo[0], seen).value;
            && Pure(x) && Pure(y) && y in seen && Same(h, x, y)
            && Target(x).Some? && Target(y).Some? && Target(y).value in def && Target(x).value !in def
            && NodeDefs(x) == {Target(x).value}
  {
    FirstSameIn(h, todo[0], seen);
    var x, y := todo[0], FirstSame(h, todo[0], seen).value;
    assert Mentions(y) <= def;
    assert AllDefs(todo) == NodeDefs(x) + AllDefs(todo[1..]);
  }

  ghost predicate TestsKept(h: Host, done: seq<Node>, todo: seq<Node>, scope: seq<Node>) {
    Removed(h, done, todo, scope) !! Tests(todo)
  }

  lemma TestsKeptParts(h: Host, done: seq<Node>, todo: seq<Node>, scope: seq<Node>)
    requires todo != [] && TestsKept(h, done, todo, scope)
    ensures var x, rest := todo[0], todo[1..];
            if x.Conditional? then
              && TestsKept(h, [], x.ifpart, scope + done) && TestsKept(h, [], x.elsepart, scope + done)
              && TestsKept(h, done + [CseConditional(h, x, scope + done)], rest, scope)
            else
              var same := FirstSame(h, x, done + scope);
              if x.Empty? || same.None? then TestsKept(h, done + [x], rest, scope)
              else
                && NodeDefs(x) !! Tests(rest)
                && TestsKept(h, Redirect(done, x, same.value) + [Empty], Redirect(rest, x, same.value), scope)
  {
    var x, rest := todo[0], todo[1..];
    assert Tests(todo) == NodeTests(x) + Tests(rest);
    if x.Conditional? {
      assert Removed(h, done, todo, scope) ==
             RemovedInside(h, x, scope + done) + Removed(h, done + [CseConditional(h, x, scope + done)], rest, scope);
    } else if FirstSame(h, x, done + scope).Some? {
      RedirectKeeps(rest, x, FirstSame(h, x, done + scope).value);
    }
  }

  // The context of the rest of the block once `n` has been passed.
  lemma ContextPush(done: seq<Node>, scope: seq<Node>, def: set<Variable>, todo: seq<Node>,
                    n: Node, def': set<Variable>, rest: seq<Node>)
    requires Context(done + scope, def, todo) && def <= def' && AllDefs(rest) <= AllDefs(todo)
    requires Mentions(n) <= def' && !n.Assign? && !n.Return? && (n.Declare? ==> n.dst !in AllDefs(rest))
    ensures Context(done + [n] + scope, def', rest)
  {
  }

  // What stays of the block ahead when the first instruction of `todo` is removed.
  lemma RemoveReady(h: Host, done: seq<Node>, todo: seq<Node>, scope: seq<Node>,
                    def: set<Variable>, pend: Option<Variable>, target: Option<Variable>)
    requires todo != [] && Shaped(todo, def, pend, target) && Context(done + scope, def, todo)
    requires FirstSame(h, todo[0], done + scope).Some?
    requires Uses(done) !! AllDefs(todo)
    ensures var x, y := todo[0], FirstSame(h, todo[0], done + scope).value;
            var rest' := Redirect(todo[1..], x, y);
            && Redirect(done, x, y) == done && Shaped(rest', def, pend, target) && AllDefs(rest') == AllDefs(todo[1..])
            && Context(done + [Empty] + scope, def, rest') && Uses(done + [Empty]) == Uses(done)
            && Size(rest') < Size(todo)
  {
    var x, rest := todo[0], todo[1..];
    MatchIsPure(h, todo, done + scope, def, pend, target);
    ShapedRest(todo, def, pend, target);
    var y := FirstSame(h, x, done + scope).value;
    var a, b := Target(x).value, Target(y).value;
    RedirectSize(rest, x, y);
    RenameUnused(done, a, b);
    RenameDefs(rest, a, b);
    RenameUnique(rest, a, b);
    RenameLaid(rest, a, b, def, pend, target);
    PushUses(done, Empty);
  }

  /** The pass keeps the layout of code, and its renames never touch the part of the block before the removed
      instruction. */
  lemma {:induction false} CseLaid(h: Host, done: seq<Node>, todo: seq<Node>, scope: seq<Node>,
                                 def: set<Variable>, pend: Option<Variable>, target: Option<Variable>)
    requires Shaped(todo, def, pend, target) && Context(done + scope, def, todo)
    requires Uses(done) !! AllDefs(todo)
    ensures CseGood(h, done, todo, scope, def, pend, target)
    decreases Size(todo), 6
  {
    if todo != [] {
      if FirstSame(h, todo[0], done + scope).Some? {
        CseLaidRemove(h, done, todo, scope, def, pend, target);
      } else if todo[0].Assign? || todo[0].Return? {
        assert todo[1..] == [];
        assert CseTail(h, done, todo, scope) == [todo[0]];
      } else if todo[0].Conditional? {
        CseLaidConditional(h, done, todo, scope, def, pend, target);
      } else {
        CseLaidKeep(h, done, todo, scope, def, pend, target);
      }
    }
  }

  ghost predicate CseGood(h: Host, done: seq<Node>, todo: seq<Node>, scope: seq<Node>,
                          def: set<Variable>, pend: Option<Variable>, target: Option<Variable>) {
    Good(Cse(h, done, todo, scope), done, CseTail(h, done, todo, scope), AllDefs(todo), def, pend, target)
  }

  // The whole block `r` keeps `done`, and what follows is laid out and makes no new variables.
  ghost predicate Good(r: seq<Node>, done: seq<Node>, tail: seq<Node>, defs: set<Variable>,
                       def: set<Variable>, pend: Option<Variable>, target: Option<Variable>) {
    r == done + tail && Laid(tail, def, pend, target) && Unique(tail) && AllDefs(tail) <= defs
  }

  lemma {:induction false} CseLaidRemove(h: Host, done: seq<Node>, todo: seq<Node>, scope: seq<Node>,
                                       def: set<Variable>, pend: Option<Variable>, target: Option<Variable>)
    requires Shaped(todo, def, pend, target) && Context(done + scope, def, todo)
    requires todo != [] && FirstSame(h, todo[0], done + scope).Some?
    requires Uses(done) !! AllDefs(todo)
    ensures CseGood(h, done, todo, scope, def, pend, target)
    decreases Size(todo), 1
  {
    hide Redirect, Shaped, Context, Good, Uses, AllDefs, Cse, CseTail;
    MatchIsPure(h, todo, done + scope, def, pend, target);
    RemoveReady(h, done, todo, scope, def, pend, target);
    var rest' := Redirect(todo[1..], todo[0], FirstSame(h, todo[0], done + scope).value);
    AllDefsMore(todo);
    NothingAdded(done, todo, rest');
    CseLaid(h, done + [Empty], rest', scope, def, pend, target);
    RemoveIs(h, done, todo, scope);
    GoodEmpty(Cse(h, done, todo, scope), done, CseTail(h, done + [Empty], rest', scope), AllDefs(rest'), AllDefs(todo),
              def, pend, target);
  }

  lemma AllDefsMore(todo: seq<Node>)
    requires todo != []
    ensures AllDefs(todo[1..]) <= AllDefs(todo)
  {
  }

  lemma NothingAdded(done: seq<Node>, todo: seq<Node>, rest: seq<Node>)
    requires Uses(done) !! AllDefs(todo) && AllDefs(rest) <= AllDefs(todo) && Uses(done + [Empty]) == Uses(done)
    ensures Uses(done + [Empty]) !! AllDefs(rest)
  {
  }

  // What the pass does with an instruction that it removes.
  lemma RemoveIs(h: Host, done: seq<Node>, todo: seq<Node>, scope: seq<Node>)
    requires todo != [] && Pure(todo[0]) && Target(todo[0]).Some? && FirstSame(h, todo[0], done + scope).Some?
    requires Redirect(done, todo[0], FirstSame(h, todo[0], done + scope).value) == done
    ensures var rest' := Redirect(todo[1..], todo[0], FirstSame(h, todo[0], done + scope).value);
            && Cse(h, done, todo, scope) == Cse(h, done + [Empty], rest', scope)
            && CseTail(h, done, todo, scope) == [Empty] + CseTail(h, done + [Empty], rest', scope)
  {
    hide Redirect, FirstSame;
  }

  lemma GoodEmpty(r: seq<Node>, done: seq<Node>, tail: seq<Node>, defs: set<Variable>, more: set<Variable>,
                  def: set<Variable>, pend: Option<Variable>, target: Option<Variable>)
    requires Good(r, done + [Empty], tail, defs, def, pend, target) && defs <= more
    ensures Good(r, done, [Empty] + tail, more, def, pend, target)
  {
    assert done + ([Empty] + tail) == (done + [Empty]) + tail;
    assert ([Empty] + tail)[1..] == tail;
  }

  lemma ConsLaid(y: Node, tail: seq<Node>, def: set<Variable>, pend: Option<Variable>, target: Option<Variable>)
    requires y.Conditional? && pend.Some?
    requires Laid(y.ifpart, def, None, pend) && Laid(y.elsepart, def, None, pend)
    requires Unique(y.ifpart) && Unique(y.elsepart) && AllDefs(y.ifpart) !! AllDefs(y.elsepart)
    requires Laid(tail, NextDefs(y, def, pend), None, target) && Unique(tail) && NodeDefs(y) !! AllDefs(tail)
    ensures Laid([y] + tail, def, pend, target) && Unique([y] + tail)
    ensures AllDefs([y] + tail) == NodeDefs(y) + AllDefs(tail)
  {
    assert ([y] + tail)[0] == y && ([y] + tail)[1..] == tail;
  }

  lemma GoodCons(r: seq<Node>, done: seq<Node>, y: Node, tail: seq<Node>, defs: set<Variable>, own: set<Variable>,
                 def: set<Variable>, pend: Option<Variable>, target: Option<Variable>)
    requires y.Conditional? && pend.Some?
    requires Laid(y.ifpart, def, None, pend) && Laid(y.elsepart, def, None, pend)
    requires Unique(y.ifpart) && Unique(y.elsepart) && AllDefs(y.ifpart) !! AllDefs(y.elsepart)
    requires NodeDefs(y) <= own && own !! defs
    requires Good(r, done + [y], tail, defs, NextDefs(y, def, pend), None, target)
    ensures Good(r, done, [y] + tail, own + defs, def, pend, target)
  {
    ConsLaid(y, tail, def, pend, target);
    assert done + ([y] + tail) == (done + [y]) + tail;
  }

  // What the recursion needs after an instruction that is kept.
  lemma KeepReady(h: Host, done: seq<Node>, todo: seq<Node>, scope: seq<Node>,
                  def: set<Variable>, pend: Option<Variable>, target: Option<Variable>)
    requires Shaped(todo, def, pend, target) && Context(done + scope, def, todo)
    requires todo != [] && !todo[0].Conditional? && !todo[0].Assign? && !todo[0].Return?
    requires FirstSame(h, todo[0], done + scope).None?
    requires Uses(done) !! AllDefs(todo)
    ensures var x, rest := todo[0], todo[1..];
            && Shaped(rest, NextDefs(x, def, pend), NextPend(x, pend), target)
            && Context(done + [x] + scope, NextDefs(x, def, pend), rest)
            && Uses(done + [x]) !! AllDefs(rest)
  {
    var x, rest := todo[0], todo[1..];
    UsesLaid(todo, def, pend, target);
    ShapedRest(todo, def, pend, target);
    PushUses(done, x);
    ContextPush(done, scope, def, todo, x, NextDefs(x, def, pend), rest);
  }

  lemma {:induction false} CseLaidKeep(h: Host, done: seq<Node>, todo: seq<Node>, scope: seq<Node>,
                                     def: set<Variable>, pend: Option<Variable>, target: Option<Variable>)
    requires Shaped(todo, def, pend, target) && Context(done + scope, def, todo)
    requires todo != [] && !todo[0].Conditional? && !todo[0].Assign? && !todo[0].Return?
    requires FirstSame(h, todo[0], done + scope).None?
    requires Uses(done) !! AllDefs(todo)
    ensures CseGood(h, done, todo, scope, def, pend, target)
    decreases Size(todo), 1
  {
    hide Context, Uses;
    var x, rest := todo[0], todo[1..];
    KeepReady(h, done, todo, scope, def, pend, target);
    CseLaid(h, done + [x], rest, scope, NextDefs(x, def, pend), NextPend(x, pend), target);
    var tail := CseTail(h, done + [x], rest, scope);
    assert done + ([x] + tail) == (done + [x]) + tail;
  }

  lemma {:induction false} CseLaidBranch(h: Host, block: seq<Node>, scope: seq<Node>, def: set<Variable>,
                                       pend: Option<Variable>)
    requires Shaped(block, def, None, pend) && Context(scope, def, block)
    ensures var r := Cse(h, [], block, scope);
            && r == CseTail(h, [], block, scope) && Laid(r, def, None, pend) && Unique(r)
            && AllDefs(r) <= AllDefs(block) && Uses(r) <= def + AllDefs(block)
    decreases Size(block), 7
  {
    assert [] + scope == scope;
    CseLaid(h, [], block, scope, def, None, pend);
    var r := CseTail(h, [], block, scope);
    assert [] + r == r;
    UsesLaid(r, def, None, pend);
  }

  // What the recursion needs after a conditional whose branches have been processed.
  lemma {:induction false} ConditionalReady(h: Host, done: seq<Node>, todo: seq<Node>, scope: seq<Node>,
                                            def: set<Variable>, pend: Option<Variable>, target: Option<Variable>)
    requires Shaped(todo, def, pend, target) && Context(done + scope, def, todo)
    requires todo != [] && todo[0].Conditional?
    requires Uses(done) !! AllDefs(todo)
    ensures var x, rest, y := todo[0], todo[1..], CseConditional(h, todo[0], scope + done);
            && Shaped(rest, NextDefs(x, def, pend), None, target)
               && Context(done + [y] + scope, NextDefs(x, def, pend), rest)
            && Uses(done + [y]) !! AllDefs(rest)
            && Laid(y.ifpart, def, None, pend) && Laid(y.elsepart, def, None, pend)
            && Unique(y.ifpart) && Unique(y.elsepart) && AllDefs(y.ifpart) !! AllDefs(y.elsepart)
            && NodeDefs(y) <= NodeDefs(x)
    decreases NodeSize(todo[0]), 0
  {
    var x, rest := todo[0], todo[1..];
    var y := CseConditional(h, x, scope + done);
    ShapedRest(todo, def, pend, target);
    assert NodeSize(x) == 1 + Size(x.ifpart) + Size(x.elsepart);
    CseLaidBranch(h, x.ifpart, scope + done, def, pend);
    CseLaidBranch(h, x.elsepart, scope + done, def, pend);
    PushUses(done, y);
    ContextPush(done, scope, def, todo, y, NextDefs(x, def, pend), rest);
  }

  lemma {:induction false} CseLaidConditional(h: Host, done: seq<Node>, todo: seq<Node>, scope: seq<Node>,
                                            def: set<Variable>, pend: Option<Variable>, target: Option<Variable>)
    requires Shaped(todo, def, pend, target) && Context(done + scope, def, todo)
    requires todo != [] && todo[0].Conditional?
    requires Uses(done) !! AllDefs(todo)
    ensures CseGood(h, done, todo, scope, def, pend, target)
    decreases Size(todo), 5
  {
    var x, rest := todo[0], todo[1..];
    var y := CseConditional(h, x, scope + done);
    ConditionalReady(h, done, todo, scope, def, pend, target);
    CseLaid(h, done + [y], rest, scope, NextDefs(x, def, pend), None, target);
    GoodCons(Cse(h, done + [y], rest, scope), done, y, CseTail(h, done + [y], rest, scope), AllDefs(rest),
             NodeDefs(x), def, pend, target);
    assert AllDefs(todo) == NodeDefs(x) + AllDefs(rest);
  }

  /** When no removed variable is tested, tests are of visible variables after the pass. */
  lemma {:induction false} CseSeen(h: Host, done: seq<Node>, todo: seq<Node>, scope: seq<Node>,
                                   def: set<Variable>, pend: Option<Variable>, target: Option<Variable>)
    requires Shaped(todo, def, pend, target) && Context(done + scope, def, todo) && Uses(done) !! AllDefs(todo)
    requires Seen(todo, def, pend) && TestsKept(h, done, todo, scope)
    ensures Seen(CseTail(h, done, todo, scope), def, pend)
    decreases Size(todo), 1
  {
    if todo != [] {
      if FirstSame(h, todo[0], done + scope).Some? {
        CseSeenRemove(h, done, todo, scope, def, pend, target);
      } else if todo[0].Assign? || todo[0].Return? {
        assert todo[1..] == [];
        assert CseTail(h, done, todo, scope) == [todo[0]] == todo;
      } else {
        CseSeenKeep(h, done, todo, scope, def, pend, target);
      }
    }
  }

  lemma SeenCons(n: Node, rest: seq<Node>, def: set<Variable>, pend: Option<Variable>)
    requires n.Conditional? ==> n.condition in def && Seen(n.ifpart, def, None) && Seen(n.elsepart, def, None)
    requires Seen(rest, NextDefs(n, def, pend), NextPend(n, pend))
    ensures Seen([n] + rest, def, pend)
  {
    assert ([n] + rest)[0] == n && ([n] + rest)[1..] == rest;
  }

  lemma {:induction false} CseSeenRemove(h: Host, done: seq<Node>, todo: seq<Node>, scope: seq<Node>,
                                         def: set<Variable>, pend: Option<Variable>, target: Option<Variable>)
    requires todo != [] && FirstSame(h, todo[0], done + scope).Some?
    requires Shaped(todo, def, pend, target) && Context(done + scope, def, todo) && Uses(done) !! AllDefs(todo)
    requires Seen(todo, def, pend) && TestsKept(h, done, todo, scope)
    ensures Seen(CseTail(h, done, todo, scope), def, pend)
    decreases Size(todo), 0
  {
    var x, rest := todo[0], todo[1..];
    var y := FirstSame(h, x, done + scope).value;
    MatchIsPure(h, todo, done + scope, def, pend, target);
    RemoveReady(h, done, todo, scope, def, pend, target);
    TestsKeptParts(h, done, todo, scope);
    RenameSeen(rest, Target(x).value, Target(y).value, def, pend);
    var rest' := Redirect(rest, x, y);
    CseSeen(h, done + [Empty], rest', scope, def, pend, target);
    RemoveIs(h, done, todo, scope);
    SeenCons(Empty, CseTail(h, done + [Empty], rest', scope), def, pend);
  }

  lemma {:induction false} CseSeenKeep(h: Host, done: seq<Node>, todo: seq<Node>, scope: seq<Node>,
                                       def: set<Variable>, pend: Option<Variable>, target: Option<Variable>)
    requires todo != [] && FirstSame(h, todo[0], done + scope).None? && !todo[0].Assign? && !todo[0].Return?
    requires Shaped(todo, def, pend, target) && Context(done + scope, def, todo) && Uses(done) !! AllDefs(todo)
    requires Seen(todo, def, pend) && TestsKept(h, done, todo, scope)
    ensures Seen(CseTail(h, done, todo, scope), def, pend)
    decreases Size(todo), 0
  {
    var x, rest := todo[0], todo[1..];
    var y := if x.Conditional? then CseConditional(h, x, scope + done) else x;
    TestsKeptParts(h, done, todo, scope);
    if x.Conditional? {
      ConditionalReady(h, done, todo, scope, def, pend, target);
      assert Size(todo) == 1 + Size(x.ifpart) + Size(x.elsepart) + Size(rest);
      BranchSeen(h, x.ifpart, scope + done, def, pend, todo, target);
      BranchSeen(h, x.elsepart, scope + done, def, pend, todo, target);
    } else {
      KeepReady(h, done, todo, scope, def, pend, target);
    }
    CseSeen(h, done + [y], rest, scope, NextDefs(x, def, pend), NextPend(x, pend), target);
    SeenCons(y, CseTail(h, done + [y], rest, scope), def, pend);
  }

  lemma {:induction false} BranchSeen(h: Host, block: seq<Node>, scope: seq<Node>, def: set<Variable>,
                                      pend: Option<Variable>, todo: seq<Node>, target: Option<Variable>)
    requires todo != [] && todo[0].Conditional? && (block == todo[0].ifpart || block == todo[0].elsepart)
    requires Shaped(todo, def, pend, target) && Context(scope, def, block) && Seen(block, def, None)
    requires TestsKept(h, [], block, scope)
    ensures Seen(Cse(h, [], block, scope), def, None)
    decreases Size(block), 2
  {
    ShapedRest(todo, def, pend, target);
    assert [] + scope == scope;
    CseLaidBranch(h, block, scope, def, pend);
    CseSeen(h, [], block, scope, def, None, pend);
  }

  /** The exact condition for scoping: after the pass every variable is read only where it is visible if
      and only if no conditional tests a removed variable. */
  lemma CseScopedIffTestsKept(h: Host, block: seq<Node>, def: set<Variable>)
    requires Wf(block, def, None, None)
    ensures Wf(Cse(h, [], block, []), def, None, None) <==> Removed(h, [], block, []) !! Tests(block)
  {
    assert AllDefs([]) == {} && Tests([]) == {} && Uses([]) == {};
    CseDefs(h, [], block, []);
    CseTests(h, [], block, []);
    CseLaid(h, [], block, [], def, None, None);
    assert [] + CseTail(h, [], block, []) == CseTail(h, [], block, []);
    if TestsKept(h, [], block, []) {
      CseSeen(h, [], block, [], def, None, None);
    }
    if Wf(Cse(h, [], block, []), def, None, None) {
      UsesVisible(Cse(h, [], block, []), def, None, None);
    }
  }
}
