/**
  What common-subexpression elimination is for (wikifunc/wikifunc.js:95-183, 227-260, 488-532): afterwards no value
  that is in scope is computed again.
 */
module WikiOnce {
  import opened Common
  import opened WikiIR
  import opened WikiCse

  // The same computation: the instructions differ at most in the variable that gets the value. False, the empty
  // string and objects do not count.
  predicate Again(x: Node, y: Node) {
    match (x, y)
    case (Call(z, _, args), Call(z', _, args')) => z == z' && args == args'
    case (Convert(c, _, src), Convert(c', _, src')) => c == c' && src == src'
    case (Build(_, typ, es), Build(_, typ', es')) => typ == typ' && es == es'
    case (Const(_, c, via), Const(_, c', via')) => c == c' && via == via' && Solid(c)
    case _ => false
  }

  predicate Solid(c: Constant) {
    c.Number? || c == Truth(true) || (c.Text? && c.text != "")
  }

  // No instruction computes again what one of those seen before it has computed; branches see what comes before them.
  ghost predicate Once(seen: set<Node>, nodes: seq<Node>)
    decreases nodes
  {
    nodes == [] || (NodeOnce(seen, nodes[0]) && Once(seen + {nodes[0]}, nodes[1..]))
  }

  ghost predicate NodeOnce(seen: set<Node>, n: Node)
    decreases n
  {
    match n
    case Conditional(_, a, b) => Once(seen, a) && Once(seen, b)
    case _ => forall x :: x in seen ==> !Again(x, n)
  }

  function SetOf(nodes: seq<Node>): set<Node> {
    set n | n in nodes
  }

  lemma AgainIsSame(h: Host, x: Node, y: Node)
    requires Again(x, y)
    ensures Same(h, y, x)
  {
  }

  lemma NewIsOnce(h: Host, n: Node, seen: seq<Node>)
    requires !n.Conditional? && (n.Empty? || FirstSame(h, n, seen).None?)
    ensures NodeOnce(SetOf(seen), n)
  {
    FirstSameIn(h, n, seen);
    forall x | x in seen
      ensures !Again(x, n)
    {
      if Again(x, n) {
        AgainIsSame(h, x, n);
      }
    }
  }

  lemma {:induction false} TailOnce(h: Host, done: seq<Node>, todo: seq<Node>, scope: seq<Node>, def: set<Variable>,
                                    pend: Option<Variable>, target: Option<Variable>)
    requires Shaped(todo, def, pend, target) && Context(done + scope, def, todo) && Uses(done) !! AllDefs(todo)
    ensures Once(SetOf(done + scope), CseTail(h, done, todo, scope))
    decreases Size(todo), 1
  {
    hide Shaped, Context, Uses, AllDefs, Once, Cse, NodeOnce, FirstSame;
    if todo == [] {
      NothingOnce(h, done, scope);
    } else if FirstSame(h, todo[0], done + scope).Some? {
      RemovedOnce(h, done, todo, scope, def, pend, target);
    } else if todo[0].Assign? || todo[0].Return? {
      LastOnce(h, done, todo, scope, def, pend, target);
    } else if todo[0].Conditional? {
      BranchesOnce(h, done, todo, scope, def, pend, target);
    } else {
      KeptOnce(h, done, todo, scope, def, pend, target);
    }
  }

  lemma NothingOnce(h: Host, done: seq<Node>, scope: seq<Node>)
    ensures Once(SetOf(done + scope), CseTail(h, done, [], scope))
  {
  }

  lemma Seen(done: seq<Node>, n: Node, scope: seq<Node>)
    ensures SetOf(done + [n] + scope) == SetOf(done + scope) + {n}
  {
  }

  lemma OnceCons(seen: set<Node>, n: Node, rest: seq<Node>)
    requires NodeOnce(seen, n) && Once(seen + {n}, rest)
    ensures Once(seen, [n] + rest)
  {
    assert ([n] + rest)[1..] == rest;
  }

  lemma {:induction false} RemovedOnce(h: Host, done: seq<Node>, todo: seq<Node>, scope: seq<Node>, def: set<Variable>,
                                       pend: Option<Variable>, target: Option<Variable>)
    requires todo != [] && FirstSame(h, todo[0], done + scope).Some?
    requires Shaped(todo, def, pend, target) && Context(done + scope, def, todo) && Uses(done) !! AllDefs(todo)
    ensures Once(SetOf(done + scope), CseTail(h, done, todo, scope))
    decreases Size(todo), 0
  {
    hide Shaped, Context, Uses, AllDefs, Once, Cse, CseTail, Redirect, FirstSame;
    var x, y := todo[0], FirstSame(h, todo[0], done + scope).value;
    var rest := Redirect(todo[1..], x, y);
    MatchIsPure(h, todo, done + scope, def, pend, target);
    RemoveReady(h, done, todo, scope, def, pend, target);
    RemoveIs(h, done, todo, scope);
    AllDefsMore(todo);
    NothingAdded(done, todo, rest);
    TailOnce(h, done + [Empty], rest, scope, def, pend, target);
    Seen(done, Empty, scope);
    OnceCons(SetOf(done + scope), Empty, CseTail(h, done + [Empty], rest, scope));
  }

  lemma LastOnce(h: Host, done: seq<Node>, todo: seq<Node>, scope: seq<Node>, def: set<Variable>,
                 pend: Option<Variable>, target: Option<Variable>)
    requires todo != [] && (todo[0].Assign? || todo[0].Return?) && FirstSame(h, todo[0], done + scope).None?
    requires Shaped(todo, def, pend, target)
    ensures Once(SetOf(done + scope), CseTail(h, done, todo, scope))
  {
    assert todo[1..] == [];
    assert CseTail(h, done, todo, scope) == [todo[0]];
    NewIsOnce(h, todo[0], done + scope);
    assert [todo[0]][1..] == [];
  }

  lemma {:induction false} KeptOnce(h: Host, done: seq<Node>, todo: seq<Node>, scope: seq<Node>, def: set<Variable>,
                                    pend: Option<Variable>, target: Option<Variable>)
    requires todo != [] && FirstSame(h, todo[0], done + scope).None?
    requires !todo[0].Conditional? && !todo[0].Assign? && !todo[0].Return?
    requires Shaped(todo, def, pend, target) && Context(done + scope, def, todo) && Uses(done) !! AllDefs(todo)
    ensures Once(SetOf(done + scope), CseTail(h, done, todo, scope))
    decreases Size(todo), 0
  {
    hide Shaped, Context, Uses, AllDefs, Once, Cse, FirstSame;
    var x, rest := todo[0], todo[1..];
    KeepReady(h, done, todo, scope, def, pend, target);
    TailOnce(h, done + [x], rest, scope, NextDefs(x, def, pend), NextPend(x, pend), target);
    NewIsOnce(h, x, done + scope);
    Seen(done, x, scope);
    OnceCons(SetOf(done + scope), x, CseTail(h, done + [x], rest, scope));
  }

  lemma {:induction false} BlockOnce(h: Host, block: seq<Node>, scope: seq<Node>, def: set<Variable>,
                                     pend: Option<Variable>)
    requires Shaped(block, def, None, pend) && Context(scope, def, block)
    ensures Once(SetOf(scope), Cse(h, [], block, scope))
    decreases Size(block), 2
  {
    hide Shaped, Context, Uses, AllDefs, Once, Cse, CseTail;
    assert [] + scope == scope;
    assert Uses([]) == {} by {
      NoUses();
    }
    CseLaidBranch(h, block, scope, def, pend);
    TailOnce(h, [], block, scope, def, None, pend);
  }

  lemma NoUses()
    ensures Uses([]) == {}
  {
  }

  lemma {:induction false} BranchesOnce(h: Host, done: seq<Node>, todo: seq<Node>, scope: seq<Node>, def: set<Variable>,
                                        pend: Option<Variable>, target: Option<Variable>)
    requires todo != [] && todo[0].Conditional?
    requires Shaped(todo, def, pend, target) && Context(done + scope, def, todo) && Uses(done) !! AllDefs(todo)
    ensures Once(SetOf(done + scope), CseTail(h, done, todo, scope))
    decreases Size(todo), 0
  {
    hide Shaped, Context, Uses, AllDefs, Once, Cse;
    var x, rest, y := todo[0], todo[1..], CseConditional(h, todo[0], scope + done);
    BranchReady(todo, done, scope, def, pend, target);
    ConditionalReady(h, done, todo, scope, def, pend, target);
    BlockOnce(h, x.ifpart, scope + done, def, pend);
    BlockOnce(h, x.elsepart, scope + done, def, pend);
    TailOnce(h, done + [y], rest, scope, NextDefs(x, def, pend), None, target);
    assert SetOf(scope + done) == SetOf(done + scope);
    Seen(done, y, scope);
    OnceCons(SetOf(done + scope), y, CseTail(h, done + [y], rest, scope));
  }

  // What the branches of a conditional see.
  lemma BranchReady(todo: seq<Node>, done: seq<Node>, scope: seq<Node>, def: set<Variable>, pend: Option<Variable>,
                    target: Option<Variable>)
    requires todo != [] && todo[0].Conditional? && Shaped(todo, def, pend, target) && Context(done + scope, def, todo)
    ensures var x := todo[0];
            && Shaped(x.ifpart, def, None, pend) && Shaped(x.elsepart, def, None, pend)
            && Context(scope + done, def, x.ifpart) && Context(scope + done, def, x.elsepart)
            && Size(x.ifpart) < Size(todo) && Size(x.elsepart) < Size(todo)
  {
    ShapedRest(todo, def, pend, target);
  }

  /** Common-subexpression elimination leaves no value in scope that is computed twice. */
  lemma NothingAgain(h: Host, block: seq<Node>, def: set<Variable>)
    requires Wf(block, def, None, None)
    ensures Once({}, Cse(h, [], block, []))
  {
    hide Once;
    assert SetOf([]) == {};
    BlockOnce(h, block, [], def, None);
  }
}
