/**
  What common-subexpression elimination does to a run of some code: nothing, as long as the run tests no variable whose
  definition has been removed (wikifunc/wikifunc.js:293-307, 435-471).
 */
module WikiCseRun {
  import opened Common
  import opened WikiIR
  import opened WikiRun
  import opened WikiCse
  import opened WikiMerge

  // ----- renaming in a run -----

  function Without(o: Outcome, a: Variable): Outcome {
    if o.Running? then Running(o.env - {a}) else o
  }

  lemma SwapAllValues(vs: seq<Variable>, a: Variable, b: Variable, env: Env)
    requires a in env && b in env && a != b && env[a] == env[b]
    ensures Bound(SwapAll(vs, a, b), env - {a}) <==> Bound(vs, env)
    ensures Bound(vs, env) ==> Values(SwapAll(vs, a, b), env - {a}) == Values(vs, env)
    ensures Listed(SwapAll(vs, a, b), env - {a}) == Listed(vs, env)
  {
    var ws := SwapAll(vs, a, b);
    assert forall i :: 0 <= i < |vs| ==> (ws[i] in env - {a} <==> vs[i] in env);
    if Bound(ws, env - {a}) {
      forall v | v in vs ensures v in env {
        var i :| 0 <= i < |vs| && vs[i] == v;
        assert ws[i] in ws;
      }
    }
  }

  lemma RenameSimple(h: Host, call: Oracle, n: Node, a: Variable, b: Variable, env: Env)
    requires !n.Conditional? && Target(n) != Some(a) && a in env && b in env && a != b && env[a] == env[b]
    ensures Step(h, call, RenameNode(n, a, b), env - {a}) == Without(Step(h, call, n, env), a)
  {
    match n
    case Call(_, _, args) => SwapAllValues(args, a, b, env);
    case Build(_, _, es) => SwapAllValues(es, a, b, env);
    case _ =>
  }

  // ----- the tests of a run -----

  /** Every conditional that a run reaches tests a variable that is not lost. A test of a variable without a value is
      left aside, since it ends the run. */
  ghost predicate TestsMet(h: Host, call: Oracle, nodes: seq<Node>, lost: set<Variable>, env: Env)
    decreases nodes
  {
    nodes == [] ||
    (&& TestMet(h, call, nodes[0], lost, env)
     && var o := Step(h, call, nodes[0], env); o.Running? ==> TestsMet(h, call, nodes[1..], lost, o.env))
  }

  ghost predicate TestMet(h: Host, call: Oracle, n: Node, lost: set<Variable>, env: Env)
    decreases n
  {
    n.Conditional? && n.condition in env ==>
    && n.condition !in lost
    && if Truthy(h, env[n.condition]) then TestsMet(h, call, n.ifpart, lost, env)
       else TestsMet(h, call, n.elsepart, lost, env)
  }

  lemma {:induction false} TestsBoth(h: Host, call: Oracle, nodes: seq<Node>, a: set<Variable>, b: set<Variable>,
                                     env: Env)
    ensures TestsMet(h, call, nodes, a + b, env) <==>
            TestsMet(h, call, nodes, a, env) && TestsMet(h, call, nodes, b, env)
    decreases nodes
  {
    if nodes != [] {
      TestBoth(h, call, nodes[0], a, b, env);
      var o := Step(h, call, nodes[0], env);
      if o.Running? {
        TestsBoth(h, call, nodes[1..], a, b, o.env);
      }
    }
  }

  lemma {:induction false} TestBoth(h: Host, call: Oracle, n: Node, a: set<Variable>, b: set<Variable>, env: Env)
    ensures TestMet(h, call, n, a + b, env) <==> TestMet(h, call, n, a, env) && TestMet(h, call, n, b, env)
    decreases n
  {
    if n.Conditional? && n.condition in env {
      TestsBoth(h, call, if Truthy(h, env[n.condition]) then n.ifpart else n.elsepart, a, b, env);
    }
  }

  lemma StepCreates(h: Host, call: Oracle, n: Node, env: Env)
    ensures var o := Step(h, call, n, env); o.Running? ==> o.env.Keys <= env.Keys + NodeDefs(n)
  {
  }

  // A run tests only variables that it has or makes.
  lemma {:induction false} TestsOther(h: Host, call: Oracle, nodes: seq<Node>, lost: set<Variable>, env: Env)
    requires lost !! env.Keys + AllDefs(nodes)
    ensures TestsMet(h, call, nodes, lost, env)
    decreases nodes
  {
    if nodes != [] {
      var n := nodes[0];
      if n.Conditional? && n.condition in env {
        TestsOther(h, call, if Truthy(h, env[n.condition]) then n.ifpart else n.elsepart, lost, env);
      }
      StepCreates(h, call, n, env);
      var o := Step(h, call, n, env);
      if o.Running? {
        TestsOther(h, call, nodes[1..], lost, o.env);
      }
    }
  }

  // Variables that are not tested anywhere are not tested by a run.
  lemma {:induction false} TestsElsewhere(h: Host, call: Oracle, nodes: seq<Node>, lost: set<Variable>, env: Env)
    requires lost !! Tests(nodes)
    ensures TestsMet(h, call, nodes, lost, env)
    decreases nodes
  {
    if nodes != [] {
      var n := nodes[0];
      if n.Conditional? && n.condition in env {
        TestsElsewhere(h, call, if Truthy(h, env[n.condition]) then n.ifpart else n.elsepart, lost, env);
      }
      var o := Step(h, call, n, env);
      if o.Running? {
        TestsElsewhere(h, call, nodes[1..], lost, o.env);
      }
    }
  }

  // Where b has the value of a, which is about to be renamed.
  ghost predicate Doubled(nodes: seq<Node>, a: Variable, b: Variable, def: set<Variable>, pend: Option<Variable>,
                          target: Option<Variable>, env: Env) {
    && a !in def && b in def && Shaped(nodes, def + {a}, pend, target)
    && Ready(nodes, def + {a}, pend, target, env) && env[a] == env[b]
  }

  /** Reading b instead of a variable a with the same value, and never having a, changes nothing else, as long as a is
      not tested; a test of a fails. */
  lemma {:induction false} RenameStep(h: Host, call: Oracle, nodes: seq<Node>, a: Variable, b: Variable,
                                      def: set<Variable>, pend: Option<Variable>, target: Option<Variable>, env: Env)
    requires nodes != [] && Doubled(nodes, a, b, def, pend, target, env)
    ensures Step(h, call, RenameNode(nodes[0], a, b), env - {a}) ==
            if TestMet(h, call, nodes[0], {a}, env) then Without(Step(h, call, nodes[0], env), a) else Failed
    decreases nodes, 1
  {
    hide Step, TestMet;
    if nodes[0].Conditional? {
      RenameBranch(h, call, nodes, a, b, def, pend, target, env);
    } else {
      assert Target(nodes[0]) != Some(a);
      RenameSimple(h, call, nodes[0], a, b, env);
      TestSimple(h, call, nodes[0], {a}, env);
    }
  }

  lemma TestSimple(h: Host, call: Oracle, n: Node, lost: set<Variable>, env: Env)
    requires !n.Conditional?
    ensures TestMet(h, call, n, lost, env)
  {
  }

  lemma LeaveWithout(env: Env, o: Outcome, a: Variable)
    ensures Leave((env - {a}).Keys, Without(o, a)) == Without(Leave(env.Keys, o), a)
  {
  }

  lemma DoubledBranch(nodes: seq<Node>, a: Variable, b: Variable, def: set<Variable>, pend: Option<Variable>,
                      target: Option<Variable>, env: Env)
    requires nodes != [] && nodes[0].Conditional? && Doubled(nodes, a, b, def, pend, target, env)
    ensures Doubled(nodes[0].ifpart, a, b, def, None, pend, env)
    ensures Doubled(nodes[0].elsepart, a, b, def, None, pend, env)
  {
    ShapedRest(nodes, def + {a}, pend, target);
  }

  lemma {:induction false} RenameBranch(h: Host, call: Oracle, nodes: seq<Node>, a: Variable, b: Variable,
                                        def: set<Variable>, pend: Option<Variable>, target: Option<Variable>, env: Env)
    requires nodes != [] && nodes[0].Conditional? && Doubled(nodes, a, b, def, pend, target, env)
    ensures Step(h, call, RenameNode(nodes[0], a, b), env - {a}) ==
            if TestMet(h, call, nodes[0], {a}, env) then Without(Step(h, call, nodes[0], env), a) else Failed
    decreases nodes, 0
  {
    hide Doubled;
    var n := nodes[0];
    DoubledBranch(nodes, a, b, def, pend, target, env);
    if n.condition in env {
      var br := if Truthy(h, env[n.condition]) then n.ifpart else n.elsepart;
      RenameRun(h, call, br, a, b, def, None, pend, env);
      LeaveWithout(env, Run(h, call, br, env), a);
    }
  }

  lemma DoubledRest(h: Host, call: Oracle, nodes: seq<Node>, a: Variable, b: Variable, def: set<Variable>,
                    pend: Option<Variable>, target: Option<Variable>, env: Env)
    requires nodes != [] && !nodes[0].Assign? && Doubled(nodes, a, b, def, pend, target, env)
    requires Step(h, call, nodes[0], env).Running?
    ensures Doubled(nodes[1..], a, b, NextDefs(nodes[0], def, pend), NextPend(nodes[0], pend), target,
                    Step(h, call, nodes[0], env).env)
  {
    var n := nodes[0];
    StepExtends(h, call, nodes, def + {a}, pend, target, env);
    ShapedRest(nodes, def + {a}, pend, target);
    assert NextDefs(n, def + {a}, pend) == NextDefs(n, def, pend) + {a};
  }

  lemma {:induction false} RenameRun(h: Host, call: Oracle, nodes: seq<Node>, a: Variable, b: Variable,
                                     def: set<Variable>, pend: Option<Variable>, target: Option<Variable>, env: Env)
    requires Doubled(nodes, a, b, def, pend, target, env)
    ensures Run(h, call, Rename(nodes, a, b), env - {a}) ==
            if TestsMet(h, call, nodes, {a}, env) then Without(Run(h, call, nodes, env), a) else Failed
    decreases nodes, 2
  {
    if nodes != [] {
      hide Doubled, RenameNode, Step, TestMet;
      var n, rest := nodes[0], nodes[1..];
      assert Rename(nodes, a, b)[0] == RenameNode(n, a, b) && Rename(nodes, a, b)[1..] == Rename(rest, a, b);
      RenameStep(h, call, nodes, a, b, def, pend, target, env);
      var o := Step(h, call, n, env);
      if o.Running? {
        if n.Assign? {
          LastAssign(nodes, a, b, def, pend, target, env);
          assert rest == [] && Rename(rest, a, b) == [];
        } else {
          DoubledRest(h, call, nodes, a, b, def, pend, target, env);
          RenameRun(h, call, rest, a, b, NextDefs(n, def, pend), NextPend(n, pend), target, o.env);
        }
      }
    }
  }

  lemma LastAssign(nodes: seq<Node>, a: Variable, b: Variable, def: set<Variable>, pend: Option<Variable>,
                   target: Option<Variable>, env: Env)
    requires nodes != [] && nodes[0].Assign? && Doubled(nodes, a, b, def, pend, target, env)
    ensures nodes[1..] == []
  {
  }

  // After the renaming, a run that does not test a tests the same variables.
  lemma {:induction false} RenameTestsMet(h: Host, call: Oracle, nodes: seq<Node>, a: Variable, b: Variable,
                                          def: set<Variable>, pend: Option<Variable>, target: Option<Variable>,
                                          env: Env, lost: set<Variable>)
    requires Doubled(nodes, a, b, def, pend, target, env) && TestsMet(h, call, nodes, {a}, env) && a !in lost
    ensures TestsMet(h, call, Rename(nodes, a, b), lost, env - {a}) <==> TestsMet(h, call, nodes, lost, env)
    decreases nodes, 1
  {
    if nodes != [] {
      hide Doubled, RenameNode, Step, TestMet;
      var n, rest := nodes[0], nodes[1..];
      assert Rename(nodes, a, b)[0] == RenameNode(n, a, b) && Rename(nodes, a, b)[1..] == Rename(rest, a, b);
      RenameStep(h, call, nodes, a, b, def, pend, target, env);
      RenameTestMet(h, call, nodes, a, b, def, pend, target, env, lost);
      var o := Step(h, call, n, env);
      if o.Running? {
        if n.Assign? {
          LastAssign(nodes, a, b, def, pend, target, env);
          assert rest == [] && Rename(rest, a, b) == [];
        } else {
          DoubledRest(h, call, nodes, a, b, def, pend, target, env);
          RenameTestsMet(h, call, rest, a, b, NextDefs(n, def, pend), NextPend(n, pend), target, o.env, lost);
        }
      }
    }
  }

  lemma {:induction false} RenameTestMet(h: Host, call: Oracle, nodes: seq<Node>, a: Variable, b: Variable,
                                         def: set<Variable>, pend: Option<Variable>, target: Option<Variable>,
                                         env: Env, lost: set<Variable>)
    requires nodes != [] && Doubled(nodes, a, b, def, pend, target, env)
    requires TestMet(h, call, nodes[0], {a}, env) && a !in lost
    ensures TestMet(h, call, RenameNode(nodes[0], a, b), lost, env - {a}) <==> TestMet(h, call, nodes[0], lost, env)
    decreases nodes, 0
  {
    var n := nodes[0];
    if n.Conditional? && n.condition in env {
      hide Doubled;
      DoubledBranch(nodes, a, b, def, pend, target, env);
      var br := if Truthy(h, env[n.condition]) then n.ifpart else n.elsepart;
      RenameTestsMet(h, call, br, a, b, def, None, pend, env, lost);
    }
  }

  // ----- meaning -----

  // The outcomes agree on everything but the variables in `hidden`.
  ghost predicate SameOutside(hidden: set<Variable>, o: Outcome, p: Outcome) {
    match (o, p)
    case (Running(e), Running(f)) => e - hidden == f - hidden
    case _ => o == p
  }

  lemma SameTransitive(small: set<Variable>, large: set<Variable>, hidden: set<Variable>, o: Outcome, p: Outcome,
                       q: Outcome)
    requires SameOutside(small, o, p) && SameOutside(large, p, q) && small + large <= hidden
    ensures SameOutside(hidden, o, q)
  {
    if o.Running? {
      assert o.env - hidden == (o.env - small) - hidden == (p.env - small) - hidden == p.env - hidden;
      assert p.env - hidden == (p.env - large) - hidden == (q.env - large) - hidden == q.env - hidden;
    }
  }

  // Executing an instruction equal to one whose equation holds just copies that one's variable.
  lemma SameStep(h: Host, call: Oracle, x: Node, y: Node, env: Env)
    requires Pure(x) && Pure(y) && Same(h, x, y) && Holds(h, call, y, env) && !Mixed(h, x, y)
    requires Target(x).value !in env && Target(y).value in env
    ensures Step(h, call, x, env) == Running(env[Target(x).value := env[Target(y).value]])
  {
  }

  ghost predicate CseReady(h: Host, call: Oracle, done: seq<Node>, todo: seq<Node>, scope: seq<Node>,
                           def: set<Variable>, pend: Option<Variable>, target: Option<Variable>,
                           env: Env) {
    && Shaped(todo, def, pend, target) && Context(done + scope, def, todo) && Uses(done) !! AllDefs(todo)
    && Ready(todo, def, pend, target, env) && Facts(h, call, done + scope, env)
    && !Merges(h, done, todo, scope)
  }

  // A run that tests no lost variable ends in the same way after the pass, any other fails.
  ghost predicate Meets(met: bool, hidden: set<Variable>, o: Outcome, p: Outcome) {
    if met then SameOutside(hidden, o, p) else p == Failed
  }

  // What the pass makes of the rest of a block, in a run.
  ghost predicate CseMeets(h: Host, call: Oracle, done: seq<Node>, todo: seq<Node>, scope: seq<Node>, env: Env) {
    Meets(TestsMet(h, call, todo, Removed(h, done, todo, scope), env), AllDefs(todo), Run(h, call, todo, env),
          Run(h, call, CseTail(h, done, todo, scope), env))
  }

  /** The pass keeps the meaning of a run that tests no removed variable: from any environment in which the equations
      of the context hold, both versions fail, return the same value, or leave the same variables behind. Any other
      run fails after the pass. */
  lemma {:induction false} CseRun(h: Host, call: Oracle, done: seq<Node>, todo: seq<Node>, scope: seq<Node>,
                                  def: set<Variable>, pend: Option<Variable>, target: Option<Variable>,
                                  env: Env)
    requires CseReady(h, call, done, todo, scope, def, pend, target, env)
    ensures CseMeets(h, call, done, todo, scope, env)
    decreases Size(todo), 2
  {
    if todo != [] {
      if FirstSame(h, todo[0], done + scope).Some? {
        CseRunRemove(h, call, done, todo, scope, def, pend, target, env);
      } else if todo[0].Assign? || todo[0].Return? {
        LastMeets(h, call, done, todo, scope, env);
      } else if todo[0].Conditional? {
        CseRunAround(h, call, done, todo, scope, def, pend, target, env);
      } else {
        CseRunKeep(h, call, done, todo, scope, def, pend, target, env);
      }
    }
  }

  lemma LastMeets(h: Host, call: Oracle, done: seq<Node>, todo: seq<Node>, scope: seq<Node>, env: Env)
    requires todo != [] && (todo[0].Assign? || todo[0].Return?) && todo[1..] == []
    requires FirstSame(h, todo[0], done + scope).None?
    ensures CseMeets(h, call, done, todo, scope, env)
  {
    assert CseTail(h, done, todo, scope) == [todo[0]] == todo;
    var r := Run(h, call, todo, env);
    assert SameOutside(AllDefs(todo), r, r);
    assert TestsMet(h, call, todo, Removed(h, done, todo, scope), env) by {
      assert TestMet(h, call, todo[0], Removed(h, done, todo, scope), env);
    }
  }

  lemma MergesRemove(h: Host, done: seq<Node>, todo: seq<Node>, scope: seq<Node>)
    requires todo != [] && Pure(todo[0]) && FirstSame(h, todo[0], done + scope).Some? && !Merges(h, done, todo, scope)
    ensures var x, y := todo[0], FirstSame(h, todo[0], done + scope).value;
            !Mixed(h, x, y) && !Merges(h, Redirect(done, x, y) + [Empty], Redirect(todo[1..], x, y), scope)
  {
    hide Redirect, FirstSame, Mixed;
  }

  lemma MergesConditional(h: Host, done: seq<Node>, todo: seq<Node>, scope: seq<Node>)
    requires todo != [] && todo[0].Conditional? && !Merges(h, done, todo, scope)
    ensures !Merges(h, [], todo[0].ifpart, scope + done) && !Merges(h, [], todo[0].elsepart, scope + done)
    ensures !Merges(h, done + [CseConditional(h, todo[0], scope + done)], todo[1..], scope)
  {
  }

  // The run up to a duplicate that is removed.
  lemma RemoveDoubled(h: Host, call: Oracle, done: seq<Node>, todo: seq<Node>, scope: seq<Node>,
                      def: set<Variable>, pend: Option<Variable>, target: Option<Variable>, env: Env)
    requires CseReady(h, call, done, todo, scope, def, pend, target, env)
    requires todo != [] && FirstSame(h, todo[0], done + scope).Some?
    ensures var x, y := todo[0], FirstSame(h, todo[0], done + scope).value;
            && Pure(x) && Target(x).Some? && Target(y).Some? && Target(y).value in env && Target(x).value !in env
            && NodeDefs(x) == {Target(x).value}
            && var e := env[Target(x).value := env[Target(y).value]];
               && Step(h, call, x, env) == Running(e)
               && Doubled(todo[1..], Target(x).value, Target(y).value, def, pend, target, e)
  {
    var x, rest := todo[0], todo[1..];
    var y := FirstSame(h, x, done + scope).value;
    MatchIsPure(h, todo, done + scope, def, pend, target);
    MergesRemove(h, done, todo, scope);
    SameStep(h, call, x, y, env);
    ShapedRest(todo, def, pend, target);
  }

  lemma RemovedIs(h: Host, done: seq<Node>, todo: seq<Node>, scope: seq<Node>)
    requires todo != [] && Pure(todo[0]) && FirstSame(h, todo[0], done + scope).Some?
    requires Redirect(done, todo[0], FirstSame(h, todo[0], done + scope).value) == done && Unique(todo)
    ensures var rest' := Redirect(todo[1..], todo[0], FirstSame(h, todo[0], done + scope).value);
            var lost := Removed(h, done + [Empty], rest', scope);
            Removed(h, done, todo, scope) == NodeDefs(todo[0]) + lost && NodeDefs(todo[0]) !! lost
  {
    var rest := todo[1..];
    var y := FirstSame(h, todo[0], done + scope).value;
    RedirectKeeps(rest, todo[0], y);
    CseDefs(h, done + [Empty], Redirect(rest, todo[0], y), scope);
  }

  // Removing one duplicate and renaming its uses hides its variable and nothing else, unless it is tested.
  lemma RemoveRun(h: Host, call: Oracle, done: seq<Node>, todo: seq<Node>, scope: seq<Node>,
                  def: set<Variable>, pend: Option<Variable>, target: Option<Variable>,
                  env: Env, lost: set<Variable>)
    requires CseReady(h, call, done, todo, scope, def, pend, target, env)
    requires todo != [] && FirstSame(h, todo[0], done + scope).Some? && NodeDefs(todo[0]) !! lost
    ensures var rest' := Redirect(todo[1..], todo[0], FirstSame(h, todo[0], done + scope).value);
            var mine := TestsMet(h, call, todo, NodeDefs(todo[0]), env);
            && Meets(mine, NodeDefs(todo[0]), Run(h, call, todo, env), Run(h, call, rest', env))
            && (TestsMet(h, call, todo, NodeDefs(todo[0]) + lost, env) <==>
                mine && TestsMet(h, call, rest', lost, env))
  {
    var x, rest := todo[0], todo[1..];
    var y := FirstSame(h, x, done + scope).value;
    RemoveDoubled(h, call, done, todo, scope, def, pend, target, env);
    hide CseReady, Doubled, Removed, RenameNode;
    var a, b := Target(x).value, Target(y).value;
    var e := env[a := env[b]];
    assert e - {a} == env;
    TestSimple(h, call, x, {a}, env);
    TestSimple(h, call, x, {a} + lost, env);
    TestsBoth(h, call, rest, {a}, lost, e);
    RenameRun(h, call, rest, a, b, def, pend, target, e);
    if TestsMet(h, call, rest, {a}, e) {
      RenameTestsMet(h, call, rest, a, b, def, pend, target, e, lost);
    }
  }

  lemma RunEmpty(h: Host, call: Oracle, rest: seq<Node>, env: Env)
    ensures Run(h, call, [Empty] + rest, env) == Run(h, call, rest, env)
  {
    assert ([Empty] + rest)[0] == Empty && ([Empty] + rest)[1..] == rest;
  }

  lemma {:induction false} CseRunRemove(h: Host, call: Oracle, done: seq<Node>, todo: seq<Node>, scope: seq<Node>,
                                        def: set<Variable>, pend: Option<Variable>, target: Option<Variable>,
                                        env: Env)
    requires CseReady(h, call, done, todo, scope, def, pend, target, env)
    requires todo != [] && FirstSame(h, todo[0], done + scope).Some?
    ensures CseMeets(h, call, done, todo, scope, env)
    decreases Size(todo), 1
  {
    var x, rest := todo[0], todo[1..];
    var y := FirstSame(h, x, done + scope).value;
    var rest' := Redirect(rest, x, y);
    MatchIsPure(h, todo, done + scope, def, pend, target);
    MergesRemove(h, done, todo, scope);
    RemoveReady(h, done, todo, scope, def, pend, target);
    RemovedIs(h, done, todo, scope);
    var lost := Removed(h, done + [Empty], rest', scope);
    RemoveRun(h, call, done, todo, scope, def, pend, target, env, lost);
    CseRun(h, call, done + [Empty], rest', scope, def, pend, target, env);
    RemoveIs(h, done, todo, scope);
    var tail := CseTail(h, done + [Empty], rest', scope);
    RunEmpty(h, call, tail, env);
    hide CseReady, Shaped, Context, TestsMet, Run, CseTail, Removed;
    if TestsMet(h, call, todo, NodeDefs(x) + lost, env) {
      SameTransitive(NodeDefs(x), AllDefs(rest'), AllDefs(todo),
                     Run(h, call, todo, env), Run(h, call, rest', env), Run(h, call, tail, env));
    }
  }

  lemma {:induction false} CseRunKeep(h: Host, call: Oracle, done: seq<Node>, todo: seq<Node>, scope: seq<Node>,
                                      def: set<Variable>, pend: Option<Variable>, target: Option<Variable>,
                                      env: Env)
    requires CseReady(h, call, done, todo, scope, def, pend, target, env)
    requires todo != [] && FirstSame(h, todo[0], done + scope).None?
    requires !todo[0].Assign? && !todo[0].Return? && !todo[0].Conditional?
    ensures CseMeets(h, call, done, todo, scope, env)
    decreases Size(todo), 1
  {
    var x, rest := todo[0], todo[1..];
    var tail := CseTail(h, done + [x], rest, scope);
    assert CseTail(h, done, todo, scope) == [x] + tail && ([x] + tail)[1..] == tail;
    TestSimple(h, call, x, Removed(h, done, todo, scope), env);
    var o := Step(h, call, x, env);
    if o.Running? {
      CseKeepReady(h, call, done, todo, scope, def, pend, target, env, x);
      CseRun(h, call, done + [x], rest, scope, NextDefs(x, def, pend), NextPend(x, pend), target, o.env);
      SameMore(AllDefs(rest), AllDefs(todo), Run(h, call, rest, o.env), Run(h, call, tail, o.env));
    }
  }

  lemma SameMore(hidden: set<Variable>, more: set<Variable>, o: Outcome, p: Outcome)
    requires hidden <= more
    ensures SameOutside(hidden, o, p) ==> SameOutside(more, o, p)
  {
    if SameOutside(hidden, o, p) {
      SameTransitive({}, hidden, more, o, o, p);
    }
  }

  // The context grows by the kept instruction, whose equation now holds.
  lemma {:induction false} CseKeepReady(h: Host, call: Oracle, done: seq<Node>, todo: seq<Node>, scope: seq<Node>,
                                        def: set<Variable>, pend: Option<Variable>, target: Option<Variable>,
                                        env: Env, y: Node)
    requires CseReady(h, call, done, todo, scope, def, pend, target, env)
    requires todo != [] && FirstSame(h, todo[0], done + scope).None? && !todo[0].Assign? && !todo[0].Return?
    requires y == if todo[0].Conditional? then CseConditional(h, todo[0], scope + done) else todo[0]
    requires Step(h, call, todo[0], env).Running?
    ensures var x := todo[0];
            CseReady(h, call, done + [y], todo[1..], scope, NextDefs(x, def, pend), NextPend(x, pend), target,
                     Step(h, call, x, env).env)
  {
    var x, rest := todo[0], todo[1..];
    var def', pend' := NextDefs(x, def, pend), NextPend(x, pend);
    var e := Step(h, call, x, env).env;
    ShapedRest(todo, def, pend, target);
    StepExtends(h, call, todo, def, pend, target, env);
    if x.Conditional? {
      ConditionalReady(h, done, todo, scope, def, pend, target);
    } else {
      KeepReady(h, done, todo, scope, def, pend, target);
      StepHolds(h, call, x, env);
    }
    FactsStay(h, call, done + scope, env, e, Open(pend, target), NodeDefs(x));
  }

  // A conditional and the rest of its block.
  lemma {:induction false} CseRunAround(h: Host, call: Oracle, done: seq<Node>, todo: seq<Node>, scope: seq<Node>,
                                        def: set<Variable>, pend: Option<Variable>, target: Option<Variable>,
                                        env: Env)
    requires CseReady(h, call, done, todo, scope, def, pend, target, env)
    requires todo != [] && todo[0].Conditional? && FirstSame(h, todo[0], done + scope).None?
    ensures CseMeets(h, call, done, todo, scope, env)
    decreases Size(todo), 1
  {
    var x, rest := todo[0], todo[1..];
    var y := CseConditional(h, x, scope + done);
    CseRunConditional(h, call, done, todo, scope, def, pend, target, env);
    var tail := CseTail(h, done + [y], rest, scope);
    assert CseTail(h, done, todo, scope) == [y] + tail && ([y] + tail)[1..] == tail;
    var inside, later := RemovedInside(h, x, scope + done), Removed(h, done + [y], rest, scope);
    AroundTests(h, call, done, todo, scope, def, pend, target, env);
    var o := Step(h, call, x, env);
    if o.Running? {
      CseKeepReady(h, call, done, todo, scope, def, pend, target, env, y);
      CseRun(h, call, done + [y], rest, scope, NextDefs(x, def, pend), NextPend(x, pend), target, o.env);
      SameMore(AllDefs(rest), AllDefs(todo), Run(h, call, rest, o.env), Run(h, call, tail, o.env));
    }
  }

  // The variables removed inside a conditional are tested there only, and those removed later only later.
  lemma AroundTests(h: Host, call: Oracle, done: seq<Node>, todo: seq<Node>, scope: seq<Node>,
                    def: set<Variable>, pend: Option<Variable>, target: Option<Variable>, env: Env)
    requires CseReady(h, call, done, todo, scope, def, pend, target, env) && todo != [] && todo[0].Conditional?
    ensures var x, rest := todo[0], todo[1..];
            var later := Removed(h, done + [CseConditional(h, x, scope + done)], rest, scope);
            var o := Step(h, call, x, env);
            TestsMet(h, call, todo, Removed(h, done, todo, scope), env) <==>
            && TestMet(h, call, x, RemovedInside(h, x, scope + done), env)
            && (o.Running? ==> TestsMet(h, call, rest, later, o.env))
  {
    var x, rest := todo[0], todo[1..];
    var inside := RemovedInside(h, x, scope + done);
    var later := Removed(h, done + [CseConditional(h, x, scope + done)], rest, scope);
    ShapedRest(todo, def, pend, target);
    assert Size(todo) == 1 + Size(x.ifpart) + Size(x.elsepart) + Size(rest);
    CseConditionalDefs(h, x, scope + done);
    CseDefs(h, done + [CseConditional(h, x, scope + done)], rest, scope);
    TestBoth(h, call, x, inside, later, env);
    if x.condition in env {
      TestsOther(h, call, if Truthy(h, env[x.condition]) then x.ifpart else x.elsepart, later, env);
    }
    var o := Step(h, call, x, env);
    if o.Running? {
      StepCreates(h, call, x, env);
      LeavesOuter(h, call, x, env);
      TestsOther(h, call, rest, inside, o.env);
      TestsBoth(h, call, rest, inside, later, o.env);
    }
  }

  lemma LeavesOuter(h: Host, call: Oracle, x: Node, env: Env)
    requires x.Conditional? && Step(h, call, x, env).Running?
    ensures Step(h, call, x, env).env.Keys <= env.Keys
  {
  }

  lemma {:induction false} CseRunConditional(h: Host, call: Oracle, done: seq<Node>, todo: seq<Node>, scope: seq<Node>,
                                             def: set<Variable>, pend: Option<Variable>, target: Option<Variable>,
                                             env: Env)
    requires CseReady(h, call, done, todo, scope, def, pend, target, env)
    requires todo != [] && todo[0].Conditional?
    ensures var x := todo[0];
            Step(h, call, CseConditional(h, x, scope + done), env) ==
            if TestMet(h, call, x, RemovedInside(h, x, scope + done), env) then Step(h, call, x, env) else Failed
    decreases Size(todo), 0
  {
    var x := todo[0];
    if x.condition in env {
      ShapedRest(todo, def, pend, target);
      assert Size(todo) == 1 + Size(x.ifpart) + Size(x.elsepart) + Size(todo[1..]);
      MergesConditional(h, done, todo, scope);
      var br, other := x.ifpart, x.elsepart;
      if !Truthy(h, env[x.condition]) {
        br, other := other, br;
      }
      assert [] + (scope + done) == scope + done;
      CseLaidBranch(h, br, scope + done, def, pend);
      CseRun(h, call, [], br, scope + done, def, None, pend, env);
      var lost, rest := Removed(h, [], br, scope + done), Removed(h, [], other, scope + done);
      CseDefs(h, [], x.ifpart, scope + done);
      CseDefs(h, [], x.elsepart, scope + done);
      TestsOther(h, call, br, rest, env);
      TestsBoth(h, call, br, lost, rest, env);
      assert RemovedInside(h, x, scope + done) == lost + rest;
      BranchMeets(env, AllDefs(br), TestsMet(h, call, br, lost, env), Run(h, call, br, env),
                  Run(h, call, Cse(h, [], br, scope + done), env));
    }
  }

  lemma BranchMeets(env: Env, hidden: set<Variable>, met: bool, o: Outcome, p: Outcome)
    requires Meets(met, hidden, o, p) && env.Keys !! hidden
    ensures Leave(env.Keys, p) == if met then Leave(env.Keys, o) else Failed
  {
    if met {
      LeaveSame(env, hidden, o, p);
    }
  }

  lemma LeaveSame(env: Env, hidden: set<Variable>, o: Outcome, p: Outcome)
    requires SameOutside(hidden, o, p) && env.Keys !! hidden
    ensures Leave(env.Keys, o) == Leave(env.Keys, p)
  {
    if o.Running? {
      forall v | v in env
        ensures v in o.env <==> v in p.env
        ensures v in o.env ==> o.env[v] == p.env[v]
      {
        assert v in o.env - hidden <==> v in o.env;
        assert v in p.env - hidden <==> v in p.env;
      }
    }
  }

  /** The exact condition for meaning, run by run: after the pass a run has the same result, value or failure, if it
      tests no removed variable, and otherwise it fails. */
  lemma CseMeaningExact(h: Host, call: Oracle, block: seq<Node>, env: Env)
    requires Wf(block, env.Keys, None, None) && ScopeSafe(h, {}, block)
    ensures var r, s := Run(h, call, block, env), Run(h, call, Cse(h, [], block, []), env);
            if TestsMet(h, call, block, Removed(h, [], block, []), env) then SameOutside(AllDefs(block), r, s)
            else s == Failed
  {
    assert [] + CseTail(h, [], block, []) == CseTail(h, [], block, []);
    CseLaid(h, [], block, [], env.Keys, None, None);
    MergesExact(h, block);
    CseRun(h, call, [], block, [], env.Keys, None, None, env);
  }

  /** Common-subexpression elimination on a whole function body: exactly the same result, value or failure. */
  lemma CsePreservesMeaning(h: Host, call: Oracle, block: seq<Node>, env: Env)
    requires Wf(block, env.Keys, None, None) && ScopeSafe(h, {}, block)
    requires Removed(h, [], block, []) !! Tests(block)
    ensures var r, s := Run(h, call, block, env), Run(h, call, Cse(h, [], block, []), env);
            SameOutside(AllDefs(block), r, s) && (r.Returned? || s.Returned? ==> r == s)
  {
    CseMeaningExact(h, call, block, env);
    TestsElsewhere(h, call, block, Removed(h, [], block, []), env);
  }
}
