/** Laws of running intermediate code that all passes rely on. */
module WikiRun {
  import opened Common
  import opened WikiIR

  lemma {:induction false} RunAppend(h: Host, call: Oracle, a: seq<Node>, b: seq<Node>, env: Env)
    ensures Run(h, call, a + b, env) ==
            var o := Run(h, call, a, env); if o.Running? then Run(h, call, b, o.env) else o
  {
    if a == [] {
      assert a + b == b;
    } else {
      assert (a + b)[0] == a[0] && (a + b)[1..] == a[1..] + b;
      var o := Step(h, call, a[0], env);
      if o.Running? {
        RunAppend(h, call, a[1..], b, o.env);
      }
    }
  }

  lemma {:induction false} RunOne(h: Host, call: Oracle, n: Node, env: Env)
    ensures Run(h, call, [n], env) == Step(h, call, n, env)
  {
    assert [n][1..] == [];
  }

  lemma RunCons(h: Host, call: Oracle, n: Node, rest: seq<Node>, env: Env)
    ensures Run(h, call, [n] + rest, env) ==
            var o := Step(h, call, n, env); if o.Running? then Run(h, call, rest, o.env) else o
  {
    assert ([n] + rest)[0] == n && ([n] + rest)[1..] == rest;
  }

  lemma {:induction false} AllDefsAppend(a: seq<Node>, b: seq<Node>)
    ensures AllDefs(a + b) == AllDefs(a) + AllDefs(b)
  {
    if a == [] {
      assert a + b == b;
    } else {
      assert (a + b)[0] == a[0] && (a + b)[1..] == a[1..] + b;
      AllDefsAppend(a[1..], b);
    }
  }

  lemma {:induction false} TestsAppend(a: seq<Node>, b: seq<Node>)
    ensures Tests(a + b) == Tests(a) + Tests(b)
  {
    if a == [] {
      assert a + b == b;
    } else {
      assert (a + b)[0] == a[0] && (a + b)[1..] == a[1..] + b;
      TestsAppend(a[1..], b);
    }
  }

  // An environment in which code that may read `def` and assign the open variables can start.
  ghost predicate Ready(nodes: seq<Node>, def: set<Variable>, pend: Option<Variable>,
                        target: Option<Variable>, env: Env) {
    def + Open(pend, target) <= env.Keys && env.Keys !! AllDefs(nodes)
  }

  // What one run leaves behind: old variables keep their values, except the open ones.
  ghost predicate Extends(before: Env, after: Env, open: set<Variable>, added: set<Variable>) {
    && before.Keys <= after.Keys <= before.Keys + added
    && forall v :: v in before && v !in open ==> after[v] == before[v]
  }

  lemma {:induction false} StepExtends(h: Host, call: Oracle, nodes: seq<Node>, def: set<Variable>,
                                       pend: Option<Variable>, target: Option<Variable>, env: Env)
    requires nodes != [] && Shaped(nodes, def, pend, target) && Ready(nodes, def, pend, target, env)
    requires Step(h, call, nodes[0], env).Running?
    ensures var n, e := nodes[0], Step(h, call, nodes[0], env).env;
            && Extends(env, e, Open(pend, target), NodeDefs(n))
            && (!n.Assign? ==>
                  && Ready(nodes[1..], NextDefs(n, def, pend), NextPend(n, pend), target, e)
                  && forall v :: v in env && v !in Open(pend, None) ==> e[v] == env[v])
    decreases nodes, 0
  {
    var n := nodes[0];
    if !n.Assign? && !n.Return? {
      ShapedRest(nodes, def, pend, target);
    }
    if n.Conditional? {
      var br := if Truthy(h, env[n.condition]) then n.ifpart else n.elsepart;
      RunExtends(h, call, br, def, None, pend, env);
    }
  }

  lemma {:induction false} RunExtends(h: Host, call: Oracle, nodes: seq<Node>, def: set<Variable>,
                                      pend: Option<Variable>, target: Option<Variable>, env: Env)
    requires Shaped(nodes, def, pend, target) && Ready(nodes, def, pend, target, env)
    requires Run(h, call, nodes, env).Running?
    ensures Extends(env, Run(h, call, nodes, env).env, Open(pend, target), AllDefs(nodes))
    ensures DefsAfter(nodes, def, pend) <= Run(h, call, nodes, env).env.Keys
    decreases nodes, 1
  {
    if nodes != [] {
      StepExtends(h, call, nodes, def, pend, target, env);
      var n, e := nodes[0], Step(h, call, nodes[0], env).env;
      if !n.Assign? {
        ShapedRest(nodes, def, pend, target);
        RunExtends(h, call, nodes[1..], NextDefs(n, def, pend), NextPend(n, pend), target, e);
      }
    }
  }

  // ----- a better oracle never spoils a run -----

  ghost predicate Refines(a: Oracle, b: Oracle) {
    forall f: Zid, vs: seq<Value> :: a(f, vs).Some? ==> b(f, vs) == a(f, vs)
  }

  lemma {:induction false} StepMonotone(h: Host, a: Oracle, b: Oracle, n: Node, env: Env)
    requires Refines(a, b) && Step(h, a, n, env) != Failed
    ensures Step(h, b, n, env) == Step(h, a, n, env)
    decreases n
  {
    if n.Conditional? {
      var br := if Truthy(h, env[n.condition]) then n.ifpart else n.elsepart;
      RunMonotone(h, a, b, br, env);
    }
  }

  lemma {:induction false} RunMonotone(h: Host, a: Oracle, b: Oracle, nodes: seq<Node>, env: Env)
    requires Refines(a, b) && Run(h, a, nodes, env) != Failed
    ensures Run(h, b, nodes, env) == Run(h, a, nodes, env)
    decreases nodes
  {
    if nodes != [] {
      StepMonotone(h, a, b, nodes[0], env);
      var o := Step(h, a, nodes[0], env);
      if o.Running? {
        RunMonotone(h, a, b, nodes[1..], o.env);
      }
    }
  }

  // ----- facts: equations that executed instructions leave true -----

  ghost predicate Holds(h: Host, call: Oracle, n: Node, env: Env) {
    match n
    case Call(f, dst, args) => Bound(args, env) && dst in env && call(f, Values(args, env)) == Some(env[dst])
    case Convert(c, dst, src) => src in env && dst in env && h.convert(c, env[src]) == Some(env[dst])
    case Const(dst, c, _) => dst in env && env[dst] == ConstantValue(h, c)
    case Build(dst, typ, es) => dst in env && env[dst] == ListValue(typ, Listed(es, env))
    case _ => true
  }

  ghost predicate Facts(h: Host, call: Oracle, nodes: seq<Node>, env: Env) {
    forall n :: n in nodes ==> Holds(h, call, n, env)
  }

  // The variables an instruction's equation speaks about.
  function Mentions(n: Node): set<Variable> {
    if Pure(n) then Reads(n) + NodeDefs(n) else {}
  }

  lemma HoldsStays(h: Host, call: Oracle, n: Node, before: Env, after: Env)
    requires Holds(h, call, n, before) && Mentions(n) <= before.Keys <= after.Keys
    requires forall v :: v in Mentions(n) ==> after[v] == before[v]
    ensures Holds(h, call, n, after)
  {
    match n
    case Call(f, dst, args) =>
      assert forall v :: v in args ==> v in Mentions(n);
      assert Values(args, before) == Values(args, after);
    case Build(dst, typ, es) =>
      assert forall v :: v in es ==> v in Mentions(n);
      assert Listed(es, before) == Listed(es, after);
    case _ =>
  }

  lemma FactsStay(h: Host, call: Oracle, nodes: seq<Node>, before: Env, after: Env,
                  open: set<Variable>, added: set<Variable>)
    requires Facts(h, call, nodes, before) && Extends(before, after, open, added)
    requires forall n :: n in nodes ==> Mentions(n) <= before.Keys - open
    ensures Facts(h, call, nodes, after)
  {
    forall n | n in nodes
      ensures Holds(h, call, n, after)
    {
      HoldsStays(h, call, n, before, after);
    }
  }

  // An instruction that has just run satisfies its own equation.
  lemma StepHolds(h: Host, call: Oracle, n: Node, env: Env)
    requires Step(h, call, n, env).Running? && NodeDefs(n) !! Reads(n) + env.Keys
    ensures Holds(h, call, n, Step(h, call, n, env).env)
  {
    var e := Step(h, call, n, env).env;
    match n
    case Call(f, dst, args) =>
      assert forall v :: v in args ==> v in Reads(n);
      assert Values(args, env) == Values(args, e);
    case Build(dst, typ, es) =>
      assert forall v :: v in es ==> v in Reads(n);
      assert Listed(es, env) == Listed(es, e);
    case _ =>
  }
}
