/**
  Dead-code elimination (wikifunc/wikifunc.js:138-175, 298-302, 473-482): a backward pass with one growing
  set of live variables. For a kept list the code marks the indices of its elements live, which adds no
  variable; what is evidently meant is to mark the elements. The pass is modelled with either rule.
 */
module WikiDce {
  import opened Common
  import opened WikiIR
  import opened WikiRun
  import opened WikiCse

  // What becomes live for a kept list: the indices, as written, or the elements, as intended.
  datatype ListRule = Indices | Elements

  function DceNode(rule: ListRule, n: Node, live: set<Variable>): (r: (Node, set<Variable>))
    decreases n
  {
    match n
    case Call(_, dst, args) => if dst in live then (n, live + set v | v in args) else (Empty, live)
    case Convert(_, dst, src) => if dst in live then (n, live + {src}) else (Empty, live)
    case Assign(dst, src) => if dst in live then (n, live + {src}) else (Empty, live)
    case Const(dst, _, _) => if dst in live then (n, live) else (Empty, live)
    case Declare(dst) => if dst in live then (n, live) else (Empty, live)
    case Build(dst, _, es) =>
      if dst !in live then (Empty, live) else (n, if rule.Elements? then live + set v | v in es else live)
    case Return(src) => (n, live + {src})
    case Empty => (n, live)
    case Conditional(c, a, b) =>
      var p := Dce(rule, a, live + {c});
      var q := Dce(rule, b, p.1);
      (Conditional(c, p.0, q.0), q.1)
  }

  // The block after the pass, and the live set it leaves.
  function Dce(rule: ListRule, nodes: seq<Node>, live: set<Variable>): (r: (seq<Node>, set<Variable>))
    ensures |r.0| == |nodes|
    decreases nodes
  {
    if nodes == [] then ([], live)
    else
      var p := Dce(rule, nodes[1..], live);
      var q := DceNode(rule, nodes[0], p.1);
      ([q.0] + p.0, q.1)
  }

  // ----- the pass is a filter by its final live set -----

  function KeepNode(n: Node, keep: set<Variable>): Node
    decreases n
  {
    if n.Conditional? then Conditional(n.condition, Keep(n.ifpart, keep), Keep(n.elsepart, keep))
    else if Target(n).Some? && Target(n).value !in keep then Empty
    else n
  }

  function Keep(nodes: seq<Node>, keep: set<Variable>): (r: seq<Node>)
    ensures |r| == |nodes|
    decreases nodes
  {
    if nodes == [] then [] else [KeepNode(nodes[0], keep)] + Keep(nodes[1..], keep)
  }

  lemma {:induction false} DceGrows(rule: ListRule, nodes: seq<Node>, live: set<Variable>)
    ensures live <= Dce(rule, nodes, live).1 <= live + Uses(nodes) + Tests(nodes)
    decreases nodes
  {
    if nodes != [] {
      var n, mid := nodes[0], Dce(rule, nodes[1..], live).1;
      DceGrows(rule, nodes[1..], live);
      if n.Conditional? {
        DceGrows(rule, n.ifpart, mid + {n.condition});
        DceGrows(rule, n.elsepart, Dce(rule, n.ifpart, mid + {n.condition}).1);
      }
    }
  }

  /** On well-formed code nothing becomes live after its definition has been passed, so the pass keeps
      exactly the instructions whose variable is in the final live set. */
  lemma {:induction false} DceIsKeep(rule: ListRule, nodes: seq<Node>, live: set<Variable>, keep: set<Variable>,
                                     def: set<Variable>,
                                     pend: Option<Variable>, target: Option<Variable>)
    requires Wf(nodes, def, pend, target)
    requires Dce(rule, nodes, live).1 <= keep
    requires keep - Dce(rule, nodes, live).1 !! AllDefs(nodes) + Open(pend, target)
    ensures Dce(rule, nodes, live).0 == Keep(nodes, keep)
    decreases nodes
  {
    hide Wf;
    if nodes != [] {
      var n, rest := nodes[0], nodes[1..];
      var mid, out := Dce(rule, rest, live).1, Dce(rule, nodes, live).1;
      if n.Assign? || n.Return? {
        LastIsLast(nodes, def, pend, target);
      } else {
        WfRest(nodes, def, pend, target);
        WfFirst(nodes, def, pend, target);
        if n.Conditional? {
          BranchesKeep(rule, n, mid, keep, def, pend);
        } else {
          assert out - mid <= NodeUses(n);
        }
        RestApart(nodes, def, pend, target, keep, mid, out);
        DceIsKeep(rule, rest, live, keep, NextDefs(n, def, pend), NextPend(n, pend), target);
      }
    }
  }

  lemma LastIsLast(nodes: seq<Node>, def: set<Variable>, pend: Option<Variable>, target: Option<Variable>)
    requires nodes != [] && (nodes[0].Assign? || nodes[0].Return?) && Wf(nodes, def, pend, target)
    ensures nodes == [nodes[0]] && nodes[1..] == [] && (nodes[0].Assign? ==> target == Some(nodes[0].dst))
  {
    assert nodes[1..] == [];
  }

  // What the first node reads is defined.
  lemma WfFirst(nodes: seq<Node>, def: set<Variable>, pend: Option<Variable>, target: Option<Variable>)
    requires nodes != [] && !nodes[0].Assign? && !nodes[0].Return? && Wf(nodes, def, pend, target)
    ensures !nodes[0].Conditional? ==> NodeUses(nodes[0]) <= def
    ensures nodes[0].Conditional? ==> nodes[0].condition in def
  {
    hide Unique, Apart;
  }

  // What the first node makes live is not defined after it.
  lemma RestApart(nodes: seq<Node>, def: set<Variable>, pend: Option<Variable>, target: Option<Variable>,
                  keep: set<Variable>, mid: set<Variable>, out: set<Variable>)
    requires nodes != [] && !nodes[0].Assign? && !nodes[0].Return? && Wf(nodes, def, pend, target)
    requires out - mid <= (if nodes[0].Conditional? then def + NodeDefs(nodes[0]) else def)
    requires keep - out !! AllDefs(nodes) + Open(pend, target)
    ensures keep - mid !! AllDefs(nodes[1..]) + Open(NextPend(nodes[0], pend), target)
  {
    hide Scoped;
  }

  lemma {:induction false} BranchesKeep(rule: ListRule, n: Node, live: set<Variable>, keep: set<Variable>,
                                        def: set<Variable>, pend: Option<Variable>)
    requires n.Conditional? && n.condition in def && Wf(n.ifpart, def, None, pend) && Wf(n.elsepart, def, None, pend)
    requires AllDefs(n.ifpart) !! AllDefs(n.elsepart) && DceNode(rule, n, live).1 <= keep
    requires keep - DceNode(rule, n, live).1 !! NodeDefs(n) + Open(pend, None)
    ensures DceNode(rule, n, live).0 == KeepNode(n, keep)
    ensures live <= DceNode(rule, n, live).1 <= live + def + NodeDefs(n)
    decreases n
  {
    var l0 := live + {n.condition};
    var l1 := Dce(rule, n.ifpart, l0).1;
    UsesVisible(n.ifpart, def, None, pend);
    UsesVisible(n.elsepart, def, None, pend);
    DceGrows(rule, n.ifpart, l0);
    DceGrows(rule, n.elsepart, l1);
    DceIsKeep(rule, n.ifpart, l0, keep, def, None, pend);
    DceIsKeep(rule, n.elsepart, l1, keep, def, None, pend);
  }

  // ----- reads of the code that is left -----

  function NodeListReads(n: Node): set<Variable>
    decreases n
  {
    if n.Conditional? then ListReads(n.ifpart) + ListReads(n.elsepart)
    else if n.Build? then Reads(n) else {}
  }

  // The variables read by list-building instructions.
  function ListReads(nodes: seq<Node>): set<Variable>
    decreases nodes
  {
    if nodes == [] then {} else NodeListReads(nodes[0]) + ListReads(nodes[1..])
  }

  // The reads of lists that do not make anything live.
  function Unmarked(rule: ListRule, nodes: seq<Node>): set<Variable> {
    if rule.Indices? then ListReads(nodes) else {}
  }

  // Everything that is read by what the pass keeps is live, except list elements that are not marked.
  lemma {:induction false} DceReads(rule: ListRule, nodes: seq<Node>, live: set<Variable>)
    ensures Uses(Dce(rule, nodes, live).0) + Tests(Dce(rule, nodes, live).0) <= Dce(rule, nodes, live).1 +
            Unmarked(rule, Dce(rule, nodes, live).0)
    decreases nodes
  {
    if nodes != [] {
      var n, mid := nodes[0], Dce(rule, nodes[1..], live);
      DceReads(rule, nodes[1..], live);
      var q := DceNode(rule, n, mid.1);
      var r := Dce(rule, nodes, live).0;
      assert r[0] == q.0 && r[1..] == mid.0;
      if n.Conditional? {
        BranchesRead(rule, n, mid.1);
      }
      assert NodeUses(q.0) + NodeTests(q.0) <= q.1 + if rule.Indices? then NodeListReads(q.0) else {};
      assert mid.1 <= q.1;
    }
  }

  lemma {:induction false} BranchesRead(rule: ListRule, n: Node, live: set<Variable>)
    requires n.Conditional?
    ensures var q := DceNode(rule, n, live);
            NodeUses(q.0) + NodeTests(q.0) <= q.1 + (if rule.Indices? then NodeListReads(q.0) else {}) && live <= q.1
    decreases n
  {
    var l0 := live + {n.condition};
    DceReads(rule, n.ifpart, l0);
    DceGrows(rule, n.ifpart, l0);
    DceReads(rule, n.elsepart, Dce(rule, n.ifpart, l0).1);
    DceGrows(rule, n.elsepart, Dce(rule, n.ifpart, l0).1);
  }

  // ----- what is needed, without running the pass -----

  /** A set of variables that has all tested and returned variables and, with the target of an instruction, what
      the instruction reads; for lists only under the rule that marks elements. */
  ghost predicate Demands(rule: ListRule, nodes: seq<Node>, need: set<Variable>)
    decreases nodes
  {
    nodes == [] ||
    (&& (if nodes[0].Conditional? then
           nodes[0].condition in need && Demands(rule, nodes[0].ifpart, need) && Demands(rule, nodes[0].elsepart, need)
         else if nodes[0].Return? then nodes[0].src in need
         else Wanted(nodes[0], need) && !(nodes[0].Build? && rule.Indices?) ==> Reads(nodes[0]) <= need)
     && Demands(rule, nodes[1..], need))
  }

  predicate Wanted(n: Node, need: set<Variable>) {
    Target(n).Some? && Target(n).value in need
  }

  // The least such set that contains some variables that are live anyway.
  ghost predicate LeastDemand(rule: ListRule, nodes: seq<Node>, live: set<Variable>, need: set<Variable>) {
    && live <= need && Demands(rule, nodes, need)
    && forall other :: live <= other && Demands(rule, nodes, other) ==> need <= other
  }

  // Every list that is needed has only elements that are needed or come from outside.
  ghost predicate ListsServed(nodes: seq<Node>, need: set<Variable>, def: set<Variable>)
    decreases nodes
  {
    nodes == [] ||
    (&& (match nodes[0]
         case Conditional(_, a, b) => ListsServed(a, need, def) && ListsServed(b, need, def)
         case Build(dst, _, _) => dst in need ==> Reads(nodes[0]) <= need + def
         case _ => true)
     && ListsServed(nodes[1..], need, def))
  }

  // Nothing becomes live that is not demanded.
  lemma {:induction false} DceLeast(rule: ListRule, nodes: seq<Node>, live: set<Variable>, other: set<Variable>)
    requires live <= other && Demands(rule, nodes, other)
    ensures Dce(rule, nodes, live).1 <= other
    decreases nodes
  {
    if nodes != [] {
      var n, mid := nodes[0], Dce(rule, nodes[1..], live).1;
      DceLeast(rule, nodes[1..], live, other);
      if n.Conditional? {
        DceLeast(rule, n.ifpart, mid + {n.condition}, other);
        DceLeast(rule, n.elsepart, Dce(rule, n.ifpart, mid + {n.condition}).1, other);
      }
    }
  }

  // What the kept instructions read is what is demanded.
  lemma {:induction false} KeptDemands(rule: ListRule, nodes: seq<Node>, keep: set<Variable>)
    requires Demanded(rule, Keep(nodes, keep)) <= keep
    ensures Demands(rule, nodes, keep)
    decreases nodes
  {
    if nodes != [] {
      var n := nodes[0];
      assert Keep(nodes, keep)[0] == KeepNode(n, keep) && Keep(nodes, keep)[1..] == Keep(nodes[1..], keep);
      KeptDemands(rule, nodes[1..], keep);
      if n.Conditional? {
        KeptDemands(rule, n.ifpart, keep);
        KeptDemands(rule, n.elsepart, keep);
      }
    }
  }

  // The reads of some code that make variables live.
  function NodeDemanded(rule: ListRule, n: Node): set<Variable>
    decreases n
  {
    if n.Conditional? then {n.condition} + Demanded(rule, n.ifpart) + Demanded(rule, n.elsepart)
    else if n.Build? && rule.Indices? then {} else Reads(n)
  }

  function Demanded(rule: ListRule, nodes: seq<Node>): set<Variable>
    decreases nodes
  {
    if nodes == [] then {} else NodeDemanded(rule, nodes[0]) + Demanded(rule, nodes[1..])
  }

  lemma {:induction false} DceDemanded(rule: ListRule, nodes: seq<Node>, live: set<Variable>)
    ensures Demanded(rule, Dce(rule, nodes, live).0) <= Dce(rule, nodes, live).1
    decreases nodes
  {
    if nodes != [] {
      var n, mid := nodes[0], Dce(rule, nodes[1..], live);
      DceDemanded(rule, nodes[1..], live);
      var q := DceNode(rule, n, mid.1);
      var r := Dce(rule, nodes, live).0;
      assert r[0] == q.0 && r[1..] == mid.0;
      if n.Conditional? {
        var l0 := mid.1 + {n.condition};
        DceDemanded(rule, n.ifpart, l0);
        DceGrows(rule, n.ifpart, l0);
        DceDemanded(rule, n.elsepart, Dce(rule, n.ifpart, l0).1);
        DceGrows(rule, n.elsepart, Dce(rule, n.ifpart, l0).1);
      }
      assert NodeDemanded(rule, q.0) <= q.1 && mid.1 <= q.1;
    }
  }

  /** The live set that the backward pass ends with is the least set with the demands of the block: one pass is
      enough on well-formed code. */
  lemma DceIsLeastDemand(rule: ListRule, block: seq<Node>, live: set<Variable>, def: set<Variable>)
    requires Wf(block, def, None, None)
    ensures LeastDemand(rule, block, live, Dce(rule, block, live).1)
  {
    var need := Dce(rule, block, live).1;
    DceGrows(rule, block, live);
    DceIsKeep(rule, block, live, need, def, None, None);
    DceDemanded(rule, block, live);
    KeptDemands(rule, block, need);
    forall other | live <= other && Demands(rule, block, other) ensures need <= other {
      DceLeast(rule, block, live, other);
    }
  }

  lemma {:induction false} ServedReads(nodes: seq<Node>, need: set<Variable>, def: set<Variable>)
    requires def !! AllDefs(nodes)
    ensures ListsServed(nodes, need, def) <==> ListReads(Keep(nodes, need + def)) <= need + def
    decreases nodes
  {
    if nodes != [] {
      var n, keep := nodes[0], need + def;
      assert Keep(nodes, keep)[0] == KeepNode(n, keep) && Keep(nodes, keep)[1..] == Keep(nodes[1..], keep);
      ServedReads(nodes[1..], need, def);
      if n.Conditional? {
        ServedReads(n.ifpart, need, def);
        ServedReads(n.elsepart, need, def);
      }
    }
  }

  // ----- meaning -----

  ghost predicate Agree(e: Env, f: Env, keep: set<Variable>) {
    f.Keys <= keep && forall v :: v in e && v in keep ==> v in f && f[v] == e[v]
  }

  // The lists that a run builds, as far as they are kept, have only elements that are kept.
  ghost predicate StepServes(h: Host, call: Oracle, n: Node, keep: set<Variable>, env: Env)
    decreases n
  {
    match n
    case Build(dst, _, _) => dst in keep ==> Reads(n) <= keep
    case Conditional(c, a, b) =>
      c in env ==> if Truthy(h, env[c]) then RunServes(h, call, a, keep, env) else RunServes(h, call, b, keep, env)
    case _ => true
  }

  ghost predicate RunServes(h: Host, call: Oracle, nodes: seq<Node>, keep: set<Variable>, env: Env)
    decreases nodes
  {
    nodes == [] ||
    (&& StepServes(h, call, nodes[0], keep, env)
     && var o := Step(h, call, nodes[0], env); o.Running? ==> RunServes(h, call, nodes[1..], keep, o.env))
  }

  // The filtered step or run does the same on the kept variables.
  ghost predicate Follows(o: Outcome, p: Outcome, keep: set<Variable>) {
    match o
    case Failed => true
    case Returned(v) => p == o
    case Running(e) => p.Running? && Agree(e, p.env, keep)
  }

  /** A block and the same block after the pass run in step: after every instruction, in branches too, the kept
      variables have the same values. */
  ghost predicate InStep(h: Host, call: Oracle, a: seq<Node>, b: seq<Node>, keep: set<Variable>, e: Env, f: Env)
    requires |a| == |b|
    decreases a
  {
    a != [] ==>
    && (a[0].Conditional? && a[0].condition in e ==> b[0].Conditional? && BranchInStep(h, call, a[0], b[0], keep, e, f))
    && var o, p := Step(h, call, a[0], e), Step(h, call, b[0], f);
       Follows(o, p, keep) && (o.Running? ==> InStep(h, call, a[1..], b[1..], keep, o.env, p.env))
  }

  ghost predicate BranchInStep(h: Host, call: Oracle, m: Node, n: Node, keep: set<Variable>, e: Env, f: Env)
    requires m.Conditional? && n.Conditional? && m.condition in e
    decreases m
  {
    if Truthy(h, e[m.condition]) then |m.ifpart| == |n.ifpart| && InStep(h, call, m.ifpart, n.ifpart, keep, e, f)
    else |m.elsepart| == |n.elsepart| && InStep(h, call, m.elsepart, n.elsepart, keep, e, f)
  }

  lemma {:induction false} RunGrows(h: Host, call: Oracle, nodes: seq<Node>, env: Env)
    ensures var o := Run(h, call, nodes, env); o.Running? ==> env.Keys <= o.env.Keys
    decreases nodes
  {
    if nodes != [] {
      if nodes[0].Conditional? {
        RunGrows(h, call, nodes[0].ifpart, env);
        RunGrows(h, call, nodes[0].elsepart, env);
      }
      var o := Step(h, call, nodes[0], env);
      if o.Running? {
        RunGrows(h, call, nodes[1..], o.env);
      }
    }
  }

  lemma AgreeValues(vs: seq<Variable>, e: Env, f: Env, keep: set<Variable>)
    requires Agree(e, f, keep) && Bound(vs, e) && (forall v :: v in vs ==> v in keep)
    ensures Bound(vs, f) && Values(vs, f) == Values(vs, e)
  {
  }

  // One instruction that is not a conditional.
  lemma PlainStep(h: Host, call: Oracle, n: Node, keep: set<Variable>, e: Env, f: Env)
    requires !n.Conditional? && NodeDemanded(Indices, KeepNode(n, keep)) <= keep && Agree(e, f, keep)
    requires Reads(n) <= e.Keys
    ensures StepServes(h, call, n, keep, e) <==> Follows(Step(h, call, n, e), Step(h, call, KeepNode(n, keep), f), keep)
  {
    if n.Call? && n.dst in keep {
      assert forall v :: v in n.args ==> v in Reads(n);
      AgreeValues(n.args, e, f, keep);
    } else if n.Build? && n.dst in keep {
      BuildStep(h, call, n, keep, e, f);
    }
  }

  lemma BuildStep(h: Host, call: Oracle, n: Node, keep: set<Variable>, e: Env, f: Env)
    requires n.Build? && n.dst in keep && Agree(e, f, keep) && Reads(n) <= e.Keys
    ensures Reads(n) <= keep <==> Follows(Step(h, call, n, e), Step(h, call, n, f), keep)
  {
    assert forall v :: v in n.elements ==> v in Reads(n);
    ListedExact(n.elements, e, Values(n.elements, e));
    if Reads(n) <= keep {
      AgreeValues(n.elements, e, f, keep);
      ListedExact(n.elements, f, Values(n.elements, e));
    } else {
      var v :| v in n.elements && v !in keep;
      assert v !in f && Bound(n.elements, e);
      assert forall i :: 0 <= i < |n.elements| && n.elements[i] in f && n.elements[i] in keep ==>
                         f[n.elements[i]] == e[n.elements[i]];
      ListedExact(n.elements, f, Values(n.elements, e));
    }
  }

  lemma {:induction false} BranchesFollow(h: Host, call: Oracle, n: Node, keep: set<Variable>, def: set<Variable>,
                                          pend: Option<Variable>, e: Env, f: Env)
    requires n.Conditional? && n.condition in e && Wf(n.ifpart, def, None, pend) && Wf(n.elsepart, def, None, pend)
    requires Ready(n.ifpart, def, None, pend, e) && Ready(n.elsepart, def, None, pend, e)
    requires NodeDemanded(Indices, KeepNode(n, keep)) <= keep && Agree(e, f, keep)
    ensures StepServes(h, call, n, keep, e) <==> BranchInStep(h, call, n, KeepNode(n, keep), keep, e, f)
    ensures StepServes(h, call, n, keep, e) ==> Follows(Step(h, call, n, e), Step(h, call, KeepNode(n, keep), f), keep)
    decreases n, 0
  {
    var br := if Truthy(h, e[n.condition]) then n.ifpart else n.elsepart;
    KeepRun(h, call, br, keep, def, None, pend, e, f);
    RunGrows(h, call, Keep(br, keep), f);
  }

  // In any well-formed code the two versions run in step exactly when the lists are served.
  lemma {:induction false} KeepRun(h: Host, call: Oracle, nodes: seq<Node>, keep: set<Variable>, def: set<Variable>,
                                   pend: Option<Variable>, target: Option<Variable>, e: Env, f: Env)
    requires Wf(nodes, def, pend, target) && Ready(nodes, def, pend, target, e)
    requires Demanded(Indices, Keep(nodes, keep)) <= keep && Agree(e, f, keep)
    ensures RunServes(h, call, nodes, keep, e) <==> InStep(h, call, nodes, Keep(nodes, keep), keep, e, f)
    ensures RunServes(h, call, nodes, keep, e) ==>
            Follows(Run(h, call, nodes, e), Run(h, call, Keep(nodes, keep), f), keep)
    decreases nodes, 1
  {
    hide Wf, Ready, Agree;
    if nodes != [] {
      var n, rest := nodes[0], nodes[1..];
      assert Keep(nodes, keep)[0] == KeepNode(n, keep) && Keep(nodes, keep)[1..] == Keep(rest, keep);
      KeepFirst(h, call, nodes, keep, def, pend, target, e, f);
      var o, p := Step(h, call, n, e), Step(h, call, KeepNode(n, keep), f);
      if o.Running? && p.Running? {
        WfShaped(nodes, def, pend, target);
        StepExtends(h, call, nodes, def, pend, target, e);
        if n.Assign? {
          LastIsLast(nodes, def, pend, target);
        } else {
          WfRest(nodes, def, pend, target);
          if Agree(o.env, p.env, keep) {
            KeepRun(h, call, rest, keep, NextDefs(n, def, pend), NextPend(n, pend), target, o.env, p.env);
          }
        }
      }
    }
  }

  lemma {:induction false} KeepFirst(h: Host, call: Oracle, nodes: seq<Node>, keep: set<Variable>, def: set<Variable>,
                                     pend: Option<Variable>, target: Option<Variable>, e: Env, f: Env)
    requires nodes != [] && Wf(nodes, def, pend, target) && Ready(nodes, def, pend, target, e)
    requires NodeDemanded(Indices, KeepNode(nodes[0], keep)) <= keep && Agree(e, f, keep)
    ensures var n, m := nodes[0], KeepNode(nodes[0], keep);
            && (StepServes(h, call, n, keep, e) <==>
                Follows(Step(h, call, n, e), Step(h, call, m, f), keep)
                && (n.Conditional? ==> BranchInStep(h, call, n, m, keep, e, f)))
            && (n.Conditional? ==> n.condition in e)
    decreases nodes[0], 1
  {
    var n := nodes[0];
    if n.Conditional? {
      WfRest(nodes, def, pend, target);
      BranchesFollow(h, call, n, keep, def, pend, e, f);
    } else {
      PlainStep(h, call, n, keep, e, f);
    }
  }

  lemma {:induction false} DemandedLess(rule: ListRule, nodes: seq<Node>)
    ensures Demanded(Indices, nodes) <= Demanded(rule, nodes)
    decreases nodes
  {
    if nodes != [] {
      if nodes[0].Conditional? {
        DemandedLess(rule, nodes[0].ifpart);
        DemandedLess(rule, nodes[0].elsepart);
      }
      DemandedLess(rule, nodes[1..]);
    }
  }

  /** The exact condition for meaning, run by run: the block after the pass runs in step with the block before it,
      with the same values of all variables that are needed or come from outside, if and only if every kept list
      that the run builds has only such elements; the first list that has another comes out different. In step,
      a returned value is the same. */
  lemma DceMeaningExact(rule: ListRule, h: Host, call: Oracle, block: seq<Node>, live: set<Variable>, env: Env,
                        need: set<Variable>)
    requires Wf(block, env.Keys, None, None) && LeastDemand(rule, block, live, need)
    ensures var code, keep := Dce(rule, block, live).0, need + env.Keys;
            && (InStep(h, call, block, code, keep, env, env) <==> RunServes(h, call, block, keep, env))
            && (RunServes(h, call, block, keep, env) && Run(h, call, block, env).Returned? ==>
                  Run(h, call, code, env) == Run(h, call, block, env))
  {
    DceIsLeastDemand(rule, block, live, env.Keys);
    assert need == Dce(rule, block, live).1;
    var keep := need + env.Keys;
    DceIsKeep(rule, block, live, keep, env.Keys, None, None);
    DceDemanded(rule, block, live);
    DemandedLess(rule, Keep(block, keep));
    KeepRun(h, call, block, keep, env.Keys, None, None, env, env);
  }

  // When all lists are served, those of every run are.
  lemma {:induction false} ServedRuns(h: Host, call: Oracle, nodes: seq<Node>, need: set<Variable>, def: set<Variable>,
                                      env: Env)
    requires ListsServed(nodes, need, def) && def !! AllDefs(nodes)
    ensures RunServes(h, call, nodes, need + def, env)
    decreases nodes
  {
    if nodes != [] {
      var n := nodes[0];
      if n.Conditional? {
        ServedRuns(h, call, n.ifpart, need, def, env);
        ServedRuns(h, call, n.elsepart, need, def, env);
      }
      var o := Step(h, call, n, env);
      if o.Running? {
        ServedRuns(h, call, nodes[1..], need, def, o.env);
      }
    }
  }

  // With elements marked live, the elements of needed lists are needed.
  lemma {:induction false} ElementsServed(nodes: seq<Node>, need: set<Variable>, def: set<Variable>)
    requires Demands(Elements, nodes, need)
    ensures ListsServed(nodes, need, def)
    decreases nodes
  {
    if nodes != [] {
      if nodes[0].Conditional? {
        ElementsServed(nodes[0].ifpart, need, def);
        ElementsServed(nodes[0].elsepart, need, def);
      }
      ElementsServed(nodes[1..], need, def);
    }
  }

  // What a caller can check before the pass: with the rule as written, that needed lists have needed elements.
  ghost predicate Eligible(rule: ListRule, block: seq<Node>, live: set<Variable>, def: set<Variable>) {
    rule.Elements? || exists need :: LeastDemand(rule, block, live, need) && ListsServed(block, need, def)
  }

  /** Dead-code elimination never changes a returned value, whatever the live set it starts with: always when it
      marks the elements of lists, and with the rule as written when needed lists have needed elements. */
  lemma DcePreservesMeaning(rule: ListRule, h: Host, call: Oracle, block: seq<Node>, live: set<Variable>, env: Env)
    requires Wf(block, env.Keys, None, None) && Eligible(rule, block, live, env.Keys)
    ensures Run(h, call, block, env).Returned? ==>
              Run(h, call, Dce(rule, block, live).0, env) == Run(h, call, block, env)
  {
    if Run(h, call, block, env).Returned? {
      var need := Dce(rule, block, live).1;
      DceIsLeastDemand(rule, block, live, env.Keys);
      if rule.Elements? {
        ElementsServed(block, need, env.Keys);
      } else {
        var other :| LeastDemand(rule, block, live, other) && ListsServed(block, other, env.Keys);
        assert other == need;
      }
      ServedRuns(h, call, block, need, env.Keys, env);
      DceMeaningExact(rule, h, call, block, live, env, need);
    }
  }

  // ----- scoping -----

  // Every variable is read or assigned only where it is visible; the shape of `Wf` is not required.
  ghost predicate Visible(nodes: seq<Node>, seen: set<Variable>)
    decreases nodes
  {
    nodes == [] ||
    (&& (if nodes[0].Conditional? then
           nodes[0].condition in seen && Visible(nodes[0].ifpart, seen) && Visible(nodes[0].elsepart, seen)
         else
           Reads(nodes[0]) <= seen && (nodes[0].Assign? ==> nodes[0].dst in seen))
     && Visible(nodes[1..], if nodes[0].Conditional? then seen else seen + NodeDefs(nodes[0])))
  }

  lemma {:induction false} VisibleReads(nodes: seq<Node>, seen: set<Variable>)
    requires Visible(nodes, seen)
    ensures Uses(nodes) + Tests(nodes) + ListReads(nodes) <= seen + AllDefs(nodes)
    decreases nodes
  {
    if nodes != [] {
      var n := nodes[0];
      if n.Conditional? {
        VisibleReads(n.ifpart, seen);
        VisibleReads(n.elsepart, seen);
      }
      VisibleReads(nodes[1..], if n.Conditional? then seen else seen + NodeDefs(n));
    }
  }

  lemma {:induction false} KeepDefs(nodes: seq<Node>, keep: set<Variable>)
    ensures AllDefs(Keep(nodes, keep)) <= keep
    decreases nodes
  {
    if nodes != [] {
      if nodes[0].Conditional? {
        KeepDefs(nodes[0].ifpart, keep);
        KeepDefs(nodes[0].elsepart, keep);
      }
      KeepDefs(nodes[1..], keep);
      assert Keep(nodes, keep)[1..] == Keep(nodes[1..], keep);
    }
  }

  lemma {:induction false} KeepVisible(nodes: seq<Node>, keep: set<Variable>, def: set<Variable>,
                                       pend: Option<Variable>, target: Option<Variable>, seen: set<Variable>)
    requires Wf(nodes, def, pend, target)
    requires Uses(Keep(nodes, keep)) + Tests(Keep(nodes, keep)) <= keep
    requires (def + Open(pend, target)) * keep <= seen
    ensures Visible(Keep(nodes, keep), seen)
    decreases nodes
  {
    if nodes != [] {
      var n, rest := nodes[0], nodes[1..];
      var m := KeepNode(n, keep);
      assert Keep(nodes, keep)[0] == m && Keep(nodes, keep)[1..] == Keep(rest, keep);
      if n.Assign? || n.Return? {
        assert Keep(rest, keep) == [];
      } else {
        WfRest(nodes, def, pend, target);
        if n.Conditional? {
          KeepVisible(n.ifpart, keep, def, None, pend, seen);
          KeepVisible(n.elsepart, keep, def, None, pend, seen);
        }
        KeepVisible(rest, keep, NextDefs(n, def, pend), NextPend(n, pend), target,
                    if n.Conditional? then seen else seen + NodeDefs(m));
      }
    }
  }

  /** The exact condition for scoping: after the pass every variable is read only where it is visible if and
      only if it marks the elements of lists or needed lists have needed elements. */
  lemma DceScopedExact(rule: ListRule, block: seq<Node>, live: set<Variable>, def: set<Variable>)
    requires Wf(block, def, None, None)
    ensures Visible(Dce(rule, block, live).0, def) <==> Eligible(rule, block, live, def)
  {
    var r, need := Dce(rule, block, live).0, Dce(rule, block, live).1;
    var keep := need + def;
    DceIsLeastDemand(rule, block, live, def);
    DceIsKeep(rule, block, live, keep, def, None, None);
    DceReads(rule, block, live);
    KeepDefs(block, keep);
    ServedReads(block, need, def);
    if Visible(r, def) {
      VisibleReads(r, def);
    }
    if Eligible(rule, block, live, def) {
      if rule.Indices? {
        var other :| LeastDemand(rule, block, live, other) && ListsServed(block, other, def);
        assert other == need;
      }
      KeepVisible(block, keep, def, None, None, def);
    }
  }
}
