/**
  Constant conversion (wikifunc/wikifunc.js:427-439): converting a natural number constant to its native
  form is done at compile time by parseInt.
 */
module WikiConst {
  import opened Common
  import opened WikiIR
  import opened WikiRun
  import opened WikiCse

  // The variables that composition has marked with the constant they hold.
  type Marks = map<Variable, Constant>

  const NUMBER_CONVERTER := Z(13519)

  function ConvertNode(h: Host, marks: Marks, n: Node): Node
    decreases n
  {
    match n
    case Conditional(c, a, b) => Conditional(c, ConvertConstants(h, marks, a), ConvertConstants(h, marks, b))
    case Convert(conv, dst, src) =>
      if src in marks && marks[src].Natural? && marks[src].digits != "" && h.converterName(conv) == NUMBER_CONVERTER
      then Const(dst, Number(marks[src].digits), Some(conv))
      else n
    case _ => n
  }

  function ConvertConstants(h: Host, marks: Marks, nodes: seq<Node>): (r: seq<Node>)
    ensures |r| == |nodes|
    decreases nodes
  {
    if nodes == [] then [] else [ConvertNode(h, marks, nodes[0])] + ConvertConstants(h, marks, nodes[1..])
  }

  // A marked variable is only ever created by the constant instruction of its mark.
  ghost predicate Marked(nodes: seq<Node>, marks: Marks)
    decreases nodes
  {
    nodes == [] || (NodeMarked(nodes[0], marks) && Marked(nodes[1..], marks))
  }

  ghost predicate NodeMarked(n: Node, marks: Marks)
    decreases n
  {
    match n
    case Const(dst, c, _) => dst in marks ==> c == marks[dst]
    case Assign(dst, _) => dst !in marks
    case Conditional(_, a, b) => Marked(a, marks) && Marked(b, marks)
    case _ => NodeDefs(n) !! marks.Keys
  }

  ghost predicate MarksHold(h: Host, env: Env, marks: Marks) {
    forall v :: v in marks && v in env ==> env[v] == ConstantValue(h, marks[v])
  }

  // The number converter agrees with parseInt on the constants that some variables hold.
  ghost predicate NumbersAgree(h: Host, marks: Marks, vars: set<Variable>) {
    forall conv: Conv, v :: v in vars && v in marks && marks[v].Natural?
                            && h.converterName(conv) == NUMBER_CONVERTER ==>
      h.convert(conv, NaturalValue(marks[v].digits)) == Some(h.parseInt(marks[v].digits))
  }

  lemma {:induction false} ConvertDefs(h: Host, marks: Marks, nodes: seq<Node>)
    ensures AllDefs(ConvertConstants(h, marks, nodes)) == AllDefs(nodes)
    decreases nodes
  {
    if nodes != [] {
      if nodes[0].Conditional? {
        ConvertDefs(h, marks, nodes[0].ifpart);
        ConvertDefs(h, marks, nodes[0].elsepart);
      }
      ConvertDefs(h, marks, nodes[1..]);
      assert NodeDefs(ConvertNode(h, marks, nodes[0])) == NodeDefs(nodes[0]);
      assert ConvertConstants(h, marks, nodes)[1..] == ConvertConstants(h, marks, nodes[1..]);
    }
  }

  lemma {:induction false} ConvertScoped(h: Host, marks: Marks, nodes: seq<Node>, def: set<Variable>,
                                         pend: Option<Variable>, target: Option<Variable>)
    requires Scoped(nodes, def, pend, target)
    ensures Scoped(ConvertConstants(h, marks, nodes), def, pend, target)
    decreases nodes
  {
    if nodes != [] {
      var n, rest := nodes[0], nodes[1..];
      assert ConvertConstants(h, marks, nodes)[1..] == ConvertConstants(h, marks, rest);
      if n.Assign? || n.Return? {
        assert ConvertConstants(h, marks, rest) == [];
      } else {
        if n.Conditional? {
          ConvertScoped(h, marks, n.ifpart, def, None, pend);
          ConvertScoped(h, marks, n.elsepart, def, None, pend);
        }
        ConvertScoped(h, marks, rest, NextDefs(n, def, pend), NextPend(n, pend), target);
      }
    }
  }

  lemma {:induction false} ConvertUnique(h: Host, marks: Marks, nodes: seq<Node>)
    requires Unique(nodes)
    ensures Unique(ConvertConstants(h, marks, nodes))
    decreases nodes
  {
    if nodes != [] {
      var n, rest := nodes[0], nodes[1..];
      ConvertUnique(h, marks, rest);
      ConvertDefs(h, marks, rest);
      assert ConvertConstants(h, marks, nodes)[1..] == ConvertConstants(h, marks, rest);
      if n.Conditional? {
        ConvertUnique(h, marks, n.ifpart);
        ConvertUnique(h, marks, n.elsepart);
        ConvertDefs(h, marks, n.ifpart);
        ConvertDefs(h, marks, n.elsepart);
      }
    }
  }

  // The pass keeps the code well formed.
  lemma ConvertWf(h: Host, marks: Marks, nodes: seq<Node>, def: set<Variable>,
                  pend: Option<Variable>, target: Option<Variable>)
    requires Wf(nodes, def, pend, target)
    ensures Wf(ConvertConstants(h, marks, nodes), def, pend, target)
  {
    ConvertDefs(h, marks, nodes);
    ConvertScoped(h, marks, nodes, def, pend, target);
    ConvertUnique(h, marks, nodes);
  }

  // A conversion of a marked constant yields what the constant left in its place yields.
  lemma ConvertStep(h: Host, call: Oracle, marks: Marks, n: Node, env: Env, vars: set<Variable>)
    requires !n.Conditional? && MarksHold(h, env, marks) && NumbersAgree(h, marks, vars) && env.Keys <= vars
    requires n.Convert? ==> n.src in env
    ensures Step(h, call, ConvertNode(h, marks, n), env) == Step(h, call, n, env)
  {
  }

  /** Converting constants at compile time never changes an outcome. */
  lemma {:induction false} ConvertPreservesMeaning(h: Host, call: Oracle, marks: Marks, nodes: seq<Node>,
                                                   def: set<Variable>, pend: Option<Variable>,
                                                   target: Option<Variable>, env: Env, vars: set<Variable>)
    requires Wf(nodes, def, pend, target) && Ready(nodes, def, pend, target, env)
    requires Marked(nodes, marks) && MarksHold(h, env, marks) && NumbersAgree(h, marks, vars)
    requires env.Keys + AllDefs(nodes) <= vars
    requires Open(pend, None) !! marks.Keys
    ensures Run(h, call, ConvertConstants(h, marks, nodes), env) == Run(h, call, nodes, env)
    decreases nodes, 1
  {
    if nodes != [] {
      var n, rest := nodes[0], nodes[1..];
      assert ConvertConstants(h, marks, nodes)[1..] == ConvertConstants(h, marks, rest);
      if n.Conditional? {
        ConvertBranches(h, call, marks, nodes, def, pend, target, env, vars);
      } else {
        ConvertStep(h, call, marks, n, env, vars);
      }
      var o := Step(h, call, n, env);
      if o.Running? {
        StepExtends(h, call, nodes, def, pend, target, env);
        if n.Assign? {
          assert rest == [] && ConvertConstants(h, marks, rest) == [];
        } else {
          WfRest(nodes, def, pend, target);
          ConvertPreservesMeaning(h, call, marks, rest, NextDefs(n, def, pend), NextPend(n, pend), target, o.env, vars);
        }
      }
    }
  }

  lemma {:induction false} ConvertBranches(h: Host, call: Oracle, marks: Marks, nodes: seq<Node>,
                                           def: set<Variable>, pend: Option<Variable>,
                                           target: Option<Variable>, env: Env, vars: set<Variable>)
    requires nodes != [] && nodes[0].Conditional?
    requires Wf(nodes, def, pend, target) && Ready(nodes, def, pend, target, env)
    requires Marked(nodes, marks) && MarksHold(h, env, marks) && NumbersAgree(h, marks, vars)
    requires env.Keys + AllDefs(nodes) <= vars
    ensures Step(h, call, ConvertNode(h, marks, nodes[0]), env) == Step(h, call, nodes[0], env)
    decreases nodes, 0
  {
    WfRest(nodes, def, pend, target);
    var br := if Truthy(h, env[nodes[0].condition]) then nodes[0].ifpart else nodes[0].elsepart;
    ConvertPreservesMeaning(h, call, marks, br, def, None, pend, env, vars);
  }

  // ----- eliminating common subexpressions keeps the marks right -----

  lemma {:induction false} MarkedAppend(a: seq<Node>, b: seq<Node>, marks: Marks)
    ensures Marked(a + b, marks) <==> Marked(a, marks) && Marked(b, marks)
  {
    if a == [] {
      assert a + b == b;
    } else {
      assert (a + b)[0] == a[0] && (a + b)[1..] == a[1..] + b;
      MarkedAppend(a[1..], b, marks);
    }
  }

  lemma {:induction false} RenameMarked(nodes: seq<Node>, a: Variable, b: Variable, marks: Marks)
    ensures Marked(Rename(nodes, a, b), marks) == Marked(nodes, marks)
    decreases nodes
  {
    if nodes != [] {
      if nodes[0].Conditional? {
        RenameMarked(nodes[0].ifpart, a, b, marks);
        RenameMarked(nodes[0].elsepart, a, b, marks);
      }
      RenameMarked(nodes[1..], a, b, marks);
      assert Rename(nodes, a, b)[1..] == Rename(nodes[1..], a, b);
    }
  }

  lemma {:induction false} CseMarked(h: Host, done: seq<Node>, todo: seq<Node>, scope: seq<Node>, marks: Marks)
    requires Marked(done, marks) && Marked(todo, marks)
    ensures Marked(Cse(h, done, todo, scope), marks)
    decreases Size(todo), 1
  {
    if todo != [] {
      var x, rest := todo[0], todo[1..];
      if x.Conditional? {
        CseMarkedConditional(h, x, scope + done, marks);
        var y := CseConditional(h, x, scope + done);
        MarkedAppend(done, [y], marks);
        CseMarked(h, done + [y], rest, scope, marks);
      } else {
        var same := FirstSame(h, x, done + scope);
        if x.Empty? || same.None? {
          MarkedAppend(done, [x], marks);
          CseMarked(h, done + [x], rest, scope, marks);
        } else {
          var y := same.value;
          RedirectSize(rest, x, y);
          if Target(x).Some? && Target(y).Some? {
            RenameMarked(done, Target(x).value, Target(y).value, marks);
            RenameMarked(rest, Target(x).value, Target(y).value, marks);
          }
          MarkedAppend(Redirect(done, x, y), [Empty], marks);
          CseMarked(h, Redirect(done, x, y) + [Empty], Redirect(rest, x, y), scope, marks);
        }
      }
    }
  }

  lemma {:induction false} CseMarkedConditional(h: Host, x: Node, scope: seq<Node>, marks: Marks)
    requires x.Conditional? && NodeMarked(x, marks)
    ensures NodeMarked(CseConditional(h, x, scope), marks)
    decreases NodeSize(x), 0
  {
    CseMarked(h, [], x.ifpart, scope, marks);
    CseMarked(h, [], x.elsepart, scope, marks);
  }
}
