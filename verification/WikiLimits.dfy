/** Concrete code on which the passes of the compiler change the meaning: each breaks one of the exact
    conditions stated with the passes. */
module WikiLimits {
  import opened Common
  import opened WikiIR
  import opened WikiRun
  import opened WikiCse
  import opened WikiDce

  lemma CseCons(h: Host, done: seq<Node>, x: Node, rest: seq<Node>)
    requires !x.Conditional?
    ensures Cse(h, done, [x] + rest, []) ==
            var same := FirstSame(h, x, done);
            if x.Empty? || same.None? then Cse(h, done + [x], rest, [])
            else Cse(h, Redirect(done, x, same.value) + [Empty], Redirect(rest, x, same.value), [])
  {
    assert ([x] + rest)[0] == x && ([x] + rest)[1..] == rest && done + [] == done;
  }

  lemma {:induction false} NoneSame(h: Host, x: Node, nodes: seq<Node>)
    requires forall n :: n in nodes ==> !Same(h, x, n)
    ensures FirstSame(h, x, nodes).None?
  {
    if nodes != [] {
      NoneSame(h, x, nodes[1..]);
    }
  }

  lemma CseOne(h: Host, x: Node, scope: seq<Node>)
    requires x.Assign? && FirstSame(h, x, scope).None?
    ensures Cse(h, [], [x], scope) == [x]
  {
    assert [] + scope == scope && [x][1..] == [] && [] + [x] == [x];
  }

  // The code below calls f twice on one argument and tests the second result.
  function TestBlock(f: Zid, arg: Variable, second: Node): seq<Node> {
    [Call(f, Local(0), [arg])] + ([second] + ([Declare(Local(2))] + ([TestNode(arg)] + ([Return(Local(2))] + []))))
  }

  function TestNode(arg: Variable): Node {
    Conditional(Local(1), [Assign(Local(2), arg)], [Assign(Local(2), Local(0))])
  }

  lemma DuplicateTestPass(h: Host, f: Zid, arg: Variable)
    requires arg.Formal?
    ensures Cse(h, [], TestBlock(f, arg, Call(f, Local(1), [arg])), []) == TestBlock(f, arg, Empty)
  {
    var c, d, p, t, r := Call(f, Local(0), [arg]), Call(f, Local(1), [arg]), Declare(Local(2)), TestNode(arg),
                         Return(Local(2));
    var tail := [p] + ([t] + ([r] + []));
    CseCons(h, [], c, [d] + tail);
    assert [] + [c] == [c] && FirstSame(h, d, [c]) == Some(c);
    CseCons(h, [c], d, tail);
    RenameUnused([c], Local(1), Local(0));
    TestTailUses(arg);
    RenameUnused(tail, Local(1), Local(0));
    TestTailPass(h, [c] + [Empty], arg);
    assert [c] + [Empty] + [p] + [t] + [r] == [c] + ([Empty] + ([p] + ([t] + ([r] + []))));
  }

  lemma TestTailPass(h: Host, done: seq<Node>, arg: Variable)
    requires forall n :: n in done ==> n.Call? || n.Empty?
    ensures var p, t, r := Declare(Local(2)), TestNode(arg), Return(Local(2));
            Cse(h, done, [p] + ([t] + ([r] + [])), []) == done + [p] + [t] + [r]
  {
    var p, t, r := Declare(Local(2)), TestNode(arg), Return(Local(2));
    NoneSame(h, p, done);
    CseCons(h, done, p, [t] + ([r] + []));
    var before := done + [p];
    NoneSame(h, Assign(Local(2), arg), [] + before);
    NoneSame(h, Assign(Local(2), Local(0)), [] + before);
    CseOne(h, Assign(Local(2), arg), [] + before);
    CseOne(h, Assign(Local(2), Local(0)), [] + before);
    TestConditionalPass(h, before, t, [r] + []);
    NoneSame(h, r, before + [t]);
    CseCons(h, before + [t], r, []);
  }

  lemma TestConditionalPass(h: Host, done: seq<Node>, t: Node, rest: seq<Node>)
    requires t.Conditional? && CseConditional(h, t, [] + done) == t
    ensures Cse(h, done, [t] + rest, []) == Cse(h, done + [t], rest, [])
  {
    assert ([t] + rest)[0] == t && ([t] + rest)[1..] == rest;
  }

  lemma TestTailUses(arg: Variable)
    requires arg.Formal?
    ensures Local(1) !in Uses([Declare(Local(2))] + ([TestNode(arg)] + ([Return(Local(2))] + [])))
  {
    var p, t, r := Declare(Local(2)), TestNode(arg), Return(Local(2));
    UsesAppend([t], [r] + []);
    UsesAppend([p], [t] + ([r] + []));
    assert Uses(t.ifpart) == {arg} + Uses(t.ifpart[1..]) && Uses(t.elsepart) == {Local(0)} + Uses(t.elsepart[1..]);
    assert Uses([t]) == NodeUses(t) + Uses([t][1..]) && Uses([r]) == {Local(2)} + Uses([r][1..]);
    assert [r] + [] == [r] && Uses([p]) == {} + Uses([p][1..]);
  }

  /** A repeated call whose result is tested is removed, and the test then reads a variable that is gone. */
  lemma DuplicateTestLost(h: Host, call: Oracle, f: Zid, name: string, value: Value)
    requires call(f, [value]).Some?
    ensures var block := TestBlock(f, Formal(Z(0), name), Call(f, Local(1), [Formal(Z(0), name)]));
            var env: Env := map[Formal(Z(0), name) := value];
            && Run(h, call, block, env).Returned?
            && Run(h, call, Cse(h, [], block, []), env) == Failed
  {
    var arg := Formal(Z(0), name);
    var env: Env := map[arg := value];
    DuplicateTestRuns(h, call, f, arg, value);
    DuplicateTestPass(h, f, arg);
    var u := [TestNode(arg)] + ([Return(Local(2))] + []);
    assert Values([arg], env) == [value];
    RunCons(h, call, Call(f, Local(0), [arg]), [Empty] + ([Declare(Local(2))] + u), env);
    var e := env[Local(0) := call(f, [value]).value];
    RunCons(h, call, Empty, [Declare(Local(2))] + u, e);
    RunCons(h, call, Declare(Local(2)), u, e);
    RunCons(h, call, TestNode(arg), [Return(Local(2))] + [], e[Local(2) := Undefined]);
  }

  lemma DuplicateTestRuns(h: Host, call: Oracle, f: Zid, arg: Variable, value: Value)
    requires call(f, [value]).Some? && arg.Formal?
    ensures Run(h, call, TestBlock(f, arg, Call(f, Local(1), [arg])), map[arg := value]).Returned?
  {
    var env: Env := map[arg := value];
    var c, d, p, t, r := Call(f, Local(0), [arg]), Call(f, Local(1), [arg]), Declare(Local(2)), TestNode(arg),
                         Return(Local(2));
    assert Values([arg], env) == [value];
    RunCons(h, call, c, [d] + ([p] + ([t] + ([r] + []))), env);
    var e := env[Local(0) := call(f, [value]).value];
    assert Values([arg], e) == [value];
    RunCons(h, call, d, [p] + ([t] + ([r] + [])), e);
    var e' := e[Local(1) := call(f, [value]).value];
    RunCons(h, call, p, [t] + ([r] + []), e');
    var e'' := e'[Local(2) := Undefined];
    RunCons(h, call, t, [r] + [], e'');
    RunOne(h, call, Assign(Local(2), arg), e'');
    RunOne(h, call, Assign(Local(2), Local(0)), e'');
    var o := Step(h, call, t, e'');
    assert o.Running? && Local(2) in o.env;
    RunCons(h, call, r, [], o.env);
  }

  // A list of the text "1" and the second variable's constant.
  function ListBlock(typ: string, second: Node, element: Variable): seq<Node> {
    [Const(Local(0), Text("1"), None)] +
    ([second] + ([Build(Local(2), typ, [Local(0), element])] + ([Return(Local(2))] + [])))
  }

  lemma CseTwo(h: Host, done: seq<Node>, x: Node, y: Node)
    requires !x.Conditional? && !y.Conditional? && !Same(h, y, x)
    requires forall n :: n in done ==> !Same(h, x, n) && !Same(h, y, n)
    ensures Cse(h, done, [x] + ([y] + []), []) == done + [x] + [y]
  {
    NoneSame(h, x, done);
    NoneSame(h, y, done + [x]);
    CseCons(h, done, x, [y] + []);
    CseCons(h, done + [x], y, []);
  }

  lemma ListTailRenamed(typ: string)
    ensures var r := Return(Local(2));
            Rename([Build(Local(2), typ, [Local(0), Local(1)])] + ([r] + []), Local(1), Local(0)) ==
            [Build(Local(2), typ, [Local(0), Local(0)])] + ([r] + [])
  {
    var b, r := Build(Local(2), typ, [Local(0), Local(1)]), Return(Local(2));
    assert SwapAll([Local(0), Local(1)], Local(1), Local(0)) == [Local(0), Local(0)];
    RenameUnused([r] + [], Local(1), Local(0));
    assert ([b] + ([r] + []))[0] == b && ([b] + ([r] + []))[1..] == [r] + [];
  }

  lemma LooseConstantsPass(h: Host, typ: string)
    requires h.toNumber("1") == Some(1)
    ensures Cse(h, [], ListBlock(typ, Const(Local(1), Truth(true), None), Local(1)), []) ==
            ListBlock(typ, Empty, Local(0))
  {
    var c, d, r := Const(Local(0), Text("1"), None), Const(Local(1), Truth(true), None), Return(Local(2));
    var b, b' := Build(Local(2), typ, [Local(0), Local(1)]), Build(Local(2), typ, [Local(0), Local(0)]);
    CseCons(h, [], c, [d] + ([b] + ([r] + [])));
    assert [] + [c] == [c] && FirstSame(h, d, [c]) == Some(c);
    CseCons(h, [c], d, [b] + ([r] + []));
    RenameUnused([c], Local(1), Local(0));
    ListTailRenamed(typ);
    CseTwo(h, [c] + [Empty], b', r);
    assert [c] + [Empty] + [b'] + [r] == [c] + ([Empty] + ([b'] + ([r] + [])));
  }

  lemma ListBlockRuns(h: Host, call: Oracle, typ: string, second: Node, element: Variable, value: Value)
    requires (second == Const(Local(1), Truth(true), None) && element == Local(1) && value == TruthValue(true)) ||
             (second == Empty && element == Local(0) && value == TextValue("1"))
    ensures Run(h, call, ListBlock(typ, second, element), map[]) ==
            Returned(ListValue(typ, [Some(TextValue("1")), Some(value)]))
  {
    var r, b := Return(Local(2)), Build(Local(2), typ, [Local(0), element]);
    var e: Env := map[Local(0) := TextValue("1")];
    RunCons(h, call, Const(Local(0), Text("1"), None), [second] + ([b] + ([r] + [])), map[]);
    RunCons(h, call, second, [b] + ([r] + []), e);
    var e' := Step(h, call, second, e).env;
    RunCons(h, call, b, [r] + [], e');
    assert Listed([Local(0), element], e') == [Some(TextValue("1")), Some(value)];
    RunCons(h, call, r, [], e'[Local(2) := ListValue(typ, [Some(TextValue("1")), Some(value)])]);
  }

  /** The text "1" and the Boolean true are loosely equal, so their constants are merged. */
  lemma LooseConstantsMerged(h: Host, call: Oracle, typ: string)
    requires h.toNumber("1") == Some(1)
    ensures var block := ListBlock(typ, Const(Local(1), Truth(true), None), Local(1));
            && Run(h, call, block, map[]) == Returned(ListValue(typ, [Some(TextValue("1")), Some(TruthValue(true))]))
            && Run(h, call, Cse(h, [], block, []), map[]) ==
               Returned(ListValue(typ, [Some(TextValue("1")), Some(TextValue("1"))]))
  {
    LooseConstantsPass(h, typ);
    ListBlockRuns(h, call, typ, Const(Local(1), Truth(true), None), Local(1), TruthValue(true));
    ListBlockRuns(h, call, typ, Empty, Local(0), TextValue("1"));
  }

  lemma DceCons(rule: ListRule, n: Node, rest: seq<Node>, live: set<Variable>)
    ensures Dce(rule, [n] + rest, live) ==
            var p := Dce(rule, rest, live); var q := DceNode(rule, n, p.1); ([q.0] + p.0, q.1)
  {
    assert ([n] + rest)[0] == n && ([n] + rest)[1..] == rest;
  }

  // A block that builds a list of a call's result and its argument, in some order.
  function ElementBlock(f: Zid, typ: string, arg: Variable, elements: seq<Variable>): seq<Node> {
    [Call(f, Local(0), [arg])] + ([Build(Local(1), typ, elements)] + ([Return(Local(1))] + []))
  }

  lemma ElementPass(f: Zid, typ: string, arg: Variable, elements: seq<Variable>)
    ensures Dce(Indices, ElementBlock(f, typ, arg, elements), {}).0 ==
            [Empty] + ([Build(Local(1), typ, elements)] + ([Return(Local(1))] + []))
  {
    var c, b, r := Call(f, Local(0), [arg]), Build(Local(1), typ, elements), Return(Local(1));
    DceCons(Indices, r, [], {});
    DceCons(Indices, b, [r] + [], {});
    DceCons(Indices, c, [b] + ([r] + []), {});
  }

  lemma ListReturned(h: Host, call: Oracle, typ: string, elements: seq<Variable>, env: Env)
    ensures Run(h, call, [Build(Local(1), typ, elements)] + ([Return(Local(1))] + []), env) ==
            Returned(ListValue(typ, Listed(elements, env)))
  {
    var b, r := Build(Local(1), typ, elements), Return(Local(1));
    RunCons(h, call, b, [r] + [], env);
    RunCons(h, call, r, [], env[Local(1) := ListValue(typ, Listed(elements, env))]);
  }

  lemma ElementRuns(h: Host, call: Oracle, f: Zid, typ: string, arg: Variable, elements: seq<Variable>, value: Value)
    requires call(f, [value]).Some? && arg.Formal?
    ensures var env: Env := map[arg := value]; var e := env[Local(0) := call(f, [value]).value];
            && Run(h, call, ElementBlock(f, typ, arg, elements), env) == Returned(ListValue(typ, Listed(elements, e)))
            && Run(h, call, Dce(Indices, ElementBlock(f, typ, arg, elements), {}).0, env) ==
               Returned(ListValue(typ, Listed(elements, env)))
  {
    var env: Env := map[arg := value];
    var rest := [Build(Local(1), typ, elements)] + ([Return(Local(1))] + []);
    ElementPass(f, typ, arg, elements);
    assert Values([arg], env) == [value];
    RunCons(h, call, Call(f, Local(0), [arg]), rest, env);
    RunCons(h, call, Empty, rest, env);
    ListReturned(h, call, typ, elements, env);
    ListReturned(h, call, typ, elements, env[Local(0) := call(f, [value]).value]);
  }

  /** A list with a computed element is spoiled by the pass: the call that computes it is removed. At the end of the
      list the element is missing, and elsewhere there is a hole. */
  lemma ListElementLost(h: Host, call: Oracle, f: Zid, typ: string, name: string, value: Value)
    requires call(f, [value]).Some?
    ensures var arg := Formal(Z(0), name);
            var env: Env := map[arg := value];
            var last, first := ElementBlock(f, typ, arg, [Local(0)]), ElementBlock(f, typ, arg, [Local(0), arg]);
            && Run(h, call, last, env) == Returned(ListValue(typ, [Some(call(f, [value]).value)]))
            && Run(h, call, Dce(Indices, last, {}).0, env) == Returned(ListValue(typ, []))
            && Run(h, call, first, env) == Returned(ListValue(typ, [Some(call(f, [value]).value), Some(value)]))
            && Run(h, call, Dce(Indices, first, {}).0, env) == Returned(ListValue(typ, [None, Some(value)]))
  {
    var arg := Formal(Z(0), name);
    var env: Env := map[arg := value];
    var e := env[Local(0) := call(f, [value]).value];
    ElementRuns(h, call, f, typ, arg, [Local(0)], value);
    ElementRuns(h, call, f, typ, arg, [Local(0), arg], value);
    assert Listed([Local(0)], e) == [Some(call(f, [value]).value)] && Listed([Local(0)], env) == [];
    assert Listed([Local(0), arg], e) == [Some(call(f, [value]).value), Some(value)];
    assert Listed([Local(0), arg], env) == [None, Some(value)];
  }
}
