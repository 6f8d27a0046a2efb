/**
  The code of two small compositions (wikifunc/wikifunc.js:742-824), instruction by instruction, and what single
  instructions and expressions mean.
 */
module WikiSample {
  import opened Common
  import opened WikiIR
  import opened WikiCse
  import opened WikiConst
  import opened WikiCompose
  import opened WikiReach

  // A native function with two numbers as arguments, a composition, and converters for numbers.
  function Numbers(): Catalogue {
    Catalogue(map[Z(1) := Func(Native, [Param("a", "Z1"), Param("b", "Z1")], "Z1", Unknown),
                  Z(2) := Func(Composition, [Param("x", "Z1")], "Z1", Unknown)], {"Z1"}, {"Z1"})
  }

  // An instruction that converts to or from native numbers.
  function In(dst: nat, src: Variable): Node {
    Convert(ToNative("Z1"), Local(dst), src)
  }

  function Out(dst: nat, src: nat): Node {
    Convert(FromNative("Z1"), Local(dst), Local(src))
  }

  // The code of the inner call.
  function InnerCode(): seq<Node> {
    [Const(Local(0), Natural("1"), None), In(2, Formal(Z(2), "x")), In(3, Local(0)),
     Call(Z(1), Local(4), [Local(2), Local(3)]), Out(1, 4)]
  }

  lemma TwoArguments(cat: Catalogue, fn: Zid, d: Expr, e: Expr, st: State, x: Variable, st1: State, y: Variable,
                     st2: State)
    requires Compose(cat, fn, d, st) == Success((x, st1)) && Compose(cat, fn, e, st1) == Success((y, st2))
    ensures ComposeAll(cat, fn, [d, e], st) == Success(([x, y], st2))
  {
    hide Compose;
    assert [d, e][1..] == [e] && [e][1..] == [];
    assert ComposeAll(cat, fn, [], st2) == Success(([], st2));
    assert [y] + [] == [y];
    assert ComposeAll(cat, fn, [e], st1) == Success(([y], st2));
    assert [x] + [y] == [x, y];
  }

  lemma Constant(cat: Catalogue, fn: Zid, e: Expr, c: WikiIR.Constant, st: State)
    requires (e.Nat? && c == Natural(e.digits)) || (e.Word? && c == Text(WordText(e.text)))
    ensures Compose(cat, fn, e, st) ==
            Success((Local(st.next), State(st.block + [Const(Local(st.next), c, None)], st.next + 1,
                                           st.marks[Local(st.next) := c])))
  {
  }

  lemma TheArgument(cat: Catalogue, st: State)
    requires cat == Numbers()
    ensures Compose(cat, Z(2), Argument("x"), st) == Success((Formal(Z(2), "x"), st))
  {
    assert Param("x", "Z1") in cat.funcs[Z(2)].params;
    assert HasParam(cat.funcs[Z(2)], "x");
  }

  // The arguments that the native function is called with, and the conversions before the call.
  lemma Call1(cat: Catalogue, es: seq<Expr>, args: seq<Variable>, st: State, st1: State, natives: seq<Variable>,
              st2: State)
    requires cat == Numbers() && |es| == |args| == 2 && ComposeAll(cat, Z(2), es, st) == Success((args, st1))
    requires NativeArgs(cat, cat.funcs[Z(1)].params, args, Bump(st1)) == (natives, st2)
    ensures Compose(cat, Z(2), Apply(Z(1), es), st) ==
            Success((Local(st1.next), State(st2.block + [Call(Z(1), Local(st2.next), natives), Out(st1.next, st2.next)],
                                            st2.next + 1, st2.marks)))
  {
    hide ComposeAll, NativeArgs;
    var b, call, out := st2.block, Call(Z(1), Local(st2.next), natives), Out(st1.next, st2.next);
    assert b + [call] + [out] == b + [call, out];
  }

  lemma TwoNatives(cat: Catalogue, x: Variable, y: Variable, st: State, x': Variable, st1: State, y': Variable,
                   st2: State)
    requires cat == Numbers()
    requires NativeArg(cat, "Z1", x, st) == (x', st1) && NativeArg(cat, "Z1", y, st1) == (y', st2)
    ensures NativeArgs(cat, cat.funcs[Z(1)].params, [x, y], st) == ([x', y'], st2)
  {
    hide NativeArg;
    var ps := cat.funcs[Z(1)].params;
    assert [x, y][1..] == [y] && [y][1..] == [] && ps[1..] == [Param("b", "Z1")] && ps[1..][1..] == [];
    assert NativeArgs(cat, [], [], st2) == ([], st2);
    assert [y'] + [] == [y'];
    assert NativeArgs(cat, ps[1..], [y], st1) == ([y'], st2);
    assert [x'] + [y'] == [x', y'];
  }

  lemma InnerCall(cat: Catalogue, st: State)
    requires cat == Numbers() && st == State([], 0, map[])
    ensures Compose(cat, Z(2), Apply(Z(1), [Argument("x"), Nat("1")]), st) ==
            Success((Local(1), State(InnerCode(), 5, map[Local(0) := Natural("1")])))
  {
    hide Compose, NativeArgs, ComposeAll;
    var x, marks := Formal(Z(2), "x"), map[Local(0) := Natural("1")];
    var one, in2, in3 := Const(Local(0), Natural("1"), None), In(2, x), In(3, Local(0));
    var st1 := State([one], 1, marks);
    TheArgument(cat, st);
    Constant(cat, Z(2), Nat("1"), Natural("1"), st);
    assert [] + [one] == [one] && st.marks[Local(0) := Natural("1")] == marks;
    TwoArguments(cat, Z(2), Argument("x"), Nat("1"), st, x, st, Local(0), st1);
    var st2, st3 := State([one, in2], 3, marks), State([one, in2, in3], 4, marks);
    assert [one] + [in2] == [one, in2] && [one, in2] + [in3] == [one, in2, in3];
    assert [one][1..] == [] && [one, in2][1..] == [in2] && [in2][1..] == [];
    assert FindInverse([one], x) == None && Local(2) != Local(0);
    assert FindInverse([in2], Local(0)) == FindInverse([], Local(0)) == None;
    assert NativeArg(cat, "Z1", x, Bump(st1)) == (Local(2), st2);
    assert NativeArg(cat, "Z1", Local(0), st2) == (Local(3), st3);
    TwoNatives(cat, x, Local(0), Bump(st1), Local(2), st2, Local(3), st3);
    Call1(cat, [Argument("x"), Nat("1")], [x, Local(0)], st, st1, [Local(2), Local(3)], st3);
    var call := Call(Z(1), Local(4), [Local(2), Local(3)]);
    assert [one, in2, in3] + [call, Out(1, 4)] == [one, in2, in3, call, Out(1, 4)];
  }

  /** The result of native code that is passed to native code is not converted back and forth; the empty string has an
      item id. */
  lemma NestedCalls(cat: Catalogue, st: State)
    requires cat == Numbers() && st == State([], 0, map[])
    ensures var r := Compose(cat, Z(2), Apply(Z(1), [Apply(Z(1), [Argument("x"), Nat("1")]), Word("Z11853")]), st);
            && r.Success? && r.value.0 == Local(6)
            && r.value.1.block == InnerCode() + [Const(Local(5), Text(""), None), In(7, Local(5)),
                                                 Call(Z(1), Local(8), [Local(4), Local(7)]), Out(6, 8)]
  {
    hide Compose, NativeArgs, ComposeAll;
    InnerCall(cat, st);
    var inner, word := Apply(Z(1), [Argument("x"), Nat("1")]), Word("Z11853");
    var st0 := State(InnerCode(), 5, map[Local(0) := Natural("1")]);
    var empty := Const(Local(5), Text(""), None);
    var st1 := State(InnerCode() + [empty], 6, st0.marks[Local(5) := Text("")]);
    Constant(cat, Z(2), word, Text(""), st0);
    TwoArguments(cat, Z(2), inner, word, st, Local(1), st0, Local(5), st1);
    var st2 := State(InnerCode() + [empty] + [In(7, Local(5))], 8, st1.marks);
    Inverses(empty);
    assert NativeArg(cat, "Z1", Local(1), Bump(st1)) == (Local(4), Bump(st1));
    assert NativeArg(cat, "Z1", Local(5), Bump(st1)) == (Local(7), st2);
    TwoNatives(cat, Local(1), Local(5), Bump(st1), Local(4), Bump(st1), Local(7), st2);
    Call1(cat, [inner, word], [Local(1), Local(5)], st, st1, [Local(4), Local(7)], st2);
    var call := Call(Z(1), Local(8), [Local(4), Local(7)]);
    assert InnerCode() + [empty] + [In(7, Local(5))] + [call, Out(6, 8)] ==
           InnerCode() + [empty, In(7, Local(5)), call, Out(6, 8)];
  }

  lemma Inverses(empty: Node)
    requires empty.Const?
    ensures FindInverse(InnerCode() + [empty], Local(1)) == Some(Local(4))
    ensures FindInverse(InnerCode() + [empty], Local(5)) == None
  {
    var b := InnerCode() + [empty];
    assert b[1..][1..][1..][1..][1..] == [empty] && [empty][1..] == [];
    assert FindInverse([empty], Local(5)) == None;
    assert b[1..][1..][1..][1..][0] == Out(1, 4) && b[1..][1..][1..][0].Call?;
    assert FindInverse(b[1..][1..][1..], Local(1)) == Some(Local(4));
    assert FindInverse(b[1..][1..][1..], Local(5)) == None;
    assert FindInverse(b[1..], Local(1)) == Some(Local(4)) && FindInverse(b[1..], Local(5)) == None;
  }

  /** A conditional declares its result and assigns it at the end of both branches. */
  lemma Choice(cat: Catalogue, st: State)
    requires cat == Numbers() && st == State([], 0, map[])
    ensures var r := Compose(cat, Z(2), IfThenElse(Argument("x"), Bool(true), Echo(Nat("0"))), st);
            && r.Success? && r.value.0 == Local(0)
            && r.value.1.block ==
               [Declare(Local(0)),
                Conditional(Formal(Z(2), "x"), [Const(Local(1), Truth(true), None), Assign(Local(0), Local(1))],
                            [Const(Local(2), Natural("0"), None), Assign(Local(0), Local(2))])]
  {
    TheArgument(cat, st);
    IfIs(cat, Z(2), IfThenElse(Argument("x"), Bool(true), Echo(Nat("0"))), st);
    var p, q := Const(Local(1), Truth(true), None), Const(Local(2), Natural("0"), None);
    assert [] + [p] + [Assign(Local(0), Local(1))] == [p, Assign(Local(0), Local(1))];
    assert [] + [q] + [Assign(Local(0), Local(2))] == [q, Assign(Local(0), Local(2))];
  }

  // ----- meanings -----

  /** False, the empty string and undefined fail a test; other strings, true, lists and objects pass it. Constants are
      tested like the values they stand for. */
  lemma Tests(h: Host, text: string, digits: string, typ: string, es: seq<Option<Value>>)
    ensures !Truthy(h, Undefined) && !Truthy(h, TruthValue(false)) && Truthy(h, TruthValue(true))
    ensures Truthy(h, TextValue(text)) <==> text != ""
    ensures Truthy(h, NaturalValue(digits)) && Truthy(h, ListValue(typ, es))
    ensures forall c: WikiIR.Constant :: !c.Number? ==> (ConstantTruthy(c) <==> Truthy(h, ConstantValue(h, c)))
  {
  }

  /** What constants and arguments stand for; the empty string has an item id. */
  lemma Leaves(h: Host, call: Oracle, cat: Catalogue, text: string, digits: string, b: bool, args: Args)
    ensures Eval(h, call, cat, Word("Z11853"), args) == Some(TextValue(""))
    ensures text != "Z11853" ==> Eval(h, call, cat, Word(text), args) == Some(TextValue(text))
    ensures Eval(h, call, cat, Nat(digits), args) == Some(NaturalValue(digits))
    ensures Eval(h, call, cat, Bool(b), args) == Some(TruthValue(b))
    ensures Eval(h, call, cat, Argument(text), args) == if text in args then Some(args[text]) else None
  {
  }

  /** A test that is passed chooses the first branch, in compositions and in code; another one chooses the second. */
  lemma Choices(h: Host, call: Oracle, cat: Catalogue, c: Expr, d: Expr, e: Expr, args: Args, v: Value, cond: Variable,
                a: seq<Node>, b: seq<Node>, env: Env)
    requires Eval(h, call, cat, c, args) == Some(v) && cond in env && env[cond] == v
    ensures Eval(h, call, cat, IfThenElse(c, d, e), args) == Eval(h, call, cat, if Truthy(h, v) then d else e, args)
    ensures Step(h, call, Conditional(cond, a, b), env) ==
            Leave(env.Keys, Run(h, call, if Truthy(h, v) then a else b, env))
  {
  }

  /** Calls and lists evaluate their parts in order; echoing and untyping change nothing. */
  lemma Parts(h: Host, call: Oracle, cat: Catalogue, z: Zid, d: Expr, e: Expr, args: Args, v: Value, w: Value)
    requires Eval(h, call, cat, d, args) == Some(v) && Eval(h, call, cat, e, args) == Some(w)
    ensures Eval(h, call, cat, ListOf("Z1", [d, e]), args) == Some(ListValue("Z1", [Some(v), Some(w)]))
    ensures Eval(h, call, cat, Echo(d), args) == Eval(h, call, cat, Untype(d), args) == Some(v)
    ensures z in cat.funcs && |cat.funcs[z].params| == 2 && cat.funcs[z].kind.Composition? ==>
              Eval(h, call, cat, Apply(z, [d, e]), args) == call(z, [v, w])
  {
    var all := EvalAll(h, call, cat, [d, e], args);
    assert [d, e][1..] == [e] && [e][1..] == [];
    assert EvalAll(h, call, cat, [], args) == Some([]);
    assert [w] + [] == [w] && [v] + [w] == [v, w];
    assert EvalAll(h, call, cat, [e], args) == Some([w]);
    assert all == Some([v, w]);
    assert Full([v, w]) == [Some(v), Some(w)];
  }

  /** Loose equality across types: true and false equal the strings that are read as 1 and 0, an object equals the
      string that it is turned into, and no two objects are equal. */
  lemma Loosely(h: Host, s: string, d: string, e: string)
    ensures LooseEqual(h, Text(s), Truth(true)) == LooseEqual(h, Truth(true), Text(s)) == (h.toNumber(s) == Some(1))
    ensures LooseEqual(h, Text(s), Truth(false)) == LooseEqual(h, Truth(false), Text(s)) == (h.toNumber(s) == Some(0))
    ensures LooseEqual(h, Natural(d), Text(s)) == LooseEqual(h, Text(s), Natural(d)) == (s == "[object Object]")
    ensures !LooseEqual(h, Natural(d), Natural(e)) && LooseEqual(h, Text(s), Text(s))
  {
  }

  /** Names are given in the order of the code, to a test before the branches behind it. */
  lemma SomeNames()
    ensures Baptize([Declare(Local(0)), Conditional(Local(5), [Const(Local(1), Truth(true), None)],
                                                    [Const(Local(2), Truth(false), None)])], Names(map[], 0)) ==
            Names(map[Local(0) := "_v0", Local(5) := "_v1", Local(1) := "_v2", Local(2) := "_v3"], 4)
  {
    var a, b := [Const(Local(1), Truth(true), None)], [Const(Local(2), Truth(false), None)];
    var one := Names(map[Local(0) := "_v0"], 1);
    var two := Names(map[Local(0) := "_v0", Local(5) := "_v1"], 2);
    var three := Names(map[Local(0) := "_v0", Local(5) := "_v1", Local(1) := "_v2"], 3);
    FirstNames();
    assert map[][Local(0) := "_v0"] == one.named;
    assert BaptizeVariable(Local(0), Names(map[], 0)) == one;
    assert BaptizeVariable(Local(5), one) == two && BaptizeVariable(Local(1), two) == three;
    assert a[1..] == [] && b[1..] == [];
    assert Baptize(a, two) == three;
  }

  lemma FirstNames()
    ensures GeneratedName(0) == "_v0" && GeneratedName(1) == "_v1" && GeneratedName(2) == "_v2"
    ensures GeneratedName(3) == "_v3"
  {
  }
}
