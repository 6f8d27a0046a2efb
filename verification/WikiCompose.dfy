/**
  Compositions, what they mean, and how the compiler emits code for them
  (wikifunc/wikifunc.js:368-413, 742-824).
 */
module WikiCompose {
  import opened Common
  import opened WikiIR
  import opened WikiRun
  import opened WikiCse
  import opened WikiConst

  // A composition. The arguments of a call are listed in the order of the callee's formals.
  datatype Expr =
    | Word(text: string)
    | ListOf(typ: string, elements: seq<Expr>)
    | IfThenElse(test: Expr, thn: Expr, els: Expr)
    | Echo(body: Expr)
    | Untype(body: Expr)
    | Apply(callee: Zid, args: seq<Expr>)
    | Argument(name: string)
    | Nat(digits: string)
    | Bool(value: bool)
    | Unknown

  datatype Kind = Native | Composition | BuiltIn
  datatype Param = Param(name: string, typ: string)
  datatype Func = Func(kind: Kind, params: seq<Param>, rettype: string, body: Expr)

  // The items a compilation can load: functions, and the types with converters to and from JavaScript.
  datatype Catalogue = Catalogue(funcs: map<Zid, Func>, tojs: set<string>, fromjs: set<string>)

  // ----- meaning of compositions -----

  type Args = map<string, Value>

  // The text of a string constant; one item id denotes the empty string.
  function WordText(s: string): string {
    if s == "Z11853" then "" else s
  }

  function ConvertArgs(h: Host, cat: Catalogue, params: seq<Param>, vals: seq<Value>): (r: Option<seq<Value>>)
    requires |params| == |vals|
    ensures r.Some? ==> |r.value| == |vals|
  {
    if vals == [] then Some([])
    else
      var v := if params[0].typ in cat.tojs then h.convert(ToNative(params[0].typ), vals[0]) else Some(vals[0]);
      var vs := ConvertArgs(h, cat, params[1..], vals[1..]);
      if v.Some? && vs.Some? then Some([v.value] + vs.value) else None
  }

  // Calling a function on values: every argument and the result of native code is converted.
  function Invoke(h: Host, call: Oracle, cat: Catalogue, z: Zid, f: Func, vals: seq<Value>): Option<Value>
    requires |f.params| == |vals|
  {
    if f.kind.Native? then
      var natives := ConvertArgs(h, cat, f.params, vals);
      if natives.None? then None
      else
        var r := call(z, natives.value);
        if r.Some? && f.rettype in cat.fromjs then h.convert(FromNative(f.rettype), r.value) else r
    else call(z, vals)
  }

  function Eval(h: Host, call: Oracle, cat: Catalogue, e: Expr, args: Args): Option<Value>
    decreases e
  {
    match e
    case Word(s) => Some(TextValue(WordText(s)))
    case Nat(d) => Some(NaturalValue(d))
    case Bool(b) => Some(TruthValue(b))
    case Argument(name) => if name in args then Some(args[name]) else None
    case Echo(b) => Eval(h, call, cat, b, args)
    case Untype(b) => Eval(h, call, cat, b, args)
    case ListOf(typ, es) =>
      var vs := EvalAll(h, call, cat, es, args);
      if vs.Some? then Some(ListValue(typ, Full(vs.value))) else None
    case IfThenElse(c, a, b) =>
      var t := Eval(h, call, cat, c, args);
      if t.None? then None
      else if Truthy(h, t.value) then Eval(h, call, cat, a, args) else Eval(h, call, cat, b, args)
    case Apply(z, es) =>
      var vs := EvalAll(h, call, cat, es, args);
      if vs.Some? && z in cat.funcs && |cat.funcs[z].params| == |es|
      then Invoke(h, call, cat, z, cat.funcs[z], vs.value) else None
    case Unknown => None
  }

  function EvalAll(h: Host, call: Oracle, cat: Catalogue, es: seq<Expr>, args: Args): (r: Option<seq<Value>>)
    ensures r.Some? ==> |r.value| == |es|
    decreases es
  {
    if es == [] then Some([])
    else
      var v, vs := Eval(h, call, cat, es[0], args), EvalAll(h, call, cat, es[1..], args);
      if v.Some? && vs.Some? then Some([v.value] + vs.value) else None
  }

  // ----- emitting code -----

  // The block being filled, the number of local variables so far, and the marks on constants.
  datatype State = State(block: seq<Node>, next: nat, marks: Marks)

  function Emit(st: State, n: Node): State {
    st.(block := st.block + [n])
  }

  function Bump(st: State): State {
    st.(next := st.next + 1)
  }

  function EmitConstant(st: State, c: Constant): (Variable, State) {
    var v := Local(st.next);
    (v, Emit(Bump(st), Const(v, c, None)).(marks := st.marks[v := c]))
  }

  // The source of the first conversion in the block that produced `arg`.
  function FindInverse(block: seq<Node>, arg: Variable): Option<Variable> {
    if block == [] then None
    else if block[0].Convert? && block[0].dst == arg then Some(block[0].src)
    else FindInverse(block[1..], arg)
  }

  function NativeArg(cat: Catalogue, typ: string, arg: Variable, st: State): (Variable, State) {
    if typ !in cat.tojs then (arg, st)
    else
      var inverse := FindInverse(st.block, arg);
      if inverse.Some? then (inverse.value, st)
      else (Local(st.next), Emit(Bump(st), Convert(ToNative(typ), Local(st.next), arg)))
  }

  function NativeArgs(cat: Catalogue, params: seq<Param>, args: seq<Variable>, st: State): (r: (seq<Variable>, State))
    requires |params| == |args|
    ensures |r.0| == |args|
  {
    if args == [] then ([], st)
    else
      var p := NativeArg(cat, params[0].typ, args[0], st);
      var q := NativeArgs(cat, params[1..], args[1..], p.1);
      ([p.0] + q.0, q.1)
  }

  // Emitting a call that leaves its result in `retval`.
  function Evoke(cat: Catalogue, z: Zid, f: Func, retval: Variable, args: seq<Variable>, st: State): State
    requires |f.params| == |args|
  {
    if f.kind.Native? then
      var p := NativeArgs(cat, f.params, args, st);
      if f.rettype in cat.fromjs then
        var native := Local(p.1.next);
        Emit(Emit(Bump(p.1), Call(z, native, p.0)), Convert(FromNative(f.rettype), retval, native))
      else
        Emit(p.1, Call(z, retval, p.0))
    else
      Emit(st, Call(z, retval, args))
  }

  predicate HasParam(f: Func, name: string) {
    exists p :: p in f.params && p.name == name
  }

  // Emitting code for an expression in the body of function `fn`; fails where the compiler throws.
  function Compose(cat: Catalogue, fn: Zid, e: Expr, st: State): Result<(Variable, State), string>
    decreases e, 0
  {
    match e
    case Word(s) => Success(EmitConstant(st, Text(WordText(s))))
    case Nat(d) => Success(EmitConstant(st, Natural(d)))
    case Bool(b) => Success(EmitConstant(st, Truth(b)))
    case Argument(name) =>
      if fn in cat.funcs && HasParam(cat.funcs[fn], name) then Success((Formal(fn, name), st))
      else Failure("unknown argument")
    case Echo(b) => Compose(cat, fn, b, st)
    case Untype(b) => Compose(cat, fn, b, st)
    case ListOf(typ, es) =>
      var r := ComposeAll(cat, fn, es, Bump(st));
      if r.Failure? then Failure(r.error)
      else Success((Local(st.next), Emit(r.value.1, Build(Local(st.next), typ, r.value.0))))
    case IfThenElse(c, a, b) =>
      var t := Compose(cat, fn, c, st);
      if t.Failure? then Failure(t.error)
      else
        var result := Local(t.value.1.next);
        var p := ComposeBranch(cat, fn, a, result, Bump(t.value.1));
        if p.Failure? then Failure(p.error)
        else
          var q := ComposeBranch(cat, fn, b, result, p.value);
          if q.Failure? then Failure(q.error)
          else Success((result, State(
              t.value.1.block + [Declare(result), Conditional(t.value.0, p.value.block, q.value.block)],
              q.value.next, q.value.marks)))
    case Apply(z, es) =>
      if z !in cat.funcs || |cat.funcs[z].params| != |es| then Failure("unknown function")
      else
        var r := ComposeAll(cat, fn, es, st);
        if r.Failure? then Failure(r.error)
        else
          var retval := Local(r.value.1.next);
          Success((retval, Evoke(cat, z, cat.funcs[z], retval, r.value.0, Bump(r.value.1))))
    case Unknown => Failure("unknown expression")
  }

  lemma IfIs(cat: Catalogue, fn: Zid, e: Expr, st: State)
    requires e.IfThenElse?
    ensures var r, t := Compose(cat, fn, e, st), Compose(cat, fn, e.test, st);
            if t.Failure? then r.Failure?
            else
              var result := Local(t.value.1.next);
              var p := Compose(cat, fn, e.thn, Bump(t.value.1).(block := []));
              if p.Failure? then r.Failure?
              else
                var yes := Emit(p.value.1, Assign(result, p.value.0));
                var q := Compose(cat, fn, e.els, yes.(block := []));
                if q.Failure? then r.Failure?
                else
                  var no := Emit(q.value.1, Assign(result, q.value.0));
                  r == Success((result, State(t.value.1.block +
                                              [Declare(result), Conditional(t.value.0, yes.block, no.block)], no.next,
                                              no.marks)))
  {
  }

  // A branch of a conditional: a block of its own that ends by assigning the result variable.
  function ComposeBranch(cat: Catalogue, fn: Zid, e: Expr, result: Variable, st: State): Result<State, string>
    decreases e, 1
  {
    var r := Compose(cat, fn, e, st.(block := []));
    if r.Failure? then Failure(r.error) else Success(Emit(r.value.1, Assign(result, r.value.0)))
  }

  function ComposeAll(cat: Catalogue, fn: Zid, es: seq<Expr>, st: State): (r: Result<(seq<Variable>, State), string>)
    ensures r.Success? ==> |r.value.0| == |es|
    decreases es
  {
    if es == [] then Success(([], st))
    else
      var p := Compose(cat, fn, es[0], st);
      if p.Failure? then Failure(p.error)
      else
        var q := ComposeAll(cat, fn, es[1..], p.value.1);
        if q.Failure? then Failure(q.error)
        else Success(([p.value.0] + q.value.0, q.value.1))
  }

  // ----- when reusing the source of a conversion is right -----

  // The type whose conversion from JavaScript produced the value of an expression.
  function HeadType(cat: Catalogue, e: Expr): Option<string> {
    match e
    case Echo(b) => HeadType(cat, b)
    case Untype(b) => HeadType(cat, b)
    case Apply(z, _) =>
      if z in cat.funcs && cat.funcs[z].kind.Native? && cat.funcs[z].rettype in cat.fromjs
      then Some(cat.funcs[z].rettype) else None
    case _ => None
  }

  // Converting to the native form of `typ` undoes converting from the native form of `from`.
  ghost predicate Inverse(h: Host, typ: string, from: string) {
    forall x: Value, y: Value :: h.convert(FromNative(from), x) == Some(y) ==> h.convert(ToNative(typ), y) == Some(x)
  }

  // What well-typed compositions and mutually inverse converters give: wherever the result of native code
  // is passed straight to native code, the two converters cancel.
  ghost predicate Cancels(h: Host, cat: Catalogue, e: Expr)
    decreases e
  {
    match e
    case ListOf(_, es) => forall i :: 0 <= i < |es| ==> Cancels(h, cat, es[i])
    case IfThenElse(c, a, b) => Cancels(h, cat, c) && Cancels(h, cat, a) && Cancels(h, cat, b)
    case Echo(b) => Cancels(h, cat, b)
    case Untype(b) => Cancels(h, cat, b)
    case Apply(z, es) =>
      && (forall i :: 0 <= i < |es| ==> Cancels(h, cat, es[i]))
      && (z in cat.funcs && cat.funcs[z].kind.Native? && |cat.funcs[z].params| == |es| ==>
            ArgumentsCancel(h, cat, cat.funcs[z].params, es))
    case _ => true
  }

  ghost predicate ArgumentsCancel(h: Host, cat: Catalogue, params: seq<Param>, es: seq<Expr>)
    requires |params| == |es|
  {
    forall i :: 0 <= i < |es| && params[i].typ in cat.tojs && HeadType(cat, es[i]).Some? ==>
      Inverse(h, params[i].typ, HeadType(cat, es[i]).value)
  }
}
