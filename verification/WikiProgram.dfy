/**
  Whole programs: what a catalogue of functions means, what the emitted program does, and that the second
  agrees with the first (wikifunc/wikifunc.js:642-740).
 */
module WikiProgram {
  import opened Common
  import opened WikiIR
  import opened WikiRun
  import opened WikiCse
  import opened WikiMerge
  import opened WikiCseRun
  import opened WikiConst
  import opened WikiDce
  import opened WikiCompose
  import opened WikiComposeProof
  import opened WikiComposeShape
  import opened WikiComposeMarks

  // ----- binding arguments -----

  function BindArgs(params: seq<Param>, vals: seq<Value>): Args
    requires |params| == |vals|
  {
    if params == [] then map[] else map[params[0].name := vals[0]] + BindArgs(params[1..], vals[1..])
  }

  function Bind(z: Zid, params: seq<Param>, vals: seq<Value>): Env
    requires |params| == |vals|
  {
    if params == [] then map[] else map[Formal(z, params[0].name) := vals[0]] + Bind(z, params[1..], vals[1..])
  }

  lemma {:induction false} BindAgrees(z: Zid, params: seq<Param>, vals: seq<Value>)
    requires |params| == |vals|
    ensures var e, a := Bind(z, params, vals), BindArgs(params, vals);
            forall name :: (name in a <==> Formal(z, name) in e) && (name in a ==> e[Formal(z, name)] == a[name])
    ensures HasArgs(Bind(z, params, vals), z, BindArgs(params, vals))
  {
    if params != [] {
      BindAgrees(z, params[1..], vals[1..]);
      assert forall name :: Formal(z, name) == Formal(z, params[0].name) <==> name == params[0].name;
    }
  }

  lemma {:induction false} BindKeys(z: Zid, params: seq<Param>, vals: seq<Value>)
    requires |params| == |vals|
    ensures Bind(z, params, vals).Keys == set p | p in params :: Formal(z, p.name)
  {
    if params != [] {
      BindKeys(z, params[1..], vals[1..]);
      assert params == [params[0]] + params[1..];
    }
  }

  // ----- meaning of functions, by nesting depth of composition calls -----

  function Meaning(h: Host, cat: Catalogue, depth: nat): Oracle
    decreases depth, 1
  {
    (z: Zid, vals: seq<Value>) => MeaningOf(h, cat, depth, z, vals)
  }

  function MeaningOf(h: Host, cat: Catalogue, depth: nat, z: Zid, vals: seq<Value>): Option<Value>
    decreases depth, 0
  {
    if z !in cat.funcs || |cat.funcs[z].params| != |vals| then None
    else
      match cat.funcs[z].kind
      case Native => h.native(z, vals)
      case BuiltIn => None
      case Composition =>
        if depth == 0 then None
        else Eval(h, Meaning(h, cat, depth - 1), cat, cat.funcs[z].body, BindArgs(cat.funcs[z].params, vals))
  }

  type Code = map<Zid, seq<Node>>

  function Calls(h: Host, cat: Catalogue, code: Code, depth: nat): Oracle
    decreases depth, 1
  {
    (z: Zid, vals: seq<Value>) => CallOf(h, cat, code, depth, z, vals)
  }

  // What calling a function of the emitted program does. For a built-in only a comment is emitted.
  function CallOf(h: Host, cat: Catalogue, code: Code, depth: nat, z: Zid, vals: seq<Value>): Option<Value>
    decreases depth, 0
  {
    if z !in cat.funcs || |cat.funcs[z].params| != |vals| then None
    else
      match cat.funcs[z].kind
      case Native => h.native(z, vals)
      case BuiltIn => None
      case Composition =>
        if depth == 0 || z !in code then None
        else
          var o := Run(h, Calls(h, cat, code, depth - 1), code[z], Bind(z, cat.funcs[z].params, vals));
          if o.Returned? then Some(o.value) else None
  }

  // ----- one function body through all passes -----

  // The block composition emits for a whole body, starting from an empty block.
  function Raw(cat: Catalogue, z: Zid, e: Expr, st: State): Result<State, string> {
    var r := Compose(cat, z, e, st.(block := []));
    if r.Failure? then Failure(r.error) else Success(Emit(r.value.1, Return(r.value.0)))
  }

  // What the first two passes make of a body.
  function Converted(h: Host, raw: seq<Node>, marks: Marks): seq<Node> {
    ConvertConstants(h, marks, Cse(h, [], raw, []))
  }

  function Optimize(rule: ListRule, h: Host, raw: seq<Node>, marks: Marks, live: set<Variable>): (seq<Node>,
      set<Variable>) {
    Dce(rule, Converted(h, raw, marks), live)
  }

  /** The conditions under which the passes keep the meaning of a body; each is exact for its pass. */
  ghost predicate Conditions(rule: ListRule, h: Host, raw: seq<Node>, marks: Marks, live: set<Variable>,
                             def: set<Variable>) {
    && ScopeSafe(h, {}, raw)
    && Removed(h, [], raw, []) !! Tests(raw)
    && NumbersAgree(h, marks, def + AllDefs(raw))
    && Eligible(rule, Converted(h, raw, marks), live, def)
  }

  lemma OptimizeCorrect(rule: ListRule, h: Host, call: Oracle, raw: seq<Node>, marks: Marks, live: set<Variable>,
                        env: Env)
    requires Wf(raw, env.Keys, None, None) && Marked(raw, marks) && MarksHold(h, env, marks)
    requires Conditions(rule, h, raw, marks, live, env.Keys)
    requires Run(h, call, raw, env).Returned?
    ensures Run(h, call, Optimize(rule, h, raw, marks, live).0, env) == Run(h, call, raw, env)
  {
    var c := Cse(h, [], raw, []);
    CsePreservesMeaning(h, call, raw, env);
    CseScopedIffTestsKept(h, raw, env.Keys);
    CseMarked(h, [], raw, [], marks);
    CseDefs(h, [], raw, []);
    ConvertPreservesMeaning(h, call, marks, c, env.Keys, None, None, env, env.Keys + AllDefs(raw));
    ConvertWf(h, marks, c, env.Keys, None, None);
    DcePreservesMeaning(rule, h, call, ConvertConstants(h, marks, c), live, env);
  }

  lemma ReturnShape(st: State, r: State, v: Variable, def: set<Variable>, after: set<Variable>)
    requires st.block == [] && Shape(st, r, def, after) && v in after && Static(st, def)
    ensures Wf(Emit(r, Return(v)).block, def, None, None)
  {
    var l := Return(v);
    assert Added(st, r) == r.block && [l][1..] == [];
    OneNode(l);
    AllDefsAppend(r.block, [l]);
    ScopedAppend(r.block, [l], def, None, None);
    UniqueAppend(r.block, [l]);
  }

  // The code of function z comes from composing its body at `start`.
  ghost predicate Comes(rule: ListRule, h: Host, cat: Catalogue, z: Zid, start: State, marks: Marks,
                        live: set<Variable>, code: seq<Node>) {
    && z in cat.funcs && MarksBelow(start)
    && var raw := Raw(cat, z, cat.funcs[z].body, start);
       raw.Success? && Agrees(marks, raw.value) && code == Optimize(rule, h, raw.value.block, marks, live).0
  }

  // Before the passes: the emitted body is well formed, correctly marked, and returns the value.
  lemma RawCorrect(h: Host, call: Oracle, cat: Catalogue, z: Zid, start: State, marks: Marks, vals: seq<Value>)
    requires z in cat.funcs && MarksBelow(start) && |cat.funcs[z].params| == |vals|
    requires Raw(cat, z, cat.funcs[z].body, start).Success? && Cancels(h, cat, cat.funcs[z].body)
    requires Agrees(marks, Raw(cat, z, cat.funcs[z].body, start).value)
    requires Eval(h, call, cat, cat.funcs[z].body, BindArgs(cat.funcs[z].params, vals)).Some?
    ensures var f := cat.funcs[z];
            var raw, env := Raw(cat, z, f.body, start).value.block, Bind(z, f.params, vals);
            && Wf(raw, env.Keys, None, None) && Marked(raw, marks) && MarksHold(h, env, marks)
            && Run(h, call, raw, env) == Returned(Eval(h, call, cat, f.body, BindArgs(f.params, vals)).value)
  {
    var f := cat.funcs[z];
    var env, args := Bind(z, f.params, vals), BindArgs(f.params, vals);
    BindAgrees(z, f.params, vals);
    BindKeys(z, f.params, vals);
    var empty := start.(block := []);
    var r := Compose(cat, z, f.body, empty).value;
    RawRuns(h, call, cat, z, f.body, args, empty, env);
    RawWf(cat, z, start, marks, env.Keys);
  }

  lemma RawRuns(h: Host, call: Oracle, cat: Catalogue, z: Zid, e: Expr, args: Args, empty: State, env: Env)
    requires empty.block == [] && Compose(cat, z, e, empty).Success? && Eval(h, call, cat, e, args).Some?
    requires Ok(h, cat, z, args, empty, env) && Cancels(h, cat, e)
    ensures Raw(cat, z, e, empty).Success?
    ensures Run(h, call, Raw(cat, z, e, empty).value.block, env) == Returned(Eval(h, call, cat, e, args).value)
  {
    var r := Compose(cat, z, e, empty).value;
    var env' := ComposeCorrect(h, call, cat, z, e, args, empty, env);
    assert Added(empty, r.1) == r.1.block;
    RunAppend(h, call, r.1.block, [Return(r.0)], env);
    RunOne(h, call, Return(r.0), env');
  }

  lemma RawWf(cat: Catalogue, z: Zid, start: State, marks: Marks, def: set<Variable>)
    requires z in cat.funcs && MarksBelow(start) && def == Formals(z, cat)
    requires Raw(cat, z, cat.funcs[z].body, start).Success?
    requires Agrees(marks, Raw(cat, z, cat.funcs[z].body, start).value)
    ensures var raw := Raw(cat, z, cat.funcs[z].body, start).value.block;
            Wf(raw, def, None, None) && Marked(raw, marks)
  {
    var f, empty := cat.funcs[z], start.(block := []);
    var r := Compose(cat, z, f.body, empty).value;
    assert FormalsReadable(cat, z, def);
    var after := ComposeShape(cat, z, f.body, empty, def);
    ReturnShape(empty, r.1, r.0, def, after);
    assert Added(empty, r.1) == r.1.block;
    ComposeMarked(cat, z, f.body, empty, marks);
    MarkedPush(r.1.block, Return(r.0), marks);
  }

  function Formals(z: Zid, cat: Catalogue): set<Variable>
    requires z in cat.funcs
  {
    set p | p in cat.funcs[z].params :: Formal(z, p.name)
  }

  /** One body, all passes: if the composition has a value, the final code returns it. */
  lemma BodyCorrect(rule: ListRule, h: Host, call: Oracle, cat: Catalogue, z: Zid, start: State, marks: Marks,
                    live: set<Variable>,
                    code: seq<Node>, vals: seq<Value>)
    requires Comes(rule, h, cat, z, start, marks, live, code)
    requires |cat.funcs[z].params| == |vals| && Cancels(h, cat, cat.funcs[z].body)
    requires Conditions(rule, h, Raw(cat, z, cat.funcs[z].body, start).value.block, marks, live, Formals(z, cat))
    requires Eval(h, call, cat, cat.funcs[z].body, BindArgs(cat.funcs[z].params, vals)).Some?
    ensures Run(h, call, code, Bind(z, cat.funcs[z].params, vals)) ==
            Returned(Eval(h, call, cat, cat.funcs[z].body, BindArgs(cat.funcs[z].params, vals)).value)
  {
    RawCorrect(h, call, cat, z, start, marks, vals);
    BindKeys(z, cat.funcs[z].params, vals);
    OptimizeCorrect(rule, h, call, Raw(cat, z, cat.funcs[z].body, start).value.block, marks, live,
                    Bind(z, cat.funcs[z].params, vals));
  }

  // ----- the whole program -----

  function Callees(e: Expr): set<Zid>
    decreases e
  {
    match e
    case ListOf(_, es) => CalleesOfAll(es)
    case IfThenElse(c, a, b) => Callees(c) + Callees(a) + Callees(b)
    case Echo(b) => Callees(b)
    case Untype(b) => Callees(b)
    case Apply(z, es) => {z} + CalleesOfAll(es)
    case _ => {}
  }

  function CalleesOfAll(es: seq<Expr>): set<Zid>
    decreases es
  {
    if es == [] then {} else Callees(es[0]) + CalleesOfAll(es[1..])
  }

  // Every composition called by the code is part of it.
  ghost predicate Closed(cat: Catalogue, loaded: set<Zid>) {
    && loaded <= cat.funcs.Keys
    && forall z :: z in loaded && cat.funcs[z].kind.Composition? ==> Callees(cat.funcs[z].body) <= loaded
  }

  lemma {:induction false} EvalSame(h: Host, a: Oracle, b: Oracle, cat: Catalogue, e: Expr, args: Args)
    requires forall z: Zid, vs: seq<Value> :: z in Callees(e) && a(z, vs).Some? ==> b(z, vs) == a(z, vs)
    requires Eval(h, a, cat, e, args).Some?
    ensures Eval(h, b, cat, e, args) == Eval(h, a, cat, e, args)
    decreases e
  {
    match e
    case ListOf(_, es) => EvalAllSame(h, a, b, cat, es, args);
    case IfThenElse(c, p, q) =>
      EvalSame(h, a, b, cat, c, args);
      EvalSame(h, a, b, cat, if Truthy(h, Eval(h, a, cat, c, args).value) then p else q, args);
    case Echo(p) => EvalSame(h, a, b, cat, p, args);
    case Untype(p) => EvalSame(h, a, b, cat, p, args);
    case Apply(z, es) => EvalAllSame(h, a, b, cat, es, args);
    case _ =>
  }

  lemma {:induction false} EvalAllSame(h: Host, a: Oracle, b: Oracle, cat: Catalogue, es: seq<Expr>, args: Args)
    requires forall z: Zid, vs: seq<Value> :: z in CalleesOfAll(es) && a(z, vs).Some? ==> b(z, vs) == a(z, vs)
    requires EvalAll(h, a, cat, es, args).Some?
    ensures EvalAll(h, b, cat, es, args) == EvalAll(h, a, cat, es, args)
    decreases es
  {
    if es != [] {
      EvalSame(h, a, b, cat, es[0], args);
      EvalAllSame(h, a, b, cat, es[1..], args);
    }
  }

  /** An emitted program: its functions, how each body was produced, the marks on constants, and everything
      that was loaded. */
  datatype Program = Program(code: Code, starts: map<Zid, State>, lives: map<Zid, set<Variable>>, marks: Marks,
                             loaded: set<Zid>)

  ghost predicate Emitted(rule: ListRule, h: Host, cat: Catalogue, p: Program) {
    && Closed(cat, p.loaded) && p.code.Keys == p.starts.Keys == p.lives.Keys
    && (forall z :: z in p.code <==> z in p.loaded && cat.funcs[z].kind.Composition?)
    && forall z :: z in p.code ==> Comes(rule, h, cat, z, p.starts[z], p.marks, p.lives[z], p.code[z])
  }

  // The hypotheses of the compiler's correctness, for every emitted function.
  ghost predicate Supported(rule: ListRule, h: Host, cat: Catalogue, p: Program)
    requires Emitted(rule, h, cat, p)
  {
    forall z :: z in p.code ==>
      && Cancels(h, cat, cat.funcs[z].body)
      && Conditions(rule, h, Raw(cat, z, cat.funcs[z].body, p.starts[z]).value.block, p.marks, p.lives[z],
                    Formals(z, cat))
  }

  // The meaning of the loaded functions only.
  function Known(h: Host, cat: Catalogue, loaded: set<Zid>, depth: nat): Oracle {
    (z: Zid, vals: seq<Value>) => if z in loaded then MeaningOf(h, cat, depth, z, vals) else None
  }

  // One level of calls: the inner calls of the code are at least as good as the known meanings.
  lemma CallCorrect(rule: ListRule, h: Host, cat: Catalogue, p: Program, depth: nat, z: Zid, vals: seq<Value>)
    requires Emitted(rule, h, cat, p) && Supported(rule, h, cat, p)
    requires z in p.loaded && z in p.code && cat.funcs[z].kind.Composition? && depth > 0
    requires MeaningOf(h, cat, depth, z, vals).Some?
    requires Refines(Known(h, cat, p.loaded, depth - 1), Calls(h, cat, p.code, depth - 1))
    ensures CallOf(h, cat, p.code, depth, z, vals) == MeaningOf(h, cat, depth, z, vals)
  {
    var f, known := cat.funcs[z], Known(h, cat, p.loaded, depth - 1);
    EvalSame(h, Meaning(h, cat, depth - 1), known, cat, f.body, BindArgs(f.params, vals));
    BodyCorrect(rule, h, known, cat, z, p.starts[z], p.marks, p.lives[z], p.code[z], vals);
    RunMonotone(h, known, Calls(h, cat, p.code, depth - 1), p.code[z], Bind(z, f.params, vals));
  }

  lemma OneCall(rule: ListRule, h: Host, cat: Catalogue, p: Program, depth: nat, z: Zid, vals: seq<Value>)
    requires Emitted(rule, h, cat, p) && Supported(rule, h, cat, p)
    requires Known(h, cat, p.loaded, depth)(z, vals).Some?
    requires depth > 0 ==> Refines(Known(h, cat, p.loaded, depth - 1), Calls(h, cat, p.code, depth - 1))
    ensures Calls(h, cat, p.code, depth)(z, vals) == Known(h, cat, p.loaded, depth)(z, vals)
  {
    if cat.funcs[z].kind.Composition? {
      CallCorrect(rule, h, cat, p, depth, z, vals);
    }
  }

  lemma {:induction false} ProgramRefines(rule: ListRule, h: Host, cat: Catalogue, p: Program, depth: nat)
    requires Emitted(rule, h, cat, p) && Supported(rule, h, cat, p)
    ensures Refines(Known(h, cat, p.loaded, depth), Calls(h, cat, p.code, depth))
    decreases depth
  {
    if depth > 0 {
      ProgramRefines(rule, h, cat, p, depth - 1);
    }
    forall z: Zid, vals: seq<Value> | Known(h, cat, p.loaded, depth)(z, vals).Some?
      ensures Calls(h, cat, p.code, depth)(z, vals) == Known(h, cat, p.loaded, depth)(z, vals)
    {
      OneCall(rule, h, cat, p, depth, z, vals);
    }
  }

  /** Compiler correctness: at every depth of composition calls, recursive or not, a call of the emitted
      program returns what the called function means. */
  lemma ProgramCorrect(rule: ListRule, h: Host, cat: Catalogue, p: Program, depth: nat, z: Zid, vals: seq<Value>)
    requires Emitted(rule, h, cat, p) && Supported(rule, h, cat, p)
    requires z in p.loaded && MeaningOf(h, cat, depth, z, vals).Some?
    ensures CallOf(h, cat, p.code, depth, z, vals) == MeaningOf(h, cat, depth, z, vals)
  {
    ProgramRefines(rule, h, cat, p, depth);
    assert Known(h, cat, p.loaded, depth)(z, vals) == MeaningOf(h, cat, depth, z, vals);
    assert Calls(h, cat, p.code, depth)(z, vals) == CallOf(h, cat, p.code, depth, z, vals);
  }

  // ----- the main body -----

  // The code of the compiled function itself: evoke it on its arguments and return the result.
  function MainState(cat: Catalogue, z: Zid, f: Func, count: nat): State
    requires |f.params| == count
  {
    Evoke(cat, z, f, Local(count), MainArgs(count), State([], count + 1, map[]))
  }

  function MainRaw(cat: Catalogue, z: Zid, f: Func, count: nat): seq<Node>
    requires |f.params| == count
  {
    MainState(cat, z, f, count).block + [Return(Local(count))]
  }

  function MainEnd(cat: Catalogue, z: Zid, f: Func, count: nat): nat
    requires |f.params| == count
  {
    MainState(cat, z, f, count).next
  }

  function MainArgs(count: nat): (r: seq<Variable>)
    ensures |r| == count
  {
    seq(count, i requires 0 <= i < count => Local(i))
  }

  function BindMain(vals: seq<Value>): Env {
    map i: nat | i < |vals| :: Local(i) := vals[i]
  }

  /** The compiled function: started with arguments in the first local variables, the emitted main body
      returns what invoking the function means. Later functions own all marked variables. */
  lemma MainCorrect(rule: ListRule, h: Host, cat: Catalogue, p: Program, z: Zid, live: set<Variable>, depth: nat,
                    vals: seq<Value>)
    requires Emitted(rule, h, cat, p) && Supported(rule, h, cat, p) && z in p.loaded && |cat.funcs[z].params| == |vals|
    requires UnmarkedBelow(p.marks, MainEnd(cat, z, cat.funcs[z], |vals|))
    requires Conditions(rule, h, MainRaw(cat, z, cat.funcs[z], |vals|), p.marks, live, BindMain(vals).Keys)
    requires Invoke(h, Meaning(h, cat, depth), cat, z, cat.funcs[z], vals).Some?
    ensures Run(h, Calls(h, cat, p.code, depth),
                Optimize(rule, h, MainRaw(cat, z, cat.funcs[z], |vals|), p.marks, live).0, BindMain(vals)) ==
            Returned(Invoke(h, Meaning(h, cat, depth), cat, z, cat.funcs[z], vals).value)
  {
    var f, env := cat.funcs[z], BindMain(vals);
    var known := Known(h, cat, p.loaded, depth);
    MainRawCorrect(h, known, cat, z, f, vals, p.marks);
    ProgramRefines(rule, h, cat, p, depth);
    var raw := MainRaw(cat, z, f, |vals|);
    OptimizeCorrect(rule, h, known, raw, p.marks, live, env);
    RunMonotone(h, known, Calls(h, cat, p.code, depth), Optimize(rule, h, raw, p.marks, live).0, env);
  }

  // The marks do not concern variables created before `next`.
  ghost predicate UnmarkedBelow(marks: Marks, next: nat) {
    forall v :: v in marks ==> v.Local? && v.id >= next
  }

  lemma MainRawCorrect(h: Host, call: Oracle, cat: Catalogue, z: Zid, f: Func, vals: seq<Value>, marks: Marks)
    requires |f.params| == |vals| && Invoke(h, call, cat, z, f, vals).Some?
    requires UnmarkedBelow(marks, MainEnd(cat, z, f, |vals|))
    ensures var raw, env := MainRaw(cat, z, f, |vals|), BindMain(vals);
            && Run(h, call, raw, env) == Returned(Invoke(h, call, cat, z, f, vals).value)
            && Wf(raw, env.Keys, None, None) && Marked(raw, marks) && MarksHold(h, env, marks)
  {
    var args, st, env := MainArgs(|vals|), State([], |vals|, map[]), BindMain(vals);
    forall i | 0 <= i < |args|
      ensures args[i] in env && env[args[i]] == vals[i]
    {
      assert args[i] == Local(i);
    }
    MainRuns(h, call, cat, z, f, args, st, vals, env);
    MainWf(cat, z, f, |vals|, marks, env.Keys);
    EvokeGrows(cat, z, f, Local(|vals|), args, Bump(st));
  }

  lemma MainWf(cat: Catalogue, z: Zid, f: Func, count: nat, marks: Marks, def: set<Variable>)
    requires |f.params| == count && UnmarkedBelow(marks, MainEnd(cat, z, f, count))
    requires forall v :: v in def <==> v in MainArgs(count)
    ensures Wf(MainRaw(cat, z, f, count), def, None, None) && Marked(MainRaw(cat, z, f, count), marks)
  {
    var args, st := MainArgs(count), State([], count, map[]);
    var s := MainState(cat, z, f, count);
    var after := EvokeShape(cat, z, f, args, st, def);
    ReturnShape(st, s, Local(count), def, after);
    EvokeMarked(cat, z, f, Local(count), args, Bump(st), marks);
    assert Added(Bump(st), s) == s.block;
    MarkedPush(s.block, Return(Local(count)), marks);
  }

  lemma MainRuns(h: Host, call: Oracle, cat: Catalogue, z: Zid, f: Func, args: seq<Variable>, st: State,
                 vals: seq<Value>, env: Env)
    requires |f.params| == |vals| && args == MainArgs(|vals|)
    requires st == State([], |vals|, map[]) && env == BindMain(vals)
    requires Holding(env, args, vals) && Invoke(h, call, cat, z, f, vals).Some?
    ensures Run(h, call, MainRaw(cat, z, f, |vals|), env) == Returned(Invoke(h, call, cat, z, f, vals).value)
  {
    var s := Evoke(cat, z, f, Local(st.next), args, Bump(st));
    var env' := MainEvoke(h, call, cat, z, f, args, st, vals, env);
    RunAppend(h, call, s.block, [Return(Local(st.next))], env);
    RunOne(h, call, Return(Local(st.next)), env');
  }

  lemma MainEvoke(h: Host, call: Oracle, cat: Catalogue, z: Zid, f: Func, args: seq<Variable>, st: State,
                  vals: seq<Value>, env: Env) returns (env': Env)
    requires |f.params| == |args| == |vals| && st == State([], |vals|, map[]) && env == BindMain(vals)
    requires Holding(env, args, vals) && Invoke(h, call, cat, z, f, vals).Some?
    ensures Run(h, call, Evoke(cat, z, f, Local(st.next), args, Bump(st)).block, env) == Running(env')
    ensures Local(st.next) in env' && env'[Local(st.next)] == Invoke(h, call, cat, z, f, vals).value
  {
    var es := seq(|args|, i requires 0 <= i < |args| => Unknown);
    MainReady(h, cat, f.params, args, es, st, env);
    env' := EvokeCorrect(h, call, cat, z, f, Local(st.next), args, es, vals, Bump(st), env);
    var s := Evoke(cat, z, f, Local(st.next), args, Bump(st));
    assert Added(Bump(st), s) == s.block;
  }

  // Nothing has been converted yet, so no conversion can be elided.
  lemma MainReady(h: Host, cat: Catalogue, params: seq<Param>, args: seq<Variable>, es: seq<Expr>, st: State, env: Env)
    requires |params| == |args| == |es| && (forall e :: e in es ==> e.Unknown?) && st.block == []
    requires forall v :: v in env ==> v.Local? && v.id < st.next
    ensures ArgumentsCancel(h, cat, params, es) && Matches(h, Bump(st), env)
    ensures forall i :: 0 <= i < |es| ==> Origin(Bump(st).block, args[i], HeadType(cat, es[i]))
  {
    forall i | 0 <= i < |es|
      ensures HeadType(cat, es[i]) == None && Origin(Bump(st).block, args[i], None)
    {
      assert es[i] in es;
    }
  }
}
