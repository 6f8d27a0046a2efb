/** Emitted code computes what the composition means, and has the shape the passes expect. */
module WikiComposeProof {
  import opened Common
  import opened WikiIR
  import opened WikiRun
  import opened WikiCse
  import opened WikiConst
  import opened WikiCompose

  // ----- bookkeeping of emission -----

  // Local variables created between two points of a compilation.
  ghost predicate InRange(vs: set<Variable>, lo: nat, hi: nat) {
    forall v :: v in vs ==> v.Local? && lo <= v.id < hi
  }

  ghost predicate Below(v: Variable, next: nat) {
    v.Local? ==> v.id < next
  }

  // Going from `st` to `st'` only appends to the block; new conversions create new variables.
  ghost predicate Grows(st: State, st': State) {
    && st.next <= st'.next && |st.block| <= |st'.block| && st'.block[..|st.block|] == st.block
    && forall n :: n in st'.block[|st.block|..] && n.Convert? ==> n.dst.Local? && st.next <= n.dst.id < st'.next
  }

  function Added(st: State, st': State): seq<Node>
    requires |st.block| <= |st'.block|
  {
    st'.block[|st.block|..]
  }

  lemma GrowsTransitive(a: State, b: State, c: State)
    requires Grows(a, b) && Grows(b, c)
    ensures Grows(a, c) && Added(a, c) == Added(a, b) + Added(b, c)
  {
    assert c.block == c.block[..|b.block|] + c.block[|b.block|..];
    assert c.block[..|a.block|] == b.block[..|a.block|];
    assert Added(a, c) == Added(a, b) + Added(b, c);
  }

  lemma GrowsEmit(st: State, n: Node, next: nat)
    requires st.next <= next && (n.Convert? ==> n.dst.Local? && st.next <= n.dst.id < next)
    ensures var st' := Emit(st, n).(next := next); Grows(st, st') && Added(st, st') == [n]
  {
  }

  lemma {:induction false} NativeArgsGrows(cat: Catalogue, params: seq<Param>, args: seq<Variable>, st: State)
    requires |params| == |args|
    ensures Grows(st, NativeArgs(cat, params, args, st).1)
    ensures NativeArgs(cat, params, args, st).1.marks == st.marks
  {
    if args != [] {
      var p := NativeArg(cat, params[0].typ, args[0], st).1;
      NativeArgsGrows(cat, params[1..], args[1..], p);
      GrowsTransitive(st, p, NativeArgs(cat, params, args, st).1);
    }
  }

  // The result variable is the only variable from before the call that it creates.
  lemma EvokeGrows(cat: Catalogue, z: Zid, f: Func, retval: Variable, args: seq<Variable>, st: State)
    requires |f.params| == |args| && st.next > 0 && retval == Local(st.next - 1)
    ensures Grows(st.(next := st.next - 1), Evoke(cat, z, f, retval, args, st))
    ensures Evoke(cat, z, f, retval, args, st).marks == st.marks && Evoke(cat, z, f, retval, args, st).next >= st.next
  {
    if f.kind.Native? {
      NativeArgsGrows(cat, f.params, args, st);
    }
  }

  lemma {:induction false} ComposeGrows(cat: Catalogue, fn: Zid, e: Expr, st: State)
    requires Compose(cat, fn, e, st).Success?
    ensures var r := Compose(cat, fn, e, st).value; Grows(st, r.1) && Below(r.0, r.1.next)
    decreases e, 0
  {
    match e
    case Echo(b) => ComposeGrows(cat, fn, b, st);
    case Untype(b) => ComposeGrows(cat, fn, b, st);
    case ListOf(typ, es) =>
      ComposeAllGrows(cat, fn, es, Bump(st));
    case IfThenElse(c, a, b) =>
      ComposeGrows(cat, fn, c, st);
      var t := Compose(cat, fn, c, st).value;
      var result := Local(t.1.next);
      ComposeGrows(cat, fn, a, Bump(t.1).(block := []));
      var p := ComposeBranch(cat, fn, a, result, Bump(t.1)).value;
      ComposeGrows(cat, fn, b, p.(block := []));
      var r := Compose(cat, fn, e, st).value.1;
      assert r.block == t.1.block + r.block[|t.1.block|..];
      assert Grows(t.1, r);
      GrowsTransitive(st, t.1, r);
    case Apply(z, es) =>
      ComposeAllGrows(cat, fn, es, st);
      var r := ComposeAll(cat, fn, es, st).value;
      EvokeGrows(cat, z, cat.funcs[z], Local(r.1.next), r.0, Bump(r.1));
      GrowsTransitive(st, r.1, Compose(cat, fn, e, st).value.1);
    case _ =>
  }

  lemma {:induction false} ComposeAllGrows(cat: Catalogue, fn: Zid, es: seq<Expr>, st: State)
    requires ComposeAll(cat, fn, es, st).Success?
    ensures var r := ComposeAll(cat, fn, es, st).value;
            Grows(st, r.1) && forall v :: v in r.0 ==> Below(v, r.1.next)
    decreases es, 0
  {
    if es != [] {
      ComposeGrows(cat, fn, es[0], st);
      var p := Compose(cat, fn, es[0], st).value;
      ComposeAllGrows(cat, fn, es[1..], p.1);
      GrowsTransitive(st, p.1, ComposeAll(cat, fn, es, st).value.1);
    }
  }

  // ----- where an argument's value was converted from -----

  // A conversion that produced `v` comes from the native code at the head of its expression.
  ghost predicate Origin(block: seq<Node>, v: Variable, head: Option<string>) {
    forall n :: n in block && n.Convert? && n.dst == v ==> head.Some? && n.conv == FromNative(head.value)
  }

  ghost predicate ConvertsBelow(st: State) {
    forall n :: n in st.block && n.Convert? ==> n.dst.Local? && n.dst.id < st.next
  }

  lemma GrowsKeeps(st: State, st': State, v: Variable, head: Option<string>)
    requires Grows(st, st') && ConvertsBelow(st)
    ensures ConvertsBelow(st')
    ensures Below(v, st.next) && Origin(st.block, v, head) ==> Origin(st'.block, v, head)
  {
    assert st'.block == st.block + Added(st, st');
  }

  // Only a native call with a converter leaves its result variable at the end of a conversion.
  lemma EvokeOrigin(cat: Catalogue, z: Zid, f: Func, retval: Variable, args: seq<Variable>, st: State)
    requires |f.params| == |args| && st.next > 0 && retval == Local(st.next - 1)
    requires forall n :: n in st.block && n.Convert? ==> n.dst != retval
    ensures forall n :: n in Evoke(cat, z, f, retval, args, st).block && n.Convert? && n.dst == retval ==>
              f.kind.Native? && f.rettype in cat.fromjs && n.conv == FromNative(f.rettype)
  {
    if f.kind.Native? {
      NativeArgsGrows(cat, f.params, args, st);
      var p := NativeArgs(cat, f.params, args, st).1;
      assert p.block == st.block + Added(st, p);
    }
  }

  lemma {:induction false} ComposeOrigin(cat: Catalogue, fn: Zid, e: Expr, st: State)
    requires Compose(cat, fn, e, st).Success? && ConvertsBelow(st)
    ensures var r := Compose(cat, fn, e, st).value;
            ConvertsBelow(r.1) && Origin(r.1.block, r.0, HeadType(cat, e))
    decreases e
  {
    ComposeGrows(cat, fn, e, st);
    var r := Compose(cat, fn, e, st).value;
    GrowsKeeps(st, r.1, r.0, None);
    match e
    case Echo(b) => ComposeOrigin(cat, fn, b, st);
    case Untype(b) => ComposeOrigin(cat, fn, b, st);
    case ListOf(typ, es) =>
      ComposeAllGrows(cat, fn, es, Bump(st));
      var q := ComposeAll(cat, fn, es, Bump(st)).value.1;
      assert q.block == st.block + Added(Bump(st), q);
    case IfThenElse(c, a, b) =>
      ComposeGrows(cat, fn, c, st);
      GrowsKeeps(st, Compose(cat, fn, c, st).value.1, r.0, None);
    case Apply(z, es) =>
      ComposeAllGrows(cat, fn, es, st);
      var q := ComposeAll(cat, fn, es, st).value;
      GrowsKeeps(st, q.1, r.0, None);
      EvokeOrigin(cat, z, cat.funcs[z], r.0, q.0, Bump(q.1));
    case _ =>
  }

  lemma {:induction false} ComposeAllOrigin(cat: Catalogue, fn: Zid, es: seq<Expr>, st: State)
    requires ComposeAll(cat, fn, es, st).Success? && ConvertsBelow(st)
    ensures var r := ComposeAll(cat, fn, es, st).value;
            && ConvertsBelow(r.1)
            && forall i :: 0 <= i < |es| ==> Origin(r.1.block, r.0[i], HeadType(cat, es[i])) && Below(r.0[i], r.1.next)
    decreases es
  {
    if es != [] {
      ComposeOrigin(cat, fn, es[0], st);
      ComposeGrows(cat, fn, es[0], st);
      var p := Compose(cat, fn, es[0], st).value;
      ComposeAllOrigin(cat, fn, es[1..], p.1);
      ComposeAllGrows(cat, fn, es[1..], p.1);
      var q := ComposeAll(cat, fn, es[1..], p.1).value;
      GrowsKeeps(p.1, q.1, p.0, HeadType(cat, es[0]));
      var r := ComposeAll(cat, fn, es, st).value;
      forall i | 0 <= i < |es|
        ensures Origin(r.1.block, r.0[i], HeadType(cat, es[i])) && Below(r.0[i], r.1.next)
      {
        if i > 0 {
          assert r.0[i] == q.0[i - 1] && es[i] == es[1..][i - 1];
        }
      }
    }
  }

  // ----- meaning -----

  // The environment after the code so far: nothing from the future, and every conversion done so far
  // still relates its two variables.
  ghost predicate Matches(h: Host, st: State, env: Env) {
    && (forall v :: v in env ==> Below(v, st.next))
    && ConvertsBelow(st)
    && forall n :: n in st.block && n.Convert? ==>
         n.src in env && n.dst in env && h.convert(n.conv, env[n.src]) == Some(env[n.dst])
  }

  ghost predicate HasArgs(env: Env, fn: Zid, args: Args) {
    forall name :: name in args ==> Formal(fn, name) in env && env[Formal(fn, name)] == args[name]
  }

  ghost predicate SubEnv(e: Env, f: Env) {
    forall v :: v in e ==> v in f && f[v] == e[v]
  }

  // Running the code added between two states takes one environment to a larger one.
  ghost predicate Reaches(h: Host, call: Oracle, st: State, env: Env, st': State, env': Env) {
    && Grows(st, st') && Run(h, call, Added(st, st'), env) == Running(env')
    && SubEnv(env, env') && Matches(h, st', env')
  }

  lemma ReachesTransitive(h: Host, call: Oracle, a: State, e: Env, b: State, f: Env, c: State, g: Env)
    requires Reaches(h, call, a, e, b, f) && Reaches(h, call, b, f, c, g)
    ensures Reaches(h, call, a, e, c, g)
  {
    GrowsTransitive(a, b, c);
    RunAppend(h, call, Added(a, b), Added(b, c), e);
  }

  // Emitting one instruction that creates a new variable.
  lemma ReachesOne(h: Host, call: Oracle, st: State, env: Env, n: Node, dst: Variable, value: Value, next: nat)
    requires Matches(h, st, env) && Pure(n) && dst.Local? && dst !in env && dst.id < next && st.next <= next
    requires Step(h, call, n, env) == Running(env[dst := value])
    requires n.Convert? ==> n.dst == dst && st.next <= dst.id && n.src in env
                            && h.convert(n.conv, env[n.src]) == Some(value)
    ensures Reaches(h, call, st, env, Emit(st, n).(next := next), env[dst := value])
  {
    var st' := Emit(st, n).(next := next);
    GrowsEmit(st, n, next);
    RunOne(h, call, n, env);
    forall m | m in st'.block && m.Convert?
      ensures var e := env[dst := value]; m.src in e && m.dst in e && h.convert(m.conv, e[m.src]) == Some(e[m.dst])
    {
      if m in st.block {
        assert m.src != dst && m.dst != dst;
      } else {
        assert m == n;
      }
    }
  }

  ghost predicate Holding(env: Env, vars: seq<Variable>, vals: seq<Value>) {
    |vars| == |vals| && forall i :: 0 <= i < |vars| ==> vars[i] in env && env[vars[i]] == vals[i]
  }

  lemma HoldingValues(env: Env, vars: seq<Variable>, vals: seq<Value>)
    requires Holding(env, vars, vals)
    ensures Bound(vars, env) && Values(vars, env) == vals
  {
  }

  lemma {:induction false} FindInverseFound(block: seq<Node>, arg: Variable)
    ensures FindInverse(block, arg).Some? ==>
              exists n :: n in block && n.Convert? && n.dst == arg && n.src == FindInverse(block, arg).value
  {
    if block != [] && !(block[0].Convert? && block[0].dst == arg) {
      FindInverseFound(block[1..], arg);
      if FindInverse(block, arg).Some? {
        var n :| n in block[1..] && n.Convert? && n.dst == arg && n.src == FindInverse(block, arg).value;
        assert n in block;
      }
    } else if block != [] {
      assert block[0] in block;
    }
  }

  // What the naive compiler passes for one argument: its value, converted if its type asks for it.
  function NaiveArg(h: Host, cat: Catalogue, typ: string, value: Value): Option<Value> {
    if typ in cat.tojs then h.convert(ToNative(typ), value) else Some(value)
  }

  lemma NativeArgCorrect(h: Host, call: Oracle, cat: Catalogue, typ: string, arg: Variable,
                         head: Option<string>, value: Value, st: State, env: Env) returns (env': Env)
    requires Matches(h, st, env) && arg in env && env[arg] == value
    requires Origin(st.block, arg, head) && NaiveArg(h, cat, typ, value).Some?
    requires typ in cat.tojs && head.Some? ==> Inverse(h, typ, head.value)
    ensures var r := NativeArg(cat, typ, arg, st);
            && Reaches(h, call, st, env, r.1, env')
            && r.0 in env' && env'[r.0] == NaiveArg(h, cat, typ, value).value
  {
    env' := env;
    var native := NaiveArg(h, cat, typ, value).value;
    if typ in cat.tojs {
      FindInverseFound(st.block, arg);
      var inverse := FindInverse(st.block, arg);
      if inverse.Some? {
        var n :| n in st.block && n.Convert? && n.dst == arg && n.src == inverse.value;
        assert h.convert(n.conv, env[n.src]) == Some(value);
      } else {
        var v := Local(st.next);
        env' := env[v := native];
        ReachesOne(h, call, st, env, Convert(ToNative(typ), v, arg), v, native, st.next + 1);
      }
    }
  }

  /** Conversion elision is sound: native code gets the same arguments as if every argument were converted
      to its native form at the call. */
  lemma {:induction false} NativeArgsCorrect(h: Host, call: Oracle, cat: Catalogue, params: seq<Param>,
                                             args: seq<Variable>, es: seq<Expr>, vals: seq<Value>,
                                             st: State, env: Env) returns (env': Env)
    requires |params| == |args| == |es| && Holding(env, args, vals) && Matches(h, st, env)
    requires ConvertArgs(h, cat, params, vals).Some? && ArgumentsCancel(h, cat, params, es)
    requires forall i :: 0 <= i < |es| ==> Origin(st.block, args[i], HeadType(cat, es[i]))
    ensures var r := NativeArgs(cat, params, args, st);
            && Reaches(h, call, st, env, r.1, env')
            && Holding(env', r.0, ConvertArgs(h, cat, params, vals).value)
  {
    env' := env;
    if args != [] {
      var r := NativeArg(cat, params[0].typ, args[0], st);
      var e := NativeArgCorrect(h, call, cat, params[0].typ, args[0], HeadType(cat, es[0]), vals[0], st, env);
      forall i | 0 <= i < |es[1..]|
        ensures Origin(r.1.block, args[1..][i], HeadType(cat, es[1..][i]))
      {
        GrowsKeeps(st, r.1, args[i + 1], HeadType(cat, es[i + 1]));
      }
      assert ArgumentsCancel(h, cat, params[1..], es[1..]) by {
        assert forall i :: 0 <= i < |es[1..]| ==> es[1..][i] == es[i + 1] && params[1..][i] == params[i + 1];
      }
      env' := NativeArgsCorrect(h, call, cat, params[1..], args[1..], es[1..], vals[1..], r.1, e);
      ReachesTransitive(h, call, st, env, r.1, e, NativeArgs(cat, params, args, st).1, env');
    }
  }

  // The code emitted once the arguments of native code are in native form.
  function NativeCall(cat: Catalogue, z: Zid, f: Func, retval: Variable, args: seq<Variable>,
                      native: Variable): seq<Node> {
    if f.rettype in cat.fromjs then [Call(z, native, args)] + ([Convert(FromNative(f.rettype), retval, native)] + [])
    else [Call(z, retval, args)] + []
  }

  lemma NativeCallCorrect(h: Host, call: Oracle, cat: Catalogue, z: Zid, f: Func, retval: Variable,
                          args: seq<Variable>, natives: seq<Value>, native: Variable, env: Env) returns (env': Env)
    requires Holding(env, args, natives) && native != retval && native !in env && retval !in env
    requires call(z, natives).Some?
    requires f.rettype in cat.fromjs ==> h.convert(FromNative(f.rettype), call(z, natives).value).Some?
    ensures Run(h, call, NativeCall(cat, z, f, retval, args, native), env) == Running(env') && SubEnv(env, env')
    ensures env'.Keys <= env.Keys + (if f.rettype in cat.fromjs then {retval, native} else {retval}) && retval in env'
    ensures if f.rettype in cat.fromjs then
              && native in env' && env'[native] == call(z, natives).value
              && h.convert(FromNative(f.rettype), env'[native]) == Some(env'[retval])
            else env'[retval] == call(z, natives).value
  {
    HoldingValues(env, args, natives);
    var r := call(z, natives).value;
    if f.rettype in cat.fromjs {
      var n2 := Convert(FromNative(f.rettype), retval, native);
      var e := env[native := r];
      env' := e[retval := h.convert(FromNative(f.rettype), r).value];
      RunCons(h, call, Call(z, native, args), [n2] + [], env);
      RunCons(h, call, n2, [], e);
    } else {
      env' := env[retval := r];
      RunCons(h, call, Call(z, retval, args), [], env);
    }
  }

  lemma EvokeAdded(cat: Catalogue, z: Zid, f: Func, retval: Variable, args: seq<Variable>, st: State)
    requires |f.params| == |args| && f.kind.Native?
    ensures var p, s := NativeArgs(cat, f.params, args, st), Evoke(cat, z, f, retval, args, st);
            && Grows(st, p.1) && s.block == p.1.block + NativeCall(cat, z, f, retval, p.0, Local(p.1.next))
            && Added(st, s) == Added(st, p.1) + NativeCall(cat, z, f, retval, p.0, Local(p.1.next))
  {
    NativeArgsGrows(cat, f.params, args, st);
  }

  lemma NativeCallMatches(h: Host, cat: Catalogue, z: Zid, f: Func, retval: Variable, args: seq<Variable>,
                          st: State, env: Env, st': State, env': Env)
    requires Matches(h, st, env) && retval.Local? && retval.id < st.next
    requires var native := Local(st.next);
             && st'.block == st.block + NativeCall(cat, z, f, retval, args, native)
             && st'.next == (if f.rettype in cat.fromjs then st.next + 1 else st.next)
             && SubEnv(env, env') && env'.Keys <= env.Keys + (if f.rettype in cat.fromjs then {retval, native}
                                                              else {retval})
             && (f.rettype in cat.fromjs ==>
                   && native in env' && retval in env'
                   && h.convert(FromNative(f.rettype), env'[native]) == Some(env'[retval]))
    ensures Matches(h, st', env')
  {
  }

  lemma EvokeCorrect(h: Host, call: Oracle, cat: Catalogue, z: Zid, f: Func, retval: Variable,
                     args: seq<Variable>, es: seq<Expr>, vals: seq<Value>, st: State, env: Env) returns (env': Env)
    requires |f.params| == |args| == |es| && Holding(env, args, vals) && Matches(h, st, env)
    requires st.next > 0 && retval == Local(st.next - 1) && retval !in env
    requires Invoke(h, call, cat, z, f, vals).Some?
    requires f.kind.Native? ==> ArgumentsCancel(h, cat, f.params, es)
    requires forall i :: 0 <= i < |es| ==> Origin(st.block, args[i], HeadType(cat, es[i]))
    ensures |st.block| <= |Evoke(cat, z, f, retval, args, st).block|
    ensures Run(h, call, Added(st, Evoke(cat, z, f, retval, args, st)), env) == Running(env')
    ensures SubEnv(env, env') && Matches(h, Evoke(cat, z, f, retval, args, st), env')
    ensures retval in env' && env'[retval] == Invoke(h, call, cat, z, f, vals).value
  {
    hide NativeArgs, NativeCall, ConvertArgs;
    if f.kind.Native? {
      var p := NativeArgs(cat, f.params, args, st);
      var natives := ConvertArgs(h, cat, f.params, vals).value;
      EvokeAdded(cat, z, f, retval, args, st);
      var e := NativeArgsFresh(h, call, cat, f.params, args, es, vals, st, env, retval);
      env' := NativeCallCorrect(h, call, cat, z, f, retval, p.0, natives, Local(p.1.next), e);
      RunAppend(h, call, Added(st, p.1), NativeCall(cat, z, f, retval, p.0, Local(p.1.next)), env);
      NativeCallMatches(h, cat, z, f, retval, p.0, p.1, e, Evoke(cat, z, f, retval, args, st), env');
    } else {
      HoldingValues(env, args, vals);
      env' := env[retval := call(z, vals).value];
      RunOne(h, call, Call(z, retval, args), env);
      assert Added(st, Evoke(cat, z, f, retval, args, st)) == [Call(z, retval, args)];
    }
  }

  // The conversions emitted for a call do not touch the variable reserved for its result.
  lemma NativeArgsFresh(h: Host, call: Oracle, cat: Catalogue, params: seq<Param>,
                        args: seq<Variable>, es: seq<Expr>, vals: seq<Value>,
                        st: State, env: Env, retval: Variable) returns (env': Env)
    requires |params| == |args| == |es| && Holding(env, args, vals) && Matches(h, st, env)
    requires ConvertArgs(h, cat, params, vals).Some? && ArgumentsCancel(h, cat, params, es)
    requires forall i :: 0 <= i < |es| ==> Origin(st.block, args[i], HeadType(cat, es[i]))
    requires retval !in env && retval.Local? && retval.id < st.next
    ensures var r := NativeArgs(cat, params, args, st);
            && Reaches(h, call, st, env, r.1, env') && retval !in env'
            && Holding(env', r.0, ConvertArgs(h, cat, params, vals).value)
  {
    env' := NativeArgsCorrect(h, call, cat, params, args, es, vals, st, env);
    var s := NativeArgs(cat, params, args, st).1;
    NativeArgsDefs(cat, params, args, st);
    RunCreates(h, call, Added(st, s), env);
  }

  lemma {:induction false} RunCreates(h: Host, call: Oracle, nodes: seq<Node>, env: Env)
    ensures var o := Run(h, call, nodes, env); o.Running? ==> o.env.Keys <= env.Keys + AllDefs(nodes)
    decreases nodes
  {
    if nodes != [] {
      var o := Step(h, call, nodes[0], env);
      if o.Running? {
        RunCreates(h, call, nodes[1..], o.env);
      }
    }
  }

  lemma {:induction false} NativeArgsDefs(cat: Catalogue, params: seq<Param>, args: seq<Variable>, st: State)
    requires |params| == |args|
    ensures var s := NativeArgs(cat, params, args, st).1;
            Grows(st, s) && InRange(AllDefs(Added(st, s)), st.next, s.next)
  {
    NativeArgsGrows(cat, params, args, st);
    if args != [] {
      var p := NativeArg(cat, params[0].typ, args[0], st).1;
      var s := NativeArgs(cat, params, args, st).1;
      NativeArgsDefs(cat, params[1..], args[1..], p);
      GrowsTransitive(st, p, s);
      AllDefsAppend(Added(st, p), Added(p, s));
      if p.block != st.block {
        OneNode(p.block[|st.block|]);
        assert Added(st, p) == [p.block[|st.block|]];
      } else {
        assert Added(st, p) == [];
      }
    }
  }

  // ----- what emitted code creates -----

  lemma AddedOne(st: State, st': State, n: Node)
    requires |st'.block| == |st.block| + 1 && st'.block == st.block + [n]
    ensures Added(st, st') == [n] && AllDefs(Added(st, st')) == NodeDefs(n)
  {
    OneNode(n);
  }

  lemma EvokeDefs(cat: Catalogue, z: Zid, f: Func, retval: Variable, args: seq<Variable>, st: State)
    requires |f.params| == |args| && st.next > 0 && retval == Local(st.next - 1)
    ensures var s := Evoke(cat, z, f, retval, args, st);
            |st.block| <= |s.block| && InRange(AllDefs(Added(st, s)), st.next - 1, s.next)
  {
    var s := Evoke(cat, z, f, retval, args, st);
    if f.kind.Native? {
      NativeArgsDefs(cat, f.params, args, st);
      var p := NativeArgs(cat, f.params, args, st);
      if f.rettype in cat.fromjs {
        var n1, n2 := Call(z, Local(p.1.next), p.0), Convert(FromNative(f.rettype), retval, Local(p.1.next));
        assert Added(st, s) == Added(st, p.1) + [n1] + [n2];
        Push(Added(st, p.1), n1);
        Push(Added(st, p.1) + [n1], n2);
      } else {
        assert Added(st, s) == Added(st, p.1) + [Call(z, retval, p.0)];
        Push(Added(st, p.1), Call(z, retval, p.0));
      }
    } else {
      AddedOne(st, s, Call(z, retval, args));
    }
  }

  lemma {:induction false} ComposeDefs(cat: Catalogue, fn: Zid, e: Expr, st: State)
    requires Compose(cat, fn, e, st).Success?
    ensures var r := Compose(cat, fn, e, st).value.1;
            Grows(st, r) && InRange(AllDefs(Added(st, r)), st.next, r.next)
    decreases e, 2
  {
    ComposeGrows(cat, fn, e, st);
    var r := Compose(cat, fn, e, st).value.1;
    match e
    case Word(s) => AddedOne(st, r, Const(Local(st.next), Text(WordText(s)), None));
    case Nat(d) => AddedOne(st, r, Const(Local(st.next), Natural(d), None));
    case Bool(b) => AddedOne(st, r, Const(Local(st.next), Truth(b), None));
    case Argument(_) =>
    case Echo(b) => ComposeDefs(cat, fn, b, st);
    case Untype(b) => ComposeDefs(cat, fn, b, st);
    case ListOf(typ, es) =>
      ComposeAllDefs(cat, fn, es, Bump(st));
      var q := ComposeAll(cat, fn, es, Bump(st)).value;
      var n := Build(Local(st.next), typ, q.0);
      assert Added(st, r) == Added(Bump(st), q.1) + [n];
      Push(Added(Bump(st), q.1), n);
    case IfThenElse(c, a, b) =>
      ComposeDefs(cat, fn, c, st);
      ComposeIfDefs(cat, fn, e, st);
    case Apply(z, es) =>
      ComposeAllDefs(cat, fn, es, st);
      ComposeAllGrows(cat, fn, es, st);
      var q := ComposeAll(cat, fn, es, st).value;
      EvokeGrows(cat, z, cat.funcs[z], Local(q.1.next), q.0, Bump(q.1));
      EvokeDefs(cat, z, cat.funcs[z], Local(q.1.next), q.0, Bump(q.1));
      assert Added(Bump(q.1), r) == Added(q.1, r);
      GrowsTransitive(st, q.1, r);
      AllDefsAppend(Added(st, q.1), Added(q.1, r));
    case Unknown =>
  }

  lemma {:induction false} ComposeIfDefs(cat: Catalogue, fn: Zid, e: Expr, st: State)
    requires e.IfThenElse? && Compose(cat, fn, e, st).Success?
    requires var t := Compose(cat, fn, e.test, st).value.1;
             Grows(st, t) && InRange(AllDefs(Added(st, t)), st.next, t.next)
    ensures var r := Compose(cat, fn, e, st).value.1;
            Grows(st, r) && InRange(AllDefs(Added(st, r)), st.next, r.next)
    decreases e, 1
  {
    ComposeGrows(cat, fn, e, st);
    var r := Compose(cat, fn, e, st).value.1;
    var t := Compose(cat, fn, e.test, st).value;
    var result := Local(t.1.next);
    var p := ComposeBranch(cat, fn, e.thn, result, Bump(t.1)).value;
    var q := ComposeBranch(cat, fn, e.els, result, p).value;
    hide AllDefs, ComposeAll, Evoke, EmitConstant;
    BranchDefs(cat, fn, e.thn, result, Bump(t.1));
    BranchDefs(cat, fn, e.els, result, p);
    var n := Conditional(t.0, p.block, q.block);
    assert Added(st, r) == Added(st, t.1) + [Declare(result)] + [n];
    PushIf(Added(st, t.1), n, st.next, t.1.next, p.next, q.next);
  }

  // A result variable and the conditional that assigns it.
  lemma PushIf(nodes: seq<Node>, n: Node, from: nat, mid: nat, half: nat, to: nat)
    requires InRange(AllDefs(nodes), from, mid) && n.Conditional? && from <= mid < half <= to
    requires InRange(AllDefs(n.ifpart), mid + 1, half) && InRange(AllDefs(n.elsepart), half, to)
    ensures InRange(AllDefs(nodes + [Declare(Local(mid))] + [n]), from, to)
  {
    hide AllDefs;
    Push(nodes, Declare(Local(mid)));
    Push(nodes + [Declare(Local(mid))], n);
  }

  lemma {:induction false} BranchDefs(cat: Catalogue, fn: Zid, e: Expr, result: Variable, st: State)
    requires ComposeBranch(cat, fn, e, result, st).Success?
    ensures var s := ComposeBranch(cat, fn, e, result, st).value;
            st.next <= s.next && InRange(AllDefs(s.block), st.next, s.next)
    decreases e, 3
  {
    ComposeDefs(cat, fn, e, st.(block := []));
    var r := Compose(cat, fn, e, st.(block := [])).value;
    assert Added(st.(block := []), r.1) == r.1.block;
    Push(r.1.block, Assign(result, r.0));
  }

  lemma {:induction false} ComposeAllDefs(cat: Catalogue, fn: Zid, es: seq<Expr>, st: State)
    requires ComposeAll(cat, fn, es, st).Success?
    ensures var r := ComposeAll(cat, fn, es, st).value.1;
            Grows(st, r) && InRange(AllDefs(Added(st, r)), st.next, r.next)
    decreases es, 0
  {
    ComposeAllGrows(cat, fn, es, st);
    if es != [] {
      var p, r := Compose(cat, fn, es[0], st).value.1, ComposeAll(cat, fn, es, st).value.1;
      ComposeDefs(cat, fn, es[0], st);
      ComposeAllDefs(cat, fn, es[1..], p);
      GrowsTransitive(st, p, r);
      AllDefsAppend(Added(st, p), Added(p, r));
    }
  }

  ghost predicate Ok(h: Host, cat: Catalogue, fn: Zid, args: Args, st: State, env: Env) {
    Matches(h, st, env) && HasArgs(env, fn, args)
  }

  /** Emitted code is right: when the composition has a value, running the code added for it succeeds and
      leaves that value in the returned variable, whatever was emitted before. */
  lemma {:induction false} ComposeCorrect(h: Host, call: Oracle, cat: Catalogue, fn: Zid, e: Expr, args: Args,
                                          st: State, env: Env) returns (env': Env)
    requires Compose(cat, fn, e, st).Success? && Eval(h, call, cat, e, args).Some?
    requires Ok(h, cat, fn, args, st, env) && Cancels(h, cat, e)
    ensures var r := Compose(cat, fn, e, st).value;
            && Reaches(h, call, st, env, r.1, env')
            && r.0 in env' && env'[r.0] == Eval(h, call, cat, e, args).value
    decreases e, 2
  {
    var r := Compose(cat, fn, e, st).value;
    match e
    case Word(s) => env' := ConstantCorrect(h, call, st, env, Text(WordText(s)));
    case Nat(d) => env' := ConstantCorrect(h, call, st, env, Natural(d));
    case Bool(b) => env' := ConstantCorrect(h, call, st, env, Truth(b));
    case Argument(name) =>
      env' := env;
    case Echo(b) => env' := ComposeCorrect(h, call, cat, fn, b, args, st, env);
    case Untype(b) => env' := ComposeCorrect(h, call, cat, fn, b, args, st, env);
    case ListOf(typ, es) => env' := ComposeListCorrect(h, call, cat, fn, e, args, st, env);
    case IfThenElse(c, a, b) => env' := ComposeIfCorrect(h, call, cat, fn, e, args, st, env);
    case Apply(z, es) => env' := ComposeApplyCorrect(h, call, cat, fn, e, args, st, env);
    case Unknown =>
      assert false;
  }

  lemma ConstantCorrect(h: Host, call: Oracle, st: State, env: Env, c: Constant) returns (env': Env)
    requires Matches(h, st, env)
    ensures var r := EmitConstant(st, c);
            && Reaches(h, call, st, env, r.1, env')
            && r.0 in env' && env'[r.0] == ConstantValue(h, c)
  {
    var v := Local(st.next);
    env' := env[v := ConstantValue(h, c)];
    ReachesOne(h, call, st, env, Const(v, c, None), v, ConstantValue(h, c), st.next + 1);
  }

  lemma {:induction false} ComposeListCorrect(h: Host, call: Oracle, cat: Catalogue, fn: Zid, e: Expr, args: Args,
                                              st: State, env: Env) returns (env': Env)
    requires e.ListOf? && Compose(cat, fn, e, st).Success? && Eval(h, call, cat, e, args).Some?
    requires Ok(h, cat, fn, args, st, env) && Cancels(h, cat, e)
    ensures var r := Compose(cat, fn, e, st).value;
            && Reaches(h, call, st, env, r.1, env')
            && r.0 in env' && env'[r.0] == Eval(h, call, cat, e, args).value
    decreases e.elements, 1
  {
    var vals := EvalAll(h, call, cat, e.elements, args).value;
    var q := ComposeAll(cat, fn, e.elements, Bump(st)).value;
    var f := ComposeAllCorrect(h, call, cat, fn, e.elements, args, Bump(st), env);
    HoldingValues(f, q.0, vals);
    var v := Local(st.next);
    ComposeAllDefs(cat, fn, e.elements, Bump(st));
    RunCreates(h, call, Added(Bump(st), q.1), env);
    env' := f[v := ListValue(e.typ, Full(vals))];
    ListedExact(q.0, f, vals);
    var n := Build(v, e.typ, q.0);
    ReachesOne(h, call, q.1, f, n, v, ListValue(e.typ, Full(vals)), q.1.next);
    assert Emit(q.1, n).(next := q.1.next) == Emit(q.1, n);
    assert Reaches(h, call, st, env, q.1, f);
    ReachesTransitive(h, call, st, env, q.1, f, Emit(q.1, n), env');
  }

  lemma {:induction false} ComposeApplyCorrect(h: Host, call: Oracle, cat: Catalogue, fn: Zid, e: Expr, args: Args,
                                               st: State, env: Env) returns (env': Env)
    requires e.Apply? && Compose(cat, fn, e, st).Success? && Eval(h, call, cat, e, args).Some?
    requires Ok(h, cat, fn, args, st, env) && Cancels(h, cat, e)
    ensures var r := Compose(cat, fn, e, st).value;
            && Reaches(h, call, st, env, r.1, env')
            && r.0 in env' && env'[r.0] == Eval(h, call, cat, e, args).value
    decreases e.args, 1
  {
    var z, f := e.callee, cat.funcs[e.callee];
    var vals := EvalAll(h, call, cat, e.args, args).value;
    var q := ComposeAll(cat, fn, e.args, st).value;
    var g := ComposeAllCorrect(h, call, cat, fn, e.args, args, st, env);
    ComposeAllOrigin(cat, fn, e.args, st);
    var retval, s := Local(q.1.next), Bump(q.1);
    env' := EvokeCorrect(h, call, cat, z, f, retval, q.0, e.args, vals, s, g);
    EvokeGrows(cat, z, f, retval, q.0, s);
    var t := Evoke(cat, z, f, retval, q.0, s);
    assert s.(next := s.next - 1) == q.1 && Added(q.1, t) == Added(s, t);
    ReachesTransitive(h, call, st, env, q.1, g, t, env');
  }

  lemma {:induction false} ComposeAllCorrect(h: Host, call: Oracle, cat: Catalogue, fn: Zid, es: seq<Expr>, args: Args,
                                             st: State, env: Env) returns (env': Env)
    requires ComposeAll(cat, fn, es, st).Success? && EvalAll(h, call, cat, es, args).Some?
    requires Ok(h, cat, fn, args, st, env) && forall i :: 0 <= i < |es| ==> Cancels(h, cat, es[i])
    ensures var r := ComposeAll(cat, fn, es, st).value;
            Reaches(h, call, st, env, r.1, env') && Holding(env', r.0, EvalAll(h, call, cat, es, args).value)
    decreases es, 0
  {
    hide Cancels, Compose, Eval, Evoke, EmitConstant;
    env' := env;
    if es != [] {
      var p := Compose(cat, fn, es[0], st).value;
      var f := ComposeCorrect(h, call, cat, fn, es[0], args, st, env);
      assert forall i :: 0 <= i < |es[1..]| ==> es[1..][i] == es[i + 1];
      env' := ComposeAllCorrect(h, call, cat, fn, es[1..], args, p.1, f);
      ReachesTransitive(h, call, st, env, p.1, f, ComposeAll(cat, fn, es, st).value.1, env');
    }
  }

  lemma {:induction false} ComposeIfCorrect(h: Host, call: Oracle, cat: Catalogue, fn: Zid, e: Expr, args: Args,
                                            st: State, env: Env) returns (env': Env)
    requires e.IfThenElse? && Compose(cat, fn, e, st).Success? && Eval(h, call, cat, e, args).Some?
    requires Ok(h, cat, fn, args, st, env) && Cancels(h, cat, e)
    ensures var r := Compose(cat, fn, e, st).value;
            && Reaches(h, call, st, env, r.1, env')
            && r.0 in env' && env'[r.0] == Eval(h, call, cat, e, args).value
    decreases e, 1
  {
    var t := Compose(cat, fn, e.test, st).value;
    var f := ComposeCorrect(h, call, cat, fn, e.test, args, st, env);
    var result, value := Local(t.1.next), Eval(h, call, cat, e, args).value;
    var p := ComposeBranch(cat, fn, e.thn, result, Bump(t.1)).value;
    var q := ComposeBranch(cat, fn, e.els, result, p).value;
    ComposeGrows(cat, fn, e.thn, Bump(t.1).(block := []));
    ComposeGrows(cat, fn, e.els, p.(block := []));
    if Truthy(h, f[t.0]) {
      BranchCorrect(h, call, cat, fn, e.thn, args, result, Bump(t.1), f[result := Undefined], value);
    } else {
      BranchCorrect(h, call, cat, fn, e.els, args, result, p, f[result := Undefined], value);
    }
    var n, r := Conditional(t.0, p.block, q.block), Compose(cat, fn, e, st).value.1;
    assert Added(t.1, r) == [Declare(result)] + ([n] + []);
    IfRuns(h, call, result, n, f, value);
    env' := f[result := value];
    assert Reaches(h, call, t.1, f, r, env');
    ReachesTransitive(h, call, st, env, t.1, f, r, env');
  }

  lemma IfRuns(h: Host, call: Oracle, result: Variable, n: Node, env: Env, value: Value)
    requires n.Conditional? && n.condition in env && result !in env
    requires var br := if Truthy(h, env[n.condition]) then n.ifpart else n.elsepart;
             var e := env[result := Undefined];
             Leave(e.Keys, Run(h, call, br, e)) == Running(e[result := value])
    ensures Run(h, call, [Declare(result)] + ([n] + []), env) == Running(env[result := value])
  {
    var e := env[result := Undefined];
    assert e[result := value] == env[result := value];
    RunCons(h, call, Declare(result), [n] + [], env);
    RunCons(h, call, n, [], e);
  }

  // A branch leaves its value in the result variable and nothing else in scope.
  lemma {:induction false} BranchCorrect(h: Host, call: Oracle, cat: Catalogue, fn: Zid, e: Expr, args: Args,
                                         result: Variable, st: State, env: Env, value: Value)
    requires ComposeBranch(cat, fn, e, result, st).Success? && Eval(h, call, cat, e, args) == Some(value)
    requires (forall v :: v in env ==> Below(v, st.next)) && HasArgs(env, fn, args) && Cancels(h, cat, e)
    requires result in env
    ensures var s := ComposeBranch(cat, fn, e, result, st).value;
            Leave(env.Keys, Run(h, call, s.block, env)) == Running(env[result := value])
    decreases e, 3
  {
    var empty := st.(block := []);
    var g := ComposeCorrect(h, call, cat, fn, e, args, empty, env);
    var r := Compose(cat, fn, e, empty).value;
    assert Added(empty, r.1) == r.1.block;
    RunAppend(h, call, r.1.block, [Assign(result, r.0)], env);
    RunOne(h, call, Assign(result, r.0), g);
  }
}
