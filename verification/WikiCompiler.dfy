/**
  The compiler object: composing function bodies from a work list and running the passes over the program
  (wikifunc/wikifunc.js:368-413, 634-700, 742-824).
 */
module WikiCompiler {
  import opened Common
  import opened WikiIR
  import opened WikiCse
  import opened WikiConst
  import opened WikiDce
  import opened WikiCompose
  import opened WikiComposeProof
  import opened WikiComposeMarks
  import opened WikiProgram
  import opened WikiBlock

  function SetOf(zs: seq<Zid>): set<Zid> {
    set z | z in zs
  }

  ghost predicate Distinct(zs: seq<Zid>) {
    forall i, j :: 0 <= i < j < |zs| ==> zs[i] != zs[j]
  }

  lemma {:induction false} FindInverseAt(block: seq<Node>, arg: Variable, i: nat)
    requires i <= |block| && forall k :: 0 <= k < i ==> !(block[k].Convert? && block[k].dst == arg)
    ensures FindInverse(block, arg) == FindInverse(block[i..], arg)
  {
    if i > 0 {
      FindInverseAt(block[1..], arg, i - 1);
      assert block[1..][i - 1..] == block[i..];
    } else {
      assert block[i..] == block;
    }
  }

  lemma RawSucceeds(cat: Catalogue, z: Zid, st: State)
    requires z in cat.funcs && st.block == []
    ensures Raw(cat, z, cat.funcs[z].body, st).Success? <==> Composes(cat, z, cat.funcs[z].body)
  {
    hide Compose;
    assert st == st.(block := []);
    ComposeSucceeds(cat, z, cat.funcs[z].body, st);
  }

  lemma RawMarks(cat: Catalogue, z: Zid, e: Expr, st: State)
    requires Raw(cat, z, e, st).Success? && MarksBelow(st) && st.block == []
    ensures var r := Raw(cat, z, e, st).value;
            st.next <= r.next && MarksBelow(State([], r.next, r.marks)) && Agrees(r.marks, r) && Agrees(r.marks, st)
  {
    hide Compose;
    assert st == st.(block := []);
    ComposeMarks(cat, z, e, st);
  }

  // ----- what can be compiled -----

  // The compiler does not throw on an expression in the body of `fn`.
  predicate Composes(cat: Catalogue, fn: Zid, e: Expr)
    decreases e
  {
    match e
    case Argument(name) => fn in cat.funcs && HasParam(cat.funcs[fn], name)
    case Echo(b) => Composes(cat, fn, b)
    case Untype(b) => Composes(cat, fn, b)
    case ListOf(_, es) => AllCompose(cat, fn, es)
    case IfThenElse(c, a, b) => Composes(cat, fn, c) && Composes(cat, fn, a) && Composes(cat, fn, b)
    case Apply(z, es) => z in cat.funcs && |cat.funcs[z].params| == |es| && AllCompose(cat, fn, es)
    case Unknown => false
    case _ => true
  }

  predicate AllCompose(cat: Catalogue, fn: Zid, es: seq<Expr>)
    decreases es
  {
    es == [] || (Composes(cat, fn, es[0]) && AllCompose(cat, fn, es[1..]))
  }

  /** Whether composition succeeds depends on the expression and the catalogue only, not on what has been emitted. */
  lemma {:induction false} ComposeSucceeds(cat: Catalogue, fn: Zid, e: Expr, st: State)
    ensures Compose(cat, fn, e, st).Success? <==> Composes(cat, fn, e)
    decreases e
  {
    hide Evoke, EmitConstant;
    match e
    case Echo(b) => ComposeSucceeds(cat, fn, b, st);
    case Untype(b) => ComposeSucceeds(cat, fn, b, st);
    case ListOf(_, es) => ComposeAllSucceeds(cat, fn, es, Bump(st));
    case IfThenElse(_, _, _) => ComposeIfSucceeds(cat, fn, e, st);
    case Apply(_, es) => ComposeAllSucceeds(cat, fn, es, st);
    case _ =>
  }

  lemma {:induction false} ComposeIfSucceeds(cat: Catalogue, fn: Zid, e: Expr, st: State)
    requires e.IfThenElse?
    ensures Compose(cat, fn, e, st).Success? <==> Composes(cat, fn, e)
    decreases e, 0
  {
    hide Compose;
    IfIs(cat, fn, e, st);
    ComposeSucceeds(cat, fn, e.test, st);
    var t := Compose(cat, fn, e.test, st);
    if t.Success? {
      var inside := Bump(t.value.1).(block := []);
      ComposeSucceeds(cat, fn, e.thn, inside);
      var p := Compose(cat, fn, e.thn, inside);
      if p.Success? {
        ComposeSucceeds(cat, fn, e.els, Emit(p.value.1, Assign(Local(t.value.1.next), p.value.0)).(block := []));
      }
    }
  }

  lemma {:induction false} ComposeAllSucceeds(cat: Catalogue, fn: Zid, es: seq<Expr>, st: State)
    ensures ComposeAll(cat, fn, es, st).Success? <==> AllCompose(cat, fn, es)
    decreases es
  {
    if es != [] {
      ComposeSucceeds(cat, fn, es[0], st);
      var p := Compose(cat, fn, es[0], st);
      if p.Success? {
        ComposeAllSucceeds(cat, fn, es[1..], p.value.1);
      }
    }
  }

  /** Some functions of the catalogue that can be compiled together: all compositions among them compose, and call
      only functions among them. */
  ghost predicate Compilable(cat: Catalogue, zs: set<Zid>) {
    Closed(cat, zs) && forall z :: z in zs && cat.funcs[z].kind.Composition? ==> Composes(cat, z, cat.funcs[z].body)
  }

  class Compiler {
    const rule: ListRule
    const h: Host
    const cat: Catalogue
    var funcs: seq<Zid>
    var next: nat
    var marks: Marks
    var code: Code
    // How each body was produced.
    ghost var starts: map<Zid, State>
    ghost var lives: map<Zid, set<Variable>>

    constructor (rule: ListRule, h: Host, cat: Catalogue)
      ensures this.rule == rule && this.h == h && this.cat == cat && funcs == [] && next == 0 && marks == map[]
      ensures code == map[]
      ensures starts == map[] && lives == map[]
    {
      this.rule, this.h, this.cat := rule, h, cat;
      funcs, next, marks, code := [], 0, map[], map[];
      starts, lives := map[], map[];
    }

    // The emission state seen through a block.
    ghost function At(body: Block): State
      reads this, body
    {
      State(body.instructions, next, marks)
    }

    // Looking up a function loads it; an id that is not in the catalogue makes the compiler throw.
    method Load(z: Zid) returns (ok: bool)
      modifies this`funcs
      ensures ok == (z in cat.funcs)
      ensures funcs == if z in cat.funcs && z !in old(funcs) then old(funcs) + [z] else old(funcs)
    {
      ok := z in cat.funcs;
      if ok && z !in funcs {
        funcs := funcs + [z];
      }
    }

    method NewVariable() returns (v: Variable)
      modifies this`next
      ensures v == Local(old(next)) && next == old(next) + 1
    {
      v := Local(next);
      next := next + 1;
    }

    static method FindConversion(body: Block, arg: Variable) returns (src: Option<Variable>)
      ensures src == FindInverse(body.instructions, arg)
    {
      var i := 0;
      while i < |body.instructions|
        invariant 0 <= i <= |body.instructions|
        invariant forall k :: 0 <= k < i ==> !(body.instructions[k].Convert? && body.instructions[k].dst == arg)
      {
        if body.instructions[i].Convert? && body.instructions[i].dst == arg {
          FindInverseAt(body.instructions, arg, i);
          return Some(body.instructions[i].src);
        }
        i := i + 1;
      }
      FindInverseAt(body.instructions, arg, i);
      return None;
    }

    method EmitNativeArg(typ: string, arg: Variable, body: Block) returns (native: Variable)
      modifies this`next, body
      ensures (native, At(body)) == NativeArg(cat, typ, arg, old(At(body)))
    {
      native := arg;
      if typ in cat.tojs {
        var inverse := FindConversion(body, arg);
        if inverse.Some? {
          native := inverse.value;
        } else {
          native := NewVariable();
          body.Emit(Convert(ToNative(typ), native, arg));
        }
      }
    }

    /** Emitting a call of a function on composed arguments. */
    method EmitEvoke(z: Zid, f: Func, retval: Variable, args: seq<Variable>, body: Block)
      requires |f.params| == |args|
      modifies this`next, body
      ensures At(body) == Evoke(cat, z, f, retval, args, old(At(body)))
    {
      if f.kind.Native? {
        ghost var st := At(body);
        var natives: seq<Variable> := [];
        var i := 0;
        assert args[0..] == args && f.params[0..] == f.params;
        assert natives + NativeArgs(cat, f.params, args, st).0 == NativeArgs(cat, f.params, args, st).0;
        while i < |args|
          invariant 0 <= i <= |args| && |natives| == i && marks == old(marks)
          invariant NativeArgs(cat, f.params, args, st) ==
                    var p := NativeArgs(cat, f.params[i..], args[i..], At(body)); (natives + p.0, p.1)
        {
          ghost var here := At(body);
          var v := EmitNativeArg(f.params[i].typ, args[i], body);
          assert args[i..][0] == args[i] && f.params[i..][0] == f.params[i];
          assert args[i..][1..] == args[i + 1..] && f.params[i..][1..] == f.params[i + 1..];
          ghost var q := NativeArgs(cat, f.params[i + 1..], args[i + 1..], At(body));
          assert natives + ([v] + q.0) == natives + [v] + q.0;
          natives := natives + [v];
          i := i + 1;
        }
        assert natives + [] == natives;
        if f.rettype in cat.fromjs {
          var native := NewVariable();
          body.Emit(Call(z, native, natives));
          body.Emit(Convert(FromNative(f.rettype), retval, native));
        } else {
          body.Emit(Call(z, retval, natives));
        }
      } else {
        body.Emit(Call(z, retval, args));
      }
    }

    method ComposeConstant(c: Constant, body: Block) returns (v: Variable)
      modifies this`next, this`marks, body
      ensures (v, At(body)) == EmitConstant(old(At(body)), c)
    {
      v := NewVariable();
      marks := marks[v := c];
      body.Emit(Const(v, c, None));
    }

    /** Composing an expression into a block; every function it calls is loaded. */
    method ComposeExpr(fn: Zid, e: Expr, body: Block) returns (r: Result<Variable, string>)
      modifies this`next, this`marks, this`funcs, body
      ensures r.Success? == Compose(cat, fn, e, old(At(body))).Success?
      ensures r.Success? ==> (r.value, At(body)) == Compose(cat, fn, e, old(At(body))).value
      ensures r.Success? ==> SetOf(funcs) == old(SetOf(funcs)) + Callees(e) && Callees(e) <= cat.funcs.Keys
      ensures old(Distinct(funcs)) ==> Distinct(funcs)
      decreases e, 1
    {
      hide Evoke, EmitConstant, Distinct;
      match e {
        case Word(s) =>
          var v := ComposeConstant(Text(WordText(s)), body);
          return Success(v);
        case Nat(d) =>
          var v := ComposeConstant(Natural(d), body);
          return Success(v);
        case Bool(b) =>
          var v := ComposeConstant(Truth(b), body);
          return Success(v);
        case Argument(name) =>
          if fn in cat.funcs && HasParam(cat.funcs[fn], name) {
            return Success(Formal(fn, name));
          }
          return Failure("unknown argument");
        case Echo(b) =>
          r := ComposeExpr(fn, b, body);
        case Untype(b) =>
          r := ComposeExpr(fn, b, body);
        case ListOf(typ, es) =>
          var v := NewVariable();
          var vs := ComposeArguments(fn, es, body);
          if vs.Failure? {
            return Failure(vs.error);
          }
          body.Emit(Build(v, typ, vs.value));
          return Success(v);
        case IfThenElse(_, _, _) =>
          r := ComposeIf(fn, e, body);
        case Apply(z, es) =>
          r := ComposeCall(fn, z, es, body);
        case Unknown =>
          return Failure("unknown expression");
      }
    }

    method ComposeCall(fn: Zid, z: Zid, es: seq<Expr>, body: Block) returns (r: Result<Variable, string>)
      modifies this`next, this`marks, this`funcs, body
      ensures r.Success? == Compose(cat, fn, Apply(z, es), old(At(body))).Success?
      ensures r.Success? ==> (r.value, At(body)) == Compose(cat, fn, Apply(z, es), old(At(body))).value
      ensures r.Success? ==> SetOf(funcs) == old(SetOf(funcs)) + Callees(Apply(z, es))
                             && Callees(Apply(z, es)) <= cat.funcs.Keys
      ensures old(Distinct(funcs)) ==> Distinct(funcs)
      decreases Apply(z, es), 0
    {
      hide Evoke, ComposeAll, CalleesOfAll;
      var ok := Load(z);
      if !ok || |cat.funcs[z].params| != |es| {
        return Failure("unknown function");
      }
      var vs := ComposeArguments(fn, es, body);
      if vs.Failure? {
        return Failure(vs.error);
      }
      var retval := NewVariable();
      EmitEvoke(z, cat.funcs[z], retval, vs.value, body);
      return Success(retval);
    }

    method ComposeIf(fn: Zid, e: Expr, body: Block) returns (r: Result<Variable, string>)
      requires e.IfThenElse?
      modifies this`next, this`marks, this`funcs, body
      ensures r.Success? == Compose(cat, fn, e, old(At(body))).Success?
      ensures r.Success? ==> (r.value, At(body)) == Compose(cat, fn, e, old(At(body))).value
      ensures r.Success? ==> SetOf(funcs) == old(SetOf(funcs)) + Callees(e) && Callees(e) <= cat.funcs.Keys
      ensures old(Distinct(funcs)) ==> Distinct(funcs)
      decreases e, 0
    {
      hide Compose, Distinct;
      IfIs(cat, fn, e, At(body));
      var test := ComposeExpr(fn, e.test, body);
      if test.Failure? {
        return test;
      }
      var result := NewVariable();
      ghost var before := body.instructions;
      body.Emit(Declare(result));
      var ifpart := new Block([]);
      var ifval := ComposeExpr(fn, e.thn, ifpart);
      if ifval.Failure? {
        return ifval;
      }
      ifpart.Emit(Assign(result, ifval.value));
      var elsepart := new Block([]);
      var elseval := ComposeExpr(fn, e.els, elsepart);
      if elseval.Failure? {
        return elseval;
      }
      elsepart.Emit(Assign(result, elseval.value));
      body.Emit(Conditional(test.value, ifpart.instructions, elsepart.instructions));
      assert body.instructions ==
             before + [Declare(result), Conditional(test.value, ifpart.instructions, elsepart.instructions)];
      return Success(result);
    }

    method ComposeArguments(fn: Zid, es: seq<Expr>, body: Block) returns (r: Result<seq<Variable>, string>)
      modifies this`next, this`marks, this`funcs, body
      ensures r.Success? == ComposeAll(cat, fn, es, old(At(body))).Success?
      ensures r.Success? ==> (r.value, At(body)) == ComposeAll(cat, fn, es, old(At(body))).value
      ensures r.Success? ==> SetOf(funcs) == old(SetOf(funcs)) + CalleesOfAll(es) && CalleesOfAll(es) <= cat.funcs.Keys
      ensures old(Distinct(funcs)) ==> Distinct(funcs)
      decreases es, 0
    {
      ghost var st := At(body);
      var vs: seq<Variable> := [];
      var i := 0;
      assert es[0..] == es;
      ghost var all := ComposeAll(cat, fn, es, st);
      assert all.Success? ==> vs + all.value.0 == all.value.0;
      while i < |es|
        invariant 0 <= i <= |es|
        invariant ComposeAll(cat, fn, es, st) ==
                  var q := ComposeAll(cat, fn, es[i..], At(body));
                  if q.Failure? then Failure(q.error) else Success((vs + q.value.0, q.value.1))
        invariant SetOf(funcs) + CalleesOfAll(es[i..]) == old(SetOf(funcs)) + CalleesOfAll(es)
        invariant CalleesOfAll(es) <= cat.funcs.Keys + CalleesOfAll(es[i..])
        invariant old(Distinct(funcs)) ==> Distinct(funcs)
      {
        assert es[i..][0] == es[i] && es[i..][1..] == es[i + 1..];
        var v := ComposeExpr(fn, es[i], body);
        if v.Failure? {
          return Failure(v.error);
        }
        ghost var q := ComposeAll(cat, fn, es[i + 1..], At(body));
        assert q.Success? ==> vs + ([v.value] + q.value.0) == vs + [v.value] + q.value.0;
        vs := vs + [v.value];
        i := i + 1;
      }
      assert es[i..] == [] && vs + [] == vs;
      return Success(vs);
    }

    // ----- the work list -----

    // Function z has been composed, and its code has not been touched since.
    ghost predicate Composed(z: Zid)
      requires z in code && z in starts && z in cat.funcs
      reads this
    {
      var raw := Raw(cat, z, cat.funcs[z].body, starts[z]);
      && cat.funcs[z].kind.Composition? && MarksBelow(starts[z]) && Composes(cat, z, cat.funcs[z].body)
      && raw.Success? && code[z] == raw.value.block && raw.value.next <= next && Agrees(marks, raw.value)
      && Callees(cat.funcs[z].body) <= SetOf(funcs)
    }

    ghost predicate Working()
      reads this
    {
      && Distinct(funcs) && SetOf(funcs) <= cat.funcs.Keys && MarksBelow(State([], next, marks))
      && code.Keys == starts.Keys == lives.Keys && code.Keys <= SetOf(funcs)
      && forall z :: z in code ==> Composed(z)
    }

    // The code of a body, and what composing it loads.
    method ComposeBody(z: Zid) returns (r: Option<seq<Node>>)
      requires z in cat.funcs
      modifies this`next, this`marks, this`funcs
      ensures var raw := Raw(cat, z, cat.funcs[z].body, State([], old(next), old(marks)));
              if r.None? then raw.Failure? else raw == Success(State(r.value, next, marks))
      ensures r.Some? ==> SetOf(funcs) == old(SetOf(funcs)) + Callees(cat.funcs[z].body)
                          && Callees(cat.funcs[z].body) <= cat.funcs.Keys
      ensures old(Distinct(funcs)) ==> Distinct(funcs)
    {
      hide Compose, Distinct, Callees;
      var body := new Block([]);
      var v := ComposeExpr(z, cat.funcs[z].body, body);
      if v.Failure? {
        return None;
      }
      body.Emit(Return(v.value));
      return Some(body.instructions);
    }

    // Composing the body of one loaded function.
    method ComposeFunction(z: Zid) returns (ok: bool)
      requires Working() && z in funcs && cat.funcs[z].kind.Composition? && z !in code
      modifies this
      ensures ok ==> Working() && code.Keys == old(code.Keys) + {z}
      ensures ok ==> SetOf(funcs) == old(SetOf(funcs)) + Callees(cat.funcs[z].body)
      ensures ok ==> old(next) <= next && Agrees(marks, State([], old(next), old(marks)))
      ensures ok == Composes(cat, z, cat.funcs[z].body)
    {
      hide Distinct, Agrees, Callees, Raw, MarksBelow, Composes;
      ghost var start := State([], next, marks);
      RawSucceeds(cat, z, start);
      var body := ComposeBody(z);
      if body.None? {
        return false;
      }
      RawMarks(cat, z, cat.funcs[z].body, start);
      code := code[z := body.value];
      starts, lives := starts[z := start], lives[z := {}];
      ghost var oldcode := old(code);
      assert Composed(z);
      forall y | y in oldcode
        ensures Composed(y)
      {
        assert old(Composed(y));
        AgreesBefore(marks, Raw(cat, y, cat.funcs[y].body, starts[y]).value, start);
      }
      return true;
    }

    // The loaded compositions that have no body yet.
    method Remaining() returns (zs: seq<Zid>)
      requires Distinct(funcs) && SetOf(funcs) <= cat.funcs.Keys
      ensures Distinct(zs)
      ensures forall z :: z in zs <==> z in funcs && cat.funcs[z].kind.Composition? && z !in code
    {
      zs := [];
      var i := 0;
      while i < |funcs|
        invariant 0 <= i <= |funcs| && Distinct(zs)
        invariant forall z :: z in zs <==> z in funcs[..i] && cat.funcs[z].kind.Composition? && z !in code
      {
        assert funcs[..i + 1] == funcs[..i] + [funcs[i]];
        if cat.funcs[funcs[i]].kind.Composition? && funcs[i] !in code {
          assert funcs[i] !in zs;
          zs := zs + [funcs[i]];
        }
        i := i + 1;
      }
      assert funcs[..i] == funcs;
    }

    // Everything loaded so far is in every compilable set with what was loaded first.
    static ghost predicate Needed(cat: Catalogue, first: set<Zid>, loaded: set<Zid>) {
      forall zs: set<Zid> :: first <= zs && Compilable(cat, zs) ==> loaded <= zs
    }

    static lemma NeededMore(cat: Catalogue, first: set<Zid>, loaded: set<Zid>, z: Zid)
      requires Needed(cat, first, loaded) && z in loaded && z in cat.funcs && cat.funcs[z].kind.Composition?
      ensures Needed(cat, first, loaded + Callees(cat.funcs[z].body))
      ensures !Composes(cat, z, cat.funcs[z].body) ==> !CanCompile(cat, first)
    {
      forall zs: set<Zid> | first <= zs && Compilable(cat, zs)
        ensures loaded + Callees(cat.funcs[z].body) <= zs && Composes(cat, z, cat.funcs[z].body)
      {
        assert z in zs;
      }
    }

    static ghost predicate CanCompile(cat: Catalogue, first: set<Zid>) {
      exists zs: set<Zid> :: first <= zs && Compilable(cat, zs)
    }

    /** The work list: composing the remaining functions, which may load more, until none remain. It terminates on
        every catalogue. It succeeds exactly when what was loaded is part of a compilable set, and everything that is
        called has then been loaded and composed. */
    method ComposeAllLoaded() returns (ok: bool)
      requires Working()
      modifies this
      ensures ok ==> Working() && Closed(cat, SetOf(funcs)) && old(SetOf(funcs)) <= SetOf(funcs)
      ensures ok ==> forall z :: z in funcs && cat.funcs[z].kind.Composition? ==> z in code
      ensures ok ==> old(next) <= next && Agrees(marks, State([], old(next), old(marks)))
      ensures ok == CanCompile(cat, old(SetOf(funcs)))
    {
      hide Compilable, CanCompile, Needed;
      ghost var first, loaded := State([], next, marks), SetOf(funcs);
      assert Needed(cat, loaded, loaded) by {
        NeededFirst(cat, loaded);
      }
      while true
        invariant Working() && loaded <= SetOf(funcs) && Needed(cat, loaded, SetOf(funcs))
        invariant first.next <= next && Agrees(marks, first)
        decreases cat.funcs.Keys - code.Keys
      {
        var zs := Remaining();
        if zs == [] {
          LoadedCompilable(loaded);
          return true;
        }
        ghost var before, here := code.Keys, State([], next, marks);
        ok := ComposeEach(zs, loaded);
        if !ok {
          return;
        }
        AgreesBefore(marks, first, here);
        assert zs[0] in SetOf(zs) && zs[0] in cat.funcs.Keys - before;
      }
    }

    static lemma NeededFirst(cat: Catalogue, first: set<Zid>)
      ensures Needed(cat, first, first)
    {
    }

    lemma LoadedCompilable(first: set<Zid>)
      requires Working() && first <= SetOf(funcs) && forall z :: z in funcs && cat.funcs[z].kind.Composition? ==>
                                                                 z in code
      ensures CanCompile(cat, first) && Closed(cat, SetOf(funcs))
    {
      hide Raw, Agrees, MarksBelow, Composes;
      assert forall z :: z in code ==> Composed(z);
      assert Compilable(cat, SetOf(funcs));
    }

    method ComposeEach(zs: seq<Zid>, ghost loaded: set<Zid>) returns (ok: bool)
      requires Working() && Distinct(zs) && Needed(cat, loaded, SetOf(funcs))
      requires forall z :: z in zs ==> z in funcs && cat.funcs[z].kind.Composition? && z !in code
      modifies this
      ensures ok ==> Working() && code.Keys == old(code.Keys) + SetOf(zs) && old(SetOf(funcs)) <= SetOf(funcs)
      ensures ok ==> old(next) <= next && Agrees(marks, State([], old(next), old(marks)))
      ensures if ok then Needed(cat, loaded, SetOf(funcs)) else !CanCompile(cat, loaded)
    {
      hide Compilable, CanCompile, Needed, Composes, Callees;
      ghost var first := State([], next, marks);
      var i := 0;
      while i < |zs|
        invariant 0 <= i <= |zs| && Working() && old(SetOf(funcs)) <= SetOf(funcs) && Needed(cat, loaded, SetOf(funcs))
        invariant first.next <= next && Agrees(marks, first)
        invariant code.Keys == old(code.Keys) + SetOf(zs[..i])
      {
        assert zs[..i + 1] == zs[..i] + [zs[i]] && zs[i] !in zs[..i];
        assert zs[i] in old(SetOf(funcs));
        ghost var here := State([], next, marks);
        NeededMore(cat, loaded, SetOf(funcs), zs[i]);
        ok := ComposeFunction(zs[i]);
        if !ok {
          return;
        }
        AgreesBefore(marks, first, here);
        i := i + 1;
      }
      assert zs[..i] == zs;
      return true;
    }
    // ----- the passes over the program -----

    method ConvertFunction(z: Zid)
      requires z in code
      modifies this`code
      ensures code == old(code)[z := Converted(h, old(code)[z], marks)]
    {
      var body := new Block(code[z]);
      body.EliminateCommonSubexpressions(h, []);
      body.ConstantConversion(h, marks);
      code := code[z := body.instructions];
    }

    // Common subexpressions, then constants, function by function.
    method EliminateAndConvert()
      requires Distinct(funcs) && code.Keys <= SetOf(funcs)
      modifies this`code
      ensures code.Keys == old(code.Keys) && forall z :: z in code ==> code[z] == Converted(h, old(code)[z], marks)
    {
      var i := 0;
      while i < |funcs|
        invariant 0 <= i <= |funcs| && code.Keys == old(code.Keys)
        invariant forall k :: 0 <= k < i && funcs[k] in code ==>
                              code[funcs[k]] == Converted(h, old(code)[funcs[k]], marks)
        invariant forall k :: i <= k < |funcs| && funcs[k] in code ==> code[funcs[k]] == old(code)[funcs[k]]
      {
        if funcs[i] in code {
          ConvertFunction(funcs[i]);
        }
        i := i + 1;
      }
    }

    // What dead-code elimination leaves of a block when it starts with `live`.
    static ghost predicate IsLeft(rule: ListRule, raw: seq<Node>, live: set<Variable>, left: seq<Node>) {
      left == Dce(rule, raw, live).0
    }

    method EliminateInFunction(z: Zid, live: set<Variable>) returns (grown: set<Variable>)
      requires z in code
      modifies this`code, this`lives
      ensures code.Keys == old(code.Keys) && lives == old(lives)[z := live]
      ensures forall y :: y in code && y != z ==> code[y] == old(code)[y]
      ensures IsLeft(rule, old(code)[z], live, code[z])
    {
      var body := new Block(code[z]);
      grown := body.EliminateDeadCode(rule, live);
      code, lives := code[z := body.instructions], lives[z := live];
    }

    // Dead code, function by function, with one live set that only grows.
    method EliminateDead(live: set<Variable>)
      requires Distinct(funcs) && code.Keys <= SetOf(funcs) && lives.Keys == code.Keys
      modifies this`code, this`lives
      ensures code.Keys == old(code.Keys) == lives.Keys
      ensures forall z :: z in code ==> IsLeft(rule, old(code)[z], lives[z], code[z])
    {
      ghost var was := code;
      var grown := live;
      for i := 0 to |funcs|
        invariant Progress(rule, was, SetOf(funcs[..i]), code, lives)
      {
        var z := funcs[i];
        ghost var done, codeBefore, livesBefore := SetOf(funcs[..i]), code, lives;
        assert funcs[..i + 1] == funcs[..i] + [z] && z !in funcs[..i];
        if z in code {
          grown := EliminateInFunction(z, grown);
        }
        ProgressStep(rule, was, done, codeBefore, livesBefore, z, code, lives);
        assert SetOf(funcs[..i + 1]) == done + {z};
      }
      assert funcs[..|funcs|] == funcs;
    }

    // Dead code has been eliminated from the functions in `done` and from no other.
    static ghost predicate Progress(rule: ListRule, was: Code, done: set<Zid>, now: Code, lives: map<Zid,
                                    set<Variable>>) {
      && now.Keys == was.Keys == lives.Keys
      && forall z :: z in was ==> if z in done then IsLeft(rule, was[z], lives[z], now[z]) else now[z] == was[z]
    }

    static lemma ProgressStep(rule: ListRule, was: Code, done: set<Zid>, now: Code, lives: map<Zid, set<Variable>>,
                              z: Zid, now': Code, lives': map<Zid, set<Variable>>)
      requires Progress(rule, was, done, now, lives) && z !in done && now'.Keys == now.Keys && lives'.Keys == lives.Keys
      requires forall y :: y in was && y != z ==> now'[y] == now[y] && lives'[y] == lives[y]
      requires z in was ==> IsLeft(rule, now[z], lives'[z], now'[z])
      ensures Progress(rule, was, done + {z}, now', lives')
    {
    }

    ghost function Output(): Program
      reads this
    {
      Program(code, starts, lives, marks, SetOf(funcs))
    }

    // The main function is loaded and its body emitted before anything else.
    method EmitMain(z: Zid) returns (body: Block)
      requires funcs == [] && next == 0 && marks == map[] && code == map[] && starts == map[] && z in cat.funcs
      modifies this
      ensures fresh(body) && body.instructions == MainRaw(cat, z, cat.funcs[z], |cat.funcs[z].params|)
      ensures next == MainEnd(cat, z, cat.funcs[z], |cat.funcs[z].params|)
      ensures marks == map[] && funcs == [z] && code == map[] && starts == map[] && lives == old(lives)
    {
      var ok := Load(z);
      var f := cat.funcs[z];
      next := |f.params|;
      var retval := NewVariable();
      body := new Block([]);
      assert At(body) == State([], |f.params| + 1, map[]);
      EvokeGrows(cat, z, f, retval, MainArgs(|f.params|), State([], |f.params| + 1, map[]));
      EmitEvoke(z, f, retval, MainArgs(|f.params|), body);
      body.Emit(Return(retval));
    }

    static lemma CompilableKnown(cat: Catalogue, first: set<Zid>)
      ensures CanCompile(cat, first) ==> first <= cat.funcs.Keys
    {
    }

    method OptimizeFunctions(body: Block)
      requires Working() && Closed(cat, SetOf(funcs))
      requires forall z :: z in funcs && cat.funcs[z].kind.Composition? ==> z in code
      modifies this`code, this`lives, body
      ensures funcs == old(funcs) && Emitted(rule, h, cat, Output())
      ensures body.instructions == Dce(rule, old(body.instructions), {}).0
    {
      ghost var raws := code;
      assert forall z :: z in raws ==> Composed(z);
      EliminateAndConvert();
      var live := body.EliminateDeadCode(rule, {});
      EliminateDead(live);
      AllCome(raws);
    }

    lemma AllCome(raws: Code)
      requires code.Keys == starts.Keys == lives.Keys == raws.Keys && raws.Keys <= cat.funcs.Keys
      requires forall z :: z in raws ==>
                 var raw := Raw(cat, z, cat.funcs[z].body, starts[z]);
                 && MarksBelow(starts[z]) && raw.Success? && raws[z] == raw.value.block && Agrees(marks, raw.value)
                 && IsLeft(rule, Converted(h, raws[z], marks), lives[z], code[z])
      ensures forall z :: z in code ==> Comes(rule, h, cat, z, starts[z], marks, lives[z], code[z])
    {
    }

    /** Compiling one function of the catalogue. It succeeds exactly when the function is part of a compilable set;
        the emitted program is then closed under calls and every body, the main one included, has gone through all
        passes. */
    method Compile(z: Zid) returns (r: Result<seq<Node>, string>)
      requires funcs == [] && next == 0 && marks == map[] && code == map[] && starts == map[] && lives == map[]
      modifies this
      ensures r.Success? <==> CanCompile(cat, {z})
      ensures r.Success? ==>
                && z in cat.funcs && Emitted(rule, h, cat, Output()) && z in Output().loaded
                && UnmarkedBelow(marks, MainEnd(cat, z, cat.funcs[z], |cat.funcs[z].params|))
                && r.value == Optimize(rule, h, MainRaw(cat, z, cat.funcs[z], |cat.funcs[z].params|), marks, {}).0
    {
      hide Compilable;
      if z !in cat.funcs {
        CompilableKnown(cat, {z});
        return Failure("unknown function");
      }
      var body := EmitMain(z);
      assert SetOf(funcs) == {z};
      ghost var first := State([], next, marks);
      var ok := ComposeAllLoaded();
      if !ok {
        return Failure("cannot compose");
      }
      assert UnmarkedBelow(marks, first.next);
      body.EliminateCommonSubexpressions(h, []);
      body.ConstantConversion(h, marks);
      OptimizeFunctions(body);
      return Success(body.instructions);
    }
  }
}
