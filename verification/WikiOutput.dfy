/**
  Compiling, naming and finding what is reachable, as one run of the compiler (wikifunc/wikifunc.js:642-740): every
  item that the printed code refers to is printed, and no two variables have the same name.
 */
module WikiOutput {
  import opened Common
  import opened WikiIR
  import opened WikiCse
  import opened WikiDce
  import opened WikiCompose
  import opened WikiProgram
  import opened WikiCompiler
  import opened WikiLinked
  import opened WikiReach

  // The code of the main body, what is reachable from it, and the names of variables.
  datatype Result = Result(main: seq<Node>, reachable: set<Item>, names: Names)

  ghost predicate Proper(names: Names) {
    Generated(names) && DistinctNames(names)
  }

  // The variables that naming the arguments of the main body gives names to.
  function Arguments(count: nat): set<Variable> {
    set v | v in MainArgs(count)
  }

  // Those that naming some functions gives names to.
  function CodeBaptized(code: Code, zs: set<Zid>): set<Variable> {
    set z, v | z in zs && z in code && v in Baptized(code[z]) :: v
  }

  // Naming the arguments, then the functions in the order they were loaded, then the main body.
  method NameAll(count: nat, funcs: seq<Zid>, code: Code, main: seq<Node>) returns (names: Names)
    ensures Proper(names)
    ensures names.named.Keys == Arguments(count) + CodeBaptized(code, SetOf(funcs)) + Baptized(main)
  {
    hide *;
    names := Names(map[], 0);
    NothingNamed(names, code);
    for i := 0 to count
      invariant Proper(names) && names.named.Keys == Arguments(i)
    {
      ArgumentNamed(i, names);
      names := BaptizeVariable(Local(i), names);
    }
    for i := 0 to |funcs|
      invariant Proper(names) && names.named.Keys == Arguments(count) + CodeBaptized(code, SetOf(funcs[..i]))
    {
      CodeBaptizedMore(code, funcs[..i], funcs[i]);
      assert funcs[..i + 1] == funcs[..i] + [funcs[i]];
      if funcs[i] in code {
        CodeNamed(code[funcs[i]], names);
        names := Baptize(code[funcs[i]], names);
      }
    }
    assert funcs[..|funcs|] == funcs;
    CodeNamed(main, names);
    names := Baptize(main, names);
  }

  lemma NothingNamed(names: Names, code: Code)
    requires names.named == map[]
    ensures Proper(names) && Arguments(0) == {} && CodeBaptized(code, SetOf([])) == {}
  {
    assert MainArgs(0) == [];
  }

  lemma ArgumentNamed(i: nat, names: Names)
    requires Proper(names) && names.named.Keys == Arguments(i)
    ensures var r := BaptizeVariable(Local(i), names); Proper(r) && r.named.Keys == Arguments(i + 1)
  {
    BaptizeVariableDistinct(Local(i), names);
    BaptizeVariableNames(Local(i), names);
    assert MainArgs(i + 1) == MainArgs(i) + [Local(i)];
  }

  lemma CodeNamed(nodes: seq<Node>, names: Names)
    requires Proper(names)
    ensures var r := Baptize(nodes, names); Proper(r) && r.named.Keys == names.named.Keys + Baptized(nodes)
  {
    BaptizeDistinct(nodes, names);
  }

  lemma CodeBaptizedMore(code: Code, zs: seq<Zid>, z: Zid)
    ensures CodeBaptized(code, SetOf(zs + [z])) ==
            CodeBaptized(code, SetOf(zs)) + (if z in code then Baptized(code[z]) else {})
  {
  }

  // The reachable items are the least closed set that contains what the main body refers to.
  ghost predicate Reached(main: seq<Node>, code: Code, reachable: set<Item>) {
    && Items(main) <= reachable && ClosedItems(code, reachable)
    && forall s: set<Item> :: Items(main) <= s && ClosedItems(code, s) ==> reachable <= s
  }

  // Everything reachable can be printed: it has been loaded, and compositions have code.
  ghost predicate Printable(cat: Catalogue, p: Program, reachable: set<Item>) {
    forall i :: i in reachable ==>
      Provided(cat, p.loaded, i) && (i.FuncItem? && i.z in cat.funcs && cat.funcs[i.z].kind.Composition? ==>
                                     i.z in p.code)
  }

  // Names are pairwise distinct, and given to exactly the arguments and the variables that some code makes, assigns
  // or tests.
  ghost predicate AllNamed(count: nat, main: seq<Node>, code: Code, names: Names) {
    Proper(names) && names.named.Keys == Arguments(count) + CodeBaptized(code, code.Keys) + Baptized(main)
  }

  // What compiling a function emits for its main body.
  ghost predicate MainOf(rule: ListRule, h: Host, cat: Catalogue, p: Program, z: Zid, main: seq<Node>) {
    && z in p.loaded && z in cat.funcs && UnmarkedBelow(p.marks, MainEnd(cat, z, cat.funcs[z], |cat.funcs[z].params|))
    && main == Optimize(rule, h, MainRaw(cat, z, cat.funcs[z], |cat.funcs[z].params|), p.marks, {}).0
  }

  /** One run of the compiler. It succeeds exactly when the function is part of a compilable set. Then the program is
      emitted as its source says; the reachable items are the least closed set, and all of them have been loaded, with
      code for every composition; names are pairwise distinct, and exactly the arguments and the variables that some
      code makes, assigns or tests have one. */
  method Generate(c: Compiler, z: Zid) returns (r: Option<Result>)
    requires c.funcs == [] && c.next == 0 && c.marks == map[] && c.code == map[] && c.starts == map[]
    requires c.lives == map[]
    modifies c
    ensures r.Some? <==> Compiler.CanCompile(c.cat, {z})
    ensures r.Some? ==> Emitted(c.rule, c.h, c.cat, c.Output())
                        && MainOf(c.rule, c.h, c.cat, c.Output(), z, r.value.main)
    ensures r.Some? ==> Reached(r.value.main, c.code, r.value.reachable)
    ensures r.Some? ==> Enough(r.value.main, c.code, r.value.reachable)
                        && Printable(c.cat, c.Output(), r.value.reachable)
    ensures r.Some? ==> z in c.cat.funcs && AllNamed(|c.cat.funcs[z].params|, r.value.main, c.code, r.value.names)
  {
    var main := c.Compile(z);
    if main.Failure? {
      return None;
    }
    var reachable := Reach(main.value, c.code);
    AllPrintable(c.rule, c.h, c.cat, c.Output(), z, main.value, reachable);
    var names := NameAll(|c.cat.funcs[z].params|, c.funcs, c.code, main.value);
    assert CodeBaptized(c.code, SetOf(c.funcs)) == CodeBaptized(c.code, c.code.Keys) by {
      assert forall y :: y in c.code ==> y in c.Output().loaded;
    }
    return Some(Result(main.value, reachable, names));
  }

  /** Nothing that the emitted code refers to is missing from the output. */
  lemma AllPrintable(rule: ListRule, h: Host, cat: Catalogue, p: Program, z: Zid, main: seq<Node>, reachable: set<Item>)
    requires Emitted(rule, h, cat, p) && MainOf(rule, h, cat, p, z, main) && Reached(main, p.code, reachable)
    ensures Printable(cat, p, reachable)
  {
    hide Optimize, Comes;
    MainProvided(rule, h, cat, p.loaded, z, p.marks, {});
    ReachableIsProvided(rule, h, cat, p, main, reachable);
  }
}
