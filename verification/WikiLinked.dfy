/**
  What the reachable items are for: a program in which only they are printed runs as the whole program does
  (wikifunc/wikifunc.js:265-268, 309-312, 484-488, 702-726).
 */
module WikiLinked {
  import opened Common
  import opened WikiIR
  import opened WikiCompose
  import opened WikiProgram

  // What an instruction refers to and code generation must provide.
  datatype Item = FuncItem(z: Zid) | ConvItem(conv: Conv)

  // A host in which only some converters can be called.
  function OnlyConverters(h: Host, items: set<Item>): Host {
    h.(convert := (c: Conv, v: Value) => if ConvItem(c) in items then h.convert(c, v) else None)
  }

  // A catalogue of which only some functions can be called.
  function OnlyFunctions(cat: Catalogue, items: set<Item>): Catalogue {
    cat.(funcs := map z | z in cat.funcs && FuncItem(z) in items :: cat.funcs[z])
  }

  /** Calling a function or a converter outside the set fails, and still every run of the main body has the outcome
      that it has when everything can be called: at every depth of calls, and also in the bodies of called functions. */
  ghost predicate Enough(main: seq<Node>, code: Code, items: set<Item>) {
    forall h: Host, cat: Catalogue, depth: nat, env: Env :: SameRun(h, cat, code, main, items, depth, env)
  }

  ghost predicate SameRun(h: Host, cat: Catalogue, code: Code, main: seq<Node>, items: set<Item>, depth: nat,
                          env: Env) {
    var h', cat' := OnlyConverters(h, items), OnlyFunctions(cat, items);
    Run(h', Calls(h', cat', code, depth), main, env) == Run(h, Calls(h, cat, code, depth), main, env)
  }
}
