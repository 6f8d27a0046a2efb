/**
  The intermediate code of the WikiFunctions compiler (wikifunc/wikifunc.js):
  instructions, nested blocks, and what running a block in a JavaScript host means.
  A block is a sequence of nodes; a slot that a pass has overwritten with null is Empty.
 */
module WikiIR {
  import opened Common

  // The id of an item on WikiFunctions, a number with the prefix Z.
  datatype Zid = Z(number: nat)

  // A variable object. Formals belong to a function; locals are numbered in creation order,
  // so equality of Local values is identity of the JavaScript objects.
  datatype Variable = Formal(func: Zid, name: string) | Local(id: nat)

  // The converter of a type to or from its native JavaScript form.
  datatype Conv = ToNative(typ: string) | FromNative(typ: string)

  // A constant in the code. Number is what constant conversion leaves behind.
  datatype Constant = Text(text: string) | Truth(truth: bool) | Natural(digits: string) | Number(digits: string)

  datatype Node =
    | Empty
    | Call(func: Zid, dst: Variable, args: seq<Variable>)
    | Convert(conv: Conv, dst: Variable, src: Variable)
    | Const(dst: Variable, constant: Constant, via: Option<Conv>)
    | Build(dst: Variable, typ: string, elements: seq<Variable>)
    | Declare(dst: Variable)
    | Assign(dst: Variable, src: Variable)
    | Return(src: Variable)
    | Conditional(condition: Variable, ifpart: seq<Node>, elsepart: seq<Node>)

  // A list may have holes, None, where code leaves an element out.
  datatype Value =
    | Undefined
    | TextValue(text: string)
    | TruthValue(truth: bool)
    | NaturalValue(digits: string)
    | ListValue(typ: string, elements: seq<Option<Value>>)
    | NativeValue(handle: int)

  // The host: converters, native code and JavaScript library functions. All are pure.
  datatype Host = Host(
    convert: (Conv, Value) -> Option<Value>,
    native: (Zid, seq<Value>) -> Option<Value>,
    parseInt: string -> Value,
    toNumber: string -> Option<int>,
    truthy: int -> bool,
    converterName: Conv -> Zid)

  type Env = map<Variable, Value>

  // What a call to a function returns; None when it throws or runs out of fuel.
  type Oracle = (Zid, seq<Value>) -> Option<Value>

  datatype Outcome = Failed | Running(env: Env) | Returned(value: Value)

  function ConstantValue(h: Host, c: Constant): Value {
    match c
    case Text(s) => TextValue(s)
    case Truth(b) => TruthValue(b)
    case Natural(d) => NaturalValue(d)
    case Number(d) => h.parseInt(d)
  }

  predicate Truthy(h: Host, v: Value) {
    match v
    case Undefined => false
    case TextValue(s) => s != ""
    case TruthValue(b) => b
    case NaturalValue(_) => true
    case ListValue(_, _) => true
    case NativeValue(n) => h.truthy(n)
  }

  predicate Bound(vars: seq<Variable>, env: Env) {
    forall v :: v in vars ==> v in env
  }

  function Values(vars: seq<Variable>, env: Env): (r: seq<Value>)
    requires Bound(vars, env)
  {
    seq(|vars|, i requires 0 <= i < |vars| => env[vars[i]])
  }

  // A list without holes.
  function Full(values: seq<Value>): (r: seq<Option<Value>>)
    ensures |r| == |values|
  {
    seq(|values|, i requires 0 <= i < |values| => Some(values[i]))
  }

  /** What the brackets of a list hold. A variable that the code never gives a value has no name and is printed as
      nothing: between commas that is a hole, and at the end it is no element at all. */
  function Listed(vars: seq<Variable>, env: Env): (r: seq<Option<Value>>)
    ensures |r| == if vars != [] && vars[|vars| - 1] !in env then |vars| - 1 else |vars|
  {
    var size := if vars != [] && vars[|vars| - 1] !in env then |vars| - 1 else |vars|;
    seq(size, i requires 0 <= i < size => if vars[i] in env then Some(env[vars[i]]) else None)
  }

  /** A list is the intended one if and only if all its elements have values. */
  lemma ListedExact(vars: seq<Variable>, env: Env, values: seq<Value>)
    requires |values| == |vars| && forall i :: 0 <= i < |vars| && vars[i] in env ==> env[vars[i]] == values[i]
    ensures Listed(vars, env) == Full(values) <==> Bound(vars, env)
  {
    var r := Listed(vars, env);
    if r == Full(values) {
      forall i | 0 <= i < |vars| ensures vars[i] in env {
        assert r[i] == Full(values)[i];
      }
    }
    if Bound(vars, env) {
      assert forall i :: 0 <= i < |vars| ==> vars[i] in vars;
      assert r == Full(values);
    }
  }

  // Leaving a branch: its own variables go out of scope.
  function Leave(outer: set<Variable>, o: Outcome): Outcome {
    if o.Running? then Running(map v | v in o.env && v in outer :: o.env[v]) else o
  }

  function Define(env: Env, dst: Variable, v: Option<Value>): Outcome {
    if v.Some? then Running(env[dst := v.value]) else Failed
  }

  function Step(h: Host, call: Oracle, n: Node, env: Env): Outcome
    decreases n
  {
    match n
    case Empty => Running(env)
    case Call(f, dst, args) => if Bound(args, env) then Define(env, dst, call(f, Values(args, env))) else Failed
    case Convert(c, dst, src) => if src in env then Define(env, dst, h.convert(c, env[src])) else Failed
    case Const(dst, c, _) => Running(env[dst := ConstantValue(h, c)])
    case Build(dst, typ, es) => Running(env[dst := ListValue(typ, Listed(es, env))])
    case Declare(dst) => Running(env[dst := Undefined])
    case Assign(dst, src) => if dst in env && src in env then Running(env[dst := env[src]]) else Failed
    case Return(src) => if src in env then Returned(env[src]) else Failed
    case Conditional(c, a, b) =>
      if c !in env then Failed
      else Leave(env.Keys, if Truthy(h, env[c]) then Run(h, call, a, env) else Run(h, call, b, env))
  }

  function Run(h: Host, call: Oracle, nodes: seq<Node>, env: Env): Outcome
    decreases nodes
  {
    if nodes == [] then Running(env)
    else
      var o := Step(h, call, nodes[0], env);
      if o.Running? then Run(h, call, nodes[1..], o.env) else o
  }

  // ----- static structure -----

  predicate Pure(n: Node) {
    n.Call? || n.Convert? || n.Const? || n.Build?
  }

  function Reads(n: Node): set<Variable> {
    match n
    case Call(_, _, args) => set v | v in args
    case Convert(_, _, src) => {src}
    case Build(_, _, es) => set v | v in es
    case Assign(_, src) => {src}
    case Return(src) => {src}
    case Conditional(c, _, _) => {c}
    case _ => {}
  }

  // All variables a node or block brings into existence, nested branches included.
  function NodeDefs(n: Node): set<Variable>
    decreases n
  {
    match n
    case Empty => {}
    case Call(_, dst, _) => {dst}
    case Convert(_, dst, _) => {dst}
    case Const(dst, _, _) => {dst}
    case Build(dst, _, _) => {dst}
    case Declare(dst) => {dst}
    case Assign(_, _) => {}
    case Return(_) => {}
    case Conditional(_, a, b) => AllDefs(a) + AllDefs(b)
  }

  function AllDefs(nodes: seq<Node>): set<Variable>
    decreases nodes
  {
    if nodes == [] then {} else NodeDefs(nodes[0]) + AllDefs(nodes[1..])
  }

  // The variables tested by conditionals.
  function NodeTests(n: Node): set<Variable>
    decreases n
  {
    if n.Conditional? then {n.condition} + Tests(n.ifpart) + Tests(n.elsepart) else {}
  }

  function Tests(nodes: seq<Node>): set<Variable>
    decreases nodes
  {
    if nodes == [] then {} else NodeTests(nodes[0]) + Tests(nodes[1..])
  }

  // Readable variables after a node that leaves `pend` declared but unassigned.
  function NextDefs(n: Node, def: set<Variable>, pend: Option<Variable>): set<Variable> {
    if Pure(n) then def + NodeDefs(n)
    else if n.Conditional? && pend.Some? then def + {pend.value}
    else def
  }

  function NextPend(n: Node, pend: Option<Variable>): Option<Variable> {
    match n
    case Declare(dst) => Some(dst)
    case Conditional(_, _, _) => None
    case _ => pend
  }

  // Every variable is created at most once.
  ghost predicate Unique(nodes: seq<Node>)
    decreases nodes
  {
    nodes == [] ||
    (&& NodeDefs(nodes[0]) !! AllDefs(nodes[1..]) && Unique(nodes[1..])
     && (nodes[0].Conditional? ==>
           && AllDefs(nodes[0].ifpart) !! AllDefs(nodes[0].elsepart)
           && Unique(nodes[0].ifpart) && Unique(nodes[0].elsepart)))
  }

  /** How code is laid out: variables are read only where they are visible, tests left aside. A result variable is
      declared before a conditional (`pend` between the two) whose branches both end by assigning it (`target` inside a
      branch). */
  ghost predicate Laid(nodes: seq<Node>, def: set<Variable>, pend: Option<Variable>, target: Option<Variable>)
    decreases nodes
  {
    if nodes == [] then pend.None? && target.None?
    else if nodes[0].Assign? then
      pend.None? && target == Some(nodes[0].dst) && nodes[0].src in def && nodes[1..] == []
    else if nodes[0].Return? then
      pend.None? && target.None? && nodes[0].src in def && nodes[1..] == []
    else
      && (if nodes[0].Conditional? then
            pend.Some? && Laid(nodes[0].ifpart, def, None, pend) && Laid(nodes[0].elsepart, def, None, pend)
          else nodes[0].Empty? || (pend.None? && Reads(nodes[0]) <= def))
      && Laid(nodes[1..], NextDefs(nodes[0], def, pend), NextPend(nodes[0], pend), target)
  }

  // Every test is of a variable that is visible.
  ghost predicate Seen(nodes: seq<Node>, def: set<Variable>, pend: Option<Variable>)
    decreases nodes
  {
    nodes != [] ==>
    && (nodes[0].Conditional? ==>
          nodes[0].condition in def && Seen(nodes[0].ifpart, def, None) && Seen(nodes[0].elsepart, def, None))
    && Seen(nodes[1..], NextDefs(nodes[0], def, pend), NextPend(nodes[0], pend))
  }

  // Every variable is read, or tested, only where it is visible.
  ghost predicate Scoped(nodes: seq<Node>, def: set<Variable>, pend: Option<Variable>, target: Option<Variable>) {
    Laid(nodes, def, pend, target) && Seen(nodes, def, pend)
  }

  // The code makes only variables that are not there yet.
  predicate Apart(nodes: seq<Node>, def: set<Variable>, pend: Option<Variable>, target: Option<Variable>) {
    && Open(pend, target) !! def && AllDefs(nodes) !! def + Open(pend, target)
    && (pend.Some? ==> pend != target)
  }

  /** The shape of the code that composition emits and that every pass but the last one keeps. */
  ghost predicate Wf(nodes: seq<Node>, def: set<Variable>, pend: Option<Variable>, target: Option<Variable>) {
    Scoped(nodes, def, pend, target) && Unique(nodes) && Apart(nodes, def, pend, target)
  }

  // The same, tests left aside.
  ghost predicate Shaped(nodes: seq<Node>, def: set<Variable>, pend: Option<Variable>, target: Option<Variable>) {
    Laid(nodes, def, pend, target) && Unique(nodes) && Apart(nodes, def, pend, target)
  }

  lemma WfShaped(nodes: seq<Node>, def: set<Variable>, pend: Option<Variable>, target: Option<Variable>)
    requires Wf(nodes, def, pend, target)
    ensures Shaped(nodes, def, pend, target)
  {
  }

  lemma ShapedRest(nodes: seq<Node>, def: set<Variable>, pend: Option<Variable>, target: Option<Variable>)
    requires nodes != [] && !nodes[0].Assign? && !nodes[0].Return? && Shaped(nodes, def, pend, target)
    ensures Shaped(nodes[1..], NextDefs(nodes[0], def, pend), NextPend(nodes[0], pend), target)
    ensures nodes[0].Conditional? ==>
              && Shaped(nodes[0].ifpart, def, None, pend) && Shaped(nodes[0].elsepart, def, None, pend)
              && AllDefs(nodes[0].ifpart) !! AllDefs(nodes[0].elsepart)
  {
  }

  lemma WfRest(nodes: seq<Node>, def: set<Variable>, pend: Option<Variable>, target: Option<Variable>)
    requires nodes != [] && !nodes[0].Assign? && !nodes[0].Return? && Wf(nodes, def, pend, target)
    ensures Wf(nodes[1..], NextDefs(nodes[0], def, pend), NextPend(nodes[0], pend), target)
    ensures nodes[0].Conditional? ==>
              && Wf(nodes[0].ifpart, def, None, pend) && Wf(nodes[0].elsepart, def, None, pend)
              && AllDefs(nodes[0].ifpart) !! AllDefs(nodes[0].elsepart)
  {
    ShapedRest(nodes, def, pend, target);
    hide Laid, Unique, Apart;
  }

  // The variables that are declared but have no value yet.
  function Open(pend: Option<Variable>, target: Option<Variable>): set<Variable> {
    (if pend.Some? then {pend.value} else {}) + (if target.Some? then {target.value} else {})
  }

  function DefsAfter(nodes: seq<Node>, def: set<Variable>, pend: Option<Variable>): set<Variable> {
    if nodes == [] then def else DefsAfter(nodes[1..], NextDefs(nodes[0], def, pend), NextPend(nodes[0], pend))
  }

  // ----- all instructions of some code, those of branches included -----

  function Flat(n: Node): set<Node>
    decreases n
  {
    if n.Conditional? then AllNodes(n.ifpart) + AllNodes(n.elsepart) else {n}
  }

  function AllNodes(nodes: seq<Node>): set<Node>
    decreases nodes
  {
    if nodes == [] then {} else Flat(nodes[0]) + AllNodes(nodes[1..])
  }
}
