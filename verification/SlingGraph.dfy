/**
  Frame stores of the SLING library (app/lib/frame.js:39-310): a heap of frames whose slots are name-value
  pairs. Strings are given by their UTF-8 bytes. Arrays and qualified strings are values, because the
  encoder never shares them; frames have identity, a position in the heap.
 */
module SlingGraph {
  import opened Common
  import opened SlingVarint

  datatype State = Proxy | Stub | Public | Anonymous

  datatype Value =
    | Undefined
    | Null
    | Truth(truth: bool)
    | Number(number: int)
    | Float(bits: word)
    | Text(utf8: seq<byte>)
    | Link(frame: nat)
    | List(elements: seq<Value>)
    | Qualified(text: seq<byte>, qual: Value)

  datatype Slot = Slot(name: Value, value: Value)
  datatype Frame = Frame(state: State, slots: Option<seq<Slot>>)
  type Heap = seq<Frame>

  // The standard symbols are the first frames of every store.
  const ID: nat := 0
  const ISA: nat := 1
  const IS: nat := 2
  const NAME: nat := 3
  const SYMBOLS: nat := 4

  function SymbolName(f: nat): seq<byte>
    requires f < SYMBOLS
  {
    if f == ID then [105, 100]
    else if f == ISA then [105, 115, 97]
    else if f == IS then [105, 115]
    else [110, 97, 109, 101]
  }

  function SymbolFrame(f: nat): Frame
    requires f < SYMBOLS
  {
    Frame(Public, Some([Slot(Link(ID), Text(SymbolName(f)))]))
  }

  // The id slots of a frame.
  predicate HasId(h: Heap, f: nat, id: seq<byte>) {
    f < |h| && h[f].slots.Some? && Slot(Link(ID), Text(id)) in h[f].slots.value
  }

  // The value of the first id slot; None when there is none.
  function FirstId(slots: seq<Slot>): Option<Value> {
    if slots == [] then None
    else if slots[0].name == Link(ID) then Some(slots[0].value) else FirstId(slots[1..])
  }

  lemma {:induction false} FirstIdIn(slots: seq<Slot>)
    requires FirstId(slots).Some?
    ensures Slot(Link(ID), FirstId(slots).value) in slots
  {
    if slots[0].name == Link(ID) {
      assert slots[0] in slots;
    } else {
      FirstIdIn(slots[1..]);
    }
  }

  // All frames that a value points to are in `dom`, and its sizes can be written.
  predicate Within(v: Value, dom: set<nat>)
    decreases v
  {
    match v
    case Undefined => false
    case Text(s) => |s| < TWO_28
    case Link(f) => f in dom
    case List(es) => |es| < TWO_28 && forall i :: 0 <= i < |es| ==> Within(es[i], dom)
    case Qualified(s, q) => |s| < TWO_28 && Within(q, dom)
    case _ => true
  }

  predicate SlotsWithin(slots: seq<Slot>, dom: set<nat>) {
    forall s :: s in slots ==> Within(s.name, dom) && Within(s.value, dom)
  }

  /** What a store offers for encoding: slot arrays are present, public frames have an id, anonymous
      frames have none, ids are strings, no two frames share one, and nothing is undefined or dangling. */
  ghost predicate Graph(h: Heap) {
    && |h| >= SYMBOLS
    && (forall f :: 0 <= f < SYMBOLS ==> h[f].state.Public? && HasId(h, f, SymbolName(f)))
    && (forall f :: 0 <= f < |h| ==> GoodFrame(h[f], |h|))
    && forall f, g, id :: HasId(h, f, id) && HasId(h, g, id) ==> f == g
  }

  predicate GoodFrame(f: Frame, size: nat) {
    && f.slots.Some? && |f.slots.value| < TWO_28 && SlotsWithin(f.slots.value, Below(size))
    && (f.state.Anonymous? ==> forall s :: s in f.slots.value ==> s.name != Link(ID))
    && (!f.state.Anonymous? ==> FirstId(f.slots.value).Some?)
    && forall s :: s in f.slots.value && s.name == Link(ID) ==> s.value.Text?
  }

  function Below(n: nat): (r: set<nat>)
    ensures forall i: nat :: i in r <==> i < n
  {
    if n == 0 then {} else Below(n - 1) + {n - 1}
  }

  // ----- copies -----

  // What becomes of a number: the low 30 bits, read as a signed integer.
  function Wrap30(n: int): (r: int)
    ensures -0x2000_0000 <= r < 0x2000_0000
  {
    var m := n % 0x4000_0000;
    if m < 0x2000_0000 then m else m - 0x4000_0000
  }

  /** Exactly the 30-bit integers survive. */
  lemma Wrap30Exact(n: int)
    ensures Wrap30(n) == n <==> -0x2000_0000 <= n < 0x2000_0000
    ensures (Wrap30(n) - n) % 0x4000_0000 == 0
  {
    var m := n % 0x4000_0000;
    assert n == 0x4000_0000 * (n / 0x4000_0000) + m;
    if Wrap30(n) == m {
      assert Wrap30(n) - n == 0x4000_0000 * -(n / 0x4000_0000);
    } else {
      assert Wrap30(n) - n == 0x4000_0000 * (-(n / 0x4000_0000) - 1);
    }
  }

  // The value that decoding gives for an encoded value, when frame f has become frame m[f].
  function Copy(m: map<nat, nat>, v: Value): Value
    decreases v
  {
    match v
    case Truth(b) => Number(if b then 1 else 0)
    case Number(n) => Number(Wrap30(n))
    case Float(bits) => Float(bits / 4 * 4)
    case Link(f) => if f in m then Link(m[f]) else Undefined
    case List(es) => List(CopyAll(m, es))
    case Qualified(s, q) => Qualified(s, Copy(m, q))
    case _ => v
  }

  function CopyAll(m: map<nat, nat>, es: seq<Value>): (r: seq<Value>)
    ensures |r| == |es|
    decreases es
  {
    if es == [] then [] else [Copy(m, es[0])] + CopyAll(m, es[1..])
  }

  function CopySlots(m: map<nat, nat>, slots: seq<Slot>): (r: seq<Slot>)
    ensures |r| == |slots|
  {
    if slots == [] then []
    else [Slot(Copy(m, slots[0].name), Copy(m, slots[0].value))] + CopySlots(m, slots[1..])
  }

  ghost predicate Sub(m: map<nat, nat>, n: map<nat, nat>) {
    forall f :: f in m ==> f in n && n[f] == m[f]
  }

  lemma {:induction false} CopyStays(m: map<nat, nat>, n: map<nat, nat>, v: Value)
    requires Sub(m, n) && Within(v, m.Keys)
    ensures Copy(n, v) == Copy(m, v) && Within(v, n.Keys)
    decreases v
  {
    match v
    case List(es) => CopyAllStays(m, n, es);
    case Qualified(_, q) => CopyStays(m, n, q);
    case _ =>
  }

  lemma {:induction false} CopyAllStays(m: map<nat, nat>, n: map<nat, nat>, es: seq<Value>)
    requires Sub(m, n) && forall i :: 0 <= i < |es| ==> Within(es[i], m.Keys)
    ensures CopyAll(n, es) == CopyAll(m, es) && forall i :: 0 <= i < |es| ==> Within(es[i], n.Keys)
    decreases es
  {
    if es != [] {
      CopyStays(m, n, es[0]);
      CopyAllStays(m, n, es[1..]);
      assert es == [es[0]] + es[1..];
    }
  }

  lemma {:induction false} CopySlotsStays(m: map<nat, nat>, n: map<nat, nat>, slots: seq<Slot>)
    requires Sub(m, n) && SlotsWithin(slots, m.Keys)
    ensures CopySlots(n, slots) == CopySlots(m, slots) && SlotsWithin(slots, n.Keys)
  {
    if slots != [] {
      assert slots[0] in slots;
      CopyStays(m, n, slots[0].name);
      CopyStays(m, n, slots[0].value);
      assert forall s :: s in slots[1..] ==> s in slots;
      CopySlotsStays(m, n, slots[1..]);
      assert slots == [slots[0]] + slots[1..];
    }
  }
}
