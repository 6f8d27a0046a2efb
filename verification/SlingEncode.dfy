/**
  What the binary encoder writes (app/lib/frame.js:809-980) and the reference table it keeps.
 */
module SlingEncode {
  import opened Common
  import opened SlingVarint
  import opened SlingGraph

  // The encoding status of a frame: written out, or only linked to; and its number in the output.
  datatype Ref = Ref(encoded: bool, index: int)
  datatype Table = Table(refs: map<nat, Ref>, next: nat)
  datatype Output = Output(bytes: seq<byte>, table: Table)
  type Written = Result<Output, string>

  // Standard symbols are written as special values, numbered by the negative of their index.
  function SymbolIndex(f: nat): (r: int)
    requires f < SYMBOLS
    ensures r < 0
  {
    if f == ID then -2 else if f == ISA then -3 else if f == IS then -4 else -9
  }

  // The table of a new encoder.
  function Start(): Table {
    Table(map f: nat | f < SYMBOLS :: Ref(true, SymbolIndex(f)), 0)
  }

  function Tag(op: nat, arg: nat): (r: seq<byte>)
    ensures |r| > 0
  {
    Leb(op + 8 * arg)
  }

  function RefBytes(index: int): (r: seq<byte>)
    ensures |r| > 0
  {
    if index < 0 then Tag(7, -index) else Tag(0, index)
  }

  function TextBytes(op: nat, s: seq<byte>): seq<byte> {
    Tag(op, |s|) + s
  }

  // The id written for a link: empty when a frame that is not anonymous has none.
  function LinkId(f: Frame): Option<seq<byte>> {
    if f.state.Anonymous? || f.slots.None? then Some([])
    else
      var id := FirstId(f.slots.value);
      if id.None? then Some([]) else if id.value.Text? then Some(id.value.utf8) else None
  }

  // The frames that are still to be written out.
  function Pending(h: Heap, t: Table): set<nat> {
    set f: nat | f < |h| && !(f in t.refs && t.refs[f].encoded)
  }

  function Mark(t: Table, f: nat, encoded: bool): Table {
    Table(t.refs[f := Ref(encoded, t.next)], t.next + 1)
  }

  function Resolved(t: Table, f: nat): Table
    requires f in t.refs
  {
    t.(refs := t.refs[f := t.refs[f].(encoded := true)])
  }

  function Then(first: seq<byte>, r: Written): Written {
    if r.Failure? then r else Success(Output(first + r.value.bytes, r.value.table))
  }

  // Linking to a frame that the table does not know.
  function EncodeNewLink(h: Heap, f: nat, t: Table): (r: Written)
    requires f < |h| && f !in t.refs
    ensures r.Success? ==> Pending(h, r.value.table) == Pending(h, t)
  {
    var id := LinkId(h[f]);
    if id.None? then Failure("id is not a string")
    else Success(Output(TextBytes(4, id.value), Mark(t, f, false)))
  }

  function Encode(h: Heap, v: Value, t: Table): (r: Written)
    ensures r.Success? ==> Pending(h, r.value.table) <= Pending(h, t)
    decreases Pending(h, t), v, 1
  {
    match v
    case Number(n) => Success(Output(Tag(5, n % 0x4000_0000), t))
    case Float(bits) => Success(Output(Tag(6, bits / 4), t))
    case Truth(b) => Success(Output(Tag(5, if b then 1 else 0), t))
    case Null => Success(Output(Tag(7, 1), t))
    case Text(s) => Success(Output(TextBytes(2, s), t.(next := t.next + 1)))
    case Link(f) => EncodeFrame(h, f, t)
    case List(es) => Then(Tag(7, 5) + Leb(|es|), EncodeLinks(h, es, t.(next := t.next + 1)))
    case Qualified(s, q) => Then(Tag(7, 8) + Leb(|s|) + s, EncodeLink(h, q, t.(next := t.next + 1)))
    case Undefined => Failure("Object type cannot be encoded")
  }

  // Writing a frame out, unless it has been written before.
  function EncodeFrame(h: Heap, f: nat, t: Table): (r: Written)
    ensures r.Success? ==> Pending(h, r.value.table) <= Pending(h, t)
    decreases Pending(h, t), Link(f), 0
  {
    if f >= |h| then Failure("no such frame")
    else if f in t.refs && (t.refs[f].encoded || h[f].state.Proxy?) then
      Success(Output(RefBytes(t.refs[f].index), t))
    else if h[f].state.Proxy? then EncodeNewLink(h, f, t)
    else if h[f].slots.None? then Failure("slots is null")
    else
      var slots := h[f].slots.value;
      assert f in Pending(h, t);
      if f in t.refs then
        assert f !in Pending(h, Resolved(t, f));
        Then(Tag(7, 7) + Leb(|slots|) + Leb(if t.refs[f].index < 0 then 0 else t.refs[f].index),
             EncodeSlots(h, slots, Resolved(t, f)))
      else
        assert f !in Pending(h, Mark(t, f, true));
        Then(Tag(1, |slots|), EncodeSlots(h, slots, Mark(t, f, true)))
  }

  // Anything that is not anonymous is only linked to.
  function EncodeLink(h: Heap, v: Value, t: Table): (r: Written)
    ensures r.Success? ==> Pending(h, r.value.table) <= Pending(h, t)
    decreases Pending(h, t), v, 2
  {
    if v.Link? && v.frame < |h| && !h[v.frame].state.Anonymous? then
      if v.frame in t.refs then Success(Output(RefBytes(t.refs[v.frame].index), t))
      else EncodeNewLink(h, v.frame, t)
    else Encode(h, v, t)
  }

  function EncodeLinks(h: Heap, es: seq<Value>, t: Table): (r: Written)
    ensures r.Success? ==> Pending(h, r.value.table) <= Pending(h, t)
    decreases Pending(h, t), es
  {
    if es == [] then Success(Output([], t))
    else
      var first := EncodeLink(h, es[0], t);
      if first.Failure? then first
      else Then(first.value.bytes, EncodeLinks(h, es[1..], first.value.table))
  }

  // A slot: the value of an id slot is written as a symbol, not as a link.
  function EncodeSlot(h: Heap, s: Slot, t: Table): (r: Written)
    ensures r.Success? ==> Pending(h, r.value.table) <= Pending(h, t)
    decreases Pending(h, t), s
  {
    var name := EncodeLink(h, s.name, t);
    if name.Failure? then name
    else Then(name.value.bytes,
              if s.name != Link(ID) then EncodeLink(h, s.value, name.value.table)
              else if s.value.Text? then
                Success(Output(TextBytes(3, s.value.utf8), name.value.table.(next := name.value.table.next + 1)))
              else Failure("id is not a string"))
  }

  function EncodeSlots(h: Heap, slots: seq<Slot>, t: Table): (r: Written)
    ensures r.Success? ==> Pending(h, r.value.table) <= Pending(h, t)
    decreases Pending(h, t), slots
  {
    if slots == [] then Success(Output([], t))
    else
      var first := EncodeSlot(h, slots[0], t);
      if first.Failure? then first
      else Then(first.value.bytes, EncodeSlots(h, slots[1..], first.value.table))
  }

  // Encoding several objects one after the other.
  function EncodeRoots(h: Heap, roots: seq<Value>, t: Table): (r: Written) {
    if roots == [] then Success(Output([], t))
    else
      var first := Encode(h, roots[0], t);
      if first.Failure? then first else Then(first.value.bytes, EncodeRoots(h, roots[1..], first.value.table))
  }

  // The whole output, with the binary marker in front.
  function EncodeAll(h: Heap, roots: seq<Value>): Written {
    Then([0], EncodeRoots(h, roots, Start()))
  }
}
