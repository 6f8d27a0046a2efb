/**
  What the binary decoder reads (app/lib/frame.js:571-788) and the store it fills.
 */
module SlingDecode {
  import opened Common
  import opened SlingVarint
  import opened SlingGraph

  // The store that is filled, the ids registered in it, and the objects read so far.
  datatype Store = Store(heap: Heap, names: map<seq<byte>, nat>, refs: seq<Value>)
  datatype Got = Got(value: Value, pos: nat, store: Store)
  type Read = Result<Got, string>

  function Empty(): Store {
    Store([SymbolFrame(ID), SymbolFrame(ISA), SymbolFrame(IS), SymbolFrame(NAME)],
          map[SymbolName(ID) := ID, SymbolName(ISA) := ISA, SymbolName(IS) := IS, SymbolName(NAME) := NAME],
          [])
  }

  function SetState(heap: Heap, f: nat, state: State): (r: Heap)
    ensures |r| == |heap|
  {
    if f < |heap| then heap[f := heap[f].(state := state)] else heap
  }

  function SetSlots(heap: Heap, f: nat, slots: seq<Slot>): (r: Heap)
    ensures |r| == |heap|
  {
    if f < |heap| then heap[f := heap[f].(slots := Some(slots))] else heap
  }

  // Assigning to an element of a JavaScript array, at most one past its end.
  function SetRef(refs: seq<Value>, i: nat, v: Value): seq<Value> {
    if i < |refs| then refs[i := v] else refs + [v]
  }

  function Push(s: Store, v: Value): Store {
    s.(refs := s.refs + [v])
  }

  // The frame with an id, a new proxy if there is none.
  function Lookup(s: Store, id: seq<byte>): (Store, nat) {
    if id in s.names then (s, s.names[id])
    else
      var f := |s.heap|;
      (s.(heap := s.heap + [Frame(Proxy, Some([Slot(Link(ID), Text(id))]))], names := s.names[id := f]), f)
  }

  /** An id slot of the frame being read: the frame becomes public, or an existing frame takes its place,
      also in the reference table. */
  function Register(s: Store, id: seq<byte>, frame: nat, refidx: nat): (Store, nat) {
    if id in s.names then
      var existing := s.names[id];
      (s.(heap := SetState(s.heap, existing, Public), refs := SetRef(s.refs, refidx, Link(existing))), existing)
    else
      (s.(heap := SetState(s.heap, frame, Public), names := s.names[id := frame]), frame)
  }

  // Part of the input, cut off at its end.
  function Slice(input: seq<byte>, pos: nat, size: nat): seq<byte> {
    if pos + size <= |input| then input[pos..pos + size] else if pos <= |input| then input[pos..] else []
  }

  function Left(input: seq<byte>, pos: nat): nat {
    if pos < |input| then |input| - pos else 0
  }

  function Op(tag: int): (r: nat)
    ensures r < 8
  {
    tag % 8
  }

  function Arg(tag: int): int {
    ToInt32(Trunc(tag, 8))
  }

  // Reading one object.
  function Read1(input: seq<byte>, pos: nat, s: Store): (r: Read)
    ensures r.Success? ==> r.value.pos > pos
    decreases Left(input, pos), 0, 0
  {
    var t := ReadVarint64(input, pos);
    if Op(t.0) == 0 then
      var i := Arg(t.0);
      if 0 <= i < |s.refs| && s.refs[i] != Undefined then Success(Got(s.refs[i], t.1, s))
      else Failure("Invalid reference")
    else Dispatch(input, t.1, s, Op(t.0), Arg(t.0))
  }

  function Dispatch(input: seq<byte>, pos: nat, s: Store, op: nat, arg: int): (r: Read)
    ensures r.Success? ==> r.value.pos >= pos
    decreases Left(input, pos), 3, 0
  {
    if op == 5 then Success(Got(Number(ToInt32(4 * arg) / 4), pos, s))
    else if op == 6 then Success(Got(Float(4 * arg % TWO_32), pos, s))
    else if op == 7 then Special(input, pos, s, arg)
    else if arg < 0 then Failure("Invalid size")
    else if op == 1 then ReadNewFrame(input, pos, s, arg)
    else
      var text := Slice(input, pos, arg);
      if op == 4 then
        var l := Lookup(s, text);
        Success(Got(Link(l.1), pos + arg, Push(l.0, Link(l.1))))
      else Success(Got(Text(text), pos + arg, Push(s, Text(text))))
  }

  function Special(input: seq<byte>, pos: nat, s: Store, arg: int): (r: Read)
    ensures r.Success? ==> r.value.pos >= pos
    decreases Left(input, pos), 2, 2
  {
    if arg == 1 then Success(Got(Null, pos, s))
    else if arg == 2 then Success(Got(Link(ID), pos, s))
    else if arg == 3 then Success(Got(Link(ISA), pos, s))
    else if arg == 4 then Success(Got(Link(IS), pos, s))
    else if arg == 9 then Success(Got(Link(NAME), pos, s))
    else if arg == 5 then ReadArray(input, pos, s)
    else if arg == 6 then Failure("index is not modelled")
    else if arg == 7 then ReadResolve(input, pos, s)
    else if arg == 8 then ReadQString(input, pos, s)
    else Success(Got(Undefined, pos, s))
  }

  function ReadNewFrame(input: seq<byte>, pos: nat, s: Store, size: nat): (r: Read)
    ensures r.Success? ==> r.value.pos >= pos
    decreases Left(input, pos), 2, 1
  {
    var f := |s.heap|;
    var s1 := Push(s.(heap := s.heap + [Frame(Anonymous, None)]), Link(f));
    FillFrame(input, pos, s1, size, f, |s.refs|)
  }

  function ReadResolve(input: seq<byte>, pos: nat, s: Store): (r: Read)
    ensures r.Success? ==> r.value.pos >= pos
    decreases Left(input, pos), 2, 1
  {
    var size := ReadVarint32(input, pos);
    if size.Failure? then Failure(size.error)
    else
      var replace := ReadVarint32(input, size.value.1);
      if replace.Failure? then Failure(replace.error)
      else if 0 <= replace.value.0 < |s.refs| && s.refs[replace.value.0].Link? && size.value.0 >= 0 then
        FillFrame(input, replace.value.1, s, size.value.0, s.refs[replace.value.0].frame, |s.refs|)
      else Failure("Invalid replacement reference")
  }

  function FillFrame(input: seq<byte>, pos: nat, s: Store, size: nat, frame: nat, refidx: nat): (r: Read)
    ensures r.Success? ==> r.value.pos >= pos
    decreases Left(input, pos), 2, 0
  {
    var got := ReadSlots(input, pos, s, size, frame, refidx);
    if got.Failure? then Failure(got.error)
    else
      var (slots, filled) := got.value;
      Success(Got(filled.value, filled.pos,
                  filled.store.(heap := SetSlots(filled.store.heap, filled.value.frame, slots))))
  }

  // One slot, and the frame it is for, which an id slot may change.
  function ReadSlot(input: seq<byte>, pos: nat, s: Store, frame: nat, refidx: nat): (r: Result<(Slot, Got), string>)
    ensures r.Success? ==> r.value.1.pos > pos && r.value.1.value.Link?
    decreases Left(input, pos), 1, 0
  {
    var name := Read1(input, pos, s);
    if name.Failure? then Failure(name.error)
    else
      var value := Read1(input, name.value.pos, name.value.store);
      if value.Failure? then Failure(value.error)
      else
        var slot := Slot(name.value.value, value.value.value);
        if slot.name != Link(ID) then Success((slot, Got(Link(frame), value.value.pos, value.value.store)))
        else if slot.value.Text? then
          var (s', frame') := Register(value.value.store, slot.value.utf8, frame, refidx);
          Success((slot, Got(Link(frame'), value.value.pos, s')))
        else Failure("id is not a string")
  }

  function ReadSlots(input: seq<byte>, pos: nat, s: Store, size: nat, frame: nat,
                     refidx: nat): (r: Result<(seq<Slot>, Got), string>)
    ensures r.Success? ==> r.value.1.pos >= pos && r.value.1.value.Link?
    decreases Left(input, pos), 1, size
  {
    if size == 0 then Success(([], Got(Link(frame), pos, s)))
    else
      var first := ReadSlot(input, pos, s, frame, refidx);
      if first.Failure? then Failure(first.error)
      else
        var got := first.value.1;
        var rest := ReadSlots(input, got.pos, got.store, size - 1, got.value.frame, refidx);
        if rest.Failure? then rest else Success(([first.value.0] + rest.value.0, rest.value.1))
  }

  // An array takes its place in the reference table before its elements are read.
  function ReadArray(input: seq<byte>, pos: nat, s: Store): (r: Read)
    ensures r.Success? ==> r.value.pos >= pos
    decreases Left(input, pos), 2, 0
  {
    var size := ReadVarint32(input, pos);
    if size.Failure? then Failure(size.error)
    else if size.value.0 < 0 then Failure("Invalid size")
    else
      var got := ReadElements(input, size.value.1, Push(s, Undefined), size.value.0);
      if got.Failure? then Failure(got.error)
      else
        var (elements, pos', s') := got.value;
        Success(Got(List(elements), pos', s'.(refs := SetRef(s'.refs, |s.refs|, List(elements)))))
  }

  function ReadElements(input: seq<byte>, pos: nat, s: Store, size: nat): (r: Result<(seq<Value>, nat, Store), string>)
    ensures r.Success? ==> r.value.1 >= pos
    decreases Left(input, pos), 1, size
  {
    if size == 0 then Success(([], pos, s))
    else
      var first := Read1(input, pos, s);
      if first.Failure? then Failure(first.error)
      else
        var rest := ReadElements(input, first.value.pos, first.value.store, size - 1);
        if rest.Failure? then rest
        else Success(([first.value.value] + rest.value.0, rest.value.1, rest.value.2))
  }

  function ReadQString(input: seq<byte>, pos: nat, s: Store): (r: Read)
    ensures r.Success? ==> r.value.pos >= pos
    decreases Left(input, pos), 2, 0
  {
    var size := ReadVarint32(input, pos);
    if size.Failure? then Failure(size.error)
    else if size.value.0 < 0 then Failure("Invalid size")
    else
      var text, pos' := Slice(input, size.value.1, size.value.0), size.value.1 + size.value.0;
      var qual := Read1(input, pos', Push(s, Undefined));
      if qual.Failure? then Failure(qual.error)
      else
        var v := Qualified(text, qual.value.value);
        Success(Got(v, qual.value.pos, qual.value.store.(refs := SetRef(qual.value.store.refs, |s.refs|, v))))
  }

  // Reading objects until the end of the input.
  function ReadObjects(input: seq<byte>, pos: nat, s: Store): Result<(seq<Value>, Store), string>
    decreases Left(input, pos)
  {
    if pos == |input| then Success(([], s))
    else if pos > |input| then Failure("read past the end")
    else
      var first := Read1(input, pos, s);
      if first.Failure? then Failure(first.error)
      else
        var rest := ReadObjects(input, first.value.pos, first.value.store);
        if rest.Failure? then rest else Success(([first.value.value] + rest.value.0, rest.value.1))
  }

  // Decoding into an empty store, skipping the binary marker.
  function DecodeAll(input: seq<byte>): Result<(seq<Value>, Store), string> {
    ReadObjects(input, if |input| > 0 && input[0] == 0 then 1 else 0, Empty())
  }
}
