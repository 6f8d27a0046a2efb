/**
  The binary decoder as the program runs it (app/lib/frame.js:571-788): a position moves over the input while
  a store and a table of references are filled.
 */
module SlingDecoder {
  import opened Common
  import opened SlingVarint
  import opened SlingGraph
  import opened SlingEncode
  import opened SlingDecode
  import opened SlingIso

  class Decoder {
    const input: seq<byte>
    var pos: nat
    var heap: Heap
    var names: map<seq<byte>, nat>
    var refs: seq<Value>

    function State(): Store
      reads this
    {
      Store(heap, names, refs)
    }

    // Decoding into an empty store; the binary marker is skipped.
    constructor (input: seq<byte>)
      ensures this.input == input && State() == Empty() && pos == if |input| > 0 && input[0] == 0 then 1 else 0
    {
      this.input := input;
      pos := if |input| > 0 && input[0] == 0 then 1 else 0;
      heap := Empty().heap;
      names := Empty().names;
      refs := [];
    }

    // The decoder is where reading says it should be.
    predicate Obtained(spec: Read, r: Result<Value, string>)
      reads this
    {
      match spec
      case Success(got) => r == Success(got.value) && pos == got.pos && State() == got.store
      case Failure(e) => r == Failure(e)
    }

    method ReadDigits(shift0: nat) returns (sum: int, shift: nat)
      modifies this`pos
      ensures var d := ReadAll(input, old(pos), shift0, 0); pos == d.pos && sum == d.sum && shift == d.shift
    {
      sum, shift := 0, shift0;
      var b: byte := 128;
      ghost var d := ReadAll(input, pos, shift0, 0);
      while b >= 128
        invariant b >= 128 ==> ReadAll(input, pos, shift, sum) == d
        invariant b < 128 ==> d == Digits(sum, shift, b, pos)
        decreases b >= 128, |input| - pos
      {
        b := ByteAt(input, pos);
        pos := pos + 1;
        sum := sum + Shl(b % 128, shift % 32);
        shift := shift + 7;
      }
    }

    method Varint32() returns (r: Result<int, string>)
      modifies this`pos
      ensures match ReadVarint32(input, old(pos))
              case Success(p) => r == Success(p.0) && pos == p.1
              case Failure(e) => r == Failure(e)
    {
      var sum, shift := ReadDigits(0);
      return if shift > 32 then Failure("Invalid varint32") else Success(sum);
    }

    method Varint64() returns (r: int)
      modifies this`pos
      ensures (r, pos) == ReadVarint64(input, old(pos))
    {
      var lo, shift := 0, 0;
      var b: byte := 128;
      ghost var d := ReadLow(input, pos, 0, 0);
      while b >= 128 && shift < 28
        invariant b >= 128 && shift < 28 ==> ReadLow(input, pos, shift, lo) == d
        invariant !(b >= 128 && shift < 28) ==> d == Digits(lo, shift, b, pos)
        decreases 28 - shift
      {
        b := ByteAt(input, pos);
        pos := pos + 1;
        lo := lo + Shl(b % 128, shift % 32);
        shift := shift + 7;
      }
      if b < 128 {
        return lo;
      }
      var hi, _ := ReadDigits(0);
      return lo + hi * TWO_28;
    }

    method Text(size: nat) returns (text: seq<byte>)
      modifies this`pos
      ensures text == Slice(input, old(pos), size) && pos == old(pos) + size
    {
      text := Slice(input, pos, size);
      pos := pos + size;
    }

    // The frame with an id, or a new proxy.
    method Find(id: seq<byte>) returns (f: nat)
      modifies this`heap, this`names
      ensures (State(), f) == Lookup(old(State()), id)
    {
      if id in names {
        return names[id];
      }
      f := |heap|;
      heap := heap + [Frame(Proxy, Some([Slot(Link(ID), Value.Text(id))]))];
      names := names[id := f];
    }

    method Next() returns (r: Result<Value, string>)
      modifies this
      ensures Obtained(Read1(input, old(pos), old(State())), r)
      decreases Left(input, pos), 0, 0
    {
      ghost var start := pos;
      var tag := Varint64();
      var op, arg := Op(tag), Arg(tag);
      if op == 0 {
        return if 0 <= arg < |refs| && refs[arg] != Undefined then Success(refs[arg]) else Failure("Invalid reference");
      }
      PastEnd(input, start);
      r := Object(op, arg);
    }

    method Object(op: nat, arg: int) returns (r: Result<Value, string>)
      modifies this
      ensures Obtained(Dispatch(input, old(pos), old(State()), op, arg), r)
      decreases Left(input, pos), 3, 0
    {
      if op == 5 {
        return Success(Number(ToInt32(4 * arg) / 4));
      } else if op == 6 {
        return Success(Float(4 * arg % TWO_32));
      } else if op == 7 {
        r := SpecialObject(arg);
      } else if arg < 0 {
        return Failure("Invalid size");
      } else if op == 1 {
        r := NewFrame(arg);
      } else {
        var text := Text(arg);
        var v := Value.Text(text);
        if op == 4 {
          var f := Find(text);
          v := Link(f);
        }
        refs := refs + [v];
        return Success(v);
      }
    }

    method SpecialObject(arg: int) returns (r: Result<Value, string>)
      modifies this
      ensures Obtained(Special(input, old(pos), old(State()), arg), r)
      decreases Left(input, pos), 2, 2
    {
      if arg == 1 {
        return Success(Null);
      } else if arg == 2 {
        return Success(Link(ID));
      } else if arg == 3 {
        return Success(Link(ISA));
      } else if arg == 4 {
        return Success(Link(IS));
      } else if arg == 9 {
        return Success(Link(NAME));
      } else if arg == 5 {
        r := Array();
      } else if arg == 6 {
        return Failure("index is not modelled");
      } else if arg == 7 {
        r := Resolve();
      } else if arg == 8 {
        r := QString();
      } else {
        return Success(Undefined);
      }
    }

    method NewFrame(size: nat) returns (r: Result<Value, string>)
      modifies this
      ensures Obtained(ReadNewFrame(input, old(pos), old(State()), size), r)
      decreases Left(input, pos), 2, 1
    {
      var f, refidx := |heap|, |refs|;
      heap := heap + [Frame(Anonymous, None)];
      refs := refs + [Link(f)];
      r := Fill(size, f, refidx);
    }

    method Resolve() returns (r: Result<Value, string>)
      modifies this
      ensures Obtained(ReadResolve(input, old(pos), old(State())), r)
      decreases Left(input, pos), 2, 1
    {
      var size := Varint32();
      if size.Failure? {
        return Failure(size.error);
      }
      var replace := Varint32();
      if replace.Failure? {
        return Failure(replace.error);
      }
      if 0 <= replace.value < |refs| && refs[replace.value].Link? && size.value >= 0 {
        r := Fill(size.value, refs[replace.value].frame, |refs|);
      } else {
        return Failure("Invalid replacement reference");
      }
    }

    // Reading the slots of a frame; every id slot registers it, or lets an existing frame take its place.
    method Fill(size: nat, target: nat, refidx: nat) returns (r: Result<Value, string>)
      modifies this
      ensures Obtained(FillFrame(input, old(pos), old(State()), size, target, refidx), r)
      decreases Left(input, pos), 2, 0
    {
      var frame, slots, n := target, [], 0;
      ghost var whole := ReadSlots(input, pos, State(), size, target, refidx);
      OntoStart(whole);
      while n < size
        invariant 0 <= n <= size && Left(input, pos) <= Left(input, old(pos))
        invariant Onto(slots, ReadSlots(input, pos, State(), size - n, frame, refidx)) == whole
      {
        ghost var here := (pos, State(), frame);
        var name := Next();
        if name.Failure? {
          return Failure(name.error);
        }
        var value := Next();
        if value.Failure? {
          return Failure(value.error);
        }
        var slot := Slot(name.value, value.value);
        if slot.name == Link(ID) {
          if !slot.value.Text? {
            return Failure("id is not a string");
          }
          frame := RegisterFrame(slot.value.utf8, frame, refidx);
        }
        OntoStep(input, here.0, here.1, size - n, here.2, refidx, slots);
        slots := slots + [slot];
        n := n + 1;
      }
      assert slots + [] == slots;
      heap := SetSlots(heap, frame, slots);
      return Success(Link(frame));
    }

    method RegisterFrame(id: seq<byte>, frame: nat, refidx: nat) returns (f: nat)
      modifies this`heap, this`names, this`refs
      ensures (State(), f) == Register(old(State()), id, frame, refidx)
    {
      if id in names {
        f := names[id];
        heap := SetState(heap, f, Public);
        refs := SetRef(refs, refidx, Link(f));
      } else {
        f := frame;
        heap := SetState(heap, frame, Public);
        names := names[id := frame];
      }
    }

    method Array() returns (r: Result<Value, string>)
      modifies this
      ensures Obtained(ReadArray(input, old(pos), old(State())), r)
      decreases Left(input, pos), 2, 0
    {
      var index := |refs|;
      var size := Varint32();
      if size.Failure? {
        return Failure(size.error);
      } else if size.value < 0 {
        return Failure("Invalid size");
      }
      refs := refs + [Undefined];
      var elements, i := [], 0;
      ghost var whole := ReadElements(input, pos, State(), size.value);
      IntoStart(whole);
      while i < size.value
        invariant 0 <= i <= size.value && Left(input, pos) <= Left(input, old(pos))
        invariant Into(elements, ReadElements(input, pos, State(), size.value - i)) == whole
      {
        IntoStep(input, pos, State(), size.value - i, elements);
        var first := Next();
        if first.Failure? {
          return Failure(first.error);
        }
        elements := elements + [first.value];
        i := i + 1;
      }
      assert elements + [] == elements;
      refs := SetRef(refs, index, List(elements));
      return Success(List(elements));
    }

    method QString() returns (r: Result<Value, string>)
      modifies this
      ensures Obtained(ReadQString(input, old(pos), old(State())), r)
      decreases Left(input, pos), 2, 0
    {
      var index := |refs|;
      var size := Varint32();
      if size.Failure? {
        return Failure(size.error);
      } else if size.value < 0 {
        return Failure("Invalid size");
      }
      var text := Text(size.value);
      refs := refs + [Undefined];
      var qual := Next();
      if qual.Failure? {
        return Failure(qual.error);
      }
      var v := Qualified(text, qual.value);
      refs := SetRef(refs, index, v);
      return Success(v);
    }
  }

  // Nothing but a reference is read past the end of the input.
  lemma PastEnd(input: seq<byte>, pos: nat)
    ensures Op(ReadVarint64(input, pos).0) != 0 ==> pos < |input|
  {
  }

  // What was read before, and then the rest.
  function Onto(slots: seq<Slot>, r: Result<(seq<Slot>, Got), string>): Result<(seq<Slot>, Got), string> {
    if r.Failure? then r else Success((slots + r.value.0, r.value.1))
  }

  lemma OntoStart(r: Result<(seq<Slot>, Got), string>)
    ensures Onto([], r) == r
  {
    if r.Success? {
      assert [] + r.value.0 == r.value.0;
    }
  }

  lemma OntoStep(input: seq<byte>, pos: nat, s: Store, size: nat, frame: nat, refidx: nat, slots: seq<Slot>)
    requires size > 0 && ReadSlot(input, pos, s, frame, refidx).Success?
    ensures var one := ReadSlot(input, pos, s, frame, refidx).value;
            Onto(slots, ReadSlots(input, pos, s, size, frame, refidx)) ==
            Onto(slots + [one.0], ReadSlots(input, one.1.pos, one.1.store, size - 1, one.1.value.frame, refidx))
  {
    var one := ReadSlot(input, pos, s, frame, refidx).value;
    var rest := ReadSlots(input, one.1.pos, one.1.store, size - 1, one.1.value.frame, refidx);
    if rest.Success? {
      assert slots + ([one.0] + rest.value.0) == slots + [one.0] + rest.value.0;
    }
  }

  function Into(es: seq<Value>, r: Result<(seq<Value>, nat, Store), string>): Result<(seq<Value>, nat, Store), string> {
    if r.Failure? then r else Success((es + r.value.0, r.value.1, r.value.2))
  }

  lemma IntoStart(r: Result<(seq<Value>, nat, Store), string>)
    ensures Into([], r) == r
  {
    if r.Success? {
      assert [] + r.value.0 == r.value.0;
    }
  }

  lemma IntoStep(input: seq<byte>, pos: nat, s: Store, size: nat, es: seq<Value>)
    requires size > 0
    ensures Into(es, ReadElements(input, pos, s, size)) ==
            match Read1(input, pos, s)
            case Success(got) => Into(es + [got.value], ReadElements(input, got.pos, got.store, size - 1))
            case Failure(e) => Failure(e)
  {
    var first := Read1(input, pos, s);
    if first.Success? {
      var rest := ReadElements(input, first.value.pos, first.value.store, size - 1);
      if rest.Success? {
        assert es + ([first.value.value] + rest.value.0) == es + [first.value.value] + rest.value.0;
      }
    }
  }

  /** Decoding all objects of an input. What an encoder wrote for the roots of a graph comes back as an
      isomorphic graph. */
  method DecodeObjects(input: seq<byte>) returns (r: Result<(seq<Value>, Heap), string>)
    ensures match DecodeAll(input)
            case Success(got) => r == Success((got.0, got.1.heap))
            case Failure(e) => r == Failure(e)
  {
    hide Read1;
    var d := new Decoder(input);
    var values := [];
    ghost var whole := DecodeAll(input);
    GatherStart(whole);
    while d.pos != |input|
      invariant d.input == input && fresh(d)
      invariant Gather(values, ReadObjects(input, d.pos, d.State())) == whole
      decreases Left(input, d.pos)
    {
      if d.pos > |input| {
        return Failure("read past the end");
      }
      GatherStep(input, d.pos, d.State(), values);
      var v := d.Next();
      if v.Failure? {
        return Failure(v.error);
      }
      values := values + [v.value];
    }
    assert values + [] == values;
    return Success((values, d.heap));
  }

  function Gather(vs: seq<Value>, r: Result<(seq<Value>, Store), string>): Result<(seq<Value>, Store), string> {
    if r.Failure? then r else Success((vs + r.value.0, r.value.1))
  }

  lemma GatherStart(r: Result<(seq<Value>, Store), string>)
    ensures Gather([], r) == r
  {
    if r.Success? {
      assert [] + r.value.0 == r.value.0;
    }
  }

  lemma GatherStep(input: seq<byte>, pos: nat, s: Store, vs: seq<Value>)
    requires pos < |input|
    ensures Gather(vs, ReadObjects(input, pos, s)) ==
            match Read1(input, pos, s)
            case Success(got) => Gather(vs + [got.value], ReadObjects(input, got.pos, got.store))
            case Failure(e) => Failure(e)
  {
    var first := Read1(input, pos, s);
    if first.Success? {
      var rest := ReadObjects(input, first.value.pos, first.value.store);
      if rest.Success? {
        assert vs + ([first.value.value] + rest.value.0) == vs + [first.value.value] + rest.value.0;
      }
    }
  }
}
