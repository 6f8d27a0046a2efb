/**
  The binary encoder as the program runs it (app/lib/frame.js:800-1051): a growing byte buffer, a reference
  table and a counter, all updated in place.
 */
module SlingEncoder {
  import opened Common
  import opened SlingVarint
  import opened SlingGraph
  import opened SlingEncode

  // Objects of this size cannot be allocated.
  const TWO_50 := 0x4_0000_0000_0000

  // Dividing a number by 128 and dropping the fraction.
  lemma FloorDivides(x: real)
    requires x >= 0.0
    ensures (x / 128.0).Floor == x.Floor / 128
  {
    var q := x.Floor / 128;
    assert 128 * q <= x.Floor < 128 * q + 128;
    assert (128 * q) as real <= x < (128 * q + 128) as real;
    assert q as real <= x / 128.0 < (q + 1) as real;
  }

  // A value that fits in memory.
  predicate Fits(v: Value)
    decreases v
  {
    match v
    case Text(s) => |s| < TWO_50
    case List(es) => |es| < TWO_50 && forall i :: 0 <= i < |es| ==> Fits(es[i])
    case Qualified(s, q) => |s| < TWO_50 && Fits(q)
    case _ => true
  }

  predicate SlotsFit(slots: seq<Slot>) {
    |slots| < TWO_50 && forall x :: x in slots ==> Fits(x.name) && Fits(x.value)
  }

  class Encoder {
    const heap: Heap
    var buffer: array<byte>
    var pos: nat
    var refs: map<nat, Ref>
    var next: nat
    // An allocation has failed.
    var exhausted: bool

    ghost predicate Valid()
      reads this, buffer
    {
      && pos <= buffer.Length && 0 < buffer.Length < TWO_50 && next <= pos + 1
      && (forall f :: f in refs ==> -9 <= refs[f].index < next)
      && forall f :: 0 <= f < |heap| && heap[f].slots.Some? ==> SlotsFit(heap[f].slots.value)
    }

    ghost function Contents(): (r: seq<byte>)
      requires pos <= buffer.Length
      reads this, buffer
    {
      buffer[..pos]
    }

    function State(): Table
      reads this
    {
      Table(refs, next)
    }

    constructor (heap: Heap, marker: bool)
      requires forall f :: 0 <= f < |heap| && heap[f].slots.Some? ==> SlotsFit(heap[f].slots.value)
      ensures Valid() && fresh(buffer) && this.heap == heap && !exhausted
      ensures Contents() == (if marker then [0] else []) && State() == Start()
    {
      this.heap := heap;
      buffer := new byte[4096];
      pos := 0;
      refs := Start().refs;
      next := 0;
      exhausted := false;
      new;
      if marker {
        buffer[0] := 0;
        pos := 1;
      }
    }

    // Room for n more bytes: the capacity is doubled as often as needed, and what was written stays.
    method Reserve(n: nat) returns (ok: bool)
      requires Valid()
      modifies this
      ensures Valid() && (buffer == old(buffer) || fresh(buffer))
      ensures Contents() == old(Contents()) && State() == old(State()) && pos == old(pos)
      ensures ok ==> pos + n <= buffer.Length && exhausted == old(exhausted)
      ensures !ok ==> exhausted && pos + n > old(buffer.Length)
    {
      var minsize := pos + n;
      if minsize <= buffer.Length {
        return true;
      }
      var cap := buffer.Length * 2;
      while cap < minsize
        invariant cap >= 2 * buffer.Length
      {
        cap := cap * 2;
      }
      if cap >= TWO_50 {
        exhausted := true;
        return false;
      }
      var grown := new byte[cap];
      var i := 0;
      while i < buffer.Length
        invariant unchanged(this) && 0 <= i <= buffer.Length
        invariant forall k :: 0 <= k < i ==> grown[k] == buffer[k]
      {
        grown[i] := buffer[i];
        i := i + 1;
      }
      buffer := grown;
      return true;
    }

    // One byte into room that has been reserved.
    method Put(b: byte)
      requires Valid() && pos < buffer.Length
      modifies this`pos, buffer
      ensures Valid() && Contents() == old(Contents()) + [b] && pos == old(pos) + 1
    {
      buffer[pos] := b;
      pos := pos + 1;
    }

    method WriteBytes(bytes: seq<byte>) returns (ok: bool)
      requires Valid()
      modifies this, buffer
      ensures Valid() && (buffer == old(buffer) || fresh(buffer)) && State() == old(State())
      ensures ok ==> Contents() == old(Contents()) + bytes && exhausted == old(exhausted)
      ensures !ok ==> exhausted
    {
      ok := Reserve(|bytes|);
      if ok {
        var i := 0;
        label Reserved:
        while i < |bytes|
          invariant 0 <= i <= |bytes| && Valid() && pos == old@Reserved(pos) + i && buffer == old@Reserved(buffer)
          invariant Contents() == old(Contents()) + bytes[..i] && State() == old(State())
          invariant exhausted == old(exhausted) && pos + |bytes| - i <= buffer.Length
        {
          Put(bytes[i]);
          i := i + 1;
        }
      }
    }

    /** Writing a number below 2^53 as LEB128, within the eight bytes reserved: numbers of more than 31 bits
        are divided as floating-point numbers, smaller ones shifted as integers. */
    method WriteVarint(num: nat) returns (ok: bool)
      requires Valid() && num < TWO_53
      modifies this, buffer
      ensures Valid() && (buffer == old(buffer) || fresh(buffer)) && State() == old(State())
      ensures ok ==> Contents() == old(Contents()) + Leb(num) && exhausted == old(exhausted)
      ensures !ok ==> exhausted
    {
      ok := Reserve(8);
      if !ok {
        return;
      }
      EightBytes(num);
      ghost var before := Contents();
      var n, done := PutLarge(num);
      PutSmall(n);
      assert before + done + Leb(n) == before + (done + Leb(n));
    }

    // The digits of a number for as long as it has more than 31 bits; `done` are the bytes written.
    method PutLarge(num: nat) returns (n: nat, ghost done: seq<byte>)
      requires Valid() && pos + |Leb(num)| <= buffer.Length
      modifies this`pos, buffer
      ensures Valid() && Contents() == old(Contents()) + done && done + Leb(n) == Leb(num) && n < TWO_31
    {
      hide Leb;
      var x := num as real;
      done := [];
      while x >= 2147483648.0
        invariant x >= 0.0 && done + Leb(x.Floor) == Leb(num)
        invariant Valid() && Contents() == old(Contents()) + done && pos + |Leb(x.Floor)| <= buffer.Length
        decreases x.Floor
      {
        LargeStep(x, done, Leb(num));
        var digit := x.Floor % 128 + 128;
        Put(digit);
        done := done + [digit];
        x := x / 128.0;
      }
      n := x.Floor;
    }

    method PutSmall(num: nat)
      requires Valid() && pos + |Leb(num)| <= buffer.Length
      modifies this`pos, buffer
      ensures Valid() && Contents() == old(Contents()) + Leb(num)
    {
      hide Leb;
      var n := num;
      ghost var done: seq<byte> := [];
      while n >= 128
        invariant n >= 0 && done + Leb(n) == Leb(num)
        invariant Valid() && Contents() == old(Contents()) + done && pos + |Leb(n)| <= buffer.Length
      {
        SmallStep(n, done, Leb(num));
        var digit := n % 128 + 128;
        Put(digit);
        done := done + [digit];
        n := n / 128;
      }
      LebLast(n);
      Put(n);
    }

    method WriteTag(op: nat, arg: nat) returns (ok: bool)
      requires Valid() && op < 8 && arg < TWO_50
      modifies this, buffer
      ensures Valid() && (buffer == old(buffer) || fresh(buffer)) && State() == old(State())
      ensures ok ==> Contents() == old(Contents()) + Tag(op, arg) && exhausted == old(exhausted)
      ensures !ok ==> exhausted
    {
      ok := WriteVarint(op + 8 * arg);
    }

    // A tag that is followed by a number.
    method WriteTagged(op: nat, arg: nat, num: nat) returns (ok: bool)
      requires Valid() && op < 8 && arg < TWO_50 && num < TWO_53
      modifies this, buffer
      ensures Valid() && (buffer == old(buffer) || fresh(buffer)) && State() == old(State())
      ensures ok ==> Contents() == old(Contents()) + (Tag(op, arg) + Leb(num)) && exhausted == old(exhausted)
      ensures !ok ==> exhausted
    {
      ok := WriteTag(op, arg);
      if ok {
        ok := WriteVarint(num);
      }
    }

    method WriteRef(index: int) returns (ok: bool)
      requires Valid() && -9 <= index < TWO_50
      modifies this, buffer
      ensures Valid() && (buffer == old(buffer) || fresh(buffer)) && State() == old(State())
      ensures ok ==> Contents() == old(Contents()) + RefBytes(index) && exhausted == old(exhausted)
      ensures !ok ==> exhausted
    {
      if index < 0 {
        ok := WriteTag(7, -index);
      } else {
        ok := WriteTag(0, index);
      }
    }

    method WriteString(op: nat, text: seq<byte>) returns (ok: bool)
      requires Valid() && op < 8 && |text| < TWO_50
      modifies this, buffer
      ensures Valid() && (buffer == old(buffer) || fresh(buffer)) && State() == old(State())
      ensures ok ==> Contents() == old(Contents()) + TextBytes(op, text) && exhausted == old(exhausted)
      ensures !ok ==> exhausted
    {
      ok := WriteTag(op, |text|);
      if ok {
        ok := WriteBytes(text);
      }
    }

    // What a method that encodes something has done, compared with what it should have written.
    twostate predicate Wrote(r: Written, ok: bool)
      requires old(pos <= buffer.Length)
      reads this, buffer
    {
      && pos <= buffer.Length
      && if ok then
           r.Success? && Contents() == old(Contents()) + r.value.bytes && State() == r.value.table
           && exhausted == old(exhausted)
         else exhausted || r.Failure?
    }

    method EncodeNew(f: nat) returns (ok: bool)
      requires Valid() && f < |heap| && f !in refs && next <= pos
      modifies this, buffer
      ensures Valid() && (buffer == old(buffer) || fresh(buffer)) && (ok ==> next <= pos)
      ensures Wrote(EncodeNewLink(heap, f, old(State())), ok)
    {
      var id := LinkId(heap[f]);
      if id.None? {
        return false;
      }
      IdFits(heap[f]);
      refs := refs[f := Ref(false, next)];
      next := next + 1;
      ok := WriteString(4, id.value);
    }

    method Write(v: Value) returns (ok: bool)
      requires Valid() && Fits(v) && next <= pos
      modifies this, buffer
      ensures Valid() && (buffer == old(buffer) || fresh(buffer)) && (ok ==> next <= pos)
      ensures Wrote(Encode(heap, v, old(State())), ok)
      decreases Pending(heap, State()), v, 2
    {
      match v
      case Number(n) => ok := WriteTag(5, n % 0x4000_0000);
      case Float(bits) => ok := WriteTag(6, bits / 4);
      case Truth(b) => ok := WriteTag(5, if b then 1 else 0);
      case Null => ok := WriteTag(7, 1);
      case Text(s) =>
        next := next + 1;
        ok := WriteString(2, s);
      case Link(f) => ok := WriteFrame(f);
      case List(es) => ok := WriteList(es);
      case Qualified(s, q) => ok := WriteQString(s, q);
      case Undefined => ok := false;
    }

    method WriteFrame(f: nat) returns (ok: bool)
      requires Valid() && next <= pos
      modifies this, buffer
      ensures Valid() && (buffer == old(buffer) || fresh(buffer)) && (ok ==> next <= pos)
      ensures Wrote(EncodeFrame(heap, f, old(State())), ok)
      decreases Pending(heap, State()), Link(f), 1
    {
      if f >= |heap| {
        return false;
      }
      if f in refs && (refs[f].encoded || heap[f].state.Proxy?) {
        ok := WriteRef(refs[f].index);
      } else if heap[f].state.Proxy? {
        ok := EncodeNew(f);
      } else if heap[f].slots.None? {
        ok := false;
      } else if f in refs {
        ok := WriteResolved(f);
      } else {
        ok := WriteNewFrame(f);
      }
    }

    method WriteNewFrame(f: nat) returns (ok: bool)
      requires Valid() && next <= pos && f < |heap| && f !in refs && !heap[f].state.Proxy? && heap[f].slots.Some?
      modifies this, buffer
      ensures Valid() && (buffer == old(buffer) || fresh(buffer)) && (ok ==> next <= pos)
      ensures Wrote(EncodeFrame(heap, f, old(State())), ok)
      decreases Pending(heap, State()), Link(f), 0
    {
      var slots := heap[f].slots.value;
      refs := refs[f := Ref(true, next)];
      next := next + 1;
      ghost var t1 := State();
      assert f in Pending(heap, old(State())) && f !in Pending(heap, t1);
      ok := WriteTag(1, |slots|);
      if ok {
        ok := WriteSlots(slots);
      }
    }

    method WriteResolved(f: nat) returns (ok: bool)
      requires Valid() && next <= pos && f < |heap| && f in refs && !refs[f].encoded
      requires !heap[f].state.Proxy? && heap[f].slots.Some?
      modifies this, buffer
      ensures Valid() && (buffer == old(buffer) || fresh(buffer)) && (ok ==> next <= pos)
      ensures Wrote(EncodeFrame(heap, f, old(State())), ok)
      decreases Pending(heap, State()), Link(f), 0
    {
      hide EncodeFrame, EncodeSlots, Tag, Leb, Pending;
      var slots, index := heap[f].slots.value, refs[f].index;
      ResolvedIs(heap, f, State());
      refs := refs[f := Ref(true, index)];
      ok := WriteTagged(7, 7, |slots|);
      if ok {
        ok := WriteVarint(if index < 0 then 0 else index);
        if ok {
          ok := WriteSlots(slots);
        }
      }
    }

    method WriteList(es: seq<Value>) returns (ok: bool)
      requires Valid() && Fits(List(es)) && next <= pos
      modifies this, buffer
      ensures Valid() && (buffer == old(buffer) || fresh(buffer)) && (ok ==> next <= pos)
      ensures Wrote(Encode(heap, List(es), old(State())), ok)
      decreases Pending(heap, State()), List(es), 0
    {
      next := next + 1;
      ghost var t1 := State();
      assert Pending(heap, t1) == Pending(heap, old(State()));
      ok := WriteTagged(7, 5, |es|);
      if ok {
        ok := WriteElements(es);
      }
    }

    method WriteQString(text: seq<byte>, q: Value) returns (ok: bool)
      requires Valid() && Fits(Qualified(text, q)) && next <= pos
      modifies this, buffer
      ensures Valid() && (buffer == old(buffer) || fresh(buffer)) && (ok ==> next <= pos)
      ensures Wrote(Encode(heap, Qualified(text, q), old(State())), ok)
      decreases Pending(heap, State()), Qualified(text, q), 0
    {
      hide Encode, EncodeLink, Tag, Leb, Pending;
      QStringIs(heap, text, q, State());
      next := next + 1;
      ok := WriteTagged(7, 8, |text|);
      if ok {
        ok := WriteBytes(text);
        if ok {
          ok := WriteLink(q);
        }
      }
    }

    method WriteLink(v: Value) returns (ok: bool)
      requires Valid() && Fits(v) && next <= pos
      modifies this, buffer
      ensures Valid() && (buffer == old(buffer) || fresh(buffer)) && (ok ==> next <= pos)
      ensures Wrote(EncodeLink(heap, v, old(State())), ok)
      decreases Pending(heap, State()), v, 3
    {
      if v.Link? && v.frame < |heap| && !heap[v.frame].state.Anonymous? {
        if v.frame in refs {
          ok := WriteRef(refs[v.frame].index);
        } else {
          ok := EncodeNew(v.frame);
        }
      } else {
        ok := Write(v);
      }
    }

    method WriteElements(es: seq<Value>) returns (ok: bool)
      requires Valid() && (forall i :: 0 <= i < |es| ==> Fits(es[i])) && next <= pos
      modifies this, buffer
      ensures Valid() && (buffer == old(buffer) || fresh(buffer)) && (ok ==> next <= pos)
      ensures Wrote(EncodeLinks(heap, es, old(State())), ok)
      decreases Pending(heap, State()), es
    {
      var i := 0;
      ghost var done: seq<byte> := [];
      ghost var whole := EncodeLinks(heap, es, State());
      assert es[0..] == es;
      ThenNothing(whole);
      while i < |es|
        invariant 0 <= i <= |es| && Valid() && next <= pos && exhausted == old(exhausted)
        invariant buffer == old(buffer) || fresh(buffer)
        invariant Contents() == old(Contents()) + done
        invariant Then(done, EncodeLinks(heap, es[i..], State())) == whole
        invariant Pending(heap, State()) <= Pending(heap, old(State()))
      {
        ghost var first := EncodeLink(heap, es[i], State());
        ghost var rest := if first.Success? then EncodeLinks(heap, es[i + 1..], first.value.table) else first;
        assert es[i..][0] == es[i] && es[i..][1..] == es[i + 1..];
        ok := WriteLink(es[i]);
        if !ok {
          return;
        }
        ThenThen(done, first.value.bytes, rest);
        done := done + first.value.bytes;
        i := i + 1;
      }
      ok := true;
    }

    method WriteSlots(slots: seq<Slot>) returns (ok: bool)
      requires Valid() && SlotsFit(slots) && next <= pos
      modifies this, buffer
      ensures Valid() && (buffer == old(buffer) || fresh(buffer)) && (ok ==> next <= pos)
      ensures Wrote(EncodeSlots(heap, slots, old(State())), ok)
      decreases Pending(heap, State()), slots
    {
      var i := 0;
      ghost var done: seq<byte> := [];
      ghost var whole := EncodeSlots(heap, slots, State());
      assert slots[0..] == slots;
      ThenNothing(whole);
      while i < |slots|
        invariant 0 <= i <= |slots| && Valid() && next <= pos && exhausted == old(exhausted)
        invariant buffer == old(buffer) || fresh(buffer)
        invariant Contents() == old(Contents()) + done
        invariant Then(done, EncodeSlots(heap, slots[i..], State())) == whole
        invariant Pending(heap, State()) <= Pending(heap, old(State()))
      {
        ghost var first := EncodeSlot(heap, slots[i], State());
        ghost var rest := if first.Success? then EncodeSlots(heap, slots[i + 1..], first.value.table) else first;
        assert slots[i..][0] == slots[i] && slots[i..][1..] == slots[i + 1..];
        ok := WriteSlot(slots[i]);
        if !ok {
          return;
        }
        ThenThen(done, first.value.bytes, rest);
        done := done + first.value.bytes;
        i := i + 1;
      }
      ok := true;
    }

    method WriteSlot(x: Slot) returns (ok: bool)
      requires Valid() && Fits(x.name) && Fits(x.value) && next <= pos
      modifies this, buffer
      ensures Valid() && (buffer == old(buffer) || fresh(buffer)) && (ok ==> next <= pos)
      ensures Wrote(EncodeSlot(heap, x, old(State())), ok)
      decreases Pending(heap, State()), x
    {
      ok := WriteLink(x.name);
      if !ok {
        return;
      }
      if x.name != Link(ID) {
        ok := WriteLink(x.value);
      } else if x.value.Text? {
        next := next + 1;
        ok := WriteString(3, x.value.utf8);
      } else {
        ok := false;
      }
    }
  }

  lemma IdFits(f: Frame)
    requires f.slots.Some? ==> SlotsFit(f.slots.value)
    ensures LinkId(f).Some? ==> |LinkId(f).value| < TWO_50
  {
    if f.slots.Some? && FirstId(f.slots.value).Some? {
      FirstIdIn(f.slots.value);
    }
  }

  // Taking one digit off a number.
  lemma LargeStep(x: real, done: seq<byte>, all: seq<byte>)
    requires x >= 128.0 && done + Leb(x.Floor) == all
    ensures var y := x / 128.0;
            && 0.0 <= y && 0 <= y.Floor < x.Floor && 0 <= x.Floor % 128 + 128 < 256
            && done + [x.Floor % 128 + 128] + Leb(y.Floor) == all && |Leb(x.Floor)| == 1 + |Leb(y.Floor)|
  {
    FloorDivides(x);
    LebStep(x.Floor);
    assert done + ([x.Floor % 128 + 128] + Leb(x.Floor / 128)) == done + [x.Floor % 128 + 128] + Leb(x.Floor / 128);
  }

  lemma SmallStep(n: nat, done: seq<byte>, all: seq<byte>)
    requires n >= 128 && done + Leb(n) == all
    ensures done + [n % 128 + 128] + Leb(n / 128) == all && |Leb(n)| == 1 + |Leb(n / 128)|
  {
    LebStep(n);
    assert done + ([n % 128 + 128] + Leb(n / 128)) == done + [n % 128 + 128] + Leb(n / 128);
  }

  lemma LebLast(n: nat)
    requires n < 128
    ensures Leb(n) == [n]
  {
  }

  // What is written for a frame that has been linked.
  lemma ResolvedIs(h: Heap, f: nat, t: Table)
    requires f < |h| && f in t.refs && !t.refs[f].encoded && !h[f].state.Proxy? && h[f].slots.Some?
    ensures var slots, t1 := h[f].slots.value, t.(refs := t.refs[f := Ref(true, t.refs[f].index)]);
            var head := Tag(7, 7) + Leb(|slots|) + Leb(if t.refs[f].index < 0 then 0 else t.refs[f].index);
            && EncodeFrame(h, f, t) == Then(head, EncodeSlots(h, slots, t1))
            && Pending(h, t1) <= Pending(h, t) && f in Pending(h, t) && f !in Pending(h, t1)
  {
    hide EncodeSlots, Tag, Leb;
  }

  lemma QStringIs(h: Heap, text: seq<byte>, q: Value, t: Table)
    ensures var t1 := t.(next := t.next + 1);
            && Encode(h, Qualified(text, q), t) == Then(Tag(7, 8) + Leb(|text|) + text, EncodeLink(h, q, t1))
            && Pending(h, t1) == Pending(h, t)
  {
    hide EncodeLink, Tag, Leb;
  }

  lemma LebStep(n: nat)
    requires n >= 128
    ensures Leb(n) == [n % 128 + 128] + Leb(n / 128)
  {
  }

  lemma EightBytes(num: nat)
    requires num < TWO_53
    ensures |Leb(num)| <= 8
  {
    PowersOfTwo();
    Pow2Step(28);
    Pow2Step(35);
    Pow2Step(42);
    Pow2Step(49);
    LebLength(num, 8);
  }

  lemma ThenThen(a: seq<byte>, b: seq<byte>, r: Written)
    ensures Then(a, Then(b, r)) == Then(a + b, r)
  {
    if r.Success? {
      assert a + (b + r.value.bytes) == a + b + r.value.bytes;
    }
  }

  lemma ThenNothing(r: Written)
    ensures Then([], r) == r
  {
    if r.Success? {
      assert [] + r.value.bytes == r.value.bytes;
    }
  }

  /** Encoding a list of objects with a new encoder: the output is what the format prescribes. */
  method EncodeObjects(heap: Heap, roots: seq<Value>) returns (r: Option<seq<byte>>)
    requires forall f :: 0 <= f < |heap| && heap[f].slots.Some? ==> SlotsFit(heap[f].slots.value)
    requires forall v :: v in roots ==> Fits(v)
    ensures r.Some? ==> EncodeAll(heap, roots).Success? && r.value == EncodeAll(heap, roots).value.bytes
  {
    var e := new Encoder(heap, true);
    var i := 0;
    ghost var whole := EncodeAll(heap, roots);
    assert roots[0..] == roots;
    while i < |roots|
      invariant 0 <= i <= |roots| && e.Valid() && fresh(e) && fresh(e.buffer) && e.next <= e.pos && e.heap == heap
      invariant Then(e.Contents(), EncodeRoots(heap, roots[i..], e.State())) == whole
    {
      ghost var before, first := e.Contents(), Encode(heap, roots[i], e.State());
      ghost var rest := if first.Success? then EncodeRoots(heap, roots[i + 1..], first.value.table) else first;
      assert roots[i..][0] == roots[i] && roots[i..][1..] == roots[i + 1..];
      var ok := e.Write(roots[i]);
      if !ok {
        return None;
      }
      ThenThen(before, first.value.bytes, rest);
      i := i + 1;
    }
    return Some(e.buffer[..e.pos]);
  }
}
