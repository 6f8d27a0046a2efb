/**
  The byte format of encoded objects (app/lib/frame.js:868-1051), read off the output number by number: what
  the encoder writes is told by the numbers that a reader finds, not by how they were put together.
 */
module SlingFormat {
  import opened Common
  import opened SlingVarint
  import opened SlingGraph
  import opened SlingEncode
  import opened SlingDecode
  import opened SlingRoundTrip

  // ----- numbers -----

  // The number at the beginning, seven bits a byte and the lowest first, and what comes after it: a byte of
  // 128 or more says that the number goes on.
  function First(bytes: seq<byte>): (r: (nat, seq<byte>)) {
    if bytes == [] then (0, [])
    else if bytes[0] < 128 then (bytes[0], bytes[1..])
    else
      var (high, rest) := First(bytes[1..]);
      (bytes[0] - 128 + 128 * high, rest)
  }

  /** Numbers are read back, whatever comes after them, and no number is written with a digit too many. */
  lemma {:induction false} FirstLeb(n: nat, rest: seq<byte>)
    ensures First(Leb(n) + rest) == (n, rest)
    ensures var d := Leb(n); |d| > 1 ==> d[|d| - 1] != 0
  {
    var bytes := Leb(n) + rest;
    if n < 128 {
      assert bytes[1..] == rest;
    } else {
      assert bytes[1..] == Leb(n / 128) + rest;
      FirstLeb(n / 128, rest);
    }
  }

  lemma FirstLebs(m: nat, n: nat, rest: seq<byte>)
    ensures First(Leb(m) + Leb(n) + rest) == (m, Leb(n) + rest)
    ensures First(Leb(n) + rest) == (n, rest)
  {
    assert Leb(m) + Leb(n) + rest == Leb(m) + (Leb(n) + rest);
    FirstLeb(m, Leb(n) + rest);
    FirstLeb(n, rest);
  }

  /** Numbers of one, two and three bytes. */
  lemma SomeNumbers()
    ensures Leb(127) == [127] && Leb(128) == [128, 1] && Leb(300) == [172, 2] && Leb(16384) == [128, 128, 1]
  {
  }

  // ----- tags -----

  // What is written for an object begins with a number whose low three bits say what kind of object it is; the
  // rest of the number is a size, an index, or the value itself.
  predicate Begins(bytes: seq<byte>, kind: nat, arg: nat) {
    First(bytes).0 == 8 * arg + kind
  }

  // Nothing but the number.
  predicate Single(bytes: seq<byte>, kind: nat, arg: nat) {
    First(bytes) == (8 * arg + kind, [])
  }

  // The number, with a size, and as many bytes of text.
  predicate Spells(bytes: seq<byte>, kind: nat, text: seq<byte>) {
    First(bytes) == (8 * |text| + kind, text)
  }

  // A special number, a second number, and what comes after them.
  predicate Special(bytes: seq<byte>, code: nat, size: nat, rest: seq<byte>) {
    First(bytes).0 == 8 * code + 7 && First(First(bytes).1) == (size, rest)
  }

  // A reference to an earlier object, or the special number of a standard symbol.
  predicate Refers(bytes: seq<byte>, index: int) {
    if index >= 0 then Single(bytes, 0, index) else Single(bytes, 7, -index)
  }

  lemma Alone(op: nat, arg: nat)
    ensures Single(Tag(op, arg), op, arg)
  {
    FirstLeb(op + 8 * arg, []);
    assert Leb(op + 8 * arg) + [] == Leb(op + 8 * arg);
  }

  lemma SpelledText(op: nat, s: seq<byte>)
    ensures Spells(TextBytes(op, s), op, s)
  {
    FirstLeb(op + 8 * |s|, s);
  }

  /** Values that have no parts: the kind, and what is written behind it. Strings are of kind 2, integers of
      kind 5, with their low 30 bits, and so are truth values; other numbers are of kind 6, with the upper 30 of
      their 32 bits; null is a special value. */
  lemma PlainFormat(h: Heap, v: Value, t: Table)
    requires v.Text? || v.Number? || v.Truth? || v.Float? || v.Null?
    ensures var w := Encode(h, v, t);
            && w.Success?
            && match v
               case Text(s) => Spells(w.value.bytes, 2, s)
               case Number(n) =>
                 exists bits :: 0 <= bits < 0x4000_0000 && (bits - n) % 0x4000_0000 == 0
                                && Single(w.value.bytes, 5, bits)
               case Truth(b) => Single(w.value.bytes, 5, if b then 1 else 0)
               case Float(bits) => exists high: nat :: high == bits / 4 && Single(w.value.bytes, 6, high)
               case _ => Single(w.value.bytes, 7, 1)
  {
    match v
    case Text(s) => SpelledText(2, s);
    case Number(n) =>
      var bits := n % 0x4000_0000;
      assert (bits - n) % 0x4000_0000 == 0 by {
        assert bits - n == 0x4000_0000 * -(n / 0x4000_0000);
      }
      Alone(5, bits);
    case Truth(b) => Alone(5, if b then 1 else 0);
    case Float(bits) => Alone(6, bits / 4);
    case Null => Alone(7, 1);
    case _ =>
  }

  /** Arrays and qualified strings are special values: a second number gives the size, and the parts follow. */
  lemma PartsFormat(h: Heap, v: Value, t: Table)
    requires (v.List? || v.Qualified?) && Encode(h, v, t).Success?
    ensures var b, t' := Encode(h, v, t).value.bytes, t.(next := t.next + 1);
            match v
            case List(es) => EncodeLinks(h, es, t').Success? && Special(b, 5, |es|, EncodeLinks(h, es, t').value.bytes)
            case Qualified(s, q) => EncodeLink(h, q, t').Success?
                                    && Special(b, 8, |s|, s + EncodeLink(h, q, t').value.bytes)
            case _ => true
  {
    hide First, Leb, EncodeLinks, EncodeLink;
    var t' := t.(next := t.next + 1);
    match v
    case List(es) =>
      var parts := EncodeLinks(h, es, t').value.bytes;
      SpecialParts(5, |es|, [], parts);
      assert Tag(7, 5) + Leb(|es|) + [] + parts == Tag(7, 5) + Leb(|es|) + parts && [] + parts == parts;
    case Qualified(s, q) => SpecialParts(8, |s|, s, EncodeLink(h, q, t').value.bytes);
    case _ =>
  }

  lemma SpecialParts(code: nat, size: nat, a: seq<byte>, b: seq<byte>)
    ensures Special(Tag(7, code) + Leb(size) + a + b, code, size, a + b)
  {
    hide First, Leb;
    FirstLebs(8 * code + 7, size, a + b);
    assert Tag(7, code) + Leb(size) + a + b == Tag(7, code) + Leb(size) + (a + b);
  }

  /** A frame is written out once, with the number of its slots, kind 1; a frame that has only been linked to is
      then filled, with the index of the link; every other time a reference is written. Frames that are not there
      are linked to, kind 4, by their ids. */
  lemma FrameFormat(h: Heap, f: nat, t: Table)
    requires f < |h| && EncodeFrame(h, f, t).Success?
    ensures var b := EncodeFrame(h, f, t).value.bytes;
            if f in t.refs && (t.refs[f].encoded || h[f].state.Proxy?) then Refers(b, t.refs[f].index)
            else if h[f].state.Proxy? then LinkId(h[f]).Some? && Spells(b, 4, LinkId(h[f]).value)
            else
              && h[f].slots.Some?
              && if f in t.refs then
                   && First(b).0 == 8 * 7 + 7 && First(First(b).1).0 == |h[f].slots.value|
                   && (t.refs[f].index >= 0 ==> First(First(First(b).1).1).0 == t.refs[f].index)
                 else Begins(b, 1, |h[f].slots.value|)
  {
    hide EncodeSlots, Leb, First;
    if f in t.refs && (t.refs[f].encoded || h[f].state.Proxy?) {
      Reference(t.refs[f].index);
    } else if h[f].state.Proxy? {
      SpelledText(4, LinkId(h[f]).value);
    } else {
      var slots := h[f].slots.value;
      if f in t.refs {
        var rest := EncodeSlots(h, slots, Resolved(t, f)).value.bytes;
        var index := if t.refs[f].index < 0 then 0 else t.refs[f].index;
        FirstLebs(63, |slots|, Leb(index) + rest);
        FirstLeb(index, rest);
        assert Tag(7, 7) + Leb(|slots|) + Leb(index) + rest == Leb(63) + Leb(|slots|) + (Leb(index) + rest);
      } else {
        FirstLeb(1 + 8 * |slots|, EncodeSlots(h, slots, Mark(t, f, true)).value.bytes);
      }
    }
  }

  lemma Reference(index: int)
    ensures Refers(RefBytes(index), index)
  {
    if index < 0 {
      Alone(7, -index);
    } else {
      Alone(0, index);
    }
  }

  /** Inside other objects, a frame that is not anonymous is never written out: the first time it is linked to by
      its id, and then it is referred to. */
  lemma LinkFormat(h: Heap, f: nat, t: Table)
    requires f < |h| && !h[f].state.Anonymous? && EncodeLink(h, Link(f), t).Success?
    ensures var b := EncodeLink(h, Link(f), t).value.bytes;
            if f in t.refs then Refers(b, t.refs[f].index)
            else LinkId(h[f]).Some? && Spells(b, 4, LinkId(h[f]).value)
  {
    if f in t.refs {
      Reference(t.refs[f].index);
    } else {
      SpelledText(4, LinkId(h[f]).value);
    }
  }

  // The kind of object that is written.
  function Kind(bytes: seq<byte>): nat {
    First(bytes).0 % 8
  }

  /** No object is written as a symbol, kind 3. */
  lemma NoSymbol(h: Heap, v: Value, t: Table)
    ensures Encode(h, v, t).Success? ==> Kind(Encode(h, v, t).value.bytes) != 3
    ensures EncodeLink(h, v, t).Success? ==> Kind(EncodeLink(h, v, t).value.bytes) != 3
  {
    hide First;
    if Encode(h, v, t).Success? {
      match v
      case Link(f) =>
        if f < |h| {
          FrameFormat(h, f, t);
        }
      case List(es) => PartsFormat(h, v, t);
      case Qualified(_, _) => PartsFormat(h, v, t);
      case Undefined =>
      case _ => PlainFormat(h, v, t);
    }
    if EncodeLink(h, v, t).Success? && v.Link? && v.frame < |h| && !h[v.frame].state.Anonymous? {
      LinkFormat(h, v.frame, t);
    }
  }

  /** A slot is its name and its value, one after the other; the value is a symbol exactly when the name is that of
      ids, and then nothing but the symbol follows. */
  lemma SlotFormat(h: Heap, s: Slot, t: Table)
    requires EncodeSlot(h, s, t).Success?
    ensures var name, b := EncodeLink(h, s.name, t), EncodeSlot(h, s, t).value.bytes;
            && name.Success? && name.value.bytes <= b
            && var value := b[|name.value.bytes|..];
               && (Kind(value) == 3 <==> s.name == Link(ID))
               && (s.name == Link(ID) ==> s.value.Text? && Spells(value, 3, s.value.utf8))
  {
    hide EncodeLink, First;
    var name, b := EncodeLink(h, s.name, t).value, EncodeSlot(h, s, t).value.bytes;
    var value := b[|name.bytes|..];
    if s.name == Link(ID) {
      assert value == TextBytes(3, s.value.utf8);
      SpelledText(3, s.value.utf8);
    } else {
      assert value == EncodeLink(h, s.value, name.table).value.bytes;
      NoSymbol(h, s.value, name.table);
    }
  }

  /** The standard symbols are special values from the start. */
  lemma SymbolFormat(h: Heap, f: nat)
    requires f < SYMBOLS <= |h|
    ensures Encode(h, Link(f), Start()) == Success(Output([if f == ID then 23 else if f == ISA then 31
                                                           else if f == IS then 39 else 79], Start()))
  {
  }

  // ----- reading -----

  /** What the decoder makes of a number, by the kind in its low three bits: the same kinds, and symbols are
      strings; special numbers without a meaning give nothing. */
  lemma ReadFormat(input: seq<byte>, pos: nat, s: Store, kind: nat, arg: nat)
    requires kind < 8 && arg < 0x4000_0000 && At(input, pos, Leb(8 * arg + kind))
    ensures var r, next := Read1(input, pos, s), pos + |Leb(8 * arg + kind)|;
            && (kind == 0 ==> if arg < |s.refs| && s.refs[arg] != Undefined then r == Success(Got(s.refs[arg], next, s))
                              else r.Failure?)
            && (kind == 2 || kind == 3 ==>
                  forall text | |text| == arg && At(input, next, text) ::
                    r == Success(Got(Text(text), next + arg, s.(refs := s.refs + [Text(text)]))))
            && (kind == 4 ==> forall text | |text| == arg && At(input, next, text) :: LinkRead(s, text, next + arg, r))
            && (kind == 5 ==>
                  exists n :: -0x2000_0000 <= n < 0x2000_0000 && (n == arg || n == arg - 0x4000_0000) &&
                              r == Success(Got(Number(n), next, s)))
            && (kind == 6 ==> r == Success(Got(Float(4 * arg), next, s)))
            && (kind == 7 && !(5 <= arg <= 8) ==>
                  r == Success(Got(if arg == 1 then Null else if arg == 2 then Link(ID) else if arg == 3 then Link(ISA)
                                   else if arg == 4 then Link(IS) else if arg == 9 then Link(NAME) else Undefined,
                                   next, s)))
  {
    hide Leb, ReadVarint64, At, Lookup, Slice;
    ReadNumber(input, pos, s, kind, arg);
    var next := pos + |Leb(8 * arg + kind)|;
    if kind == 5 {
      var n := if arg < 0x2000_0000 then arg else arg - 0x4000_0000;
      SignedArg(arg);
      assert Read1(input, pos, s) == Success(Got(Number(n), next, s));
    }
    forall text | |text| == arg && At(input, next, text)
      ensures Slice(input, next, arg) == text && LinkRead(s, text, next + arg, Dispatch(input, next, s, 4, arg))
    {
      ReadSlice(input, next, text);
      DispatchLink(input, next, s, text);
    }
  }

  lemma DispatchLink(input: seq<byte>, pos: nat, s: Store, id: seq<byte>)
    requires Slice(input, pos, |id|) == id
    ensures LinkRead(s, id, pos + |id|, Dispatch(input, pos, s, 4, |id|))
  {
    hide Slice;
  }

  lemma ReadNumber(input: seq<byte>, pos: nat, s: Store, kind: nat, arg: nat)
    requires kind < 8 && arg < 0x4000_0000 && At(input, pos, Leb(8 * arg + kind))
    ensures var r, next := Read1(input, pos, s), pos + |Leb(8 * arg + kind)|;
            if kind > 0 then r == Dispatch(input, next, s, kind, arg)
            else if arg < |s.refs| && s.refs[arg] != Undefined then r == Success(Got(s.refs[arg], next, s))
            else r.Failure?
  {
    hide ReadVarint64, Leb, Op, Arg, Dispatch;
    TagParts(kind, arg);
    ReadTagNumber(input, pos, kind, arg);
  }

  lemma SignedArg(arg: nat)
    requires arg < 0x4000_0000
    ensures ToInt32(4 * arg) / 4 == if arg < 0x2000_0000 then arg else arg - 0x4000_0000
  {
  }

  // The link to the frame with an id, or to a new proxy for it.
  predicate LinkRead(s: Store, id: seq<byte>, pos: nat, r: Read) {
    && r.Success? && r.value.value.Link? && r.value.pos == pos
    && var f, s' := r.value.value.frame, r.value.store;
       && s'.refs == s.refs + [Link(f)] && id in s'.names && s'.names[id] == f
       && if id in s.names then s'.heap == s.heap && s'.names == s.names
          else
            && s'.heap == s.heap + [Frame(Proxy, Some([Slot(Link(ID), Text(id))]))] && f == |s.heap|
            && s'.names.Keys == s.names.Keys + {id} && forall i :: i in s.names ==> s'.names[i] == s.names[i]
  }

  /** What becomes of values: strings and null stay, truth values become 1 and 0, integers stay when they have 30
      bits, other numbers lose their last two bits, and everything with parts is copied part by part. */
  lemma CopyFormat(m: map<nat, nat>, v: Value)
    ensures var c := Copy(m, v);
            match v
            case Truth(b) => c == if b then Number(1) else Number(0)
            case Number(n) => c.Number? && -0x2000_0000 <= c.number < 0x2000_0000 && (c.number - n) % 0x4000_0000 == 0
            case Float(bits) => c.Float? && c.bits % 4 == 0 && c.bits <= bits < c.bits + 4
            case Link(f) => f in m ==> c == Link(m[f])
            case List(es) =>
              c.List? && |c.elements| == |es| && forall i :: 0 <= i < |es| ==> c.elements[i] == Copy(m, es[i])
            case Qualified(s, q) => c == Qualified(s, Copy(m, q))
            case _ => c == v
  {
    match v
    case Number(n) => Wrap30Exact(n);
    case List(es) => CopyEach(m, es);
    case _ =>
  }

  lemma {:induction false} CopyEach(m: map<nat, nat>, es: seq<Value>)
    ensures forall i :: 0 <= i < |es| ==> CopyAll(m, es)[i] == Copy(m, es[i])
  {
    if es != [] {
      CopyEach(m, es[1..]);
    }
  }

  /** Slots are copied one by one, names to names and values to values. */
  lemma {:induction false} CopyEachSlot(m: map<nat, nat>, slots: seq<Slot>)
    ensures forall i :: 0 <= i < |slots| ==>
              CopySlots(m, slots)[i] == Slot(Copy(m, slots[i].name), Copy(m, slots[i].value))
  {
    hide Copy;
    if slots != [] {
      CopyEachSlot(m, slots[1..]);
    }
  }

  /** The id of a frame is the value of the first slot for ids. */
  lemma {:induction false} FirstIdExact(slots: seq<Slot>, v: Value)
    ensures FirstId(slots) == Some(v) <==>
            exists i :: 0 <= i < |slots| && slots[i] == Slot(Link(ID), v) && forall j :: 0 <= j < i ==>
            slots[j].name != Link(ID)
  {
    if slots != [] {
      FirstIdExact(slots[1..], v);
      if slots[0].name != Link(ID) {
        if i :| 0 <= i < |slots| && slots[i] == Slot(Link(ID), v) && forall j :: 0 <= j < i ==>
        slots[j].name != Link(ID) {
          assert slots[1..][i - 1] == Slot(Link(ID), v);
          assert forall j :: 0 <= j < i - 1 ==> slots[1..][j] == slots[j + 1];
        }
        if i :| 0 <= i < |slots[1..]| && slots[1..][i] == Slot(Link(ID), v) &&
                forall j :: 0 <= j < i ==> slots[1..][j].name != Link(ID) {
          assert slots[i + 1] == Slot(Link(ID), v);
          assert forall j :: 0 < j < i + 1 ==> slots[j] == slots[1..][j - 1];
        }
      } else {
        assert slots[0].value == v ==> slots[0] == Slot(Link(ID), v);
      }
    }
  }

  // ----- an example -----

  // A public frame, another that it links to, and an anonymous frame that contains itself.
  function SomeHeap(): Heap {
    [SymbolFrame(ID), SymbolFrame(ISA), SymbolFrame(IS), SymbolFrame(NAME),
     Frame(Public, Some([Slot(Link(ID), Text([97])), Slot(Link(ISA), Link(5)), Slot(Link(NAME), Text([120]))])),
     Frame(Public, Some([Slot(Link(ID), Text([98]))])),
     Frame(Anonymous, Some([Slot(Link(IS), Link(4)), Slot(Link(5), List([Number(-1), Truth(true), Link(6)]))]))]
  }

  // The table of the example after n objects: the standard symbols, and each frame with its number.
  function SomeTable(n: nat): Table {
    var t := Start().refs;
    if n == 0 then Table(t, 0)
    else if n <= 2 then Table(t[4 := Ref(true, 0)], n)
    else if n <= 4 then Table(t[4 := Ref(true, 0)][5 := Ref(false, 2)], n)
    else Table(t[4 := Ref(true, 0)][5 := Ref(false, 2)][6 := Ref(true, 4)], n)
  }

  lemma OneSlot(h: Heap, s: Slot, t: Table)
    ensures EncodeSlots(h, [s], t) == EncodeSlot(h, s, t)
  {
    assert [s][1..] == [];
    if EncodeSlot(h, s, t).Success? {
      var first := EncodeSlot(h, s, t).value;
      assert first.bytes + [] == first.bytes;
    }
  }

  lemma FirstSlot(h: Heap, s: Slot, rest: seq<Slot>, t: Table)
    ensures EncodeSlots(h, [s] + rest, t) ==
            if EncodeSlot(h, s, t).Failure? then EncodeSlot(h, s, t)
            else Then(EncodeSlot(h, s, t).value.bytes, EncodeSlots(h, rest, EncodeSlot(h, s, t).value.table))
  {
    assert ([s] + rest)[1..] == rest;
  }

  lemma FirstPart(h: Heap, v: Value, rest: seq<Value>, t: Table)
    ensures EncodeLinks(h, [v] + rest, t) ==
            if EncodeLink(h, v, t).Failure? then EncodeLink(h, v, t)
            else Then(EncodeLink(h, v, t).value.bytes, EncodeLinks(h, rest, EncodeLink(h, v, t).value.table))
  {
    assert ([v] + rest)[1..] == rest;
  }

  lemma FirstRoot(h: Heap, v: Value, rest: seq<Value>, t: Table)
    ensures EncodeRoots(h, [v] + rest, t) ==
            if Encode(h, v, t).Failure? then Encode(h, v, t)
            else Then(Encode(h, v, t).value.bytes, EncodeRoots(h, rest, Encode(h, v, t).value.table))
  {
    assert ([v] + rest)[1..] == rest;
  }

  // One number of one byte.
  lemma Short(op: nat, arg: nat)
    requires op + 8 * arg < 128
    ensures Tag(op, arg) == [op + 8 * arg]
  {
  }

  lemma KnownLink(h: Heap, f: nat, t: Table, index: int, bytes: seq<byte>)
    requires f < |h| && !h[f].state.Anonymous? && f in t.refs && t.refs[f].index == index && -15 <= index < 16
    requires bytes == if index < 0 then [7 + 8 * -index] else [8 * index]
    ensures EncodeLink(h, Link(f), t) == Success(Output(bytes, t))
  {
    if index < 0 {
      Short(7, -index);
    } else {
      Short(0, index);
    }
  }

  lemma ShortText(h: Heap, c: byte, t: Table)
    ensures EncodeLink(h, Text([c]), t) == Success(Output([10, c], t.(next := t.next + 1)))
  {
    Short(2, 1);
    assert [10] + [c] == [10, c];
  }

  // A slot with an id of one character.
  lemma IdSlot(h: Heap, c: byte, t: Table)
    requires ID < |h| && !h[ID].state.Anonymous? && ID in t.refs && t.refs[ID].index == -2
    ensures EncodeSlot(h, Slot(Link(ID), Text([c])), t) == Success(Output([23, 11, c], t.(next := t.next + 1)))
  {
    KnownLink(h, ID, t, -2, [23]);
    Short(3, 1);
    assert [23] + ([11] + [c]) == [23, 11, c];
  }

  // A slot whose name and value are known.
  lemma PlainSlot(h: Heap, s: Slot, t: Table, name: seq<byte>, t1: Table, value: seq<byte>, t2: Table)
    requires s.name != Link(ID) && EncodeLink(h, s.name, t) == Success(Output(name, t1))
    requires EncodeLink(h, s.value, t1) == Success(Output(value, t2))
    ensures EncodeSlot(h, s, t) == Success(Output(name + value, t2))
  {
  }

  lemma PublicFrame()
    ensures var h := SomeHeap();
            Encode(h, Link(4), SomeTable(0)) == Success(Output([25, 23, 11, 97, 31, 12, 98, 79, 10, 120], SomeTable(4)))
  {
    hide EncodeSlots, EncodeSlot, EncodeLink;
    var h := SomeHeap();
    var a, b, c := Slot(Link(ID), Text([97])), Slot(Link(ISA), Link(5)), Slot(Link(NAME), Text([120]));
    IdSlot(h, 97, SomeTable(1));
    KnownLink(h, ISA, SomeTable(2), -3, [31]);
    FirstLinked(h);
    PlainSlot(h, b, SomeTable(2), [31], SomeTable(2), [12, 98], SomeTable(3));
    KnownLink(h, NAME, SomeTable(3), -9, [79]);
    ShortText(h, 120, SomeTable(3));
    PlainSlot(h, c, SomeTable(3), [79], SomeTable(3), [10, 120], SomeTable(4));
    FirstSlot(h, a, [b, c], SomeTable(1));
    FirstSlot(h, b, [c], SomeTable(2));
    OneSlot(h, c, SomeTable(3));
    assert h[4].slots.value == [a] + [b, c] && [b, c] == [b] + [c];
    assert Mark(SomeTable(0), 4, true) == SomeTable(1);
    Short(1, 3);
    assert [25] + ([23, 11, 97] + ([31] + [12, 98] + ([79] + [10, 120]))) == [25, 23, 11, 97, 31, 12, 98, 79, 10, 120];
  }

  lemma FirstLinked(h: Heap)
    requires h == SomeHeap()
    ensures EncodeLink(h, Link(5), SomeTable(2)) == Success(Output([12, 98], SomeTable(3)))
  {
    assert LinkId(h[5]) == Some([98]);
    Short(4, 1);
    assert [12] + [98] == [12, 98];
    assert Mark(SomeTable(2), 5, false) == SomeTable(3);
  }

  lemma AnonymousFrame()
    ensures var h := SomeHeap();
            Encode(h, Link(6), SomeTable(4)) ==
            Success(Output([17, 39, 0, 16, 47, 3, 253, 255, 255, 255, 31, 13, 32], SomeTable(6)))
  {
    hide EncodeSlots, EncodeSlot, EncodeLink;
    var h, es := SomeHeap(), [Number(-1), Truth(true), Link(6)];
    var a, b := Slot(Link(IS), Link(4)), Slot(Link(5), List(es));
    var t := SomeTable(5);
    KnownLink(h, IS, t, -4, [39]);
    KnownLink(h, 4, t, 0, [0]);
    PlainSlot(h, a, t, [39], t, [0], t);
    KnownLink(h, 5, t, 2, [16]);
    Elements(h);
    PlainSlot(h, b, t, [16], t, [47, 3, 253, 255, 255, 255, 31, 13, 32], SomeTable(6));
    FirstSlot(h, a, [b], t);
    OneSlot(h, b, t);
    assert h[6].slots.value == [a] + [b];
    assert Mark(SomeTable(4), 6, true) == t;
    Short(1, 2);
    assert [17] + (([39] + [0]) + ([16] + [47, 3, 253, 255, 255, 255, 31, 13, 32])) ==
           [17, 39, 0, 16, 47, 3, 253, 255, 255, 255, 31, 13, 32];
  }

  lemma Elements(h: Heap)
    requires |h| == 7 && h[6].state.Anonymous? && h[6].slots.Some?
    ensures EncodeLink(h, List([Number(-1), Truth(true), Link(6)]), SomeTable(5)) ==
            Success(Output([47, 3, 253, 255, 255, 255, 31, 13, 32], SomeTable(6)))
  {
    hide EncodeLinks, EncodeLink, Encode, SomeTable, Start;
    var es, t := [Number(-1), Truth(true), Link(6)], SomeTable(6);
    FirstPart(h, Number(-1), [Truth(true), Link(6)], t);
    FirstPart(h, Truth(true), [Link(6)], t);
    FirstPart(h, Link(6), [], t);
    assert [Link(6)] + [] == [Link(6)] && [Truth(true)] + [Link(6)] == [Truth(true), Link(6)];
    assert [Number(-1)] + [Truth(true), Link(6)] == es;
    NoParts(h, t);
    PlainParts(h, t);
    SelfLink(h);
    assert EncodeLinks(h, es, t) == Success(Output([253, 255, 255, 255, 31] + ([13] + ([32] + [])), t));
    Array(h, es, [253, 255, 255, 255, 31] + ([13] + ([32] + [])));
    assert [47] + [3] + ([253, 255, 255, 255, 31] + ([13] + ([32] + []))) == [47, 3, 253, 255, 255, 255, 31, 13, 32];
  }

  lemma Array(h: Heap, es: seq<Value>, bytes: seq<byte>)
    requires |es| == 3 && EncodeLinks(h, es, SomeTable(6)) == Success(Output(bytes, SomeTable(6)))
    ensures EncodeLink(h, List(es), SomeTable(5)) == Success(Output([47] + [3] + bytes, SomeTable(6)))
  {
    hide EncodeLinks;
    Short(7, 5);
    assert SomeTable(5).(next := 6) == SomeTable(6);
  }

  lemma PlainParts(h: Heap, t: Table)
    ensures EncodeLink(h, Number(-1), t) == Success(Output([253, 255, 255, 255, 31], t))
    ensures EncodeLink(h, Truth(true), t) == Success(Output([13], t))
  {
    LongNumber();
    Short(5, 1);
  }

  // The anonymous frame inside itself.
  lemma SelfLink(h: Heap)
    requires |h| == 7 && h[6].state.Anonymous? && h[6].slots.Some?
    ensures EncodeLink(h, Link(6), SomeTable(6)) == Success(Output([32], SomeTable(6)))
  {
    Short(0, 4);
    assert SomeTable(6).refs[6] == Ref(true, 4);
    assert EncodeFrame(h, 6, SomeTable(6)) == Success(Output([32], SomeTable(6)));
    assert Encode(h, Link(6), SomeTable(6)) == EncodeFrame(h, 6, SomeTable(6));
  }

  lemma NoParts(h: Heap, t: Table)
    ensures EncodeLinks(h, [], t) == Success(Output([], t))
  {
  }

  lemma LongNumber()
    ensures -1 % 0x4000_0000 == 0x3FFF_FFFF && Tag(5, 0x3FFF_FFFF) == [253, 255, 255, 255, 31]
  {
  }

  lemma LinkedFrame()
    ensures var h, t := SomeHeap(), SomeTable(6);
            Encode(h, Link(5), t) == Success(Output([63, 1, 2, 23, 11, 98], Table(t.refs[5 := Ref(true, 2)], 7)))
  {
    hide EncodeSlots, EncodeSlot;
    var h, t := SomeHeap(), SomeTable(6);
    var a := Slot(Link(ID), Text([98]));
    assert Resolved(t, 5) == Table(t.refs[5 := Ref(true, 2)], 6);
    IdSlot(h, 98, Resolved(t, 5));
    OneSlot(h, a, Resolved(t, 5));
    Short(7, 7);
    assert [63] + [1] + [2] + [23, 11, 98] == [63, 1, 2, 23, 11, 98];
  }

  /** The bytes of a string. */
  lemma StringBytes(h: Heap)
    ensures var w := EncodeAll(h, [Text([97])]); w.Success? && w.value.bytes == [0, 10, 97]
  {
    hide *;
    OneString(h, Start());
    EncodeAllIs(h, [Text([97])]);
    assert [0] + [10, 97] == [0, 10, 97];
  }

  /** The bytes of a whole graph: the marker, the first frame with a link to the second, the anonymous frame with
      references, the second frame filled in, and null. */
  lemma GraphBytes()
    ensures var w := EncodeAll(SomeHeap(), [Link(4), Link(6), Link(5), Null]);
            && w.Success?
            && w.value.bytes == [0] + [25, 23, 11, 97, 31, 12, 98, 79, 10, 120]
                                + [17, 39, 0, 16, 47, 3, 253, 255, 255, 255, 31, 13, 32] + [63, 1, 2, 23, 11, 98] + [15]
  {
    hide *;
    WholeGraph();
    EncodeAllIs(SomeHeap(), [Link(4), Link(6), Link(5), Null]);
    Regroup([0], [25, 23, 11, 97, 31, 12, 98, 79, 10, 120], [17, 39, 0, 16, 47, 3, 253, 255, 255, 255, 31, 13, 32],
            [63, 1, 2, 23, 11, 98], [15]);
  }

  lemma Regroup(a: seq<byte>, b: seq<byte>, c: seq<byte>, d: seq<byte>, e: seq<byte>)
    ensures a + (b + (c + (d + (e + [])))) == a + b + c + d + e
  {
  }

  lemma EncodeAllIs(h: Heap, roots: seq<Value>)
    ensures var w := EncodeRoots(h, roots, Start());
            w.Success? ==> EncodeAll(h, roots) == Success(Output([0] + w.value.bytes, w.value.table))
  {
    hide EncodeRoots;
  }

  lemma OneString(h: Heap, t: Table)
    ensures EncodeRoots(h, [Text([97])], t) == Success(Output([10, 97], t.(next := t.next + 1)))
  {
    hide EncodeRoots, EncodeFrame;
    FirstRoot(h, Text([97]), [], t);
    assert [Text([97])] == [Text([97])] + [];
    NoRoots(h, t.(next := t.next + 1));
    Short(2, 1);
    assert [10] + [97] + [] == [10, 97];
  }

  lemma NoRoots(h: Heap, t: Table)
    ensures EncodeRoots(h, [], t) == Success(Output([], t))
  {
  }

  lemma WholeGraph()
    ensures var w := EncodeRoots(SomeHeap(), [Link(4), Link(6), Link(5), Null], Start());
            && w.Success?
            && w.value.bytes == [25, 23, 11, 97, 31, 12, 98, 79, 10, 120] +
                                ([17, 39, 0, 16, 47, 3, 253, 255, 255, 255, 31, 13, 32] +
                                 ([63, 1, 2, 23, 11, 98] + ([15] + [])))
  {
    hide EncodeRoots, Encode, SomeHeap;
    var h, t := SomeHeap(), SomeTable(6);
    var last := Table(t.refs[5 := Ref(true, 2)], 7);
    PublicFrame();
    AnonymousFrame();
    LinkedFrame();
    FirstRoot(h, Link(4), [Link(6), Link(5), Null], SomeTable(0));
    FirstRoot(h, Link(6), [Link(5), Null], SomeTable(4));
    FirstRoot(h, Link(5), [Null], t);
    FirstRoot(h, Null, [], last);
    NoRoots(h, last);
    NullByte(h, last);
    assert [Null] + [] == [Null] && [Link(5)] + [Null] == [Link(5), Null];
    assert [Link(6)] + [Link(5), Null] == [Link(6), Link(5), Null];
    assert [Link(4)] + [Link(6), Link(5), Null] == [Link(4), Link(6), Link(5), Null];
  }

  lemma NullByte(h: Heap, t: Table)
    ensures Encode(h, Null, t) == Success(Output([15], t))
  {
    Short(7, 1);
  }
}
