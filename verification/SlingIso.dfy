/** The round trip of the binary format, by induction over what the encoder writes. */
module SlingIso {
  import opened Common
  import opened SlingVarint
  import opened SlingGraph
  import opened SlingEncode
  import opened SlingDecode
  import opened SlingRoundTrip

  // ----- values that are not frames -----

  lemma ReadInteger(input: seq<byte>, pos: nat, s: Store, arg: nat)
    requires At(input, pos, Tag(5, arg)) && arg < 0x4000_0000
    ensures Read1(input, pos, s) == Success(Got(Number(Wrap30(arg)), pos + |Tag(5, arg)|, s))
  {
    ReadTag(input, pos, s, 5, arg);
    SignExtend(arg);
  }

  // Shifting left and right by two extends the sign of a 30-bit integer.
  lemma SignExtend(arg: nat)
    requires arg < 0x4000_0000
    ensures ToInt32(4 * arg) / 4 == Wrap30(arg)
  {
    assert 4 * arg % TWO_32 == 4 * arg && arg % 0x4000_0000 == arg;
  }

  lemma WrapTwice(n: int)
    ensures Wrap30(n % 0x4000_0000) == Wrap30(n)
  {
  }

  lemma FloatBits(arg: nat)
    requires arg < 0x4000_0000
    ensures 4 * arg % TWO_32 == 4 * arg
  {
  }

  lemma ReadFloat(input: seq<byte>, pos: nat, s: Store, arg: nat)
    requires At(input, pos, Tag(6, arg)) && arg < 0x4000_0000
    ensures Read1(input, pos, s) == Success(Got(Float(4 * arg), pos + |Tag(6, arg)|, s))
  {
    ReadTag(input, pos, s, 6, arg);
    FloatBits(arg);
  }

  lemma ReadNull(input: seq<byte>, pos: nat, s: Store)
    requires At(input, pos, Tag(7, 1))
    ensures Read1(input, pos, s) == Success(Got(Null, pos + |Tag(7, 1)|, s))
  {
    ReadTag(input, pos, s, 7, 1);
  }

  lemma ReadText(input: seq<byte>, pos: nat, s: Store, op: nat, text: seq<byte>)
    requires At(input, pos, TextBytes(op, text)) && op in {2, 3} && |text| < TWO_28
    ensures Read1(input, pos, s) == Success(Got(Text(text), pos + |TextBytes(op, text)|, Push(s, Text(text))))
  {
    hide ReadVarint64;
    AtSplit(input, pos, Tag(op, |text|), text);
    ReadTag(input, pos, s, op, |text|);
    ReadSlice(input, pos + |Tag(op, |text|)|, text);
  }

  // A value that is no frame and has no place in the reference table.
  lemma ScalarRead(h: Heap, v: Value, t: Table, s: Store, m: map<nat, nat>, input: seq<byte>, pos: nat)
    requires v.Number? || v.Truth? || v.Float? || v.Null?
    requires At(input, pos, Encode(h, v, t).value.bytes)
    ensures Read1(input, pos, s) == Success(Got(Copy(m, v), pos + |Encode(h, v, t).value.bytes|, s))
    ensures Encode(h, v, t).value.table == t
  {
    hide Read1, Tag, Wrap30;
    match v
    case Number(n) =>
      ReadInteger(input, pos, s, n % 0x4000_0000);
      WrapTwice(n);
    case Truth(b) =>
      ReadInteger(input, pos, s, if b then 1 else 0);
      WrapSmall();
    case Float(bits) => ReadFloat(input, pos, s, bits / 4);
    case Null => ReadNull(input, pos, s);
  }

  lemma WrapSmall()
    ensures Wrap30(0) == 0 && Wrap30(1) == 1
  {
  }

  lemma SameDone(h: Heap, v: Value, t: Table, s: Store, m: map<nat, nat>, open: set<nat>, r: Read, pos: nat)
    requires Lockstep(h, t, s, m, open) && Within(v, m.Keys) && r == Success(Got(Copy(m, v), pos, s))
    ensures Done(h, t, s, m, open, v, t, r, m, pos)
  {
    hide Lockstep;
  }

  lemma TextBack(h: Heap, text: seq<byte>, t: Table, s: Store, m: map<nat, nat>, open: set<nat>, input: seq<byte>,
                 pos: nat)
    requires Lockstep(h, t, s, m, open) && |text| < TWO_28 && At(input, pos, TextBytes(2, text))
    ensures Done(h, t, s, m, open, Text(text), t.(next := t.next + 1), Read1(input, pos, s), m,
                 pos + |TextBytes(2, text)|)
  {
    hide Read1, Lockstep, TextBytes;
    ReadText(input, pos, s, 2, text);
    PushStep(h, t, s, m, open, Text(text));
  }

  lemma ScalarBack(h: Heap, v: Value, t: Table, s: Store, m: map<nat, nat>, open: set<nat>, input: seq<byte>, pos: nat)
    requires Lockstep(h, t, s, m, open) && Within(v, Below(|h|))
    requires v.Number? || v.Truth? || v.Float? || v.Null? || v.Text?
    requires At(input, pos, Encode(h, v, t).value.bytes)
    ensures Done(h, t, s, m, open, v, Encode(h, v, t).value.table, Read1(input, pos, s), m,
                 pos + |Encode(h, v, t).value.bytes|)
  {
    hide Read1, Lockstep, Tag, TextBytes, Sub, Kept;
    if v.Text? {
      TextBack(h, v.utf8, t, s, m, open, input, pos);
    } else {
      ScalarRead(h, v, t, s, m, input, pos);
      SameDone(h, v, t, s, m, open, Read1(input, pos, s), pos + |Encode(h, v, t).value.bytes|);
    }
  }

  // ----- what reading a composite value comes down to -----

  lemma AtSplit3(input: seq<byte>, pos: nat, a: seq<byte>, b: seq<byte>, c: seq<byte>)
    requires At(input, pos, a + b + c)
    ensures At(input, pos, a) && At(input, pos + |a|, b) && At(input, pos + |a| + |b|, c)
  {
    AtSplit(input, pos, a + b, c);
    AtSplit(input, pos, a, b);
  }

  lemma ReadSize(input: seq<byte>, pos: nat, n: nat)
    requires At(input, pos, Leb(n)) && n < TWO_28
    ensures ReadVarint32(input, pos) == Success((n, pos + |Leb(n)|))
  {
    ReadVarint32Exact(input, pos, n);
  }

  // An array that is complete.
  function ArrayGot(s: Store, elements: seq<Value>, pos: nat, s': Store): Read {
    Success(Got(List(elements), pos, s'.(refs := SetRef(s'.refs, |s.refs|, List(elements)))))
  }

  lemma DispatchArray(input: seq<byte>, pos: nat, s: Store, size: nat, p: nat, elements: seq<Value>, q: nat, s': Store)
    requires ReadVarint32(input, pos) == Success((size, p))
    requires ReadElements(input, p, Push(s, Undefined), size) == Success((elements, q, s'))
    ensures Dispatch(input, pos, s, 7, 5) == ArrayGot(s, elements, q, s')
  {
    assert Special(input, pos, s, 5) == ReadArray(input, pos, s);
  }

  lemma ReadArrayTag(input: seq<byte>, pos: nat, s: Store, size: nat, elements: seq<Value>, q: nat, s': Store)
    requires At(input, pos, Tag(7, 5) + Leb(size)) && size < TWO_28
    requires ReadElements(input, pos + |Tag(7, 5) + Leb(size)|, Push(s, Undefined), size) == Success((elements, q, s'))
    ensures Read1(input, pos, s) == ArrayGot(s, elements, q, s')
  {
    hide ReadVarint32, ReadVarint64, ReadElements;
    AtSplit(input, pos, Tag(7, 5), Leb(size));
    ReadTag(input, pos, s, 7, 5);
    ReadSize(input, pos + |Tag(7, 5)|, size);
    DispatchArray(input, pos + |Tag(7, 5)|, s, size, pos + |Tag(7, 5)| + |Leb(size)|, elements, q, s');
  }

  // A qualified string that is complete.
  function QStringGot(s: Store, text: seq<byte>, qual: Got): Read {
    Success(Got(Qualified(text, qual.value), qual.pos,
                qual.store.(refs := SetRef(qual.store.refs, |s.refs|, Qualified(text, qual.value)))))
  }

  lemma DispatchQString(input: seq<byte>, pos: nat, s: Store, text: seq<byte>, p: nat, qual: Got)
    requires ReadVarint32(input, pos) == Success((|text|, p)) && Slice(input, p, |text|) == text
    requires Read1(input, p + |text|, Push(s, Undefined)) == Success(qual)
    ensures Dispatch(input, pos, s, 7, 8) == QStringGot(s, text, qual)
  {
    assert Special(input, pos, s, 8) == ReadQString(input, pos, s);
  }

  lemma ReadQStringTag(input: seq<byte>, pos: nat, s: Store, text: seq<byte>, qual: Got)
    requires At(input, pos, Tag(7, 8) + Leb(|text|) + text) && |text| < TWO_28
    requires Read1(input, pos + |Tag(7, 8) + Leb(|text|) + text|, Push(s, Undefined)) == Success(qual)
    ensures Read1(input, pos, s) == QStringGot(s, text, qual)
  {
    hide ReadVarint32, ReadVarint64, Slice;
    AtSplit3(input, pos, Tag(7, 8), Leb(|text|), text);
    ReadTag(input, pos, s, 7, 8);
    ReadSize(input, pos + |Tag(7, 8)|, |text|);
    ReadSlice(input, pos + |Tag(7, 8)| + |Leb(|text|)|, text);
    DispatchQString(input, pos + |Tag(7, 8)|, s, text, pos + |Tag(7, 8)| + |Leb(|text|)|, qual);
  }

  lemma ReadFrameTag(input: seq<byte>, pos: nat, s: Store, size: nat, r: Read)
    requires At(input, pos, Tag(1, size)) && size < TWO_28 && r == ReadNewFrame(input, pos + |Tag(1, size)|, s, size)
    ensures Read1(input, pos, s) == r
  {
    ReadTag(input, pos, s, 1, size);
    assert Dispatch(input, pos + |Tag(1, size)|, s, 1, size) == r;
  }

  lemma DispatchResolve(input: seq<byte>, pos: nat, s: Store, size: nat, p: nat, index: nat, q: nat, f: nat)
    requires ReadVarint32(input, pos) == Success((size, p)) && ReadVarint32(input, p) == Success((index, q))
    requires index < |s.refs| && s.refs[index] == Link(f)
    ensures Dispatch(input, pos, s, 7, 7) == FillFrame(input, q, s, size, f, |s.refs|)
  {
    assert Special(input, pos, s, 7) == ReadResolve(input, pos, s);
  }

  lemma ReadResolveTag(input: seq<byte>, pos: nat, s: Store, size: nat, index: nat, f: nat, q: nat, end: nat, r: Read)
    requires At(input, pos, Tag(7, 7)) && ReadVarint32(input, pos + |Tag(7, 7)|) == Success((size, q))
    requires ReadVarint32(input, q) == Success((index, end)) && index < |s.refs| && s.refs[index] == Link(f)
    requires r == FillFrame(input, end, s, size, f, |s.refs|)
    ensures Read1(input, pos, s) == r
  {
    ReadTag(input, pos, s, 7, 7);
    DispatchResolve(input, pos + |Tag(7, 7)|, s, size, q, index, end, f);
  }

  // Every copy is in the heap, and open frames have copies.
  lemma Copies(h: Heap, t: Table, s: Store, m: map<nat, nat>, open: set<nat>)
    requires Lockstep(h, t, s, m, open)
    ensures forall g :: g in m ==> m[g] < |s.heap|
    ensures forall g :: g in open ==> g in m && g >= SYMBOLS
    ensures t.next == |s.refs| && t.refs.Keys == m.Keys && Below(SYMBOLS) <= m.Keys
    ensures forall g :: g in t.refs ==> t.refs[g].index < t.next
  {
  }

  // ----- the induction -----

  /** Reading back any value: the result is its copy, the tables stay in lockstep, and open frames are
      left alone. */
  lemma {:induction false} ValueBack(h: Heap, v: Value, t: Table, s: Store, m: map<nat, nat>, open: set<nat>,
                                     input: seq<byte>, pos: nat) returns (m': map<nat, nat>)
    requires Graph(h) && Lockstep(h, t, s, m, open) && Within(v, Below(|h|))
    requires v.Link? ==> OnTime(h, v.frame, t)
    requires Encode(h, v, t).Success? && Encode(h, v, t).value.table.next < TWO_28
    requires At(input, pos, Encode(h, v, t).value.bytes)
    ensures Done(h, t, s, m, open, v, Encode(h, v, t).value.table, Read1(input, pos, s), m',
                 pos + |Encode(h, v, t).value.bytes|)
    decreases Pending(h, t), v, 2
  {
    hide Lockstep, Read1, Graph, Pending, At;
    match v
    case Link(f) => m' := FrameBack(h, f, t, s, m, open, input, pos);
    case List(es) => m' := ListBack(h, es, t, s, m, open, input, pos);
    case Qualified(text, q) => m' := QStringBack(h, text, q, t, s, m, open, input, pos);
    case _ =>
      ScalarBack(h, v, t, s, m, open, input, pos);
      m' := m;
  }

  lemma {:induction false} LinkBack(h: Heap, v: Value, t: Table, s: Store, m: map<nat, nat>, open: set<nat>,
                                    input: seq<byte>, pos: nat) returns (m': map<nat, nat>)
    requires Graph(h) && Lockstep(h, t, s, m, open) && Within(v, Below(|h|))
    requires EncodeLink(h, v, t).Success? && EncodeLink(h, v, t).value.table.next < TWO_28
    requires At(input, pos, EncodeLink(h, v, t).value.bytes)
    ensures Done(h, t, s, m, open, v, EncodeLink(h, v, t).value.table, Read1(input, pos, s), m',
                 pos + |EncodeLink(h, v, t).value.bytes|)
    decreases Pending(h, t), v, 3
  {
    if v.Link? && v.frame < |h| && !h[v.frame].state.Anonymous? {
      if v.frame in t.refs {
        KnownRef(h, t, s, m, open, v.frame, input, pos);
        m' := m;
      } else {
        m' := NewLink(h, t, s, m, open, v.frame, input, pos);
      }
    } else {
      if v.Link? && v.frame < |h| {
        AnonymousOnTime(h, t, s, m, open, v.frame);
      }
      m' := ValueBack(h, v, t, s, m, open, input, pos);
    }
  }

  // ----- arrays and qualified strings -----

  lemma FillSlotOf(h: Heap, t: Table, t1: Table, t': Table, s: Store, m': map<nat, nat>, open: set<nat>, i: nat,
                   v: Value)
    requires Lockstep(h, t', s, m', open) && Grows(t1, t') && t1 == t.(next := t.next + 1) && i == t.next
    requires forall g :: g in t.refs ==> t.refs[g].index < t.next
    ensures Lockstep(h, t', s.(refs := SetRef(s.refs, i, v)), m', open)
  {
    FillRef(h, t', s, m', open, i, v);
  }

  lemma {:induction false} ListBack(h: Heap, es: seq<Value>, t: Table, s: Store, m: map<nat, nat>, open: set<nat>,
                                    input: seq<byte>, pos: nat) returns (m': map<nat, nat>)
    requires Graph(h) && Lockstep(h, t, s, m, open) && Within(List(es), Below(|h|))
    requires Encode(h, List(es), t).Success? && Encode(h, List(es), t).value.table.next < TWO_28
    requires At(input, pos, Encode(h, List(es), t).value.bytes)
    ensures Done(h, t, s, m, open, List(es), Encode(h, List(es), t).value.table, Read1(input, pos, s), m',
                 pos + |Encode(h, List(es), t).value.bytes|)
    decreases Pending(h, t), List(es), 0
  {
    hide Lockstep, Read1, EncodeLinks, ReadElements, Graph, At;
    Copies(h, t, s, m, open);
    var t1, head := t.(next := t.next + 1), Tag(7, 5) + Leb(|es|);
    var rest := EncodeLinks(h, es, t1).value;
    AtSplit(input, pos, head, rest.bytes);
    PushStep(h, t, s, m, open, Undefined);
    var s1 := Push(s, Undefined);
    var got;
    got, m' := ElementsBack(h, es, t1, s1, m, open, input, pos + |head|);
    ReadArrayTag(input, pos, s, |es|, got.0, got.1, got.2);
    EncodeLinksGrows(h, es, t1);
    FillSlotOf(h, t, t1, rest.table, got.2, m', open, |s.refs|, List(got.0));
  }

  lemma {:induction false} QStringBack(h: Heap, text: seq<byte>, q: Value, t: Table, s: Store, m: map<nat, nat>,
                                       open: set<nat>, input: seq<byte>, pos: nat) returns (m': map<nat, nat>)
    requires Graph(h) && Lockstep(h, t, s, m, open) && Within(Qualified(text, q), Below(|h|))
    requires Encode(h, Qualified(text, q), t).Success? && Encode(h, Qualified(text, q), t).value.table.next < TWO_28
    requires At(input, pos, Encode(h, Qualified(text, q), t).value.bytes)
    ensures Done(h, t, s, m, open, Qualified(text, q), Encode(h, Qualified(text, q), t).value.table,
                 Read1(input, pos, s), m', pos + |Encode(h, Qualified(text, q), t).value.bytes|)
    decreases Pending(h, t), Qualified(text, q), 0
  {
    hide Lockstep, Read1, EncodeLink, Graph, At;
    Copies(h, t, s, m, open);
    var t1, head := t.(next := t.next + 1), Tag(7, 8) + Leb(|text|) + text;
    var rest := EncodeLink(h, q, t1).value;
    AtSplit(input, pos, head, rest.bytes);
    PushStep(h, t, s, m, open, Undefined);
    var s1 := Push(s, Undefined);
    m' := LinkBack(h, q, t1, s1, m, open, input, pos + |head|);
    var qual := Read1(input, pos + |head|, s1).value;
    ReadQStringTag(input, pos, s, text, qual);
    EncodeLinkGrows(h, q, t1);
    FillSlotOf(h, t, t1, rest.table, qual.store, m', open, |s.refs|, Qualified(text, qual.value));
  }

  lemma {:induction false} ElementsBack(h: Heap, es: seq<Value>, t: Table, s: Store, m: map<nat, nat>, open: set<nat>,
                                        input: seq<byte>, pos: nat)
    returns (got: (seq<Value>, nat, Store), m': map<nat, nat>)
    requires Graph(h) && Lockstep(h, t, s, m, open) && forall i :: 0 <= i < |es| ==> Within(es[i], Below(|h|))
    requires EncodeLinks(h, es, t).Success? && EncodeLinks(h, es, t).value.table.next < TWO_28
    requires At(input, pos, EncodeLinks(h, es, t).value.bytes)
    ensures ReadElements(input, pos, s, |es|) == Success(got) && got.0 == CopyAll(m', es)
    ensures got.1 == pos + |EncodeLinks(h, es, t).value.bytes|
    ensures Follows(h, EncodeLinks(h, es, t).value.table, s, m, got.2, m', open, open)
    ensures forall i :: 0 <= i < |es| ==> Within(es[i], m'.Keys)
    decreases Pending(h, t), es
  {
    hide Lockstep, Read1, EncodeLink, Graph, Pending, At;
    Copies(h, t, s, m, open);
    if es == [] {
      got, m' := ([], pos, s), m;
    } else {
      var first := EncodeLink(h, es[0], t).value;
      var rest := EncodeLinks(h, es[1..], first.table).value;
      AtSplit(input, pos, first.bytes, rest.bytes);
      EncodeLinksGrows(h, es[1..], first.table);
      var m1 := LinkBack(h, es[0], t, s, m, open, input, pos);
      var r := Read1(input, pos, s).value;
      var got1;
      got1, m' := ElementsBack(h, es[1..], first.table, r.store, m1, open, input, r.pos);
      got := ([r.value] + got1.0, got1.1, got1.2);
      CopyStays(m1, m', es[0]);
      FollowsOn(h, rest.table, s, m, r.store, m1, got.2, m', open, open, first.table);
    }
  }

  // ----- slots -----

  predicate AnyId(slots: seq<Slot>) {
    slots != [] && (slots[0].name == Link(ID) || AnyId(slots[1..]))
  }

  /** What reading the slots of an open frame f achieves: its copy becomes public if there is an id slot. */
  ghost predicate SlotsDone(h: Heap, slots: seq<Slot>, t': Table, s: Store, m: map<nat, nat>, open: set<nat>, f: nat,
                            got: (seq<Slot>, Got), m': map<nat, nat>, pos: nat) {
    && got.0 == CopySlots(m', slots) && SlotsWithin(slots, m'.Keys) && got.1.pos == pos
    && f in m && f in m' && got.1.value == Link(m[f]) && m[f] < |s.heap| <= |got.1.store.heap|
    && Follows(h, t', s, m, got.1.store, m', open, open - {f})
    && got.1.store.heap[m[f]].state == if AnyId(slots) then Public else s.heap[m[f]].state
  }

  // The slots of f, or the last of them.
  ghost predicate SlotsOf(h: Heap, f: nat, slots: seq<Slot>) {
    f < |h| && h[f].slots.Some? && forall x :: x in slots ==> x in h[f].slots.value
  }

  lemma SlotGood(h: Heap, f: nat, x: Slot)
    requires Graph(h) && SlotsOf(h, f, [x])
    ensures Within(x.name, Below(|h|)) && Within(x.value, Below(|h|))
    ensures x.name == Link(ID) ==> x.value.Text? && |x.value.utf8| < TWO_28 && HasId(h, f, x.value.utf8)
  {
    assert x in [x];
    assert GoodFrame(h[f], |h|);
  }

  lemma {:induction false} SlotBack(h: Heap, x: Slot, t: Table, s: Store, m: map<nat, nat>, open: set<nat>, f: nat,
                                    refidx: nat, input: seq<byte>, pos: nat)
    returns (got: (Slot, Got), m': map<nat, nat>)
    requires Graph(h) && Lockstep(h, t, s, m, open) && f in open && SlotsOf(h, f, [x]) && Safe(t, f, refidx, [x])
    requires EncodeSlot(h, x, t).Success? && EncodeSlot(h, x, t).value.table.next < TWO_28
    requires At(input, pos, EncodeSlot(h, x, t).value.bytes)
    ensures ReadSlot(input, pos, s, m[f], refidx) == Success(got)
    ensures SlotsDone(h, [x], EncodeSlot(h, x, t).value.table, s, m, open, f, ([got.0], got.1), m',
                      pos + |EncodeSlot(h, x, t).value.bytes|)
    ensures Taken(EncodeSlot(h, x, t).value.table, f, refidx)
    decreases Pending(h, t), x, 1
  {
    hide Lockstep, Read1, ReadSlot, EncodeSlot, Graph, Pending, At, HasId, Grows, SlotsDone;
    SlotGood(h, f, x);
    if x.name == Link(ID) {
      got, m' := IdSlotBack(h, x, t, s, m, open, f, refidx, input, pos);
    } else {
      got, m' := PlainSlotBack(h, x, t, s, m, open, f, refidx, input, pos);
    }
  }

  lemma IdSlotBack(h: Heap, x: Slot, t: Table, s: Store, m: map<nat, nat>, open: set<nat>, f: nat,
                   refidx: nat, input: seq<byte>, pos: nat) returns (got: (Slot, Got), m': map<nat, nat>)
    requires Graph(h) && Lockstep(h, t, s, m, open) && f in open && Safe(t, f, refidx, [x])
    requires x.name == Link(ID) && x.value.Text? && |x.value.utf8| < TWO_28 && HasId(h, f, x.value.utf8)
    requires EncodeSlot(h, x, t).Success? && EncodeSlot(h, x, t).value.table.next < TWO_28
    requires At(input, pos, EncodeSlot(h, x, t).value.bytes)
    ensures ReadSlot(input, pos, s, m[f], refidx) == Success(got)
    ensures SlotsDone(h, [x], EncodeSlot(h, x, t).value.table, s, m, open, f, ([got.0], got.1), m',
                      pos + |EncodeSlot(h, x, t).value.bytes|)
    ensures Taken(EncodeSlot(h, x, t).value.table, f, refidx)
  {
    hide Lockstep, Read1, Graph, Pending, At, Encode, EncodeLink, EncodeSlot, Tag, HasId, ReadSlot, SlotsDone, RefBytes,
         TextBytes;
    Copies(h, t, s, m, open);
    var id, head := x.value.utf8, RefBytes(t.refs[ID].index);
    var t' := t.(next := t.next + 1);
    IdName(h, t, s, m, open);
    IdSlotBytes(h, x, t, head);
    AtSplit(input, pos, head, TextBytes(3, id));
    IdNameBack(h, t, s, m, open, input, pos);
    ReadText(input, pos + |head|, s, 3, id);
    PushStep(h, t, s, m, open, x.value);
    var s1 := Push(s, x.value);
    RegisterStep(h, t', s1, m, open, f, id, refidx);
    m' := m;
    got := (x, Got(Link(m[f]), pos + |head| + |TextBytes(3, id)|, Register(s1, id, m[f], refidx).0));
    IdSlotRead(input, pos, s, m[f], refidx, id, pos + |head|, got.1.pos);
    IdSlotDone(h, x, t', s, s1, m, open, f, got);
  }

  // Reading an id slot.
  lemma IdSlotRead(input: seq<byte>, pos: nat, s: Store, frame: nat, refidx: nat, id: seq<byte>, mid: nat, end: nat)
    requires Read1(input, pos, s) == Success(Got(Link(ID), mid, s))
    requires Read1(input, mid, s) == Success(Got(Text(id), end, Push(s, Text(id))))
    ensures var r := Register(Push(s, Text(id)), id, frame, refidx);
            ReadSlot(input, pos, s, frame, refidx) == Success((Slot(Link(ID), Text(id)), Got(Link(r.1), end, r.0)))
  {
    hide Read1;
  }

  lemma IdSlotDone(h: Heap, x: Slot, t': Table, s: Store, s1: Store, m: map<nat, nat>, open: set<nat>, f: nat,
                   got: (Slot, Got))
    requires Lockstep(h, t', got.1.store, m, open) && f in m && m[f] < |s.heap| && ID in m && m[ID] == ID
    requires x.name == Link(ID) && x.value.Text? && |x.value.utf8| < TWO_28 && got.0 == x && got.1.value == Link(m[f])
    requires s1.heap == s.heap && Kept(s1, got.1.store, m, open - {f}) && got.1.store.heap[m[f]].state == Public
    requires |got.1.store.heap| == |s.heap|
    ensures SlotsDone(h, [x], t', s, m, open, f, ([got.0], got.1), m, got.1.pos)
  {
    hide Lockstep;
    OneCopy(m, x);
  }

  lemma IdName(h: Heap, t: Table, s: Store, m: map<nat, nat>, open: set<nat>)
    requires Graph(h) && Lockstep(h, t, s, m, open)
    ensures ID in t.refs && EncodeLink(h, Link(ID), t) == Success(Output(RefBytes(t.refs[ID].index), t))
  {
  }

  lemma IdNameBack(h: Heap, t: Table, s: Store, m: map<nat, nat>, open: set<nat>, input: seq<byte>, pos: nat)
    requires Lockstep(h, t, s, m, open) && ID in t.refs && At(input, pos, RefBytes(t.refs[ID].index))
    ensures m[ID] == ID && Read1(input, pos, s) == Success(Got(Link(ID), pos + |RefBytes(t.refs[ID].index)|, s))
  {
    KnownSymbol(t, s, m, ID, input, pos);
  }

  lemma IdSlotBytes(h: Heap, x: Slot, t: Table, head: seq<byte>)
    requires x.name == Link(ID) && x.value.Text? && EncodeLink(h, x.name, t) == Success(Output(head, t))
    ensures EncodeSlot(h, x, t) == Success(Output(head + TextBytes(3, x.value.utf8), t.(next := t.next + 1)))
  {
  }

  // Only the id symbol becomes the id symbol.
  lemma NotIdStays(h: Heap, t: Table, s: Store, m: map<nat, nat>, open: set<nat>, v: Value)
    requires Lockstep(h, t, s, m, open) && Within(v, m.Keys) && v != Link(ID)
    ensures Copy(m, v) != Link(ID)
  {
    if v.Link? {
      assert m[ID] == ID;
    }
  }

  lemma OneCopy(m: map<nat, nat>, x: Slot)
    ensures CopySlots(m, [x]) == [Slot(Copy(m, x.name), Copy(m, x.value))]
    ensures AnyId([x]) <==> x.name == Link(ID)
  {
    assert [x][1..] == [];
  }

  lemma {:induction false} PlainSlotBack(h: Heap, x: Slot, t: Table, s: Store, m: map<nat, nat>, open: set<nat>, f: nat,
                                         refidx: nat, input: seq<byte>, pos: nat)
    returns (got: (Slot, Got), m': map<nat, nat>)
    requires Graph(h) && Lockstep(h, t, s, m, open) && f in open && Safe(t, f, refidx, [x]) && x.name != Link(ID)
    requires Within(x.name, Below(|h|)) && Within(x.value, Below(|h|))
    requires EncodeSlot(h, x, t).Success? && EncodeSlot(h, x, t).value.table.next < TWO_28
    requires At(input, pos, EncodeSlot(h, x, t).value.bytes)
    ensures ReadSlot(input, pos, s, m[f], refidx) == Success(got)
    ensures SlotsDone(h, [x], EncodeSlot(h, x, t).value.table, s, m, open, f, ([got.0], got.1), m',
                      pos + |EncodeSlot(h, x, t).value.bytes|)
    ensures Taken(EncodeSlot(h, x, t).value.table, f, refidx)
    decreases Pending(h, t), x, 0
  {
    hide Lockstep, Read1, EncodeLink, Graph, Pending, At, HasId, GoodFrame;
    Copies(h, t, s, m, open);
    var name := EncodeLink(h, x.name, t).value;
    var value := EncodeLink(h, x.value, name.table).value;
    AtSplit(input, pos, name.bytes, value.bytes);
    EncodeSlotGrows(h, x, t);
    TakenStays(t, value.table, f, refidx);
    var m1 := LinkBack(h, x.name, t, s, m, open, input, pos);
    var r := Read1(input, pos, s).value;
    m' := LinkBack(h, x.value, name.table, r.store, m1, open, input, r.pos);
    var r2 := Read1(input, r.pos, r.store).value;
    got := (Slot(r.value, r2.value), Got(Link(m[f]), r2.pos, r2.store));
    NotIdStays(h, name.table, r.store, m1, open, x.name);
    CopyStays(m1, m', x.name);
    FollowsOn(h, value.table, s, m, r.store, m1, r2.store, m', open, open, name.table);
    OneCopy(m', x);
  }

  lemma {:induction false} SlotsBack(h: Heap, slots: seq<Slot>, t: Table, s: Store, m: map<nat, nat>, open: set<nat>,
                                     f: nat,
                                     refidx: nat, input: seq<byte>, pos: nat)
    returns (got: (seq<Slot>, Got), m': map<nat, nat>)
    requires Graph(h) && Lockstep(h, t, s, m, open) && f in open && SlotsOf(h, f, slots) && Safe(t, f, refidx, slots)
    requires EncodeSlots(h, slots, t).Success? && EncodeSlots(h, slots, t).value.table.next < TWO_28
    requires At(input, pos, EncodeSlots(h, slots, t).value.bytes)
    ensures ReadSlots(input, pos, s, |slots|, m[f], refidx) == Success(got)
    ensures SlotsDone(h, slots, EncodeSlots(h, slots, t).value.table, s, m, open, f, got, m',
                      pos + |EncodeSlots(h, slots, t).value.bytes|)
    decreases Pending(h, t), slots
  {
    hide Lockstep, ReadSlot, EncodeSlot, Graph, Pending, At, HasId;
    Copies(h, t, s, m, open);
    if slots == [] {
      got, m' := ([], Got(Link(m[f]), pos, s)), m;
    } else {
      var x, rest := slots[0], slots[1..];
      var first := EncodeSlot(h, x, t).value;
      var out := EncodeSlots(h, rest, first.table).value;
      AtSplit(input, pos, first.bytes, out.bytes);
      EncodeSlotsGrows(h, rest, first.table);
      var one, m1 := SlotBack(h, x, t, s, m, open, f, refidx, input, pos);
      var more;
      more, m' := SlotsBack(h, rest, first.table, one.1.store, m1, open, f, refidx, input, one.1.pos);
      got := ([one.0] + more.0, more.1);
      SlotsJoin(h, slots, first.table, out.table, s, m, open, f, one, m1, more, m', one.1.pos, more.1.pos);
    }
  }

  // The first slot and the rest of the slots.
  lemma SlotsJoin(h: Heap, slots: seq<Slot>, t1: Table, t2: Table, s: Store, m: map<nat, nat>, open: set<nat>, f: nat,
                  one: (Slot, Got), m1: map<nat, nat>, more: (seq<Slot>, Got), m2: map<nat, nat>, p: nat, q: nat)
    requires slots != [] && SlotsDone(h, [slots[0]], t1, s, m, open, f, ([one.0], one.1), m1, p)
    requires SlotsDone(h, slots[1..], t2, one.1.store, m1, open, f, more, m2, q)
    requires forall g :: g in m ==> m[g] < |s.heap|
    ensures SlotsDone(h, slots, t2, s, m, open, f, ([one.0] + more.0, more.1), m2, q)
  {
    hide Lockstep;
    CopySlotsStays(m1, m2, [slots[0]]);
    OneCopy(m2, slots[0]);
    FollowsOn(h, t2, s, m, one.1.store, m1, more.1.store, m2, open, open - {f}, t1);
    assert slots[0] in [slots[0]];
    assert slots == [slots[0]] + slots[1..];
  }

  // ----- frames -----

  lemma {:induction false} FrameBack(h: Heap, f: nat, t: Table, s: Store, m: map<nat, nat>, open: set<nat>,
                                     input: seq<byte>, pos: nat) returns (m': map<nat, nat>)
    requires Graph(h) && Lockstep(h, t, s, m, open) && f < |h|
    requires OnTime(h, f, t)
    requires EncodeFrame(h, f, t).Success? && EncodeFrame(h, f, t).value.table.next < TWO_28
    requires At(input, pos, EncodeFrame(h, f, t).value.bytes)
    ensures Done(h, t, s, m, open, Link(f), EncodeFrame(h, f, t).value.table, Read1(input, pos, s), m',
                 pos + |EncodeFrame(h, f, t).value.bytes|)
    decreases Pending(h, t), Link(f), 1
  {
    hide Lockstep, Read1, EncodeSlots, Graph, Pending, At;
    if f in t.refs && (t.refs[f].encoded || h[f].state.Proxy?) {
      KnownRef(h, t, s, m, open, f, input, pos);
      m' := m;
    } else if h[f].state.Proxy? {
      m' := NewLink(h, t, s, m, open, f, input, pos);
    } else if f in t.refs {
      m' := ResolveBack(h, f, t, s, m, open, input, pos);
    } else {
      m' := NewFrameBack(h, f, t, s, m, open, input, pos);
    }
  }

  lemma {:induction false} NewFrameBack(h: Heap, f: nat, t: Table, s: Store, m: map<nat, nat>, open: set<nat>,
                                        input: seq<byte>, pos: nat) returns (m': map<nat, nat>)
    requires Graph(h) && Lockstep(h, t, s, m, open) && f < |h| && f !in t.refs && !h[f].state.Proxy?
    requires EncodeFrame(h, f, t).Success? && EncodeFrame(h, f, t).value.table.next < TWO_28
    requires At(input, pos, EncodeFrame(h, f, t).value.bytes)
    ensures Done(h, t, s, m, open, Link(f), EncodeFrame(h, f, t).value.table, Read1(input, pos, s), m',
                 pos + |EncodeFrame(h, f, t).value.bytes|)
    decreases Pending(h, t), Link(f), 0
  {
    hide Lockstep, Read1, EncodeSlots, ReadSlots, Graph, At, FillFrame, AnyId;
    Copies(h, t, s, m, open);
    AnyIdIffPublic(h, f);
    var slots, t1, f' := h[f].slots.value, Mark(t, f, true), |s.heap|;
    var s1 := Push(s.(heap := s.heap + [Frame(Anonymous, None)]), Link(f'));
    var m1, p := m[f := f'], pos + |Tag(1, |slots|)|;
    var out := EncodeSlots(h, slots, t1).value;
    AtSplit(input, pos, Tag(1, |slots|), out.bytes);
    OpenNew(h, t, s, m, open, f);
    assert f in Pending(h, t) && f !in Pending(h, t1);
    var got;
    got, m' := SlotsBack(h, slots, t1, s1, m1, open + {f}, f, |s.refs|, input, p);
    ReadFrameTag(input, pos, s, |slots|, ReadNewFrame(input, p, s, |slots|));
    FillRead(input, p, s1, |slots|, f', |s.refs|, got);
    CloseBack(h, out.table, s, s1, m, m1, m', open, f, got, got.1.pos);
  }

  lemma FillRead(input: seq<byte>, pos: nat, s: Store, size: nat, frame: nat, refidx: nat, got: (seq<Slot>, Got))
    requires ReadSlots(input, pos, s, size, frame, refidx) == Success(got)
    ensures got.1.value.Link?
    ensures FillFrame(input, pos, s, size, frame, refidx) ==
            Success(Got(got.1.value, got.1.pos,
                        got.1.store.(heap := SetSlots(got.1.store.heap, got.1.value.frame, got.0))))
  {
  }

  lemma AnyIdIffPublic(h: Heap, f: nat)
    requires Graph(h) && f < |h|
    ensures h[f].slots.Some? && (AnyId(h[f].slots.value) <==> !h[f].state.Anonymous?)
    ensures SlotsOf(h, f, h[f].slots.value) && |h[f].slots.value| < TWO_28
  {
    assert GoodFrame(h[f], |h|);
    if h[f].state.Anonymous? {
      NoIds(h[f].slots.value);
    } else {
      SomeId(h[f].slots.value);
    }
  }

  lemma {:induction false} SomeId(slots: seq<Slot>)
    requires FirstId(slots).Some?
    ensures AnyId(slots)
  {
    if slots[0].name != Link(ID) {
      SomeId(slots[1..]);
    }
  }

  // A frame that has been linked starts with an id if it is to be written out.
  predicate OnTime(h: Heap, f: nat, t: Table) {
    f in t.refs && !t.refs[f].encoded && f < |h| && !h[f].state.Proxy? ==>
      h[f].slots.Some? && h[f].slots.value != [] && h[f].slots.value[0].name == Link(ID)
  }

  // Anonymous frames are never linked before they are written out.
  lemma AnonymousOnTime(h: Heap, t: Table, s: Store, m: map<nat, nat>, open: set<nat>, f: nat)
    requires Lockstep(h, t, s, m, open) && f < |h| && h[f].state.Anonymous?
    ensures OnTime(h, f, t)
  {
  }

  lemma {:induction false} NoIds(slots: seq<Slot>)
    requires forall x :: x in slots ==> x.name != Link(ID)
    ensures !AnyId(slots)
  {
    if slots != [] {
      assert slots[0] in slots;
      NoIds(slots[1..]);
    }
  }

  // The frame that was being written is complete.
  lemma CloseBack(h: Heap, t': Table, s: Store, s1: Store, m: map<nat, nat>, m1: map<nat, nat>, m': map<nat, nat>,
                  open: set<nat>, f: nat, got: (seq<Slot>, Got), pos: nat)
    requires Graph(h) && f >= SYMBOLS && f < |h| && f !in open && Sub(m, m1) && Kept(s, s1, m, open)
    requires forall g :: g in m ==> m[g] < |s.heap|
    requires SlotsDone(h, h[f].slots.value, t', s1, m1, open + {f}, f, got, m', pos)
    requires s1.heap[m1[f]].state.Anonymous? || !h[f].state.Anonymous?
    ensures Done(h, t', s, m, open, Link(f), t',
                 Success(Got(got.1.value, got.1.pos, got.1.store.(heap := SetSlots(got.1.store.heap, m1[f], got.0)))),
                 m', pos)
  {
    hide Lockstep, Graph, AnyId;
    Copies(h, t', got.1.store, m', open + {f});
    AnyIdIffPublic(h, f);
    Close(h, t', got.1.store, m', open, f);
    assert open + {f} - {f} == open;
  }

  lemma {:induction false} ResolveBack(h: Heap, f: nat, t: Table, s: Store, m: map<nat, nat>, open: set<nat>,
                                       input: seq<byte>, pos: nat) returns (m': map<nat, nat>)
    requires Graph(h) && Lockstep(h, t, s, m, open) && f < |h| && f in t.refs && !t.refs[f].encoded
    requires !h[f].state.Proxy?
    requires OnTime(h, f, t)
    requires EncodeFrame(h, f, t).Success? && EncodeFrame(h, f, t).value.table.next < TWO_28
    requires At(input, pos, EncodeFrame(h, f, t).value.bytes)
    ensures Done(h, t, s, m, open, Link(f), EncodeFrame(h, f, t).value.table, Read1(input, pos, s), m',
                 pos + |EncodeFrame(h, f, t).value.bytes|)
    decreases Pending(h, t), Link(f), 0
  {
    hide Lockstep, Read1, EncodeSlots, ReadSlots, Graph, At, FillFrame, AnyId, ReadVarint32, Follows, GoodFrame;
    Copies(h, t, s, m, open);
    OpenLinked(h, t, s, m, open, f);
    AnyIdIffPublic(h, f);
    var slots, index, t1 := h[f].slots.value, t.refs[f].index, Resolved(t, f);
    var out := EncodeSlots(h, slots, t1).value;
    var a, b, c := Tag(7, 7), Leb(|slots|), Leb(index);
    AtSplit(input, pos, a + b + c, out.bytes);
    AtSplit3(input, pos, a, b, c);
    var p := pos + |a| + |b| + |c|;
    assert f in Pending(h, t) && f !in Pending(h, t1);
    EncodeSlotsGrows(h, slots, t1);
    var got;
    got, m' := SlotsBack(h, slots, t1, s, m, open + {f}, f, |s.refs|, input, p);
    ReadSize(input, pos + |a|, |slots|);
    ReadSize(input, pos + |a| + |b|, index);
    FillRead(input, p, s, |slots|, m[f], |s.refs|, got);
    ReadResolveTag(input, pos, s, |slots|, index, m[f], pos + |a| + |b|, p,
                   FillFrame(input, p, s, |slots|, m[f], |s.refs|));
    CloseBack(h, out.table, s, s, m, m, m', open, f, got, got.1.pos);
  }

  // ----- several roots -----

  // The roots are on time when they are written out one after the other.
  ghost predicate RootsOnTime(h: Heap, roots: seq<Value>, t: Table) {
    roots != [] ==>
    && (roots[0].Link? && roots[0].frame < |h| && !h[roots[0].frame].state.Anonymous? ==> OnTime(h, roots[0].frame, t))
    && (Encode(h, roots[0], t).Success? ==> RootsOnTime(h, roots[1..], Encode(h, roots[0], t).value.table))
  }

  lemma {:induction false} RootsBack(h: Heap, roots: seq<Value>, t: Table, s: Store, m: map<nat, nat>,
                                     input: seq<byte>, pos: nat) returns (got: (seq<Value>, Store), m': map<nat, nat>)
    requires Graph(h) && Lockstep(h, t, s, m, {}) && forall i :: 0 <= i < |roots| ==> Within(roots[i], Below(|h|))
    requires RootsOnTime(h, roots, t)
    requires EncodeRoots(h, roots, t).Success? && EncodeRoots(h, roots, t).value.table.next < TWO_28
    requires At(input, pos, EncodeRoots(h, roots, t).value.bytes)
    requires pos + |EncodeRoots(h, roots, t).value.bytes| == |input|
    ensures ReadObjects(input, pos, s) == Success(got) && got.0 == CopyAll(m', roots)
    ensures Follows(h, EncodeRoots(h, roots, t).value.table, s, m, got.1, m', {}, {})
    ensures forall i :: 0 <= i < |roots| ==> Within(roots[i], m'.Keys)
  {
    hide Lockstep, Read1, Encode, Graph, Pending, At;
    Copies(h, t, s, m, {});
    if roots == [] {
      got, m' := ([], s), m;
    } else {
      var first := Encode(h, roots[0], t).value;
      var rest := EncodeRoots(h, roots[1..], first.table).value;
      AtSplit(input, pos, first.bytes, rest.bytes);
      RootsGrow(h, roots[1..], first.table);
      if roots[0].Link? && roots[0].frame < |h| && h[roots[0].frame].state.Anonymous? {
        AnonymousOnTime(h, t, s, m, {}, roots[0].frame);
      }
      var m1 := ValueBack(h, roots[0], t, s, m, {}, input, pos);
      var r := Read1(input, pos, s).value;
      var more;
      more, m' := RootsBack(h, roots[1..], first.table, r.store, m1, input, r.pos);
      got := ([r.value] + more.0, more.1);
      CopyStays(m1, m', roots[0]);
      FollowsOn(h, rest.table, s, m, r.store, m1, more.1, m', {}, {}, first.table);
      assert pos < |input|;
    }
  }

  lemma {:induction false} RootsGrow(h: Heap, roots: seq<Value>, t: Table)
    requires EncodeRoots(h, roots, t).Success?
    ensures Grows(t, EncodeRoots(h, roots, t).value.table)
  {
    if roots != [] {
      EncodeGrows(h, roots[0], t);
      RootsGrow(h, roots[1..], Encode(h, roots[0], t).value.table);
    }
  }

  function Symbols(): map<nat, nat> {
    map[ID := ID, ISA := ISA, IS := IS, NAME := NAME]
  }

  lemma StartTables()
    ensures var t, s, m := Start(), Empty(), Symbols(); t.refs.Keys == m.Keys == Below(SYMBOLS) && t.next == 0
                                                        && s.refs == []
    ensures |Empty().heap| == SYMBOLS && forall f :: 0 <= f < SYMBOLS ==>
                                                     Symbols()[f] == f && Start().refs[f] == Ref(true, SymbolIndex(f))
    ensures forall f :: 0 <= f < SYMBOLS ==> Empty().heap[f] == SymbolFrame(f)
  {
  }

  lemma StartNames()
    ensures forall id :: id in Empty().names ==> Empty().names[id] < SYMBOLS && id == SymbolName(Empty().names[id])
  {
  }

  // A new encoder and an empty store are in lockstep.
  lemma StartLockstep(h: Heap)
    requires Graph(h)
    ensures Lockstep(h, Start(), Empty(), Symbols(), {})
  {
    hide Start, Empty, Symbols, HasId, SymbolFrame, SymbolName, SymbolIndex, LinkId, GoodFrame;
    StartTables();
    StartNames();
    var s := Empty();
    forall f, id | HasId(h, f, id) && id in s.names
      ensures f in Symbols() && s.names[id] == f
    {
      assert HasId(h, s.names[id], id);
    }
  }

  // ----- which frames are written out -----

  // Frames newly written out are anonymous, except possibly `root`.
  ghost predicate OnlyNested(h: Heap, t: Table, t': Table, root: Value) {
    forall f :: f in t'.refs && t'.refs[f].encoded ==>
      (f in t.refs && t.refs[f].encoded) || (f < |h| && h[f].state.Anonymous?)
      || (root == Link(f) && f < |h| && !h[f].state.Proxy?)
  }

  lemma {:induction false} NestedValue(h: Heap, v: Value, t: Table)
    requires Encode(h, v, t).Success?
    ensures OnlyNested(h, t, Encode(h, v, t).value.table, v)
    decreases Pending(h, t), v, 1
  {
    match v
    case Link(f) => NestedFrame(h, f, t);
    case List(es) => NestedLinks(h, es, t.(next := t.next + 1));
    case Qualified(s, q) => NestedLink(h, q, t.(next := t.next + 1));
    case _ =>
  }

  lemma {:induction false} NestedFrame(h: Heap, f: nat, t: Table)
    requires EncodeFrame(h, f, t).Success?
    ensures OnlyNested(h, t, EncodeFrame(h, f, t).value.table, Link(f))
    ensures f < |h|
    ensures (!h[f].state.Proxy? ==> f in EncodeFrame(h, f, t).value.table.refs
                                    && EncodeFrame(h, f, t).value.table.refs[f].encoded)
    decreases Pending(h, t), Link(f), 0
  {
    if !(f in t.refs && (t.refs[f].encoded || h[f].state.Proxy?)) && !h[f].state.Proxy? {
      assert f in Pending(h, t);
      var t1 := if f in t.refs then Resolved(t, f) else Mark(t, f, true);
      assert f !in Pending(h, t1);
      NestedSlots(h, h[f].slots.value, t1);
      EncodeSlotsGrows(h, h[f].slots.value, t1);
    }
  }

  lemma {:induction false} NestedLink(h: Heap, v: Value, t: Table)
    requires EncodeLink(h, v, t).Success?
    ensures OnlyNested(h, t, EncodeLink(h, v, t).value.table, Null)
    decreases Pending(h, t), v, 2
  {
    if !(v.Link? && v.frame < |h| && !h[v.frame].state.Anonymous?) {
      NestedValue(h, v, t);
    }
  }

  lemma {:induction false} NestedLinks(h: Heap, es: seq<Value>, t: Table)
    requires EncodeLinks(h, es, t).Success?
    ensures OnlyNested(h, t, EncodeLinks(h, es, t).value.table, Null)
    decreases Pending(h, t), es
  {
    if es != [] {
      NestedLink(h, es[0], t);
      NestedLinks(h, es[1..], EncodeLink(h, es[0], t).value.table);
    }
  }

  lemma {:induction false} NestedSlots(h: Heap, slots: seq<Slot>, t: Table)
    requires EncodeSlots(h, slots, t).Success?
    ensures OnlyNested(h, t, EncodeSlots(h, slots, t).value.table, Null)
    decreases Pending(h, t), slots
  {
    if slots != [] {
      NestedSlot(h, slots[0], t);
      NestedSlots(h, slots[1..], EncodeSlot(h, slots[0], t).value.table);
    }
  }

  lemma {:induction false} NestedSlot(h: Heap, x: Slot, t: Table)
    requires EncodeSlot(h, x, t).Success?
    ensures OnlyNested(h, t, EncodeSlot(h, x, t).value.table, Null)
    decreases Pending(h, t), x
  {
    NestedLink(h, x.name, t);
    if x.name != Link(ID) {
      NestedLink(h, x.value, EncodeLink(h, x.name, t).value.table);
    }
  }

  // The frames written out are the roots that are no proxies and the anonymous frames.
  lemma {:induction false} RootsNested(h: Heap, roots: seq<Value>, t: Table)
    requires EncodeRoots(h, roots, t).Success?
    ensures var t' := EncodeRoots(h, roots, t).value.table;
            && (forall f :: f in t'.refs && t'.refs[f].encoded ==>
                  (f in t.refs && t.refs[f].encoded) || (f < |h| && h[f].state.Anonymous?) ||
                  (Link(f) in roots && f < |h| && !h[f].state.Proxy?))
            && (forall f: nat :: Link(f) in roots ==>
                  f < |h| && (!h[f].state.Proxy? ==> f in t'.refs && t'.refs[f].encoded))
  {
    if roots != [] {
      var t1 := Encode(h, roots[0], t).value.table;
      NestedValue(h, roots[0], t);
      if roots[0].Link? {
        NestedFrame(h, roots[0].frame, t);
      }
      RootsNested(h, roots[1..], t1);
      RootsGrow(h, roots[1..], t1);
      assert roots == [roots[0]] + roots[1..];
    }
  }

  // ----- the theorem -----

  /** The decoded heap holds a graph isomorphic to the encoded one: m is one-to-one, keeps the symbols, and
      maps every frame to its copy. Anonymous frames and encoded public frames have all their slots; other
      public frames are proxies that know their id. */
  ghost predicate Isomorphic(h: Heap, roots: seq<Value>, copy: Heap, values: seq<Value>, m: map<nat, nat>) {
    && values == CopyAll(m, roots) && (forall i :: 0 <= i < |roots| ==> Within(roots[i], m.Keys))
    && (forall f, g :: f in m && g in m && m[f] == m[g] ==> f == g)
    && (forall f :: 0 <= f < SYMBOLS ==> f in m && m[f] == f)
    && forall f :: f in m && f >= SYMBOLS ==>
         && f < |h| && m[f] < |copy| && h[f].slots.Some?
         && if h[f].state.Anonymous? || (Link(f) in roots && !h[f].state.Proxy?) then
              && SlotsWithin(h[f].slots.value, m.Keys)
              && copy[m[f]] == Frame(if h[f].state.Anonymous? then Anonymous
                                     else Public, Some(CopySlots(m, h[f].slots.value)))
            else
              && LinkId(h[f]).Some?
              && copy[m[f]] == Frame(Proxy, Some([Slot(Link(ID), Text(LinkId(h[f]).value))]))
  }

  lemma LockstepIsomorphic(h: Heap, roots: seq<Value>, t: Table, s: Store, values: seq<Value>, m: map<nat, nat>)
    requires Graph(h) && Lockstep(h, t, s, m, {}) && values == CopyAll(m, roots)
    requires forall i :: 0 <= i < |roots| ==> Within(roots[i], m.Keys)
    requires forall f :: f in t.refs && t.refs[f].encoded ==>
               f < SYMBOLS || (f < |h| && h[f].state.Anonymous?) || (Link(f) in roots && f < |h| && !h[f].state.Proxy?)
    requires forall f: nat :: Link(f) in roots && f < |h| && !h[f].state.Proxy? ==> f in t.refs && t.refs[f].encoded
    ensures Isomorphic(h, roots, s.heap, values, m)
  {
    forall f | f in m && f >= SYMBOLS
      ensures f < |h| && m[f] < |s.heap| && h[f].slots.Some?
      ensures t.refs[f].encoded <==> (h[f].state.Anonymous? || (Link(f) in roots && !h[f].state.Proxy?))
      ensures if t.refs[f].encoded then Copied(h, s, m, f) else Linked(h, s, m, f)
    {
      AnyIdIffPublic(h, f);
    }
  }
}
