/**
  Decoding what was encoded gives an isomorphic graph: sharing and cycles through frames are kept, frames
  that were linked before they were written are filled in place, and public frames that were only linked
  become proxies.
 */
module SlingRoundTrip {
  import opened Common
  import opened SlingVarint
  import opened SlingGraph
  import opened SlingEncode
  import opened SlingDecode

  // ----- the reference table only grows -----

  ghost predicate Grows(t: Table, t': Table) {
    && t.next <= t'.next
    && (forall f :: f in t.refs ==>
          f in t'.refs && t'.refs[f].index == t.refs[f].index && (t.refs[f].encoded ==> t'.refs[f].encoded))
    && forall f :: f in t'.refs && f !in t.refs ==> t.next <= t'.refs[f].index < t'.next
  }

  lemma {:induction false} EncodeGrows(h: Heap, v: Value, t: Table)
    requires Encode(h, v, t).Success?
    ensures Grows(t, Encode(h, v, t).value.table)
    decreases Pending(h, t), v, 1
  {
    match v
    case Link(f) => EncodeFrameGrows(h, f, t);
    case List(es) => EncodeLinksGrows(h, es, t.(next := t.next + 1));
    case Qualified(s, q) => EncodeLinkGrows(h, q, t.(next := t.next + 1));
    case _ =>
  }

  lemma {:induction false} EncodeFrameGrows(h: Heap, f: nat, t: Table)
    requires EncodeFrame(h, f, t).Success?
    ensures Grows(t, EncodeFrame(h, f, t).value.table)
    decreases Pending(h, t), Link(f), 0
  {
    if f in t.refs && (t.refs[f].encoded || h[f].state.Proxy?) {
    } else if !h[f].state.Proxy? {
      assert f in Pending(h, t);
      if f in t.refs {
        assert f !in Pending(h, Resolved(t, f));
        EncodeSlotsGrows(h, h[f].slots.value, Resolved(t, f));
      } else {
        assert f !in Pending(h, Mark(t, f, true));
        EncodeSlotsGrows(h, h[f].slots.value, Mark(t, f, true));
      }
    }
  }

  lemma {:induction false} EncodeLinkGrows(h: Heap, v: Value, t: Table)
    requires EncodeLink(h, v, t).Success?
    ensures Grows(t, EncodeLink(h, v, t).value.table)
    decreases Pending(h, t), v, 2
  {
    if !(v.Link? && v.frame < |h| && !h[v.frame].state.Anonymous?) {
      EncodeGrows(h, v, t);
    }
  }

  lemma {:induction false} EncodeLinksGrows(h: Heap, es: seq<Value>, t: Table)
    requires EncodeLinks(h, es, t).Success?
    ensures Grows(t, EncodeLinks(h, es, t).value.table)
    decreases Pending(h, t), es
  {
    if es != [] {
      EncodeLinkGrows(h, es[0], t);
      EncodeLinksGrows(h, es[1..], EncodeLink(h, es[0], t).value.table);
    }
  }

  lemma {:induction false} EncodeSlotGrows(h: Heap, s: Slot, t: Table)
    requires EncodeSlot(h, s, t).Success?
    ensures Grows(t, EncodeSlot(h, s, t).value.table)
    ensures Grows(t, EncodeLink(h, s.name, t).value.table)
    ensures s.name != Link(ID) ==>
              Grows(EncodeLink(h, s.name, t).value.table, EncodeSlot(h, s, t).value.table)
    decreases Pending(h, t), s
  {
    EncodeLinkGrows(h, s.name, t);
    if s.name != Link(ID) {
      EncodeLinkGrows(h, s.value, EncodeLink(h, s.name, t).value.table);
    }
  }

  lemma {:induction false} EncodeSlotsGrows(h: Heap, slots: seq<Slot>, t: Table)
    requires EncodeSlots(h, slots, t).Success?
    ensures Grows(t, EncodeSlots(h, slots, t).value.table)
    decreases Pending(h, t), slots
  {
    if slots != [] {
      EncodeSlotGrows(h, slots[0], t);
      EncodeSlotsGrows(h, slots[1..], EncodeSlot(h, slots[0], t).value.table);
    }
  }

  // ----- reading what was written -----

  lemma TagParts(op: nat, arg: nat)
    requires op < 8 && arg < TWO_31
    ensures Op(op + 8 * arg) == op && Arg(op + 8 * arg) == arg
  {
  }

  lemma ReadTagNumber(input: seq<byte>, pos: nat, op: nat, arg: nat)
    requires At(input, pos, Tag(op, arg)) && op < 8 && arg < TWO_31
    ensures ReadVarint64(input, pos) == (op + 8 * arg, pos + |Tag(op, arg)|)
  {
    ReadVarint64Exact(input, pos, op + 8 * arg);
  }

  lemma ReadTag(input: seq<byte>, pos: nat, s: Store, op: nat, arg: nat)
    requires At(input, pos, Tag(op, arg)) && 0 < op < 8 && arg < TWO_31
    ensures Read1(input, pos, s) == Dispatch(input, pos + |Tag(op, arg)|, s, op, arg)
  {
    hide ReadVarint64, Tag, Op, Arg;
    ReadTagNumber(input, pos, op, arg);
    TagParts(op, arg);
  }

  lemma ReadRef(input: seq<byte>, pos: nat, s: Store, i: nat)
    requires At(input, pos, Tag(0, i)) && i < TWO_31 && i < |s.refs| && s.refs[i] != Undefined
    ensures Read1(input, pos, s) == Success(Got(s.refs[i], pos + |Tag(0, i)|, s))
  {
    hide ReadVarint64, Tag, Op, Arg;
    ReadTagNumber(input, pos, 0, i);
    TagParts(0, i);
  }

  lemma ReadSlice(input: seq<byte>, pos: nat, bytes: seq<byte>)
    requires At(input, pos, bytes)
    ensures Slice(input, pos, |bytes|) == bytes
  {
  }

  // ----- the correspondence between the encoder's table and the decoder's store -----

  /** Frame f has been written out and read back completely. */
  ghost predicate Copied(h: Heap, s: Store, m: map<nat, nat>, f: nat) {
    && f in m && m[f] < |s.heap| && f < |h| && h[f].slots.Some? && SlotsWithin(h[f].slots.value, m.Keys)
    && s.heap[m[f]] == Frame(if h[f].state.Anonymous? then Anonymous else Public, Some(CopySlots(m, h[f].slots.value)))
  }

  /** Only a link to f has been written; its copy is a proxy. */
  ghost predicate Linked(h: Heap, s: Store, m: map<nat, nat>, f: nat) {
    && f in m && m[f] < |s.heap| && f < |h| && !h[f].state.Anonymous? && LinkId(h[f]).Some?
    && s.heap[m[f]] == Frame(Proxy, Some([Slot(Link(ID), Text(LinkId(h[f]).value))]))
  }

  // Every frame in the table has its own copy, which the reference table knows by the frame's number.
  ghost predicate Indexed(h: Heap, t: Table, s: Store, m: map<nat, nat>) {
    && t.next == |s.refs| && m.Keys == t.refs.Keys && |s.heap| >= SYMBOLS
    && (forall f :: f in m ==> f < |h| && m[f] < |s.heap|)
    && (forall f :: f in m && f >= SYMBOLS ==>
          m[f] >= SYMBOLS && 0 <= t.refs[f].index < |s.refs| && s.refs[t.refs[f].index] == Link(m[f]))
    && forall f, g :: f in m && g in m && m[f] == m[g] ==> f == g
  }

  ghost predicate SymbolsKept(t: Table, s: Store, m: map<nat, nat>) {
    && |s.heap| >= SYMBOLS
    && forall f :: 0 <= f < SYMBOLS ==>
         f in t.refs && t.refs[f] == Ref(true, SymbolIndex(f)) && f in m && m[f] == f && s.heap[f] == SymbolFrame(f)
  }

  // A registered id of one of the frames leads to that frame's copy.
  ghost predicate Named(h: Heap, t: Table, s: Store, m: map<nat, nat>) {
    && (forall f, id :: HasId(h, f, id) && id in s.names ==> f in m && s.names[id] == m[f])
    && forall f :: f in t.refs && !t.refs[f].encoded ==>
         f < |h| && LinkId(h[f]).Some? && LinkId(h[f]).value in s.names
  }

  /** Lockstep: the encoder's counter is the length of the decoder's table, and every frame in the encoder's
      table is copied, linked, or in `open`, the frames whose slots are being written. */
  ghost predicate Lockstep(h: Heap, t: Table, s: Store, m: map<nat, nat>, open: set<nat>) {
    && Indexed(h, t, s, m) && SymbolsKept(t, s, m) && Named(h, t, s, m)
    && (forall f :: f in open ==> f >= SYMBOLS && f in t.refs && t.refs[f].encoded)
    && Placed(h, t, s, m, open)
  }

  ghost predicate InPlace(h: Heap, t: Table, s: Store, m: map<nat, nat>, f: nat)
    requires f in t.refs
  {
    if t.refs[f].encoded then Copied(h, s, m, f) else Linked(h, s, m, f)
  }

  ghost predicate Placed(h: Heap, t: Table, s: Store, m: map<nat, nat>, open: set<nat>) {
    forall f :: f in t.refs && f >= SYMBOLS && f !in open ==> InPlace(h, t, s, m, f)
  }

  // The copies of open frames are left alone.
  ghost predicate Kept(s: Store, s': Store, m: map<nat, nat>, open: set<nat>) {
    |s.heap| <= |s'.heap| && forall f :: f in open && f in m && m[f] < |s.heap| ==> s'.heap[m[f]] == s.heap[m[f]]
  }

  lemma CopiedStays(h: Heap, s: Store, s': Store, m: map<nat, nat>, m': map<nat, nat>, f: nat)
    requires Copied(h, s, m, f) && Sub(m, m') && m[f] < |s'.heap| && s'.heap[m[f]] == s.heap[m[f]]
    ensures Copied(h, s', m', f)
  {
    CopySlotsStays(m, m', h[f].slots.value);
  }

  lemma InPlaceStays(h: Heap, t: Table, t': Table, s: Store, s': Store, m: map<nat, nat>, m': map<nat, nat>, f: nat)
    requires f in t.refs && f in t'.refs && t'.refs[f].encoded == t.refs[f].encoded && InPlace(h, t, s, m, f)
    requires Sub(m, m') && (f in m && m[f] < |s.heap| ==> m[f] < |s'.heap| && s'.heap[m[f]] == s.heap[m[f]])
    ensures InPlace(h, t', s', m', f)
  {
    if t.refs[f].encoded {
      CopiedStays(h, s, s', m, m', f);
    }
  }

  // Frames stay in place when the heap changes only at the copies of open frames.
  lemma PlacedStays(h: Heap, t: Table, t': Table, s: Store, s': Store, m: map<nat, nat>, open: set<nat>)
    requires Placed(h, t, s, m, open) && t'.refs == t.refs && m.Keys == t.refs.Keys && |s.heap| <= |s'.heap|
    requires forall f :: f in m && f !in open && m[f] < |s.heap| ==> s'.heap[m[f]] == s.heap[m[f]]
    ensures Placed(h, t', s', m, open)
  {
    hide InPlace;
    forall f | f in t.refs && f >= SYMBOLS && f !in open ensures InPlace(h, t', s', m, f) {
      InPlaceStays(h, t, t', s, s', m, m, f);
    }
  }

  // ----- one step -----

  ghost predicate Follows(h: Heap, t': Table, s: Store, m: map<nat, nat>, s': Store, m': map<nat, nat>,
                          open: set<nat>, kept: set<nat>) {
    Lockstep(h, t', s', m', open) && Sub(m, m') && Kept(s, s', m, kept)
  }

  lemma FollowsOn(h: Heap, t2: Table, s: Store, m: map<nat, nat>, s1: Store, m1: map<nat, nat>, s2: Store, m2: map<nat,
                  nat>,
                  open: set<nat>, kept: set<nat>, t1: Table)
    requires Follows(h, t1, s, m, s1, m1, open, kept) && Follows(h, t2, s1, m1, s2, m2, open, kept)
    requires forall f :: f in m ==> m[f] < |s.heap|
    ensures Follows(h, t2, s, m, s2, m2, open, kept)
  {
  }

  /** What reading back a value achieves. */
  ghost predicate Done(h: Heap, t: Table, s: Store, m: map<nat, nat>, open: set<nat>, v: Value,
                       t': Table, r: Read, m': map<nat, nat>, pos: nat) {
    && r.Success? && r.value.pos == pos && Follows(h, t', s, m, r.value.store, m', open, open)
    && Within(v, m'.Keys) && r.value.value == Copy(m', v)
  }

  lemma NamedStays(h: Heap, t: Table, t': Table, s: Store, s': Store, m: map<nat, nat>)
    requires Named(h, t, s, m) && t'.refs == t.refs && s'.names == s.names
    ensures Named(h, t', s', m)
  {
    hide HasId, LinkId;
  }

  // Pushing an object that is no frame.
  lemma PushStep(h: Heap, t: Table, s: Store, m: map<nat, nat>, open: set<nat>, v: Value)
    requires Lockstep(h, t, s, m, open)
    ensures Lockstep(h, t.(next := t.next + 1), Push(s, v), m, open)
  {
    hide Named, Placed;
    PlacedStays(h, t, t.(next := t.next + 1), s, Push(s, v), m, open);
    NamedStays(h, t, t.(next := t.next + 1), s, Push(s, v), m);
  }

  // A reference to a frame in the table leads to its copy.
  lemma KnownRef(h: Heap, t: Table, s: Store, m: map<nat, nat>, open: set<nat>, f: nat, input: seq<byte>, pos: nat)
    requires Lockstep(h, t, s, m, open) && f in t.refs && t.next < TWO_28
    requires At(input, pos, RefBytes(t.refs[f].index))
    ensures Done(h, t, s, m, open, Link(f), t, Read1(input, pos, s), m, pos + |RefBytes(t.refs[f].index)|)
  {
    hide Named, Placed;
    var i := t.refs[f].index;
    if f >= SYMBOLS {
      ReadRef(input, pos, s, i);
    } else {
      KnownSymbol(t, s, m, f, input, pos);
    }
  }

  lemma KnownSymbol(t: Table, s: Store, m: map<nat, nat>, f: nat, input: seq<byte>, pos: nat)
    requires SymbolsKept(t, s, m) && f < SYMBOLS && At(input, pos, RefBytes(t.refs[f].index))
    ensures Read1(input, pos, s) == Success(Got(Link(f), pos + |RefBytes(t.refs[f].index)|, s))
  {
    ReadTag(input, pos, s, 7, -t.refs[f].index);
  }

  // The id that a link carries is an id of the frame.
  lemma LinkIdHas(h: Heap, f: nat)
    requires Graph(h) && f < |h| && !h[f].state.Anonymous?
    ensures LinkId(h[f]).Some? && HasId(h, f, LinkId(h[f]).value)
    ensures FirstId(h[f].slots.value) == Some(Text(LinkId(h[f]).value)) && |LinkId(h[f]).value| < TWO_28
  {
    var slots := h[f].slots.value;
    assert GoodFrame(h[f], |h|);
    FirstIdIn(slots);
    assert Within(FirstId(slots).value, Below(|h|));
  }

  // A link to a frame that is not in the table makes a new proxy.
  lemma NewLink(h: Heap, t: Table, s: Store, m: map<nat, nat>, open: set<nat>, f: nat, input: seq<byte>, pos: nat)
    returns (m': map<nat, nat>)
    requires Graph(h) && Lockstep(h, t, s, m, open) && f < |h| && f !in t.refs && !h[f].state.Anonymous?
    requires EncodeNewLink(h, f, t).Success? && At(input, pos, EncodeNewLink(h, f, t).value.bytes)
    ensures Done(h, t, s, m, open, Link(f), Mark(t, f, false), Read1(input, pos, s), m',
                 pos + |EncodeNewLink(h, f, t).value.bytes|)
  {
    hide Read1, Lockstep, Graph, HasId, Kept, Sub, LinkId, Encode;
    LinkIdHas(h, f);
    var id := LinkId(h[f]).value;
    NewLinkBytes(h, f, t, id);
    ReadNewLink(input, pos, s, id);
    FreshId(h, t, s, m, open, f, id);
    m' := m[f := Lookup(s, id).1];
    NewLinkLockstep(h, t, s, m, open, f, id);
    KeptRefs(s, Lookup(s, id).0, m, open, Link(Lookup(s, id).1));
  }

  lemma NewLinkBytes(h: Heap, f: nat, t: Table, id: seq<byte>)
    requires f < |h| && f !in t.refs && LinkId(h[f]) == Some(id)
    ensures EncodeNewLink(h, f, t) == Success(Output(TextBytes(4, id), Mark(t, f, false)))
  {
    hide LinkId;
  }

  lemma KeptRefs(s: Store, s': Store, m: map<nat, nat>, open: set<nat>, v: Value)
    requires Kept(s, s', m, open)
    ensures Kept(s, Push(s', v), m, open)
  {
  }

  lemma FreshId(h: Heap, t: Table, s: Store, m: map<nat, nat>, open: set<nat>, f: nat, id: seq<byte>)
    requires Lockstep(h, t, s, m, open) && f !in t.refs && HasId(h, f, id)
    ensures id !in s.names
  {
    hide HasId, SymbolsKept, Placed;
  }

  lemma ReadNewLink(input: seq<byte>, pos: nat, s: Store, id: seq<byte>)
    requires At(input, pos, TextBytes(4, id)) && |id| < TWO_28
    ensures var l := Lookup(s, id);
            Read1(input, pos, s) == Success(Got(Link(l.1), pos + |TextBytes(4, id)|, Push(l.0, Link(l.1))))
  {
    hide ReadVarint64;
    AtSplit(input, pos, Tag(4, |id|), id);
    ReadTag(input, pos, s, 4, |id|);
    ReadSlice(input, pos + |Tag(4, |id|)|, id);
  }

  // A new frame gets its number and its copy at the same time.
  lemma AddIndexed(h: Heap, t: Table, s: Store, m: map<nat, nat>, f: nat, encoded: bool, s': Store)
    requires Indexed(h, t, s, m) && SymbolsKept(t, s, m) && f < |h| && f !in t.refs
    requires |s'.heap| == |s.heap| + 1 && s'.heap[..|s.heap|] == s.heap && s'.refs == s.refs + [Link(|s.heap|)]
    ensures Indexed(h, Mark(t, f, encoded), s', m[f := |s.heap|])
    ensures SymbolsKept(Mark(t, f, encoded), s', m[f := |s.heap|])
  {
    AddIndex(h, t, s, m, f, encoded, s');
    AddSymbols(t, s, m, f, encoded, s');
  }

  lemma AddIndex(h: Heap, t: Table, s: Store, m: map<nat, nat>, f: nat, encoded: bool, s': Store)
    requires Indexed(h, t, s, m) && f < |h| && f !in t.refs
    requires |s'.heap| == |s.heap| + 1 && s'.refs == s.refs + [Link(|s.heap|)]
    ensures Indexed(h, Mark(t, f, encoded), s', m[f := |s.heap|])
  {
    var t', m' := Mark(t, f, encoded), m[f := |s.heap|];
    assert t'.refs.Keys == t.refs.Keys + {f};
    assert m'.Keys == m.Keys + {f};
  }

  lemma AddSymbols(t: Table, s: Store, m: map<nat, nat>, f: nat, encoded: bool, s': Store)
    requires SymbolsKept(t, s, m) && f !in t.refs && |s'.heap| == |s.heap| + 1 && s'.heap[..|s.heap|] == s.heap
    ensures SymbolsKept(Mark(t, f, encoded), s', m[f := |s.heap|])
  {
    hide SymbolFrame, SymbolIndex;
    forall g | 0 <= g < SYMBOLS
      ensures s'.heap[g] == s.heap[g]
    {
      assert s'.heap[..|s.heap|][g] == s'.heap[g];
    }
  }

  // Frames that were copied or linked stay so when a new frame is added.
  lemma AddOthers(h: Heap, t: Table, s: Store, m: map<nat, nat>, open: set<nat>, open': set<nat>, f: nat, encoded: bool,
                  s': Store)
    requires Lockstep(h, t, s, m, open) && f !in t.refs
    requires |s'.heap| == |s.heap| + 1 && s'.heap[..|s.heap|] == s.heap
    requires InPlace(h, Mark(t, f, encoded), s', m[f := |s.heap|], f) || f in open'
    requires open <= open'
    ensures Placed(h, Mark(t, f, encoded), s', m[f := |s.heap|], open')
  {
    hide InPlace, Named, SymbolsKept, HasId;
    var t', m' := Mark(t, f, encoded), m[f := |s.heap|];
    forall g | g in t'.refs && g >= SYMBOLS && g !in open' ensures InPlace(h, t', s', m', g) {
      if g != f {
        assert s'.heap[..|s.heap|][m[g]] == s'.heap[m[g]];
        InPlaceStays(h, t, t', s, s', m, m', g);
      }
    }
  }

  lemma NewLinkLockstep(h: Heap, t: Table, s: Store, m: map<nat, nat>, open: set<nat>, f: nat, id: seq<byte>)
    requires Graph(h) && Lockstep(h, t, s, m, open) && f < |h| && f !in t.refs && !h[f].state.Anonymous?
    requires LinkId(h[f]) == Some(id) && HasId(h, f, id) && id !in s.names
    ensures var l := Lookup(s, id);
            && Lockstep(h, Mark(t, f, false), Push(l.0, Link(l.1)), m[f := l.1], open)
            && Kept(s, l.0, m, open) && Sub(m, m[f := l.1])
  {
    hide Named, Placed, Graph, HasId, Indexed, SymbolsKept, LinkId;
    var l := Lookup(s, id);
    var s' := Push(l.0, Link(l.1));
    LockstepParts(h, t, s, m, open);
    AddIndexed(h, t, s, m, f, false, s');
    NewIsLinked(h, t, s, m, f, id, s');
    AddOthers(h, t, s, m, open, open, f, false, s');
    NewLinkNamed(h, t, s, m, f, id, s');
  }

  lemma LockstepParts(h: Heap, t: Table, s: Store, m: map<nat, nat>, open: set<nat>)
    requires Lockstep(h, t, s, m, open)
    ensures Indexed(h, t, s, m) && SymbolsKept(t, s, m) && Named(h, t, s, m) && Placed(h, t, s, m, open)
    ensures m.Keys == t.refs.Keys && t.next == |s.refs| && forall f :: f in m ==> f < |h| && m[f] < |s.heap|
  {
    hide Named, Placed, SymbolsKept;
  }

  lemma NewIsLinked(h: Heap, t: Table, s: Store, m: map<nat, nat>, f: nat, id: seq<byte>, s': Store)
    requires f < |h| && !h[f].state.Anonymous? && LinkId(h[f]) == Some(id) && id !in s.names
    requires s' == Push(Lookup(s, id).0, Link(|s.heap|))
    ensures InPlace(h, Mark(t, f, false), s', m[f := |s.heap|], f)
  {
    hide LinkId;
  }

  lemma NewLinkNamed(h: Heap, t: Table, s: Store, m: map<nat, nat>, f: nat, id: seq<byte>, s': Store)
    requires Graph(h) && Named(h, t, s, m) && f < |h| && f !in m
    requires LinkId(h[f]) == Some(id) && HasId(h, f, id) && s'.names == s.names[id := |s.heap|]
    ensures Named(h, Mark(t, f, false), s', m[f := |s.heap|])
  {
  }

  // ----- registering ids and filling in references -----

  // The entry of the reference table that an id slot overwrites belongs to no other frame.
  ghost predicate Taken(t: Table, f: nat, i: nat) {
    && f in t.refs && i < t.next
    && forall g :: g in t.refs && g != f ==> t.refs[g].index != i
  }

  ghost predicate Safe(t: Table, f: nat, i: nat, slots: seq<Slot>) {
    Taken(t, f, i) || (f in t.refs && i == t.next && slots != [] && slots[0].name == Link(ID))
  }

  lemma TakenStays(t: Table, t': Table, f: nat, i: nat)
    requires Taken(t, f, i) && Grows(t, t')
    ensures Taken(t', f, i)
  {
  }

  // Filling an entry of the reference table that is not a frame's.
  lemma FillRef(h: Heap, t: Table, s: Store, m: map<nat, nat>, open: set<nat>, i: nat, v: Value)
    requires Lockstep(h, t, s, m, open) && i < |s.refs|
    requires forall g :: g in t.refs ==> t.refs[g].index != i || v == Link(m[g])
    ensures Lockstep(h, t, s.(refs := SetRef(s.refs, i, v)), m, open)
  {
    hide Placed, Named;
    var s' := s.(refs := SetRef(s.refs, i, v));
    PlacedStays(h, t, t, s, s', m, open);
    NamedStays(h, t, t, s, s', m);
  }

  // An id slot of an open frame makes the frame's copy public and changes nothing else.
  lemma RegisterStep(h: Heap, t: Table, s: Store, m: map<nat, nat>, open: set<nat>, f: nat, id: seq<byte>, i: nat)
    requires Graph(h) && Lockstep(h, t, s, m, open) && f in open && HasId(h, f, id) && Taken(t, f, i)
    ensures var r := Register(s, id, m[f], i);
            && r.1 == m[f] && Lockstep(h, t, r.0, m, open) && |r.0.heap| == |s.heap|
            && r.0.heap[m[f]] == s.heap[m[f]].(state := Public) && Kept(s, r.0, m, open - {f})
  {
    var s1 := s.(heap := SetState(s.heap, m[f], Public));
    PublicStep(h, t, s, m, open, f);
    if id in s.names {
      FillRef(h, t, s1, m, open, i, Link(m[f]));
    } else {
      NameStep(h, t, s1, m, open, f, id);
    }
  }

  lemma PublicStep(h: Heap, t: Table, s: Store, m: map<nat, nat>, open: set<nat>, f: nat)
    requires Lockstep(h, t, s, m, open) && f in open
    ensures Lockstep(h, t, s.(heap := SetState(s.heap, m[f], Public)), m, open)
  {
    hide Placed, Named;
    var s' := s.(heap := SetState(s.heap, m[f], Public));
    PlacedStays(h, t, t, s, s', m, open);
    NamedStays(h, t, t, s, s', m);
  }

  lemma NameNamed(h: Heap, t: Table, s: Store, m: map<nat, nat>, f: nat, id: seq<byte>)
    requires Graph(h) && Named(h, t, s, m) && f in m && HasId(h, f, id) && id !in s.names
    ensures Named(h, t, s.(names := s.names[id := m[f]]), m)
  {
  }

  lemma NameStep(h: Heap, t: Table, s: Store, m: map<nat, nat>, open: set<nat>, f: nat, id: seq<byte>)
    requires Graph(h) && Lockstep(h, t, s, m, open) && f in open && HasId(h, f, id) && id !in s.names
    ensures Lockstep(h, t, s.(names := s.names[id := m[f]]), m, open)
  {
    hide Named, HasId, Graph, Placed;
    var s' := s.(names := s.names[id := m[f]]);
    NameNamed(h, t, s, m, f, id);
    PlacedStays(h, t, t, s, s', m, open);
  }

  // ----- frames: opening and closing -----

  // Starting to write out a frame that the table does not know.
  lemma OpenNew(h: Heap, t: Table, s: Store, m: map<nat, nat>, open: set<nat>, f: nat)
    requires Lockstep(h, t, s, m, open) && f < |h| && f !in t.refs
    ensures var s1 := Push(s.(heap := s.heap + [Frame(Anonymous, None)]), Link(|s.heap|));
            && Lockstep(h, Mark(t, f, true), s1, m[f := |s.heap|], open + {f})
            && Safe(Mark(t, f, true), f, |s.refs|, []) && Kept(s, s1, m, open) && Sub(m, m[f := |s.heap|])
  {
    hide HasId, Named, Placed, Indexed, SymbolsKept;
    var s1 := Push(s.(heap := s.heap + [Frame(Anonymous, None)]), Link(|s.heap|));
    LockstepParts(h, t, s, m, open);
    AddIndexed(h, t, s, m, f, true, s1);
    AddOthers(h, t, s, m, open, open + {f}, f, true, s1);
    OpenNamed(h, t, s, m, f, s1);
    OldIndices(h, t, s, m, open);
    NewIsNoSymbol(t, s, m, f);
  }

  lemma OldIndices(h: Heap, t: Table, s: Store, m: map<nat, nat>, open: set<nat>)
    requires Lockstep(h, t, s, m, open)
    ensures forall g :: g in t.refs ==> t.refs[g].index < t.next
  {
    hide Named, Placed;
  }

  lemma NewIsNoSymbol(t: Table, s: Store, m: map<nat, nat>, f: nat)
    requires SymbolsKept(t, s, m) && f !in t.refs
    ensures f >= SYMBOLS
  {
  }

  lemma OpenNamed(h: Heap, t: Table, s: Store, m: map<nat, nat>, f: nat, s1: Store)
    requires Named(h, t, s, m) && f !in m && s1.names == s.names
    ensures Named(h, Mark(t, f, true), s1, m[f := |s.heap|])
  {
  }

  // Starting to write out a frame that so far was only linked to.
  lemma OpenLinked(h: Heap, t: Table, s: Store, m: map<nat, nat>, open: set<nat>, f: nat)
    requires Lockstep(h, t, s, m, open) && f in t.refs && !t.refs[f].encoded
    ensures Lockstep(h, Resolved(t, f), s, m, open + {f})
    ensures f >= SYMBOLS && 0 <= t.refs[f].index < |s.refs| && s.refs[t.refs[f].index] == Link(m[f])
    ensures f !in open && f < |h| && !h[f].state.Anonymous?
  {
    hide Named, InPlace, Indexed, SymbolsKept, Placed;
    LinkedNow(h, t, s, m, open, f);
    ResolvedIndexed(h, t, s, m, f);
    ResolvedPlaced(h, t, s, m, open, f);
    ResolvedNamed(h, t, s, m, f);
  }

  lemma ResolvedIndexed(h: Heap, t: Table, s: Store, m: map<nat, nat>, f: nat)
    requires Indexed(h, t, s, m) && SymbolsKept(t, s, m) && f in t.refs && f >= SYMBOLS
    ensures Indexed(h, Resolved(t, f), s, m) && SymbolsKept(Resolved(t, f), s, m)
    ensures 0 <= t.refs[f].index < |s.refs| && s.refs[t.refs[f].index] == Link(m[f])
  {
    assert Resolved(t, f).refs.Keys == t.refs.Keys;
  }

  lemma LinkedNow(h: Heap, t: Table, s: Store, m: map<nat, nat>, open: set<nat>, f: nat)
    requires Lockstep(h, t, s, m, open) && f in t.refs && !t.refs[f].encoded
    ensures f >= SYMBOLS && f !in open && f < |h| && !h[f].state.Anonymous?
  {
    hide Named, Indexed;
    assert InPlace(h, t, s, m, f);
  }

  lemma ResolvedPlaced(h: Heap, t: Table, s: Store, m: map<nat, nat>, open: set<nat>, f: nat)
    requires Placed(h, t, s, m, open) && f in t.refs
    ensures Placed(h, Resolved(t, f), s, m, open + {f})
  {
    hide Copied, Linked;
    forall g | g in t.refs && g >= SYMBOLS && g !in open + {f} ensures InPlace(h, Resolved(t, f), s, m, g) {
      assert InPlace(h, t, s, m, g);
    }
  }

  lemma ResolvedNamed(h: Heap, t: Table, s: Store, m: map<nat, nat>, f: nat)
    requires Named(h, t, s, m) && f in t.refs
    ensures Named(h, Resolved(t, f), s, m)
  {
    hide HasId, LinkId;
  }

  // All slots of an open frame have been read.
  lemma Close(h: Heap, t: Table, s: Store, m: map<nat, nat>, open: set<nat>, f: nat)
    requires Lockstep(h, t, s, m, open + {f}) && f !in open && f in m && f < |h| && h[f].slots.Some?
    requires SlotsWithin(h[f].slots.value, m.Keys) && f >= SYMBOLS && m[f] < |s.heap|
    requires s.heap[m[f]].state == if h[f].state.Anonymous? then Anonymous else Public
    ensures var s' := s.(heap := SetSlots(s.heap, m[f], CopySlots(m, h[f].slots.value)));
            Lockstep(h, t, s', m, open) && Kept(s, s', m, open)
  {
    hide Named, Copied, HasId, Placed, Linked, Within;
    var s' := s.(heap := SetSlots(s.heap, m[f], CopySlots(m, h[f].slots.value)));
    NamedStays(h, t, t, s, s', m);
    CloseCopied(h, s, m, f);
    ClosePlaced(h, t, s, s', m, open, f);
  }

  lemma CloseCopied(h: Heap, s: Store, m: map<nat, nat>, f: nat)
    requires f in m && f < |h| && h[f].slots.Some? && SlotsWithin(h[f].slots.value, m.Keys) && m[f] < |s.heap|
    requires s.heap[m[f]].state == if h[f].state.Anonymous? then Anonymous else Public
    ensures Copied(h, s.(heap := SetSlots(s.heap, m[f], CopySlots(m, h[f].slots.value))), m, f)
  {
  }

  lemma ClosePlaced(h: Heap, t: Table, s: Store, s': Store, m: map<nat, nat>, open: set<nat>, f: nat)
    requires Lockstep(h, t, s, m, open + {f}) && f !in open && Copied(h, s', m, f) && |s'.heap| == |s.heap|
    requires forall k :: 0 <= k < |s.heap| && k != m[f] ==> s'.heap[k] == s.heap[k]
    ensures Placed(h, t, s', m, open)
  {
    hide Named, Copied, SymbolsKept, Linked;
    PlacedStays(h, t, t, s, s', m, open + {f});
    forall g | g in t.refs && g >= SYMBOLS && g !in open ensures InPlace(h, t, s', m, g) {
      if g == f {
        assert t.refs[f].encoded;
      }
    }
  }
}
