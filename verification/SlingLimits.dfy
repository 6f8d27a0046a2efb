/** What the binary format does not do: where encoding fails, and where the round trip breaks. */
module SlingLimits {
  import opened Common
  import opened SlingVarint
  import opened SlingGraph
  import opened SlingEncode
  import opened SlingDecode
  import opened SlingRoundTrip
  import opened SlingIso
  import opened SlingTrip

  // ----- long arrays -----

  /** An array is written whatever its length, but read back only when that is below 2^28. */
  lemma LongListRejected(h: Heap, es: seq<Value>, t: Table, s: Store, input: seq<byte>, pos: nat)
    requires |es| >= TWO_28 && Encode(h, List(es), t).Success? && At(input, pos, Encode(h, List(es), t).value.bytes)
    ensures Read1(input, pos, s) == Failure("Invalid varint32")
  {
    var head := Tag(7, 5) + Leb(|es|);
    var rest := EncodeLinks(h, es, t.(next := t.next + 1)).value;
    AtSplit(input, pos, head, rest.bytes);
    AtSplit(input, pos, Tag(7, 5), Leb(|es|));
    ReadTag(input, pos, s, 7, 5);
    ReadVarint32Exact(input, pos + |Tag(7, 5)|, |es|);
    assert Dispatch(input, pos + |Tag(7, 5)|, s, 7, 5) == ReadArray(input, pos + |Tag(7, 5)|, s);
  }

  // ----- ids that do not come first -----

  /** Registering an id that names an existing frame overwrites the entry of the reference table at the
      length the table had when the frame began. Whoever owned that entry is found no more; so the tables stay
      in lockstep exactly when no other frame owns it. */
  lemma RegisterExact(h: Heap, t: Table, s: Store, m: map<nat, nat>, open: set<nat>, f: nat, id: seq<byte>, i: nat)
    requires Graph(h) && Lockstep(h, t, s, m, open) && f in open && HasId(h, f, id) && id in s.names && i < t.next
    ensures Lockstep(h, t, Register(s, id, m[f], i).0, m, open) <==> Taken(t, f, i)
  {
    Copies(h, t, s, m, open);
    if Taken(t, f, i) {
      RegisterStep(h, t, s, m, open, f, id, i);
    } else {
      var g :| g in t.refs && g != f && t.refs[g].index == i;
      var s' := Register(s, id, m[f], i).0;
      assert s.names[id] == m[f] && s'.refs[i] == Link(m[f]) != Link(m[g]);
    }
  }

  // A public frame whose id slot comes after a slot holding the anonymous frame 5.
  const LATE_ID := [
    SymbolFrame(ID), SymbolFrame(ISA), SymbolFrame(IS), SymbolFrame(NAME),
    Frame(Public, Some([Slot(Link(IS), Link(5)), Slot(Link(ID), Text([97]))])),
    Frame(Anonymous, Some([]))]

  const LATE_ROOTS := [List([Link(4)]), Link(4), Link(5)]

  function LateBytes(): seq<byte> {
    [0, 47, 1, 12, 97, 63, 2, 1, 39, 1, 23, 11, 97, 16]
  }

  lemma OneByte(n: nat)
    requires n < 128
    ensures Leb(n) == [n]
  {
  }

  // The table while the roots are written.
  function LateTable(n: nat): Table {
    var linked := Mark(Start().(next := 1), 4, false);
    if n == 0 then Start()
    else if n == 1 then linked
    else if n == 2 then Resolved(linked, 4)
    else if n == 3 then Mark(Resolved(linked, 4), 5, true)
    else Mark(Resolved(linked, 4), 5, true).(next := 4)
  }

  lemma LateTables()
    ensures 4 !in LateTable(0).refs && LateTable(0).next == 0
    ensures LateTable(1) == Mark(LateTable(0).(next := 1), 4, false)
    ensures 4 in LateTable(1).refs && LateTable(1).refs[4] == Ref(false, 1) && LateTable(2) == Resolved(LateTable(1), 4)
    ensures 5 !in LateTable(2).refs && LateTable(2).next == 2 && LateTable(3) == Mark(LateTable(2), 5, true)
    ensures LateTable(3).next == 3
    ensures LateTable(4) == LateTable(3).(next := 4) && 5 in LateTable(4).refs && LateTable(4).refs[5] == Ref(true, 2)
    ensures forall n :: 0 <= n <= 4 ==> ID in LateTable(n).refs && LateTable(n).refs[ID] == Ref(true, -2)
    ensures forall n :: 0 <= n <= 4 ==> IS in LateTable(n).refs && LateTable(n).refs[IS] == Ref(true, -4)
  {
  }

  lemma LateTags()
    ensures Tag(1, 0) == [1] && Tag(4, 1) == [12] && Tag(0, 2) == [16] && Tag(7, 2) == [23] && Tag(7, 4) == [39]
    ensures Tag(7, 5) == [47] && Tag(7, 7) == [63]
    ensures Tag(3, 1) == [11] && Leb(0) == [0] && Leb(1) == [1] && Leb(2) == [2]
  {
    hide Leb;
    OneByte(0);
    OneByte(1);
    OneByte(2);
    OneByte(11);
    OneByte(12);
    OneByte(16);
    OneByte(23);
    OneByte(39);
    OneByte(47);
    OneByte(63);
  }

  lemma LateHeap()
    ensures var h := LATE_ID; h[4].state.Public?
                              && h[4].slots == Some([Slot(Link(IS), Link(5)), Slot(Link(ID), Text([97]))])
    ensures var h := LATE_ID; h[5] == Frame(Anonymous, Some([])) && LinkId(h[4]) == Some([97])
    ensures var h := LATE_ID; h[ID].state.Public? && h[IS].state.Public? && |h| == 6
  {
    assert [Slot(Link(IS), Link(5)), Slot(Link(ID), Text([97]))][1..] == [Slot(Link(ID), Text([97]))];
    assert FirstId([Slot(Link(ID), Text([97]))]) == Some(Text([97]));
  }

  // The list with the link.
  lemma LateFirst()
    ensures Encode(LATE_ID, List([Link(4)]), LateTable(0)) == Success(Output([47, 1, 12, 97], LateTable(1)))
  {
    hide Leb, Tag, LateTable, LinkId;
    LateTables();
    LateTags();
    LateHeap();
    var h, t0, t1 := LATE_ID, LateTable(0), LateTable(1);
    assert [12] + [97] == [12, 97];
    assert EncodeLink(h, Link(4), t0.(next := 1)) == Success(Output([12, 97], t1));
    assert [Value.Link(4)][1..] == [] && [12, 97] + [] == [12, 97] && [47] + [1] + [12, 97] == [47, 1, 12, 97];
    assert EncodeLinks(h, [], t1) == Success(Output([], t1));
    assert EncodeLinks(h, [Link(4)], t0.(next := 1)) == Success(Output([12, 97], t1));
  }

  // The slots of the frame.
  lemma LateWritten()
    ensures var slots := LATE_ID[4].slots.value;
            EncodeSlots(LATE_ID, slots, LateTable(2)) == Success(Output([39, 1, 23, 11, 97], LateTable(4)))
  {
    hide Leb, Tag, LateTable, LinkId, Encode, EncodeFrame, EncodeLink;
    LateHeap();
    LateSlotBytes();
    var h, t2, t3, t4 := LATE_ID, LateTable(2), LateTable(3), LateTable(4);
    var x, y := Slot(Link(IS), Link(5)), Slot(Link(ID), Text([97]));
    assert [x, y][1..] == [y] && [y][1..] == [];
    assert [23, 11, 97] + [] == [23, 11, 97] && [39, 1] + [23, 11, 97] == [39, 1, 23, 11, 97];
    assert EncodeSlots(h, [], t4) == Success(Output([], t4));
    assert EncodeSlots(h, [y], t3) == Success(Output([23, 11, 97], t4));
  }

  lemma LateSlotBytes()
    ensures EncodeSlot(LATE_ID, Slot(Link(IS), Link(5)), LateTable(2)) == Success(Output([39, 1], LateTable(3)))
    ensures EncodeSlot(LATE_ID, Slot(Link(ID), Text([97])), LateTable(3)) == Success(Output([23, 11, 97], LateTable(4)))
  {
    hide Leb, Tag, LateTable, LinkId, EncodeFrame, EncodeNewLink;
    LateTables();
    LateTags();
    LateHeap();
    LateNew();
    var h, t2, t3 := LATE_ID, LateTable(2), LateTable(3);
    assert EncodeLink(h, Link(5), t2) == Encode(h, Link(5), t2) == Success(Output([1], t3));
    assert EncodeLink(h, Link(IS), t2) == Success(Output([39], t2))
           && EncodeLink(h, Link(ID), t3) == Success(Output([23], t3));
    assert [39] + [1] == [39, 1] && [11] + [97] == [11, 97] && [23] + [11, 97] == [23, 11, 97];
  }

  // The anonymous frame.
  lemma LateNew()
    ensures EncodeFrame(LATE_ID, 5, LateTable(2)) == Success(Output([1], LateTable(3)))
    ensures EncodeFrame(LATE_ID, 5, LateTable(4)) == Success(Output([16], LateTable(4)))
  {
    hide Leb, Tag, LateTable, LinkId, Encode;
    LateTables();
    LateTags();
    LateHeap();
    assert EncodeSlots(LATE_ID, [], LateTable(3)) == Success(Output([], LateTable(3)));
    assert [1] + [] == [1];
  }

  lemma LateSecond()
    ensures EncodeFrame(LATE_ID, 4, LateTable(1)) == Success(Output([63, 2, 1, 39, 1, 23, 11, 97], LateTable(4)))
  {
    hide Leb, Tag, LateTable, LinkId, Encode, EncodeSlots;
    LateTables();
    LateTags();
    LateHeap();
    LateWritten();
    assert [63] + [2] + [1] + [39, 1, 23, 11, 97] == [63, 2, 1, 39, 1, 23, 11, 97];
  }

  lemma LateEncode()
    ensures EncodeAll(LATE_ID, LATE_ROOTS).Success? && EncodeAll(LATE_ID, LATE_ROOTS).value.bytes == LateBytes()
  {
    hide LateTable, EncodeFrame, EncodeLinks;
    LateFirst();
    LateSecond();
    LateNew();
    assert LateTable(0) == Start() by {
      LateStart();
    }
    var h, roots, t1, t4 := LATE_ID, LATE_ROOTS, LateTable(1), LateTable(4);
    assert roots[1..] == [Link(4), Link(5)] && roots[1..][1..] == [Link(5)] && roots[1..][1..][1..] == [];
    assert EncodeRoots(h, [], t4) == Success(Output([], t4));
    assert [Value.Link(5)][1..] == [] && [16] + [] == [16];
    assert EncodeRoots(h, [Link(5)], t4) == Success(Output([16], t4));
    assert [Value.Link(4), Value.Link(5)][1..] == [Link(5)];
    assert [63, 2, 1, 39, 1, 23, 11, 97] + [16] == [63, 2, 1, 39, 1, 23, 11, 97, 16];
    assert EncodeRoots(h, [Link(4), Link(5)], t1) == Success(Output([63, 2, 1, 39, 1, 23, 11, 97, 16], t4));
    assert [47, 1, 12, 97] + [63, 2, 1, 39, 1, 23, 11, 97, 16] == LateBytes()[1..];
    assert [0] + LateBytes()[1..] == LateBytes();
  }

  lemma LateStart()
    ensures LateTable(0) == Start()
  {
  }

  lemma ReadByte(input: seq<byte>, pos: nat)
    requires pos < |input| && input[pos] < 128
    ensures ReadVarint64(input, pos) == (input[pos], pos + 1)
    ensures ReadVarint32(input, pos) == Success((input[pos], pos + 1))
  {
    OneByte(input[pos]);
    assert At(input, pos, Leb(input[pos]));
    ReadVarint64Exact(input, pos, input[pos]);
    ReadVarint32Exact(input, pos, input[pos]);
  }

  lemma ReadTagByte(input: seq<byte>, pos: nat, s: Store, op: nat, arg: nat)
    requires pos < |input| && input[pos] == op + 8 * arg < 128 && 0 < op < 8
    ensures Read1(input, pos, s) == Dispatch(input, pos + 1, s, op, arg)
  {
    ReadByte(input, pos);
    TagParts(op, arg);
  }

  // Its ids belong to one frame each.
  lemma LateIds(f: nat, id: seq<byte>)
    requires HasId(LATE_ID, f, id)
    ensures f < 5 && id == if f < SYMBOLS then SymbolName(f) else [97]
  {
    assert LATE_ID[f].slots.Some? && Slot(Link(ID), Text(id)) in LATE_ID[f].slots.value;
    assert f == 4 || f == 5 || LATE_ID[f] == SymbolFrame(f);
  }

  lemma LateFrames(f: nat)
    requires f < |LATE_ID|
    ensures GoodFrame(LATE_ID[f], |LATE_ID|)
  {
    if f < SYMBOLS {
      assert LATE_ID[f] == SymbolFrame(f);
      SymbolGood(f);
    } else {
      LateGood();
    }
  }

  lemma SymbolGood(f: nat)
    requires f < SYMBOLS
    ensures GoodFrame(SymbolFrame(f), 6)
  {
  }

  lemma LateGood()
    ensures GoodFrame(LATE_ID[4], 6) && GoodFrame(LATE_ID[5], 6)
  {
    assert [Slot(Link(IS), Link(5)), Slot(Link(ID), Text([97]))][1..] == [Slot(Link(ID), Text([97]))];
  }

  lemma LateIsGraph()
    ensures Graph(LATE_ID) && forall i :: 0 <= i < |LATE_ROOTS| ==> Within(LATE_ROOTS[i], Below(|LATE_ID|))
  {
    hide GoodFrame;
    forall f | 0 <= f < |LATE_ID| ensures GoodFrame(LATE_ID[f], |LATE_ID|) {
      LateFrames(f);
    }
    assert forall f :: 0 <= f < SYMBOLS ==> LATE_ID[f] == SymbolFrame(f);
    forall f, g, id | HasId(LATE_ID, f, id) && HasId(LATE_ID, g, id) ensures f == g {
      LateIds(f, id);
      LateIds(g, id);
    }
  }

  lemma LateNotPrompt()
    ensures !Prompt(LATE_ID, LATE_ROOTS)
  {
    var earlier := LATE_ROOTS[..1];
    assert earlier == [List([Link(4)])];
    forall k: set<nat> | Closed(LATE_ID, earlier, k) ensures 4 in k {
      assert List([Link(4)]) in earlier;
      assert [Value.Link(4)][0] == Link(4);
    }
    assert LATE_ROOTS[1] == Link(4) && Late(LATE_ID, 4) && Value.Link(4) !in earlier && !Unlinked(LATE_ID, earlier, 4);
  }

  /** A linked frame whose id does not come first: reading it back, the frame stands in for its own slot. */
  lemma LateIdLost()
    ensures Graph(LATE_ID) && !Prompt(LATE_ID, LATE_ROOTS)
    ensures EncodeAll(LATE_ID, LATE_ROOTS).Success?
    ensures var r := DecodeAll(EncodeAll(LATE_ID, LATE_ROOTS).value.bytes);
            r.Success? && |r.value.0| == 3 && r.value.0[1].Link? && r.value.0[2] == r.value.0[1]
    ensures LATE_ROOTS[2] != LATE_ROOTS[1]
  {
    LateEncode();
    LateIsGraph();
    LateNotPrompt();
    hide Read1, EncodeAll, Graph, Prompt;
    var i := LateBytes();
    var s0 := Empty();
    LateList(i, s0);
    var s1 := LateStore(s0);
    LateFrame(i, s1);
    LateRest(i, s1, Read1(i, 5, s1).value);
    assert [List([Link(4)])] + [Value.Link(4), Value.Link(4)] == [List([Link(4)]), Link(4), Link(4)];
    assert ReadObjects(i, 1, s0) == Success(([List([Link(4)]), Link(4), Link(4)], Read1(i, 5, s1).value.store));
  }

  lemma LateRest(i: seq<byte>, s1: Store, r: Got)
    requires i == LateBytes() && Read1(i, 5, s1) == Success(r) && r.value == Link(4) && r.pos == 13
    requires |r.store.refs| == 4 && r.store.refs[2] == Link(4)
    ensures ReadObjects(i, 5, s1) == Success(([Link(4), Link(4)], r.store))
  {
    hide Read1;
    LateRef(i, r.store);
    assert [Value.Link(4)] + [] == [Link(4)] && [Value.Link(4)] + [Value.Link(4)] == [Link(4), Link(4)];
    assert ReadObjects(i, 14, r.store) == Success(([], r.store));
    assert ReadObjects(i, 13, r.store) == Success(([Link(4)], r.store));
    assert ReadObjects(i, 5, s1) == Success(([Link(4), Link(4)], r.store));
  }

  lemma LateRef(i: seq<byte>, s: Store)
    requires i == LateBytes() && |s.refs| == 4 && s.refs[2] == Link(4)
    ensures Read1(i, 13, s) == Success(Got(Link(4), 14, s))
  {
    hide ReadVarint64;
    ReadByte(i, 13);
    TagParts(0, 2);
  }

  function LateStore(s0: Store): Store {
    Store(s0.heap + [Frame(Proxy, Some([Slot(Link(ID), Text([97]))]))], s0.names[[97] := 4], [List([Link(4)]), Link(4)])
  }

  lemma LateLink(i: seq<byte>, s1: Store)
    requires i == LateBytes() && s1 == Push(Empty(), Undefined)
    ensures var s2 := Store(s1.heap + [Frame(Proxy, Some([Slot(Link(ID), Text([97]))]))], s1.names[[97] := 4],
                            [Undefined, Link(4)]);
            Read1(i, 3, s1) == Success(Got(Link(4), 5, s2))
  {
    hide Read1;
    ReadTagByte(i, 3, s1, 4, 1);
    assert i[4] == 97 && Slice(i, 4, 1) == [97];
    LateLookup();
    assert s1.refs == [Undefined];
    var l := Lookup(s1, [97]);
    assert l.1 == |s1.heap| == 4;
    assert Dispatch(i, 4, s1, 4, 1) == Success(Got(Link(l.1), 5, Push(l.0, Link(l.1))));
    assert [Undefined] + [Value.Link(4)] == [Undefined, Link(4)];
  }

  lemma LateLookup()
    ensures [97] !in Empty().names && |Empty().heap| == 4 && Empty().refs == []
  {
    assert forall f :: 0 <= f < SYMBOLS ==> |SymbolName(f)| > 1;
  }

  lemma LateList(i: seq<byte>, s0: Store)
    requires i == LateBytes() && s0 == Empty()
    ensures Read1(i, 1, s0) == Success(Got(List([Link(4)]), 5, LateStore(s0)))
  {
    hide Read1, Empty, LateBytes;
    LateLookup();
    var s1 := Push(s0, Undefined);
    LateLink(i, s1);
    LateElements(i, s0, s1, Store(s0.heap + [Frame(Proxy, Some([Slot(Link(ID), Text([97]))]))], s0.names[[97] := 4],
                                  [Undefined, Link(4)]));
  }

  lemma LateElements(i: seq<byte>, s0: Store, s1: Store, s2: Store)
    requires i == LateBytes() && s0 == Empty() && s1 == Push(s0, Undefined)
    requires Read1(i, 3, s1) == Success(Got(Link(4), 5, s2))
    requires s2 == Store(s0.heap + [Frame(Proxy, Some([Slot(Link(ID), Text([97]))]))], s0.names[[97] := 4],
                         [Undefined, Link(4)])
    ensures Read1(i, 1, s0) == Success(Got(List([Link(4)]), 5, LateStore(s0)))
  {
    hide ReadVarint64, ReadVarint32, Read1, Empty, Dispatch;
    LateLookup();
    assert [Value.Link(4)] + [] == [Link(4)];
    assert ReadElements(i, 5, s2, 0) == Success(([], 5, s2));
    assert ReadElements(i, 3, s1, 1) == Success(([Link(4)], 5, s2));
    ReadTagByte(i, 1, s0, 7, 5);
    ReadByte(i, 2);
    DispatchArray(i, 2, s0, 1, 3, [Link(4)], 5, s2);
    assert SetRef(s2.refs, |s0.refs|, List([Link(4)])) == LateStore(s0).refs;
  }

  lemma LateHead(i: seq<byte>, s: Store)
    requires i == LateBytes() && |s.refs| > 1 && s.refs[1] == Link(4)
    ensures Read1(i, 5, s) == FillFrame(i, 8, s, 2, 4, |s.refs|)
  {
    hide ReadVarint64, ReadVarint32, FillFrame, Read1;
    ReadTagByte(i, 5, s, 7, 7);
    ReadByte(i, 6);
    ReadByte(i, 7);
    assert Dispatch(i, 6, s, 7, 7) == Special(i, 6, s, 7) == ReadResolve(i, 6, s);
  }

  lemma LateFrame(i: seq<byte>, s1: Store)
    requires i == LateBytes() && s1 == LateStore(Empty())
    ensures var r := Read1(i, 5, s1);
            r.Success? && r.value.value == Link(4) && r.value.pos == 13 && |r.value.store.refs| == 4
            && r.value.store.refs[2] == Link(4)
  {
    hide ReadVarint64, ReadVarint32, Read1, Empty, ReadSlots;
    LateHead(i, s1);
    ReadTagByte(i, 8, s1, 7, 4);
    assert Dispatch(i, 9, s1, 7, 4) == Special(i, 9, s1, 4) == Success(Got(Link(IS), 9, s1));
    ReadTagByte(i, 9, s1, 1, 0);
    LateSlots(i, s1);
  }

  lemma LateSlots(i: seq<byte>, s1: Store)
    requires i == LateBytes() && s1 == LateStore(Empty())
    requires Read1(i, 8, s1) == Success(Got(Link(IS), 9, s1)) && Read1(i, 9, s1) == Dispatch(i, 10, s1, 1, 0)
    ensures var r := ReadSlots(i, 8, s1, 2, 4, 2);
            r.Success? && r.value.1.value == Link(4) && r.value.1.pos == 13
            && |r.value.1.store.refs| == 4 && r.value.1.store.refs[2] == Link(4)
  {
    hide ReadVarint64, ReadVarint32;
    var s2 := Push(s1.(heap := s1.heap + [Frame(Anonymous, None)]), Link(5));
    assert ReadSlots(i, 10, s2, 0, 5, 2) == Success(([], Got(Link(5), 10, s2)));
    var s3 := s2.(heap := SetSlots(s2.heap, 5, []));
    assert FillFrame(i, 10, s2, 0, 5, 2) == Success(Got(Link(5), 10, s3));
    assert Read1(i, 9, s1) == Success(Got(Link(5), 10, s3));
    assert ReadSlot(i, 8, s1, 4, 2) == Success((Slot(Link(IS), Link(5)), Got(Link(4), 10, s3)));
    ReadTagByte(i, 10, s3, 7, 2);
    ReadTagByte(i, 11, s3, 3, 1);
    assert Slice(i, 12, 1) == [97];
    var s4 := Push(s3, Text([97]));
    assert Read1(i, 11, s3) == Success(Got(Text([97]), 13, s4));
    var s5 := Register(s4, [97], 4, 2).0;
    assert ReadSlot(i, 10, s3, 4, 2) == Success((Slot(Link(ID), Text([97])), Got(Link(4), 13, s5)));
    assert ReadSlots(i, 13, s5, 0, 4, 2).value.1 == Got(Link(4), 13, s5);
    assert ReadSlots(i, 10, s3, 1, 4, 2).value.1 == Got(Link(4), 13, s5);
  }
}
