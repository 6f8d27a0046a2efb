/**
  The text round trip (app/lib/frame.js:475-482, 1099-1607): reading the text of a frame, in one line or indented,
  gives the same graph if and only if no frame printed in full leads back to itself through anonymous frames.
 */
module SlingTextIso {
  import opened Common
  import opened SlingVarint
  import opened SlingGraph
  import opened SlingLexis
  import opened SlingText
  import opened SlingTextGraph
  import opened SlingTextTrip

  // There is no way from a root or an anonymous frame inside back to itself through anonymous frames and roots.
  ghost predicate Acyclic(h: Heap, roots: set<nat>) {
    exists rank :: Ranked(h, roots, rank)
  }

  /** The frames d are in the store with all their slots, renamed by m; other frames that they link to are the
      standard symbols and proxies with the same id. Different frames stay different, the store has no others, and
      it knows public frames by their ids. */
  ghost predicate Isomorphic(h: Heap, roots: set<nat>, d: set<nat>, m: map<nat, nat>, s: Shelf) {
    && roots <= d && d <= m.Keys && Injective(m) && Filled(m, |s.heap|)
    && (forall f :: f in m ==> f < |h| && m[f] < |s.heap|)
    && (forall f :: f in d ==> Copied(h, roots, d, m, s, f))
    && (forall f :: f in m && f !in d ==> Linked(h, m, s, f))
    && forall f, id :: f in m && f < |h| && !h[f].state.Anonymous?
                       && (if f in d then HasId(h, f, id) else FrameId(h[f]) == Some(id)) ==>
         id in s.names && s.names[id] == m[f]
  }

  ghost predicate Copied(h: Heap, roots: set<nat>, d: set<nat>, m: map<nat, nat>, s: Shelf, f: nat) {
    && f < |h| && f in m && m[f] < |s.heap| && Inner(h, roots, f)
    && s.heap[m[f]] == Frame(if h[f].state.Anonymous? then Anonymous else Public, Some(RenameSlots(m, SlotsOf(h[f]))))
    && forall g :: g in SlotLinks(SlotsOf(h[f])) ==> g in m && (Inner(h, roots, g) ==> g in d)
  }

  ghost predicate Linked(h: Heap, m: map<nat, nat>, s: Shelf, f: nat) {
    && f < |h| && f in m && m[f] < |s.heap| && !h[f].state.Anonymous? && FrameId(h[f]).Some?
    && if f < SYMBOLS then m[f] == f && s.heap[f] == SymbolFrame(f)
       else s.heap[m[f]] == Frame(Proxy, Some([Slot(Link(ID), Text(FrameId(h[f]).value))]))
  }

  // What was read is the same as the graph from the root.
  ghost predicate SameGraph(h: Heap, root: nat, read: nat, s: Shelf) {
    exists d, m :: Isomorphic(h, {root}, d, m, s) && root in m && m[root] == read
  }

  // ----- what registering does -----

  lemma {:induction false} Registered(s: Shelf, f: nat, slots: seq<Slot>)
    requires f < |s.heap| && forall i :: 0 <= i < |slots| && slots[i].name == Link(ID) ==> slots[i].value.Text?
    ensures var r := AddIds(s, f, slots);
            && r.refs == s.refs
            && r.heap[f].slots == s.heap[f].slots
            && (s.heap[f].state.Public? || (exists i :: 0 <= i < |slots| && slots[i].name == Link(ID)) ==>
                r.heap[f].state.Public?)
            && (forall g :: 0 <= g < |s.heap| && g != f ==> r.heap[g] == s.heap[g])
            && (forall id :: id in r.names <==> id in s.names || Slot(Link(ID), Text(id)) in slots)
            && (forall id :: id in r.names ==> r.names[id] == if Slot(Link(ID), Text(id)) in slots then f
                else s.names[id])
    decreases |slots|
  {
    if slots != [] {
      assert slots == [slots[0]] + slots[1..];
      var s' := if slots[0].name == Link(ID) then AddId(s, f, slots[0].value) else s;
      Registered(s', f, slots[1..]);
      if slots[0].name == Link(ID) {
        assert forall id :: Slot(Link(ID), Text(id)) in slots <==>
                            id == slots[0].value.utf8 || Slot(Link(ID), Text(id)) in slots[1..];
      } else {
        assert forall id :: Slot(Link(ID), Text(id)) in slots <==> Slot(Link(ID), Text(id)) in slots[1..];
        if i :| 0 <= i < |slots| && slots[i].name == Link(ID) {
          assert slots[1..][i - 1] == slots[i];
        }
      }
    }
  }

  // ----- the beginning -----

  function StandardMap(): map<nat, nat> {
    map[ID := ID, ISA := ISA, IS := IS, NAME := NAME]
  }

  // Nothing printed and nothing read.
  function Origin(): Point {
    Point(Fresh(), EmptyShelf(), StandardMap())
  }

  // The ids of an empty store are those of the standard symbols.
  lemma OriginNames()
    ensures var s := EmptyShelf();
            && (forall f :: 0 <= f < SYMBOLS ==> s.heap[f] == SymbolFrame(f) && SymbolName(f) in s.names
                                                 && s.names[SymbolName(f)] == f)
            && forall id :: id in s.names ==> s.names[id] < SYMBOLS && id == SymbolName(s.names[id])
  {
  }

  lemma OriginSteady(c: Setting)
    requires Legal(c)
    ensures Steady(c, Origin())
  {
    hide EmptyShelf, SymbolName, SymbolFrame;
    OriginNames();
    var x := Origin();
    OriginSize();
    forall id | id in x.s.names ensures Known(c.h, id) {
      IsKnown(c.h, x.s.names[id]);
    }
  }

  lemma OriginSize()
    ensures |EmptyShelf().heap| == SYMBOLS && EmptyShelf().refs == map[]
  {
  }

  lemma IsKnown(h: Heap, f: nat)
    requires TextGraph(h) && f < SYMBOLS
    ensures f < |h| && Known(h, SymbolName(f)) && !h[f].state.Anonymous? && FrameId(h[f]) == Some(SymbolName(f))
  {
  }

  lemma OriginTracks(c: Setting)
    requires Legal(c)
    ensures Tracks(c, Origin())
  {
    hide EmptyShelf, SymbolName, SymbolFrame, TextGraph;
    OriginNames();
    OriginSize();
    var x := Origin();
    assert forall f :: f in x.m ==> x.m[f] == f && f < SYMBOLS;
    forall f | f in x.m ensures Done(c, x, f) {
      IsKnown(c.h, f);
    }
    forall f | 0 <= f < |c.h| && !c.h[f].state.Anonymous? && FrameId(c.h[f]).Some? && FrameId(c.h[f]).value in x.s.names
      ensures f in x.m {
      var g := x.s.names[FrameId(c.h[f]).value];
      IsKnown(c.h, g);
      SameId(c.h, f, g);
    }
    forall k | 0 <= k < |x.s.heap| ensures Hit(x.m, k) {
      assert x.m[k] == k;
    }
  }

  // ----- the root -----

  // The state and result of reading the text of the root.
  ghost predicate ReadRoot(c: Setting, root: nat, y: Point, k: nat) {
    var o := PrintText(c.h, Link(root), c.indent);
    o.Success? && y.p == o.value.printer
    && Parse(Scan(o.value.text), EmptyShelf()) == Success(Parsed(Link(k), Here(End, []), y.s))
  }

  lemma AnonymousRoot(c: Setting, root: nat) returns (y: Point, k: nat)
    requires Legal(c) && c.roots == {root} && c.h[root].state.Anonymous?
    ensures ReadRoot(c, root, y, k) && SYMBOLS <= k < |y.s.heap| && Sound(c, y)
    ensures c.good ==> root in y.m && y.m[root] == k && root in y.p.refs && forall f :: f in y.p.refs ==> f in y.m
  {
    hide Scan, Parse, PrintFrame, TextGraph, Descending, Tracks, EmptyShelf, SymbolName, SymbolFrame;
    var x, b := Origin(), if c.good then c.rank[root] + 1 else 0;
    OriginSteady(c);
    OriginTracks(c);
    FramePrints(c.h, root, 0, c.indent, x.p);
    EndToken();
    y := ReadFrame(c, root, 0, [], x, b);
    var o := PrintText(c.h, Link(root), c.indent).value;
    assert o.text + [] == o.text;
    k := Parse(Scan(o.text), x.s).value.value.frame;
  }

  lemma EndToken()
    ensures Scan([]) == Here(End, [])
  {
  }

  // The id of a root that is not a standard symbol is new to an empty store.
  lemma RootIdIsNew(c: Setting, root: nat)
    requires Legal(c) && c.roots == {root} && !c.h[root].state.Anonymous?
    ensures FrameId(c.h[root]).Some? && FrameId(c.h[root]).value !in EmptyShelf().names
  {
    hide EmptyShelf, SymbolName;
    IdOf(c.h, root);
    OriginNames();
    var id := FrameId(c.h[root]).value;
    if id in EmptyShelf().names {
      IsKnown(c.h, EmptyShelf().names[id]);
      SameId(c.h, root, EmptyShelf().names[id]);
    }
  }

  // Beginning to print a root with an id.
  lemma BeginPublic(c: Setting, root: nat, z: Point, b: nat)
    requires Legal(c) && c.roots == {root} && !c.h[root].state.Anonymous? && FrameId(c.h[root]).Some?
    requires z == Point(Printer(map[root := Named(FrameId(c.h[root]).value)], 1), EmptyShelf(), StandardMap())
    requires c.good ==> b == c.rank[root]
    ensures Ready(c, z, b) && Low(c, SlotLinks(SlotsOf(c.h[root])), b)
  {
    hide TextGraph, EmptyShelf, SymbolName, SymbolFrame, Done;
    var x := Origin();
    OriginSteady(c);
    OriginTracks(c);
    forall f | f in z.m ensures Done(c, z, f) {
      assert Done(c, x, f);
      DoneStays(c, x, z, f);
    }
    OriginSize();
  }

  // The store after the root with its ids has been read, and the images of frames.
  ghost predicate RootRead(c: Setting, root: nat, w: Point, done: seq<Slot>, y: Point) {
    && y.p == w.p
    && y.s == AddIds(w.s.(heap := w.s.heap + [Frame(Anonymous, Some(done))]), |w.s.heap|, done)
    && y.m == w.m[root := |w.s.heap|]
  }

  lemma PublicRoot(c: Setting, root: nat) returns (w: Point, done: seq<Slot>, y: Point)
    requires Legal(c) && c.roots == {root} && !c.h[root].state.Anonymous?
    ensures ReadRoot(c, root, y, |w.s.heap|) && RootRead(c, root, w, done, y) && Sound(c, w)
    ensures GoodSlots(c, w, SlotsOf(c.h[root]), done)
    ensures root in w.p.refs && (c.good ==> root !in w.m && forall f :: f in w.p.refs && f !in w.m ==> f == root)
  {
    hide Scan, Parse, ParseSlots, PrintSlots, PrintFrame, TextGraph, Steady, Tracks, EmptyShelf, SymbolName,
         SymbolFrame, Tail, Open, GoodSlots, AddIds;
    RootIdIsNew(c, root);
    var slots := SlotsOf(c.h[root]);
    var z := Point(Printer(map[root := Named(FrameId(c.h[root]).value)], 1), EmptyShelf(), StandardMap());
    var b := if c.good then c.rank[root] else 0;
    BeginPublic(c, root, z, b);
    FramePrints(c.h, root, 0, c.indent, Fresh());
    RootText(c, root);
    var tail := Tail(c.h, root, slots, true, 1, c.indent, z.p, []);
    PlainSlots(c.h, root);
    TailStart(c.h, root, slots, true, 1, c.indent, z.p, []);
    EndToken();
    LexMark(123, tail);
    w, done := ReadSlots(c, root, slots, true, 1, [], Slots([], None, None, Scan(tail), z.s), z, b);
    assert [] + done == done;
    y := Point(w.p, AddIds(w.s.(heap := w.s.heap + [Frame(Anonymous, Some(done))]), |w.s.heap|, done),
               w.m[root := |w.s.heap|]);
    ParsePublic(tail, z.s, done, w.s);
  }

  lemma RootText(c: Setting, root: nat)
    requires root < |c.h| && !c.h[root].state.Anonymous? && FrameId(c.h[root]).Some?
    requires PrintFrame(c.h, root, 0, c.indent, Fresh()).Success?
    ensures var o, slots := PrintText(c.h, Link(root), c.indent), SlotsOf(c.h[root]);
            var p := Printer(map[root := Named(FrameId(c.h[root]).value)], 1);
            && PrintSlots(c.h, root, slots, true, 1, c.indent, p).Success?
            && o.Success? && o.value.printer == PrintSlots(c.h, root, slots, true, 1, c.indent, p).value.printer
            && o.value.text == [123] + Tail(c.h, root, slots, true, 1, c.indent, p, [])
  {
    hide PrintSlots;
    assert Fresh().refs[root := Named(FrameId(c.h[root]).value)] == map[root := Named(FrameId(c.h[root]).value)];
  }

  lemma ParsePublic(t: seq<byte>, s: Shelf, done: seq<Slot>, s': Shelf)
    requires !Scan(t).token.Bad? && Scan([]) == Here(End, [])
    requires ParseSlots(Scan(t), Slots([], None, None, Scan(t), s)) ==
             Success(Slots(done, None, None, Here(Mark(125), []), s'))
    ensures Parse(Here(Mark(123), t), s) ==
              Success(Parsed(Link(|s'.heap|), Here(End, []),
                             AddIds(s'.(heap := s'.heap + [Frame(Anonymous, Some(done))]), |s'.heap|, done)))
  {
    hide ParseSlots, AddIds, Scan;
  }

  // ----- the same graph when there are ranks -----

  // Roots that are anonymous.
  lemma AnonymousSame(c: Setting, y: Point)
    requires Legal(c) && c.good && Sound(c, y) && forall f :: f in y.p.refs ==> f in y.m
    requires forall r :: r in c.roots ==> r < |c.h| && c.h[r].state.Anonymous? && r in y.p.refs
    ensures Isomorphic(c.h, c.roots, y.p.refs.Keys, y.m, y.s)
  {
    hide TextGraph, Steady, Done, Copied, Linked, FrameId, HasId;
    var d := y.p.refs.Keys;
    forall f | f in y.m ensures f < |c.h| && y.m[f] < |y.s.heap| && if f in d then Copied(c.h, c.roots, d, y.m, y.s, f)
    else Linked(c.h, y.m, y.s, f) {
      FrameSame(c, y, f);
    }
    forall f, id | f in y.m && f < |c.h| && !c.h[f].state.Anonymous?
    && (if f in d then HasId(c.h, f, id) else FrameId(c.h[f]) == Some(id))
      ensures id in y.s.names && y.s.names[id] == y.m[f]
    {
      NameSame(c, y, f, id);
    }
  }

  lemma NameSame(c: Setting, y: Point, f: nat, id: seq<byte>)
    requires Legal(c) && c.good && Sound(c, y) && f in y.m && forall r :: r in c.roots ==>
             r < |c.h| && c.h[r].state.Anonymous?
    requires f < |c.h| && !c.h[f].state.Anonymous? && (f in y.p.refs || FrameId(c.h[f]) == Some(id))
    ensures f !in y.p.refs && id in y.s.names && y.s.names[id] == y.m[f]
  {
    hide TextGraph;
    assert Done(c, y, f);
    assert f in y.p.refs ==> Noted(c, y.p, f);
  }

  lemma FrameSame(c: Setting, y: Point, f: nat)
    requires Legal(c) && c.good && Sound(c, y) && f in y.m && forall r :: r in c.roots ==>
             r < |c.h| && c.h[r].state.Anonymous?
    ensures f < |c.h| && y.m[f] < |y.s.heap|
    ensures if f in y.p.refs.Keys then Copied(c.h, c.roots, y.p.refs.Keys, y.m, y.s, f) else Linked(c.h, y.m, y.s, f)
  {
    hide TextGraph;
    assert Done(c, y, f);
    if f in y.p.refs {
      assert Noted(c, y.p, f);
      ClosedLinks(c, y, f);
    }
  }

  // The frames that a finished frame links to are finished, and those that are printed in full have been printed.
  lemma ClosedLinks(c: Setting, y: Point, f: nat)
    requires Sound(c, y) && c.good && f in y.m && f < |c.h| && c.h[f].state.Anonymous?
    requires forall r :: r in c.roots && r < |c.h| && !c.h[r].state.Anonymous? ==> r !in y.m
    ensures forall g :: g in SlotLinks(SlotsOf(c.h[f])) ==> g in y.m && (Inner(c.h, c.roots, g) ==> g in y.p.refs)
  {
    assert Done(c, y, f);
    forall g | g in SlotLinks(SlotsOf(c.h[f])) ensures g in y.m && (Inner(c.h, c.roots, g) ==> g in y.p.refs) {
      assert Done(c, y, g);
    }
  }

  lemma PublicSame(c: Setting, root: nat, w: Point, done: seq<Slot>, y: Point)
    requires Legal(c) && c.roots == {root} && c.good && !c.h[root].state.Anonymous? && Sound(c, w)
    requires RootRead(c, root, w, done, y)
    requires GoodSlots(c, w, SlotsOf(c.h[root]), done) && root in w.p.refs && root !in w.m
    requires forall f :: f in w.p.refs && f !in w.m ==> f == root
    ensures Isomorphic(c.h, {root}, y.p.refs.Keys, y.m, y.s)
  {
    hide TextGraph, Steady, GoodSlots, Done, Copied, Linked, AddIds, RenameSlots, HasId, FrameId;
    var k, d := |w.s.heap|, y.p.refs.Keys;
    RootShelf(c, root, w, done, y);
    RootCopied(c, root, w, done, y);
    FilledStays(w.m, root, k);
    forall f | f in w.m ensures if f in d then Copied(c.h, {root}, d, y.m, y.s, f) else Linked(c.h, y.m, y.s, f) {
      OtherStays(c, root, w, done, y, f);
    }
    forall f, id | f in y.m && f < |c.h| && !c.h[f].state.Anonymous?
    && (if f in d then HasId(c.h, f, id) else FrameId(c.h[f]) == Some(id))
      ensures id in y.s.names && y.s.names[id] == y.m[f]
    {
      if f != root {
        OtherName(c, root, w, done, y, f);
      }
    }
    ImagesBelow(c, w);
    InjectiveStays(w.m, root, k);
  }

  lemma RootCopied(c: Setting, root: nat, w: Point, done: seq<Slot>, y: Point)
    requires Legal(c) && c.roots == {root} && c.good && !c.h[root].state.Anonymous? && Sound(c, w)
    requires RootRead(c, root, w, done, y)
    requires GoodSlots(c, w, SlotsOf(c.h[root]), done) && root in w.p.refs && root !in w.m
    ensures Copied(c.h, {root}, y.p.refs.Keys, y.m, y.s, root)
  {
    hide TextGraph, Steady;
    var slots := SlotsOf(c.h[root]);
    RootShelf(c, root, w, done, y);
    RenameSlotsStays(w.m, y.m, slots);
    forall g | g in SlotLinks(slots) ensures g in y.m && (Inner(c.h, {root}, g) ==> g in y.p.refs.Keys) {
      assert g in w.m && Done(c, w, g);
    }
  }

  // Reading the end of the root does not change the other frames.
  lemma OtherStays(c: Setting, root: nat, w: Point, done: seq<Slot>, y: Point, f: nat)
    requires Legal(c) && c.roots == {root} && c.good && !c.h[root].state.Anonymous? && Sound(c, w)
    requires RootRead(c, root, w, done, y)
    requires GoodSlots(c, w, SlotsOf(c.h[root]), done) && root in w.p.refs && root !in w.m && f in w.m
    ensures if f in y.p.refs.Keys then Copied(c.h, {root}, y.p.refs.Keys, y.m, y.s, f) else Linked(c.h, y.m, y.s, f)
  {
    hide TextGraph, GoodSlots, Steady, Inner, AddIds, Done, Copied, Linked, Descending, Noted, FrameId;
    RootShelf(c, root, w, done, y);
    RootSteady(c, w);
    assert Done(c, w, f);
    ImagesBelow(c, w);
    assert y.s.heap[w.m[f]] == y.s.heap[..|w.s.heap|][w.m[f]];
    if f in y.p.refs {
      CopiedAfter(c, root, w, y, f);
    } else {
      LinkedAfter(c, w, y, f);
    }
  }

  lemma CopiedAfter(c: Setting, root: nat, w: Point, y: Point, f: nat)
    requires Sound(c, w) && c.good && c.roots == {root} && root < |c.h| && !c.h[root].state.Anonymous? && root !in w.m
    requires root in w.p.refs
    requires f in w.m && Done(c, w, f) && f in w.p.refs && Noted(c, w.p, f) && y.p == w.p
    requires y.m == w.m[root := |w.s.heap|]
    requires w.m[f] < |y.s.heap| && y.s.heap[w.m[f]] == w.s.heap[w.m[f]]
    ensures Copied(c.h, {root}, y.p.refs.Keys, y.m, y.s, f)
  {
    hide Steady, Tracks;
    ClosedLinks(c, w, f);
    RenameSlotsStays(w.m, y.m, SlotsOf(c.h[f]));
  }

  lemma LinkedAfter(c: Setting, w: Point, y: Point, f: nat)
    requires f in w.m && Done(c, w, f) && f !in w.p.refs && Descending(w.s.heap) && f in y.m && y.m[f] == w.m[f]
    requires w.m[f] < |y.s.heap| && y.s.heap[w.m[f]] == w.s.heap[w.m[f]]
    ensures Linked(c.h, y.m, y.s, f)
  {
  }

  lemma RootSteady(c: Setting, w: Point)
    requires Steady(c, w)
    ensures Descending(w.s.heap) && forall f :: f in w.p.refs ==> Noted(c, w.p, f)
  {
  }

  lemma OtherName(c: Setting, root: nat, w: Point, done: seq<Slot>, y: Point, f: nat)
    requires Legal(c) && c.roots == {root} && c.good && !c.h[root].state.Anonymous? && Sound(c, w)
    requires RootRead(c, root, w, done, y)
    requires GoodSlots(c, w, SlotsOf(c.h[root]), done) && root !in w.m && f in w.m && f < |c.h|
    requires !c.h[f].state.Anonymous?
    ensures f !in w.p.refs && FrameId(c.h[f]).Some? && FrameId(c.h[f]).value in y.s.names
    ensures y.s.names[FrameId(c.h[f]).value] == w.m[f]
  {
    hide GoodSlots;
    RootShelf(c, root, w, done, y);
    assert Done(c, w, f);
    assert f in w.p.refs ==> Noted(c, w.p, f);
    IdOf(c.h, f);
    assert !HasId(c.h, root, FrameId(c.h[f]).value);
  }

  lemma InjectiveStays(m: map<nat, nat>, f: nat, k: nat)
    requires Injective(m) && f !in m && forall g :: g in m ==> m[g] < k
    ensures Injective(m[f := k])
  {
  }

  // The root in the store: it has its slots, is public, and is known by all its ids.
  lemma RootShelf(c: Setting, root: nat, w: Point, done: seq<Slot>, y: Point)
    requires Legal(c) && c.roots == {root} && !c.h[root].state.Anonymous? && Sound(c, w)
    requires RootRead(c, root, w, done, y)
    requires GoodSlots(c, w, SlotsOf(c.h[root]), done)
    ensures var k := |w.s.heap|;
            && |y.s.heap| == k + 1
            && y.s.heap[k] == Frame(Public, Some(done)) && y.s.heap[..k] == w.s.heap
            && (forall id :: HasId(c.h, root, id) ==> id in y.s.names && y.s.names[id] == k)
            && (forall id :: id in w.s.names && !HasId(c.h, root, id) ==>
                             id in y.s.names && y.s.names[id] == w.s.names[id])
  {
    hide Steady, Tracks, TextGraph, AddIds;
    var k := |w.s.heap|;
    var s := w.s.(heap := w.s.heap + [Frame(Anonymous, Some(done))]);
    RootIds(c, root, w, done);
    Registered(s, k, done);
    assert forall g :: 0 <= g < k ==> s.heap[g] == w.s.heap[g];
  }

  // The slots of the root that are read have the same ids.
  lemma RootIds(c: Setting, root: nat, w: Point, done: seq<Slot>)
    requires Legal(c) && root in c.roots && !c.h[root].state.Anonymous? && GoodSlots(c, w, SlotsOf(c.h[root]), done)
    ensures done != [] && done[0].name == Link(ID)
    ensures forall i :: 0 <= i < |done| && done[i].name == Link(ID) ==> done[i].value.Text?
    ensures forall id :: HasId(c.h, root, id) <==> Slot(Link(ID), Text(id)) in done
  {
    hide TextGraph;
    var slots := SlotsOf(c.h[root]);
    PlainSlots(c.h, root);
    IdOf(c.h, root);
    assert forall i :: 0 <= i < |slots| ==> slots[i] in slots;
    forall id ensures HasId(c.h, root, id) <==> Slot(Link(ID), Text(id)) in done {
      if HasId(c.h, root, id) {
        var i :| 0 <= i < |slots| && slots[i] == Slot(Link(ID), Text(id));
        assert done[i] == slots[i];
      }
    }
  }

  // ----- no ranks when the graph is the same -----

  lemma PublicDescending(c: Setting, root: nat, w: Point, done: seq<Slot>, y: Point)
    requires Legal(c) && c.roots == {root} && !c.h[root].state.Anonymous? && Sound(c, w)
    requires RootRead(c, root, w, done, y)
    requires GoodSlots(c, w, SlotsOf(c.h[root]), done)
    ensures Descending(y.s.heap) && SYMBOLS <= |w.s.heap| < |y.s.heap|
  {
    hide TextGraph;
    var k := |w.s.heap|;
    RootShelf(c, root, w, done, y);
    assert forall f :: 0 <= f < k ==> y.s.heap[f] == y.s.heap[..k][f] == w.s.heap[f];
  }

  // In a store where links lead to older frames, the order of the frames gives the ranks.
  lemma SameIsRanked(h: Heap, roots: set<nat>, d: set<nat>, m: map<nat, nat>, s: Shelf) returns (rank: map<nat, nat>)
    requires Isomorphic(h, roots, d, m, s) && Descending(s.heap)
    requires forall r :: r in roots ==> r in m && (m[r] >= SYMBOLS || (r < |h| && h[r].state.Anonymous?))
    ensures Ranked(h, roots, rank)
  {
    rank := map f | f in d :: m[f];
    assert forall k :: 0 <= k < SYMBOLS ==> s.heap[k].state.Public?;
    forall f | f in d ensures m[f] >= SYMBOLS {
      assert Copied(h, roots, d, m, s, f);
    }
    forall f, g | f in rank && f < |h| && g in SlotLinks(SlotsOf(h[f])) && Inner(h, roots, g)
      ensures g in rank && rank[g] < rank[f] {
      assert Copied(h, roots, d, m, s, f);
      SlotLinkImage(m, SlotsOf(h[f]), g);
    }
  }

  // ----- the round trip -----

  lemma ReadsRoot(c: Setting, root: nat) returns (s: Shelf, k: nat)
    requires Legal(c) && c.roots == {root}
    ensures var o := PrintText(c.h, Link(root), c.indent);
            o.Success? && ReadText(o.value.text) == Success((Link(k), s))
    ensures SYMBOLS <= k < |s.heap| && Descending(s.heap)
    ensures c.good ==> SameGraph(c.h, root, k, s)
  {
    hide Scan, Parse, Print, TextGraph, Tracks, EmptyShelf, Isomorphic, GoodSlots, AddIds, Descending;
    var y: Point;
    if c.h[root].state.Anonymous? {
      y, k := AnonymousRoot(c, root);
      if c.good {
        AnonymousSame(c, y);
      }
    } else {
      var w, done;
      w, done, y := PublicRoot(c, root);
      k := |w.s.heap|;
      PublicDescending(c, root, w, done, y);
      if c.good {
        PublicSame(c, root, w, done, y);
      }
    }
    s := y.s;
    ReadsAll(PrintText(c.h, Link(root), c.indent).value.text, k, s);
  }

  lemma ReadsAll(t: seq<byte>, k: nat, s: Shelf)
    requires Parse(Scan(t), EmptyShelf()) == Success(Parsed(Link(k), Here(End, []), s))
    ensures ReadText(t) == Success((Link(k), s))
  {
    hide Scan, Parse, EmptyShelf;
    BadIsNone(Scan(t), EmptyShelf());
  }

  /** Printing a frame succeeds, reading its text succeeds, and what is read is the same graph if and only if no
      frame printed in full leads back to itself through anonymous frames; whatever the indentation. */
  lemma TextRoundTrip(h: Heap, root: nat, indent: seq<byte>)
    requires TextGraph(h) && SYMBOLS <= root < |h| && forall i :: 0 <= i < |indent| ==> IsSpace(indent[i])
    ensures var o := PrintText(h, Link(root), indent);
            o.Success? && var r := ReadText(o.value.text);
            r.Success? && r.value.0.Link? && (SameGraph(h, root, r.value.0.frame, r.value.1) <==> Acyclic(h, {root}))
  {
    hide Scan, Parse, PrintText, ReadText, TextGraph, Isomorphic, Ranked;
    var s, k := ReadsRoot(Setting(h, {root}, indent, false, map[]), root);
    if rank :| Ranked(h, {root}, rank) {
      var s', k' := ReadsRoot(Setting(h, {root}, indent, true, rank), root);
      assert s' == s && k' == k;
    }
    if d, m :| Isomorphic(h, {root}, d, m, s) && root in m && m[root] == k {
      var rank := SameIsRanked(h, {root}, d, m, s);
    }
  }

  /** A public frame with a link to itself is read as a frame with a link to a proxy of the same id. */
  lemma SelfLinkLost(h: Heap, root: nat, indent: seq<byte>)
    requires TextGraph(h) && SYMBOLS <= root < |h| && forall i :: 0 <= i < |indent| ==> IsSpace(indent[i])
    requires root in SlotLinks(SlotsOf(h[root]))
    ensures var o := PrintText(h, Link(root), indent);
            o.Success? && var r := ReadText(o.value.text);
            r.Success? && r.value.0.Link? && !SameGraph(h, root, r.value.0.frame, r.value.1)
  {
    hide PrintText, ReadText, TextGraph, Ranked;
    TextRoundTrip(h, root, indent);
    forall rank ensures !Ranked(h, {root}, rank) {
      LoopHasNoRank(h, root, rank);
    }
  }

  lemma LoopHasNoRank(h: Heap, root: nat, rank: map<nat, nat>)
    requires root < |h| && root in SlotLinks(SlotsOf(h[root]))
    ensures !Ranked(h, {root}, rank)
  {
    assert Inner(h, {root}, root);
  }
}
