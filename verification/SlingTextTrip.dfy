/**
  Reading what the printer wrote (app/lib/frame.js:1308-1456, 1475-1600): token by token the reader goes through
  the objects that the printer went through. When no frame is referred to while it is still being printed, what
  it reads is the printed value with frames renamed; in any case frames only get links to older frames.
 */
module SlingTextTrip {
  import opened Common
  import opened SlingVarint
  import opened SlingGraph
  import opened SlingLexis
  import opened SlingText
  import opened SlingTextGraph

  // A frame that is printed in full: one of the roots, or an anonymous frame inside them.
  predicate Inner(h: Heap, roots: set<nat>, f: nat) {
    f in roots || (f < |h| && h[f].state.Anonymous?)
  }

  /** Ranks that go down along every link to a root or an anonymous frame: there is no way from one of these back
      to itself through anonymous frames and roots. */
  ghost predicate Ranked(h: Heap, roots: set<nat>, rank: map<nat, nat>) {
    && roots <= rank.Keys
    && forall f, g :: f in rank && f < |h| && g in SlotLinks(SlotsOf(h[f])) && Inner(h, roots, g) ==>
         g in rank && rank[g] < rank[f]
  }

  /** The graph, the frames that are printed from, the indentation, and ranks; `good` says whether these are ranks as
      above. */
  datatype Setting = Setting(h: Heap, roots: set<nat>, indent: seq<byte>, good: bool, rank: map<nat, nat>)

  ghost predicate Legal(c: Setting) {
    && TextGraph(c.h) && (forall r :: r in c.roots ==> SYMBOLS <= r < |c.h|)
    && (forall i :: 0 <= i < |c.indent| ==> IsSpace(c.indent[i]))
    && (c.good ==> Ranked(c.h, c.roots, c.rank))
  }

  // The state of the printer, the store that the reader has filled at the same place, and what became of frames.
  datatype Point = Point(p: Printer, s: Shelf, m: map<nat, nat>)

  predicate Under(links: set<nat>, n: nat) {
    forall g :: g in links ==> g < n
  }

  // The id of a frame of the graph.
  ghost predicate Known(h: Heap, id: seq<byte>) {
    exists f :: 0 <= f < |h| && !h[f].state.Anonymous? && FrameId(h[f]) == Some(id)
  }

  // A heap of a store, in which frames have links only to older frames.
  ghost predicate Descending(heap: Heap) {
    && |heap| >= SYMBOLS
    && (forall f :: 0 <= f < SYMBOLS ==> heap[f] == SymbolFrame(f))
    && forall f :: SYMBOLS <= f < |heap| ==> Under(SlotLinks(SlotsOf(heap[f])), f)
  }

  // The note of the printer about a frame it has begun to print.
  predicate Noted(c: Setting, p: Printer, f: nat)
    requires f in p.refs
  {
    f < |c.h| && if c.h[f].state.Anonymous? then p.refs[f].Numbered? && p.refs[f].index < p.next
    else f in c.roots && p.refs[f].Named?
  }

  // What holds of every graph.
  ghost predicate Steady(c: Setting, x: Point) {
    && Descending(x.s.heap)
    && (forall n :: n in x.s.refs ==> n < x.p.next && SYMBOLS <= x.s.refs[n] < |x.s.heap|)
    && (forall id :: id in x.s.names ==>
          x.s.names[id] < |x.s.heap| && Known(c.h, id) && (x.s.names[id] == ID ==> id == SymbolName(ID)))
    && (forall f :: 0 <= f < SYMBOLS ==> SymbolName(f) in x.s.names && x.s.names[SymbolName(f)] == f)
    && (forall f :: f in x.p.refs ==> Noted(c, x.p, f))
    && forall f, g :: f in x.p.refs && g in x.p.refs && x.p.refs[f].Numbered? && x.p.refs[f] == x.p.refs[g] ==> f == g
  }

  // A frame that has been read.
  ghost predicate Done(c: Setting, x: Point, f: nat)
    requires f in x.m
  {
    f < |c.h| && x.m[f] < |x.s.heap| &&
    if c.h[f].state.Anonymous? then
      && f in x.p.refs && x.p.refs[f].Numbered?
      && x.p.refs[f].index in x.s.refs && x.s.refs[x.p.refs[f].index] == x.m[f]
      && SlotLinks(SlotsOf(c.h[f])) <= x.m.Keys
      && x.s.heap[x.m[f]] == Frame(Anonymous, Some(RenameSlots(x.m, SlotsOf(c.h[f]))))
    else
      && f !in c.roots && FrameId(c.h[f]).Some?
      && FrameId(c.h[f]).value in x.s.names && x.s.names[FrameId(c.h[f]).value] == x.m[f]
      && (f < SYMBOLS ==> x.m[f] == f)
      && (f >= SYMBOLS ==> x.s.heap[x.m[f]] == Frame(Proxy, Some([Slot(Link(ID), Text(FrameId(c.h[f]).value))])))
  }

  ghost predicate AllDone(c: Setting, x: Point) {
    (forall f :: 0 <= f < SYMBOLS ==> f in x.m) && forall f :: f in x.m ==> Done(c, x, f)
  }

  ghost predicate Injective(m: map<nat, nat>) {
    forall f, g :: f in m && g in m && m[f] == m[g] ==> f == g
  }

  // Frames that are not finished cannot be found by their index.
  ghost predicate Unfinished(x: Point) {
    forall f :: f in x.p.refs && f !in x.m && x.p.refs[f].Numbered? ==> x.p.refs[f].index !in x.s.refs
  }

  // Frames with a known id have been read.
  ghost predicate Found(c: Setting, x: Point) {
    forall f ::
      0 <= f < |c.h| && !c.h[f].state.Anonymous? && FrameId(c.h[f]).Some? && FrameId(c.h[f]).value in x.s.names ==>
        f in x.m
  }

  ghost predicate Hit(m: map<nat, nat>, k: nat) {
    exists f :: f in m && m[f] == k
  }

  // Every frame of the store is the image of one.
  ghost predicate Filled(m: map<nat, nat>, n: nat) {
    forall k :: 0 <= k < n ==> Hit(m, k)
  }

  // What holds besides when the ranks are good.
  ghost predicate Tracks(c: Setting, x: Point) {
    AllDone(c, x) && Injective(x.m) && Unfinished(x) && Found(c, x) && Filled(x.m, |x.s.heap|)
  }

  // Frames that are still being printed have ranks from b on.
  ghost predicate Open(c: Setting, x: Point, b: nat) {
    forall f :: f in x.p.refs && f !in x.m ==> f in c.rank && c.rank[f] >= b
  }

  ghost predicate Sound(c: Setting, x: Point) {
    Steady(c, x) && (c.good ==> Tracks(c, x))
  }

  ghost predicate Ready(c: Setting, x: Point, b: nat) {
    && Legal(c) && Sound(c, x) && (c.good ==> Open(c, x, b))
    && forall r :: r in c.roots && !c.h[r].state.Anonymous? ==> r in x.p.refs && r !in x.m
  }

  // The frames that are linked have ranks below b.
  ghost predicate Low(c: Setting, links: set<nat>, b: nat) {
    c.good ==> forall g :: g in links && Inner(c.h, c.roots, g) ==> g in c.rank && c.rank[g] < b
  }

  // Going on: nothing is forgotten, and every frame that is begun is finished.
  ghost predicate Step(c: Setting, x: Point, y: Point) {
    && Sound(c, y)
    && x.s.heap <= y.s.heap
    && x.p.next <= y.p.next
    && (forall f :: f in x.p.refs ==> f in y.p.refs && (x.p.refs[f].Numbered? ==> y.p.refs[f] == x.p.refs[f]))
    && (c.good ==> Sub(x.m, y.m) && forall f :: f in y.p.refs && f !in y.m ==> f in x.p.refs && f !in x.m)
    && (forall f :: f in x.p.refs && f !in x.m ==> f !in y.m)
  }

  lemma Onward(c: Setting, x: Point, y: Point, b: nat)
    requires Ready(c, x, b) && Step(c, x, y)
    ensures Ready(c, y, b)
  {
  }

  lemma Still(c: Setting, x: Point, b: nat)
    requires Ready(c, x, b)
    ensures Step(c, x, x)
  {
  }

  lemma Further(c: Setting, x: Point, y: Point, z: Point)
    requires Legal(c) && Step(c, x, y) && Step(c, y, z)
    ensures Step(c, x, z)
  {
  }

  // ----- what is read for a value -----

  ghost predicate GoodValue(c: Setting, y: Point, v: Value, w: Value) {
    && Under(Links(w), |y.s.heap|)
    && (w == Link(ID) <==> v == Link(ID))
    && (c.good ==> Links(v) <= y.m.Keys && w == Rename(y.m, v))
  }

  ghost predicate GoodValues(c: Setting, y: Point, es: seq<Value>, ws: seq<Value>) {
    && Under(ElementLinks(ws), |y.s.heap|)
    && (c.good ==> ElementLinks(es) <= y.m.Keys && ws == RenameAll(y.m, es))
  }

  ghost predicate GoodSlots(c: Setting, y: Point, slots: seq<Slot>, done: seq<Slot>) {
    && |done| == |slots|
    && (forall i :: 0 <= i < |slots| ==> (slots[i].name == Link(ID) <==> done[i].name == Link(ID)))
    && (forall i :: 0 <= i < |slots| && slots[i].name == Link(ID) ==> done[i] == slots[i])
    && Under(SlotLinks(done), |y.s.heap|)
    && (c.good ==> SlotLinks(slots) <= y.m.Keys && done == RenameSlots(y.m, slots))
  }

  lemma GoodValueStays(c: Setting, x: Point, y: Point, v: Value, w: Value)
    requires GoodValue(c, x, v, w) && Step(c, x, y)
    ensures GoodValue(c, y, v, w)
  {
    if c.good {
      RenameStays(x.m, y.m, v);
    }
  }

  lemma BadIsNone(k: Here, s: Shelf)
    ensures Parse(k, s).Success? ==> !k.token.Bad?
  {
  }

  // Text that may come after a value.
  predicate After(t: seq<byte>) {
    Delimits(t) && !Scan(t).token.Bad? && Scan(t).token != Mark(64)
  }

  // ----- references -----

  // A link to a frame that is not anonymous, printed as a symbol.
  lemma ReadSymbol(c: Setting, f: nat, t: seq<byte>, x: Point, b: nat) returns (y: Point)
    requires Ready(c, x, b) && f < |c.h| && !c.h[f].state.Anonymous? && Low(c, {f}, b) && After(t)
    ensures FrameId(c.h[f]).Some?
    ensures var r := Parse(Scan(SymbolText(FrameId(c.h[f]).value) + t), x.s);
            r.Success? && r.value.here == Scan(t) && y.s == r.value.shelf && GoodValue(c, y, Link(f), r.value.value)
    ensures y.p == x.p && Step(c, x, y)
  {
    hide Scan, Parse, TextGraph, Sound, Step, Keyword, GoodValue, Open, Low;
    IdOf(c.h, f);
    var id := FrameId(c.h[f]).value;
    LexSymbol(id, t);
    WordIsSymbol(id);
    y := ReadLink(c, f, t, x, b);
  }

  // The same, after the symbol has been read.
  lemma ReadLink(c: Setting, f: nat, t: seq<byte>, x: Point, b: nat) returns (y: Point)
    requires Ready(c, x, b) && f < |c.h| && !c.h[f].state.Anonymous? && Low(c, {f}, b) && !Scan(t).token.Bad?
    requires FrameId(c.h[f]).Some?
    ensures var r := Parse(Here(Symbol(FrameId(c.h[f]).value), t), x.s);
            r.Success? && r.value.here == Scan(t) && y.s == r.value.shelf && GoodValue(c, y, Link(f), r.value.value)
    ensures y.p == x.p && Step(c, x, y)
  {
    hide Scan, Parse, TextGraph, Steady, Tracks, Keyword;
    var id := FrameId(c.h[f]).value;
    ParseSymbol(id, t, x.s);
    if id in x.s.names {
      y := x;
      KnownId(c, f, x, b);
    } else {
      y := NewProxy(c, f, x, b);
    }
  }

  lemma WordIsSymbol(id: seq<byte>)
    requires !Keyword(id)
    ensures WordToken(id) == Symbol(id)
  {
  }

  lemma IdIsId(h: Heap, f: nat)
    requires TextGraph(h) && f < |h| && !h[f].state.Anonymous?
    ensures FrameId(h[f]) == Some(SymbolName(ID)) <==> f == ID
  {
    if FrameId(h[f]) == Some(SymbolName(ID)) {
      SameId(h, f, ID);
    }
  }

  lemma ParseSymbol(id: seq<byte>, t: seq<byte>, s: Shelf)
    requires !Scan(t).token.Bad?
    ensures Parse(Here(Symbol(id), t), s) == Success(Parsed(Link(Find(s, id).1), Scan(t), Find(s, id).0))
  {
    hide Scan;
  }

  lemma KnownId(c: Setting, f: nat, x: Point, b: nat)
    requires Ready(c, x, b) && f < |c.h| && !c.h[f].state.Anonymous? && Low(c, {f}, b)
    requires FrameId(c.h[f]).Some? && FrameId(c.h[f]).value in x.s.names
    ensures Step(c, x, x)
    ensures var k := x.s.names[FrameId(c.h[f]).value];
            k < |x.s.heap| && (k == ID <==> f == ID) && (c.good ==> f in x.m && x.m[f] == k)
  {
    IdIsId(c.h, f);
    if c.good {
      assert f !in c.roots;
      assert f in x.m;
      assert Done(c, x, f);
    }
  }

  lemma NewProxy(c: Setting, f: nat, x: Point, b: nat) returns (y: Point)
    requires Ready(c, x, b) && f < |c.h| && !c.h[f].state.Anonymous? && Low(c, {f}, b)
    requires FrameId(c.h[f]).Some? && FrameId(c.h[f]).value !in x.s.names
    ensures y == Point(x.p, Find(x.s, FrameId(c.h[f]).value).0, if c.good then x.m[f := |x.s.heap|] else x.m)
    ensures Step(c, x, y) && f != ID && |x.s.heap| != ID
  {
    hide TextGraph, Done;
    var id := FrameId(c.h[f]).value;
    y := Point(x.p, Find(x.s, id).0, if c.good then x.m[f := |x.s.heap|] else x.m);
    assert Known(c.h, id);
    NotStandard(c, f, x);
    assert f in x.p.refs ==> Noted(c, x.p, f);
    if c.good {
      NotDone(c, f, x);
      ProxyTracks(c, f, x, y);
    }
    ProxySteady(c, id, x, y);
  }

  lemma NotStandard(c: Setting, f: nat, x: Point)
    requires TextGraph(c.h) && Steady(c, x) && f < |c.h| && FrameId(c.h[f]).Some? && FrameId(c.h[f]).value !in x.s.names
    ensures f >= SYMBOLS
  {
  }

  lemma NotDone(c: Setting, f: nat, x: Point)
    requires AllDone(c, x) && f < |c.h| && !c.h[f].state.Anonymous? && FrameId(c.h[f]).Some?
    requires FrameId(c.h[f]).value !in x.s.names
    ensures f !in x.m
  {
    assert f in x.m ==> Done(c, x, f);
  }

  lemma ProxySteady(c: Setting, id: seq<byte>, x: Point, y: Point)
    requires TextGraph(c.h) && Steady(c, x) && Known(c.h, id) && id !in x.s.names && y.p == x.p
    requires y.s == Find(x.s, id).0
    ensures Steady(c, y)
  {
    hide TextGraph;
    var k := |x.s.heap|;
    assert SlotLinks(SlotsOf(y.s.heap[k])) == {ID} by {
      assert SlotsOf(y.s.heap[k])[1..] == [];
    }
    assert forall g :: 0 <= g < k ==> y.s.heap[g] == x.s.heap[g];
  }

  lemma ProxyTracks(c: Setting, f: nat, x: Point, y: Point)
    requires TextGraph(c.h) && Steady(c, x) && Tracks(c, x) && SYMBOLS <= f < |c.h| && !c.h[f].state.Anonymous?
    requires f !in c.roots && f !in x.m
    requires FrameId(c.h[f]).Some? && FrameId(c.h[f]).value !in x.s.names
    requires y == Point(x.p, Find(x.s, FrameId(c.h[f]).value).0, x.m[f := |x.s.heap|])
    ensures Tracks(c, y)
  {
    hide TextGraph, Done, Steady;
    ProxyDone(c, f, x, y);
    ProxyFound(c, f, x, y);
    FilledStays(x.m, f, |x.s.heap|);
    ImagesBelow(c, x);
  }

  lemma ImagesBelow(c: Setting, x: Point)
    requires AllDone(c, x)
    ensures forall f :: f in x.m ==> f < |c.h| && x.m[f] < |x.s.heap|
  {
    assert forall f :: f in x.m ==> Done(c, x, f);
  }

  lemma ProxyFound(c: Setting, f: nat, x: Point, y: Point)
    requires TextGraph(c.h) && Found(c, x) && f < |c.h| && !c.h[f].state.Anonymous? && FrameId(c.h[f]).Some?
    requires y.s.names == x.s.names[FrameId(c.h[f]).value := |x.s.heap|] && y.m == x.m[f := |x.s.heap|]
    ensures Found(c, y)
  {
    hide TextGraph;
    forall g | 0 <= g < |c.h| && !c.h[g].state.Anonymous? && FrameId(c.h[g]) == FrameId(c.h[f]) ensures g == f {
      SameId(c.h, f, g);
    }
  }

  lemma ProxyDone(c: Setting, f: nat, x: Point, y: Point)
    requires AllDone(c, x) && SYMBOLS <= f < |c.h| && !c.h[f].state.Anonymous? && f !in c.roots && f !in x.m
    requires FrameId(c.h[f]).Some? && FrameId(c.h[f]).value !in x.s.names
    requires y == Point(x.p, Find(x.s, FrameId(c.h[f]).value).0, x.m[f := |x.s.heap|])
    ensures AllDone(c, y)
  {
    var id := FrameId(c.h[f]).value;
    assert y.s.heap[|x.s.heap|] == Frame(Proxy, Some([Slot(Link(ID), Text(id))]));
    forall g | g in y.m ensures Done(c, y, g) {
      if g != f {
        DoneStays(c, x, y, g);
      }
    }
  }

  // A frame that has been read is not changed by reading more.
  lemma DoneStays(c: Setting, x: Point, y: Point, f: nat)
    requires f in x.m && Done(c, x, f) && x.s.heap <= y.s.heap && Sub(x.m, y.m)
    requires f in x.p.refs && x.p.refs[f].Numbered? ==> f in y.p.refs && y.p.refs[f] == x.p.refs[f]
    requires f in x.p.refs && x.p.refs[f].Numbered? && x.p.refs[f].index in x.s.refs ==>
               x.p.refs[f].index in y.s.refs && y.s.refs[x.p.refs[f].index] == x.s.refs[x.p.refs[f].index]
    requires forall id :: id in x.s.names ==> id in y.s.names && y.s.names[id] == x.s.names[id]
    ensures Done(c, y, f)
  {
    if c.h[f].state.Anonymous? {
      RenameSlotsStays(x.m, y.m, SlotsOf(c.h[f]));
    }
  }

  // Adding the newest frame.
  lemma FilledStays(m: map<nat, nat>, f: nat, n: nat)
    requires f !in m && Filled(m, n)
    ensures Filled(m[f := n], n + 1)
  {
    var m' := m[f := n];
    forall k | 0 <= k <= n ensures Hit(m', k) {
      if k == n {
        assert m'[f] == k;
      } else {
        assert Hit(m, k);
        var g :| g in m && m[g] == k;
        assert m'[g] == k;
      }
    }
  }

  // A link to an anonymous frame that has been printed before, or is being printed.
  lemma ReadIndex(c: Setting, f: nat, t: seq<byte>, x: Point, b: nat) returns (y: Point)
    requires Ready(c, x, b) && f < |c.h| && c.h[f].state.Anonymous? && f in x.p.refs && Low(c, {f}, b) && After(t)
    ensures var r := Parse(Scan(ReferenceText(x.p.refs[f]) + t), x.s);
            r.Success? && r.value.here == Scan(t) && y.s == r.value.shelf && GoodValue(c, y, Link(f), r.value.value)
    ensures y.p == x.p && Step(c, x, y)
  {
    hide Scan, Parse, TextGraph, Steady, Tracks;
    Indexed(c, f, x);
    var n := x.p.refs[f].index;
    LexIndex(n, t);
    ParseIndex(n, t, x.s);
    y := Point(x.p, Placeholder(x.s, n).0, x.m);
    if n !in x.s.refs {
      PlaceholderSteady(c, n, x, y);
    }
  }

  lemma Indexed(c: Setting, f: nat, x: Point)
    requires Sound(c, x) && f < |c.h| && c.h[f].state.Anonymous? && f in x.p.refs && TextGraph(c.h)
    ensures x.p.refs[f].Numbered? && x.p.refs[f].index < x.p.next && f != ID && |x.s.heap| >= SYMBOLS
    ensures var n := x.p.refs[f].index;
            && (n in x.s.refs ==> SYMBOLS <= x.s.refs[n] < |x.s.heap|)
            && (c.good && f in x.m ==> n in x.s.refs && x.s.refs[n] == x.m[f])
  {
    assert Noted(c, x.p, f);
    assert f in x.m && c.good ==> Done(c, x, f);
  }

  lemma ParseIndex(n: nat, t: seq<byte>, s: Shelf)
    requires !Scan(t).token.Bad?
    ensures Parse(Here(Token.Index(n), t), s) ==
            Success(Parsed(Link(Placeholder(s, n).1), Scan(t), Placeholder(s, n).0))
  {
    hide Scan;
  }

  lemma PlaceholderSteady(c: Setting, n: nat, x: Point, y: Point)
    requires Steady(c, x) && n < x.p.next && n !in x.s.refs && y == Point(x.p, Placeholder(x.s, n).0, x.m)
    ensures Steady(c, y)
  {
    var k := |x.s.heap|;
    assert y.s.heap[k] == Frame(Anonymous, None);
    assert forall g :: 0 <= g < k ==> y.s.heap[g] == x.s.heap[g];
  }

  // ----- tokens of values -----

  lemma ParseAtom(v: Value, t: seq<byte>, s: Shelf)
    requires (v.Null? || v.Truth? || v.Number? || v.Text?) && After(t)
    ensures Parse(Scan(Print([], v, 0, [], Fresh()).value.text + t), s) == Success(Parsed(v, Scan(t), s))
  {
    hide Scan;
    LexAtom(v, t);
  }

  lemma ParseQualified(text: seq<byte>, k: Here, t: seq<byte>, s: Shelf)
    requires k.token == Str(text) && Scan(k.rest) == Here(Mark(64), t) && !Scan(t).token.Bad?
    requires Parse(Scan(t), s).Success?
    ensures var q := Parse(Scan(t), s).value;
            Parse(k, s) == Success(q.(value := Qualified(text, q.value)))
  {
    hide Scan;
  }

  lemma ParseList(t: seq<byte>, s: Shelf, u: seq<byte>)
    requires !Scan(t).token.Bad? && ParseElements(Scan(t), s).Success?
    requires ParseElements(Scan(t), s).value.1 == Here(Mark(93), u)
    requires !Scan(u).token.Bad?
    ensures var r := ParseElements(Scan(t), s).value;
            Parse(Here(Mark(91), t), s) == Success(Parsed(List(r.0), Scan(u), r.2))
  {
    hide Scan, ParseElements;
  }

  // The text of a list without its opening bracket.
  function ListTail(h: Heap, es: seq<Value>, level: nat, indent: seq<byte>, p: Printer, t: seq<byte>): seq<byte>
    requires PrintElements(h, es, true, level, indent, p).Success?
  {
    PrintElements(h, es, true, level, indent, p).value.text + ([93] + t)
  }

  // The comma before an element that is not the first.
  lemma CommaFirst(h: Heap, es: seq<Value>, level: nat, indent: seq<byte>, p: Printer)
    requires PrintElements(h, es, false, level, indent, p).Success? && es != []
    ensures PrintElements(h, es, true, level, indent, p).Success?
    ensures var o, first := PrintElements(h, es, false, level, indent, p).value,
                            PrintElements(h, es, true, level, indent, p).value;
            o.printer == first.printer && o.text == [44] + Gap(indent) + first.text
  {
    hide Print, Gap;
    var one := Print(h, es[0], level, indent, p).value;
    var more := PrintElements(h, es[1..], false, level, indent, one.printer).value.text;
    assert [44] + Gap(indent) + one.text + more == [44] + Gap(indent) + ([] + one.text + more);
  }

  lemma ListSplits(h: Heap, es: seq<Value>, level: nat, indent: seq<byte>, p: Printer, t: seq<byte>)
    requires PrintElements(h, es, true, level, indent, p).Success? && es != []
    ensures Print(h, es[0], level, indent, p).Success?
    ensures var one := Print(h, es[0], level, indent, p).value;
            && PrintElements(h, es[1..], true, level, indent, one.printer).Success?
            && PrintElements(h, es, true, level, indent, p).value.printer ==
               PrintElements(h, es[1..], true, level, indent, one.printer).value.printer
            && ListTail(h, es, level, indent, p, t) == one.text +
                 if |es| == 1 then [93] + t else [44] +
                                                 (Gap(indent) + ListTail(h, es[1..], level, indent, one.printer, t))
  {
    hide Print, Gap;
    var one := Print(h, es[0], level, indent, p).value;
    var more := PrintElements(h, es[1..], false, level, indent, one.printer).value.text;
    assert [] + one.text + more + ([93] + t) == one.text + (more + ([93] + t));
    if |es| == 1 {
      assert es[1..] == [] && [] + ([93] + t) == [93] + t;
    } else {
      CommaFirst(h, es[1..], level, indent, one.printer);
      var tail := PrintElements(h, es[1..], true, level, indent, one.printer).value.text;
      assert [44] + Gap(indent) + tail + ([93] + t) == [44] + (Gap(indent) + (tail + ([93] + t)));
    }
  }

  // ----- reading what was printed -----

  // A value inside the root.
  lemma {:induction false} ReadValue(c: Setting, v: Value, level: nat, t: seq<byte>, x: Point, b: nat)
    returns (y: Point)
    requires Ready(c, x, b) && Plain(v, |c.h|) && Low(c, Links(v), b) && After(t) && level > 0
    requires Print(c.h, v, level, c.indent, x.p).Success?
    ensures var o, r := Print(c.h, v, level, c.indent, x.p).value,
                        Parse(Scan(Print(c.h, v, level, c.indent, x.p).value.text + t), x.s);
            r.Success? && r.value.here == Scan(t) && y.s == r.value.shelf && y.p == o.printer
            && GoodValue(c, y, v, r.value.value)
    ensures Step(c, x, y)
    decreases Unprinted(c.h, x.p), v, 1
  {
    hide Scan, Parse, TextGraph, Steady, Tracks;
    var text := Print(c.h, v, level, c.indent, x.p).value.text;
    match v
    case Link(f) =>
      if !c.h[f].state.Anonymous? {
        y := ReadSymbol(c, f, t, x, b);
      } else if f in x.p.refs {
        y := ReadIndex(c, f, t, x, b);
      } else {
        y := ReadFrame(c, f, level, t, x, b);
      }
    case List(es) => y := ReadList(c, es, level, t, x, b);
    case Qualified(s, q) => y := ReadQualified(c, s, q, level, t, x, b);
    case _ =>
      ParseAtom(v, t, x.s);
      AtomPrints(c.h, v, level, c.indent, x.p);
      y := x;
  }

  lemma AtomPrints(h: Heap, v: Value, level: nat, indent: seq<byte>, p: Printer)
    requires v.Null? || v.Truth? || v.Number? || v.Text?
    ensures Print(h, v, level, indent, p) == Success(Page(Print([], v, 0, [], Fresh()).value.text, p))
  {
  }

  lemma {:induction false} ReadList(c: Setting, es: seq<Value>, level: nat, t: seq<byte>, x: Point, b: nat)
    returns (y: Point)
    requires Ready(c, x, b) && Plain(List(es), |c.h|) && Low(c, Links(List(es)), b) && After(t) && level > 0
    requires Print(c.h, List(es), level, c.indent, x.p).Success?
    ensures var o, r := Print(c.h, List(es), level, c.indent, x.p).value,
                        Parse(Scan(Print(c.h, List(es), level, c.indent, x.p).value.text + t), x.s);
            r.Success? && r.value.here == Scan(t) && y.s == r.value.shelf && y.p == o.printer
            && GoodValue(c, y, List(es), r.value.value)
    ensures Step(c, x, y)
    decreases Unprinted(c.h, x.p), List(es), 0
  {
    hide Scan, Parse, ParseElements, TextGraph, Steady, Tracks;
    var text := Print(c.h, List(es), level, c.indent, x.p).value.text;
    var tail := ListTail(c.h, es, level, c.indent, x.p, t);
    assert text + t == [91] + tail;
    LexMark(91, tail);
    LexMark(93, t);
    y := ReadElements(c, es, level, t, x, b);
    ListStart(c, es, level, t, x.p);
    ParseList(tail, x.s, t);
  }

  lemma {:induction false} ReadQualified(c: Setting, s: seq<byte>, q: Value, level: nat, t: seq<byte>, x: Point, b: nat)
    returns (y: Point)
    requires Ready(c, x, b) && Plain(Qualified(s, q), |c.h|) && Low(c, Links(q), b) && After(t) && level > 0
    requires Print(c.h, Qualified(s, q), level, c.indent, x.p).Success?
    ensures var o := Print(c.h, Qualified(s, q), level, c.indent, x.p).value;
            var r := Parse(Scan(o.text + t), x.s);
            r.Success? && r.value.here == Scan(t) && y.s == r.value.shelf && y.p == o.printer
            && GoodValue(c, y, Qualified(s, q), r.value.value)
    ensures Step(c, x, y)
    decreases Unprinted(c.h, x.p), Qualified(s, q), 0
  {
    hide Scan, Parse, Print, TextGraph, Step, Sound, Open, Legal, GoodValue, Low, Quote;
    QualifiedText(c, s, q, level, t, x.p);
    var inner := Print(c.h, q, level + 1, c.indent, x.p).value.text;
    LexString(s, [64] + (inner + t));
    LexMark(64, inner + t);
    y := ReadValue(c, q, level + 1, t, x, b);
    ValueStart(c.h, q, level + 1, c.indent, x.p, t);
    ParseQualified(s, Here(Str(s), [64] + (inner + t)), inner + t, x.s);
    GoodQualified(c, y, s, q, Parse(Scan(inner + t), x.s).value.value);
  }

  lemma QualifiedText(c: Setting, s: seq<byte>, q: Value, level: nat, t: seq<byte>, p: Printer)
    requires !Falsy(q) && Print(c.h, Qualified(s, q), level, c.indent, p).Success?
    ensures var o := Print(c.h, q, level + 1, c.indent, p);
            && o.Success? && Print(c.h, Qualified(s, q), level, c.indent, p).value.printer == o.value.printer
            && Print(c.h, Qualified(s, q), level, c.indent, p).value.text + t == Quote(s) + ([64] + (o.value.text + t))
  {
    hide Quote, PrintFrame, PrintElements, NumberText;
    var text := Print(c.h, q, level + 1, c.indent, p).value.text;
    assert Quote(s) + [64] + text + t == Quote(s) + ([64] + (text + t));
  }

  lemma GoodQualified(c: Setting, y: Point, s: seq<byte>, q: Value, w: Value)
    requires GoodValue(c, y, q, w)
    ensures GoodValue(c, y, Qualified(s, q), Qualified(s, w))
  {
  }

  lemma ListStart(c: Setting, es: seq<Value>, level: nat, t: seq<byte>, p: Printer)
    requires PrintElements(c.h, es, true, level, c.indent, p).Success? && forall i :: 0 <= i < |es| ==>
             Plain(es[i], |c.h|)
    ensures var k := Scan(ListTail(c.h, es, level, c.indent, p, t)).token;
            if es == [] then k == Mark(93) else Starts(k)
  {
    hide Scan;
    if es == [] {
      LexMark(93, t);
      assert [] + ([93] + t) == [93] + t;
    } else {
      ListSplits(c.h, es, level, c.indent, p, t);
      var one := Print(c.h, es[0], level, c.indent, p).value;
      ValueStart(c.h, es[0], level, c.indent, p,
        if |es| == 1 then [93] + t else [44] +
                                        (Gap(c.indent) + ListTail(c.h, es[1..], level, c.indent, one.printer, t)));
    }
  }

  // The elements of a list up to its closing bracket.
  lemma {:induction false} ReadElements(c: Setting, es: seq<Value>, level: nat, t: seq<byte>, x: Point, b: nat)
    returns (y: Point)
    requires Ready(c, x, b) && (forall i :: 0 <= i < |es| ==> Plain(es[i], |c.h|)) && Low(c, ElementLinks(es), b)
    requires level > 0
    requires PrintElements(c.h, es, true, level, c.indent, x.p).Success?
    ensures var r := ParseElements(Scan(ListTail(c.h, es, level, c.indent, x.p, t)), x.s);
            r.Success? && r.value.1 == Here(Mark(93), t) && y.s == r.value.2 && GoodValues(c, y, es, r.value.0)
    ensures y.p == PrintElements(c.h, es, true, level, c.indent, x.p).value.printer && Step(c, x, y)
    decreases Unprinted(c.h, x.p), es
  {
    hide Scan, Parse, Print, PrintElements, TextGraph, Sound, Step, Open, Legal, GoodValue, Low;
    var ts := Scan(ListTail(c.h, es, level, c.indent, x.p, t));
    LexMark(93, t);
    ListStart(c, es, level, t, x.p);
    if es == [] {
      y := x;
      Still(c, x, b);
      NoElements(c, x, level, t);
    } else {
      ListSplits(c.h, es, level, c.indent, x.p, t);
      var one := Print(c.h, es[0], level, c.indent, x.p).value;
      var more := ListTail(c.h, es[1..], level, c.indent, one.printer, t);
      var after := if |es| == 1 then [93] + t else [44] + (Gap(c.indent) + more);
      LexMark(44, Gap(c.indent) + more);
      LexGap(c.indent, more);
      LowElements(c, es, b);
      var z := ReadValue(c, es[0], level, after, x, b);
      Onward(c, x, z, b);
      ListStart(c, es[1..], level, t, z.p);
      y := ReadElements(c, es[1..], level, t, z, b);
      Further(c, x, z, y);
      if |es| == 1 {
        NoElements(c, z, level, t);
        assert es[1..] == [];
      }
      var first := Parse(ts, x.s).value.value;
      GoodValueStays(c, z, y, es[0], first);
      GoodElementAdds(c, y, es, first, ParseElements(Scan(more), z.s).value.0);
    }
  }

  lemma NoElements(c: Setting, x: Point, level: nat, t: seq<byte>)
    ensures PrintElements(c.h, [], true, level, c.indent, x.p) == Success(Page([], x.p))
    ensures ListTail(c.h, [], level, c.indent, x.p, t) == [93] + t && GoodValues(c, x, [], [])
  {
  }

  lemma LowElements(c: Setting, es: seq<Value>, b: nat)
    requires es != [] && Low(c, ElementLinks(es), b)
    ensures Low(c, Links(es[0]), b) && Low(c, ElementLinks(es[1..]), b)
  {
  }

  lemma GoodElementAdds(c: Setting, y: Point, es: seq<Value>, w: Value, ws: seq<Value>)
    requires es != [] && GoodValue(c, y, es[0], w) && GoodValues(c, y, es[1..], ws)
    ensures GoodValues(c, y, es, [w] + ws)
  {
    assert ([w] + ws)[1..] == ws;
  }

  // Beginning to print an anonymous frame.
  lemma Begin(c: Setting, f: nat, x: Point, b: nat) returns (z: Point, d: nat)
    requires Ready(c, x, b) && f < |c.h| && c.h[f].state.Anonymous? && f !in x.p.refs && Low(c, {f}, b)
    ensures z == Point(Opening(f, c.h[f], x.p).value.printer, x.s, x.m)
    ensures Ready(c, z, d) && Low(c, SlotLinks(SlotsOf(c.h[f])), d) && (c.good ==> f !in x.m)
  {
    hide TextGraph, Done, Steady, Tracks, Opening;
    OpensAnonymous(f, c.h[f], x.p);
    z, d := Point(Opening(f, c.h[f], x.p).value.printer, x.s, x.m), if c.good then c.rank[f] else b;
    BeginSteady(c, f, x, z);
    if c.good {
      BeginTracks(c, f, x, z);
    }
  }

  lemma OpensAnonymous(f: nat, frame: Frame, p: Printer)
    requires frame.state.Anonymous?
    ensures Opening(f, frame, p).Success?
    ensures Opening(f, frame, p).value.printer == Printer(p.refs[f := Numbered(p.next)], p.next + 1)
  {
  }

  lemma BeginSteady(c: Setting, f: nat, x: Point, z: Point)
    requires Steady(c, x) && f < |c.h| && c.h[f].state.Anonymous? && f !in x.p.refs
    requires z == Point(Printer(x.p.refs[f := Numbered(x.p.next)], x.p.next + 1), x.s, x.m)
    ensures Steady(c, z)
  {
    assert forall g :: g in x.p.refs ==> Noted(c, x.p, g);
    forall g | g in z.p.refs ensures Noted(c, z.p, g) {
      if g != f {
        assert Noted(c, x.p, g);
      }
    }
  }

  lemma BeginTracks(c: Setting, f: nat, x: Point, z: Point)
    requires Steady(c, x) && Tracks(c, x) && f < |c.h| && c.h[f].state.Anonymous? && f !in x.p.refs
    requires z == Point(Printer(x.p.refs[f := Numbered(x.p.next)], x.p.next + 1), x.s, x.m)
    ensures Tracks(c, z) && f !in x.m
  {
    assert f in x.m ==> Done(c, x, f);
    forall g | g in z.m ensures Done(c, z, g) {
      assert Done(c, x, g);
      DoneStays(c, x, z, g);
    }
    IndexUnknown(c, x);
  }

  // The state after an anonymous frame has been read.
  function Ended(c: Setting, f: nat, done: seq<Slot>, y: Point): Point
    requires f in y.p.refs && y.p.refs[f].Numbered?
  {
    var k := |y.s.heap|;
    Point(y.p, Shelf(y.s.heap + [Frame(Anonymous, Some(done))], y.s.names, y.s.refs[y.p.refs[f].index := k]),
          if c.good then y.m[f := k] else y.m)
  }

  lemma EndSteady(c: Setting, f: nat, done: seq<Slot>, y: Point)
    requires Steady(c, y) && f in y.p.refs && y.p.refs[f].Numbered? && Under(SlotLinks(done), |y.s.heap|)
    ensures Steady(c, Ended(c, f, done, y))
  {
    var z := Ended(c, f, done, y);
    var k := |y.s.heap|;
    assert z.s.heap[k] == Frame(Anonymous, Some(done));
    assert forall g :: 0 <= g < k ==> z.s.heap[g] == y.s.heap[g];
    assert Noted(c, y.p, f);
    assert forall g :: g in z.p.refs ==> Noted(c, y.p, g);
  }

  lemma EndTracks(c: Setting, f: nat, done: seq<Slot>, y: Point)
    requires Steady(c, y) && Tracks(c, y) && c.good && f in y.p.refs && y.p.refs[f].Numbered? && f !in y.m
    requires f < |c.h| && c.h[f].state.Anonymous?
    requires SlotLinks(SlotsOf(c.h[f])) <= y.m.Keys && done == RenameSlots(y.m, SlotsOf(c.h[f]))
    ensures Tracks(c, Ended(c, f, done, y))
  {
    var z := Ended(c, f, done, y);
    var k := |y.s.heap|;
    assert forall g :: g in y.m ==> Done(c, y, g);
    RenameSlotsStays(y.m, z.m, SlotsOf(c.h[f]));
    assert z.s.heap[k] == Frame(Anonymous, Some(done));
    forall g | g in z.m ensures Done(c, z, g) {
      if g != f {
        assert Done(c, y, g);
        DoneStays(c, y, z, g);
      }
    }
    FilledStays(y.m, f, k);
  }

  lemma {:induction false} NoIds(s: Shelf, f: nat, slots: seq<Slot>)
    requires forall i :: 0 <= i < |slots| ==> slots[i].name != Link(ID)
    ensures AddIds(s, f, slots) == s
  {
    if slots != [] {
      NoIds(s, f, slots[1..]);
    }
  }

  // An anonymous frame that is printed in full.
  lemma {:induction false} ReadFrame(c: Setting, f: nat, level: nat, t: seq<byte>, x: Point, b: nat) returns (y: Point)
    requires Ready(c, x, b) && f < |c.h| && c.h[f].state.Anonymous? && f !in x.p.refs && Low(c, {f}, b)
    requires !Scan(t).token.Bad?
    requires PrintFrame(c.h, f, level, c.indent, x.p).Success?
    ensures var o, r := PrintFrame(c.h, f, level, c.indent, x.p).value,
                        Parse(Scan(PrintFrame(c.h, f, level, c.indent, x.p).value.text + t), x.s);
            r.Success? && r.value.here == Scan(t) && y.s == r.value.shelf && y.p == o.printer
            && GoodValue(c, y, Link(f), r.value.value)
    ensures |y.s.heap| > SYMBOLS
    ensures Parse(Scan(PrintFrame(c.h, f, level, c.indent, x.p).value.text + t), x.s).value.value ==
            Link(|y.s.heap| - 1)
    ensures Step(c, x, y) && f in y.p.refs && (c.good ==> f in y.m)
    decreases Unprinted(c.h, x.p), Link(f), 0
  {
    hide Scan, Parse, Print, PrintFrame, PrintSlots, Tail, ParseSlots, AddIds, TextGraph, Steady, Tracks, Step, Open,
         Ranked, GoodSlots, GoodValue;
    var z, d := Begin(c, f, x, b);
    assert f in Unprinted(c.h, x.p) && f !in Unprinted(c.h, z.p);
    assert Unprinted(c.h, z.p) <= Unprinted(c.h, x.p);
    var slots := SlotsOf(c.h[f]);
    FrameText(c, f, level, t, x.p);
    var tail := Tail(c.h, f, slots, true, level + 1, c.indent, z.p, t);
    var open := Opening(f, c.h[f], x.p).value.text;
    LexOpening(f, c.h[f], x.p, tail);
    PlainSlots(c.h, f);
    TailStart(c.h, f, slots, true, level + 1, c.indent, z.p, t);
    var w, done := ReadSlots(c, f, slots, true, level + 1, t, Slots([], None, Some(x.p.next), Scan(tail), x.s), z, d);
    LexMark(125, t);
    IndexUnknown(c, x);
    y := End(c, f, done, x, z, w);
    assert [] + done == done;
    ParseAnonymous(x.p.next, Scan(open + tail), tail, x.s, done, t, w.s);
  }

  // Finishing an anonymous frame.
  lemma End(c: Setting, f: nat, done: seq<Slot>, x: Point, z: Point, w: Point) returns (y: Point)
    requires Legal(c) && f < |c.h| && c.h[f].state.Anonymous? && f !in x.p.refs && Step(c, z, w)
    requires c.good ==> f !in x.m
    requires z == Point(Printer(x.p.refs[f := Numbered(x.p.next)], x.p.next + 1), x.s, x.m)
    requires GoodSlots(c, w, SlotsOf(c.h[f]), done)
    ensures |y.s.heap| > SYMBOLS
    ensures y.p == w.p
    ensures y.s == Shelf(w.s.heap + [Frame(Anonymous, Some(done))], w.s.names, w.s.refs[x.p.next := |w.s.heap|])
    ensures Step(c, x, y) && GoodValue(c, y, Link(f), Link(|w.s.heap|)) && f in y.p.refs && (c.good ==> f in y.m)
    ensures var s := w.s.(heap := w.s.heap + [Frame(Anonymous, Some(done))]); AddIds(s, |w.s.heap|, done) == s
  {
    hide Steady, Tracks, AddIds, TextGraph, Ranked;
    NoSlotIds(c, f, w, done);
    NoIds(w.s.(heap := w.s.heap + [Frame(Anonymous, Some(done))]), |w.s.heap|, done);
    y := Ended(c, f, done, w);
    EndAt(c, f, done, w);
    NotSymbol(c, f, w);
  }

  lemma EndAt(c: Setting, f: nat, done: seq<Slot>, w: Point)
    requires Sound(c, w) && f < |c.h| && c.h[f].state.Anonymous? && f in w.p.refs && w.p.refs[f].Numbered?
    requires (c.good ==> f !in w.m)
    requires GoodSlots(c, w, SlotsOf(c.h[f]), done)
    ensures Sound(c, Ended(c, f, done, w))
  {
    hide Steady, Tracks;
    EndSteady(c, f, done, w);
    if c.good {
      EndTracks(c, f, done, w);
    }
  }

  lemma NoSlotIds(c: Setting, f: nat, w: Point, done: seq<Slot>)
    requires TextGraph(c.h) && f < |c.h| && c.h[f].state.Anonymous? && GoodSlots(c, w, SlotsOf(c.h[f]), done)
    ensures forall i :: 0 <= i < |done| ==> done[i].name != Link(ID)
  {
    PlainSlots(c.h, f);
    assert forall i :: 0 <= i < |done| ==> SlotsOf(c.h[f])[i] in SlotsOf(c.h[f]);
  }

  lemma NotSymbol(c: Setting, f: nat, w: Point)
    requires Legal(c) && Steady(c, w) && f < |c.h| && c.h[f].state.Anonymous?
    ensures f != ID && |w.s.heap| >= SYMBOLS
  {
  }

  // The text of an anonymous frame that has not been printed before.
  lemma FrameText(c: Setting, f: nat, level: nat, t: seq<byte>, p: Printer)
    requires f < |c.h| && c.h[f].state.Anonymous? && f !in p.refs && PrintFrame(c.h, f, level, c.indent, p).Success?
    ensures var o, slots := Opening(f, c.h[f], p).value, SlotsOf(c.h[f]);
            && PrintSlots(c.h, f, slots, true, level + 1, c.indent, o.printer).Success?
            && PrintFrame(c.h, f, level, c.indent, p).value.printer ==
               PrintSlots(c.h, f, slots, true, level + 1, c.indent, o.printer).value.printer
            && PrintFrame(c.h, f, level, c.indent, p).value.text + t ==
               o.text + Tail(c.h, f, slots, true, level + 1, c.indent, o.printer, t)
  {
    hide PrintSlots;
  }

  lemma IndexUnknown(c: Setting, x: Point)
    requires Steady(c, x)
    ensures x.p.next !in x.s.refs
  {
  }

  // What a frame of the graph guarantees of its slots.
  lemma PlainSlots(h: Heap, f: nat)
    requires TextGraph(h) && f < |h|
    ensures h[f].slots.Some?
    ensures forall s :: s in SlotsOf(h[f]) ==> Plain(s.name, |h|) && Plain(s.value, |h|)
    ensures forall s :: s in SlotsOf(h[f]) && s.name == Link(ID) ==> !h[f].state.Anonymous? && s.value.Text?
                                                                     && !Keyword(s.value.utf8)
  {
  }

  lemma ParseAnonymous(n: nat, k: Here, tail: seq<byte>, s: Shelf, done: seq<Slot>, t: seq<byte>, s': Shelf)
    requires Opened(k, Some(n), tail) && n !in s.refs && StartsTail(Scan(tail).token) && !Scan(t).token.Bad?
    requires ParseSlots(Scan(tail), Slots([], None, Some(n), Scan(tail), s)) ==
             Success(Slots(done, None, Some(n), Here(Mark(125), t), s'))
    ensures Parse(k, s) ==
              Success(Parsed(Link(|s'.heap|), Scan(t),
                             var r := AddIds(s'.(heap := s'.heap + [Frame(Anonymous, Some(done))]), |s'.heap|, done);
                             r.(refs := r.refs[n := |s'.heap|])))
  {
    hide Scan, AddIds;
    var k1 := Scan(k.rest);
    var k2 := Scan(k1.rest);
    var got := Slots([], None, None, k1, s);
    var first := Slots([], None, Some(n), Scan(tail), s);
    assert ParseId(k2, got) == Success(first);
    assert ParseSlot(k1, got) == Success(first);
    assert ParseSlots(k1, got) == ParseSlots(Scan(tail), first);
  }

  // A token that starts a slot or ends a frame.
  predicate StartsTail(k: Token) {
    StartsSlot(k) || k == Mark(125)
  }

  // ----- slots -----

  ghost predicate GoodSlot(c: Setting, y: Point, s: Slot, d: Slot) {
    && (s.name == Link(ID) <==> d.name == Link(ID)) && (s.name == Link(ID) ==> d == s)
    && Under(Links(d.name) + Links(d.value), |y.s.heap|)
    && (c.good ==> Links(s.name) + Links(s.value) <= y.m.Keys && d == Slot(Rename(y.m, s.name), Rename(y.m, s.value)))
  }

  // The ids among some slots of a frame are not known to the store yet.
  ghost predicate NewIds(c: Setting, f: nat, slots: seq<Slot>, first: bool, x: Point) {
    && (forall s :: s in slots ==> f < |c.h| && s in SlotsOf(c.h[f]))
    && (first ==> f < |c.h| && slots == SlotsOf(c.h[f])
                  && (!c.h[f].state.Anonymous? ==> FrameId(c.h[f]).Some? && FrameId(c.h[f]).value !in x.s.names))
    && (!first ==> forall s :: s in slots && s.name == Link(ID) ==>
                               FrameId(c.h[f]).Some? && s.value != Text(FrameId(c.h[f]).value))
  }

  lemma OtherId(c: Setting, f: nat, s: Slot, x: Point)
    requires TextGraph(c.h) && Steady(c, x) && f < |c.h| && s in SlotsOf(c.h[f]) && s.name == Link(ID)
    requires s.value.Text? && s.value.utf8 in x.s.names
    ensures FrameId(c.h[f]) == Some(s.value.utf8)
  {
    var g :| 0 <= g < |c.h| && !c.h[g].state.Anonymous? && FrameId(c.h[g]) == Some(s.value.utf8);
    IdOf(c.h, g);
    assert HasId(c.h, f, s.value.utf8);
  }

  // The slots of a frame from one of them on, up to its closing bracket.
  lemma {:induction false} ReadSlots(c: Setting, f: nat, slots: seq<Slot>, first: bool, level: nat, t: seq<byte>,
                                     got: Slots, x: Point, b: nat)
    returns (y: Point, done: seq<Slot>)
    requires Ready(c, x, b) && f < |c.h| && f in x.p.refs && level > 0 && NewIds(c, f, slots, first, x)
    requires Low(c, SlotLinks(slots), b)
    requires got.shelf == x.s && got.frame.None? && !Scan(t).token.Bad?
    requires PrintSlots(c.h, f, slots, first, level, c.indent, x.p).Success?
    ensures var ts := Scan(Tail(c.h, f, slots, first, level, c.indent, x.p, t));
            ParseSlots(ts, got) == Success(Slots(got.slots + done, None, got.index, Here(Mark(125), t), y.s))
    ensures GoodSlots(c, y, slots, done) && y.p == PrintSlots(c.h, f, slots, first, level, c.indent, x.p).value.printer
    ensures Step(c, x, y)
    decreases Unprinted(c.h, x.p), slots
  {
    hide *;
    var ts := Scan(Tail(c.h, f, slots, first, level, c.indent, x.p, t));
    SlotFacts(c, f, slots, first, x, b);
    if slots == [] {
      y, done := x, [];
      Still(c, x, b);
      LastTail(c, f, first, level, t, x.p);
      ParseNoSlots(ts, got);
      assert got.slots + [] == got.slots;
      NoSlots(c, x);
    } else {
      TailSplits(c.h, f, slots, first, level, c.indent, x.p, t);
      TailStart(c.h, f, slots, first, level, c.indent, x.p, t);
      var one := PrintSlot(c.h, f, slots[0], level, c.indent, x.p).value;
      var tail := Tail(c.h, f, slots[1..], false, level, c.indent, one.printer, t);
      LexSpace(first, level, c.indent, one.text + tail);
      TailDelimits(c.h, f, slots[1..], level, c.indent, one.printer, t);
      TailStart(c.h, f, slots[1..], false, level, c.indent, one.printer, t);
      IdIsNew(c, f, slots, first, x, b);
      LowSplits(c, slots, b);
      AfterTail(tail);
      var z, d := ReadSlot(c, f, slots[0], level, tail, got, x, b);
      Onward(c, x, z, b);
      var got' := Slots(got.slots + [d], None, got.index, Scan(tail), z.s);
      NextIds(c, f, slots, first, x, z);
      InRefs(c, f, x, z);
      var more;
      y, more := ReadSlots(c, f, slots[1..], false, level, t, got', z, b);
      Further(c, x, z, y);
      done := [d] + more;
      assert got.slots + [d] + more == got.slots + done;
      ParseMoreSlots(ts, got, got');
      GoodSlotAdds(c, z, y, slots, d, more);
    }
  }

  lemma NoSlots(c: Setting, x: Point)
    ensures GoodSlots(c, x, [], [])
  {
  }

  lemma SlotFacts(c: Setting, f: nat, slots: seq<Slot>, first: bool, x: Point, b: nat)
    requires Ready(c, x, b) && f < |c.h| && NewIds(c, f, slots, first, x)
    ensures Legal(c) && TextGraph(c.h) && forall i :: 0 <= i < |c.indent| ==> IsSpace(c.indent[i])
    ensures forall s :: s in slots ==> Plain(s.name, |c.h|) && s in SlotsOf(c.h[f])
    ensures slots != [] ==> forall s :: s in slots[1..] ==> Plain(s.name, |c.h|)
  {
    PlainSlots(c.h, f);
    if slots != [] {
      assert forall s :: s in slots[1..] ==> s in slots;
    }
  }

  lemma LastTail(c: Setting, f: nat, first: bool, level: nat, t: seq<byte>, p: Printer)
    requires level > 0 && forall i :: 0 <= i < |c.indent| ==> IsSpace(c.indent[i])
    ensures PrintSlots(c.h, f, [], first, level, c.indent, p) == Success(Page([], p))
    ensures Scan(Tail(c.h, f, [], first, level, c.indent, p, t)) == Here(Mark(125), t)
  {
    hide Scan;
    LexClosing(c.indent, level - 1, t);
    assert Tail(c.h, f, [], first, level, c.indent, p, t) == Closing(level - 1, c.indent) + t;
  }

  lemma LowSplits(c: Setting, slots: seq<Slot>, b: nat)
    requires slots != [] && Low(c, SlotLinks(slots), b)
    ensures Low(c, Links(slots[0].name) + Links(slots[0].value), b) && Low(c, SlotLinks(slots[1..]), b)
  {
  }

  lemma AfterTail(t: seq<byte>)
    requires Delimits(t) && (StartsSlot(Scan(t).token) || Scan(t).token == Mark(125))
    ensures After(t) && Scan(t).token != Mark(44)
  {
    hide Scan, Delimits;
  }

  lemma InRefs(c: Setting, f: nat, x: Point, z: Point)
    requires Step(c, x, z) && f in x.p.refs
    ensures f in z.p.refs
  {
  }

  lemma IdIsNew(c: Setting, f: nat, slots: seq<Slot>, first: bool, x: Point, b: nat)
    requires Ready(c, x, b) && f < |c.h| && slots != [] && NewIds(c, f, slots, first, x)
    ensures slots[0].name == Link(ID) && slots[0].value.Text? ==> slots[0].value.utf8 !in x.s.names
  {
    if slots[0].name == Link(ID) && slots[0].value.Text? && slots[0].value.utf8 in x.s.names {
      assert slots[0] in slots;
      OtherId(c, f, slots[0], x);
      PlainSlots(c.h, f);
    }
  }

  lemma ParseNoSlots(k: Here, got: Slots)
    requires k.token == Mark(125)
    ensures ParseSlots(k, got) == Success(got.(here := k))
  {
  }

  lemma ParseMoreSlots(k: Here, got: Slots, one: Slots)
    requires StartsSlot(k.token) && ParseSlot(k, got) == Success(one) && one.here.token != Mark(44)
    ensures ParseSlots(k, got) == ParseSlots(one.here, one)
  {
    hide ParseSlot;
  }

  lemma NextIds(c: Setting, f: nat, slots: seq<Slot>, first: bool, x: Point, z: Point)
    requires TextGraph(c.h) && f < |c.h| && slots != [] && NewIds(c, f, slots, first, x)
    ensures NewIds(c, f, slots[1..], false, z)
  {
    forall s | s in slots[1..] ensures s in SlotsOf(c.h[f]) {
      assert s in slots;
    }
    if first && !c.h[f].state.Anonymous? {
      IdOf(c.h, f);
      forall i | 0 <= i < |slots| - 1 && slots[1..][i].name == Link(ID)
        ensures slots[1..][i].value != Text(FrameId(c.h[f]).value) {
        assert slots[1..][i] == slots[i + 1];
      }
    }
    if first && c.h[f].state.Anonymous? {
      PlainSlots(c.h, f);
    }
  }

  lemma GoodSlotAdds(c: Setting, z: Point, y: Point, slots: seq<Slot>, d: Slot, more: seq<Slot>)
    requires slots != [] && GoodSlot(c, z, slots[0], d) && Step(c, z, y) && GoodSlots(c, y, slots[1..], more)
    ensures GoodSlots(c, y, slots, [d] + more)
  {
    var done := [d] + more;
    assert done[1..] == more;
    if c.good {
      RenameStays(z.m, y.m, slots[0].name);
      RenameStays(z.m, y.m, slots[0].value);
    }
    forall i | 0 <= i < |slots| ensures (slots[i].name == Link(ID) <==> done[i].name == Link(ID))
    && (slots[i].name == Link(ID) ==> done[i] == slots[i]) {
      if i > 0 {
        assert slots[i] == slots[1..][i - 1] && done[i] == more[i - 1];
      }
    }
  }

  lemma {:induction false} ReadSlot(c: Setting, f: nat, s: Slot, level: nat, t: seq<byte>, got: Slots, x: Point, b: nat)
    returns (y: Point, d: Slot)
    requires Ready(c, x, b) && f < |c.h| && f in x.p.refs && level > 0 && s in SlotsOf(c.h[f])
    requires Low(c, Links(s.name) + Links(s.value), b)
    requires s.name == Link(ID) && s.value.Text? ==> s.value.utf8 !in x.s.names
    requires got.shelf == x.s && got.frame.None? && After(t)
    requires PrintSlot(c.h, f, s, level, c.indent, x.p).Success?
    ensures ParseSlot(Scan(PrintSlot(c.h, f, s, level, c.indent, x.p).value.text + t), got) ==
              Success(Slots(got.slots + [d], None, got.index, Scan(t), y.s))
    ensures GoodSlot(c, y, s, d) && y.p == PrintSlot(c.h, f, s, level, c.indent, x.p).value.printer && Step(c, x, y)
    decreases Unprinted(c.h, x.p), s, 1
  {
    hide Scan, Parse, ParseSlot, Print, TextGraph, Sound, Step, GoodSlot, Open, Done;
    PlainSlots(c.h, f);
    if s.name == Link(ID) {
      y, d := ReadId(c, f, s, t, got, x, b);
    } else if s.name == Link(ISA) || s.name == Link(IS) {
      y, d := ReadShort(c, f, s, level, t, got, x, b);
    } else {
      y, d := ReadLong(c, f, s, level, t, got, x, b);
    }
  }

  // A slot printed as a sign and a value.
  lemma {:induction false} ReadShort(c: Setting, f: nat, s: Slot, level: nat, t: seq<byte>, got: Slots, x: Point,
                                     b: nat) returns (y: Point, d: Slot)
    requires Ready(c, x, b) && f < |c.h| && level > 0 && s in SlotsOf(c.h[f])
    requires Low(c, Links(s.name) + Links(s.value), b)
    requires s.name == Link(ISA) || s.name == Link(IS)
    requires got.shelf == x.s && After(t)
    requires PrintSlot(c.h, f, s, level, c.indent, x.p).Success?
    ensures ParseSlot(Scan(PrintSlot(c.h, f, s, level, c.indent, x.p).value.text + t), got) ==
              Success(got.(slots := got.slots + [d], here := Scan(t), shelf := y.s))
    ensures GoodSlot(c, y, s, d) && y.p == PrintSlot(c.h, f, s, level, c.indent, x.p).value.printer && Step(c, x, y)
    decreases Unprinted(c.h, x.p), s, 0
  {
    hide Scan, Parse, Print, PrintSlot, TextGraph, Sound, Step, Open, GoodValue, Low;
    PlainSlots(c.h, f);
    var sign: byte := if s.name == Link(ISA) then 58 else 43;
    ShortText(c, f, s, level, t, x.p);
    var text := Print(c.h, s.value, level, c.indent, x.p).value.text;
    LexMark(sign, text + t);
    LowSlot(c, s, b);
    y := ReadValue(c, s.value, level, t, x, b);
    var v := Parse(Scan(text + t), x.s).value;
    ValueStart(c.h, s.value, level, c.indent, x.p, t);
    d := Slot(s.name, v.value);
    ParseShort(sign, text + t, got, v);
    GoodShort(c, x, y, s, v.value);
  }

  lemma ShortText(c: Setting, f: nat, s: Slot, level: nat, t: seq<byte>, p: Printer)
    requires (s.name == Link(ISA) || s.name == Link(IS)) && PrintSlot(c.h, f, s, level, c.indent, p).Success?
    ensures var o, v := PrintSlot(c.h, f, s, level, c.indent, p).value, Print(c.h, s.value, level, c.indent, p);
            && v.Success? && o.printer == v.value.printer
            && o.text + t == [if s.name == Link(ISA) then 58 else 43] + (v.value.text + t)
  {
  }

  lemma GoodShort(c: Setting, x: Point, y: Point, s: Slot, w: Value)
    requires Legal(c) && Step(c, x, y) && (s.name == Link(ISA) || s.name == Link(IS)) && GoodValue(c, y, s.value, w)
    ensures GoodSlot(c, y, s, Slot(s.name, w))
  {
    hide Steady, Tracks;
    StandardStays(c, y, s.name.frame);
  }

  // Standard symbols are not renamed.
  lemma StandardStays(c: Setting, y: Point, f: nat)
    requires Legal(c) && Sound(c, y) && f < SYMBOLS
    ensures Under({f}, |y.s.heap|) && (c.good ==> f in y.m && y.m[f] == f)
  {
    if c.good {
      assert f in y.m && Done(c, y, f);
    }
  }

  // A slot printed as name and value.
  lemma {:induction false} ReadLong(c: Setting, f: nat, s: Slot, level: nat, t: seq<byte>, got: Slots, x: Point, b: nat)
    returns (y: Point, d: Slot)
    requires Ready(c, x, b) && f < |c.h| && level > 0 && s in SlotsOf(c.h[f])
    requires Low(c, Links(s.name) + Links(s.value), b)
    requires s.name != Link(ID) && s.name != Link(ISA) && s.name != Link(IS)
    requires got.shelf == x.s && After(t)
    requires PrintSlot(c.h, f, s, level, c.indent, x.p).Success?
    ensures ParseSlot(Scan(PrintSlot(c.h, f, s, level, c.indent, x.p).value.text + t), got) ==
              Success(got.(slots := got.slots + [d], here := Scan(t), shelf := y.s))
    ensures GoodSlot(c, y, s, d) && y.p == PrintSlot(c.h, f, s, level, c.indent, x.p).value.printer && Step(c, x, y)
    decreases Unprinted(c.h, x.p), s, 0
  {
    hide Scan, Parse, Print, PrintSlot, TextGraph, Sound, Step, Open, GoodValue, Low;
    PlainSlots(c.h, f);
    LongText(c, f, s, level, t, x.p);
    var name := Print(c.h, s.name, level, c.indent, x.p).value;
    var value := Print(c.h, s.value, level, c.indent, name.printer).value.text;
    var after := [58] + (Gap(c.indent) + (value + t));
    LexMark(58, Gap(c.indent) + (value + t));
    LexGap(c.indent, value + t);
    ValueStart(c.h, s.name, level, c.indent, x.p, after);
    ValueStart(c.h, s.value, level, c.indent, name.printer, t);
    LowSlot(c, s, b);
    var z := ReadValue(c, s.name, level, after, x, b);
    Onward(c, x, z, b);
    y := ReadValue(c, s.value, level, t, z, b);
    Further(c, x, z, y);
    var n, v := Parse(Scan(name.text + after), x.s).value, Parse(Scan(value + t), z.s).value;
    GoodValueStays(c, z, y, s.name, n.value);
    d := Slot(n.value, v.value);
    ParseLong(Scan(name.text + after), Gap(c.indent) + (value + t), got, n, v);
    GoodBoth(c, y, s, d);
  }

  lemma LongText(c: Setting, f: nat, s: Slot, level: nat, t: seq<byte>, p: Printer)
    requires s.name != Link(ID) && s.name != Link(ISA) && s.name != Link(IS)
    requires PrintSlot(c.h, f, s, level, c.indent, p).Success?
    ensures var o := PrintSlot(c.h, f, s, level, c.indent, p).value;
            && Print(c.h, s.name, level, c.indent, p).Success?
            && var n := Print(c.h, s.name, level, c.indent, p).value;
            && Print(c.h, s.value, level, c.indent, n.printer).Success?
            && var v := Print(c.h, s.value, level, c.indent, n.printer).value;
            && o.printer == v.printer && o.text + t == n.text + ([58] + (Gap(c.indent) + (v.text + t)))
  {
    hide Print, Gap;
    var n := Print(c.h, s.name, level, c.indent, p).value;
    var v, gap := Print(c.h, s.value, level, c.indent, n.printer).value.text, Gap(c.indent);
    assert n.text + [58] + gap + v + t == n.text + ([58] + (gap + (v + t)));
  }

  lemma LowSlot(c: Setting, s: Slot, b: nat)
    requires Low(c, Links(s.name) + Links(s.value), b)
    ensures Low(c, Links(s.name), b) && Low(c, Links(s.value), b)
  {
  }

  lemma GoodBoth(c: Setting, y: Point, s: Slot, d: Slot)
    requires GoodValue(c, y, s.name, d.name) && GoodValue(c, y, s.value, d.value) && s.name != Link(ID)
    ensures GoodSlot(c, y, s, d)
  {
  }

  lemma ParseLong(k: Here, t: seq<byte>, got: Slots, n: Parsed, v: Parsed)
    requires Starts(k.token) && !Scan(t).token.Bad?
    requires Parse(k, got.shelf) == Success(n) && n.here == Here(Mark(58), t) && Parse(Scan(t), n.shelf) == Success(v)
    ensures ParseSlot(k, got) == Success(got.(slots := got.slots + [Slot(n.value, v.value)], here := v.here, shelf :=
                                                v.shelf))
  {
    hide Parse, Scan;
  }

  lemma ParseShort(sign: byte, t: seq<byte>, got: Slots, v: Parsed)
    requires (sign == 58 || sign == 43) && !Scan(t).token.Bad? && Parse(Scan(t), got.shelf) == Success(v)
    ensures ParseSlot(Here(Mark(sign), t), got) ==
              Success(got.(slots := got.slots + [Slot(Link(if sign == 58 then ISA else IS), v.value)], here :=
                             v.here, shelf := v.shelf))
  {
    hide Parse, Scan;
  }

  lemma ReadId(c: Setting, f: nat, s: Slot, t: seq<byte>, got: Slots, x: Point, b: nat) returns (y: Point, d: Slot)
    requires Ready(c, x, b) && f < |c.h| && f in x.p.refs && s in SlotsOf(c.h[f]) && s.name == Link(ID) && s.value.Text?
    requires s.value.utf8 !in x.s.names && got.shelf == x.s && got.frame.None? && After(t)
    ensures ParseSlot(Scan([61] + SymbolText(s.value.utf8) + t), got) ==
            Success(Slots(got.slots + [d], None, got.index, Scan(t), y.s))
    ensures GoodSlot(c, y, s, d) && y == Point(x.p.(refs := x.p.refs[f := Named(s.value.utf8)]), x.s, x.m)
    ensures Step(c, x, y)
  {
    hide Scan, Parse, TextGraph, Steady, Tracks;
    PlainSlots(c.h, f);
    var id := s.value.utf8;
    y, d := Point(x.p.(refs := x.p.refs[f := Named(id)]), x.s, x.m), s;
    Renoted(c, f, id, x, y);
    LexMark(61, SymbolText(id) + t);
    assert [61] + SymbolText(id) + t == [61] + (SymbolText(id) + t);
    LexSymbol(id, t);
    WordIsSymbol(id);
    ParseNewId(id, SymbolText(id) + t, t, got);
    StandardStays(c, y, ID);
  }

  // The root is noted under its latest id.
  lemma Renoted(c: Setting, f: nat, id: seq<byte>, x: Point, y: Point)
    requires Sound(c, x) && f in x.p.refs && f < |c.h| && !c.h[f].state.Anonymous?
    requires y == Point(x.p.(refs := x.p.refs[f := Printed.Named(id)]), x.s, x.m)
    ensures Step(c, x, y)
  {
    assert forall g :: g in x.p.refs ==> Noted(c, x.p, g);
    forall g | g in y.p.refs ensures Noted(c, y.p, g) {
      assert Noted(c, x.p, g);
    }
    if c.good {
      forall g | g in y.m ensures Done(c, y, g) {
        assert Done(c, x, g);
        DoneStays(c, x, y, g);
      }
    }
  }

  lemma ParseNewId(id: seq<byte>, u: seq<byte>, t: seq<byte>, got: Slots)
    requires Scan(u) == Here(Symbol(id), t) && !Scan(t).token.Bad? && id !in got.shelf.names && got.frame.None?
    ensures ParseSlot(Here(Mark(61), u), got) ==
            Success(got.(slots := got.slots + [Slot(Link(ID), Text(id))], here := Scan(t)))
  {
    hide Scan;
  }
}
