/**
  The round trip of the binary format (app/lib/frame.js:571-1051) for every graph in which no frame with a late id is
  linked before it is written out.
 */
module SlingTrip {
  import opened Common
  import opened SlingVarint
  import opened SlingGraph
  import opened SlingEncode
  import opened SlingDecode
  import opened SlingRoundTrip
  import opened SlingIso

  // ----- encoding a graph never fails -----

  lemma {:induction false} ValueEncodes(h: Heap, v: Value, t: Table)
    requires Graph(h) && Within(v, Below(|h|))
    ensures Encode(h, v, t).Success?
    decreases Pending(h, t), v, 1
  {
    match v
    case Link(f) => FrameEncodes(h, f, t);
    case List(es) => LinksEncode(h, es, t.(next := t.next + 1));
    case Qualified(s, q) => LinkEncodes(h, q, t.(next := t.next + 1));
    case _ =>
  }

  lemma {:induction false} FrameEncodes(h: Heap, f: nat, t: Table)
    requires Graph(h) && f < |h|
    ensures EncodeFrame(h, f, t).Success?
    decreases Pending(h, t), Link(f), 0
  {
    AnyIdIffPublic(h, f);
    if f in t.refs && (t.refs[f].encoded || h[f].state.Proxy?) {
    } else if h[f].state.Proxy? {
      LinkIdHas(h, f);
    } else {
      assert f in Pending(h, t);
      var t1 := if f in t.refs then Resolved(t, f) else Mark(t, f, true);
      assert f !in Pending(h, t1);
      assert GoodFrame(h[f], |h|);
      SlotsEncode(h, h[f].slots.value, t1);
    }
  }

  lemma {:induction false} LinkEncodes(h: Heap, v: Value, t: Table)
    requires Graph(h) && Within(v, Below(|h|))
    ensures EncodeLink(h, v, t).Success?
    decreases Pending(h, t), v, 2
  {
    if v.Link? && v.frame < |h| && !h[v.frame].state.Anonymous? {
      LinkIdHas(h, v.frame);
    } else {
      ValueEncodes(h, v, t);
    }
  }

  lemma {:induction false} LinksEncode(h: Heap, es: seq<Value>, t: Table)
    requires Graph(h) && forall i :: 0 <= i < |es| ==> Within(es[i], Below(|h|))
    ensures EncodeLinks(h, es, t).Success?
    decreases Pending(h, t), es
  {
    if es != [] {
      LinkEncodes(h, es[0], t);
      LinksEncode(h, es[1..], EncodeLink(h, es[0], t).value.table);
    }
  }

  lemma {:induction false} SlotEncodes(h: Heap, x: Slot, t: Table)
    requires Graph(h) && Within(x.name, Below(|h|)) && Within(x.value, Below(|h|))
    requires x.name == Link(ID) ==> x.value.Text?
    ensures EncodeSlot(h, x, t).Success?
    decreases Pending(h, t), x
  {
    LinkEncodes(h, x.name, t);
    if x.name != Link(ID) {
      LinkEncodes(h, x.value, EncodeLink(h, x.name, t).value.table);
    }
  }

  lemma {:induction false} SlotsEncode(h: Heap, slots: seq<Slot>, t: Table)
    requires Graph(h) && SlotsWithin(slots, Below(|h|))
    requires forall x :: x in slots && x.name == Link(ID) ==> x.value.Text?
    ensures EncodeSlots(h, slots, t).Success?
    decreases Pending(h, t), slots
  {
    if slots != [] {
      assert slots[0] in slots;
      SlotEncodes(h, slots[0], t);
      SlotsEncode(h, slots[1..], EncodeSlot(h, slots[0], t).value.table);
    }
  }

  /** Every graph can be encoded, cycles and all. */
  lemma {:induction false} RootsEncode(h: Heap, roots: seq<Value>, t: Table)
    requires Graph(h) && forall i :: 0 <= i < |roots| ==> Within(roots[i], Below(|h|))
    ensures EncodeRoots(h, roots, t).Success?
  {
    if roots != [] {
      ValueEncodes(h, roots[0], t);
      RootsEncode(h, roots[1..], Encode(h, roots[0], t).value.table);
    }
  }

  // ----- frames linked before they are written out -----

  // A frame with an id that does not come first.
  predicate Late(h: Heap, f: nat) {
    SYMBOLS <= f < |h| && (h[f].state.Public? || h[f].state.Stub?) && h[f].slots.Some?
    && (h[f].slots.value == [] || h[f].slots.value[0].name != Link(ID))
  }

  /** A set of frames that holds the standard symbols, all frames that some roots link to, and with every frame
      that these write out all that it links to. */
  ghost predicate Closed(h: Heap, roots: seq<Value>, k: set<nat>) {
    && Below(SYMBOLS) <= k
    && (forall v :: v in roots ==> Within(v, k))
    && forall f :: f in k && f < |h| && !h[f].state.Proxy? && h[f].slots.Some?
                   && (h[f].state.Anonymous? || Link(f) in roots) ==>
         SlotsWithin(h[f].slots.value, k)
  }

  // No way leads from some roots to a frame through anonymous frames and these roots.
  ghost predicate Unlinked(h: Heap, roots: seq<Value>, f: nat) {
    exists k: set<nat> :: f !in k && Closed(h, roots, k)
  }

  /** A root whose id is late is not linked by the roots before it. */
  ghost predicate Prompt(h: Heap, roots: seq<Value>) {
    forall i, f: nat :: 0 <= i < |roots| && roots[i] == Link(f) && Late(h, f) && Link(f) !in roots[..i] ==>
                        Unlinked(h, roots[..i], f)
  }

  // What is written out for some roots: a value of a root, or one that is no frame with an id.
  ghost predicate Part(h: Heap, roots: seq<Value>, k: set<nat>, v: Value) {
    Within(v, k) && (v.Link? && v.frame < |h| && !h[v.frame].state.Anonymous? ==> v in roots)
  }

  lemma {:induction false} ValueKnown(h: Heap, roots: seq<Value>, k: set<nat>, v: Value, t: Table)
    requires Closed(h, roots, k) && t.refs.Keys <= k && Part(h, roots, k, v) && Encode(h, v, t).Success?
    ensures Encode(h, v, t).value.table.refs.Keys <= k
    decreases Pending(h, t), v, 1
  {
    hide Closed;
    match v
    case Link(f) => FrameKnown(h, roots, k, f, t);
    case List(es) => LinksKnown(h, roots, k, es, t.(next := t.next + 1));
    case Qualified(_, q) => LinkKnown(h, roots, k, q, t.(next := t.next + 1));
    case _ =>
  }

  lemma {:induction false} FrameKnown(h: Heap, roots: seq<Value>, k: set<nat>, f: nat, t: Table)
    requires Closed(h, roots, k) && t.refs.Keys <= k && Part(h, roots, k, Link(f)) && EncodeFrame(h, f, t).Success?
    ensures EncodeFrame(h, f, t).value.table.refs.Keys <= k
    decreases Pending(h, t), Link(f), 0
  {
    if !(f in t.refs && (t.refs[f].encoded || h[f].state.Proxy?)) && !h[f].state.Proxy? {
      assert f in Pending(h, t);
      var t1 := if f in t.refs then Resolved(t, f) else Mark(t, f, true);
      assert f !in Pending(h, t1) && Pending(h, t1) <= Pending(h, t);
      assert SlotsWithin(h[f].slots.value, k);
      SlotsKnown(h, roots, k, h[f].slots.value, t1);
    }
  }

  lemma {:induction false} LinkKnown(h: Heap, roots: seq<Value>, k: set<nat>, v: Value, t: Table)
    requires Closed(h, roots, k) && t.refs.Keys <= k && Within(v, k) && EncodeLink(h, v, t).Success?
    ensures EncodeLink(h, v, t).value.table.refs.Keys <= k
    decreases Pending(h, t), v, 2
  {
    hide Closed;
    if !(v.Link? && v.frame < |h| && !h[v.frame].state.Anonymous?) {
      ValueKnown(h, roots, k, v, t);
    }
  }

  lemma {:induction false} LinksKnown(h: Heap, roots: seq<Value>, k: set<nat>, es: seq<Value>, t: Table)
    requires Closed(h, roots, k) && t.refs.Keys <= k && (forall i :: 0 <= i < |es| ==> Within(es[i], k))
    requires EncodeLinks(h, es, t).Success?
    ensures EncodeLinks(h, es, t).value.table.refs.Keys <= k
    decreases Pending(h, t), es
  {
    hide Closed;
    if es != [] {
      LinkKnown(h, roots, k, es[0], t);
      LinksKnown(h, roots, k, es[1..], EncodeLink(h, es[0], t).value.table);
    }
  }

  lemma {:induction false} SlotsKnown(h: Heap, roots: seq<Value>, k: set<nat>, slots: seq<Slot>, t: Table)
    requires Closed(h, roots, k) && t.refs.Keys <= k && SlotsWithin(slots, k) && EncodeSlots(h, slots, t).Success?
    ensures EncodeSlots(h, slots, t).value.table.refs.Keys <= k
    decreases Pending(h, t), slots
  {
    hide Closed;
    if slots != [] {
      assert slots[0] in slots;
      SlotKnown(h, roots, k, slots[0], t);
      SlotsKnown(h, roots, k, slots[1..], EncodeSlot(h, slots[0], t).value.table);
    }
  }

  lemma {:induction false} SlotKnown(h: Heap, roots: seq<Value>, k: set<nat>, x: Slot, t: Table)
    requires Closed(h, roots, k) && t.refs.Keys <= k && Within(x.name, k) && Within(x.value, k)
    requires EncodeSlot(h, x, t).Success?
    ensures EncodeSlot(h, x, t).value.table.refs.Keys <= k
    decreases Pending(h, t), x
  {
    hide Closed;
    LinkKnown(h, roots, k, x.name, t);
    if x.name != Link(ID) {
      LinkKnown(h, roots, k, x.value, EncodeLink(h, x.name, t).value.table);
    }
  }

  lemma {:induction false} RootsKnown(h: Heap, roots: seq<Value>, k: set<nat>, some: seq<Value>, t: Table)
    requires Closed(h, roots, k) && t.refs.Keys <= k && (forall v :: v in some ==> v in roots)
    requires EncodeRoots(h, some, t).Success?
    ensures EncodeRoots(h, some, t).value.table.refs.Keys <= k
  {
    if some != [] {
      assert some[0] in some;
      ValueKnown(h, roots, k, some[0], t);
      RootsKnown(h, roots, k, some[1..], Encode(h, some[0], t).value.table);
    }
  }

  // The table after some roots.
  function TableAfter(h: Heap, roots: seq<Value>): Table {
    var r := EncodeRoots(h, roots, Start());
    if r.Success? then r.value.table else Start()
  }

  lemma {:induction false} OneMore(h: Heap, roots: seq<Value>, v: Value, t: Table)
    requires EncodeRoots(h, roots, t).Success? && Encode(h, v, EncodeRoots(h, roots, t).value.table).Success?
    ensures EncodeRoots(h, roots + [v], t).Success?
    ensures EncodeRoots(h, roots + [v], t).value.table == Encode(h, v, EncodeRoots(h, roots, t).value.table).value.table
  {
    hide Encode;
    if roots == [] {
      assert [] + [v] == [v] && [v][1..] == [];
    } else {
      assert (roots + [v])[0] == roots[0] && (roots + [v])[1..] == roots[1..] + [v];
      OneMore(h, roots[1..], v, Encode(h, roots[0], t).value.table);
    }
  }

  // One root after others is on time.
  lemma RootPrompt(h: Heap, roots: seq<Value>, f: nat)
    requires Graph(h) && f < |h| && !h[f].state.Anonymous? && forall i :: 0 <= i < |roots| ==>
             Within(roots[i], Below(|h|))
    requires Late(h, f) && Link(f) !in roots ==> Unlinked(h, roots, f)
    ensures OnTime(h, f, TableAfter(h, roots))
  {
    hide Closed, Graph;
    RootsEncode(h, roots, Start());
    RootsNested(h, roots, Start());
    RootsGrow(h, roots, Start());
    var t := TableAfter(h, roots);
    if f in t.refs && !t.refs[f].encoded && !h[f].state.Proxy? {
      if Late(h, f) {
        var k: set<nat> :| f !in k && Closed(h, roots, k);
        StartKnown(h, roots, k);
        RootsKnown(h, roots, k, roots, Start());
      } else {
        SlotsThere(h, f);
      }
    }
  }

  lemma SlotsThere(h: Heap, f: nat)
    requires Graph(h) && f < |h|
    ensures h[f].slots.Some?
  {
    assert GoodFrame(h[f], |h|);
  }

  lemma StartKnown(h: Heap, roots: seq<Value>, k: set<nat>)
    requires Closed(h, roots, k)
    ensures Start().refs.Keys <= k
  {
  }

  lemma {:induction false} RootsPrompt(h: Heap, roots: seq<Value>, n: nat)
    requires Graph(h) && n <= |roots| && Prompt(h, roots) && forall i :: 0 <= i < |roots| ==>
             Within(roots[i], Below(|h|))
    ensures RootsOnTime(h, roots[n..], TableAfter(h, roots[..n]))
    decreases |roots| - n
  {
    hide Graph, Unlinked, OnTime, Encode, EncodeRoots, Late;
    if n < |roots| {
      var v, t := roots[n], TableAfter(h, roots[..n]);
      assert roots[n..][0] == v && roots[n..][1..] == roots[n + 1..] && roots[..n + 1] == roots[..n] + [v];
      RootsEncode(h, roots[..n], Start());
      RootsEncode(h, roots[..n + 1], Start());
      ValueEncodes(h, v, t);
      OneMore(h, roots[..n], v, Start());
      if v.Link? && v.frame < |h| && !h[v.frame].state.Anonymous? {
        RootPrompt(h, roots[..n], v.frame);
      }
      RootsPrompt(h, roots, n + 1);
    }
  }

  // ----- the theorem -----

  /** Binary round trip: any roots of a graph can be encoded, and when no root with a late id is linked by the roots
      before it, decoding into an empty store what was written gives an isomorphic graph. */
  lemma RoundTrip(h: Heap, roots: seq<Value>) returns (values: seq<Value>, store: Store, m: map<nat, nat>)
    requires Graph(h) && Prompt(h, roots) && forall i :: 0 <= i < |roots| ==> Within(roots[i], Below(|h|))
    requires EncodeAll(h, roots).Success? ==> EncodeAll(h, roots).value.table.next < TWO_28
    ensures EncodeAll(h, roots).Success? && DecodeAll(EncodeAll(h, roots).value.bytes) == Success((values, store))
    ensures Isomorphic(h, roots, store.heap, values, m)
    ensures EncodeAll(h, roots).value.table.next == |store.refs|
  {
    hide Graph, Encode, Lockstep, Prompt, ReadObjects, EncodeRoots, Isomorphic, RootsOnTime;
    RootsEncode(h, roots, Start());
    AllOnTime(h, roots);
    var out := EncodeRoots(h, roots, Start()).value;
    var input := EncodeAll(h, roots).value.bytes;
    assert input == [0] + out.bytes && input[1..1 + |out.bytes|] == out.bytes;
    StartLockstep(h);
    var got;
    got, m := RootsBack(h, roots, Start(), Empty(), Symbols(), input, 1);
    values, store := got.0, got.1;
    RootsNested(h, roots, Start());
    Copies(h, out.table, store, m, {});
    LockstepIsomorphic(h, roots, out.table, store, values, m);
  }

  lemma AllOnTime(h: Heap, roots: seq<Value>)
    requires Graph(h) && Prompt(h, roots) && forall i :: 0 <= i < |roots| ==> Within(roots[i], Below(|h|))
    ensures RootsOnTime(h, roots, Start())
  {
    hide Graph, Prompt, RootsOnTime, Encode;
    RootsPrompt(h, roots, 0);
    assert roots[0..] == roots && roots[..0] == [];
  }

  /** When all ids come first, the roots may come in any order. */
  lemma FirstIdsPrompt(h: Heap, roots: seq<Value>)
    requires forall f :: SYMBOLS <= f < |h| && !h[f].state.Anonymous? && h[f].slots.Some? ==>
               h[f].slots.value != [] && h[f].slots.value[0].name == Link(ID)
    ensures Prompt(h, roots)
  {
  }
}
