/**
  Frame graphs that have a text form, renaming of frames, and what printing them gives
  (app/lib/frame.js:1459-1607).
 */
module SlingTextGraph {
  import opened Common
  import opened SlingVarint
  import opened SlingGraph
  import opened SlingLexis
  import opened SlingText

  // A value whose text says all about it. Numbers are integers that JavaScript represents exactly.
  predicate Plain(v: Value, size: nat)
    decreases v
  {
    match v
    case Undefined => false
    case Float(_) => false
    case Number(n) => -TWO_53 < n < TWO_53
    case Link(f) => f < size
    case List(es) => forall i :: 0 <= i < |es| ==> Plain(es[i], size)
    case Qualified(_, q) => !Falsy(q) && Plain(q, size)
    case _ => true
  }

  /** Slots are present, anonymous frames have no id, other frames start with one and do not repeat it, and ids
      are strings but not keywords. */
  predicate PlainFrame(f: Frame, size: nat) {
    && f.slots.Some?
    && (forall s :: s in f.slots.value ==> Plain(s.name, size) && Plain(s.value, size))
    && (forall s :: s in f.slots.value && s.name == Link(ID) ==>
          !f.state.Anonymous? && s.value.Text? && !Keyword(s.value.utf8))
    && (!f.state.Anonymous? ==> |f.slots.value| > 0 && f.slots.value[0].name == Link(ID))
    && forall i :: 0 < i < |f.slots.value| ==> f.slots.value[i].name == Link(ID) ==>
                                               f.slots.value[i] != f.slots.value[0]
  }

  // What a store offers for printing: plain frames, no two of which share an id, after the standard symbols.
  ghost predicate TextGraph(h: Heap) {
    && |h| >= SYMBOLS
    && (forall f :: 0 <= f < |h| ==> PlainFrame(h[f], |h|))
    && (forall f :: 0 <= f < SYMBOLS ==> h[f].state.Public? && FrameId(h[f]) == Some(SymbolName(f)))
    && forall f, g, id :: HasId(h, f, id) && HasId(h, g, id) ==> f == g
  }

  lemma IdOf(h: Heap, f: nat)
    requires TextGraph(h) && f < |h| && !h[f].state.Anonymous?
    ensures FrameId(h[f]).Some? && HasId(h, f, FrameId(h[f]).value) && !Keyword(FrameId(h[f]).value)
    ensures h[f].slots.value[0] == Slot(Link(ID), Text(FrameId(h[f]).value))
  {
    assert h[f].slots.value[0] in h[f].slots.value;
  }

  // Frames with the same first id are the same.
  lemma SameId(h: Heap, f: nat, g: nat)
    requires TextGraph(h) && f < |h| && g < |h| && !h[f].state.Anonymous? && !h[g].state.Anonymous?
    requires FrameId(h[f]) == FrameId(h[g])
    ensures f == g
  {
    IdOf(h, f);
    IdOf(h, g);
  }

  // ----- links -----

  function Links(v: Value): set<nat>
    decreases v
  {
    match v
    case Link(f) => {f}
    case List(es) => ElementLinks(es)
    case Qualified(_, q) => Links(q)
    case _ => {}
  }

  function ElementLinks(es: seq<Value>): set<nat>
    decreases es
  {
    if es == [] then {} else Links(es[0]) + ElementLinks(es[1..])
  }

  function SlotLinks(slots: seq<Slot>): set<nat> {
    if slots == [] then {} else Links(slots[0].name) + Links(slots[0].value) + SlotLinks(slots[1..])
  }

  // ----- renaming -----

  // A value with frame f replaced by frame m[f].
  function Rename(m: map<nat, nat>, v: Value): Value
    decreases v
  {
    match v
    case Link(f) => if f in m then Link(m[f]) else Undefined
    case List(es) => List(RenameAll(m, es))
    case Qualified(s, q) => Qualified(s, Rename(m, q))
    case _ => v
  }

  function RenameAll(m: map<nat, nat>, es: seq<Value>): (r: seq<Value>)
    ensures |r| == |es|
    decreases es
  {
    if es == [] then [] else [Rename(m, es[0])] + RenameAll(m, es[1..])
  }

  function RenameSlots(m: map<nat, nat>, slots: seq<Slot>): (r: seq<Slot>)
    ensures |r| == |slots|
  {
    if slots == [] then []
    else [Slot(Rename(m, slots[0].name), Rename(m, slots[0].value))] + RenameSlots(m, slots[1..])
  }

  // Renaming depends only on the frames that are linked.
  lemma {:induction false} RenameStays(m: map<nat, nat>, n: map<nat, nat>, v: Value)
    requires Sub(m, n) && Links(v) <= m.Keys
    ensures Rename(n, v) == Rename(m, v) && Links(v) <= n.Keys
    decreases v
  {
    match v
    case List(es) => RenameAllStays(m, n, es);
    case Qualified(_, q) => RenameStays(m, n, q);
    case _ =>
  }

  lemma {:induction false} RenameAllStays(m: map<nat, nat>, n: map<nat, nat>, es: seq<Value>)
    requires Sub(m, n) && ElementLinks(es) <= m.Keys
    ensures RenameAll(n, es) == RenameAll(m, es) && ElementLinks(es) <= n.Keys
    decreases es
  {
    if es != [] {
      RenameStays(m, n, es[0]);
      RenameAllStays(m, n, es[1..]);
    }
  }

  lemma {:induction false} RenameSlotsStays(m: map<nat, nat>, n: map<nat, nat>, slots: seq<Slot>)
    requires Sub(m, n) && SlotLinks(slots) <= m.Keys
    ensures RenameSlots(n, slots) == RenameSlots(m, slots) && SlotLinks(slots) <= n.Keys
  {
    if slots != [] {
      RenameStays(m, n, slots[0].name);
      RenameStays(m, n, slots[0].value);
      RenameSlotsStays(m, n, slots[1..]);
    }
  }

  // The image of a link is a link of the image.
  lemma {:induction false} LinkImage(m: map<nat, nat>, v: Value, g: nat)
    requires g in Links(v) && g in m
    ensures m[g] in Links(Rename(m, v))
    decreases v
  {
    match v
    case List(es) => ElementLinkImage(m, es, g);
    case Qualified(_, q) => LinkImage(m, q, g);
    case _ =>
  }

  lemma {:induction false} ElementLinkImage(m: map<nat, nat>, es: seq<Value>, g: nat)
    requires g in ElementLinks(es) && g in m
    ensures m[g] in ElementLinks(RenameAll(m, es))
    decreases es
  {
    if g in Links(es[0]) {
      LinkImage(m, es[0], g);
    } else {
      ElementLinkImage(m, es[1..], g);
    }
    assert RenameAll(m, es)[1..] == RenameAll(m, es[1..]);
  }

  lemma {:induction false} SlotLinkImage(m: map<nat, nat>, slots: seq<Slot>, g: nat)
    requires g in SlotLinks(slots) && g in m
    ensures m[g] in SlotLinks(RenameSlots(m, slots))
  {
    if g in Links(slots[0].name) {
      LinkImage(m, slots[0].name, g);
    } else if g in Links(slots[0].value) {
      LinkImage(m, slots[0].value, g);
    } else {
      SlotLinkImage(m, slots[1..], g);
    }
    assert RenameSlots(m, slots)[1..] == RenameSlots(m, slots[1..]);
  }

  // ----- printing succeeds -----

  lemma {:induction false} Prints(h: Heap, v: Value, level: nat, indent: seq<byte>, p: Printer)
    requires TextGraph(h) && Plain(v, |h|)
    ensures Print(h, v, level, indent, p).Success?
    decreases Unprinted(h, p), v, 1
  {
    match v
    case Link(f) => FramePrints(h, f, level, indent, p);
    case List(es) => ElementsPrint(h, es, true, level, indent, p);
    case Qualified(_, q) => Prints(h, q, level + 1, indent, p);
    case _ =>
  }

  lemma {:induction false} ElementsPrint(h: Heap, es: seq<Value>, first: bool, level: nat, indent: seq<byte>,
                                         p: Printer)
    requires TextGraph(h) && forall i :: 0 <= i < |es| ==> Plain(es[i], |h|)
    ensures PrintElements(h, es, first, level, indent, p).Success?
    decreases Unprinted(h, p), es
  {
    if es != [] {
      Prints(h, es[0], level, indent, p);
      ElementsPrint(h, es[1..], false, level, indent, Print(h, es[0], level, indent, p).value.printer);
    }
  }

  lemma {:induction false} FramePrints(h: Heap, f: nat, level: nat, indent: seq<byte>, p: Printer)
    requires TextGraph(h) && f < |h|
    ensures PrintFrame(h, f, level, indent, p).Success?
    decreases Unprinted(h, p), Link(f), 0
  {
    if !h[f].state.Anonymous? {
      IdOf(h, f);
    }
    if !(level > 0 && !h[f].state.Anonymous?) && f !in p.refs {
      var p1 := Opening(f, h[f], p).value.printer;
      assert f in Unprinted(h, p) && f !in Unprinted(h, p1);
      assert Unprinted(h, p1) <= Unprinted(h, p);
      SlotsPrint(h, f, h[f].slots.value, true, level + 1, indent, p1);
    }
  }

  lemma {:induction false} SlotsPrint(h: Heap, f: nat, slots: seq<Slot>, first: bool, level: nat, indent: seq<byte>,
                                      p: Printer)
    requires TextGraph(h) && f < |h| && forall s :: s in slots ==> s in h[f].slots.value
    ensures PrintSlots(h, f, slots, first, level, indent, p).Success?
    decreases Unprinted(h, p), slots
  {
    if slots != [] {
      assert slots[0] in slots;
      SlotPrints(h, f, slots[0], level, indent, p);
      forall s | s in slots[1..] ensures s in h[f].slots.value {
        assert s in slots;
      }
      SlotsPrint(h, f, slots[1..], false, level, indent, PrintSlot(h, f, slots[0], level, indent, p).value.printer);
    }
  }

  lemma {:induction false} SlotPrints(h: Heap, f: nat, s: Slot, level: nat, indent: seq<byte>, p: Printer)
    requires TextGraph(h) && f < |h| && s in h[f].slots.value
    ensures PrintSlot(h, f, s, level, indent, p).Success?
    decreases Unprinted(h, p), s
  {
    if s.name != Link(ID) {
      if s.name != Link(ISA) && s.name != Link(IS) {
        Prints(h, s.name, level, indent, p);
        Prints(h, s.value, level, indent, Print(h, s.name, level, indent, p).value.printer);
      } else {
        Prints(h, s.value, level, indent, p);
      }
    }
  }

  // ----- how printed text starts -----

  // A token that starts an object.
  predicate Starts(k: Token) {
    !k.Bad? && !k.End? && (k.Mark? ==> k.sign == 123 || k.sign == 91)
  }

  // A token that starts a slot.
  predicate StartsSlot(k: Token) {
    !k.Bad? && !k.End? && (k.Mark? ==> k.sign == 123 || k.sign == 91 || k.sign == 61 || k.sign == 58 || k.sign == 43)
  }

  lemma LexReference(r: Printed, t: seq<byte>)
    requires Delimits(t)
    ensures Starts(Scan(ReferenceText(r) + t).token)
  {
    hide Scan;
    if r.Named? {
      LexSymbol(r.id, t);
    } else {
      LexIndex(r.index, t);
    }
  }

  // The opening bracket has been read; the index, if there is one, and then t come next.
  predicate Opened(k: Here, index: Option<nat>, t: seq<byte>) {
    && k.token == Mark(123)
    && if index.None? then Scan(k.rest) == Scan(t)
       else
         var sign := Scan(k.rest);
         sign.token == Mark(61) && var number := Scan(sign.rest); number.token == Token.Index(index.value)
                                                                  && Scan(number.rest) == Scan(t)
  }

  lemma LexOpening(f: nat, frame: Frame, p: Printer, t: seq<byte>)
    requires Opening(f, frame, p).Success?
    ensures Opened(Scan(Opening(f, frame, p).value.text + t), if frame.state.Anonymous? then Some(p.next) else None, t)
  {
    hide Scan;
    if frame.state.Anonymous? {
      var i := IndexText(p.next);
      SkipSpaces([32], t);
      LexIndex(p.next, [32] + t);
      LexMark(61, i + ([32] + t));
      LexMark(123, [61] + (i + ([32] + t)));
      assert [123, 61] + i + [32] + t == [123] + ([61] + (i + ([32] + t)));
    } else {
      LexMark(123, t);
    }
  }

  // The token of a value that has only one.
  function Atom(v: Value): Token {
    match v
    case Truth(b) => if b then True else False
    case Number(n) => Num(n)
    case Text(s) => Str(s)
    case _ => Nil
  }

  lemma LexAtom(v: Value, t: seq<byte>)
    requires Delimits(t) && (v.Null? || v.Truth? || v.Number? || v.Text?)
    ensures Print([], v, 0, [], Fresh()).Success?
    ensures Scan(Print([], v, 0, [], Fresh()).value.text + t) == Here(Atom(v), t)
  {
    hide Scan;
    match v
    case Null => LexWord(NIL_WORD, t);
    case Truth(b) => LexWord(if b then TRUE_WORD else FALSE_WORD, t);
    case Number(n) => LexNumber(n, t);
    case Text(s) => LexString(s, t);
  }

  // A text that starts with one that has been printed is that text and a rest.
  lemma Regroup(x: seq<byte>, n: nat, t: seq<byte>)
    requires n <= |x|
    ensures x + t == x[..n] + (x[n..] + t)
  {
  }

  lemma FrameStart(h: Heap, f: nat, level: nat, indent: seq<byte>, p: Printer, t: seq<byte>)
    requires PrintFrame(h, f, level, indent, p).Success? && Delimits(t) && f < |h|
    ensures Starts(Scan(PrintFrame(h, f, level, indent, p).value.text + t).token)
  {
    hide Scan, PrintSlots, Opening, Closing, ReferenceText, SymbolText;
    var x := PrintFrame(h, f, level, indent, p).value.text;
    if level > 0 && !h[f].state.Anonymous? {
      LexSymbol(FrameId(h[f]).value, t);
    } else if f in p.refs {
      LexReference(p.refs[f], t);
    } else {
      var o := Opening(f, h[f], p).value.text;
      assert x[..|o|] == o;
      Regroup(x, |o|, t);
      LexOpening(f, h[f], p, x[|o|..] + t);
    }
  }

  lemma ListFirst(h: Heap, es: seq<Value>, level: nat, indent: seq<byte>, p: Printer, t: seq<byte>)
    requires Print(h, List(es), level, indent, p).Success?
    ensures Scan(Print(h, List(es), level, indent, p).value.text + t).token == Mark(91)
  {
    hide Scan, PrintElements;
    var x := Print(h, List(es), level, indent, p).value.text;
    assert x[..1] == [91];
    Regroup(x, 1, t);
    LexMark(91, x[1..] + t);
  }

  lemma QualifiedFirst(h: Heap, s: seq<byte>, q: Value, level: nat, indent: seq<byte>, p: Printer, t: seq<byte>)
    requires Print(h, Qualified(s, q), level, indent, p).Success? && t != []
    ensures Scan(Print(h, Qualified(s, q), level, indent, p).value.text + t).token == Str(s)
  {
    hide Scan, PrintFrame, PrintElements, Quote;
    var x := Print(h, Qualified(s, q), level, indent, p).value.text;
    var n := |Quote(s)|;
    assert x[..n] == Quote(s);
    Regroup(x, n, t);
    LexString(s, x[n..] + t);
  }

  lemma ValueStart(h: Heap, v: Value, level: nat, indent: seq<byte>, p: Printer, t: seq<byte>)
    requires Print(h, v, level, indent, p).Success? && Delimits(t) && Plain(v, |h|)
    ensures Starts(Scan(Print(h, v, level, indent, p).value.text + t).token)
  {
    hide Scan, PrintFrame, PrintElements, Quote, NumberText;
    match v
    case List(es) => ListFirst(h, es, level, indent, p, t);
    case Qualified(s, q) => QualifiedFirst(h, s, q, level, indent, p, t);
    case Link(f) => FrameStart(h, f, level, indent, p, t);
    case _ => LexAtom(v, t);
  }

  lemma SlotStart(h: Heap, f: nat, s: Slot, level: nat, indent: seq<byte>, p: Printer, t: seq<byte>)
    requires PrintSlot(h, f, s, level, indent, p).Success? && Delimits(t) && Plain(s.name, |h|)
    ensures StartsSlot(Scan(PrintSlot(h, f, s, level, indent, p).value.text + t).token)
  {
    hide Scan, Print;
    var x := PrintSlot(h, f, s, level, indent, p).value.text;
    if s.name == Link(ID) || s.name == Link(ISA) || s.name == Link(IS) {
      assert x[..1] == [x[0]];
      Regroup(x, 1, t);
      LexMark(x[0], x[1..] + t);
    } else {
      var n := |Print(h, s.name, level, indent, p).value.text|;
      assert x[..n] == Print(h, s.name, level, indent, p).value.text && x[n] == 58;
      Regroup(x, n, t);
      ValueStart(h, s.name, level, indent, p, x[n..] + t);
    }
  }

  lemma {:induction false} RepeatSpaces(indent: seq<byte>, n: nat)
    requires forall i :: 0 <= i < |indent| ==> IsSpace(indent[i])
    ensures forall i :: 0 <= i < |Repeat(indent, n)| ==> IsSpace(Repeat(indent, n)[i])
  {
    if n > 0 {
      RepeatSpaces(indent, n - 1);
    }
  }

  // White space between slots is skipped.
  lemma LexLine(indent: seq<byte>, level: nat, t: seq<byte>)
    requires forall i :: 0 <= i < |indent| ==> IsSpace(indent[i])
    ensures Scan(Line(indent, level) + t) == Scan(t)
    ensures Delimits(t) || indent != [] ==> Delimits(Line(indent, level) + t)
  {
    hide Scan;
    RepeatSpaces(indent, level);
    SkipSpaces(Line(indent, level), t);
    if indent == [] {
      assert Line(indent, level) + t == t;
    }
  }

  lemma LexClosing(indent: seq<byte>, level: nat, t: seq<byte>)
    requires forall i :: 0 <= i < |indent| ==> IsSpace(indent[i])
    ensures Scan(Closing(level, indent) + t) == Here(Mark(125), t)
    ensures Delimits(Closing(level, indent) + t)
  {
    hide Scan;
    LexMark(125, t);
    LexLine(indent, level, [125] + t);
    assert Closing(level, indent) + t == Line(indent, level) + ([125] + t);
  }

  // The text of the slots after the first, up to the end of the frame and beyond.
  function Tail(h: Heap, f: nat, slots: seq<Slot>, first: bool, level: nat, indent: seq<byte>, p: Printer,
                t: seq<byte>): seq<byte>
    requires PrintSlots(h, f, slots, first, level, indent, p).Success? && level > 0
  {
    PrintSlots(h, f, slots, first, level, indent, p).value.text + (Closing(level - 1, indent) + t)
  }

  // The text of a slot, and what comes after it.
  lemma TailSplits(h: Heap, f: nat, slots: seq<Slot>, first: bool, level: nat, indent: seq<byte>, p: Printer,
                   t: seq<byte>)
    requires PrintSlots(h, f, slots, first, level, indent, p).Success? && level > 0 && slots != []
    ensures PrintSlot(h, f, slots[0], level, indent, p).Success?
    ensures var one := PrintSlot(h, f, slots[0], level, indent, p).value;
            && PrintSlots(h, f, slots[1..], false, level, indent, one.printer).Success?
            && PrintSlots(h, f, slots, first, level, indent, p).value.printer ==
               PrintSlots(h, f, slots[1..], false, level, indent, one.printer).value.printer
            && Tail(h, f, slots, first, level, indent, p, t) ==
                 SlotSpace(first, level, indent) +
                 (one.text + Tail(h, f, slots[1..], false, level, indent, one.printer, t))
  {
  }

  lemma TailDelimits(h: Heap, f: nat, slots: seq<Slot>, level: nat, indent: seq<byte>, p: Printer, t: seq<byte>)
    requires PrintSlots(h, f, slots, false, level, indent, p).Success? && level > 0
    requires forall i :: 0 <= i < |indent| ==> IsSpace(indent[i])
    ensures Delimits(Tail(h, f, slots, false, level, indent, p, t))
  {
    if slots == [] {
      LexClosing(indent, level - 1, t);
      assert [] + (Closing(level - 1, indent) + t) == Closing(level - 1, indent) + t;
    } else {
      TailSplits(h, f, slots, false, level, indent, p, t);
      assert SlotSpace(false, level, indent)[0] in {10, 32};
    }
  }

  lemma TailStart(h: Heap, f: nat, slots: seq<Slot>, first: bool, level: nat, indent: seq<byte>, p: Printer,
                  t: seq<byte>)
    requires PrintSlots(h, f, slots, first, level, indent, p).Success? && level > 0
    requires forall i :: 0 <= i < |indent| ==> IsSpace(indent[i])
    requires forall s :: s in slots ==> Plain(s.name, |h|)
    ensures var k := Scan(Tail(h, f, slots, first, level, indent, p, t)).token;
            if slots == [] then k == Mark(125) else StartsSlot(k)
  {
    hide Scan;
    if slots == [] {
      LexClosing(indent, level - 1, t);
      assert [] + (Closing(level - 1, indent) + t) == Closing(level - 1, indent) + t;
    } else {
      TailSplits(h, f, slots, first, level, indent, p, t);
      var one := PrintSlot(h, f, slots[0], level, indent, p).value;
      var tail := Tail(h, f, slots[1..], false, level, indent, one.printer, t);
      TailDelimits(h, f, slots[1..], level, indent, one.printer, t);
      SlotStart(h, f, slots[0], level, indent, p, tail);
      LexSpace(first, level, indent, one.text + tail);
    }
  }

  lemma LexSpace(first: bool, level: nat, indent: seq<byte>, t: seq<byte>)
    requires forall i :: 0 <= i < |indent| ==> IsSpace(indent[i])
    ensures Scan(SlotSpace(first, level, indent) + t) == Scan(t)
  {
    hide Scan;
    RepeatSpaces(indent, level);
    SkipSpaces(SlotSpace(first, level, indent), t);
  }

  lemma LexGap(indent: seq<byte>, t: seq<byte>)
    ensures Scan(Gap(indent) + t) == Scan(t)
  {
    hide Scan;
    SkipSpaces(Gap(indent), t);
  }
}
