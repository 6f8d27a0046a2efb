/**
  Annotations in LEX (app/lib/document.js:168-202, 408-419): what the printer writes between the bar and the closing
  bracket of a mention is read back as the same frame, and the store goes on with what the text form keeps.
 */
module LexTags {
  import opened Common
  import opened SlingGraph
  import opened SlingLexis
  import opened SlingText
  import opened SlingTextGraph
  import opened SlingTextTrip
  import opened LexEscape
  import opened Lex
  import opened LexRoundTrip

  // Between annotations nothing is half printed, and only annotations are printed in full.
  ghost predicate AtRest(c: Setting, x: Point) {
    && Legal(c) && Sound(c, x) && c.indent == []
    && (c.good ==> forall f :: f in x.p.refs ==> f in x.m)
    && forall r :: r in c.roots ==> r < |c.h| && c.h[r].state.Anonymous?
  }

  // A frame that may be an annotation here.
  predicate Tags(c: Setting, v: Value) {
    Taggable(c.h, v) && (c.h[v.frame].state.Anonymous? ==> v.frame in c.roots)
  }

  function Bound(c: Setting, f: nat): nat {
    if f in c.rank then c.rank[f] + 1 else 0
  }

  lemma RestReady(c: Setting, f: nat, x: Point)
    requires AtRest(c, x) && Tags(c, Link(f))
    ensures Ready(c, x, Bound(c, f)) && Low(c, {f}, Bound(c, f)) && c.indent == []
  {
    hide Steady, Tracks, TextGraph;
  }

  lemma RestAgain(c: Setting, x: Point, y: Point)
    requires AtRest(c, x) && Step(c, x, y)
    ensures AtRest(c, y)
  {
    hide Steady, Tracks, TextGraph;
  }

  lemma CloseComes(rest: seq<byte>)
    ensures var t := [CLOSE] + rest; Scan(t) == Here(Mark(CLOSE), rest) && After(t) && Delimits(t)
  {
    LexMark(CLOSE, rest);
  }

  // One annotation up to the closing bracket.
  lemma OneNote(t: seq<byte>, s: Shelf, r: Parsed, rest: seq<byte>)
    requires Parse(Scan(t), s) == Success(r) && r.here == Here(Mark(CLOSE), rest)
    ensures ReadAnnotations(t, s) == Some(Notes([r.value], rest, r.shelf))
  {
    hide Parse, Scan;
    BadIsNone(Scan(t), s);
  }

  /** An annotation is read back. */
  lemma ReadTag(c: Setting, f: nat, rest: seq<byte>, x: Point) returns (y: Point, w: Value)
    requires AtRest(c, x) && Tags(c, Link(f))
    ensures var o := Tag(c.h, f, x.p);
            o.Success? && y.p == o.value.printer
            && ReadAnnotations(o.value.text + ([CLOSE] + rest), x.s) == Some(Notes([w], rest, y.s))
    ensures Step(c, x, y) && AtRest(c, y) && GoodValue(c, y, Link(f), w) && w.Link?
    ensures c.h[f].state.Anonymous? ==> f in y.p.refs
  {
    hide Scan, Parse, PrintFrame, TextGraph, Sound, Step, Open, Low, ReadAnnotations, GoodValue, IsSymbol, After,
         AtRest;
    var t, b := [CLOSE] + rest, Bound(c, f);
    CloseComes(rest);
    RestReady(c, f, x);
    var o: Page, r: Parsed;
    if c.h[f].state.Anonymous? {
      y, o, r := ReadAnonymous(c, f, t, x, b);
    } else {
      y, o, r := ReadPublic(c, f, t, x, b);
    }
    w := r.value;
    OneNote(o.text + t, x.s, r, rest);
    RestAgain(c, x, y);
  }

  lemma ReadPublic(c: Setting, f: nat, t: seq<byte>, x: Point, b: nat) returns (y: Point, o: Page, r: Parsed)
    requires Ready(c, x, b) && Low(c, {f}, b) && Tags(c, Link(f)) && !c.h[f].state.Anonymous? && After(t)
    ensures Tag(c.h, f, x.p) == Success(o) && y.p == o.printer
    ensures Parse(Scan(o.text + t), x.s) == Success(r) && r.here == Scan(t) && r.shelf == y.s && r.value.Link?
    ensures GoodValue(c, y, Link(f), r.value) && Step(c, x, y)
  {
    hide Scan, Parse, TextGraph, Sound, Step, Open, Low, GoodValue, Keyword;
    var id := FrameId(c.h[f]).value;
    o := Page(id, x.p);
    LexWord(id, t);
    WordIsSymbol(id);
    y := ReadLink(c, f, t, x, b);
    ParseSymbol(id, t, x.s);
    r := Parse(Scan(id + t), x.s).value;
  }

  lemma ReadAnonymous(c: Setting, f: nat, t: seq<byte>, x: Point, b: nat) returns (y: Point, o: Page, r: Parsed)
    requires Ready(c, x, b) && Low(c, {f}, b) && Tags(c, Link(f)) && c.h[f].state.Anonymous? && After(t)
    requires c.indent == []
    ensures Tag(c.h, f, x.p) == Success(o) && y.p == o.printer
    ensures Parse(Scan(o.text + t), x.s) == Success(r) && r.here == Scan(t) && r.shelf == y.s && r.value.Link?
    ensures GoodValue(c, y, Link(f), r.value) && Step(c, x, y) && f in y.p.refs
  {
    hide Scan, Parse, PrintFrame, TextGraph, Sound, Step, Open, Low, GoodValue, Opening;
    FramePrints(c.h, f, 0, [], x.p);
    o := PrintFrame(c.h, f, 0, [], x.p).value;
    if f in x.p.refs {
      PrintsReference(c.h, f, x.p);
      y := ReadIndex(c, f, t, x, b);
      Indexed(c, f, x);
      LexIndex(x.p.refs[f].index, t);
      ParseIndex(x.p.refs[f].index, t, x.s);
    } else {
      y := ReadFrame(c, f, 0, t, x, b);
    }
    r := Parse(Scan(o.text + t), x.s).value;
  }

  lemma PrintsReference(h: Heap, f: nat, p: Printer)
    requires f < |h| && f in p.refs
    ensures PrintFrame(h, f, 0, [], p) == Success(Page(ReferenceText(p.refs[f]), p))
  {
  }

  // ----- ids are written as they are -----

  lemma {:induction false} UnescapeShrinks(t: seq<byte>)
    ensures SlingLexis.Unescape(t).Some? ==> |SlingLexis.Unescape(t).value| <= |t|
    decreases |t|
  {
    if t != [] && UnescapeChar(t).Some? {
      UnescapeShrinks(t[UnescapeChar(t).value.1..]);
    }
  }

  lemma {:induction false} NameBytes(t: seq<byte>)
    ensures forall i :: 0 <= i < NameLength(t) ==> IsName(t[i])
  {
    if t != [] && IsName(t[0]) {
      NameBytes(t[1..]);
      assert forall i :: 0 < i < |t| ==> t[i] == t[1..][i - 1];
    }
  }

  // A quoted symbol is longer than its name.
  lemma QuotedLonger(t: seq<byte>)
    requires t != [] && t[0] == 36
    ensures var k := FirstToken(t); k.token.Symbol? ==> |k.token.name| + |k.rest| < |t|
  {
    hide SlingLexis.Unescape, LiteralLength;
    if |t| > 1 {
      var u := t[1..][1..];
      UnescapeShrinks(u[..LiteralLength(u)]);
    }
  }

  // A symbol that takes as many characters as its name has is written as it is.
  lemma {:induction false} WrittenAsIs(t: seq<byte>)
    ensures var k := Scan(t);
            k.token.Symbol? ==> |k.token.name| + |k.rest| <= |t| &&
                                (|k.token.name| + |k.rest| == |t| ==> IsSymbol(k.token.name))
    decreases |t|
  {
    hide StringToken;
    if t != [] {
      if IsSpace(t[0]) {
        WrittenAsIs(t[1..]);
      } else if t[0] == 59 {
        WrittenAsIs(t[1 + CommentLength(t[1..])..]);
      } else if t[0] == 36 {
        QuotedLonger(t);
      } else if FirstToken(t).token.Symbol? {
        NameBytes(t);
        assert FirstToken(t) == NameToken(t);
      }
    }
  }

  /** An id in an annotation is read as a symbol of that name if and only if it is one as it is: other ids, for
      example with a space, would have to be quoted. */
  lemma IdExact(id: seq<byte>, rest: seq<byte>)
    ensures Scan(id + ([CLOSE] + rest)) == Here(Symbol(id), [CLOSE] + rest) <==> IsSymbol(id)
  {
    hide Scan, Keyword;
    var t := [CLOSE] + rest;
    CloseComes(rest);
    if IsSymbol(id) {
      LexWord(id, t);
      WordIsSymbol(id);
    } else {
      WrittenAsIs(id + t);
    }
  }
}
