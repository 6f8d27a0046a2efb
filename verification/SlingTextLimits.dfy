/**
  Where the text form loses something (app/lib/frame.js:1081-1087, 1213-1224, 1268-1306, 1483-1491): names that are
  keywords, strings at the end of the input, and strings qualified by something that counts as false.
 */
module SlingTextLimits {
  import opened Common
  import opened SlingVarint
  import opened SlingGraph
  import opened SlingLexis
  import opened SlingText
  import opened SlingTextTrip

  /** A symbol is read as a link to the frame with that id if and only if the id is not a keyword. */
  lemma SymbolExact(id: seq<byte>, t: seq<byte>, s: Shelf)
    requires Delimits(t) && !Scan(t).token.Bad?
    ensures Parse(Scan(SymbolText(id) + t), s) == Success(Parsed(Link(Find(s, id).1), Scan(t), Find(s, id).0)) <==>
            !Keyword(id)
  {
    hide Scan, SymbolText;
    LexSymbol(id, t);
    if Keyword(id) {
      KeywordIsName(id);
    } else {
      WordIsSymbol(id);
      ParseSymbol(id, t, s);
    }
  }

  lemma KeywordIsName(id: seq<byte>)
    requires Keyword(id)
    ensures PlainName(id) && !WordToken(id).Symbol?
  {
  }

  /** No text that is one string can be read. */
  lemma StringRootLost(h: Heap, s: seq<byte>, indent: seq<byte>)
    ensures PrintText(h, Text(s), indent).Success? && ReadText(PrintText(h, Text(s), indent).value.text).Failure?
  {
    hide Scan, Quote;
    StringAtEnd(s);
  }

  /** A qualifier is printed if and only if it does not count as false. */
  lemma QualifierExact(h: Heap, s: seq<byte>, q: Value, indent: seq<byte>)
    requires PrintText(h, Qualified(s, q), indent).Success?
    ensures PrintText(h, Qualified(s, q), indent).value.text == PrintText(h, Text(s), indent).value.text <==> Falsy(q)
  {
    hide Quote;
    if !Falsy(q) {
      var inner := Print(h, q, 1, indent, Fresh()).value.text;
      assert PrintText(h, Qualified(s, q), indent).value.text == Quote(s) + [64] + inner;
      assert |Quote(s) + [64] + inner| > |Quote(s)|;
    }
  }
}
