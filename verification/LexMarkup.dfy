/**
  What edited documents are made of (app/lib/document.js:42-80): the text that each kind of element adds, and the
  white space that is trimmed, by the code points of section 12.2 of ECMA-262.
 */
module LexMarkup {
  import opened Common
  import opened SlingGraph
  import opened SlingWords
  import opened LexEscape
  import opened Lex
  import opened LexDom

  // ----- elements -----

  /** Spans leave no trace; paragraphs start on a new line and lose the white space at their end; divisions become
      paragraphs with a new line behind them; other elements keep their tags. */
  lemma ElementText(tag: seq<byte>, children: seq<Dom>, notes: Annotations, d: Document)
    ensures var r := Traverse(Element(tag, children), notes, d);
            if tag == Bytes("span") then r == TraverseAll(children, notes, d)
            else if tag == Bytes("p") then
              var line := if d.text != [] && d.text[|d.text| - 1] == '\n' as int then [] else Bytes("\n");
              var inner := TraverseAll(children, notes, d.(text := d.text + line + Bytes("<p>")));
              r == inner.(text := TrimEnd(inner.text) + Bytes("</p>"))
            else if tag == Bytes("div") then
              var inner := TraverseAll(children, notes, d.(text := d.text + Bytes("<p>")));
              r == inner.(text := inner.text + (Bytes("</p>") + Bytes("\n")))
            else
              var inner := TraverseAll(children, notes, d.(text := d.text + (Bytes("<") + tag + Bytes(">"))));
              r == inner.(text := inner.text + (Bytes("</") + tag + Bytes(">")))
  {
    hide TraverseAll, TrimEnd;
    Tags();
    if tag == P {
      if d.text == [] || d.text[|d.text| - 1] != NEWLINE {
        assert d.text + [NEWLINE] + OpenTag(P) == d.text + Bytes("\n") + Bytes("<p>");
      } else {
        assert d.text + [] == d.text;
      }
    } else if tag == DIV {
      var inner := TraverseAll(children, notes, d.(text := d.text + OpenTag(P))).text;
      assert inner + CloseTag(P) + [NEWLINE] == inner + (Bytes("</p>") + Bytes("\n"));
    }
  }

  lemma Tags()
    ensures SPAN == Bytes("span") && P == Bytes("p") && DIV == Bytes("div") && [NEWLINE] == Bytes("\n")
    ensures OpenTag(P) == Bytes("<p>") && CloseTag(P) == Bytes("</p>")
    ensures forall tag :: OpenTag(tag) == Bytes("<") + tag + Bytes(">")
    ensures forall tag :: CloseTag(tag) == Bytes("</") + tag + Bytes(">")
  {
    assert Bytes("</") == [60, 47] && Bytes("<") == [60] && Bytes(">") == [62];
  }

  /** Text is escaped; a mention covers what its parts add, comes after the mentions in them, and keeps its annotation.
      */
  lemma MentionText(v: seq<byte>, i: nat, children: seq<Dom>, notes: Annotations, d: Document)
    ensures Traverse(TextNode(v), notes, d) == Document(d.text + Escape(v), d.mentions)
    ensures var inner := TraverseAll(children, notes, d);
            Traverse(MentionNode(i, children), notes, d) ==
            Document(inner.text, inner.mentions + [Mention(|d.text|, |inner.text|, notes(i))])
  {
    hide TraverseAll, Escape;
  }

  // ----- white space -----

  // The bytes of a code point below 2^16; section 3 of RFC 3629.
  function Utf8(code: nat): seq<byte>
    requires code < 0x1_0000
  {
    if code < 0x80 then [code]
    else if code < 0x800 then [192 + code / 64, 128 + code % 64]
    else [224 + code / 4096, 128 + code / 64 % 64, 128 + code % 64]
  }

  // White space and ends of lines in JavaScript.
  predicate IsBlank(code: nat) {
    || 0x9 <= code <= 0xD || code == 0x20 || code == 0xA0 || code == 0x1680 || 0x2000 <= code <= 0x200A
    || code == 0x2028 || code == 0x2029 || code == 0x202F || code == 0x205F || code == 0x3000 || code == 0xFEFF
  }

  /** What is taken for white space at the end of a text is exactly such a code point. */
  lemma SpaceExact(t: seq<byte>, code: nat)
    requires code < 0x1_0000
    ensures LastSpace(t + Utf8(code)) == if IsBlank(code) then |Utf8(code)| else 0
  {
    if code < 0x80 {
      Narrow(t, code);
    } else if code < 0x800 {
      Medium(t, code);
    } else {
      Wide(t, code);
    }
  }

  lemma Narrow(t: seq<byte>, code: nat)
    requires code < 0x80
    ensures LastSpace(t + [code]) == if 9 <= code <= 13 || code == 32 then 1 else 0
  {
  }

  lemma Medium(t: seq<byte>, code: nat)
    requires 0x80 <= code < 0x800
    ensures LastSpace(t + Utf8(code)) == if code == 0xA0 then 2 else 0
  {
    var s, n := t + Utf8(code), |t| + 2;
    assert s[n - 2] == 192 + code / 64 >= 194 && s[n - 1] == 128 + code % 64;
  }

  lemma Wide(t: seq<byte>, code: nat)
    requires 0x800 <= code < 0x1_0000
    ensures LastSpace(t + Utf8(code)) == if IsBlank(code) then 3 else 0
  {
    var s, n := t + Utf8(code), |t| + 3;
    var a, b, c := code / 4096, code / 64 % 64, code % 64;
    assert s[n - 3] == 224 + a && s[n - 2] == 128 + b && s[n - 1] == 128 + c;
    assert code == 4096 * a + 64 * b + c;
  }

  /** Trimming removes white space from the end, code point by code point, until there is none. */
  lemma {:induction false} Trimmed(t: seq<byte>, code: nat)
    requires code < 0x1_0000
    ensures IsBlank(code) ==> TrimEnd(t + Utf8(code)) == TrimEnd(t)
    ensures !IsBlank(code) ==> TrimEnd(t + Utf8(code)) == t + Utf8(code)
  {
    SpaceExact(t, code);
    var s := t + Utf8(code);
    assert s[..|s| - |Utf8(code)|] == t;
  }
}
