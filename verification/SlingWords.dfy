/**
  The spelling of the text form (app/lib/frame.js:1081-1087, 1178-1236, 1309-1353, 1459-1607; section 7 of RFC 8259),
  given by strings of characters: the words, the marks of slots, lists and frames, and whole texts.
 */
module SlingWords {
  import opened Common
  import opened SlingVarint
  import opened SlingGraph
  import opened SlingLexis
  import opened SlingText
  import opened SlingTextGraph
  import opened SlingTextTrip
  import opened SlingTextIso

  // The bytes of a string of ASCII characters; others are cut to seven bits.
  function Bytes(s: string): (r: seq<byte>)
    ensures |r| == |s|
  {
    seq(|s|, i requires 0 <= i < |s| => s[i] as int % 128)
  }

  // ----- words -----

  /** Truth values and nil are printed as these words, wherever they stand. */
  lemma WordsPrinted(h: Heap, level: nat, indent: seq<byte>, p: Printer)
    ensures Print(h, Truth(true), level, indent, p) == Success(Page(Bytes("true"), p))
    ensures Print(h, Truth(false), level, indent, p) == Success(Page(Bytes("false"), p))
    ensures Print(h, Null, level, indent, p) == Print(h, Undefined, level, indent, p) == Success(Page(Bytes("nil"), p))
  {
    assert Bytes("true") == TRUE_WORD && Bytes("false") == FALSE_WORD && Bytes("nil") == NIL_WORD;
  }

  /** Texts of one word are read as the values they stand for; null is another word for nil. */
  lemma WordsRead(word: string)
    requires word == "true" || word == "false" || word == "nil" || word == "null"
    ensures word == "true" ==> ReadText(Bytes(word)) == Success((Truth(true), EmptyShelf()))
    ensures word == "false" ==> ReadText(Bytes(word)) == Success((Truth(false), EmptyShelf()))
    ensures word == "nil" || word == "null" ==> ReadText(Bytes(word)) == Success((Null, EmptyShelf()))
  {
    hide EmptyShelf, ReadText, Bytes, IsName, WordToken;
    var v := if word == "true" then Truth(true) else if word == "false" then Truth(false) else Null;
    WordFacts(word, v);
    WordRead(Bytes(word), v);
  }

  lemma WordFacts(word: string, v: Value)
    requires word == "true" || word == "false" || word == "nil" || word == "null"
    requires v == if word == "true" then Truth(true) else if word == "false" then Truth(false) else Null
    ensures var w := Bytes(word);
            && w != [] && IsLetter(w[0]) && (forall i :: 0 <= i < |w| ==> IsName(w[i]))
            && match WordToken(w) case True => v == Truth(true) case False => v == Truth(false) case Nil => v == Null
                                  case _ => false
  {
    assert Bytes("true") == TRUE_WORD && Bytes("false") == FALSE_WORD && Bytes("nil") == NIL_WORD;
    assert Bytes("null") == NULL_WORD;
  }

  lemma WordRead(w: seq<byte>, v: Value)
    requires w != [] && IsLetter(w[0]) && forall i :: 0 <= i < |w| ==> IsName(w[i])
    requires match WordToken(w) case True => v == Truth(true) case False => v == Truth(false) case Nil => v == Null
                                case _ => false
    ensures ReadText(w) == Success((v, EmptyShelf()))
  {
    hide EmptyShelf;
    WordAlone(w);
    assert Scan(w) == Here(WordToken(w), []);
    assert Scan([]) == Here(End, []);
  }

  lemma WordAlone(w: seq<byte>)
    requires w != [] && IsLetter(w[0]) && forall i :: 0 <= i < |w| ==> IsName(w[i])
    ensures Scan(w) == Here(WordToken(w), [])
  {
    hide WordToken;
    NamesOnly(w);
    assert w[..|w|] == w && w[|w|..] == [];
  }

  lemma {:induction false} NamesOnly(w: seq<byte>)
    requires forall i :: 0 <= i < |w| ==> IsName(w[i])
    ensures NameLength(w) == |w|
  {
    if w != [] {
      NamesOnly(w[1..]);
    }
  }

  /** These are the only words with such a meaning: every other name is a symbol. */
  lemma NamesAreSymbols(w: seq<byte>)
    requires w !in {Bytes("true"), Bytes("false"), Bytes("nil"), Bytes("null")}
    ensures WordToken(w) == Symbol(w)
  {
    assert Bytes("true") == TRUE_WORD && Bytes("false") == FALSE_WORD && Bytes("nil") == NIL_WORD;
    assert Bytes("null") == NULL_WORD;
  }

  /** What counts as false in JavaScript: undefined, null, false, zero and the empty string. */
  lemma FalseValues(v: Value)
    ensures Falsy(v) <==>
            match v
            case Undefined => true
            case Null => true
            case Truth(b) => !b
            case Number(n) => n == 0
            case Text(s) => |s| == 0
            case _ => false
  {
  }

  // ----- marks -----

  /** The mark of a slot: an equals sign before an id, a colon before a type, a plus sign before an included frame;
      other slots have a colon between name and value, followed by a space in the indented layout. */
  lemma SlotsPrinted(h: Heap, f: nat, s: Slot, level: nat, indent: seq<byte>, p: Printer)
    requires PrintSlot(h, f, s, level, indent, p).Success?
    ensures var text := PrintSlot(h, f, s, level, indent, p).value.text;
            if s.name == Link(ID) then s.value.Text? && text == Bytes("=") + SymbolText(s.value.utf8)
            else if s.name == Link(ISA) || s.name == Link(IS) then
              && Print(h, s.value, level, indent, p).Success?
              && text == Bytes(if s.name == Link(ISA) then ":" else "+") +
                 Print(h, s.value, level, indent, p).value.text
            else
              var name := Print(h, s.name, level, indent, p);
              && name.Success? && Print(h, s.value, level, indent, name.value.printer).Success?
              && text == name.value.text + Bytes(if indent == [] then ":" else ": ") +
                         Print(h, s.value, level, indent, name.value.printer).value.text
  {
    hide Print;
    Marks();
    if s.name != Link(ID) && s.name != Link(ISA) && s.name != Link(IS) {
      var name := Print(h, s.name, level, indent, p).value;
      var value := Print(h, s.value, level, indent, name.printer).value;
      assert name.text + [58] + Gap(indent) + value.text == name.text + ([58] + Gap(indent)) + value.text;
      assert [58] + Gap(indent) == Bytes(if indent == [] then ":" else ": ");
    }
  }

  lemma Marks()
    ensures Bytes("=") == [61] && Bytes(":") == [58] && Bytes("+") == [43] && Bytes(": ") == [58, 32]
    ensures Bytes("[") == [91] && Bytes("]") == [93] && Bytes("{") == [123] && Bytes("}") == [125]
    ensures Bytes(",") == [44] && Bytes(", ") == [44, 32] && Bytes("@") == [64] && Bytes("#") == [35]
    ensures Bytes("{=#") == [123, 61, 35] && Bytes(" ") == [32]
  {
  }

  /** How the reader takes the marks: the slot after a colon is a type, after a plus sign an included frame, after an
      equals sign an id; any other slot is a name, a colon and a value. */
  lemma SlotsRead(k: Here, got: Slots)
    requires ParseSlot(k, got).Success?
    ensures var slots := ParseSlot(k, got).value.slots;
            if k.token == Mark('=' as int) then
              var id := Scan(k.rest).token;
              slots == got.slots + (if id.Symbol? then [Slot(Link(ID), Text(id.name))] else [])
              && (id.Symbol? || id.Index?)
            else if k.token == Mark(':' as int) || k.token == Mark('+' as int) then
              var v := Parse(Scan(k.rest), got.shelf);
              v.Success? && slots == got.slots +
              [Slot(Link(if k.token == Mark(':' as int) then ISA else IS), v.value.value)]
            else
              var name := Parse(k, got.shelf);
              && name.Success? && name.value.here.token == Mark(':' as int)
              && var v := Parse(Scan(name.value.here.rest), name.value.shelf);
                 v.Success? && slots == got.slots + [Slot(name.value.value, v.value.value)]
  {
    hide Parse, Scan;
  }

  // ----- characters -----

  /** The characters of the format: white space, marks, and the characters of names. */
  lemma Characters(c: byte)
    ensures IsSpace(c) <==> c in Bytes(" \t\r\n")
    ensures IsMark(c) <==> c in Bytes(":+,=[]{}@")
    ensures IsName(c) <==> c >= 128 || '0' as int <= c <= '9' as int || 'A' as int <= c <= 'Z' as int ||
                           'a' as int <= c <= 'z' as int || c in Bytes("_/-")
  {
    assert Bytes(" \t\r\n") == [32, 9, 13, 10];
    assert Bytes(":+,=[]{}@") == [58, 43, 44, 61, 91, 93, 123, 125, 64];
    assert Bytes("_/-") == [95, 47, 45];
  }

  /** A mark is a token by itself. */
  lemma MarkRead(c: byte, t: seq<byte>)
    requires c in Bytes(":+,=[]{}@")
    ensures Scan([c] + t) == Here(Mark(c), t)
  {
    Characters(c);
    LexMark(c, t);
  }

  /** Numbers are printed in decimal notation. */
  lemma {:induction false} NumbersPrinted(n: nat)
    ensures DigitBytes(n) == Bytes(Decimal(n))
    ensures NumberText(n) == Bytes(Decimal(n)) && (n > 0 ==> NumberText(-(n as int)) == Bytes("-") + Bytes(Decimal(n)))
  {
    hide Decimal, DigitBytes, Bytes;
    DecimalStep(n);
    if n >= 10 {
      NumbersPrinted(n / 10);
    }
    assert Bytes("-") == [45] by {
      Minus();
    }
  }

  lemma Minus()
    ensures Bytes("-") == [45]
  {
  }

  lemma DecimalStep(n: nat)
    ensures n < 10 ==> DigitBytes(n) == Bytes(Decimal(n))
    ensures n >= 10 && DigitBytes(n / 10) == Bytes(Decimal(n / 10)) ==> DigitBytes(n) == Bytes(Decimal(n))
  {
    Digits();
  }

  lemma Digits()
    ensures forall d: nat | d < 10 :: Common.Digit(d) as int == 48 + d
  {
  }

  /** How characters are quoted: quotes and backslashes behind a backslash, control characters by their letters or by
      four hexadecimal digits, and everything else as it is. */
  lemma QuotedCharacter(c: byte)
    ensures c == '"' as int || c == '\\' as int ==> EscapeChar(c) == Bytes("\\") + [c]
    ensures c in {8, 9, 10, 12, 13} ==>
              EscapeChar(c) == Bytes("\\") + Bytes(if c == 8 then "b" else if c == 9 then "t" else if c == 10 then "n"
                                                   else if c == 12 then "f" else "r")
    ensures c < 32 && c !in {8, 9, 10, 12, 13} ==>
              EscapeChar(c) == Bytes("\\u00") + [HexDigit(c / 16), HexDigit(c % 16)]
    ensures c >= 32 && c != '"' as int && c != '\\' as int ==> EscapeChar(c) == [c]
  {
    hide HexDigit;
    assert Bytes("\\u00") == [92, 117, 48, 48] && Bytes("\\") == [92];
    assert Bytes("b") == [98] && Bytes("t") == [116] && Bytes("n") == [110] && Bytes("f") == [102]
           && Bytes("r") == [114];
  }

  lemma HexDigits(n: nat)
    requires n < 16
    ensures HexDigit(n) == Bytes("0123456789abcdef")[n]
    ensures HexValue(Bytes("0123456789abcdef")[n]) == HexValue(Bytes("0123456789ABCDEF")[n]) == Some(n)
  {
    assert Bytes("0123456789abcdef") == [48, 49, 50, 51, 52, 53, 54, 55, 56, 57, 97, 98, 99, 100, 101, 102];
    assert Bytes("0123456789ABCDEF") == [48, 49, 50, 51, 52, 53, 54, 55, 56, 57, 65, 66, 67, 68, 69, 70];
  }

  /** The escapes that are read: a character behind a backslash, and two hexadecimal digits of either case behind a
      backslash and u00, below 128; a bare quote or control character is no part of a string. */
  lemma UnquotedCharacter(c: byte, t: seq<byte>)
    ensures var r := UnescapeChar([92, c] + t);
            (c in Bytes("\"\\/") ==> r == Some((c, 2)))
            && (c == 'b' as int ==> r == Some((8, 2))) && (c == 't' as int ==> r == Some((9, 2)))
            && (c == 'n' as int ==> r == Some((10, 2))) && (c == 'f' as int ==> r == Some((12, 2)))
            && (c == 'r' as int ==> r == Some((13, 2))) && (c !in Bytes("\"\\/btnfru") ==> r == None)
    ensures UnescapeChar([c] + t).None? ==> c == 92 || c == '"' as int || c < 32
  {
    assert Bytes("\"\\/") == [34, 92, 47];
    assert Bytes("\"\\/btnfru") == [34, 92, 47, 98, 116, 110, 102, 114, 117];
  }

  lemma UnquotedCode(high: byte, low: byte, t: seq<byte>)
    ensures UnescapeChar(Bytes("\\u00") + [high, low] + t) ==
            if HexValue(high).Some? && HexValue(low).Some? && HexValue(high).value < 8
            then Some((16 * HexValue(high).value + HexValue(low).value, 6)) else None
  {
    hide HexValue;
    assert Bytes("\\u00") == [92, 117, 48, 48];
  }

  /** A symbol is printed as it is when it begins with a letter, an underscore or a slash and goes on with such
      characters, digits and hyphens; otherwise it is quoted behind a dollar sign. */
  lemma SymbolsPrinted(s: seq<byte>)
    ensures SymbolText(s) == if PlainName(s) then s else Bytes("$") + Quote(s)
    ensures Quote(s) == Bytes("\"") + EscapeChars(s) + Bytes("\"")
    ensures PlainName(s) <==>
            s != [] && !IsDigit(s[0]) && s[0] != '-' as int && forall i :: 0 <= i < |s| ==> IsName(s[i]) && s[i] < 128
  {
    hide Quote, EscapeChars, PlainName, Bytes;
    PlainNames(s);
    QuotingMarks(s);
  }

  lemma QuotingMarks(s: seq<byte>)
    ensures Bytes("$") == [36] && Quote(s) == Bytes("\"") + EscapeChars(s) + Bytes("\"")
  {
    hide EscapeChars;
    assert Bytes("\"") == [34];
  }

  lemma PlainNames(s: seq<byte>)
    ensures PlainName(s) <==>
            s != [] && !IsDigit(s[0]) && s[0] != '-' as int && forall i :: 0 <= i < |s| ==> IsName(s[i]) && s[i] < 128
  {
  }

  /** Comments go from a semicolon to the end of the line. */
  lemma CommentRead(comment: seq<byte>, t: seq<byte>)
    requires '\n' as int !in comment
    ensures Scan(Bytes(";") + comment + Bytes("\n") + t) == Scan(t)
  {
    hide CommentLength, FirstToken;
    assert Bytes(";") == [59] && Bytes("\n") == [10];
    var x, rest := [59] + comment + [10] + t, [10] + t;
    CommentLengthIs(comment, t);
    assert x[1..] == comment + [10] + t;
    assert x[1 + |comment|..] == rest && rest[1..] == t;
    assert Scan(x) == Scan(rest);
  }

  lemma {:induction false} CommentLengthIs(comment: seq<byte>, t: seq<byte>)
    requires 10 !in comment
    ensures CommentLength(comment + [10] + t) == |comment|
  {
    if comment != [] {
      assert (comment + [10] + t)[1..] == comment[1..] + [10] + t;
      CommentLengthIs(comment[1..], t);
    }
  }
}
