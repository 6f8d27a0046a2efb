/**
  The words of the SLING text form (app/lib/frame.js:1081-1306, 1592-1600): how the printer spells them and how
  the reader splits text into tokens. Text is given by its UTF-8 bytes; the characters outside ASCII are the
  bytes from 128 on.
 */
module SlingLexis {
  import opened Common
  import opened SlingVarint

  datatype Token =
    | End
    | Mark(sign: byte)
    | Nil
    | False
    | True
    | Str(text: seq<byte>)
    | Num(number: int)
    | Index(index: nat)
    | Symbol(name: seq<byte>)
    | Bad(error: string)

  // ----- characters -----

  predicate IsSpace(c: byte) {
    c == 32 || c == 9 || c == 13 || c == 10
  }

  predicate IsLetter(c: byte) {
    65 <= c <= 90 || 97 <= c <= 122
  }

  // The characters of names and keywords.
  predicate IsName(c: byte) {
    c == 95 || c == 47 || c == 45 || IsDigit(c) || IsLetter(c) || c >= 128
  }

  // The characters that are tokens by themselves: : + , = [ ] { } @
  predicate IsMark(c: byte) {
    c == 58 || c == 43 || c == 44 || c == 61 || c == 91 || c == 93 || c == 123 || c == 125 || c == 64
  }

  const NULL_WORD: seq<byte> := [110, 117, 108, 108]
  const NIL_WORD: seq<byte> := [110, 105, 108]
  const FALSE_WORD: seq<byte> := [102, 97, 108, 115, 101]
  const TRUE_WORD: seq<byte> := [116, 114, 117, 101]

  // The reader takes these names for values.
  predicate Keyword(w: seq<byte>) {
    w == NULL_WORD || w == NIL_WORD || w == FALSE_WORD || w == TRUE_WORD
  }

  // ----- quoting, section 7 of RFC 8259 -----

  function HexDigit(n: nat): byte
    requires n < 16
  {
    if n < 10 then 48 + n else 87 + n
  }

  function EscapeChar(c: byte): (r: seq<byte>)
    ensures r != []
  {
    if c == 34 || c == 92 then [92, c]
    else if c == 8 then [92, 98]
    else if c == 9 then [92, 116]
    else if c == 10 then [92, 110]
    else if c == 12 then [92, 102]
    else if c == 13 then [92, 114]
    else if c < 32 then [92, 117, 48, 48, HexDigit(c / 16), HexDigit(c % 16)]
    else [c]
  }

  function EscapeChars(s: seq<byte>): seq<byte> {
    if s == [] then [] else EscapeChar(s[0]) + EscapeChars(s[1..])
  }

  function Quote(s: seq<byte>): seq<byte> {
    [34] + EscapeChars(s) + [34]
  }

  function HexValue(c: byte): (r: Option<nat>)
    ensures r.Some? ==> r.value < 16
  {
    if IsDigit(c) then Some(c - 48)
    else if 97 <= c <= 102 then Some(c - 87)
    else if 65 <= c <= 70 then Some(c - 55)
    else None
  }

  // The character meant by a backslash and another character.
  function SimpleEscape(c: byte): Option<byte> {
    if c == 34 || c == 92 || c == 47 then Some(c)
    else if c == 98 then Some(8)
    else if c == 102 then Some(12)
    else if c == 110 then Some(10)
    else if c == 114 then Some(13)
    else if c == 116 then Some(9)
    else None
  }

  // One character of a string literal, and how many bytes it takes. Escapes beyond ASCII are not modelled.
  function UnescapeChar(t: seq<byte>): (r: Option<(byte, nat)>)
    requires t != []
    ensures r.Some? ==> 0 < r.value.1 <= |t|
  {
    if t[0] != 92 then if t[0] < 32 || t[0] == 34 then None else Some((t[0], 1))
    else if |t| < 2 then None
    else if t[1] != 117 then
      var c := SimpleEscape(t[1]);
      if c.None? then None else Some((c.value, 2))
    else if |t| < 6 || t[2] != 48 || t[3] != 48 then None
    else
      var high, low := HexValue(t[4]), HexValue(t[5]);
      if high.None? || low.None? || high.value >= 8 then None else Some((16 * high.value + low.value, 6))
  }

  // What a string literal without its quotes means.
  function Unescape(t: seq<byte>): Option<seq<byte>>
    decreases |t|
  {
    if t == [] then Some([])
    else
      var c := UnescapeChar(t);
      if c.None? then None
      else
        var rest := Unescape(t[c.value.1..]);
        if rest.None? then None else Some([c.value.0] + rest.value)
  }

  // ----- numbers -----

  function DigitBytes(n: nat): (r: seq<byte>)
    ensures r != [] && forall i :: 0 <= i < |r| ==> IsDigit(r[i])
  {
    if n < 10 then [48 + n] else DigitBytes(n / 10) + [48 + n % 10]
  }

  lemma {:induction false} DigitsBack(n: nat)
    ensures DigitsValue(DigitBytes(n)) == n
  {
    if n >= 10 {
      DigitsBack(n / 10);
      assert DigitBytes(n)[..|DigitBytes(n)| - 1] == DigitBytes(n / 10);
    } else {
      assert DigitBytes(n)[..0] == [];
    }
  }

  // ----- spelling -----

  // What the printer takes for a plain symbol.
  predicate PlainName(s: seq<byte>) {
    && s != []
    && (IsLetter(s[0]) || s[0] == 95 || s[0] == 47)
    && forall i :: 0 <= i < |s| ==> IsName(s[i]) && s[i] < 128
  }

  function SymbolText(s: seq<byte>): (r: seq<byte>)
    ensures r != []
  {
    if PlainName(s) then s else [36] + Quote(s)
  }

  function NumberText(n: int): (r: seq<byte>)
    ensures r != []
  {
    if n < 0 then [45] + DigitBytes(-n) else DigitBytes(n)
  }

  function IndexText(n: nat): (r: seq<byte>)
    ensures r != []
  {
    [35] + DigitBytes(n)
  }

  // ----- splitting text into tokens -----

  function NameLength(t: seq<byte>): (r: nat)
    ensures r <= |t|
  {
    if t == [] || !IsName(t[0]) then 0 else 1 + NameLength(t[1..])
  }

  // Up to the end of the line.
  function CommentLength(t: seq<byte>): (r: nat)
    ensures r <= |t|
  {
    if t == [] || t[0] == 10 then 0 else 1 + CommentLength(t[1..])
  }

  // The length of the rest of a string literal up to its closing quote.
  function LiteralLength(t: seq<byte>): (r: nat)
    ensures r <= |t|
    decreases |t|
  {
    if t == [] || t[0] == 34 then 0
    else if t[0] == 92 then if |t| == 1 then 1 else 2 + LiteralLength(t[2..])
    else 1 + LiteralLength(t[1..])
  }

  /** A string literal after its opening quote, and the text after it. A literal that ends the text is cut one
      character short, so that it is no string. */
  function Literal(t: seq<byte>): (r: (Option<seq<byte>>, seq<byte>))
    ensures |r.1| <= |t|
  {
    var n := LiteralLength(t);
    if n + 1 >= |t| then (None, []) else (Unescape(t[..n]), t[n + 1..])
  }

  // What a name means: a keyword or a symbol.
  function WordToken(w: seq<byte>): (r: Token)
    ensures !r.Bad? && !r.End?
  {
    if w == NULL_WORD || w == NIL_WORD then Nil
    else if w == FALSE_WORD then False
    else if w == TRUE_WORD then True
    else Symbol(w)
  }

  // A token and the text after it.
  datatype Here = Here(token: Token, rest: seq<byte>) {
    // How much there is to read.
    function Size(): nat {
      if token.End? then 0 else 1 + |rest|
    }
  }

  // A number after its sign.
  function NumberToken(negative: bool, t: seq<byte>): (r: Here)
    ensures !r.token.End? && (!r.token.Bad? ==> |r.rest| < |t|)
  {
    var n := DigitLength(t);
    var rest, value: int := t[n..], DigitsValue(t[..n]);
    if n == 0 || (rest != [] && (rest[0] == 46 || rest[0] == 69 || rest[0] == 101)) then Here(Bad("not an integer"), [])
    else Here(Num(if negative then -value else value), rest)
  }

  function IndexToken(t: seq<byte>): (r: Here)
    ensures !r.token.End? && (!r.token.Bad? ==> |r.rest| < |t|)
  {
    var n := DigitLength(t);
    if n == 0 then Here(Bad("invalid index"), []) else Here(Index(DigitsValue(t[..n])), t[n..])
  }

  function NameToken(t: seq<byte>): (r: Here)
    ensures !r.token.End? && (!r.token.Bad? ==> |r.rest| < |t|)
  {
    var n := NameLength(t);
    if n == 0 then Here(Bad("invalid character"), []) else Here(WordToken(t[..n]), t[n..])
  }

  // A string literal from its opening quote on.
  function StringToken(t: seq<byte>): (r: Here)
    ensures !r.token.End? && (!r.token.Bad? ==> |r.rest| < |t| && r.token.Str?)
  {
    if t == [] || t[0] != 34 || Literal(t[1..]).0.None? then Here(Bad("invalid string"), [])
    else Here(Str(Literal(t[1..]).0.value), Literal(t[1..]).1)
  }

  // The token at the beginning of a text.
  function FirstToken(t: seq<byte>): (r: Here)
    requires t != []
    ensures !r.token.End? && (!r.token.Bad? ==> |r.rest| < |t|)
  {
    var c := t[0];
    if IsMark(c) then Here(Mark(c), t[1..])
    else if c == 34 then StringToken(t)
    else if IsDigit(c) || c == 46 || c == 45 then NumberToken(c == 45, if c == 45 then t[1..] else t)
    else if c == 35 then IndexToken(t[1..])
    else if c == 36 then
      var s := StringToken(t[1..]);
      if s.token.Bad? then s else Here(Symbol(s.token.text), s.rest)
    else NameToken(t)
  }

  // The next token of a text, past white space and comments.
  function Scan(t: seq<byte>): (r: Here)
    ensures r.Size() <= |t| || r.token.Bad?
    decreases |t|
  {
    if t == [] then Here(End, [])
    else if IsSpace(t[0]) then Scan(t[1..])
    else if t[0] == 59 then Scan(t[1 + CommentLength(t[1..])..])
    else FirstToken(t)
  }

  // ----- the reader splits what the printer spells -----

  // Text that ends a word before it.
  predicate Delimits(t: seq<byte>) {
    t != [] && (IsSpace(t[0]) || IsMark(t[0]))
  }

  lemma {:induction false} SkipSpaces(ws: seq<byte>, t: seq<byte>)
    requires forall i :: 0 <= i < |ws| ==> IsSpace(ws[i])
    ensures Scan(ws + t) == Scan(t)
  {
    if ws == [] {
      assert ws + t == t;
    } else {
      assert (ws + t)[1..] == ws[1..] + t;
      SkipSpaces(ws[1..], t);
    }
  }

  lemma LexMark(c: byte, t: seq<byte>)
    requires IsMark(c)
    ensures Scan([c] + t) == Here(Mark(c), t)
  {
    assert ([c] + t)[1..] == t;
  }

  // One escaped character is read as one character, and does not end the literal.
  lemma EscapeCharBack(c: byte, t: seq<byte>)
    ensures UnescapeChar(EscapeChar(c) + t) == Some((c, |EscapeChar(c)|))
    ensures LiteralLength(EscapeChar(c) + t) == |EscapeChar(c)| + LiteralLength(t)
  {
    var e := EscapeChar(c);
    var x := e + t;
    if |e| == 1 {
      assert x[1..] == t;
    } else if |e| == 2 {
      assert x[2..] == t;
    } else {
      assert x[2..] == e[2..] + t;
      PlainLiteral(e[2..], t);
    }
  }

  // Characters that are neither quotes nor backslashes do not end a literal.
  lemma {:induction false} PlainLiteral(a: seq<byte>, t: seq<byte>)
    requires forall i :: 0 <= i < |a| ==> a[i] != 34 && a[i] != 92
    ensures LiteralLength(a + t) == |a| + LiteralLength(t)
  {
    if a == [] {
      assert a + t == t;
    } else {
      assert (a + t)[1..] == a[1..] + t;
      PlainLiteral(a[1..], t);
    }
  }

  /** Quoting is inverted by unquoting, for every string. */
  lemma {:induction false} QuoteBack(s: seq<byte>)
    ensures Unescape(EscapeChars(s)) == Some(s)
  {
    if s != [] {
      var e, es := EscapeChar(s[0]), EscapeChars(s[1..]);
      QuoteBack(s[1..]);
      EscapeCharBack(s[0], es);
      assert (e + es)[|e|..] == es;
      assert s == [s[0]] + s[1..];
    }
  }

  // A quoted string ends at the quote behind it, whatever comes after.
  lemma {:induction false} QuoteEnds(s: seq<byte>, t: seq<byte>)
    ensures LiteralLength(EscapeChars(s) + [34] + t) == |EscapeChars(s)|
  {
    if s == [] {
      assert EscapeChars(s) + [34] + t == [34] + t;
    } else {
      var e, es := EscapeChar(s[0]), EscapeChars(s[1..]);
      QuoteEnds(s[1..], t);
      EscapeCharBack(s[0], es + [34] + t);
      assert EscapeChars(s) + [34] + t == e + (es + [34] + t);
    }
  }

  lemma LiteralBack(s: seq<byte>, t: seq<byte>)
    requires t != []
    ensures Literal(EscapeChars(s) + [34] + t) == (Some(s), t)
  {
    QuoteBack(s);
    QuoteEnds(s, t);
    var e := EscapeChars(s);
    assert (e + [34] + t)[..|e|] == e && (e + [34] + t)[|e| + 1..] == t;
  }

  lemma StringBack(s: seq<byte>, t: seq<byte>)
    requires t != []
    ensures StringToken(Quote(s) + t) == Here(Str(s), t)
  {
    hide Literal;
    LiteralBack(s, t);
    assert (Quote(s) + t)[1..] == EscapeChars(s) + [34] + t;
  }

  lemma LexString(s: seq<byte>, t: seq<byte>)
    requires t != []
    ensures Scan(Quote(s) + t) == Here(Str(s), t)
  {
    hide StringToken;
    StringBack(s, t);
    assert (Quote(s) + t)[0] == 34;
  }

  lemma {:induction false} NameLengthIs(w: seq<byte>, t: seq<byte>)
    requires forall i :: 0 <= i < |w| ==> IsName(w[i])
    requires Delimits(t)
    ensures NameLength(w + t) == |w|
  {
    if w == [] {
      assert w + t == t;
    } else {
      assert (w + t)[1..] == w[1..] + t;
      NameLengthIs(w[1..], t);
    }
  }

  lemma LexWord(w: seq<byte>, t: seq<byte>)
    requires w != [] && !IsDigit(w[0]) && w[0] != 45
    requires forall i :: 0 <= i < |w| ==> IsName(w[i])
    requires Delimits(t)
    ensures Scan(w + t) == Here(WordToken(w), t)
  {
    hide WordToken;
    NameLengthIs(w, t);
    assert (w + t)[..|w|] == w && (w + t)[|w|..] == t;
    assert (w + t)[0] == w[0];
  }

  lemma LexQuoted(s: seq<byte>, t: seq<byte>)
    requires t != []
    ensures Scan([36] + Quote(s) + t) == Here(Symbol(s), t)
  {
    hide StringToken, Quote;
    StringBack(s, t);
    var x := [36] + Quote(s) + t;
    assert x[1..] == Quote(s) + t && x[0] == 36;
  }

  lemma LexSymbol(s: seq<byte>, t: seq<byte>)
    requires Delimits(t)
    ensures Scan(SymbolText(s) + t) == Here(if PlainName(s) then WordToken(s) else Symbol(s), t)
  {
    hide Scan, Quote;
    if PlainName(s) {
      LexWord(s, t);
    } else {
      LexQuoted(s, t);
    }
  }

  lemma LexNumber(n: int, t: seq<byte>)
    requires Delimits(t)
    ensures Scan(NumberText(n) + t) == Here(Num(n), t)
  {
    hide NumberToken, DigitBytes;
    var m: nat := if n < 0 then -n else n;
    var d := DigitBytes(m);
    NumberBack(n < 0, m, t);
    var x := NumberText(n) + t;
    assert n < 0 ==> x[1..] == d + t;
    assert x[0] == NumberText(n)[0];
    assert FirstToken(x) == Here(Num(n), t);
  }

  lemma NumberBack(negative: bool, m: int, t: seq<byte>)
    requires m >= 0 && Delimits(t)
    ensures NumberToken(negative, DigitBytes(m) + t) == Here(Num(if negative then -m else m), t)
  {
    hide DigitBytes, DigitLength, DigitsValue;
    var d := DigitBytes(m);
    DigitsBack(m);
    DigitLengthIs(d, t);
    assert (d + t)[..|d|] == d && (d + t)[|d|..] == t;
  }

  lemma LexIndex(n: nat, t: seq<byte>)
    requires Delimits(t)
    ensures Scan(IndexText(n) + t) == Here(Index(n), t)
  {
    var d := DigitBytes(n);
    DigitsBack(n);
    DigitLengthIs(d, t);
    assert (IndexText(n) + t)[1..] == d + t;
    assert (d + t)[..|d|] == d && (d + t)[|d|..] == t;
  }

  /** A text that is nothing but a string cannot be read: the literal at its end is cut short. */
  lemma StringAtEnd(s: seq<byte>)
    ensures Scan(Quote(s)).token == Bad("invalid string")
  {
    QuoteEnds(s, []);
    assert Quote(s)[1..] == EscapeChars(s) + [34] + [];
  }
}
