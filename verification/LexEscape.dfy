/**
  Escaping text for LEX and removing tags and character references (app/lib/document.js:9-30). Strings are
  sequences of UTF-16 code units.
 */
module LexEscape {
  import opened Common

  type unit = n: int | 0 <= n < 0x1_0000

  const AMP: byte := 38
  const HASH: byte := 35
  const SEMI: byte := 59
  const LT: byte := 60
  const GT: byte := 62
  const OPEN: byte := 91
  const CLOSE: byte := 93
  const BRACE: byte := 123
  const BAR: byte := 124
  const UNBRACE: byte := 125

  // ----- escaping -----

  const ESCAPED: set<int> := {AMP, LT, GT, BRACE, BAR, UNBRACE, OPEN, CLOSE}

  // A character reference; the characters to escape have two or three digits.
  function Reference(c: unit): seq<unit> {
    if c < 100 then [AMP, HASH, 48 + c / 10 % 10, 48 + c % 10, SEMI]
    else [AMP, HASH, 48 + c / 100 % 10, 48 + c / 10 % 10, 48 + c % 10, SEMI]
  }

  function Escape(t: seq<unit>): (r: seq<unit>)
    ensures (forall i :: 0 <= i < |t| ==> t[i] < 256) ==> forall i :: 0 <= i < |r| ==> r[i] < 256
  {
    if t == [] then [] else (if t[0] in ESCAPED then Reference(t[0]) else [t[0]]) + Escape(t[1..])
  }

  // The end of the tag that starts before position i: after the next '>', or at the end of the text.
  function TagEnd(t: seq<unit>, i: nat): (r: nat)
    requires i <= |t|
    ensures i <= r <= |t|
    decreases |t| - i
  {
    if i == |t| then i else if t[i] == GT then i + 1 else TagEnd(t, i + 1)
  }

  // Removing tags: '<', at least one other character than '>', and all up to '>' or the end.
  function StripTags(t: seq<unit>): seq<unit>
    decreases |t|
  {
    if t == [] then []
    else if t[0] == LT && |t| > 1 && t[1] != GT then StripTags(t[TagEnd(t, 1)..])
    else [t[0]] + StripTags(t[1..])
  }

  // Replacing numeric character references.
  function Unescape(t: seq<unit>): seq<unit>
    decreases |t|
  {
    if t == [] then []
    else
      var n := if |t| >= 2 && t[0] == AMP && t[1] == HASH then DigitLength(t[2..]) else 0;
      if n > 0 && 2 + n < |t| && t[2 + n] == SEMI then
        [DigitsValue(t[2..][..n]) % 0x1_0000] + Unescape(t[n + 3..])
      else [t[0]] + Unescape(t[1..])
  }

  function Detag(t: seq<unit>): seq<unit> {
    Unescape(StripTags(t))
  }

  // No character that means something to LEX or in a tag.
  predicate Plain(t: seq<unit>) {
    forall c :: c in t ==> c !in ESCAPED - {AMP}
  }

  lemma {:induction false} EscapePlain(t: seq<unit>)
    ensures Plain(Escape(t))
  {
    if t != [] {
      EscapePlain(t[1..]);
      var first := if t[0] in ESCAPED then Reference(t[0]) else [t[0]];
      assert Plain(first);
    }
  }

  lemma {:induction false} StripPlain(t: seq<unit>)
    requires Plain(t)
    ensures StripTags(t) == t
  {
    if t != [] {
      assert t[0] in t;
      assert forall c :: c in t[1..] ==> c in t;
      StripPlain(t[1..]);
      assert t == [t[0]] + t[1..];
    }
  }

  lemma ReferenceValue(c: unit)
    requires c in ESCAPED
    ensures var d := Reference(c)[2..|Reference(c)| - 1];
            && 0 < |d| && (forall i :: 0 <= i < |d| ==> IsDigit(d[i])) && DigitsValue(d) == c
            && Reference(c) == [AMP, HASH] + d + [SEMI]
  {
    var r := Reference(c);
    var d := r[2..|r| - 1];
    if c < 100 {
      assert d == [48 + c / 10 % 10, 48 + c % 10];
      assert d[..1] == [48 + c / 10 % 10] && d[..1][..0] == [];
      assert DigitsValue(d[..1]) == c / 10;
    } else {
      assert d == [48 + c / 100 % 10, 48 + c / 10 % 10, 48 + c % 10];
      assert d[..2] == [48 + c / 100 % 10, 48 + c / 10 % 10] && d[..2][..1] == [48 + c / 100 % 10]
             && d[..2][..1][..0] == [];
      assert DigitsValue(d[..2][..1]) == c / 100;
      assert DigitsValue(d[..2]) == c / 10;
    }
  }

  lemma UnescapeReference(c: unit, rest: seq<unit>)
    requires c in ESCAPED
    ensures Unescape(Reference(c) + rest) == [c] + Unescape(rest)
  {
    hide DigitLength, DigitsValue, Reference, Unescape;
    ReferenceValue(c);
    var r := Reference(c);
    var d := r[2..|r| - 1];
    var t := [AMP, HASH] + (d + ([SEMI] + rest));
    assert r + rest == t;
    assert t[2..] == d + ([SEMI] + rest) by {
      Rest([AMP, HASH], d + ([SEMI] + rest));
    }
    DigitLengthIs(d, [SEMI] + rest);
    UnescapeDigits(t, d, rest);
  }

  lemma UnescapeDigits(t: seq<unit>, d: seq<unit>, rest: seq<unit>)
    requires t == [AMP, HASH] + (d + ([SEMI] + rest)) && d != [] && DigitLength(t[2..]) == |d|
    requires (forall i :: 0 <= i < |d| ==> IsDigit(d[i]))
    ensures Unescape(t) == [DigitsValue(d) % 0x1_0000] + Unescape(rest)
  {
    hide Unescape, DigitLength, DigitsValue;
    var n := |d|;
    assert t[2..][..n] == d && t[2 + n] == SEMI && t[n + 3..] == rest;
    UnescapeIs(t, n);
  }

  lemma UnescapeIs(t: seq<unit>, n: nat)
    requires |t| > n + 2 && n > 0 && t[0] == AMP && t[1] == HASH && DigitLength(t[2..]) == n && t[n + 2] == SEMI
    ensures Unescape(t) == [DigitsValue(t[2..][..n]) % 0x1_0000] + Unescape(t[n + 3..])
  {
    hide DigitLength, DigitsValue;
  }

  lemma Rest<T>(a: seq<T>, b: seq<T>)
    ensures (a + b)[|a|..] == b
  {
  }

  /** Escaping is undone exactly: nothing of any text is lost or added. */
  lemma {:induction false} DetagEscape(t: seq<unit>)
    ensures Detag(Escape(t)) == t
  {
    EscapePlain(t);
    StripPlain(Escape(t));
    UnescapeEscape(t);
  }

  lemma {:induction false} UnescapeEscape(t: seq<unit>)
    ensures Unescape(Escape(t)) == t
  {
    if t != [] {
      var c, rest := t[0], Escape(t[1..]);
      UnescapeEscape(t[1..]);
      if c in ESCAPED {
        UnescapeReference(c, rest);
      } else {
        assert c != AMP;
        assert ([c] + rest)[1..] == rest;
      }
      assert t == [c] + t[1..];
    }
  }

  // ----- tags and references -----

  // The units of a string.
  function Units(s: string): (r: seq<unit>)
    ensures |r| == |s|
  {
    seq(|s|, i requires 0 <= i < |s| => s[i] as int % 0x1_0000)
  }

  /** The eight characters that are escaped, and what is written for them. */
  lemma EscapedCharacters(c: unit)
    ensures c in ESCAPED <==> c in Units("&<>{|}[]")
    ensures Escape([c]) == if c in ESCAPED then Reference(c) else [c]
  {
    hide Reference;
    assert Units("&<>{|}[]") == [38, 60, 62, 123, 124, 125, 91, 93];
    assert [c][1..] == [] && Escape([]) == [];
    var first := if c in ESCAPED then Reference(c) else [c];
    assert first + [] == first;
  }

  lemma TwoDigits(c: unit)
    ensures c == '&' as int ==> Reference(c) == Units("&#38;")
    ensures c == '<' as int ==> Reference(c) == Units("&#60;")
    ensures c == '>' as int ==> Reference(c) == Units("&#62;")
    ensures c == '[' as int ==> Reference(c) == Units("&#91;")
    ensures c == ']' as int ==> Reference(c) == Units("&#93;")
  {
  }

  lemma ThreeDigits(c: unit)
    ensures c == '{' as int ==> Reference(c) == Units("&#123;")
    ensures c == '|' as int ==> Reference(c) == Units("&#124;")
    ensures c == '}' as int ==> Reference(c) == Units("&#125;")
  {
  }

  /** Escaping goes character by character. */
  lemma {:induction false} EscapeBoth(a: seq<unit>, b: seq<unit>)
    ensures Escape(a + b) == Escape(a) + Escape(b)
  {
    hide Reference;
    if a == [] {
      assert a + b == b;
    } else {
      EscapeBoth(a[1..], b);
      assert (a + b)[1..] == a[1..] + b;
      var first := if a[0] in ESCAPED then Reference(a[0]) else [a[0]];
      assert first + (Escape(a[1..]) + Escape(b)) == first + Escape(a[1..]) + Escape(b);
    }
  }

  lemma {:induction false} TagEndIs(a: seq<unit>, i: nat, b: seq<unit>, t: seq<unit>)
    requires i <= |a| && GT !in b && (t == [] || t[0] == GT)
    requires a[i..] == b + t
    ensures TagEnd(a, i) == if t == [] then |a| else i + |b| + 1
    decreases |b|
  {
    assert |a| - i == |b| + |t|;
    if b == [] {
      assert b + t == t;
      if t != [] {
        assert a[i] == a[i..][0] == GT;
      }
    } else {
      assert a[i] == a[i..][0] == b[0];
      assert a[i + 1..] == a[i..][1..] == b[1..] + t;
      TagEndIs(a, i + 1, b[1..], t);
    }
  }

  /** Removing tags: text before a tag stays; a tag goes from a less-than sign over at least one character up to the
      next greater-than sign, or to the end of the text when there is none; two signs with nothing between them are
      no tag. */
  lemma TagsRemoved(a: seq<unit>, tag: seq<unit>, rest: seq<unit>)
    requires LT !in a && tag != [] && GT !in tag
    ensures StripTags(a + [LT] + tag + [GT] + rest) == a + StripTags(rest)
    ensures StripTags(a + [LT] + tag) == a
    ensures StripTags(a + [LT, GT] + rest) == a + [LT] + StripTags([GT] + rest)
    ensures StripTags(a + [LT]) == a + [LT] && StripTags(a) == a
  {
    hide StripTags;
    OneTag(tag, rest);
    NoTag(rest);
    TextStays(a, [LT] + tag + [GT] + rest);
    assert a + ([LT] + tag + [GT] + rest) == a + [LT] + tag + [GT] + rest;
    TextStays(a, [LT] + tag);
    assert a + ([LT] + tag) == a + [LT] + tag && a + [] == a;
    TextStays(a, [LT, GT] + rest);
    assert a + ([LT, GT] + rest) == a + [LT, GT] + rest;
    assert a + ([LT] + StripTags([GT] + rest)) == a + [LT] + StripTags([GT] + rest);
    TextStays(a, [LT]);
    TextStays(a, []);
  }

  lemma {:induction false} TextStays(a: seq<unit>, t: seq<unit>)
    requires LT !in a
    ensures StripTags(a + t) == a + StripTags(t)
    decreases |a|
  {
    if a == [] {
      assert a + t == t && [] + StripTags(t) == StripTags(t);
    } else {
      assert a[0] in a && (forall c :: c in a[1..] ==> c in a);
      assert (a + t)[0] == a[0] && (a + t)[1..] == a[1..] + t;
      TextStays(a[1..], t);
      assert [a[0]] + (a[1..] + StripTags(t)) == a + StripTags(t);
    }
  }

  lemma OneTag(tag: seq<unit>, rest: seq<unit>)
    requires tag != [] && GT !in tag
    ensures StripTags([LT] + tag + [GT] + rest) == StripTags(rest)
    ensures StripTags([LT] + tag) == []
  {
    hide TagEnd;
    var t, u := [LT] + tag + [GT] + rest, [LT] + tag;
    assert tag[0] in tag && t[1] == tag[0] && u[1] == tag[0];
    assert t[1..] == tag + ([GT] + rest) && u[1..] == tag + [];
    TagEndIs(t, 1, tag, [GT] + rest);
    TagEndIs(u, 1, tag, []);
    assert t[2 + |tag|..] == rest && u[|u|..] == [];
  }

  lemma NoTag(rest: seq<unit>)
    ensures StripTags([LT, GT] + rest) == [LT] + StripTags([GT] + rest)
    ensures StripTags([LT]) == [LT] && StripTags([]) == []
  {
    assert ([LT, GT] + rest)[1..] == [GT] + rest;
    assert [LT][1..] == [];
  }

  /** Any decimal number is a reference to the unit with that number, whatever comes after its semicolon. */
  lemma ReferenceRead(n: nat, rest: seq<unit>)
    requires n < 0x1_0000
    ensures Unescape([AMP, HASH] + Units(Decimal(n)) + [SEMI] + rest) == [n] + Unescape(rest)
  {
    hide Unescape, DigitLength, DigitsValue, Units, Decimal;
    var d := Units(Decimal(n));
    DecimalUnits(n);
    var t := [AMP, HASH] + (d + ([SEMI] + rest));
    assert [AMP, HASH] + d + [SEMI] + rest == t;
    assert t[2..] == d + ([SEMI] + rest);
    DigitLengthIs(d, [SEMI] + rest);
    UnescapeDigits(t, d, rest);
  }

  lemma {:induction false} DecimalUnits(n: nat)
    ensures var d := Units(Decimal(n)); d != [] && (forall i :: 0 <= i < |d| ==> IsDigit(d[i])) && DigitsValue(d) == n
  {
    hide DigitsValue, Decimal, Units;
    DecimalStep(n);
    if n < 10 {
      OneDigit(n);
    } else {
      DecimalUnits(n / 10);
      OneMoreDigit(Units(Decimal(n / 10)), n % 10);
    }
  }

  lemma DecimalStep(n: nat)
    ensures Units(Decimal(n)) == if n < 10 then [48 + n] else Units(Decimal(n / 10)) + [48 + n % 10]
  {
    DigitUnit(n % 10);
    if n >= 10 {
      assert Decimal(n) == Decimal(n / 10) + [Digit(n % 10)];
    }
  }

  lemma OneDigit(n: nat)
    requires n < 10
    ensures DigitsValue([48 + n]) == n
  {
    assert [48 + n][..0] == [];
  }

  lemma OneMoreDigit(d: seq<unit>, n: nat)
    requires n < 10 && forall i :: 0 <= i < |d| ==> IsDigit(d[i])
    ensures var e := d + [48 + n];
            (forall i :: 0 <= i < |e| ==> IsDigit(e[i])) && DigitsValue(e) == 10 * DigitsValue(d) + n
  {
    var e := d + [48 + n];
    assert e[..|e| - 1] == d;
  }

  lemma DigitUnit(d: nat)
    requires d < 10
    ensures Digit(d) as int == 48 + d
  {
  }
}
