/** Result types and number notation shared by the models of all components. */
module Common {
  datatype Option<+T> = None | Some(value: T)

  datatype Result<+T, +E> = Success(value: T) | Failure(error: E)

  // Decimal notation, as both languages print natural numbers.
  function Digit(d: nat): char
    requires d < 10
  {
    "0123456789"[d]
  }

  function Decimal(n: nat): (s: string)
    ensures s != ""
  {
    if n < 10 then [Digit(n)] else Decimal(n / 10) + [Digit(n % 10)]
  }

  /** Different numbers are printed differently. */
  lemma {:induction false} DecimalInjective(m: nat, n: nat)
    requires Decimal(m) == Decimal(n)
    ensures m == n
  {
    var s, t := Decimal(m), Decimal(n);
    assert s[|s| - 1] == Digit(m % 10) && t[|t| - 1] == Digit(n % 10);
    if m >= 10 && n >= 10 {
      assert s[..|s| - 1] == Decimal(m / 10) && t[..|t| - 1] == Decimal(n / 10);
      DecimalInjective(m / 10, n / 10);
    }
  }

  // ----- bytes and characters -----

  type byte = n: int | 0 <= n < 256

  const TWO_32: nat := 0x1_0000_0000

  // A word of 32 bits, read as a number without sign.
  type word = n: int | 0 <= n < TWO_32

  function Pow2(k: nat): (r: nat)
    ensures r > 0
  {
    if k == 0 then 1 else 2 * Pow2(k - 1)
  }

  predicate IsDigit(c: int) {
    48 <= c <= 57
  }

  // The number of digits at the beginning of a text.
  function DigitLength(t: seq<int>): (r: nat)
    ensures r <= |t| && forall i :: 0 <= i < r ==> IsDigit(t[i])
  {
    if t == [] || !IsDigit(t[0]) then 0 else 1 + DigitLength(t[1..])
  }

  function DigitsValue(t: seq<int>): nat
    requires forall i :: 0 <= i < |t| ==> IsDigit(t[i])
  {
    if t == [] then 0
    else
      assert IsDigit(t[|t| - 1]);
      10 * DigitsValue(t[..|t| - 1]) + (t[|t| - 1] - 48)
  }

  // Digits are counted up to what comes after them.
  lemma {:induction false} DigitLengthIs(d: seq<int>, t: seq<int>)
    requires (forall i :: 0 <= i < |d| ==> IsDigit(d[i])) && (t == [] || !IsDigit(t[0]))
    ensures DigitLength(d + t) == |d|
  {
    if d == [] {
      assert d + t == t;
    } else {
      assert (d + t)[1..] == d[1..] + t;
      DigitLengthIs(d[1..], t);
    }
  }
}
