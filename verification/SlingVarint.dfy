/**
  Variable-length integers of the SLING binary format (app/lib/frame.js:588-623, 1016-1051): unsigned LEB128,
  section 7.6 of DWARF 5, as JavaScript numbers and 32-bit integer operators compute it.
 */
module SlingVarint {
  import opened Common

  const TWO_28 := 0x1000_0000
  const TWO_31 := 0x8000_0000
  const TWO_53 := 0x20_0000_0000_0000

  // Unsigned LEB128.
  function Leb(n: nat): (r: seq<byte>)
    ensures |r| > 0
  {
    if n < 128 then [n] else [n % 128 + 128] + Leb(n / 128)
  }

  // ----- JavaScript arithmetic -----

  // The 32-bit integer that the bitwise operators make of an integral number.
  function ToInt32(n: int): (r: int)
    ensures -TWO_31 <= r < TWO_31
  {
    var m := n % TWO_32;
    if m < TWO_31 then m else m - TWO_32
  }

  // Dividing and dropping the fraction.
  function Trunc(n: int, d: nat): int
    requires d > 0
  {
    if n >= 0 then n / d else -(-n / d)
  }

  // The left-shift operator; the operator itself looks only at the low five bits of the distance.
  function Shl(n: int, shift: nat): (r: int)
    ensures -TWO_31 <= r < TWO_31
  {
    if shift == 0 then ToInt32(n) else ToInt32(2 * Shl(n, shift - 1))
  }

  // ----- reading -----

  // Reading past the end yields undefined, which the operators treat as 0.
  function ByteAt(input: seq<byte>, pos: nat): byte {
    if pos < |input| then input[pos] else 0
  }

  datatype Digits = Digits(sum: int, shift: nat, last: byte, pos: nat)

  // The loop over up to four bytes that collects bits 0 to 27.
  function ReadLow(input: seq<byte>, pos: nat, shift: nat, sum: int): (r: Digits)
    requires shift < 28
    ensures r.pos > pos
    decreases 28 - shift
  {
    var b := ByteAt(input, pos);
    var s := sum + Shl(b % 128, shift % 32);
    if b >= 128 && shift + 7 < 28 then ReadLow(input, pos + 1, shift + 7, s) else Digits(s, shift + 7, b, pos + 1)
  }

  // The loop over all remaining bytes of a number.
  function ReadAll(input: seq<byte>, pos: nat, shift: nat, sum: int): (r: Digits)
    ensures r.pos > pos
    decreases |input| - pos
  {
    var b := ByteAt(input, pos);
    var s := sum + Shl(b % 128, shift % 32);
    if b >= 128 then ReadAll(input, pos + 1, shift + 7, s) else Digits(s, shift + 7, b, pos + 1)
  }

  function ReadVarint32(input: seq<byte>, pos: nat): (r: Result<(int, nat), string>)
    ensures r.Success? ==> r.value.1 > pos
  {
    var d := ReadAll(input, pos, 0, 0);
    if d.shift > 32 then Failure("Invalid varint32") else Success((d.sum, d.pos))
  }

  function ReadVarint64(input: seq<byte>, pos: nat): (r: (int, nat))
    ensures r.1 > pos
  {
    var lo := ReadLow(input, pos, 0, 0);
    if lo.last < 128 then (lo.sum, lo.pos)
    else
      var hi := ReadAll(input, lo.pos, 0, 0);
      (lo.sum + hi.sum * TWO_28, hi.pos)
  }

  // ----- round trip -----

  // The bytes stand in the input at a position.
  ghost predicate At(input: seq<byte>, pos: nat, bytes: seq<byte>) {
    pos + |bytes| <= |input| && input[pos..pos + |bytes|] == bytes
  }

  lemma AtSplit(input: seq<byte>, pos: nat, a: seq<byte>, b: seq<byte>)
    requires At(input, pos, a + b)
    ensures At(input, pos, a) && At(input, pos + |a|, b)
  {
    var s := input[pos..pos + |a + b|];
    assert a == s[..|a|] && b == s[|a|..];
  }

  lemma AtFirst(input: seq<byte>, pos: nat, bytes: seq<byte>)
    requires At(input, pos, bytes) && bytes != []
    ensures ByteAt(input, pos) == bytes[0] && At(input, pos + 1, bytes[1..])
  {
    assert input[pos..pos + |bytes|][0] == input[pos];
    assert input[pos + 1..pos + |bytes|] == input[pos..pos + |bytes|][1..];
  }

  lemma Pow2Step(k: nat)
    ensures Pow2(k + 7) == 128 * Pow2(k)
  {
    assert Pow2(k + 3) == 2 * Pow2(k + 2) == 4 * Pow2(k + 1) == 8 * Pow2(k);
    assert Pow2(k + 7) == 2 * Pow2(k + 6) == 4 * Pow2(k + 5) == 8 * Pow2(k + 4) == 16 * Pow2(k + 3);
  }

  lemma PowersOfTwo()
    ensures Pow2(0) == 1 && Pow2(7) == 128 && Pow2(14) == 16384 && Pow2(21) == 2097152 && Pow2(28) == TWO_28
  {
    Pow2Step(0);
    Pow2Step(7);
    Pow2Step(14);
    Pow2Step(21);
  }

  /** A number takes at most k bytes exactly when it has at most 7k bits; below 2^56 that is the eight bytes
      the encoder reserves. */
  lemma {:induction false} LebLength(n: nat, k: nat)
    requires k > 0
    ensures |Leb(n)| <= k <==> n < Pow2(7 * k)
  {
    Pow2Step(7 * (k - 1));
    if k == 1 {
      assert Pow2(0) == 1;
    } else {
      LebLength(n / 128, k - 1);
    }
  }

  // A digit shifted to its place in a number below 2^28.
  function Scaled(n: nat, shift: nat): nat
    requires shift in {0, 7, 14, 21}
  {
    if shift == 0 then n else if shift == 7 then 128 * n else if shift == 14 then 16384 * n else 2097152 * n
  }

  lemma ShlOne(b: nat, shift: nat, v: nat)
    requires Shl(b, shift) == v < 0x4000_0000
    ensures Shl(b, shift + 1) == 2 * v
  {
  }

  lemma ShlStep(b: nat, shift: nat, v: nat)
    requires Shl(b, shift) == v < TWO_31 / 128
    ensures Shl(b, shift + 7) == 128 * v
  {
    ShlOne(b, shift, v);
    ShlOne(b, shift + 1, 2 * v);
    ShlOne(b, shift + 2, 4 * v);
    ShlOne(b, shift + 3, 8 * v);
    ShlOne(b, shift + 4, 16 * v);
    ShlOne(b, shift + 5, 32 * v);
    ShlOne(b, shift + 6, 64 * v);
  }

  lemma {:induction false} ShlScaled(b: nat, shift: nat)
    requires b < 128 && shift in {0, 7, 14, 21}
    ensures Shl(b, shift) == Scaled(b, shift) < TWO_31
  {
    if shift > 0 {
      var before: nat := shift - 7;
      ShlScaled(b, before);
      ShlStep(b, before, Scaled(b, before));
    }
  }

  lemma ShlDigit(b: nat, shift: nat)
    requires b < 128 && shift in {0, 7, 14, 21}
    ensures Shl(b, shift % 32) == Scaled(b, shift)
  {
    ShlScaled(b, shift);
    assert shift % 32 == shift;
  }

  // Reading the bytes of a number that fits in the bits from `shift` to 27 adds its shifted value.
  lemma {:induction false} ReadAllLeb(input: seq<byte>, pos: nat, n: nat, shift: nat, sum: int)
    requires shift in {0, 7, 14, 21} && Scaled(n, shift) < TWO_28 && At(input, pos, Leb(n))
    ensures var d := ReadAll(input, pos, shift, sum);
            d.sum == sum + Scaled(n, shift) && d.pos == pos + |Leb(n)| && d.shift <= 28
    decreases n
  {
    hide ReadAll, Scaled, Leb;
    var digit := n % 128;
    LebFirst(input, pos, n);
    ReadAllOnce(input, pos, digit, n >= 128, shift, sum);
    if n >= 128 {
      LastDigit(n, shift);
      Digit(n, shift);
      ReadAllLeb(input, pos + 1, n / 128, shift + 7, sum + Scaled(digit, shift));
    }
  }

  lemma LebFirst(input: seq<byte>, pos: nat, n: nat)
    requires At(input, pos, Leb(n))
    ensures ByteAt(input, pos) == if n >= 128 then n % 128 + 128 else n % 128
    ensures if n >= 128 then At(input, pos + 1, Leb(n / 128)) && |Leb(n)| == 1 + |Leb(n / 128)| else |Leb(n)| == 1
  {
    AtFirst(input, pos, Leb(n));
  }

  // One digit read by the loop over all bytes.
  lemma ReadAllOnce(input: seq<byte>, pos: nat, digit: nat, more: bool, shift: nat, sum: int)
    requires shift in {0, 7, 14, 21} && digit < 128 && ByteAt(input, pos) == if more then digit + 128 else digit
    ensures var s := sum + Scaled(digit, shift);
            ReadAll(input, pos, shift, sum) ==
            if more then ReadAll(input, pos + 1, shift + 7, s) else Digits(s, shift + 7, digit, pos + 1)
  {
    hide Scaled, Shl, ByteAt;
    ShlDigit(digit, shift);
  }

  // Only one digit fits in the last place.
  lemma LastDigit(n: nat, shift: nat)
    requires shift in {0, 7, 14, 21} && n >= 128 && Scaled(n, shift) < TWO_28
    ensures shift != 21
  {
  }

  // Splitting off the lowest digit.
  lemma Digit(n: nat, shift: nat)
    requires shift in {0, 7, 14}
    ensures Scaled(n, shift) == Scaled(n % 128, shift) + Scaled(n / 128, shift + 7)
  {
    assert n == n % 128 + 128 * (n / 128);
    if shift == 0 {
    } else if shift == 7 {
    } else {
    }
  }

  lemma {:induction false} ReadAllShift(input: seq<byte>, pos: nat, n: nat, shift: nat, sum: int)
    requires At(input, pos, Leb(n))
    ensures ReadAll(input, pos, shift, sum).shift == shift + 7 * |Leb(n)|
    decreases n
  {
    AtFirst(input, pos, Leb(n));
    if n >= 128 {
      ReadAllShift(input, pos + 1, n / 128, shift + 7, sum + Shl(n % 128, shift % 32));
    }
  }

  /** The 32-bit reader recovers exactly the numbers below 2^28 and rejects all others. */
  lemma ReadVarint32Exact(input: seq<byte>, pos: nat, n: nat)
    requires At(input, pos, Leb(n))
    ensures ReadVarint32(input, pos) == Success((n, pos + |Leb(n)|)) <==> n < TWO_28
    ensures n >= TWO_28 ==> ReadVarint32(input, pos).Failure?
  {
    PowersOfTwo();
    LebLength(n, 4);
    if n < TWO_28 {
      ReadAllLeb(input, pos, n, 0, 0);
    } else {
      ReadAllShift(input, pos, n, 0, 0);
    }
  }

  // How many numbers the digits from `shift` to 27 can hold.
  function Room(shift: nat): (r: nat)
    requires shift in {0, 7, 14, 21}
    ensures r > 0
  {
    if shift == 0 then TWO_28 else if shift == 7 then 2097152 else if shift == 14 then 16384 else 128
  }

  // Reading the low digits of n from `shift` on adds `low` times their weight and leaves the bytes of `high`.
  ghost predicate LowRead(input: seq<byte>, pos: nat, n: nat, shift: nat, sum: int)
    requires shift in {0, 7, 14, 21}
  {
    var d, room := ReadLow(input, pos, shift, sum), Room(shift);
    if n < room then d.last < 128 && d.sum == sum + Scaled(n, shift) && d.pos == pos + |Leb(n)|
    else
      && d.last >= 128 && d.sum == sum + Scaled(n % room, shift) && At(input, d.pos, Leb(n / room))
      && d.pos + |Leb(n / room)| == pos + |Leb(n)|
  }

  // One digit read.
  lemma ReadLowOnce(input: seq<byte>, pos: nat, digit: nat, more: bool, shift: nat, sum: int)
    requires shift in {0, 7, 14, 21} && digit < 128 && ByteAt(input, pos) == if more then digit + 128 else digit
    ensures var s := sum + Scaled(digit, shift);
            ReadLow(input, pos, shift, sum) ==
            if more && shift < 21 then ReadLow(input, pos + 1, shift + 7, s)
            else Digits(s, shift + 7, if more then digit + 128 else digit, pos + 1)
  {
    ShlDigit(digit, shift);
  }

  lemma {:induction false} ReadLowLeb(input: seq<byte>, pos: nat, n: nat, shift: nat, sum: int)
    requires shift in {0, 7, 14, 21} && At(input, pos, Leb(n))
    ensures LowRead(input, pos, n, shift, sum)
    decreases 28 - shift
  {
    hide ReadLow, Scaled, Leb, LowRead;
    LebFirst(input, pos, n);
    ReadLowOnce(input, pos, n % 128, n >= 128, shift, sum);
    if n < 128 {
      LowSmall(input, pos, n, shift, sum);
    } else if shift == 21 {
      LowLast(input, pos, n, shift, sum);
    } else {
      ReadLowLeb(input, pos + 1, n / 128, shift + 7, sum + Scaled(n % 128, shift));
      LowStep(input, pos, n, shift, sum);
    }
  }

  lemma LowSmall(input: seq<byte>, pos: nat, n: nat, shift: nat, sum: int)
    requires shift in {0, 7, 14, 21} && n < 128
    requires ReadLow(input, pos, shift, sum) == Digits(sum + Scaled(n % 128, shift), shift + 7, n, pos + 1)
    ensures LowRead(input, pos, n, shift, sum)
  {
    assert n < Room(shift) && n % 128 == n;
  }

  lemma LowLast(input: seq<byte>, pos: nat, n: nat, shift: nat, sum: int)
    requires n >= 128 && At(input, pos + 1, Leb(n / 128)) && shift == 21
    requires ReadLow(input, pos, shift, sum) == Digits(sum + Scaled(n % 128, shift), 28, n % 128 + 128, pos + 1)
    ensures LowRead(input, pos, n, shift, sum)
  {
  }

  lemma LowStep(input: seq<byte>, pos: nat, n: nat, shift: nat, sum: int)
    requires shift in {0, 7, 14} && n >= 128
    requires var next := sum + Scaled(n % 128, shift);
             && LowRead(input, pos + 1, n / 128, shift + 7, next)
             && ReadLow(input, pos, shift, sum) == ReadLow(input, pos + 1, shift + 7, next)
    ensures LowRead(input, pos, n, shift, sum)
  {
    Rooms(n, shift);
    Digit(n, shift);
    assert |Leb(n)| == 1 + |Leb(n / 128)|;
  }

  lemma Rooms(n: nat, shift: nat)
    requires shift in {0, 7, 14}
    ensures n / 128 / Room(shift + 7) == n / Room(shift)
    ensures Scaled(n % Room(shift), shift) == Scaled(n % 128, shift) + Scaled(n / 128 % Room(shift + 7), shift + 7)
    ensures n < Room(shift) <==> n / 128 < Room(shift + 7)
  {
    var q, r := n / 128, n % 128;
    var small := Room(shift + 7);
    var a, b := q / small, q % small;
    assert n == Room(shift) * a + (128 * b + r) && 128 * b + r < Room(shift) by {
      assert q == small * a + b;
      assert Room(shift) == 128 * small;
    }
    if shift == 0 {
      assert n / TWO_28 == a && n % TWO_28 == 128 * b + r;
    } else if shift == 7 {
      assert n / 2097152 == a && n % 2097152 == 128 * b + r;
    } else {
      assert n / 16384 == a && n % 16384 == 128 * b + r;
    }
  }

  // All digits of a number below 2^28.
  lemma ReadSmall(input: seq<byte>, pos: nat, n: nat)
    requires n < TWO_28 && At(input, pos, Leb(n))
    ensures ReadAll(input, pos, 0, 0).sum == n && ReadAll(input, pos, 0, 0).pos == pos + |Leb(n)|
  {
    ReadAllLeb(input, pos, n, 0, 0);
  }

  lemma ReadLowHalf(input: seq<byte>, pos: nat, n: nat)
    requires At(input, pos, Leb(n))
    ensures var d := ReadLow(input, pos, 0, 0);
            if n < TWO_28 then d.last < 128 && d.sum == n && d.pos == pos + |Leb(n)|
            else
              && d.last >= 128 && d.sum == n % TWO_28 && At(input, d.pos, Leb(n / TWO_28))
              && d.pos + |Leb(n / TWO_28)| == pos + |Leb(n)|
  {
    ReadLowLeb(input, pos, n, 0, 0);
    assert Room(0) == TWO_28 && LowRead(input, pos, n, 0, 0);
  }

  /** The 64-bit reader recovers every number below 2^53. */
  lemma ReadVarint64Exact(input: seq<byte>, pos: nat, n: nat)
    requires n < TWO_53 && At(input, pos, Leb(n))
    ensures ReadVarint64(input, pos) == (n, pos + |Leb(n)|)
  {
    hide ReadLow, ReadAll, Leb, At;
    var lo := ReadLow(input, pos, 0, 0);
    ReadLowHalf(input, pos, n);
    if n >= TWO_28 {
      Halves(n);
      ReadSmall(input, lo.pos, n / TWO_28);
    }
  }

  lemma Halves(n: nat)
    requires n < TWO_53
    ensures n / TWO_28 < TWO_28 && n / TWO_28 * TWO_28 + n % TWO_28 == n
  {
  }
}
