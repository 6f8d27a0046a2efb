/**
  The MD5 message digest (app/lib/hash.js:6-145), unrolled in the program, against the table-driven algorithm
  of RFC 1321, sections 3.1 to 3.5. A word is given by its 32 bits, read as a number without sign.
 */
module Md5 {
  import opened Common

  // ----- bits -----

  function And(x: nat, y: nat): (r: nat)
    ensures r <= x && r <= y
  {
    if x == 0 || y == 0 then 0 else x % 2 * (y % 2) + 2 * And(x / 2, y / 2)
  }

  function Or(x: nat, y: nat): nat
    decreases x + y
  {
    if x == 0 then y else if y == 0 then x
    else (if x % 2 == 1 || y % 2 == 1 then 1 else 0) + 2 * Or(x / 2, y / 2)
  }

  function Xor(x: nat, y: nat): nat
    decreases x + y
  {
    if x == 0 then y else if y == 0 then x
    else (if x % 2 == y % 2 then 0 else 1) + 2 * Xor(x / 2, y / 2)
  }

  function Low(n: int): word {
    n % TWO_32
  }

  // Bitwise operators on words.
  function AndW(x: word, y: word): word {
    And(x, y)
  }

  function OrW(x: word, y: word): word {
    Low(Or(x, y))
  }

  function XorW(x: word, y: word): word {
    Low(Xor(x, y))
  }

  function NotW(x: word): word {
    TWO_32 - 1 - x
  }

  /** Numbers without common bits: one is a multiple of a power of two, the other is less than it. */
  lemma {:induction false} OrDisjoint(q: nat, y: nat, k: nat)
    requires y < Pow2(k)
    ensures Or(q * Pow2(k), y) == q * Pow2(k) + y
  {
    if k > 0 && q > 0 && y > 0 {
      var x := q * Pow2(k);
      assert x == 2 * (q * Pow2(k - 1));
      OrDisjoint(q, y / 2, k - 1);
      assert x / 2 == q * Pow2(k - 1) && x % 2 == 0;
    }
  }

  // ----- the program's word arithmetic -----

  // The number that JavaScript sees.
  function Signed(x: word): int {
    if x < 0x8000_0000 then x else x - TWO_32
  }

  // Addition in two halves; shifting right copies the sign.
  function Ad(x: word, y: word): word {
    var l := x % 0x1_0000 + y % 0x1_0000;
    var m := Signed(x) / 0x1_0000 + Signed(y) / 0x1_0000 + l / 0x1_0000;
    OrW(Low(m * 0x1_0000), l % 0x1_0000)
  }

  lemma PowersOfTwo()
    ensures Pow2(8) == 0x100 && Pow2(16) == 0x1_0000 && Pow2(24) == 0x100_0000 && Pow2(32) == TWO_32
  {
    assert Pow2(4) == 16;
    assert Pow2(8) == 16 * Pow2(4);
    assert Pow2(12) == 16 * Pow2(8);
    assert Pow2(16) == 16 * Pow2(12);
    assert Pow2(20) == 16 * Pow2(16);
    assert Pow2(24) == 16 * Pow2(20);
    assert Pow2(28) == 16 * Pow2(24);
    assert Pow2(32) == 16 * Pow2(28);
  }

  lemma HighHalf(m: int) returns (q: nat)
    ensures Low(m * 0x1_0000) == q * 0x1_0000 && q < 0x1_0000 && q == m % 0x1_0000
  {
    q := m % 0x1_0000;
    assert m == 0x1_0000 * (m / 0x1_0000) + q;
    assert m * 0x1_0000 == TWO_32 * (m / 0x1_0000) + q * 0x1_0000;
  }

  lemma SignedHalves(x: word)
    ensures Signed(x) % 0x1_0000 == x % 0x1_0000 && Low(Signed(x)) == x
    ensures Signed(x) == 0x1_0000 * (Signed(x) / 0x1_0000) + x % 0x1_0000
  {
  }

  lemma LowSigned(x: word, y: word)
    ensures Low(Signed(x) + Signed(y)) == Low(x + y)
  {
  }

  lemma LowIs(n: int, e: int, r: nat)
    requires n == TWO_32 * e + r && r < TWO_32
    ensures Low(n) == r
  {
  }

  // The carry of the low halves goes to the high halves.
  lemma Halves(x: word, y: word, l: nat, m: int, q: nat)
    requires l == x % 0x1_0000 + y % 0x1_0000 && q == m % 0x1_0000
    requires m == Signed(x) / 0x1_0000 + Signed(y) / 0x1_0000 + l / 0x1_0000
    ensures q * 0x1_0000 + l % 0x1_0000 == Low(x + y)
  {
    hide Low, Signed;
    SignedHalves(x);
    SignedHalves(y);
    var e, sum := m / 0x1_0000, Signed(x) + Signed(y);
    assert l == 0x1_0000 * (l / 0x1_0000) + l % 0x1_0000;
    assert m == 0x1_0000 * e + q;
    assert sum == TWO_32 * e + (q * 0x1_0000 + l % 0x1_0000);
    LowIs(sum, e, q * 0x1_0000 + l % 0x1_0000);
    LowSigned(x, y);
  }

  /** Adding in halves is addition modulo 2^32. */
  lemma AdIsAddition(x: word, y: word)
    ensures Ad(x, y) == Low(x + y)
  {
    hide Or, Pow2, Signed;
    PowersOfTwo();
    var l := x % 0x1_0000 + y % 0x1_0000;
    var m := Signed(x) / 0x1_0000 + Signed(y) / 0x1_0000 + l / 0x1_0000;
    var q := HighHalf(m);
    OrDisjoint(q, l % 0x1_0000, 16);
    Halves(x, y, l, m, q);
  }

  // Rotating: the bits shifted out on the left come in on the right.
  function Rl(n: word, c: nat): word
    requires 0 < c < 32
  {
    OrW(Low(n * Pow2(c)), Low(n / Pow2(32 - c)))
  }

  function Plus(x: word, y: word): word {
    Low(x + y)
  }

  function Cm(q: word, a: word, b: word, x: word, s: nat, t: word): word
    requires 0 < s < 32
  {
    Ad(Rl(Ad(Ad(a, q), Ad(x, t)), s), b)
  }

  function Ff(a: word, b: word, c: word, d: word, x: word, s: nat, t: word): word
    requires 0 < s < 32
  {
    Cm(OrW(AndW(b, c), AndW(NotW(b), d)), a, b, x, s, t)
  }

  function Gg(a: word, b: word, c: word, d: word, x: word, s: nat, t: word): word
    requires 0 < s < 32
  {
    Cm(OrW(AndW(b, d), AndW(c, NotW(d))), a, b, x, s, t)
  }

  function Hh(a: word, b: word, c: word, d: word, x: word, s: nat, t: word): word
    requires 0 < s < 32
  {
    Cm(XorW(XorW(b, c), d), a, b, x, s, t)
  }

  function Ii(a: word, b: word, c: word, d: word, x: word, s: nat, t: word): word
    requires 0 < s < 32
  {
    Cm(XorW(c, OrW(b, NotW(d))), a, b, x, s, t)
  }

  // ----- the table-driven algorithm of section 3.4 -----

  datatype Registers = Registers(a: word, b: word, c: word, d: word)

  const START := Registers(0x67452301, 0xefcdab89, 0x98badcfe, 0x10325476)

  // The table of the sine function, round by round.
  function Sine(k: nat): word
    requires k < 64
  {
    if k < 16 then Sine1(k) else if k < 32 then Sine2(k - 16) else if k < 48 then Sine3(k - 32) else Sine4(k - 48)
  }

  function Sine1(j: nat): word
    requires j < 16
  {
    match j
    case 0 => 0xd76aa478
    case 1 => 0xe8c7b756
    case 2 => 0x242070db
    case 3 => 0xc1bdceee
    case 4 => 0xf57c0faf
    case 5 => 0x4787c62a
    case 6 => 0xa8304613
    case 7 => 0xfd469501
    case 8 => 0x698098d8
    case 9 => 0x8b44f7af
    case 10 => 0xffff5bb1
    case 11 => 0x895cd7be
    case 12 => 0x6b901122
    case 13 => 0xfd987193
    case 14 => 0xa679438e
    case _ => 0x49b40821
  }

  function Sine2(j: nat): word
    requires j < 16
  {
    match j
    case 0 => 0xf61e2562
    case 1 => 0xc040b340
    case 2 => 0x265e5a51
    case 3 => 0xe9b6c7aa
    case 4 => 0xd62f105d
    case 5 => 0x02441453
    case 6 => 0xd8a1e681
    case 7 => 0xe7d3fbc8
    case 8 => 0x21e1cde6
    case 9 => 0xc33707d6
    case 10 => 0xf4d50d87
    case 11 => 0x455a14ed
    case 12 => 0xa9e3e905
    case 13 => 0xfcefa3f8
    case 14 => 0x676f02d9
    case _ => 0x8d2a4c8a
  }

  function Sine3(j: nat): word
    requires j < 16
  {
    match j
    case 0 => 0xfffa3942
    case 1 => 0x8771f681
    case 2 => 0x6d9d6122
    case 3 => 0xfde5380c
    case 4 => 0xa4beea44
    case 5 => 0x4bdecfa9
    case 6 => 0xf6bb4b60
    case 7 => 0xbebfbc70
    case 8 => 0x289b7ec6
    case 9 => 0xeaa127fa
    case 10 => 0xd4ef3085
    case 11 => 0x04881d05
    case 12 => 0xd9d4d039
    case 13 => 0xe6db99e5
    case 14 => 0x1fa27cf8
    case _ => 0xc4ac5665
  }

  function Sine4(j: nat): word
    requires j < 16
  {
    match j
    case 0 => 0xf4292244
    case 1 => 0x432aff97
    case 2 => 0xab9423a7
    case 3 => 0xfc93a039
    case 4 => 0x655b59c3
    case 5 => 0x8f0ccc92
    case 6 => 0xffeff47d
    case 7 => 0x85845dd1
    case 8 => 0x6fa87e4f
    case 9 => 0xfe2ce6e0
    case 10 => 0xa3014314
    case 11 => 0x4e0811a1
    case 12 => 0xf7537e82
    case 13 => 0xbd3af235
    case 14 => 0x2ad7d2bb
    case _ => 0xeb86d391
  }

  // The auxiliary functions F, G, H and I.
  function Mix(k: nat, b: word, c: word, d: word): word {
    if k < 16 then OrW(AndW(b, c), AndW(NotW(b), d))
    else if k < 32 then OrW(AndW(b, d), AndW(c, NotW(d)))
    else if k < 48 then XorW(XorW(b, c), d)
    else XorW(c, OrW(b, NotW(d)))
  }

  // Which word of the block a step uses.
  function Index(k: nat): (r: nat)
    ensures r < 16
  {
    if k < 16 then k
    else if k < 32 then (5 * k + 1) % 16
    else if k < 48 then (3 * k + 5) % 16
    else 7 * k % 16
  }

  function Shift(k: nat): (r: nat)
    ensures 0 < r < 32
  {
    var j := k % 4;
    if k < 16 then if j == 0 then 7 else if j == 1 then 12 else if j == 2 then 17 else 22
    else if k < 32 then if j == 0 then 5 else if j == 1 then 9 else if j == 2 then 14 else 20
    else if k < 48 then if j == 0 then 4 else if j == 1 then 11 else if j == 2 then 16 else 23
    else if j == 0 then 6 else if j == 1 then 10 else if j == 2 then 15 else 21
  }

  // Circular shift to the left.
  function Rotated(n: word, c: nat): int
    requires 0 < c < 32
  {
    n * Pow2(c) % TWO_32 + n / Pow2(32 - c)
  }

  // One step; the registers then change places.
  function Step(k: nat, r: Registers, x: seq<word>): Registers
    requires k < 64 && |x| == 16
  {
    var sum := Plus(Plus(r.a, Mix(k, r.b, r.c, r.d)), Plus(x[Index(k)], Sine(k)));
    Registers(r.d, Low(Rotated(sum, Shift(k)) + r.b), r.b, r.c)
  }

  function Steps(k: nat, r: Registers, x: seq<word>): Registers
    requires k <= 64 && |x| == 16
    decreases k, x
  {
    if k == 0 then r else Step(k - 1, Steps(k - 1, r, x), x)
  }

  function Sum(r: Registers, s: Registers): Registers {
    Registers(Plus(r.a, s.a), Plus(r.b, s.b), Plus(r.c, s.c), Plus(r.d, s.d))
  }

  function Block(r: Registers, x: seq<word>): Registers
    requires |x| == 16
  {
    Sum(Steps(64, r, x), r)
  }

  // The first n blocks.
  function Digest(x: seq<word>, n: nat): Registers
    requires 16 * n <= |x|
  {
    if n == 0 then START else Block(Digest(x, n - 1), x[16 * (n - 1)..16 * (n - 1) + 16])
  }

  // ----- the unrolled rounds -----

  lemma {:induction false} Pow2Sum(a: nat, b: nat)
    ensures Pow2(a + b) == Pow2(a) * Pow2(b)
  {
    if a > 0 {
      Pow2Sum(a - 1, b);
    }
  }

  lemma MulMono(d: nat, x: nat, y: nat)
    requires x <= y
    ensures d * x <= d * y
  {
  }

  lemma MulLess(d: nat, x: nat, y: nat)
    requires d * x < d * y
    ensures x < y
  {
    if y <= x {
      MulMono(d, y, x);
    }
  }

  lemma MulParts(n: nat, low: nat, high: nat, all: nat, e: nat, q: nat)
    requires n == high * e + q && all == low * high
    ensures n * low == all * e + q * low
  {
    assert n * low == (high * e) * low + q * low;
    assert (high * e) * low == (low * high) * e;
  }

  // A multiple of a number and a rest below it.
  lemma MulFits(q: nat, low: nat, high: nat, rest: nat)
    requires q < high && rest < low
    ensures q * low + rest < low * high
  {
    MulMono(low, q + 1, high);
    assert low * (q + 1) == q * low + low;
  }

  lemma LowMultiple(n: nat, low: nat, high: nat) returns (q: nat)
    requires low * high == TWO_32 && low > 0 && high > 0
    ensures Low(n * low) == q * low && q < high
  {
    hide Low;
    q := n % high;
    DivMod(n, high);
    MulParts(n, low, high, TWO_32, n / high, q);
    MulFits(q, low, high, 0);
    LowIs(n * low, n / high, q * low);
  }

  // The bits that stay after shifting left are a multiple of the power of two.
  lemma ShiftedMultiple(n: word, c: nat) returns (q: nat)
    requires 0 < c < 32
    ensures Low(n * Pow2(c)) == q * Pow2(c) && q < Pow2(32 - c)
  {
    PowersOfTwo();
    hide Low, Pow2;
    Pow2Sum(c, 32 - c);
    q := LowMultiple(n, Pow2(c), Pow2(32 - c));
  }

  lemma DivMod(n: nat, d: nat)
    requires d > 0
    ensures n == d * (n / d) + n % d && n % d < d
  {
  }

  /** The two shifted parts together are the circular shift. */
  lemma RlRotates(n: word, c: nat)
    requires 0 < c < 32
    ensures Rl(n, c) == Rotated(n, c)
  {
    PowersOfTwo();
    hide Or, Low, Rl, Rotated, Pow2;
    Pow2Sum(c, 32 - c);
    var q := ShiftedMultiple(n, c);
    var top := PartsFit(n, q, Pow2(c), Pow2(32 - c));
    OrDisjoint(q, top, c);
    ShiftedOr(n, c, q * Pow2(c), top);
  }

  lemma PartsFit(n: word, q: nat, low: nat, high: nat) returns (top: nat)
    requires low * high == TWO_32 && q < high
    ensures top == n / high && top < low && q * low + top < TWO_32
  {
    top := n / high;
    assert high * low == low * high;
    HighPart(n, high, low);
    MulFits(q, low, high, top);
  }

  lemma ShiftedOr(n: word, c: nat, left: nat, top: nat)
    requires 0 < c < 32 && left == Low(n * Pow2(c)) && top == n / Pow2(32 - c) && Or(left, top) == left + top < TWO_32
    ensures Rl(n, c) == Rotated(n, c)
  {
    hide Or, Pow2;
  }

  lemma HighPart(n: nat, d: nat, e: nat)
    requires d > 0 && n < d * e
    ensures n / d < e && n / d <= n
  {
    assert n == d * (n / d) + n % d;
    MulLess(d, n / d, e);
    MulMono(n / d, 1, d);
  }

  lemma CmIsStep(q: word, a: word, b: word, x: word, s: nat, t: word)
    requires 0 < s < 32
    ensures Cm(q, a, b, x, s, t) == Low(Rotated(Plus(Plus(a, q), Plus(x, t)), s) + b)
  {
    hide Ad, Rl, Rotated;
    AdIsAddition(a, q);
    AdIsAddition(x, t);
    AdIsAddition(Plus(a, q), Plus(x, t));
    var sum := Plus(Plus(a, q), Plus(x, t));
    RlRotates(sum, s);
    AdIsAddition(Rl(sum, s), b);
  }

  // One line of the program is one step of the table.
  lemma Line(k: nat, r0: Registers, x: seq<word>, a: word, b: word, c: word, d: word, q: word, n: nat, s: nat, t: word)
    requires k < 64 && |x| == 16 && Steps(k, r0, x) == Registers(a, b, c, d)
    requires q == Mix(k, b, c, d) && n == Index(k) && s == Shift(k) && t == Sine(k)
    ensures Steps(k + 1, r0, x) == Registers(d, Cm(q, a, b, x[n], s, t), b, c)
  {
    hide Cm, Rl, Mix, Index, Shift, Sine, Rotated, Plus, Low;
    CmIsStep(q, a, b, x[n], s, t);
  }

  lemma FfLine(k: nat, r0: Registers, x: seq<word>, a: word, b: word, c: word, d: word, n: nat, s: nat, t: word)
    requires k < 16 && |x| == 16 && Steps(k, r0, x) == Registers(a, b, c, d) && n == Index(k) && s == Shift(k)
    requires t == Sine(k)
    ensures Steps(k + 1, r0, x) == Registers(d, Ff(a, b, c, d, x[n], s, t), b, c)
  {
    hide Cm, Index, Shift, Sine, Steps, OrW, AndW, XorW, NotW;
    Line(k, r0, x, a, b, c, d, Mix(k, b, c, d), n, s, t);
  }

  lemma GgLine(k: nat, r0: Registers, x: seq<word>, a: word, b: word, c: word, d: word, n: nat, s: nat, t: word)
    requires 16 <= k < 32 && |x| == 16 && Steps(k, r0, x) == Registers(a, b, c, d) && n == Index(k) && s == Shift(k)
    requires t == Sine(k)
    ensures Steps(k + 1, r0, x) == Registers(d, Gg(a, b, c, d, x[n], s, t), b, c)
  {
    hide Cm, Index, Shift, Sine, Steps, OrW, AndW, XorW, NotW;
    Line(k, r0, x, a, b, c, d, Mix(k, b, c, d), n, s, t);
  }

  lemma HhLine(k: nat, r0: Registers, x: seq<word>, a: word, b: word, c: word, d: word, n: nat, s: nat, t: word)
    requires 32 <= k < 48 && |x| == 16 && Steps(k, r0, x) == Registers(a, b, c, d) && n == Index(k) && s == Shift(k)
    requires t == Sine(k)
    ensures Steps(k + 1, r0, x) == Registers(d, Hh(a, b, c, d, x[n], s, t), b, c)
  {
    hide Cm, Index, Shift, Sine, Steps, OrW, AndW, XorW, NotW;
    Line(k, r0, x, a, b, c, d, Mix(k, b, c, d), n, s, t);
  }

  lemma IiLine(k: nat, r0: Registers, x: seq<word>, a: word, b: word, c: word, d: word, n: nat, s: nat, t: word)
    requires 48 <= k < 64 && |x| == 16 && Steps(k, r0, x) == Registers(a, b, c, d) && n == Index(k) && s == Shift(k)
    requires t == Sine(k)
    ensures Steps(k + 1, r0, x) == Registers(d, Ii(a, b, c, d, x[n], s, t), b, c)
  {
    hide Cm, Index, Shift, Sine, Steps, OrW, AndW, XorW, NotW;
    Line(k, r0, x, a, b, c, d, Mix(k, b, c, d), n, s, t);
  }

  // A constant of the program, written with its sign.
  function Constant(n: int): word {
    Low(n)
  }

  method FirstRound(ghost r0: Registers, x: seq<word>, i: nat, a0: word, b0: word, c0: word, d0: word)
    returns (a: word, b: word, c: word, d: word)
    requires i + 16 <= |x| && Steps(0, r0, x[i..i + 16]) == Registers(a0, b0, c0, d0)
    ensures Steps(16, r0, x[i..i + 16]) == Registers(a, b, c, d)
  {
    hide Ff, Steps;
    a, b, c, d := a0, b0, c0, d0;
    ghost var y := x[i..i + 16];
    FfLine(0, r0, y, a, b, c, d, 0, 7, Constant(-680876936));
    a := Ff(a, b, c, d, x[i + 0], 7, Constant(-680876936));
    FfLine(1, r0, y, d, a, b, c, 1, 12, Constant(-389564586));
    d := Ff(d, a, b, c, x[i + 1], 12, Constant(-389564586));
    FfLine(2, r0, y, c, d, a, b, 2, 17, Constant(606105819));
    c := Ff(c, d, a, b, x[i + 2], 17, Constant(606105819));
    FfLine(3, r0, y, b, c, d, a, 3, 22, Constant(-1044525330));
    b := Ff(b, c, d, a, x[i + 3], 22, Constant(-1044525330));
    FfLine(4, r0, y, a, b, c, d, 4, 7, Constant(-176418897));
    a := Ff(a, b, c, d, x[i + 4], 7, Constant(-176418897));
    FfLine(5, r0, y, d, a, b, c, 5, 12, Constant(1200080426));
    d := Ff(d, a, b, c, x[i + 5], 12, Constant(1200080426));
    FfLine(6, r0, y, c, d, a, b, 6, 17, Constant(-1473231341));
    c := Ff(c, d, a, b, x[i + 6], 17, Constant(-1473231341));
    FfLine(7, r0, y, b, c, d, a, 7, 22, Constant(-45705983));
    b := Ff(b, c, d, a, x[i + 7], 22, Constant(-45705983));
    FfLine(8, r0, y, a, b, c, d, 8, 7, Constant(1770035416));
    a := Ff(a, b, c, d, x[i + 8], 7, Constant(1770035416));
    FfLine(9, r0, y, d, a, b, c, 9, 12, Constant(-1958414417));
    d := Ff(d, a, b, c, x[i + 9], 12, Constant(-1958414417));
    FfLine(10, r0, y, c, d, a, b, 10, 17, Constant(-42063));
    c := Ff(c, d, a, b, x[i + 10], 17, Constant(-42063));
    FfLine(11, r0, y, b, c, d, a, 11, 22, Constant(-1990404162));
    b := Ff(b, c, d, a, x[i + 11], 22, Constant(-1990404162));
    FfLine(12, r0, y, a, b, c, d, 12, 7, Constant(1804603682));
    a := Ff(a, b, c, d, x[i + 12], 7, Constant(1804603682));
    FfLine(13, r0, y, d, a, b, c, 13, 12, Constant(-40341101));
    d := Ff(d, a, b, c, x[i + 13], 12, Constant(-40341101));
    FfLine(14, r0, y, c, d, a, b, 14, 17, Constant(-1502002290));
    c := Ff(c, d, a, b, x[i + 14], 17, Constant(-1502002290));
    FfLine(15, r0, y, b, c, d, a, 15, 22, Constant(1236535329));
    b := Ff(b, c, d, a, x[i + 15], 22, Constant(1236535329));
  }

  method SecondRound(ghost r0: Registers, x: seq<word>, i: nat, a0: word, b0: word, c0: word, d0: word)
    returns (a: word, b: word, c: word, d: word)
    requires i + 16 <= |x| && Steps(16, r0, x[i..i + 16]) == Registers(a0, b0, c0, d0)
    ensures Steps(32, r0, x[i..i + 16]) == Registers(a, b, c, d)
  {
    hide Gg, Steps;
    a, b, c, d := a0, b0, c0, d0;
    ghost var y := x[i..i + 16];
    GgLine(16, r0, y, a, b, c, d, 1, 5, Constant(-165796510));
    a := Gg(a, b, c, d, x[i + 1], 5, Constant(-165796510));
    GgLine(17, r0, y, d, a, b, c, 6, 9, Constant(-1069501632));
    d := Gg(d, a, b, c, x[i + 6], 9, Constant(-1069501632));
    GgLine(18, r0, y, c, d, a, b, 11, 14, Constant(643717713));
    c := Gg(c, d, a, b, x[i + 11], 14, Constant(643717713));
    GgLine(19, r0, y, b, c, d, a, 0, 20, Constant(-373897302));
    b := Gg(b, c, d, a, x[i + 0], 20, Constant(-373897302));
    GgLine(20, r0, y, a, b, c, d, 5, 5, Constant(-701558691));
    a := Gg(a, b, c, d, x[i + 5], 5, Constant(-701558691));
    GgLine(21, r0, y, d, a, b, c, 10, 9, Constant(38016083));
    d := Gg(d, a, b, c, x[i + 10], 9, Constant(38016083));
    GgLine(22, r0, y, c, d, a, b, 15, 14, Constant(-660478335));
    c := Gg(c, d, a, b, x[i + 15], 14, Constant(-660478335));
    GgLine(23, r0, y, b, c, d, a, 4, 20, Constant(-405537848));
    b := Gg(b, c, d, a, x[i + 4], 20, Constant(-405537848));
    GgLine(24, r0, y, a, b, c, d, 9, 5, Constant(568446438));
    a := Gg(a, b, c, d, x[i + 9], 5, Constant(568446438));
    GgLine(25, r0, y, d, a, b, c, 14, 9, Constant(-1019803690));
    d := Gg(d, a, b, c, x[i + 14], 9, Constant(-1019803690));
    GgLine(26, r0, y, c, d, a, b, 3, 14, Constant(-187363961));
    c := Gg(c, d, a, b, x[i + 3], 14, Constant(-187363961));
    GgLine(27, r0, y, b, c, d, a, 8, 20, Constant(1163531501));
    b := Gg(b, c, d, a, x[i + 8], 20, Constant(1163531501));
    GgLine(28, r0, y, a, b, c, d, 13, 5, Constant(-1444681467));
    a := Gg(a, b, c, d, x[i + 13], 5, Constant(-1444681467));
    GgLine(29, r0, y, d, a, b, c, 2, 9, Constant(-51403784));
    d := Gg(d, a, b, c, x[i + 2], 9, Constant(-51403784));
    GgLine(30, r0, y, c, d, a, b, 7, 14, Constant(1735328473));
    c := Gg(c, d, a, b, x[i + 7], 14, Constant(1735328473));
    GgLine(31, r0, y, b, c, d, a, 12, 20, Constant(-1926607734));
    b := Gg(b, c, d, a, x[i + 12], 20, Constant(-1926607734));
  }

  method ThirdRound(ghost r0: Registers, x: seq<word>, i: nat, a0: word, b0: word, c0: word, d0: word)
    returns (a: word, b: word, c: word, d: word)
    requires i + 16 <= |x| && Steps(32, r0, x[i..i + 16]) == Registers(a0, b0, c0, d0)
    ensures Steps(48, r0, x[i..i + 16]) == Registers(a, b, c, d)
  {
    hide Hh, Steps;
    a, b, c, d := a0, b0, c0, d0;
    ghost var y := x[i..i + 16];
    HhLine(32, r0, y, a, b, c, d, 5, 4, Constant(-378558));
    a := Hh(a, b, c, d, x[i + 5], 4, Constant(-378558));
    HhLine(33, r0, y, d, a, b, c, 8, 11, Constant(-2022574463));
    d := Hh(d, a, b, c, x[i + 8], 11, Constant(-2022574463));
    HhLine(34, r0, y, c, d, a, b, 11, 16, Constant(1839030562));
    c := Hh(c, d, a, b, x[i + 11], 16, Constant(1839030562));
    HhLine(35, r0, y, b, c, d, a, 14, 23, Constant(-35309556));
    b := Hh(b, c, d, a, x[i + 14], 23, Constant(-35309556));
    HhLine(36, r0, y, a, b, c, d, 1, 4, Constant(-1530992060));
    a := Hh(a, b, c, d, x[i + 1], 4, Constant(-1530992060));
    HhLine(37, r0, y, d, a, b, c, 4, 11, Constant(1272893353));
    d := Hh(d, a, b, c, x[i + 4], 11, Constant(1272893353));
    HhLine(38, r0, y, c, d, a, b, 7, 16, Constant(-155497632));
    c := Hh(c, d, a, b, x[i + 7], 16, Constant(-155497632));
    HhLine(39, r0, y, b, c, d, a, 10, 23, Constant(-1094730640));
    b := Hh(b, c, d, a, x[i + 10], 23, Constant(-1094730640));
    HhLine(40, r0, y, a, b, c, d, 13, 4, Constant(681279174));
    a := Hh(a, b, c, d, x[i + 13], 4, Constant(681279174));
    HhLine(41, r0, y, d, a, b, c, 0, 11, Constant(-358537222));
    d := Hh(d, a, b, c, x[i + 0], 11, Constant(-358537222));
    HhLine(42, r0, y, c, d, a, b, 3, 16, Constant(-722521979));
    c := Hh(c, d, a, b, x[i + 3], 16, Constant(-722521979));
    HhLine(43, r0, y, b, c, d, a, 6, 23, Constant(76029189));
    b := Hh(b, c, d, a, x[i + 6], 23, Constant(76029189));
    HhLine(44, r0, y, a, b, c, d, 9, 4, Constant(-640364487));
    a := Hh(a, b, c, d, x[i + 9], 4, Constant(-640364487));
    HhLine(45, r0, y, d, a, b, c, 12, 11, Constant(-421815835));
    d := Hh(d, a, b, c, x[i + 12], 11, Constant(-421815835));
    HhLine(46, r0, y, c, d, a, b, 15, 16, Constant(530742520));
    c := Hh(c, d, a, b, x[i + 15], 16, Constant(530742520));
    HhLine(47, r0, y, b, c, d, a, 2, 23, Constant(-995338651));
    b := Hh(b, c, d, a, x[i + 2], 23, Constant(-995338651));
  }

  method FourthRound(ghost r0: Registers, x: seq<word>, i: nat, a0: word, b0: word, c0: word, d0: word)
    returns (a: word, b: word, c: word, d: word)
    requires i + 16 <= |x| && Steps(48, r0, x[i..i + 16]) == Registers(a0, b0, c0, d0)
    ensures Steps(64, r0, x[i..i + 16]) == Registers(a, b, c, d)
  {
    hide Ii, Steps;
    a, b, c, d := a0, b0, c0, d0;
    ghost var y := x[i..i + 16];
    IiLine(48, r0, y, a, b, c, d, 0, 6, Constant(-198630844));
    a := Ii(a, b, c, d, x[i + 0], 6, Constant(-198630844));
    IiLine(49, r0, y, d, a, b, c, 7, 10, Constant(1126891415));
    d := Ii(d, a, b, c, x[i + 7], 10, Constant(1126891415));
    IiLine(50, r0, y, c, d, a, b, 14, 15, Constant(-1416354905));
    c := Ii(c, d, a, b, x[i + 14], 15, Constant(-1416354905));
    IiLine(51, r0, y, b, c, d, a, 5, 21, Constant(-57434055));
    b := Ii(b, c, d, a, x[i + 5], 21, Constant(-57434055));
    IiLine(52, r0, y, a, b, c, d, 12, 6, Constant(1700485571));
    a := Ii(a, b, c, d, x[i + 12], 6, Constant(1700485571));
    IiLine(53, r0, y, d, a, b, c, 3, 10, Constant(-1894986606));
    d := Ii(d, a, b, c, x[i + 3], 10, Constant(-1894986606));
    IiLine(54, r0, y, c, d, a, b, 10, 15, Constant(-1051523));
    c := Ii(c, d, a, b, x[i + 10], 15, Constant(-1051523));
    IiLine(55, r0, y, b, c, d, a, 1, 21, Constant(-2054922799));
    b := Ii(b, c, d, a, x[i + 1], 21, Constant(-2054922799));
    IiLine(56, r0, y, a, b, c, d, 8, 6, Constant(1873313359));
    a := Ii(a, b, c, d, x[i + 8], 6, Constant(1873313359));
    IiLine(57, r0, y, d, a, b, c, 15, 10, Constant(-30611744));
    d := Ii(d, a, b, c, x[i + 15], 10, Constant(-30611744));
    IiLine(58, r0, y, c, d, a, b, 6, 15, Constant(-1560198380));
    c := Ii(c, d, a, b, x[i + 6], 15, Constant(-1560198380));
    IiLine(59, r0, y, b, c, d, a, 13, 21, Constant(1309151649));
    b := Ii(b, c, d, a, x[i + 13], 21, Constant(1309151649));
    IiLine(60, r0, y, a, b, c, d, 4, 6, Constant(-145523070));
    a := Ii(a, b, c, d, x[i + 4], 6, Constant(-145523070));
    IiLine(61, r0, y, d, a, b, c, 11, 10, Constant(-1120210379));
    d := Ii(d, a, b, c, x[i + 11], 10, Constant(-1120210379));
    IiLine(62, r0, y, c, d, a, b, 2, 15, Constant(718787259));
    c := Ii(c, d, a, b, x[i + 2], 15, Constant(718787259));
    IiLine(63, r0, y, b, c, d, a, 9, 21, Constant(-343485551));
    b := Ii(b, c, d, a, x[i + 9], 21, Constant(-343485551));
  }

  // ----- padding -----

  // The bytes of a message: a marker, then zeros up to 8 bytes before a multiple of 64; section 3.1.
  function Zeros(n: nat): (r: seq<byte>)
    ensures |r| == n
  {
    seq(n, _ => 0)
  }

  function Blocks(n: nat): nat {
    (n + 8) / 64 + 1
  }

  function PadBytes(m: seq<byte>): (r: seq<byte>)
    ensures |r| == 64 * Blocks(|m|) - 8
  {
    m + [0x80] + Zeros(64 * Blocks(|m|) - 9 - |m|)
  }

  /** The padding is the least that makes room for the marker and the length in whole blocks. */
  lemma PadLeast(m: seq<byte>, size: nat)
    requires size % 64 == 0
    ensures |m| + 9 <= size <==> |PadBytes(m)| + 8 <= size
  {
    var k := size / 64;
    assert size == 64 * k;
  }

  // The bytes of a word, low-order byte first.
  function WordAt(b: seq<byte>, j: nat): word
    requires 4 * j + 4 <= |b|
  {
    b[4 * j] as int + 0x100 * b[4 * j + 1] as int + 0x1_0000 * b[4 * j + 2] as int + 0x100_0000 * b[4 * j + 3] as int
  }

  function WordsOf(b: seq<byte>): (r: seq<word>)
    requires |b| % 4 == 0
    ensures |r| == |b| / 4
  {
    seq(|b| / 4, j requires 0 <= j < |b| / 4 => WordAt(b, j))
  }

  // The padded message and its length in bits, low-order word first; section 3.2.
  function PadWords(m: seq<byte>): (r: seq<word>)
    ensures |r| == 16 * Blocks(|m|)
  {
    WordsOf(PadBytes(m)) + [Low(8 * |m|), Low(8 * |m| / TWO_32)]
  }

  // What the program makes of a message: it leaves out the high-order word of the length.
  function CodeWords(m: seq<byte>): (r: seq<word>)
    ensures |r| == 16 * Blocks(|m|)
  {
    WordsOf(PadBytes(m)) + [Low(8 * |m|), 0]
  }

  /** The program's padding is that of the standard exactly for messages whose length in bits fits in 32 bits;
      strings in JavaScript are shorter than 2^53. */
  lemma PaddingExact(m: seq<byte>)
    requires |m| < 0x20_0000_0000_0000
    ensures CodeWords(m) == PadWords(m) <==> |m| < 0x2000_0000
  {
    var high := 8 * |m| / TWO_32;
    assert high < TWO_32;
    assert CodeWords(m)[|CodeWords(m)| - 1] == 0 && PadWords(m)[|PadWords(m)| - 1] == high;
  }

  // A byte of the padded message, as far as it has been written: n bytes so far, zero after them.
  function Written(b: seq<byte>, n: nat, p: nat): byte
    requires n <= |b|
  {
    if p < n then b[p] else 0
  }

  function WordSoFar(b: seq<byte>, n: nat, j: nat): word
    requires n <= |b|
  {
    Written(b, n, 4 * j) as int + 0x100 * Written(b, n, 4 * j + 1) as int + 0x1_0000 * Written(b, n, 4 * j + 2) as int
    + 0x100_0000 * Written(b, n, 4 * j + 3) as int
  }

  // Shifting a byte to its place in a word.
  function Placed(c: byte, place: nat): word
    requires place < 4
  {
    Low(c * Pow2(8 * place))
  }

  lemma Places(place: nat)
    requires place < 4
    ensures Pow2(8 * place) == if place == 0 then 1 else if place == 1 then 0x100 else if place == 2 then 0x1_0000
            else 0x100_0000
  {
    PowersOfTwo();
    if place == 0 {
      assert Pow2(8 * place) == 1;
    }
  }

  // The bytes before a place in a word, and the byte at that place.
  lemma PlacedFits(b: seq<byte>, n: nat, place: nat)
    requires n < |b| && place == n % 4
    ensures WordSoFar(b, n, n / 4) < Pow2(8 * place) && Placed(b[n], place) == b[n] * Pow2(8 * place)
    ensures WordSoFar(b, n + 1, n / 4) == WordSoFar(b, n, n / 4) + b[n] * Pow2(8 * place)
  {
    hide Pow2;
    Places(place);
    assert n == 4 * (n / 4) + place;
    var j := n / 4;
    assert Written(b, n, n) == 0 && Written(b, n + 1, n) == b[n];
    assert forall p :: 0 <= p && p != n ==> Written(b, n + 1, p) == Written(b, n, p);
    assert forall p :: p > n ==> Written(b, n, p) == 0;
  }

  // Writing one more byte adds it to its word, whose bits there are still zero.
  lemma WriteByte(b: seq<byte>, n: nat, j: nat)
    requires n < |b|
    ensures WordSoFar(b, n + 1, j) ==
            if j == n / 4 then OrW(WordSoFar(b, n, j), Placed(b[n], n % 4)) else WordSoFar(b, n, j)
  {
    if j == n / 4 {
      hide Or, Pow2, Placed, WordSoFar;
      var place, before := n % 4, WordSoFar(b, n, j);
      PlacedFits(b, n, place);
      OrDisjoint(b[n], before, 8 * place);
      OrSwap(before, b[n] * Pow2(8 * place));
    }
  }

  lemma {:induction false} OrSwap(x: nat, y: nat)
    ensures Or(x, y) == Or(y, x)
    decreases x + y
  {
    if x != 0 && y != 0 {
      OrSwap(x / 2, y / 2);
    }
  }

  /** The program's block array: the bytes of the message, the marker, zeros, and the length in bits. */
  method Sb(x: seq<byte>) returns (blks: array<word>)
    ensures fresh(blks) && blks[..] == CodeWords(x)
  {
    var nblk := (|x| + 8) / 64 + 1;
    blks := new word[nblk * 16](_ => 0);
    ghost var b := PadBytes(x) + Zeros(8);
    var i := 0;
    while i < |x|
      invariant 0 <= i <= |x|
      invariant forall j :: 0 <= j < blks.Length ==> blks[j] == WordSoFar(b, i, j)
    {
      Pieces(b, i, blks.Length);
      blks[i / 4] := OrW(blks[i / 4], Placed(x[i], i % 4));
      i := i + 1;
    }
    Pieces(b, i, blks.Length);
    blks[i / 4] := OrW(blks[i / 4], Placed(0x80, i % 4));
    ghost var filled := blks[..];
    blks[nblk * 16 - 2] := Low(8 * |x|);
    forall j | 0 <= j < |CodeWords(x)|
      ensures blks[j] == CodeWords(x)[j]
    {
      RestZero(x, j);
    }
  }

  lemma Pieces(b: seq<byte>, n: nat, words: nat)
    requires n < |b|
    ensures forall j :: 0 <= j < words ==>
              WordSoFar(b, n + 1, j) ==
              if j == n / 4 then OrW(WordSoFar(b, n, j), Placed(b[n], n % 4)) else WordSoFar(b, n, j)
  {
    forall j | 0 <= j < words
      ensures WordSoFar(b, n + 1, j) ==
              if j == n / 4 then OrW(WordSoFar(b, n, j), Placed(b[n], n % 4)) else WordSoFar(b, n, j)
    {
      WriteByte(b, n, j);
    }
  }

  // Behind the marker there are only zeros.
  lemma RestZero(x: seq<byte>, j: nat)
    requires j < |CodeWords(x)|
    ensures var b := PadBytes(x) + Zeros(8);
            j < |CodeWords(x)| - 2 ==> WordSoFar(b, |x| + 1, j) == CodeWords(x)[j]
    ensures j >= |CodeWords(x)| - 2 ==> WordSoFar(PadBytes(x) + Zeros(8), |x| + 1, j) == 0
  {
  }

  // ----- output, section 3.5 -----

  function HexDigit(n: nat): char
    requires n < 16
  {
    "0123456789abcdef"[n]
  }

  // A byte in hexadecimal notation.
  function HexByte(b: byte): string {
    [HexDigit(b / 16), HexDigit(b % 16)]
  }

  // Byte j of a word.
  function ByteOf(n: word, j: nat): byte
    requires j < 4
  {
    n / Pow2(8 * j) % 256
  }

  // The bytes of a word, low-order byte first.
  function Hex(n: word): string {
    HexByte(ByteOf(n, 0)) + HexByte(ByteOf(n, 1)) + HexByte(ByteOf(n, 2)) + HexByte(ByteOf(n, 3))
  }

  function HexAll(r: Registers): string {
    Hex(r.a) + Hex(r.b) + Hex(r.c) + Hex(r.d)
  }

  // Taking away a multiple of the divisor.
  lemma DivMinus(n: nat, p: nat, r: nat)
    requires p > 0
    ensures (n - p * r) / p == n / p - r
  {
    var e, m := n / p, n % p;
    assert n - p * r == p * (e - r) + m;
    DivExact(n - p * r, p, e - r, m);
  }

  lemma DivExact(n: int, d: nat, e: int, r: nat)
    requires d > 0 && n == d * e + r && r < d
    ensures n / d == e
  {
    var x, y := n / d, n % d;
    assert d * (x - e) == r - y;
    if x > e {
      MulMono(d, 1, x - e);
    } else if x < e {
      assert d * (e - x) == y - r;
      MulMono(d, 1, e - x);
    }
  }

  lemma Modulo16(x: int, r: nat)
    ensures (x - 16 * r) % 16 == x % 16
  {
  }

  // The bits above the sign do not show in the last four.
  lemma Nibble(n: word, shift: nat)
    requires shift <= 28
    ensures Signed(n) / Pow2(shift) % 16 == n / Pow2(shift) % 16
  {
    PowersOfTwo();
    FourBits();
    hide Pow2;
    Pow2Sum(shift, 32 - shift);
    Pow2Sum(4, 28 - shift);
    NibbleOf(n, Pow2(shift), Pow2(28 - shift), 16 * Pow2(28 - shift));
  }

  lemma NibbleOf(n: word, p: nat, r: nat, sixteen: nat)
    requires p > 0 && sixteen == 16 * r && p * sixteen == TWO_32
    ensures Signed(n) / p % 16 == n / p % 16
  {
    if n >= 0x8000_0000 {
      DivMinus(n, p, sixteen);
      Modulo16(n / p, r);
    }
  }

  lemma FourBits()
    ensures Pow2(4) == 16
  {
  }

  lemma ByteNibbles(n: word, j: nat)
    requires j < 4
    ensures Signed(n) / Pow2(8 * j + 4) % 16 == ByteOf(n, j) / 16
    ensures Signed(n) / Pow2(8 * j) % 16 == ByteOf(n, j) % 16
  {
    Nibble(n, 8 * j);
    Nibble(n, 8 * j + 4);
    Pow2Sum(8 * j, 4);
    assert Pow2(4) == 16;
    NibblesOf(n, Pow2(8 * j));
  }

  lemma NibblesOf(n: nat, p: nat)
    requires p > 0
    ensures n / (p * 16) % 16 == n / p % 256 / 16 && n / p % 16 == n / p % 256 % 16
  {
    DivTwice(n, p, 16);
    var q := n / p;
    assert q == 256 * (q / 256) + q % 256;
  }

  lemma DivTwice(n: nat, p: nat, k: nat)
    requires p > 0 && k > 0
    ensures n / (p * k) == n / p / k
  {
    var q, r := n / p, n % p;
    var e, f := q / k, q % k;
    assert n == p * q + r;
    Nest(n, p, k, q, r, e, f);
    MulMono(p, 1, k);
    DivExact(n, p * k, e, p * f + r);
  }

  lemma Nest(n: nat, p: nat, k: nat, q: nat, r: nat, e: nat, f: nat)
    requires n == p * q + r && q == k * e + f && r < p && f < k
    ensures n == p * k * e + (p * f + r) && p * f + r < p * k
  {
    assert p * q == p * (k * e) + p * f;
    assert p * (k * e) == p * k * e;
    MulMono(p, f + 1, k);
    assert p * (f + 1) == p * f + p;
  }

  method Rh(n: word) returns (s: string)
    ensures s == Hex(n)
  {
    s := "";
    var j := 0;
    while j <= 3
      invariant 0 <= j <= 4
      invariant s == if j == 0 then "" else if j == 1 then HexByte(ByteOf(n, 0))
                     else if j == 2 then HexByte(ByteOf(n, 0)) + HexByte(ByteOf(n, 1))
                     else if j == 3 then HexByte(ByteOf(n, 0)) + HexByte(ByteOf(n, 1)) + HexByte(ByteOf(n, 2))
                     else Hex(n)
    {
      ByteNibbles(n, j);
      var high := Signed(n) / Pow2(8 * j + 4) % 16;
      var low := Signed(n) / Pow2(8 * j) % 16;
      assert [HexDigit(high)] + [HexDigit(low)] == HexByte(ByteOf(n, j));
      s := s + ([HexDigit(high)] + [HexDigit(low)]);
      j := j + 1;
    }
  }

  // ----- the whole digest -----

  method Process(x: seq<word>) returns (a: word, b: word, c: word, d: word)
    requires |x| % 16 == 0
    ensures Registers(a, b, c, d) == Digest(x, |x| / 16)
  {
    hide Block;
    a, b, c, d := Constant(1732584193), Constant(-271733879), Constant(-1732584194), Constant(271733878);
    var i := 0;
    ghost var n := 0;
    while i < |x|
      invariant 0 <= i <= |x| && i == 16 * n && Registers(a, b, c, d) == Digest(x, n)
    {
      a, b, c, d := OneBlock(x, i, a, b, c, d);
      i := i + 16;
      n := n + 1;
    }
  }

  // The four rounds, and the old registers added.
  method OneBlock(x: seq<word>, i: nat, olda: word, oldb: word, oldc: word, oldd: word)
    returns (a: word, b: word, c: word, d: word)
    requires i + 16 <= |x|
    ensures Registers(a, b, c, d) == Block(Registers(olda, oldb, oldc, oldd), x[i..i + 16])
  {
    hide Step, Ad;
    ghost var r := Registers(olda, oldb, oldc, oldd);
    ghost var y := x[i..i + 16];
    assert Steps(0, r, y) == r;
    hide Steps;
    a, b, c, d := FirstRound(r, x, i, olda, oldb, oldc, oldd);
    a, b, c, d := SecondRound(r, x, i, a, b, c, d);
    a, b, c, d := ThirdRound(r, x, i, a, b, c, d);
    a, b, c, d := FourthRound(r, x, i, a, b, c, d);
    AdIsAddition(a, olda);
    AdIsAddition(b, oldb);
    AdIsAddition(c, oldc);
    AdIsAddition(d, oldd);
    a, b, c, d := Ad(a, olda), Ad(b, oldb), Ad(c, oldc), Ad(d, oldd);
  }

  /** The digest: for every message shorter than 2^29 bytes it is that of RFC 1321. */
  method Md5Digest(data: seq<byte>) returns (r: string)
    ensures r == HexAll(Digest(CodeWords(data), Blocks(|data|)))
    ensures |data| < 0x2000_0000 ==> r == HexAll(Digest(PadWords(data), Blocks(|data|)))
  {
    hide Digest, CodeWords, PadWords, Hex;
    var blks := Sb(data);
    var a, b, c, d := Process(blks[..]);
    var ra := Rh(a);
    var rb := Rh(b);
    var rc := Rh(c);
    var rd := Rh(d);
    if |data| < 0x2000_0000 {
      PaddingExact(data);
    }
    r := ra + rb + rc + rd;
  }
}
