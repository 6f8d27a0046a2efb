/**
  What the tables and bit operations of MD5 are (sections 3.3 and 3.4 of RFC 1321), apart from how they are written
  down.
 */
module Md5Meaning {
  import opened Common
  import opened Md5

  // ----- bits -----

  predicate Bit(x: nat, k: nat) {
    x / Pow2(k) % 2 == 1
  }

  lemma BitHalf(x: nat, k: nat)
    requires k > 0
    ensures Bit(x, k) <==> Bit(x / 2, k - 1)
  {
    hide Pow2;
    assert Pow2(k) == 2 * Pow2(k - 1) by {
      PowerStep(k);
    }
    DivTwice(x, 2, Pow2(k - 1));
  }

  lemma PowerStep(k: nat)
    requires k > 0
    ensures Pow2(k) == 2 * Pow2(k - 1)
  {
  }

  lemma LastBit(x: nat)
    ensures Bit(x, 0) <==> x % 2 == 1
  {
    assert Pow2(0) == 1;
  }

  lemma NoBits(k: nat)
    ensures !Bit(0, k)
  {
    assert 0 / Pow2(k) == 0;
  }

  /** The operations, bit by bit. */
  lemma {:induction false} BitsExact(x: nat, y: nat, k: nat)
    ensures Bit(And(x, y), k) <==> Bit(x, k) && Bit(y, k)
    ensures Bit(Or(x, y), k) <==> Bit(x, k) || Bit(y, k)
    ensures Bit(Xor(x, y), k) <==> Bit(x, k) != Bit(y, k)
  {
    hide Bit;
    NoBits(k);
    if x == 0 || y == 0 {
    } else {
      Halved(x, y);
      LastBit(x);
      LastBit(y);
      LastBit(And(x, y));
      LastBit(Or(x, y));
      LastBit(Xor(x, y));
      if k > 0 {
        BitsExact(x / 2, y / 2, k - 1);
        BitHalf(x, k);
        BitHalf(y, k);
        BitHalf(And(x, y), k);
        BitHalf(Or(x, y), k);
        BitHalf(Xor(x, y), k);
      }
    }
  }

  lemma Halved(x: nat, y: nat)
    requires x > 0 && y > 0
    ensures And(x, y) / 2 == And(x / 2, y / 2) && (And(x, y) % 2 == 1 <==> x % 2 == 1 && y % 2 == 1)
    ensures Or(x, y) / 2 == Or(x / 2, y / 2) && (Or(x, y) % 2 == 1 <==> x % 2 == 1 || y % 2 == 1)
    ensures Xor(x, y) / 2 == Xor(x / 2, y / 2) && (Xor(x, y) % 2 == 1 <==> x % 2 != y % 2)
  {
    hide And, Or, Xor;
    AndHalved(x, y);
    OrHalved(x, y);
    XorHalved(x, y);
  }

  lemma AndHalved(x: nat, y: nat)
    requires x > 0 && y > 0
    ensures And(x, y) == 2 * And(x / 2, y / 2) + if x % 2 == 1 && y % 2 == 1 then 1 else 0
  {
    hide And;
    AndIs(x, y);
    Product(x % 2, y % 2);
  }

  lemma AndIs(x: nat, y: nat)
    requires x > 0 && y > 0
    ensures And(x, y) == x % 2 * (y % 2) + 2 * And(x / 2, y / 2)
  {
  }

  lemma Product(p: nat, q: nat)
    requires p < 2 && q < 2
    ensures p * q == if p == 1 && q == 1 then 1 else 0
  {
    if p == 0 {
      assert p * q == 0;
    } else {
      assert p * q == q;
    }
  }

  lemma OrHalved(x: nat, y: nat)
    requires x > 0 && y > 0
    ensures Or(x, y) == 2 * Or(x / 2, y / 2) + if x % 2 == 1 || y % 2 == 1 then 1 else 0
  {
  }

  lemma XorHalved(x: nat, y: nat)
    requires x > 0 && y > 0
    ensures Xor(x, y) == 2 * Xor(x / 2, y / 2) + if x % 2 != y % 2 then 1 else 0
  {
  }

  lemma {:induction false} Fits(x: nat, y: nat, n: nat)
    requires x < Pow2(n) && y < Pow2(n)
    ensures Or(x, y) < Pow2(n) && Xor(x, y) < Pow2(n)
  {
    if x > 0 && y > 0 {
      Fits(x / 2, y / 2, n - 1);
    }
  }

  // The complement among n bits.
  lemma {:induction false} NotBits(x: nat, n: nat, k: nat)
    requires x < Pow2(n) && k < n
    ensures Bit(Pow2(n) - 1 - x, k) <==> !Bit(x, k)
  {
    hide Bit;
    PowerStep(n);
    var y := Pow2(n) - 1 - x;
    LastBit(x);
    LastBit(y);
    if k > 0 {
      assert y / 2 == Pow2(n - 1) - 1 - x / 2;
      BitHalf(x, k);
      BitHalf(y, k);
      NotBits(x / 2, n - 1, k - 1);
    }
  }

  /** The operations on words, bit by bit. */
  lemma WordBits(x: word, y: word, k: nat)
    requires k < 32
    ensures Bit(AndW(x, y), k) <==> Bit(x, k) && Bit(y, k)
    ensures Bit(OrW(x, y), k) <==> Bit(x, k) || Bit(y, k)
    ensures Bit(XorW(x, y), k) <==> Bit(x, k) != Bit(y, k)
    ensures Bit(NotW(x), k) <==> !Bit(x, k)
  {
    hide Bit, Pow2;
    PowersOfTwo();
    BitsExact(x, y, k);
    Fits(x, y, 32);
    NotBits(x, 32, k);
  }

  /** The four auxiliary functions, bit by bit: b chooses between c and d, d chooses between b and c, parity, and c
      against b or not d. */
  lemma MixBits(step: nat, b: word, c: word, d: word, k: nat)
    requires k < 32
    ensures Bit(Mix(step, b, c, d), k) <==>
            if step < 16 then if Bit(b, k) then Bit(c, k) else Bit(d, k)
            else if step < 32 then if Bit(d, k) then Bit(b, k) else Bit(c, k)
            else if step < 48 then Bit(b, k) != (Bit(c, k) != Bit(d, k))
            else Bit(c, k) != (Bit(b, k) || !Bit(d, k))
  {
    hide Bit, OrW, AndW, XorW, NotW;
    WordBits(b, c, k);
    WordBits(b, d, k);
    WordBits(d, b, k);
    WordBits(NotW(b), d, k);
    WordBits(c, NotW(d), k);
    WordBits(b, NotW(d), k);
    WordBits(AndW(b, c), AndW(NotW(b), d), k);
    WordBits(AndW(b, d), AndW(c, NotW(d)), k);
    WordBits(XorW(b, c), d, k);
    WordBits(c, OrW(b, NotW(d)), k);
  }

  // ----- tables -----

  // The words of a block in each round, and the distances of the shifts.
  const FIRST: seq<nat> := [0, 1, 5, 0]
  const STRIDE: seq<nat> := [1, 5, 3, 7]
  const SHIFTS: seq<seq<nat>> := [[7, 12, 17, 22], [5, 9, 14, 20], [4, 11, 16, 23], [6, 10, 15, 21]]

  /** Each round goes through all words of the block, from its own first word in its own strides, and repeats its own
      four shifts. */
  lemma Rounds(round: nat, j: nat)
    requires round < 4 && j < 16
    ensures Index(16 * round + j) == (FIRST[round] + j * STRIDE[round]) % 16
    ensures |SHIFTS[round]| == 4 && Shift(16 * round + j) == SHIFTS[round][j % 4]
  {
    hide Index, Shift;
    if round == 0 {
      Round(0, j, 0, 1, [7, 12, 17, 22]);
    } else if round == 1 {
      Round(1, j, 1, 5, [5, 9, 14, 20]);
    } else if round == 2 {
      Round(2, j, 5, 3, [4, 11, 16, 23]);
    } else {
      Round(3, j, 0, 7, [6, 10, 15, 21]);
    }
  }

  lemma Round(round: nat, j: nat, first: nat, stride: nat, shifts: seq<nat>)
    requires round < 4 && j < 16 && |shifts| == 4
    requires if round == 0 then first == 0 && stride == 1 && shifts == [7, 12, 17, 22]
             else if round == 1 then first == 1 && stride == 5 && shifts == [5, 9, 14, 20]
             else if round == 2 then first == 5 && stride == 3 && shifts == [4, 11, 16, 23]
             else first == 0 && stride == 7 && shifts == [6, 10, 15, 21]
    ensures Index(16 * round + j) == (first + j * stride) % 16 && Shift(16 * round + j) == shifts[j % 4]
  {
    hide Index, Shift;
    RoundIndex(round, j);
    assert j * stride == if round == 0 then j else if round == 1 then 5 * j else if round == 2 then 3 * j else 7 * j;
    RoundShift(round, j);
  }

  lemma RoundIndex(round: nat, j: nat)
    requires round < 4 && j < 16
    ensures Index(16 * round + j) == (if round == 0 then j else if round == 1 then 1 + 5 * j
                                      else if round == 2 then 5 + 3 * j else 7 * j) % 16
  {
    if round == 1 {
      Modulo16(5 * (16 + j) + 1, 5);
    } else if round == 2 {
      Modulo16(3 * (32 + j) + 5, 6);
    } else if round == 3 {
      Modulo16(7 * (48 + j), 21);
    }
  }

  lemma RoundShift(round: nat, j: nat)
    requires round < 4 && j < 16
    ensures Shift(16 * round + j) ==
            (if round == 0 then [7, 12, 17, 22] else if round == 1 then [5, 9, 14, 20]
             else if round == 2 then [4, 11, 16, 23] else [6, 10, 15, 21])[j % 4]
  {
    assert (16 * round + j) % 4 == j % 4;
  }

  // Sine and cosine of 1 in units of the last of 24 digits.
  const UNIT: nat := 1000000000000000000000000
  const SIN_ONE := 841470984807896506652502
  const COS_ONE := 540302305868139717400936

  // The sines of k and of k + 1: each sine is twice the one before it times the cosine of 1, less the one before that.
  function Wave(k: nat): (int, int) {
    if k == 0 then (0, SIN_ONE)
    else
      var (a, b) := Wave(k - 1);
      (b, 2 * COS_ONE * b / UNIT - a)
  }

  predicate OfSine(k: nat) {
    k < 64 && Sine(k) == (if Wave(k).1 < 0 then -Wave(k).1 else Wave(k).1) * TWO_32 / UNIT
  }

  // One sine more.
  lemma WaveStep(k: nat, a: int, b: int, c: int)
    requires k < 64 && Wave(k) == (a, b) && c == 2 * COS_ONE * b / UNIT - a
    requires Sine(k) == (if b < 0 then -b else b) * TWO_32 / UNIT
    ensures Wave(k + 1) == (b, c) && OfSine(k)
  {
  }

  lemma Row0()
    requires Wave(0) == (0, 841470984807896506652502)
    ensures Wave(8) == (989358246623381777808121, 412118485241756569756265)
    ensures forall k :: 0 <= k < 8 ==> OfSine(k)
  {
    hide Wave, OfSine;
    WaveStep(0, 0, 841470984807896506652502, 909297426825681695396018);
    WaveStep(1, 841470984807896506652502, 909297426825681695396018, 141120008059867222100742);
    WaveStep(2, 909297426825681695396018, 141120008059867222100742, -756802495307928251372641);
    WaveStep(3, 141120008059867222100742, -756802495307928251372641, -958924274663138468893153);
    WaveStep(4, -756802495307928251372641, -958924274663138468893153, -279415498198925872811551);
    WaveStep(5, -958924274663138468893153, -279415498198925872811551, 656986598718789090397002);
    WaveStep(6, -279415498198925872811551, 656986598718789090397002, 989358246623381777808121);
    WaveStep(7, 656986598718789090397002, 989358246623381777808121, 412118485241756569756265);
  }

  lemma Row1()
    requires Wave(8) == (989358246623381777808121, 412118485241756569756265)
    ensures Wave(16) == (-287903316665065294784468, -961397491879556857261640)
    ensures forall k :: 8 <= k < 16 ==> OfSine(k)
  {
    hide Wave, OfSine;
    WaveStep(8, 989358246623381777808121, 412118485241756569756265, -544021110889369813404754);
    WaveStep(9, 412118485241756569756265, -544021110889369813404754, -999990206550703457051564);
    WaveStep(10, -544021110889369813404754, -999990206550703457051564, -536572918000434971665366);
    WaveStep(11, -999990206550703457051564, -536572918000434971665366, 420167036826640921868963);
    WaveStep(12, -536572918000434971665366, 420167036826640921868963, 990607355694870307875354);
    WaveStep(13, 420167036826640921868963, 990607355694870307875354, 650287840157116865829730);
    WaveStep(14, 990607355694870307875354, 650287840157116865829730, -287903316665065294784468);
    WaveStep(15, 650287840157116865829730, -287903316665065294784468, -961397491879556857261640);
  }

  lemma Row2()
    requires Wave(16) == (-287903316665065294784468, -961397491879556857261640)
    ensures Wave(24) == (-905578362006623845135786, -132351750097773028901988)
    ensures forall k :: 16 <= k < 24 ==> OfSine(k)
  {
    hide Wave, OfSine;
    WaveStep(16, -287903316665065294784468, -961397491879556857261640, -750987246771676103750147);
    WaveStep(17, -961397491879556857261640, -750987246771676103750147, 149877209662952329754253);
    WaveStep(18, -750987246771676103750147, 149877209662952329754253, 912945250727627654376105);
    WaveStep(19, 149877209662952329754253, 912945250727627654376105, 836655638536056031866471);
    WaveStep(20, 912945250727627654376105, 836655638536056031866471, -8851309290403875921707);
    WaveStep(21, 836655638536056031866471, -8851309290403875921707, -846220404175170635241335);
    WaveStep(22, -8851309290403875921707, -846220404175170635241335, -905578362006623845135786);
    WaveStep(23, -846220404175170635241335, -905578362006623845135786, -132351750097773028901988);
  }

  lemma Row3()
    requires Wave(24) == (-905578362006623845135786, -132351750097773028901988)
    ensures Wave(32) == (551426681241690550661576, 999911860107267145728083)
    ensures forall k :: 24 <= k < 32 ==> OfSine(k)
  {
    hide Wave, OfSine;
    WaveStep(24, -905578362006623845135786, -132351750097773028901988, 762558450479602737515834);
    WaveStep(25, -132351750097773028901988, 762558450479602737515834, 956375928404503013432334);
    WaveStep(26, 762558450479602737515834, 956375928404503013432334, 270905788307869019986324);
    WaveStep(27, 956375928404503013432334, 270905788307869019986324, -663633884212967502151188);
    WaveStep(28, 270905788307869019986324, -663633884212967502151188, -988031624092861789987745);
    WaveStep(29, -663633884212967502151188, -988031624092861789987745, -404037645323065006048751);
    WaveStep(30, -988031624092861789987745, -404037645323065006048751, 551426681241690550661576);
    WaveStep(31, -404037645323065006048751, 551426681241690550661576, 999911860107267145728083);
  }

  lemma Row4()
    requires Wave(32) == (551426681241690550661576, 999911860107267145728083)
    ensures Wave(40) == (745113160479348786987689, -158622668804708987103346)
    ensures forall k :: 32 <= k < 40 ==> OfSine(k)
  {
    hide Wave, OfSine;
    WaveStep(32, 551426681241690550661576, 999911860107267145728083, 529082686120023820832466);
    WaveStep(33, 999911860107267145728083, 529082686120023820832466, -428182669496151004406775);
    WaveStep(34, 529082686120023820832466, -428182669496151004406775, -991778853443115736835292);
    WaveStep(35, -428182669496151004406775, -991778853443115736835292, -643538133356999460685650);
    WaveStep(36, -991778853443115736835292, -643538133356999460685650, 296368578709385317392322);
    WaveStep(37, -643538133356999460685650, 296368578709385317392322, 963795386284087753260671);
    WaveStep(38, 296368578709385317392322, 963795386284087753260671, 745113160479348786987689);
    WaveStep(39, 963795386284087753260671, 745113160479348786987689, -158622668804708987103346);
  }

  lemma Row5()
    requires Wave(40) == (745113160479348786987689, -158622668804708987103346)
    ensures Wave(48) == (-768254661323666799044986, -953752652759471818360411)
    ensures forall k :: 40 <= k < 48 ==> OfSine(k)
  {
    hide Wave, OfSine;
    WaveStep(40, 745113160479348786987689, -158622668804708987103346, -916521547915633785899000);
    WaveStep(41, -158622668804708987103346, -916521547915633785899000, -831774742628598288209560);
    WaveStep(42, -916521547915633785899000, -831774742628598288209560, 17701925105413577807985);
    WaveStep(43, -831774742628598288209560, 17701925105413577807985, 850903524534118424862394);
    WaveStep(44, 17701925105413577807985, 850903524534118424862394, 901788347648809185033276);
    WaveStep(45, 850903524534118424862394, 901788347648809185033276, 123573122745224004061495);
    WaveStep(46, 901788347648809185033276, 123573122745224004061495, -768254661323666799044986);
    WaveStep(47, 123573122745224004061495, -768254661323666799044986, -953752652759471818360411);
  }

  lemma Row6()
    requires Wave(48) == (-768254661323666799044986, -953752652759471818360411)
    ensures Wave(56) == (-521551002086911880187376, 436164755247824959080569)
    ensures forall k :: 48 <= k < 56 ==> OfSine(k)
  {
    hide Wave, OfSine;
    WaveStep(48, -768254661323666799044986, -953752652759471818360411, -262374853703928785914359);
    WaveStep(49, -953752652759471818360411, -262374853703928785914359, 670229175843374734494370);
    WaveStep(50, -262374853703928785914359, 670229175843374734494370, 986627592040485296587560);
    WaveStep(51, 670229175843374734494370, 986627592040485296587560, 395925150181834181503350);
    WaveStep(52, 986627592040485296587560, 395925150181834181503350, -558789048851616245817902);
    WaveStep(53, 395925150181834181503350, -558789048851616245817902, -999755173358619836598629);
    WaveStep(54, -558789048851616245817902, -999755173358619836598629, -521551002086911880187376);
    WaveStep(55, -999755173358619836598629, -521551002086911880187376, 436164755247824959080569);
  }

  lemma Row7()
    requires Wave(56) == (-521551002086911880187376, 436164755247824959080569)
    ensures Wave(64) == (920026038196790683351551, 826828679490103467710184)
    ensures forall k :: 56 <= k < 64 ==> OfSine(k)
  {
    hide Wave, OfSine;
    WaveStep(56, -521551002086911880187376, 436164755247824959080569, 992872648084537118165090);
    WaveStep(57, 436164755247824959080569, 992872648084537118165090, 636738007139137880771200);
    WaveStep(58, 992872648084537118165090, 636738007139137880771200, -304810621102216705625689);
    WaveStep(59, 636738007139137880771200, -304810621102216705625689, -966117770008392947018297);
    WaveStep(60, -304810621102216705625689, -966117770008392947018297, -739180696649222867275986);
    WaveStep(61, -966117770008392947018297, -739180696649222867275986, 167355700302806921527881);
    WaveStep(62, -739180696649222867275986, 167355700302806921527881, 920026038196790683351551);
    WaveStep(63, 167355700302806921527881, 920026038196790683351551, 826828679490103467710184);
  }

  /** The table holds the first 32 binary digits of the sines of 1, 2 and so on, signs left out. */
  lemma SineTable(k: nat)
    requires k < 64
    ensures OfSine(k)
  {
    hide Wave, OfSine, Sine;
    NoWave();
    Row0();
    Row1();
    Row2();
    Row3();
    Row4();
    Row5();
    Row6();
    Row7();
  }

  lemma NoWave()
    ensures Wave(0) == (0, SIN_ONE)
  {
  }

  /** The initial registers are the bytes from 01 up and down again, in the order in which a digest is printed. */
  lemma Initial()
    ensures HexAll(START) == "01234567" + "89abcdef" + "fedcba98" + "76543210"
  {
    hide Hex;
    Initials();
  }

  lemma Initials()
    ensures Hex(0x67452301) == "01234567" && Hex(0xefcdab89) == "89abcdef"
    ensures Hex(0x98badcfe) == "fedcba98" && Hex(0x10325476) == "76543210"
  {
    hide Hex;
    HexOf(0x67452301, 0x01, 0x23, 0x45, 0x67, "01", "23", "45", "67");
    HexOf(0xefcdab89, 0x89, 0xab, 0xcd, 0xef, "89", "ab", "cd", "ef");
    HexOf(0x98badcfe, 0xfe, 0xdc, 0xba, 0x98, "fe", "dc", "ba", "98");
    HexOf(0x10325476, 0x76, 0x54, 0x32, 0x10, "76", "54", "32", "10");
  }

  lemma HexOf(n: word, a: byte, b: byte, c: byte, d: byte, p: string, q: string, r: string, s: string)
    requires n == a + 0x100 * b + 0x1_0000 * c + 0x100_0000 * d
    requires HexByte(a) == p && HexByte(b) == q && HexByte(c) == r && HexByte(d) == s
    ensures Hex(n) == p + q + r + s
  {
    hide HexByte, ByteOf;
    BytesOf(n, a, b, c, d);
  }

  lemma BytesOf(n: word, a: byte, b: byte, c: byte, d: byte)
    requires n == a + 0x100 * b + 0x1_0000 * c + 0x100_0000 * d
    ensures ByteOf(n, 0) == a && ByteOf(n, 1) == b && ByteOf(n, 2) == c && ByteOf(n, 3) == d
  {
    hide Pow2;
    PowersOfTwo();
    NoPower();
    Divided(n, 0x100, b + 0x100 * c + 0x1_0000 * d, a);
    Divided(n, 0x1_0000, c + 0x100 * d, a + 0x100 * b);
    Divided(n, 0x100_0000, d, a + 0x100 * b + 0x1_0000 * c);
    Divided(b + 0x100 * c + 0x1_0000 * d, 0x100, c + 0x100 * d, b);
    Divided(c + 0x100 * d, 0x100, d, c);
  }

  lemma Divided(n: int, d: nat, e: int, r: nat)
    requires d > 0 && n == d * e + r && r < d
    ensures n / d == e && n % d == r
  {
    DivExact(n, d, e, r);
  }

  lemma NoPower()
    ensures Pow2(0) == 1
  {
  }

  // ----- padding, steps and blocks -----

  /** The words hold the message, the byte 0x80, and zeros up to the length; the low-order byte of a word comes first.
      */
  lemma PaddingBytes(m: seq<byte>, k: nat)
    requires k < 64 * Blocks(|m|) - 8
    ensures ByteOf(CodeWords(m)[k / 4], k % 4) == if k < |m| then m[k] else if k == |m| then 0x80 else 0
  {
    hide ByteOf, Blocks;
    var b, j := PadBytes(m), k / 4;
    WordIs(m, j);
    assert b[k] == if k < |m| then m[k] else if k == |m| then 0x80 else 0;
    BytesOf(CodeWords(m)[j], b[4 * j], b[4 * j + 1], b[4 * j + 2], b[4 * j + 3]);
  }

  lemma WordIs(m: seq<byte>, j: nat)
    requires j < 16 * Blocks(|m|) - 2
    ensures var b := PadBytes(m);
            CodeWords(m)[j] == b[4 * j] as int + 0x100 * b[4 * j + 1] as int + 0x1_0000 * b[4 * j + 2] as int +
                               0x100_0000 * b[4 * j + 3] as int
  {
    hide Blocks;
  }

  /** The last two words are the length in bits modulo 2^32, and zero. */
  lemma LengthWords(m: seq<byte>)
    ensures var w, n := CodeWords(m), 16 * Blocks(|m|);
            |w| == n && w[n - 2] == 8 * |m| % 0x1_0000_0000 && w[n - 1] == 0
  {
    hide Blocks;
  }

  /** One step: b gets the sum of a, the auxiliary function, a word and a constant, shifted, and itself; the others take
      the value of the register before them. */
  lemma StepExact(k: nat, r: Registers, x: seq<word>)
    requires k < 64 && |x| == 16
    ensures var s := Step(k, r, x);
            var sum := (r.a + Mix(k, r.b, r.c, r.d) + x[Index(k)] + Sine(k)) % 0x1_0000_0000;
            && s.a == r.d && s.c == r.b && s.d == r.c
            && s.b == (Rotated(sum, Shift(k)) + r.b) % 0x1_0000_0000
  {
    hide Mix, Index, Sine, Shift, Rotated;
    var m: int, w: int, t: int := Mix(k, r.b, r.c, r.d), x[Index(k)], Sine(k);
    SumTwice(r.a as int + m, w + t);
  }

  lemma SumTwice(x: int, y: int)
    ensures (x % 0x1_0000_0000 + y % 0x1_0000_0000) % 0x1_0000_0000 == (x + y) % 0x1_0000_0000
  {
    var n := 0x1_0000_0000;
    assert x == n * (x / n) + x % n && y == n * (y / n) + y % n;
    assert x + y == n * (x / n + y / n) + (x % n + y % n);
  }

  /** A block adds what its 64 steps make of the registers to them, and starts from what the blocks before it gave. */
  lemma BlocksAdd(x: seq<word>, n: nat)
    requires 16 * n + 16 <= |x|
    ensures var r := Digest(x, n);
            var s := Steps(64, r, x[16 * n..16 * n + 16]);
            Digest(x, n + 1) == Registers((r.a + s.a) % 0x1_0000_0000, (r.b + s.b) % 0x1_0000_0000,
                                          (r.c + s.c) % 0x1_0000_0000, (r.d + s.d) % 0x1_0000_0000)
    ensures Digest(x, 0) == START
  {
    hide Steps;
  }
}
