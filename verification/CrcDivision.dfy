/** What the checksum is: the remainder of a division of polynomials over the two-element field (section 12.1 of
    RFC 3720), for every message, and its value for the check string. */
module SrfCrcDivision {
  import opened SrfTypes
  import opened SrfCrc

  /** The terms of the generator: x^32 + x^28 + x^27 + x^26 + x^25 + x^23 + x^22 + x^20 + x^19 + x^18 + x^14 + x^13
      + x^11 + x^10 + x^9 + x^8 + x^6 + 1. */
  predicate Term(k: int) {
    || k == 32 || 25 <= k <= 28 || k == 23 || k == 22 || 18 <= k <= 20 || k == 14 || k == 13 || 8 <= k <= 11
    || k == 6 || k == 0
  }

  /** A polynomial is the list of its coefficients, the highest one first. */
  type Poly = seq<bool>

  function Generator(): (g: Poly)
    ensures |g| == 33 && forall i :: 0 <= i < 33 ==> g[i] == Term(32 - i)
  {
    seq(33, i requires 0 <= i < 33 => Term(32 - i))
  }

  function Sum(a: Poly, b: Poly): (s: Poly)
    requires |a| == |b|
    ensures |s| == |a| && forall i :: 0 <= i < |s| ==> s[i] == (a[i] != b[i])
  {
    seq(|a|, i requires 0 <= i < |a| => a[i] != b[i])
  }

  /** School division: as long as there is a coefficient of x^32 or above, cancel the highest one. */
  function Remainder(p: Poly): (r: Poly)
    decreases |p|
  {
    if |p| <= 32 then p
    else if p[0] then Remainder(Sum(p[..33], Generator())[1..] + p[33..])
    else Remainder(p[1..])
  }

  /** The bits of a message in the order they are sent: byte after byte, the lowest bit of each first. */
  function ByteBits(b: u8): Poly {
    [b % 2 == 1, b / 2 % 2 == 1, b / 4 % 2 == 1, b / 8 % 2 == 1, b / 16 % 2 == 1, b / 32 % 2 == 1, b / 64 % 2 == 1,
     b / 128 % 2 == 1]
  }

  function MessageBits(data: Bytes): Poly
    decreases |data|
  {
    if data == [] then [] else ByteBits(data[0]) + MessageBits(data[1..])
  }

  function Repeat(v: bool, n: nat): (p: Poly)
    ensures |p| == n && forall i :: 0 <= i < n ==> p[i] == v
  {
    seq(n, _ => v)
  }

  function Complement(p: Poly): Poly { Sum(p, Repeat(true, |p|)) }

  /** The message times x^32, with its first 32 coefficients changed by `c`. */
  function Shifted(message: Poly, c: Poly): Poly
    requires |c| == 32
  {
    var p := message + Repeat(false, 32);
    Sum(p[..32], c) + p[32..]
  }

  /** The checksum: the remainder of the message times x^32, the first 32 coefficients complemented before the division
      and the remainder after it. */
  function Checked(data: Bytes): Poly { Complement(Remainder(Shifted(MessageBits(data), Repeat(true, 32)))) }

  // ------------------------------------------------------------------ the register

  /** The register as coefficients: the lowest bit is the highest one. */
  function Coefficients(c: bv32, n: nat): (p: Poly)
    ensures |p| == n
    decreases n
  {
    if n == 0 then [] else [Odd(c)] + Coefficients(Half(c), n - 1)
  }

  function Halved(c: bv32, k: nat): bv32
    decreases k
  {
    if k == 0 then c else Halved(Half(c), k - 1)
  }

  lemma {:induction false} SumOfXor(a: bv32, b: bv32, n: nat)
    ensures Coefficients(Xor(a, b), n) == Sum(Coefficients(a, n), Coefficients(b, n))
    decreases n
  {
    hide Xor; hide Half; hide Odd;
    if n > 0 {
      HalfXor(a, b);
      OddXor(a, b);
      SumOfXor(Half(a), Half(b), n - 1);
    }
  }

  lemma HalvedMore(c: bv32, m: nat, n: nat)
    ensures Halved(c, m + n) == Halved(Halved(c, m), n)
    decreases m
  {
    hide Half;
    if m > 0 { HalvedMore(Half(c), m - 1, n); }
  }

  lemma EightHalves(c: bv32)
    ensures Halved(c, 8) == ShiftDown(c)
  {
    HalvesAre(c);
    hide Half; hide ShiftDown;
    var d := Half(Half(Half(Half(c))));
    assert Halved(c, 4) == Halved(Half(c), 3) == Halved(Half(Half(c)), 2) == Halved(Half(Half(Half(c))), 1) == d;
    assert Halved(d, 4) == Halved(Half(d), 3) == Halved(Half(Half(d)), 2) == Halved(Half(Half(Half(d))), 1);
    HalvedMore(c, 4, 4);
  }

  lemma NothingLeft(c: bv32)
    ensures ShiftDown(ShiftDown(ShiftDown(ShiftDown(c)))) == 0
  {}

  lemma AllHalves(c: bv32)
    ensures Halved(c, 32) == 0
  {
    hide ShiftDown; hide Half; hide Halved;
    EightHalves(c);
    EightHalves(ShiftDown(c));
    EightHalves(ShiftDown(ShiftDown(c)));
    EightHalves(ShiftDown(ShiftDown(ShiftDown(c))));
    HalvedMore(c, 8, 24);
    HalvedMore(ShiftDown(c), 8, 16);
    HalvedMore(ShiftDown(ShiftDown(c)), 8, 8);
    NothingLeft(c);
  }

  lemma {:induction false} CoefficientsOfMore(c: bv32, n: nat)
    ensures Coefficients(c, n + 1) == Coefficients(c, n) + [Odd(Halved(c, n))]
    decreases n
  {
    hide Half; hide Odd;
    if n > 0 {
      CoefficientsOfMore(Half(c), n - 1);
      assert [Odd(c)] + (Coefficients(Half(c), n - 1) + [Odd(Halved(Half(c), n - 1))])
             == ([Odd(c)] + Coefficients(Half(c), n - 1)) + [Odd(Halved(Half(c), n - 1))];
    }
  }

  lemma EvenZero()
    ensures !Odd(0)
  {}

  /** Halving the register drops the highest coefficient and lets a zero in at the low end. */
  lemma ShiftedRegister(c: bv32)
    ensures Coefficients(Half(c), 32) == Coefficients(c, 32)[1..] + [false]
  {
    hide Half; hide Odd;
    AllHalves(c);
    EvenZero();
    CoefficientsOfMore(c, 32);
    assert Coefficients(c, 33) == [Odd(c)] + Coefficients(Half(c), 32);
    assert Coefficients(Half(c), 32) == Coefficients(c, 33)[1..];
  }

  // ------------------------------------------------------------------ the generator

  lemma {:induction false} CoefficientsSplit(c: bv32, m: nat, n: nat)
    ensures Coefficients(c, m + n) == Coefficients(c, m) + Coefficients(Halved(c, m), n)
    decreases m
  {
    hide Half; hide Odd;
    if m > 0 {
      CoefficientsSplit(Half(c), m - 1, n);
      assert [Odd(c)] + (Coefficients(Half(c), m - 1) + Coefficients(Halved(Half(c), m - 1), n))
             == ([Odd(c)] + Coefficients(Half(c), m - 1)) + Coefficients(Halved(Half(c), m - 1), n);
    }
  }

  /** Four bits of a word, given its halves. */
  lemma FourBits(c: bv32, c1: bv32, c2: bv32, c3: bv32, c4: bv32)
    requires Half(c) == c1 && Half(c1) == c2 && Half(c2) == c3 && Half(c3) == c4
    ensures Coefficients(c, 4) == [Odd(c), Odd(c1), Odd(c2), Odd(c3)] && Halved(c, 4) == c4
  {
    hide Half; hide Odd;
    assert Coefficients(c3, 1) == [Odd(c3)];
    assert Coefficients(c2, 2) == [Odd(c2), Odd(c3)];
    assert Coefficients(c1, 3) == [Odd(c1), Odd(c2), Odd(c3)];
    assert Halved(c, 4) == Halved(c1, 3) == Halved(c2, 2) == Halved(c3, 1);
  }

  lemma Poly0()
    ensures Coefficients(POLY, 4) == [false, false, false, true] && Halved(POLY, 4) == 0x82F63B7
  {
    assert Half(POLY) == 0x417B1DBC && Half(0x417B1DBC) == 0x20BD8EDE && Half(0x20BD8EDE) == 0x105EC76F &&
           Half(0x105EC76F) == 0x82F63B7;
    assert !Odd(POLY) && !Odd(0x417B1DBC) && !Odd(0x20BD8EDE) && Odd(0x105EC76F);
    hide Half; hide Odd;
    FourBits(POLY, 0x417B1DBC, 0x20BD8EDE, 0x105EC76F, 0x82F63B7);
  }

  lemma Poly1()
    ensures Coefficients(0x82F63B7, 4) == [true, true, true, false] && Halved(0x82F63B7, 4) == 0x82F63B
  {
    assert Half(0x82F63B7) == 0x417B1DB && Half(0x417B1DB) == 0x20BD8ED && Half(0x20BD8ED) == 0x105EC76 &&
           Half(0x105EC76) == 0x82F63B;
    assert Odd(0x82F63B7) && Odd(0x417B1DB) && Odd(0x20BD8ED) && !Odd(0x105EC76);
    hide Half; hide Odd;
    FourBits(0x82F63B7, 0x417B1DB, 0x20BD8ED, 0x105EC76, 0x82F63B);
  }

  lemma Poly2()
    ensures Coefficients(0x82F63B, 4) == [true, true, false, true] && Halved(0x82F63B, 4) == 0x82F63
  {
    assert Half(0x82F63B) == 0x417B1D && Half(0x417B1D) == 0x20BD8E && Half(0x20BD8E) == 0x105EC7 &&
           Half(0x105EC7) == 0x82F63;
    assert Odd(0x82F63B) && Odd(0x417B1D) && !Odd(0x20BD8E) && Odd(0x105EC7);
    hide Half; hide Odd;
    FourBits(0x82F63B, 0x417B1D, 0x20BD8E, 0x105EC7, 0x82F63);
  }

  lemma Poly3()
    ensures Coefficients(0x82F63, 4) == [true, true, false, false] && Halved(0x82F63, 4) == 0x82F6
  {
    assert Half(0x82F63) == 0x417B1 && Half(0x417B1) == 0x20BD8 && Half(0x20BD8) == 0x105EC && Half(0x105EC) == 0x82F6;
    assert Odd(0x82F63) && Odd(0x417B1) && !Odd(0x20BD8) && !Odd(0x105EC);
    hide Half; hide Odd;
    FourBits(0x82F63, 0x417B1, 0x20BD8, 0x105EC, 0x82F6);
  }

  lemma Poly4()
    ensures Coefficients(0x82F6, 4) == [false, true, true, false] && Halved(0x82F6, 4) == 0x82F
  {
    assert Half(0x82F6) == 0x417B && Half(0x417B) == 0x20BD && Half(0x20BD) == 0x105E && Half(0x105E) == 0x82F;
    assert !Odd(0x82F6) && Odd(0x417B) && Odd(0x20BD) && !Odd(0x105E);
    hide Half; hide Odd;
    FourBits(0x82F6, 0x417B, 0x20BD, 0x105E, 0x82F);
  }

  lemma Poly5()
    ensures Coefficients(0x82F, 4) == [true, true, true, true] && Halved(0x82F, 4) == 0x82
  {
    assert Half(0x82F) == 0x417 && Half(0x417) == 0x20B && Half(0x20B) == 0x105 && Half(0x105) == 0x82;
    assert Odd(0x82F) && Odd(0x417) && Odd(0x20B) && Odd(0x105);
    hide Half; hide Odd;
    FourBits(0x82F, 0x417, 0x20B, 0x105, 0x82);
  }

  lemma Poly6()
    ensures Coefficients(0x82, 4) == [false, true, false, false] && Halved(0x82, 4) == 0x8
  {
    assert Half(0x82) == 0x41 && Half(0x41) == 0x20 && Half(0x20) == 0x10 && Half(0x10) == 0x8;
    assert !Odd(0x82) && Odd(0x41) && !Odd(0x20) && !Odd(0x10);
    hide Half; hide Odd;
    FourBits(0x82, 0x41, 0x20, 0x10, 0x8);
  }

  lemma Poly7()
    ensures Coefficients(0x8, 4) == [false, false, false, true] && Halved(0x8, 4) == 0x0
  {
    assert Half(0x8) == 0x4 && Half(0x4) == 0x2 && Half(0x2) == 0x1 && Half(0x1) == 0x0;
    assert !Odd(0x8) && !Odd(0x4) && !Odd(0x2) && Odd(0x1);
    hide Half; hide Odd;
    FourBits(0x8, 0x4, 0x2, 0x1, 0x0);
  }

  lemma Terms()
    ensures var g := Generator();
            && !g[1] && !g[2] && !g[3] && g[4]
            && g[5] && g[6] && g[7] && !g[8]
            && g[9] && g[10] && !g[11] && g[12]
            && g[13] && g[14] && !g[15] && !g[16]
            && !g[17] && g[18] && g[19] && !g[20]
            && g[21] && g[22] && g[23] && g[24]
            && !g[25] && g[26] && !g[27] && !g[28]
            && !g[29] && !g[30] && !g[31] && g[32]
  {
    var g := Generator();
    assert g[1] == Term(31) && g[2] == Term(30);
    assert g[3] == Term(29) && g[4] == Term(28);
    assert g[5] == Term(27) && g[6] == Term(26);
    assert g[7] == Term(25) && g[8] == Term(24);
    assert g[9] == Term(23) && g[10] == Term(22);
    assert g[11] == Term(21) && g[12] == Term(20);
    assert g[13] == Term(19) && g[14] == Term(18);
    assert g[15] == Term(17) && g[16] == Term(16);
    assert g[17] == Term(15) && g[18] == Term(14);
    assert g[19] == Term(13) && g[20] == Term(12);
    assert g[21] == Term(11) && g[22] == Term(10);
    assert g[23] == Term(9) && g[24] == Term(8);
    assert g[25] == Term(7) && g[26] == Term(6);
    assert g[27] == Term(5) && g[28] == Term(4);
    assert g[29] == Term(3) && g[30] == Term(2);
    assert g[31] == Term(1) && g[32] == Term(0);
  }

  /** The constant of the register is the generator without its highest term. */
  lemma PolyIsGenerator()
    ensures Coefficients(POLY, 32) == Generator()[1..]
  {
    Poly0(); Poly1(); Poly2(); Poly3(); Poly4(); Poly5(); Poly6(); Poly7();
    CoefficientsSplit(POLY, 4, 28);
    CoefficientsSplit(0x82F63B7, 4, 24);
    CoefficientsSplit(0x82F63B, 4, 20);
    CoefficientsSplit(0x82F63, 4, 16);
    CoefficientsSplit(0x82F6, 4, 12);
    CoefficientsSplit(0x82F, 4, 8);
    CoefficientsSplit(0x82, 4, 4);
    hide Coefficients; hide Halved;
    GeneratorParts();
  }

  lemma GeneratorParts()
    ensures Generator()[1..] ==
            [false, false, false, true] + ([true, true, true, false] + ([true, true, false, true]
            + ([true, true, false, false] + ([false, true, true, false] + ([true, true, true, true]
            + ([false, true, false, false] + [false, false, false, true]))))))
  {
    Terms();
    var g := Generator()[1..];
    assert g[0..4] == [false, false, false, true];
    assert g[4..8] == [true, true, true, false];
    assert g[8..12] == [true, true, false, true];
    assert g[12..16] == [true, true, false, false];
    assert g[16..20] == [false, true, true, false];
    assert g[20..24] == [true, true, true, true];
    assert g[24..28] == [false, true, false, false];
    assert g[28..32] == [false, false, false, true];
    assert g == g[..4] + (g[4..8] + (g[8..12] + (g[12..16] + (g[16..20] + (g[20..24] + (g[24..28] + g[28..]))))));
  }

  // -------------------------------------------------------------- the division, step by step

  function AddTop(c: bv32, m: bool): bv32 { Xor(c, if m then 1 else 0) }

  /** The register fed with one bit at a time. */
  function BitRun(c: bv32, bits: Poly): bv32
    decreases |bits|
  {
    if bits == [] then c else BitRun(Step(AddTop(c, bits[0])), bits[1..])
  }

  lemma {:induction false} CoefficientsOfZero(n: nat)
    ensures Coefficients(0, n) == Repeat(false, n)
  {
    if n > 0 {
      HalfOfSmall();
      CoefficientsOfZero(n - 1);
    }
  }

  lemma HalfOfSmall()
    ensures Half(0) == 0 && Half(1) == 0 && Odd(1) && !Odd(0)
  {}

  lemma CoefficientsOfBit(m: bool)
    ensures Coefficients(if m then 1 else 0, 32) == [m] + Repeat(false, 31)
  {
    HalfOfSmall();
    hide Half; hide Odd;
    CoefficientsOfZero(31);
    CoefficientsOfZero(32);
  }

  lemma AddedOnTop(c: bv32, m: bool)
    ensures Coefficients(AddTop(c, m), 32) == Sum(Coefficients(c, 32), [m] + Repeat(false, 31))
  {
    hide Xor; hide Coefficients;
    SumOfXor(c, if m then 1 else 0, 32);
    CoefficientsOfBit(m);
  }

  lemma TopIsOdd(c: bv32)
    ensures Coefficients(c, 32)[0] == Odd(c)
  {
    hide Half; hide Odd;
  }

  /** A step of the register, in coefficients. */
  lemma StepInCoefficients(c: bv32)
    ensures Coefficients(Step(c), 32)
            == if Odd(c) then Sum(Generator()[1..], Coefficients(c, 32)[1..] + [false])
               else Coefficients(c, 32)[1..] + [false]
  {
    hide Coefficients; hide Xor; hide Half; hide Odd;
    ShiftedRegister(c);
    SumOfXor(POLY, Half(c), 32);
    PolyIsGenerator();
  }

  /** Cancelling the highest coefficient of a dividend is one step of the register. */
  lemma CancelOne(m: bool, rest: Poly, c: bv32)
    ensures var p := Shifted([m] + rest, Coefficients(c, 32));
            && |p| > 32
            && Shifted(rest, Coefficients(Step(AddTop(c, m)), 32))
               == if p[0] then Sum(p[..33], Generator())[1..] + p[33..] else p[1..]
  {
    hide Coefficients; hide AddTop; hide Step; hide Odd;
    var d := AddTop(c, m);
    var old_, new_ := Coefficients(c, 32), Coefficients(Step(d), 32);
    var p, q := Shifted([m] + rest, old_), Shifted(rest, new_);
    AddedOnTop(c, m);
    TopIsOdd(d);
    StepInCoefficients(d);
    var whole := ([m] + rest) + Repeat(false, 32);
    var tail := rest + Repeat(false, 32);
    assert whole[1..] == tail;
    assert p[0] == Odd(d);
    var s := if p[0] then Sum(p[..33], Generator())[1..] + p[33..] else p[1..];
    assert |s| == |q|;
    forall i | 0 <= i < |q| ensures q[i] == s[i] {
      assert tail[i] == whole[i + 1];
      if i < 31 {
        assert p[i + 1] == (whole[i + 1] != old_[i + 1]);
        assert Coefficients(d, 32)[i + 1] == old_[i + 1];
      } else {
        assert p[i + 1] == whole[i + 1];
      }
    }
  }

  /** Feeding a message into the register is dividing it, times x^32, with the register added to its front. */
  lemma {:induction false} RegisterDivides(c: bv32, bits: Poly)
    ensures Remainder(Shifted(bits, Coefficients(c, 32))) == Coefficients(BitRun(c, bits), 32)
    decreases |bits|
  {
    hide Coefficients; hide AddTop; hide Step; hide Shifted;
    if bits == [] {
      NothingShifted(Coefficients(c, 32));
    } else {
      assert bits == [bits[0]] + bits[1..];
      CancelOne(bits[0], bits[1..], c);
      RegisterDivides(Step(AddTop(c, bits[0])), bits[1..]);
    }
  }

  lemma NothingShifted(c: Poly)
    requires |c| == 32
    ensures Shifted([], c) == c
  {}

  // -------------------------------------------------------------------- bits and bytes

  lemma SplitLowest(w: bv32)
    ensures var low := if Odd(w) then 1 else 0;
            Half(Xor(w, low)) == Half(w) && !Odd(Xor(w, low)) && Xor(low, Xor(w, low)) == w
  {}

  /** Adding a word at once and stepping is adding its bits one by one. */
  lemma {:induction false} WordBitByBit(c: bv32, w: bv32, k: nat)
    requires Halved(w, k) == 0
    ensures BitRun(c, Coefficients(w, k)) == Steps(Xor(c, w), k)
    decreases k
  {
    hide Xor; hide Half; hide Odd; hide Step;
    if k == 0 {
      XorZero(c);
    } else {
      var low: bv32 := if Odd(w) then 1 else 0;
      var high := Xor(w, low);
      SplitLowest(w);
      XorLaws(c, low, high);
      StepLinear(Xor(c, low), high);
      Even(high);
      assert Step(Xor(c, w)) == Xor(Step(AddTop(c, Odd(w))), Half(w));
      WordBitByBit(Step(AddTop(c, Odd(w))), Half(w), k - 1);
      assert Coefficients(w, k)[1..] == Coefficients(Half(w), k - 1);
    }
  }

  lemma HalfOfBits(b0: bool, b1: bool, b2: bool, b3: bool, b4: bool, b5: bool, b6: bool, b7: bool)
    ensures Odd(Bits(b0, b1, b2, b3, b4, b5, b6, b7)) == b0
    ensures Half(Bits(b0, b1, b2, b3, b4, b5, b6, b7)) == Bits(b1, b2, b3, b4, b5, b6, b7, false)
  {}

  lemma NoBits()
    ensures Bits(false, false, false, false, false, false, false, false) == 0
  {}

  lemma FourOfBits(b0: bool, b1: bool, b2: bool, b3: bool, b4: bool, b5: bool, b6: bool, b7: bool)
    ensures Coefficients(Bits(b0, b1, b2, b3, b4, b5, b6, b7), 4) == [b0, b1, b2, b3]
    ensures Halved(Bits(b0, b1, b2, b3, b4, b5, b6, b7), 4) == Bits(b4, b5, b6, b7, false, false, false, false)
  {
    hide *;
    HalfOfBits(b0, b1, b2, b3, b4, b5, b6, b7);
    HalfOfBits(b1, b2, b3, b4, b5, b6, b7, false);
    HalfOfBits(b2, b3, b4, b5, b6, b7, false, false);
    HalfOfBits(b3, b4, b5, b6, b7, false, false, false);
    FourBits(Bits(b0, b1, b2, b3, b4, b5, b6, b7), Bits(b1, b2, b3, b4, b5, b6, b7, false),
             Bits(b2, b3, b4, b5, b6, b7, false, false), Bits(b3, b4, b5, b6, b7, false, false, false),
             Bits(b4, b5, b6, b7, false, false, false, false));
  }

  lemma CoefficientsOfBits(b0: bool, b1: bool, b2: bool, b3: bool, b4: bool, b5: bool, b6: bool, b7: bool)
    ensures Coefficients(Bits(b0, b1, b2, b3, b4, b5, b6, b7), 8) == [b0, b1, b2, b3, b4, b5, b6, b7]
    ensures Halved(Bits(b0, b1, b2, b3, b4, b5, b6, b7), 8) == 0
  {
    hide *;
    var w := Bits(b0, b1, b2, b3, b4, b5, b6, b7);
    FourOfBits(b0, b1, b2, b3, b4, b5, b6, b7);
    FourOfBits(b4, b5, b6, b7, false, false, false, false);
    CoefficientsSplit(w, 4, 4);
    HalvedMore(w, 4, 4);
    NoBits();
  }

  lemma ByteBitByBit(c: bv32, b: u8)
    ensures BitRun(c, ByteBits(b)) == Absorb(c, b)
  {
    CoefficientsOfBits(Bit(b, 0), Bit(b, 1), Bit(b, 2), Bit(b, 3), Bit(b, 4), Bit(b, 5), Bit(b, 6), Bit(b, 7));
    hide Bits; hide Xor; hide BitRun; hide Steps; hide Coefficients;
    WordBitByBit(c, ToWord(b), 8);
  }

  lemma {:induction false} BitRunJoins(c: bv32, a: Poly, b: Poly)
    ensures BitRun(c, a + b) == BitRun(BitRun(c, a), b)
    decreases |a|
  {
    hide Step; hide AddTop;
    if a == [] {
      assert a + b == b;
    } else {
      assert (a + b)[1..] == a[1..] + b;
      BitRunJoins(Step(AddTop(c, a[0])), a[1..], b);
    }
  }

  lemma {:induction false} MessageBitByBit(c: bv32, data: Bytes)
    ensures BitRun(c, MessageBits(data)) == Run(c, data)
    decreases |data|
  {
    hide Absorb; hide ByteBits; hide BitRun;
    if data == [] {
      NothingRun(c);
    } else {
      BitRunJoins(c, ByteBits(data[0]), MessageBits(data[1..]));
      ByteBitByBit(c, data[0]);
      MessageBitByBit(Absorb(c, data[0]), data[1..]);
    }
  }

  lemma NothingRun(c: bv32)
    ensures BitRun(c, []) == c
  {}

  lemma Ones0()
    ensures Coefficients(ONES, 4) == [true, true, true, true] && Halved(ONES, 4) == 0xFFFFFFF
  {
    assert Half(ONES) == 0x7FFFFFFF && Half(0x7FFFFFFF) == 0x3FFFFFFF && Half(0x3FFFFFFF) == 0x1FFFFFFF &&
           Half(0x1FFFFFFF) == 0xFFFFFFF;
    assert Odd(ONES) && Odd(0x7FFFFFFF) && Odd(0x3FFFFFFF) && Odd(0x1FFFFFFF);
    hide Half; hide Odd;
    FourBits(ONES, 0x7FFFFFFF, 0x3FFFFFFF, 0x1FFFFFFF, 0xFFFFFFF);
  }

  lemma Ones1()
    ensures Coefficients(0xFFFFFFF, 4) == [true, true, true, true] && Halved(0xFFFFFFF, 4) == 0xFFFFFF
  {
    assert Half(0xFFFFFFF) == 0x7FFFFFF && Half(0x7FFFFFF) == 0x3FFFFFF && Half(0x3FFFFFF) == 0x1FFFFFF &&
           Half(0x1FFFFFF) == 0xFFFFFF;
    assert Odd(0xFFFFFFF) && Odd(0x7FFFFFF) && Odd(0x3FFFFFF) && Odd(0x1FFFFFF);
    hide Half; hide Odd;
    FourBits(0xFFFFFFF, 0x7FFFFFF, 0x3FFFFFF, 0x1FFFFFF, 0xFFFFFF);
  }

  lemma Ones2()
    ensures Coefficients(0xFFFFFF, 4) == [true, true, true, true] && Halved(0xFFFFFF, 4) == 0xFFFFF
  {
    assert Half(0xFFFFFF) == 0x7FFFFF && Half(0x7FFFFF) == 0x3FFFFF && Half(0x3FFFFF) == 0x1FFFFF &&
           Half(0x1FFFFF) == 0xFFFFF;
    assert Odd(0xFFFFFF) && Odd(0x7FFFFF) && Odd(0x3FFFFF) && Odd(0x1FFFFF);
    hide Half; hide Odd;
    FourBits(0xFFFFFF, 0x7FFFFF, 0x3FFFFF, 0x1FFFFF, 0xFFFFF);
  }

  lemma Ones3()
    ensures Coefficients(0xFFFFF, 4) == [true, true, true, true] && Halved(0xFFFFF, 4) == 0xFFFF
  {
    assert Half(0xFFFFF) == 0x7FFFF && Half(0x7FFFF) == 0x3FFFF && Half(0x3FFFF) == 0x1FFFF && Half(0x1FFFF) == 0xFFFF;
    assert Odd(0xFFFFF) && Odd(0x7FFFF) && Odd(0x3FFFF) && Odd(0x1FFFF);
    hide Half; hide Odd;
    FourBits(0xFFFFF, 0x7FFFF, 0x3FFFF, 0x1FFFF, 0xFFFF);
  }

  lemma Ones4()
    ensures Coefficients(0xFFFF, 4) == [true, true, true, true] && Halved(0xFFFF, 4) == 0xFFF
  {
    assert Half(0xFFFF) == 0x7FFF && Half(0x7FFF) == 0x3FFF && Half(0x3FFF) == 0x1FFF && Half(0x1FFF) == 0xFFF;
    assert Odd(0xFFFF) && Odd(0x7FFF) && Odd(0x3FFF) && Odd(0x1FFF);
    hide Half; hide Odd;
    FourBits(0xFFFF, 0x7FFF, 0x3FFF, 0x1FFF, 0xFFF);
  }

  lemma Ones5()
    ensures Coefficients(0xFFF, 4) == [true, true, true, true] && Halved(0xFFF, 4) == 0xFF
  {
    assert Half(0xFFF) == 0x7FF && Half(0x7FF) == 0x3FF && Half(0x3FF) == 0x1FF && Half(0x1FF) == 0xFF;
    assert Odd(0xFFF) && Odd(0x7FF) && Odd(0x3FF) && Odd(0x1FF);
    hide Half; hide Odd;
    FourBits(0xFFF, 0x7FF, 0x3FF, 0x1FF, 0xFF);
  }

  lemma Ones6()
    ensures Coefficients(0xFF, 4) == [true, true, true, true] && Halved(0xFF, 4) == 0xF
  {
    assert Half(0xFF) == 0x7F && Half(0x7F) == 0x3F && Half(0x3F) == 0x1F && Half(0x1F) == 0xF;
    assert Odd(0xFF) && Odd(0x7F) && Odd(0x3F) && Odd(0x1F);
    hide Half; hide Odd;
    FourBits(0xFF, 0x7F, 0x3F, 0x1F, 0xF);
  }

  lemma Ones7()
    ensures Coefficients(0xF, 4) == [true, true, true, true] && Halved(0xF, 4) == 0x0
  {
    assert Half(0xF) == 0x7 && Half(0x7) == 0x3 && Half(0x3) == 0x1 && Half(0x1) == 0x0;
    assert Odd(0xF) && Odd(0x7) && Odd(0x3) && Odd(0x1);
    hide Half; hide Odd;
    FourBits(0xF, 0x7, 0x3, 0x1, 0x0);
  }

  lemma OnesAreAll()
    ensures Coefficients(ONES, 32) == Repeat(true, 32)
  {
    Ones0(); Ones1(); Ones2(); Ones3(); Ones4(); Ones5(); Ones6(); Ones7();
    CoefficientsSplit(ONES, 4, 28);
    CoefficientsSplit(0xFFFFFFF, 4, 24);
    CoefficientsSplit(0xFFFFFF, 4, 20);
    CoefficientsSplit(0xFFFFF, 4, 16);
    CoefficientsSplit(0xFFFF, 4, 12);
    CoefficientsSplit(0xFFF, 4, 8);
    CoefficientsSplit(0xFF, 4, 4);
    hide Coefficients; hide Halved;
    var four := [true, true, true, true];
    assert Coefficients(ONES, 32) == four + (four + (four + (four + (four + (four + (four + four))))));
  }

  // ------------------------------------------------------------------------ the checksum

  lemma FlipAll(c: bv32)
    ensures Coefficients(Xor(c, ONES), 32) == Complement(Coefficients(c, 32))
  {
    hide Coefficients; hide Xor;
    SumOfXor(c, ONES, 32);
    OnesAreAll();
  }

  lemma StartsWithOnes()
    ensures Xor(0, ONES) == ONES
  {}

  /** For every message: the checksum is the complemented remainder of the complemented message times x^32 by the
      generator, the lowest bit of the word being the highest coefficient. */
  lemma ChecksumIsRemainder(data: Bytes)
    ensures Coefficients(Extend(0, data), 32) == Checked(data)
  {
    hide Coefficients; hide Xor; hide Run; hide Remainder; hide Shifted; hide MessageBits; hide BitRun; hide Complement;
    StartsWithOnes();
    OnesAreAll();
    RegisterDivides(ONES, MessageBits(data));
    MessageBitByBit(ONES, data);
    FlipAll(Run(ONES, data));
  }

  // --------------------------------------------------------------- the check string

  /** The register after one byte, the steps between given. */
  predicate Steps8(c: bv32, b: u8, w: bv32, c0: bv32, c1: bv32, c2: bv32, c3: bv32, c4: bv32, c5: bv32, c6: bv32,
                   c7: bv32, c8: bv32)
  {
    && ToWord(b) == w && Xor(c, w) == c0
    && Step(c0) == c1 && Step(c1) == c2 && Step(c2) == c3 && Step(c3) == c4
    && Step(c4) == c5 && Step(c5) == c6 && Step(c6) == c7 && Step(c7) == c8
  }

  lemma EightSteps(c: bv32, b: u8, w: bv32, c0: bv32, c1: bv32, c2: bv32, c3: bv32, c4: bv32, c5: bv32, c6: bv32,
                   c7: bv32, c8: bv32)
    requires Steps8(c, b, w, c0, c1, c2, c3, c4, c5, c6, c7, c8)
    ensures Absorb(c, b) == c8
  {
    hide Step; hide Xor; hide ToWord;
    assert Steps(c0, 8) == Steps(c1, 7) == Steps(c2, 6) == Steps(c3, 5) == Steps(c4, 4);
    assert Steps(c4, 4) == Steps(c5, 3) == Steps(c6, 2) == Steps(c7, 1) == Steps(c8, 0);
  }

  lemma CheckWord1()
    ensures ToWord(0x31) == 0x31
  {
    assert Bit(0x31, 0) && !Bit(0x31, 1) && !Bit(0x31, 2) && !Bit(0x31, 3) && Bit(0x31, 4) && Bit(0x31, 5) &&
           !Bit(0x31, 6) && !Bit(0x31, 7);
    hide Bit;
  }

  lemma CheckWord2()
    ensures ToWord(0x32) == 0x32
  {
    assert !Bit(0x32, 0) && Bit(0x32, 1) && !Bit(0x32, 2) && !Bit(0x32, 3) && Bit(0x32, 4) && Bit(0x32, 5) &&
           !Bit(0x32, 6) && !Bit(0x32, 7);
    hide Bit;
  }

  lemma CheckWord3()
    ensures ToWord(0x33) == 0x33
  {
    assert Bit(0x33, 0) && Bit(0x33, 1) && !Bit(0x33, 2) && !Bit(0x33, 3) && Bit(0x33, 4) && Bit(0x33, 5) &&
           !Bit(0x33, 6) && !Bit(0x33, 7);
    hide Bit;
  }

  lemma CheckWord4()
    ensures ToWord(0x34) == 0x34
  {
    assert !Bit(0x34, 0) && !Bit(0x34, 1) && Bit(0x34, 2) && !Bit(0x34, 3) && Bit(0x34, 4) && Bit(0x34, 5) &&
           !Bit(0x34, 6) && !Bit(0x34, 7);
    hide Bit;
  }

  lemma CheckWord5()
    ensures ToWord(0x35) == 0x35
  {
    assert Bit(0x35, 0) && !Bit(0x35, 1) && Bit(0x35, 2) && !Bit(0x35, 3) && Bit(0x35, 4) && Bit(0x35, 5) &&
           !Bit(0x35, 6) && !Bit(0x35, 7);
    hide Bit;
  }

  lemma CheckWord6()
    ensures ToWord(0x36) == 0x36
  {
    assert !Bit(0x36, 0) && Bit(0x36, 1) && Bit(0x36, 2) && !Bit(0x36, 3) && Bit(0x36, 4) && Bit(0x36, 5) &&
           !Bit(0x36, 6) && !Bit(0x36, 7);
    hide Bit;
  }

  lemma CheckWord7()
    ensures ToWord(0x37) == 0x37
  {
    assert Bit(0x37, 0) && Bit(0x37, 1) && Bit(0x37, 2) && !Bit(0x37, 3) && Bit(0x37, 4) && Bit(0x37, 5) &&
           !Bit(0x37, 6) && !Bit(0x37, 7);
    hide Bit;
  }

  lemma CheckWord8()
    ensures ToWord(0x38) == 0x38
  {
    assert !Bit(0x38, 0) && !Bit(0x38, 1) && !Bit(0x38, 2) && Bit(0x38, 3) && Bit(0x38, 4) && Bit(0x38, 5) &&
           !Bit(0x38, 6) && !Bit(0x38, 7);
    hide Bit;
  }

  lemma CheckWord9()
    ensures ToWord(0x39) == 0x39
  {
    assert Bit(0x39, 0) && !Bit(0x39, 1) && !Bit(0x39, 2) && Bit(0x39, 3) && Bit(0x39, 4) && Bit(0x39, 5) &&
           !Bit(0x39, 6) && !Bit(0x39, 7);
    hide Bit;
  }

  lemma CheckByte1()
    ensures Absorb(0xFFFFFFFF, 0x31) == 0x6F0A661C
  {
    hide Absorb; hide Steps; hide ToWord;
    CheckWord1();
    EightSteps(0xFFFFFFFF, 0x31, 0x31,
               0xFFFFFFCE, 0x7FFFFFE7, 0xBD09C48B, 0xDC72D93D, 0xECCF57E6,
               0x7667ABF3, 0xB9C5EE81, 0xDE14CC38, 0x6F0A661C);
  }

  lemma CheckByte2()
    ensures Absorb(0x6F0A661C, 0x32) == 0x8CAA3B9F
  {
    hide Absorb; hide Steps; hide ToWord;
    CheckWord2();
    EightSteps(0x6F0A661C, 0x32, 0x32,
               0x6F0A662E, 0x37853317, 0x9934A2F3, 0xCE6C6A01, 0xE5C00E78,
               0x72E0073C, 0x3970039E, 0x1CB801CF, 0x8CAA3B9F);
  }

  lemma CheckByte3()
    ensures Absorb(0x8CAA3B9F, 0x33) == 0xEF84D04D
  {
    hide Absorb; hide Steps; hide ToWord;
    CheckWord3();
    EightSteps(0x8CAA3B9F, 0x33, 0x33,
               0x8CAA3BAC, 0x46551DD6, 0x232A8EEB, 0x93637C0D, 0xCB47857E,
               0x65A3C2BF, 0xB027DA27, 0xDAE5D66B, 0xEF84D04D);
  }

  lemma CheckByte4()
    ensures Absorb(0xEF84D04D, 0x34) == 0x09C50B11
  {
    hide Absorb; hide Steps; hide ToWord;
    CheckWord4();
    EightSteps(0xEF84D04D, 0x34, 0x34,
               0xEF84D079, 0xF5345344, 0x7A9A29A2, 0x3D4D14D1, 0x9C50B110,
               0x4E285888, 0x27142C44, 0x138A1622, 0x09C50B11);
  }

  lemma CheckByte5()
    ensures Absorb(0x09C50B11, 0x35) == 0xE72EDCCA
  {
    hide Absorb; hide Steps; hide ToWord;
    CheckWord5();
    EightSteps(0x09C50B11, 0x35, 0x35,
               0x09C50B24, 0x04E28592, 0x027142C9, 0x83CE9A1C, 0x41E74D0E,
               0x20F3A687, 0x928FE83B, 0xCBB1CF65, 0xE72EDCCA);
  }

  lemma CheckByte6()
    ensures Absorb(0xE72EDCCA, 0x36) == 0xBECA8E79
  {
    hide Absorb; hide Steps; hide ToWord;
    CheckWord6();
    EightSteps(0xE72EDCCA, 0x36, 0x36,
               0xE72EDCFC, 0x73976E7E, 0x39CBB73F, 0x9E13E0E7, 0xCDFFCB0B,
               0xE409DEFD, 0xF0F2D406, 0x78796A03, 0xBECA8E79);
  }

  lemma CheckByte7()
    ensures Absorb(0xBECA8E79, 0x37) == 0xEDBD6815
  {
    hide Absorb; hide Steps; hide ToWord;
    CheckWord7();
    EightSteps(0xBECA8E79, 0x37, 0x37,
               0xBECA8E4E, 0x5F654727, 0xAD4498EB, 0xD454770D, 0xE8DC00FE,
               0x746E007F, 0xB8C13B47, 0xDE96A6DB, 0xEDBD6815);
  }

  lemma CheckByte8()
    ensures Absorb(0xEDBD6815, 0x38) == 0x9F787F65
  {
    hide Absorb; hide Steps; hide ToWord;
    CheckWord8();
    EightSteps(0xEDBD6815, 0x38, 0x38,
               0xEDBD682D, 0xF4288F6E, 0x7A1447B7, 0xBFFC18A3, 0xDD083729,
               0xEC7220EC, 0x76391076, 0x3B1C883B, 0x9F787F65);
  }

  lemma CheckByte9()
    ensures Absorb(0x9F787F65, 0x39) == 0x1CF96D7C
  {
    hide Absorb; hide Steps; hide ToWord;
    CheckWord9();
    EightSteps(0x9F787F65, 0x39, 0x39,
               0x9F787F5C, 0x4FBC3FAE, 0x27DE1FD7, 0x91193493, 0xCA7AA131,
               0xE7CB6BE0, 0x73E5B5F0, 0x39F2DAF8, 0x1CF96D7C);
  }

  lemma OneMore(c: bv32, data: Bytes, d: bv32)
    requires data != [] && Absorb(c, data[0]) == d
    ensures Run(c, data) == Run(d, data[1..])
  {}

  lemma NoneLeft(c: bv32)
    ensures Run(c, []) == c
  {}

  lemma LastComplement()
    ensures Xor(0x1CF96D7C, ONES) == 0xE3069283
  {}

  /** The checksum of the nine characters "123456789". */
  lemma CheckValue()
    ensures Crc32c([0x31, 0x32, 0x33, 0x34, 0x35, 0x36, 0x37, 0x38, 0x39]) == 0xE3069283
  {
    hide Absorb; hide Xor; hide Run;
    var data: Bytes := [0x31, 0x32, 0x33, 0x34, 0x35, 0x36, 0x37, 0x38, 0x39];
    StartsWithOnes();
    CheckByte1(); CheckByte2(); CheckByte3(); CheckByte4(); CheckByte5(); CheckByte6(); CheckByte7(); CheckByte8();
    CheckByte9();
    OneMore(0xFFFFFFFF, data[0..], 0x6F0A661C);
    assert data[0..][1..] == data[1..];
    OneMore(0x6F0A661C, data[1..], 0x8CAA3B9F);
    assert data[1..][1..] == data[2..];
    OneMore(0x8CAA3B9F, data[2..], 0xEF84D04D);
    assert data[2..][1..] == data[3..];
    OneMore(0xEF84D04D, data[3..], 0x09C50B11);
    assert data[3..][1..] == data[4..];
    OneMore(0x09C50B11, data[4..], 0xE72EDCCA);
    assert data[4..][1..] == data[5..];
    OneMore(0xE72EDCCA, data[5..], 0xBECA8E79);
    assert data[5..][1..] == data[6..];
    OneMore(0xBECA8E79, data[6..], 0xEDBD6815);
    assert data[6..][1..] == data[7..];
    OneMore(0xEDBD6815, data[7..], 0x9F787F65);
    assert data[7..][1..] == data[8..];
    OneMore(0x9F787F65, data[8..], 0x1CF96D7C);
    assert data[8..][1..] == data[9..];
    NoneLeft(0x1CF96D7C);
    LastComplement();
    assert Xor(0, ONES) == 0xFFFFFFFF;
    assert data[0..] == data && data[9..] == [];
    assert Run(0xFFFFFFFF, data) == 0x1CF96D7C;
    assert Extend(0, data) == 0xE3069283;
  }
}
