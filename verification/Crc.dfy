/** CRC-32C, table-driven (`src/digest.cpp`; section 12.1 of RFC 3720). */
module SrfCrc {
  import opened SrfTypes

  const POLY: bv32 := 0x82F63B78
  const ONES: bv32 := 0xFFFF_FFFF

  // The word operations, named so that a proof can use their laws instead of their bits.
  function Xor(a: bv32, b: bv32): bv32 { a ^ b }
  function Half(c: bv32): bv32 { c >> 1 }
  predicate Odd(c: bv32) { c & 1 != 0 }

  /** One bit of the reflected division. */
  function Step(c: bv32): bv32 { if Odd(c) then Xor(POLY, Half(c)) else Half(c) }

  function Steps(c: bv32, k: nat): bv32
    decreases k
  {
    if k == 0 then c else Steps(Step(c), k - 1)
  }

  predicate Bit(b: u8, k: nat)
    requires k < 8
  {
    match k
    case 0 => b % 2 == 1
    case 1 => b / 2 % 2 == 1
    case 2 => b / 4 % 2 == 1
    case 3 => b / 8 % 2 == 1
    case 4 => b / 16 % 2 == 1
    case 5 => b / 32 % 2 == 1
    case 6 => b / 64 % 2 == 1
    case 7 => b / 128 % 2 == 1
  }

  function Bits(b0: bool, b1: bool, b2: bool, b3: bool, b4: bool, b5: bool, b6: bool, b7: bool): bv32 {
    (if b0 then 1 else 0) | (if b1 then 2 else 0) | (if b2 then 4 else 0) | (if b3 then 8 else 0)
    | (if b4 then 16 else 0) | (if b5 then 32 else 0) | (if b6 then 64 else 0) | (if b7 then 128 else 0)
  }

  /** A byte widened to a word, bit by bit. */
  function ToWord(b: u8): bv32 {
    Bits(Bit(b, 0), Bit(b, 1), Bit(b, 2), Bit(b, 3), Bit(b, 4), Bit(b, 5), Bit(b, 6), Bit(b, 7))
  }

  /** One byte: eight bit steps after the byte was added to the register. */
  function Absorb(c: bv32, b: u8): bv32 { Steps(Xor(c, ToWord(b)), 8) }

  function Run(c: bv32, data: Bytes): bv32
    decreases |data|
  {
    if data == [] then c else Run(Absorb(c, data[0]), data[1..])
  }

  function Extend(seed: bv32, data: Bytes): bv32 { Xor(Run(Xor(seed, ONES), data), ONES) }

  /** The checksum as the codecs store it. */
  function Crc32c(data: Bytes): u32 { Extend(0, data) as int }

  // ------------------------------------------------------------------- the words

  lemma XorLaws(a: bv32, b: bv32, c: bv32)
    ensures Xor(a, b) == Xor(b, a) && Xor(Xor(a, b), c) == Xor(a, Xor(b, c)) && Xor(a, Xor(a, b)) == b
  {}

  lemma HalfXor(a: bv32, b: bv32)
    ensures Half(Xor(a, b)) == Xor(Half(a), Half(b))
  {}

  lemma OddXor(a: bv32, b: bv32)
    ensures Odd(Xor(a, b)) <==> Odd(a) != Odd(b)
  {}

  // ------------------------------------------------------------------- the step

  lemma StepInjective(c: bv32, d: bv32)
    requires Step(c) == Step(d)
    ensures c == d
  {}

  lemma StepLinear(c: bv32, d: bv32)
    ensures Step(Xor(c, d)) == Xor(Step(c), Step(d))
  {
    hide Xor; hide Half; hide Odd;
    var h, i := Half(c), Half(d);
    HalfXor(c, d);
    OddXor(c, d);
    XorLaws(POLY, h, i);
    XorLaws(h, POLY, i);
    XorLaws(POLY, h, Xor(POLY, i));
    XorLaws(POLY, Xor(h, i), h);
  }

  lemma {:induction false} StepsInjective(c: bv32, d: bv32, k: nat)
    requires Steps(c, k) == Steps(d, k)
    ensures c == d
    decreases k
  {
    hide Step;
    if k > 0 {
      StepsInjective(Step(c), Step(d), k - 1);
      StepInjective(c, d);
    }
  }

  lemma {:induction false} StepsLinear(c: bv32, d: bv32, k: nat)
    ensures Steps(Xor(c, d), k) == Xor(Steps(c, k), Steps(d, k))
    decreases k
  {
    hide Step; hide Xor;
    if k > 0 {
      StepLinear(c, d);
      StepsLinear(Step(c), Step(d), k - 1);
    }
  }

  lemma {:induction false} StepsCompose(c: bv32, j: nat, k: nat)
    ensures Steps(Steps(c, j), k) == Steps(c, j + k)
    decreases j
  {
    hide Step;
    if j > 0 { StepsCompose(Step(c), j - 1, k); }
  }

  // ------------------------------------------------------------------- the table

  function LowByte(c: bv32): bv32 { c & 0xFF }
  function ShiftDown(c: bv32): bv32 { c >> 8 }
  function ShiftUp(c: bv32): bv32 { c << 8 }

  lemma Even(c: bv32)
    requires !Odd(c)
    ensures Step(c) == Half(c)
  {}

  /** Eight steps of a register whose low byte is clear only shift it. */
  lemma EightShifts(c: bv32)
    requires LowByte(c) == 0
    ensures Steps(c, 8) == ShiftDown(c)
  {
    hide Step; hide Xor;
    var c1 := Half(c);
    var c2 := Half(c1);
    var c3 := Half(c2);
    var c4 := Half(c3);
    var c5 := Half(c4);
    var c6 := Half(c5);
    var c7 := Half(c6);
    Shifts(c);
    Even(c); Even(c1); Even(c2); Even(c3); Even(c4); Even(c5); Even(c6); Even(c7);
    EightSteps(c);
  }

  lemma ClearHalf(c: bv32, m: bv32)
    requires c & (m + m + 1) == 0 && m <= 0x7F
    ensures Half(c) & m == 0 && !Odd(c)
  {}

  lemma Shifts(c: bv32)
    requires LowByte(c) == 0
    ensures !Odd(c) && !Odd(Half(c)) && !Odd(Half(Half(c))) && !Odd(Half(Half(Half(c))))
    ensures var d := Half(Half(Half(Half(c))));
            !Odd(d) && !Odd(Half(d)) && !Odd(Half(Half(d))) && !Odd(Half(Half(Half(d))))
    ensures ShiftDown(c) == Half(Half(Half(Half(Half(Half(Half(Half(c))))))))
  {
    HalvesAre(c);
    hide Half; hide Odd; hide ShiftDown;
    ClearHalf(c, 0x7F);
    ClearHalf(Half(c), 0x3F);
    ClearHalf(Half(Half(c)), 0x1F);
    ClearHalf(Half(Half(Half(c))), 0xF);
    var d := Half(Half(Half(Half(c))));
    ClearHalf(d, 0x7);
    ClearHalf(Half(d), 0x3);
    ClearHalf(Half(Half(d)), 0x1);
    ClearHalf(Half(Half(Half(d))), 0);
  }

  lemma HalvesAre(c: bv32)
    ensures ShiftDown(c) == Half(Half(Half(Half(Half(Half(Half(Half(c))))))))
  {}

  lemma EightSteps(c: bv32)
    ensures Steps(c, 8) == Step(Step(Step(Step(Step(Step(Step(Step(c))))))))
  {
    hide Step;
    FourSteps(c);
    FourSteps(Steps(c, 4));
    StepsCompose(c, 4, 4);
  }

  lemma FourSteps(c: bv32)
    ensures Steps(c, 4) == Step(Step(Step(Step(c))))
  {
    hide Step;
    assert Steps(Step(c), 3) == Steps(Step(Step(c)), 2) == Steps(Step(Step(Step(c))), 1);
  }

  /** A table look-up and a shift are eight bit steps of the division. */
  lemma TableStep(c: bv32)
    ensures Steps(c, 8) == Xor(Steps(LowByte(c), 8), ShiftDown(c))
  {
    var high := Xor(c, LowByte(c));
    SplitLow(c);
    assert LowByte(high) == 0 && ShiftDown(high) == ShiftDown(c) && c == Xor(LowByte(c), high);
    hide *;
    StepsLinear(LowByte(c), high, 8);
    EightShifts(high);
  }

  lemma SplitLow(c: bv32)
    ensures var high := Xor(c, LowByte(c));
            LowByte(high) == 0 && ShiftDown(high) == ShiftDown(c) && c == Xor(LowByte(c), high)
  {
    ClearedLow(c);
    ClearedShift(c);
    XorLaws(c, LowByte(c), 0);
    XorLaws(LowByte(c), c, 0);
    hide *;
  }

  lemma ClearedLow(c: bv32)
    ensures LowByte(Xor(c, LowByte(c))) == 0
  {}

  lemma ClearedShift(c: bv32)
    ensures ShiftDown(Xor(c, LowByte(c))) == ShiftDown(c)
  {}

  lemma LowByteIsIndex(c: bv32)
    ensures LowByte(c) as int < 256
  {
    assert LowByte(c) <= 0xFF;
  }

  function IndexWord(i: int): bv32
    requires 0 <= i < 256
  {
    i as bv32
  }

  lemma IndexRound(c: bv32)
    ensures LowByte(c) as int < 256 && IndexWord(LowByte(c) as int) == LowByte(c)
  {
    LowByteIsIndex(c);
    IndexBack(LowByte(c));
  }

  method MakeTable() returns (table: array<bv32>)
    ensures table.Length == 256 && fresh(table)
    ensures forall i :: 0 <= i < 256 ==> table[i] == Steps(IndexWord(i), 8)
  {
    hide Steps; hide IndexWord;
    table := new bv32[256];
    for i := 0 to 256
      invariant forall j :: 0 <= j < i ==> table[j] == Steps(IndexWord(j), 8)
    {
      var c := TableEntry(IndexWord(i));
      table[i] := c;
    }
  }

  method TableEntry(seed: bv32) returns (c: bv32)
    ensures c == Steps(seed, 8)
  {
    hide Odd; hide Half; hide Xor;
    c := seed;
    for k := 0 to 8
      invariant Steps(c, 8 - k) == Steps(seed, 8)
    {
      c := if Odd(c) then Xor(POLY, Half(c)) else Half(c);
    }
  }

  /** `crc32c_extend`: one table look-up for each byte. */
  method ExtendCrc(seed: bv32, data: Bytes) returns (crc: bv32)
    ensures crc == Extend(seed, data)
  {
    hide Xor; hide ToWord; hide LowByte; hide ShiftDown; hide Steps; hide IndexWord;
    var table := MakeTable();
    var c := Xor(seed, ONES);
    for i := 0 to |data|
      invariant Run(c, data[i..]) == Run(Xor(seed, ONES), data)
      invariant forall j :: 0 <= j < 256 ==> table[j] == Steps(IndexWord(j), 8)
    {
      var x := Xor(c, ToWord(data[i]));
      IndexRound(x);
      TableStep(x);
      ByteShift(c, data[i]);
      assert data[i..][1..] == data[i + 1..];
      assert table[LowByte(x) as int] == Steps(LowByte(x), 8);
      assert Run(c, data[i..]) == Run(Steps(x, 8), data[i + 1..]);
      c := Xor(table[LowByte(x) as int], ShiftDown(c));
    }
    crc := Xor(c, ONES);
  }

  /** `crc32c` */
  method Checksum(data: Bytes) returns (crc: u32)
    ensures crc == Crc32c(data)
  {
    var c := ExtendCrc(0, data);
    crc := c as int;
  }

  lemma IndexBack(c: bv32)
    ensures (c as int) as bv32 == c
  {}

  lemma ByteShift(c: bv32, b: u8)
    ensures ShiftDown(Xor(c, ToWord(b))) == ShiftDown(c)
  {
    SmallByte(b);
    SmallShift(c, ToWord(b));
  }

  lemma SmallByte(b: u8)
    ensures ToWord(b) <= 0xFF
  {
    hide Bit;
  }

  lemma SmallShift(c: bv32, b: bv32)
    requires b <= 0xFF
    ensures ShiftDown(Xor(c, b)) == ShiftDown(c)
  {}

  // ------------------------------------------------------------------- detection

  lemma {:induction false} RunConcat(c: bv32, a: Bytes, b: Bytes)
    ensures Run(c, a + b) == Run(Run(c, a), b)
    decreases |a|
  {
    hide Absorb;
    if a == [] {
      assert a + b == b;
    } else {
      assert (a + b)[1..] == a[1..] + b;
      RunConcat(Absorb(c, a[0]), a[1..], b);
    }
  }

  /** Different registers stay different through the same bytes. */
  lemma {:induction false} RunInjective(c: bv32, d: bv32, data: Bytes)
    requires Run(c, data) == Run(d, data)
    ensures c == d
    decreases |data|
  {
    hide Xor; hide ToWord;
    if data != [] {
      RunInjective(Absorb(c, data[0]), Absorb(d, data[0]), data[1..]);
      StepsInjective(Xor(c, ToWord(data[0])), Xor(d, ToWord(data[0])), 8);
      XorLaws(ToWord(data[0]), c, c);
      XorLaws(ToWord(data[0]), d, d);
    }
  }

  /** Up to four bytes packed into a word, the first one lowest. */
  function Pack(b: Bytes): bv32 {
    if b == [] then 0 else Xor(ToWord(b[0]), ShiftUp(Pack(b[1..])))
  }

  /** A bound on a packed word of `n` bytes. */
  function Mask(n: nat): bv32 {
    if n == 0 then 0 else if n == 1 then 0xFF else if n == 2 then 0xFFFF else if n == 3 then 0xFF_FFFF else ONES
  }

  /** The word has no bit set above its first `n` bytes. */
  predicate Narrow(c: bv32, n: nat) { c <= Mask(n) }

  lemma {:induction false} PackFits(b: Bytes)
    requires |b| <= 4
    ensures Narrow(Pack(b), |b|)
  {
    hide Xor; hide ToWord; hide ShiftUp; hide Narrow;
    if b == [] {
      EmptyPack();
    } else {
      PackFits(b[1..]);
      SmallByte(b[0]);
      PackStepFits(ToWord(b[0]), Pack(b[1..]), |b| - 1);
    }
  }

  lemma EmptyPack()
    ensures Narrow(0, 0)
  {}

  lemma PackStepFits(low: bv32, rest: bv32, n: nat)
    requires low <= 0xFF && Narrow(rest, n) && n <= 3
    ensures Narrow(Xor(low, ShiftUp(rest)), n + 1)
  {}

  lemma PackStepBack(low: bv32, rest: bv32)
    requires low <= 0xFF && Narrow(rest, 3)
    ensures LowByte(Xor(low, ShiftUp(rest))) == low && ShiftDown(Xor(low, ShiftUp(rest))) == rest
  {}

  lemma PackUnfold(b: Bytes)
    requires b != []
    ensures Pack(b) == Xor(ToWord(b[0]), ShiftUp(Pack(b[1..])))
  {
    hide Xor; hide ToWord; hide ShiftUp;
  }

  lemma PackTail(b: Bytes)
    requires 0 < |b| <= 4
    ensures Narrow(Pack(b[1..]), 3)
  {
    hide *;
    var rest := b[1..];
    PackFits(rest);
    MaskGrows(|rest|, Pack(rest));
  }

  /** The first byte and the rest of a packed word. */
  lemma PackParts(b: Bytes)
    requires 0 < |b| <= 4
    ensures LowByte(Pack(b)) == ToWord(b[0]) && ShiftDown(Pack(b)) == Pack(b[1..])
  {
    hide *;
    PackTail(b);
    PackUnfold(b);
    SmallByte(b[0]);
    PackStepBack(ToWord(b[0]), Pack(b[1..]));
  }

  lemma {:induction false} PackInjective(a: Bytes, b: Bytes)
    requires |a| == |b| <= 4 && Pack(a) == Pack(b)
    ensures a == b
  {
    hide *;
    if a != [] {
      PackParts(a);
      PackParts(b);
      SameByte(a[0], b[0]);
      PackInjective(a[1..], b[1..]);
      assert a == [a[0]] + a[1..] && b == [b[0]] + b[1..];
    }
  }

  lemma MaskGrows(n: nat, c: bv32)
    requires n <= 3 && Narrow(c, n)
    ensures Narrow(c, 3)
  {}

  lemma SameByte(a: u8, b: u8)
    requires ToWord(a) == ToWord(b)
    ensures a == b
  {
    SameBits(a, b);
    BitsDetermine(a, b);
  }

  lemma SameBits(a: u8, b: u8)
    requires ToWord(a) == ToWord(b)
    ensures Bit(a, 0) == Bit(b, 0) && Bit(a, 1) == Bit(b, 1) && Bit(a, 2) == Bit(b, 2) && Bit(a, 3) == Bit(b, 3)
    ensures Bit(a, 4) == Bit(b, 4) && Bit(a, 5) == Bit(b, 5) && Bit(a, 6) == Bit(b, 6) && Bit(a, 7) == Bit(b, 7)
  {
    hide Bit; hide Bits;
    BitsInjective(Bit(a, 0), Bit(a, 1), Bit(a, 2), Bit(a, 3), Bit(a, 4), Bit(a, 5), Bit(a, 6), Bit(a, 7),
                  Bit(b, 0), Bit(b, 1), Bit(b, 2), Bit(b, 3), Bit(b, 4), Bit(b, 5), Bit(b, 6), Bit(b, 7));
  }

  lemma BitsInjective(a0: bool, a1: bool, a2: bool, a3: bool, a4: bool, a5: bool, a6: bool, a7: bool,
                      b0: bool, b1: bool, b2: bool, b3: bool, b4: bool, b5: bool, b6: bool, b7: bool)
    requires Bits(a0, a1, a2, a3, a4, a5, a6, a7) == Bits(b0, b1, b2, b3, b4, b5, b6, b7)
    ensures a0 == b0 && a1 == b1 && a2 == b2 && a3 == b3 && a4 == b4 && a5 == b5 && a6 == b6 && a7 == b7
  {}

  lemma BitsDetermine(a: u8, b: u8)
    requires Bit(a, 0) == Bit(b, 0) && Bit(a, 1) == Bit(b, 1) && Bit(a, 2) == Bit(b, 2) && Bit(a, 3) == Bit(b, 3)
    requires Bit(a, 4) == Bit(b, 4) && Bit(a, 5) == Bit(b, 5) && Bit(a, 6) == Bit(b, 6) && Bit(a, 7) == Bit(b, 7)
    ensures a == b
  {
    hide Bit;
    BitSum(a);
    BitSum(b);
  }

  function BitValue(b: u8, k: nat): nat
    requires k < 8
  {
    if Bit(b, k) then 1 else 0
  }

  lemma BitSum(b: u8)
    ensures b == BitValue(b, 0) + 2 * BitValue(b, 1) + 4 * BitValue(b, 2) + 8 * BitValue(b, 3)
                 + 16 * BitValue(b, 4) + 32 * BitValue(b, 5) + 64 * BitValue(b, 6) + 128 * BitValue(b, 7)
  {
    assert b / 128 == BitValue(b, 7);
    assert b / 64 == 2 * (b / 128) + BitValue(b, 6);
    assert b / 32 == 2 * (b / 64) + BitValue(b, 5);
    assert b / 16 == 2 * (b / 32) + BitValue(b, 4);
    assert b / 8 == 2 * (b / 16) + BitValue(b, 3);
    assert b / 4 == 2 * (b / 8) + BitValue(b, 2);
    assert b / 2 == 2 * (b / 4) + BitValue(b, 1);
  }

  lemma ShiftBack(c: bv32)
    requires Narrow(c, 3)
    ensures LowByte(ShiftUp(c)) == 0 && ShiftDown(ShiftUp(c)) == c
  {}

  /** Up to four bytes run through the register as one word. */
  lemma {:induction false} RunIsPack(c: bv32, b: Bytes)
    requires |b| <= 4
    ensures Run(c, b) == Steps(Xor(c, Pack(b)), 8 * |b|)
    decreases |b|
  {
    hide Xor; hide ToWord; hide ShiftUp; hide Narrow; hide LowByte; hide ShiftDown; hide Step;
    if b == [] {
      XorLaws(c, 0, 0);
      XorZero(c);
    } else {
      var low, rest := ToWord(b[0]), Pack(b[1..]);
      var d := Xor(c, low);
      RunIsPack(Steps(d, 8), b[1..]);
      PackFits(b[1..]);
      MaskGrows(|b| - 1, rest);
      ShiftBack(rest);
      EightShifts(ShiftUp(rest));
      StepsLinear(d, ShiftUp(rest), 8);
      StepsCompose(Xor(d, ShiftUp(rest)), 8, 8 * (|b| - 1));
      XorLaws(c, low, ShiftUp(rest));
    }
  }

  lemma XorZero(c: bv32)
    ensures Xor(c, 0) == c
  {}

  /** Two strings of one length that differ somewhere within four consecutive bytes, and nowhere else, have different
      checksums, whatever the seed. */
  lemma BurstDetected(seed: bv32, head: Bytes, a: Bytes, b: Bytes, tail: Bytes)
    requires |a| == |b| <= 4 && a != b
    ensures Extend(seed, head + a + tail) != Extend(seed, head + b + tail)
  {
    var start := Xor(seed, ONES);
    var c := Run(start, head);
    SplitRun(start, head, a, tail);
    SplitRun(start, head, b, tail);
    var x, y := Run(c, a), Run(c, b);
    if Extend(seed, head + a + tail) == Extend(seed, head + b + tail) {
      XorCancel(Run(x, tail), Run(y, tail));
      RunInjective(x, y, tail);
      RunIsPack(c, a);
      RunIsPack(c, b);
      StepsInjective(Xor(c, Pack(a)), Xor(c, Pack(b)), 8 * |a|);
      XorLaws(c, Pack(a), c);
      XorLaws(c, Pack(b), c);
      PackInjective(a, b);
    }
  }

  lemma XorCancel(a: bv32, b: bv32)
    requires Xor(a, ONES) == Xor(b, ONES)
    ensures a == b
  {}

  lemma SplitRun(c: bv32, head: Bytes, mid: Bytes, tail: Bytes)
    ensures Run(c, head + mid + tail) == Run(Run(Run(c, head), mid), tail)
  {
    RunConcat(c, head + mid, tail);
    RunConcat(c, head, mid);
  }

  lemma ChecksumsDiffer(x: bv32, y: bv32)
    requires x != y
    ensures x as int != y as int
  {
    IndexBack(x);
    IndexBack(y);
  }

  /** The stored checksums differ as well; in particular for any change of a single byte. */
  lemma ByteChangeDetected(data: Bytes, i: nat, v: u8)
    requires i < |data| && data[i] != v
    ensures Crc32c(data[i := v]) != Crc32c(data)
  {
    var head, tail := data[..i], data[i + 1..];
    assert data == head + [data[i]] + tail;
    assert data[i := v] == head + [v] + tail;
    assert [data[i]][0] != [v][0];
    BurstDetected(0, head, [data[i]], [v], tail);
    ChecksumsDiffer(Extend(0, data), Extend(0, data[i := v]));
  }
}
