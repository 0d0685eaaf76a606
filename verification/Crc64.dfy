/**
 The 64-bit NVMe CRC of the extended protection information: the table-driven loop against bit-at-a-time
 division by the generator 0xAD93D23594C93659, both with the bits of every byte and of the register
 reflected. The register starts at, and is reported as, its complement.
 */
module Crc64 {
  import opened Register

  predicate Odd(c: bv64) { c & 1 != 0 }

  predicate LowBit(b: bv8) { b & 1 != 0 }

  /** Multiply by x; reflected, so a one leaves at the bottom and subtracts the reflected generator. */
  function Shift(c: bv64): bv64 {
    if Odd(c) then (c >> 1) ^ 0x9A6C9329AC4BC9B5 else c >> 1
  }

  /** Bytes enter at the bottom. */
  function Low(b: bv8): bv64 { b as bv64 }

  function Inject(bit: bool): bv64 {
    if bit then 1 else 0
  }

  /** The bits a word of `k` bytes leaves clear. */
  function Outside(k: nat): bv64 {
    if k == 0 then 0xFFFFFFFFFFFFFFFF else Outside(k - 1) << 8
  }

  predicate Fits(k: nat, x: bv64) { x & Outside(k) == 0 }

  const OPS: Ops<bv64, bv8> :=
    Ops(0, (a, b) => a ^ b, Shift, Low, 8, Inject, LowBit, b => b >> 1, b => Low(b & 0xFE), 8, x => x << 8, Fits)

  /** The register after a message, its bits read one by one, least significant first. */
  function Divided(c: bv64, msg: seq<bv8>): bv64 {
    BitwiseTo(OPS, c, msg, |msg|)
  }

  function Complement(c: bv64): bv64 { !c }

  /** The checksum: complement in, complement out. */
  function Bitwise(seed: bv64, msg: seq<bv8>): bv64 {
    Complement(Divided(Complement(seed), msg))
  }

  // ---------------------------------------------------------------------------------------------
  // The register is linear and loses nothing

  lemma LinearOddOdd(a: bv64, b: bv64) requires Odd(a) && Odd(b) ensures Shift(a ^ b) == Shift(a) ^ Shift(b) {}

  lemma LinearOddEven(a: bv64, b: bv64) requires Odd(a) && !Odd(b) ensures Shift(a ^ b) == Shift(a) ^ Shift(b) {}

  lemma LinearEvenOdd(a: bv64, b: bv64) requires !Odd(a) && Odd(b) ensures Shift(a ^ b) == Shift(a) ^ Shift(b) {}

  lemma LinearEvenEven(a: bv64, b: bv64) requires !Odd(a) && !Odd(b) ensures Shift(a ^ b) == Shift(a) ^ Shift(b) {}

  lemma ShiftLinear(a: bv64, b: bv64)
    ensures Shift(a ^ b) == Shift(a) ^ Shift(b)
  {
    if Odd(a) && Odd(b) {
      LinearOddOdd(a, b);
    } else if Odd(a) {
      LinearOddEven(a, b);
    } else if Odd(b) {
      LinearEvenOdd(a, b);
    } else {
      LinearEvenEven(a, b);
    }
  }

  lemma ClearWithoutFeedback(a: bv64) requires !Odd(a) ensures Shift(a) & 0x8000000000000000 == 0 {}

  lemma SetWithFeedback(a: bv64) requires Odd(a) ensures Shift(a) & 0x8000000000000000 != 0 {}

  lemma SameOdd(a: bv64, b: bv64) requires Odd(a) && Odd(b) && Shift(a) == Shift(b) ensures a == b {}

  lemma SameEven(a: bv64, b: bv64) requires !Odd(a) && !Odd(b) && Shift(a) == Shift(b) ensures a == b {}

  /** The reflected generator has its top bit set: it tells whether the generator was subtracted. */
  lemma ShiftInjective(a: bv64, b: bv64)
    requires Shift(a) == Shift(b)
    ensures a == b
  {
    if Odd(a) {
      SetWithFeedback(a);
      if !Odd(b) {
        ClearWithoutFeedback(b);
      } else {
        SameOdd(a, b);
      }
    } else {
      ClearWithoutFeedback(a);
      if Odd(b) {
        SetWithFeedback(b);
      } else {
        SameEven(a, b);
      }
    }
  }

  lemma XorAssoc(a: bv64, b: bv64, c: bv64) ensures (a ^ b) ^ c == a ^ (b ^ c) {}

  lemma XorCommutes(a: bv64, b: bv64) ensures a ^ b == b ^ a {}

  lemma XorZero(a: bv64) ensures a ^ 0 == a {}

  lemma XorSelf(a: bv64) ensures a ^ a == 0 {}

  lemma XorIs(a: bv64, b: bv64) ensures OPS.xor(a, b) == a ^ b {}

  lemma ShiftIs(a: bv64) ensures OPS.shift(a) == Shift(a) {}

  lemma LoadIs(b: bv8) ensures OPS.load(b) == Low(b) {}

  lemma LowerIs(x: bv64) ensures OPS.lower(x) == x << 8 {}

  lemma SumLeft(a: bv64, b: bv64, c: bv64)
    ensures OPS.xor(OPS.xor(a, b), c) == (a ^ b) ^ c
  {
    XorIs(a, b);
    XorIs(a ^ b, c);
  }

  lemma SumRight(a: bv64, b: bv64, c: bv64)
    ensures OPS.xor(a, OPS.xor(b, c)) == a ^ (b ^ c)
  {
    XorIs(b, c);
    XorIs(a, b ^ c);
  }

  lemma OpsAssocAt(a: bv64, b: bv64, c: bv64)
    ensures OPS.xor(OPS.xor(a, b), c) == OPS.xor(a, OPS.xor(b, c))
  {
    SumLeft(a, b, c);
    SumRight(a, b, c);
    XorAssoc(a, b, c);
  }

  lemma OpsCommutesAt(a: bv64, b: bv64)
    ensures OPS.xor(a, b) == OPS.xor(b, a) && OPS.xor(a, OPS.zero) == a && OPS.xor(a, a) == OPS.zero
  {
    XorIs(a, b);
    XorIs(b, a);
    XorIs(a, 0);
    XorIs(a, a);
    XorCommutes(a, b);
    XorZero(a);
    XorSelf(a);
  }

  lemma OpsIsGroup()
    ensures IsGroup(OPS)
  {
    forall a, b, c ensures AssocAt(OPS, a, b, c) {
      OpsAssocAt(a, b, c);
    }
    forall a, b ensures CommutesAt(OPS, a, b) {
      OpsCommutesAt(a, b);
    }
  }

  lemma OpsLinearAt(a: bv64, b: bv64)
    ensures OPS.shift(OPS.xor(a, b)) == OPS.xor(OPS.shift(a), OPS.shift(b))
  {
    XorIs(a, b);
    ShiftIs(a);
    ShiftIs(b);
    ShiftIs(a ^ b);
    ShiftLinear(a, b);
    XorIs(Shift(a), Shift(b));
  }

  lemma OpsInjectiveAt(a: bv64, b: bv64)
    requires OPS.shift(a) == OPS.shift(b)
    ensures a == b
  {
    ShiftInjective(a, b);
  }

  lemma OpsIsLinear()
    ensures IsLinear(OPS)
  {
    forall a, b ensures LinearAt(OPS, a, b) {
      OpsLinearAt(a, b);
      if OPS.shift(a) == OPS.shift(b) {
        OpsInjectiveAt(a, b);
      }
    }
  }

  // ---------------------------------------------------------------------------------------------
  // Reading bits

  lemma EightHalves(b: bv8)
    ensures Rest(OPS, b, 8) == 0
  {
    var b1 := b >> 1;
    var b2 := b1 >> 1;
    var b3 := b2 >> 1;
    var b4 := b3 >> 1;
    assert Rest(OPS, b, 8) == Rest(OPS, b1, 7) == Rest(OPS, b2, 6) == Rest(OPS, b3, 5) == Rest(OPS, b4, 4);
    var b5 := b4 >> 1;
    var b6 := b5 >> 1;
    var b7 := b6 >> 1;
    var b8 := b7 >> 1;
    assert Rest(OPS, b4, 4) == Rest(OPS, b5, 3) == Rest(OPS, b6, 2) == Rest(OPS, b7, 1) == Rest(OPS, b8, 0);
    assert b8 == 0;
  }

  lemma ByteSplits(b: bv8) ensures Low(b) == Inject(LowBit(b)) ^ Low(b & 0xFE) {}

  lemma LaterShifts(b: bv8) ensures Shift(Low(b & 0xFE)) == Low(b >> 1) {}

  lemma OpsReadsAt(b: bv8)
    ensures ReadsAt(OPS, b)
  {
    ByteSplits(b);
    LaterShifts(b);
  }

  lemma OpsReadsBits()
    ensures ReadsBits(OPS)
  {
    forall b ensures ReadsAt(OPS, b) {
      OpsReadsAt(b);
    }
    forall b ensures OPS.load(Rest(OPS, b, OPS.bits)) == OPS.zero {
      EightHalves(b);
      assert Low(0) == 0;
    }
  }

  // ---------------------------------------------------------------------------------------------
  // The lookup table

  /** Columns 1, 2, 4, .., 128 of the table, as they stand in the source. */
  function Columns(): (r: seq<bv64>)
    ensures |r| == 8
  {
    [0x7F6EF0C830358979, 0xFEDDE190606B12F2,
     0xC962E5739841B68F, 0xA61CECB46814FE75,
     0x78E0FF3B88BE6F81, 0xF1C1FE77117CDF02,
     0xD75ADABD7A6E2D6F, 0x9A6C9329AC4BC9B5]
  }

  /** The table of the source: the sums of its columns, one for every bit of the byte from the bottom. */
  function Table(b: bv8): bv64 {
    Mixed(OPS, ReadBits(OPS, b, 8), Columns(), 8)
  }

  function Shift8(c: bv64): bv64 {
    Shift(Shift(Shift(Shift(Shift(Shift(Shift(Shift(c))))))))
  }

  lemma Shift8IsShifts(c: bv64)
    ensures Shift8(c) == Shifts(OPS, c, OPS.bits)
  {
    var c1 := Shift(c);
    var c2 := Shift(c1);
    var c3 := Shift(c2);
    var c4 := Shift(c3);
    assert Shifts(OPS, c, 8) == Shifts(OPS, c1, 7) == Shifts(OPS, c2, 6) == Shifts(OPS, c3, 5) == Shifts(OPS, c4, 4);
    var c5 := Shift(c4);
    var c6 := Shift(c5);
    var c7 := Shift(c6);
    var c8 := Shift(c7);
    assert Shifts(OPS, c4, 4) == Shifts(OPS, c5, 3) == Shifts(OPS, c6, 2) == Shifts(OPS, c7, 1) == Shifts(OPS, c8, 0);
  }

  /** Column 128 is the generator, and every column is the one after it times x. */
  lemma ColumnsFollow()
    ensures Columns()[7] == Shift(1) && forall i | 0 <= i < 7 :: Columns()[i] == Shift(Columns()[i + 1])
  {
    assert Shift(0xFEDDE190606B12F2) == 0x7F6EF0C830358979;
    assert Shift(0xC962E5739841B68F) == 0xFEDDE190606B12F2;
    assert Shift(0xA61CECB46814FE75) == 0xC962E5739841B68F;
    assert Shift(0x78E0FF3B88BE6F81) == 0xA61CECB46814FE75;
    assert Shift(0xF1C1FE77117CDF02) == 0x78E0FF3B88BE6F81;
    assert Shift(0xD75ADABD7A6E2D6F) == 0xF1C1FE77117CDF02;
    assert Shift(0x9A6C9329AC4BC9B5) == 0xD75ADABD7A6E2D6F;
  }

  lemma {:induction false} ColumnIsTrace(i: nat)
    requires i < 8
    ensures Columns()[i] == Shifts(OPS, OPS.inject(true), 8 - i)
    decreases 8 - i
  {
    ColumnsFollow();
    ShiftsLast(OPS, OPS.inject(true), 7 - i);
    if i < 7 {
      ColumnIsTrace(i + 1);
      ShiftIs(Columns()[i + 1]);
    } else {
      ShiftIs(1);
    }
  }

  lemma ColumnsAreTraces()
    ensures Columns() == Traces(OPS, OPS.bits)
  {
    forall i | 0 <= i < 8 ensures Columns()[i] == Traces(OPS, OPS.bits)[i] {
      ColumnIsTrace(i);
    }
  }

  lemma EntryDivides(b: bv8)
    ensures Table(b) == Shifts(OPS, OPS.load(b), OPS.bits)
  {
    OpsIsGroup();
    OpsIsLinear();
    OpsReadsBits();
    ColumnsAreTraces();
    DividedIsMixed(OPS, b);
  }

  // ---------------------------------------------------------------------------------------------
  // Eight bytes are one word

  lemma HighMovesDown(u: bv64) requires u & 0xFF == 0 ensures Shift8(u) == u >> 8 {}

  lemma HighShiftsDown(u: bv64)
    requires u & 0xFF == 0
    ensures Shifts(OPS, u, OPS.bits) == u >> 8
  {
    HighMovesDown(u);
    Shift8IsShifts(u);
  }

  lemma LoweredLow(x: bv64) ensures (x << 8) & 0xFF == 0 {}

  lemma LoweredBack(x: bv64) requires x & 0xFF00000000000000 == 0 ensures (x << 8) >> 8 == x {}

  lemma OutsideSeven() ensures Outside(7) == 0xFF00000000000000 {
    assert Outside(3) == 0xFFFFFFFFFF000000;
    assert Outside(5) == 0xFFFFFF0000000000;
  }

  lemma TopClear(k: nat, x: bv64)
    requires k < 8 && Fits(k, x)
    ensures x & 0xFF00000000000000 == 0
  {
    OutsideTop(k);
    MaskBelow(x, Outside(k));
  }

  lemma MaskBelow(x: bv64, n: bv64)
    requires n & 0xFF00000000000000 == 0xFF00000000000000 && x & n == 0
    ensures x & 0xFF00000000000000 == 0
  {
  }

  lemma OutsideTop(k: nat)
    requires k < 8
    ensures Outside(k) & 0xFF00000000000000 == 0xFF00000000000000
  {
    assert Outside(2) == 0xFFFFFFFFFFFF0000;
    assert Outside(4) == 0xFFFFFFFF00000000;
    assert Outside(6) == 0xFFFF000000000000;
    match k
    case 0 => case 1 => case 2 => case 3 => case 4 => case 5 => case 6 => case 7 =>
  }

  lemma WordGrows(x: bv64, n: bv64, b: bv8)
    requires x & n == 0
    ensures (Low(b) ^ (x << 8)) & (n << 8) == 0
  {
  }

  lemma LoweredShiftsUp(x: bv64, u: bv64)
    requires x & 0xFF00000000000000 == 0 && u == x << 8
    ensures Shifts(OPS, u, OPS.bits) == x
  {
    LoweredLow(x);
    LoweredBack(x);
    HighShiftsDown(u);
  }

  lemma Joined(b: bv8, x: bv64, l: bv64, u: bv64)
    requires l == OPS.load(b) && u == OPS.lower(x)
    ensures OPS.xor(l, u) == Low(b) ^ (x << 8)
  {
    LoadIs(b);
    LowerIs(x);
    XorIs(l, u);
  }

  lemma JoinedFits(k: nat, x: bv64, b: bv8, w: bv64)
    requires Fits(k, x) && w == Low(b) ^ (x << 8)
    ensures Fits(k + 1, w)
  {
    WordGrows(x, Outside(k), b);
  }

  lemma OpsLowersAt(k: nat, x: bv64, b: bv8)
    requires k < 8 && Fits(k, x)
    ensures Shifts(OPS, OPS.lower(x), OPS.bits) == x
  {
    TopClear(k, x);
    LowerIs(x);
    LoweredShiftsUp(x, OPS.lower(x));
  }

  lemma OpsGrowsAt(k: nat, x: bv64, b: bv8)
    requires k < 8 && Fits(k, x)
    ensures Fits(k + 1, OPS.xor(OPS.load(b), OPS.lower(x)))
  {
    Joined(b, x, OPS.load(b), OPS.lower(x));
    JoinedFits(k, x, b, OPS.xor(OPS.load(b), OPS.lower(x)));
  }

  lemma SplitWord(x: bv64, y: bv64, a: bv8, b: bv8)
    requires x & 0xFF00000000000000 == 0 && y & 0xFF00000000000000 == 0 && Low(a) ^ (x << 8) == Low(b) ^ (y << 8)
    ensures a == b && x == y
  {
  }

  lemma SplitSum(x: bv64, y: bv64, a: bv8, b: bv8, s: bv64)
    requires x & 0xFF00000000000000 == 0 && y & 0xFF00000000000000 == 0
    requires s == Low(a) ^ (x << 8) && s == Low(b) ^ (y << 8)
    ensures a == b && x == y
  {
    SplitWord(x, y, a, b);
  }

  lemma OpsSplitsAt(k: nat, x: bv64, y: bv64, a: bv8, b: bv8, s: bv64)
    requires k < 8 && Fits(k, x) && Fits(k, y)
    requires s == OPS.xor(OPS.load(a), OPS.lower(x)) && s == OPS.xor(OPS.load(b), OPS.lower(y))
    ensures a == b && x == y
  {
    Joined(a, x, OPS.load(a), OPS.lower(x));
    Joined(b, y, OPS.load(b), OPS.lower(y));
    TopClear(k, x);
    TopClear(k, y);
    SplitSum(x, y, a, b, s);
  }

  lemma OpsHasWindow()
    ensures HasWindow(OPS)
  {
    forall k: nat, x, b ensures LowersAt(OPS, k, x, b) {
      if k < 8 && Fits(k, x) {
        OpsLowersAt(k, x, b);
        OpsGrowsAt(k, x, b);
      }
    }
    forall k: nat, x, y, a, b ensures SplitsAt(OPS, k, x, y, a, b) {
      if k < OPS.window && OPS.fits(k, x) && OPS.fits(k, y)
         && OPS.xor(OPS.load(a), OPS.lower(x)) == OPS.xor(OPS.load(b), OPS.lower(y)) {
        OpsSplitsAt(k, x, y, a, b, OPS.xor(OPS.load(a), OPS.lower(x)));
      }
    }
  }

  // ---------------------------------------------------------------------------------------------
  // The loop

  predicate XorAt(o: Ops<bv64, bv8>, a: bv64, b: bv64) { o.xor(a, b) == a ^ b }

  predicate LoadAt(o: Ops<bv64, bv8>, b: bv8) { o.load(b) == Low(b) }

  predicate TableAt(o: Ops<bv64, bv8>, b: bv8) { Table(b) == Shifts(o, o.load(b), o.bits) }

  predicate HighAt(o: Ops<bv64, bv8>, u: bv64) { u & 0xFF == 0 ==> Shifts(o, u, o.bits) == u >> 8 }

  /** What the loop needs to know of the division, one fact at a time. */
  ghost predicate Divides(o: Ops<bv64, bv8>) {
    && IsGroup(o) && IsLinear(o)
    && (forall a, b :: XorAt(o, a, b))
    && (forall b :: LoadAt(o, b))
    && (forall b :: TableAt(o, b))
    && (forall u :: HighAt(o, u))
  }

  lemma OpsDivides()
    ensures Divides(OPS)
  {
    OpsIsGroup();
    OpsIsLinear();
    forall a, b ensures XorAt(OPS, a, b) { XorIs(a, b); }
    forall b ensures LoadAt(OPS, b) { LoadIs(b); }
    forall b ensures TableAt(OPS, b) { EntryDivides(b); }
    forall u ensures HighAt(OPS, u) {
      if u & 0xFF == 0 {
        HighShiftsDown(u);
      }
    }
  }

  function Bottom(c: bv64): bv8 { (c & 0xFF) as bv8 }

  function Above(c: bv64): bv64 { c & 0xFFFFFFFFFFFFFF00 }

  lemma PartsAddUp(c: bv64) ensures Low(Bottom(c)) ^ Above(c) == c {}

  lemma AboveIsClear(c: bv64) ensures Above(c) & 0xFF == 0 {}

  lemma AboveMovesDown(c: bv64) ensures Above(c) >> 8 == c >> 8 {}

  lemma LowXor(a: bv8, b: bv8) ensures Low(a) ^ Low(b) == Low(a ^ b) {}

  lemma LoadXor(o: Ops<bv64, bv8>, a: bv8, b: bv8)
    requires Divides(o)
    ensures o.load(a ^ b) == o.xor(o.load(a), o.load(b))
  {
    assert LoadAt(o, a) && LoadAt(o, b) && LoadAt(o, a ^ b) && XorAt(o, Low(a), Low(b));
    LowXor(a, b);
  }

  lemma PartsAdd(o: Ops<bv64, bv8>, c: bv64, l: bv64, u: bv64)
    requires Divides(o) && l == o.load(Bottom(c)) && u == Above(c)
    ensures c == o.xor(l, u)
  {
    assert LoadAt(o, Bottom(c)) && XorAt(o, l, u);
    PartsAddUp(c);
  }

  lemma PartsMove(o: Ops<bv64, bv8>, c: bv64, u: bv64)
    requires Divides(o) && u == Above(c)
    ensures Shifts(o, u, o.bits) == c >> 8
  {
    AboveIsClear(c);
    AboveMovesDown(c);
    assert HighAt(o, u);
  }

  lemma ByteStep(o: Ops<bv64, bv8>, c: bv64, b: bv8, e: bv64)
    requires Divides(o) && e == Shifts(o, o.load(Bottom(c) ^ b), o.bits)
    ensures Step(o, c, b) == o.xor(c >> 8, e)
  {
    PartsAdd(o, c, o.load(Bottom(c)), Above(c));
    PartsMove(o, c, Above(c));
    LoadXor(o, Bottom(c), b);
    StepSplits(o, c, Above(c), c >> 8, Bottom(c), b, Bottom(c) ^ b);
  }

  method Entry(ghost o: Ops<bv64, bv8>, b: bv8) returns (e: bv64)
    requires Divides(o)
    ensures e == Shifts(o, o.load(b), o.bits)
  {
    assert TableAt(o, b);
    e := Table(b);
  }

  method OneByte(ghost o: Ops<bv64, bv8>, c: bv64, b: bv8) returns (r: bv64)
    requires Divides(o)
    ensures r == Step(o, c, b)
  {
    var e := Entry(o, Bottom(c) ^ b);
    ByteStep(o, c, b, e);
    assert XorAt(o, c >> 8, e);
    XorCommutes(c >> 8, e);
    r := e ^ (c >> 8);
  }

  method AllBytes(ghost o: Ops<bv64, bv8>, seed: bv64, buf: seq<bv8>) returns (r: bv64)
    requires Divides(o)
    ensures r == Crc(o, seed, buf)
  {
    r := seed;
    for i := 0 to |buf|
      invariant r == CrcTo(o, seed, buf, i)
    {
      r := OneByte(o, r, buf[i]);
    }
  }

  lemma DividedIsCrc(c: bv64, msg: seq<bv8>)
    ensures Divided(c, msg) == Crc(OPS, c, msg)
  {
    OpsIsGroup();
    OpsIsLinear();
    OpsReadsBits();
    CrcIsBitwise(OPS, c, msg, |msg|);
  }

  /** The table-driven checksum is the bit-at-a-time one. */
  method Nvme(buf: seq<bv8>, seed: bv64) returns (crc: bv64)
    ensures crc == Bitwise(seed, buf)
  {
    OpsDivides();
    var c := AllBytes(OPS, Complement(seed), buf);
    DividedIsCrc(Complement(seed), buf);
    crc := Complement(c);
  }

  // ---------------------------------------------------------------------------------------------
  // What the checksum is good for

  lemma ComplementTwice(c: bv64) ensures Complement(Complement(c)) == c {}

  lemma DividedAppend(c: bv64, a: seq<bv8>, b: seq<bv8>)
    ensures Divided(c, a + b) == Divided(Divided(c, a), b)
  {
    DividedIsCrc(c, a + b);
    DividedIsCrc(c, a);
    DividedIsCrc(Divided(c, a), b);
    CrcAppend(OPS, c, a, b);
  }

  lemma Resumes(c: bv64, d: bv64, e: bv64, a: seq<bv8>, b: seq<bv8>)
    requires d == Divided(c, a) && e == d
    ensures Divided(c, a + b) == Divided(e, b)
  {
    DividedAppend(c, a, b);
  }

  /** A checksum may be continued: the result for the first part is the seed for the second. */
  lemma Continues(seed: bv64, a: seq<bv8>, b: seq<bv8>)
    ensures Bitwise(seed, a + b) == Bitwise(Bitwise(seed, a), b)
  {
    var c := Complement(seed);
    var d := Divided(c, a);
    ComplementTwice(d);
    Resumes(c, d, Complement(Complement(d)), a, b);
  }

  lemma ComplementInjective(a: bv64, b: bv64) requires Complement(a) == Complement(b) ensures a == b {}

  /** Two messages of equal length that differ, but only within eight adjacent bytes, have different CRCs. */
  lemma EightByteBurstDetected(seed: bv64, a: seq<bv8>, b: seq<bv8>, i: nat)
    requires |a| == |b| && a != b
    requires forall k | 0 <= k < |a| && !(i <= k < i + 8) :: a[k] == b[k]
    ensures Bitwise(seed, a) != Bitwise(seed, b)
  {
    DividedIsCrc(Complement(seed), a);
    DividedIsCrc(Complement(seed), b);
    OpsIsGroup();
    OpsIsLinear();
    OpsHasWindow();
    BurstDetectedAt(OPS, Complement(seed), a, b, i);
    if Bitwise(seed, a) == Bitwise(seed, b) {
      ComplementInjective(Divided(Complement(seed), a), Divided(Complement(seed), b));
    }
  }

  /** The lowest `k` bytes of a value, least significant first. */
  function LittleEndian(v: bv64, k: nat): (r: seq<bv8>)
    ensures |r| == k
  {
    if k == 0 then [] else [Bottom(v)] + LittleEndian(v >> 8, k - 1)
  }

  lemma RestFits(v: bv64, n: bv64) requires v & (n << 8) == 0 && n & 0xFF00000000000000 == 0xFF00000000000000
    ensures (v >> 8) & n == 0 {}

  lemma FromParts(v: bv64) ensures Low(Bottom(v)) ^ ((v >> 8) << 8) == v {}

  lemma {:induction false} WordOfBytes(v: bv64, k: nat)
    requires k <= 8 && Fits(k, v)
    ensures Word(OPS, LittleEndian(v, k)) == v
    decreases k
  {
    if k == 0 {
      assert v & Outside(0) == v;
    } else {
      TailFits(v, k);
      WordOfBytes(v >> 8, k - 1);
      WordStep(v, v >> 8, LittleEndian(v >> 8, k - 1));
    }
  }

  lemma TailFits(v: bv64, k: nat)
    requires 0 < k <= 8 && Fits(k, v)
    ensures Fits(k - 1, v >> 8)
  {
    OutsideTop(k - 1);
    RestFits(v, Outside(k - 1));
  }

  lemma WordStep(v: bv64, w: bv64, rest: seq<bv8>)
    requires Word(OPS, rest) == w == v >> 8
    ensures Word(OPS, [Bottom(v)] + rest) == v
  {
    WordHead(OPS, Bottom(v), rest);
    Joined(Bottom(v), w, OPS.load(Bottom(v)), OPS.lower(w));
    FromParts(v);
  }

  lemma AllFits(v: bv64)
    ensures Fits(8, v)
  {
    OutsideSeven();
  }

  lemma AddComplement(c: bv64) ensures c ^ Complement(c) == 0xFFFFFFFFFFFFFFFF {}

  lemma TailDivided(c: bv64, d: bv64, tail: seq<bv8>)
    requires d == Complement(c) && tail == LittleEndian(d, 8)
    ensures Crc(OPS, c, tail) == Blocks(OPS, OPS.xor(c, d), 8)
  {
    OpsIsGroup();
    OpsIsLinear();
    OpsHasWindow();
    WindowIsWord(OPS, c, tail);
    AllFits(d);
    WordOfBytes(d, 8);
  }

  lemma TailResidue(c: bv64, d: bv64, tail: seq<bv8>)
    requires d == Complement(c) && tail == LittleEndian(d, 8)
    ensures Crc(OPS, c, tail) == Blocks(OPS, 0xFFFFFFFFFFFFFFFF, 8)
  {
    TailDivided(c, d, tail);
    SumIsOnes(c, d, OPS.xor(c, d));
  }

  lemma SumIsOnes(c: bv64, d: bv64, s: bv64)
    requires d == Complement(c) && s == OPS.xor(c, d)
    ensures s == 0xFFFFFFFFFFFFFFFF
  {
    XorIs(c, d);
    AddComplement(c);
  }

  lemma RegisterResidue(c: bv64, d: bv64, msg: seq<bv8>)
    requires d == Complement(Divided(c, msg))
    ensures Divided(c, msg + LittleEndian(d, 8)) == Blocks(OPS, 0xFFFFFFFFFFFFFFFF, 8)
  {
    var tail := LittleEndian(d, 8);
    DividedAppend(c, msg, tail);
    DividedIsCrc(Divided(c, msg), tail);
    TailResidue(Divided(c, msg), d, tail);
  }

  /** A message followed by its own checksum has the same checksum whatever the message and the seed. */
  lemma CodewordResidue(seed: bv64, msg: seq<bv8>)
    ensures Bitwise(seed, msg + LittleEndian(Bitwise(seed, msg), 8)) == Complement(Blocks(OPS, 0xFFFFFFFFFFFFFFFF, 8))
  {
    RegisterResidue(Complement(seed), Bitwise(seed, msg), msg);
  }
}
