/**
 CRC-16/T10-DIF as the protection-information code uses it: the slice-by-16 loop with its tables,
 against bit-at-a-time division by the generator 0x8BB7.
 */
module Crc16 {
  import opened Register

  predicate Top(c: bv16) { c & 0x8000 != 0 }

  predicate TopBit(b: bv8) { b & 0x80 != 0 }

  /** Multiply by x; a one that leaves at the top subtracts the generator. */
  function Shift(c: bv16): bv16 {
    if Top(c) then (c << 1) ^ 0x8BB7 else c << 1
  }

  /** Bytes enter at the top. */
  function High(b: bv8): bv16 {
    (b as bv16) << 8
  }

  /** The message bit that is divided next is added at the top. */
  function Inject(bit: bool): bv16 {
    if bit then 0x8000 else 0
  }

  /** A word of no more than `k` bytes, from the top. */
  predicate Fits(k: nat, x: bv16) {
    if k == 0 then x == 0 else if k == 1 then x & 0xFF == 0 else true
  }

  const OPS: Ops<bv16, bv8> :=
    Ops(0, (a, b) => a ^ b, Shift, High, 8, Inject, TopBit, b => b << 1, b => High(b & 0x7F), 2, x => x >> 8, Fits)

  /** The CRC of a message: its bits, most significant first, through the division register. */
  function Bitwise(seed: bv16, msg: seq<bv8>): bv16 {
    BitwiseTo(OPS, seed, msg, |msg|)
  }

  // ---------------------------------------------------------------------------------------------
  // The register is linear and loses nothing

  lemma LinearTopTop(a: bv16, b: bv16) requires Top(a) && Top(b) ensures Shift(a ^ b) == Shift(a) ^ Shift(b) {}

  lemma LinearTopLow(a: bv16, b: bv16) requires Top(a) && !Top(b) ensures Shift(a ^ b) == Shift(a) ^ Shift(b) {}

  lemma LinearLowTop(a: bv16, b: bv16) requires !Top(a) && Top(b) ensures Shift(a ^ b) == Shift(a) ^ Shift(b) {}

  lemma LinearLowLow(a: bv16, b: bv16) requires !Top(a) && !Top(b) ensures Shift(a ^ b) == Shift(a) ^ Shift(b) {}

  lemma ShiftLinear(a: bv16, b: bv16)
    ensures Shift(a ^ b) == Shift(a) ^ Shift(b)
  {
    if Top(a) && Top(b) {
      LinearTopTop(a, b);
    } else if Top(a) {
      LinearTopLow(a, b);
    } else if Top(b) {
      LinearLowTop(a, b);
    } else {
      LinearLowLow(a, b);
    }
  }

  lemma EvenWithoutFeedback(a: bv16) requires !Top(a) ensures Shift(a) & 1 == 0 {}

  lemma OddWithFeedback(a: bv16) requires Top(a) ensures Shift(a) & 1 == 1 {}

  lemma SameTopTop(a: bv16, b: bv16) requires Top(a) && Top(b) && Shift(a) == Shift(b) ensures a == b {}

  lemma SameLowLow(a: bv16, b: bv16) requires !Top(a) && !Top(b) && Shift(a) == Shift(b) ensures a == b {}

  /** The constant term of the generator is one: the lowest bit tells whether it was subtracted. */
  lemma ShiftInjective(a: bv16, b: bv16)
    requires Shift(a) == Shift(b)
    ensures a == b
  {
    if Top(a) {
      OddWithFeedback(a);
      if !Top(b) {
        EvenWithoutFeedback(b);
      } else {
        SameTopTop(a, b);
      }
    } else {
      EvenWithoutFeedback(a);
      if Top(b) {
        OddWithFeedback(b);
      } else {
        SameLowLow(a, b);
      }
    }
  }

  lemma XorAssoc(a: bv16, b: bv16, c: bv16) ensures (a ^ b) ^ c == a ^ (b ^ c) {}

  lemma XorCommutes(a: bv16, b: bv16) ensures a ^ b == b ^ a {}

  lemma XorZero(a: bv16) ensures a ^ 0 == a {}

  lemma XorSelf(a: bv16) ensures a ^ a == 0 {}

  lemma XorIs(a: bv16, b: bv16) ensures OPS.xor(a, b) == a ^ b {}

  lemma ShiftIs(a: bv16) ensures OPS.shift(a) == Shift(a) {}

  lemma OpsAssocAt(a: bv16, b: bv16, c: bv16)
    ensures OPS.xor(OPS.xor(a, b), c) == OPS.xor(a, OPS.xor(b, c))
  {
    XorIs(a, b);
    XorIs(b, c);
    XorIs(a ^ b, c);
    XorIs(a, b ^ c);
    XorAssoc(a, b, c);
  }

  lemma OpsCommutesAt(a: bv16, b: bv16)
    ensures OPS.xor(a, b) == OPS.xor(b, a) && OPS.xor(a, OPS.zero) == a && OPS.xor(a, a) == OPS.zero
  {
    XorIs(a, b);
    XorIs(b, a);
    XorIs(a, 0);
    XorIs(a, a);
    XorCommutes(a, b);
    XorZero(a);
    XorSelf(a);
  }

  lemma OpsIsGroup()
    ensures IsGroup(OPS)
  {
    forall a, b, c ensures AssocAt(OPS, a, b, c) {
      OpsAssocAt(a, b, c);
    }
    forall a, b ensures CommutesAt(OPS, a, b) {
      OpsCommutesAt(a, b);
    }
  }

  lemma OpsLinearAt(a: bv16, b: bv16)
    ensures OPS.shift(OPS.xor(a, b)) == OPS.xor(OPS.shift(a), OPS.shift(b))
  {
    XorIs(a, b);
    ShiftIs(a);
    ShiftIs(b);
    ShiftIs(a ^ b);
    ShiftLinear(a, b);
    XorIs(Shift(a), Shift(b));
  }

  lemma OpsInjectiveAt(a: bv16, b: bv16)
    requires OPS.shift(a) == OPS.shift(b)
    ensures a == b
  {
    ShiftInjective(a, b);
  }

  lemma OpsIsLinear()
    ensures IsLinear(OPS)
  {
    forall a, b ensures LinearAt(OPS, a, b) {
      OpsLinearAt(a, b);
      if OPS.shift(a) == OPS.shift(b) {
        OpsInjectiveAt(a, b);
      }
    }
  }

  // ---------------------------------------------------------------------------------------------
  // Reading bits

  lemma EightDoubles(b: bv8)
    ensures Rest(OPS, b, 8) == 0
  {
    var b1 := b << 1;
    var b2 := b1 << 1;
    var b3 := b2 << 1;
    var b4 := b3 << 1;
    assert Rest(OPS, b, 8) == Rest(OPS, b1, 7) == Rest(OPS, b2, 6) == Rest(OPS, b3, 5) == Rest(OPS, b4, 4);
    var b5 := b4 << 1;
    var b6 := b5 << 1;
    var b7 := b6 << 1;
    var b8 := b7 << 1;
    assert Rest(OPS, b4, 4) == Rest(OPS, b5, 3) == Rest(OPS, b6, 2) == Rest(OPS, b7, 1) == Rest(OPS, b8, 0);
    assert b8 == 0;
  }

  lemma ByteSplits(b: bv8) ensures High(b) == Inject(TopBit(b)) ^ High(b & 0x7F) {}

  lemma LaterShifts(b: bv8) ensures Shift(High(b & 0x7F)) == High(b << 1) {}

  lemma OpsReadsAt(b: bv8)
    ensures ReadsAt(OPS, b)
  {
    ByteSplits(b);
    LaterShifts(b);
  }

  lemma OpsReadsBits()
    ensures ReadsBits(OPS)
  {
    forall b ensures ReadsAt(OPS, b) {
      OpsReadsAt(b);
    }
    forall b ensures OPS.load(Rest(OPS, b, OPS.bits)) == OPS.zero {
      EightDoubles(b);
      assert High(0) == 0;
    }
  }

  // ---------------------------------------------------------------------------------------------
  // The lookup table

  /** Columns 128, 64, .., 1 of each row of the table, as they stand in the source. */
  function Columns(k: nat): (r: seq<bv16>)
    ensures |r| == 8
  {
    match k
    case 0 => [0x3AB1, 0xD883, 0xA99A, 0x54CD, 0xEFBD, 0xB205, 0x9CD9, 0x8BB7]
    case 1 => [0x3F33, 0xDA42, 0x6D21, 0xF34B, 0xBC7E, 0x5E3F, 0xEAC4, 0x7562]
    case 2 => [0x8481, 0x879B, 0x8616, 0x430B, 0xE45E, 0x722F, 0xFCCC, 0x7E66]
    case 3 => [0x09B4, 0x04DA, 0x026D, 0xC4ED, 0xA7AD, 0x960D, 0x8EDD, 0x82B5]
    case 4 => [0xD00A, 0x6805, 0xF1D9, 0xBD37, 0x9B40, 0x4DA0, 0x26D0, 0x1368]
    case 5 => [0xBCFF, 0x9BA4, 0x4DD2, 0x26E9, 0xD6AF, 0xAE8C, 0x5746, 0x2BA3]
    case 6 => [0x655E, 0x32AF, 0xDC8C, 0x6E46, 0x3723, 0xDE4A, 0x6F25, 0xF249]
    case 7 => [0x16AB, 0xCE8E, 0x6747, 0xF678, 0x7B3C, 0x3D9E, 0x1ECF, 0xCABC]
    case 8 => [0xD111, 0xAD53, 0x9372, 0x49B9, 0xE107, 0xB558, 0x5AAC, 0x2D56]
    case 9 => [0x2C48, 0x1624, 0x0B12, 0x0589, 0xC71F, 0xA654, 0x532A, 0x2995]
    case 10 => [0xBC22, 0x5E11, 0xEAD3, 0xB0B2, 0x5859, 0xE9F7, 0xB120, 0x5890]
    case 11 => [0xB85E, 0x5C2F, 0xEBCC, 0x75E6, 0x3AF3, 0xD8A2, 0x6C51, 0xF3F3]
    case 12 => [0x765B, 0xFEF6, 0x7F7B, 0xFA66, 0x7D33, 0xFB42, 0x7DA1, 0xFB0B]
    case 13 => [0x5008, 0x2804, 0x1402, 0x0A01, 0xC0DB, 0xA5B6, 0x52DB, 0xECB6]
    case 14 => [0x844E, 0x4227, 0xE4C8, 0x7264, 0x3932, 0x1C99, 0xCB97, 0xA010]
    case _ => [0xC6B4, 0x635A, 0x31AD, 0xDD0D, 0xAB5D, 0x9075, 0x8DE1, 0x832B]
  }

  /** The table of the source: a row holds the sums of its columns, one for every bit of the byte from the top. */
  function Table(k: nat, b: bv8): bv16 {
    Mixed(OPS, ReadBits(OPS, b, 8), Columns(k), 8)
  }

  function Shift8(c: bv16): bv16 {
    Shift(Shift(Shift(Shift(Shift(Shift(Shift(Shift(c))))))))
  }

  lemma Shift8IsShifts(c: bv16)
    ensures Shift8(c) == Shifts(OPS, c, OPS.bits)
  {
    var c1 := Shift(c);
    var c2 := Shift(c1);
    var c3 := Shift(c2);
    var c4 := Shift(c3);
    assert Shifts(OPS, c, 8) == Shifts(OPS, c1, 7) == Shifts(OPS, c2, 6) == Shifts(OPS, c3, 5) == Shifts(OPS, c4, 4);
    var c5 := Shift(c4);
    var c6 := Shift(c5);
    var c7 := Shift(c6);
    var c8 := Shift(c7);
    assert Shifts(OPS, c4, 4) == Shifts(OPS, c5, 3) == Shifts(OPS, c6, 2) == Shifts(OPS, c7, 1) == Shifts(OPS, c8, 0);
  }

  /** Column 1 is the generator, and every column is the one before it times x. */
  lemma Row0()
    ensures Columns(0)[7] == Shift(0x8000) && forall i | 0 <= i < 7 :: Columns(0)[i] == Shift(Columns(0)[i + 1])
  {
    assert Shift(0xD883) == 0x3AB1;
    assert Shift(0xA99A) == 0xD883;
    assert Shift(0x54CD) == 0xA99A;
    assert Shift(0xEFBD) == 0x54CD;
    assert Shift(0xB205) == 0xEFBD;
    assert Shift(0x9CD9) == 0xB205;
    assert Shift(0x8BB7) == 0x9CD9;
  }

  lemma Row1(i: nat)
    requires i < 8
    ensures Columns(1)[i] == Shift8(Columns(0)[i])
  {
    assert Shift8(0x3AB1) == 0x3F33;
    assert Shift8(0xD883) == 0xDA42;
    assert Shift8(0xA99A) == 0x6D21;
    assert Shift8(0x54CD) == 0xF34B;
    assert Shift8(0xEFBD) == 0xBC7E;
    assert Shift8(0xB205) == 0x5E3F;
    assert Shift8(0x9CD9) == 0xEAC4;
    assert Shift8(0x8BB7) == 0x7562;
  }

  lemma Row2(i: nat)
    requires i < 8
    ensures Columns(2)[i] == Shift8(Columns(1)[i])
  {
    assert Shift8(0x3F33) == 0x8481;
    assert Shift8(0xDA42) == 0x879B;
    assert Shift8(0x6D21) == 0x8616;
    assert Shift8(0xF34B) == 0x430B;
    assert Shift8(0xBC7E) == 0xE45E;
    assert Shift8(0x5E3F) == 0x722F;
    assert Shift8(0xEAC4) == 0xFCCC;
    assert Shift8(0x7562) == 0x7E66;
  }

  lemma Row3(i: nat)
    requires i < 8
    ensures Columns(3)[i] == Shift8(Columns(2)[i])
  {
    assert Shift8(0x8481) == 0x09B4;
    assert Shift8(0x879B) == 0x04DA;
    assert Shift8(0x8616) == 0x026D;
    assert Shift8(0x430B) == 0xC4ED;
    assert Shift8(0xE45E) == 0xA7AD;
    assert Shift8(0x722F) == 0x960D;
    assert Shift8(0xFCCC) == 0x8EDD;
    assert Shift8(0x7E66) == 0x82B5;
  }

  lemma Row4(i: nat)
    requires i < 8
    ensures Columns(4)[i] == Shift8(Columns(3)[i])
  {
    assert Shift8(0x09B4) == 0xD00A;
    assert Shift8(0x04DA) == 0x6805;
    assert Shift8(0x026D) == 0xF1D9;
    assert Shift8(0xC4ED) == 0xBD37;
    assert Shift8(0xA7AD) == 0x9B40;
    assert Shift8(0x960D) == 0x4DA0;
    assert Shift8(0x8EDD) == 0x26D0;
    assert Shift8(0x82B5) == 0x1368;
  }

  lemma Row5(i: nat)
    requires i < 8
    ensures Columns(5)[i] == Shift8(Columns(4)[i])
  {
    assert Shift8(0xD00A) == 0xBCFF;
    assert Shift8(0x6805) == 0x9BA4;
    assert Shift8(0xF1D9) == 0x4DD2;
    assert Shift8(0xBD37) == 0x26E9;
    assert Shift8(0x9B40) == 0xD6AF;
    assert Shift8(0x4DA0) == 0xAE8C;
    assert Shift8(0x26D0) == 0x5746;
    assert Shift8(0x1368) == 0x2BA3;
  }

  lemma Row6(i: nat)
    requires i < 8
    ensures Columns(6)[i] == Shift8(Columns(5)[i])
  {
    assert Shift8(0xBCFF) == 0x655E;
    assert Shift8(0x9BA4) == 0x32AF;
    assert Shift8(0x4DD2) == 0xDC8C;
    assert Shift8(0x26E9) == 0x6E46;
    assert Shift8(0xD6AF) == 0x3723;
    assert Shift8(0xAE8C) == 0xDE4A;
    assert Shift8(0x5746) == 0x6F25;
    assert Shift8(0x2BA3) == 0xF249;
  }

  lemma Row7(i: nat)
    requires i < 8
    ensures Columns(7)[i] == Shift8(Columns(6)[i])
  {
    assert Shift8(0x655E) == 0x16AB;
    assert Shift8(0x32AF) == 0xCE8E;
    assert Shift8(0xDC8C) == 0x6747;
    assert Shift8(0x6E46) == 0xF678;
    assert Shift8(0x3723) == 0x7B3C;
    assert Shift8(0xDE4A) == 0x3D9E;
    assert Shift8(0x6F25) == 0x1ECF;
    assert Shift8(0xF249) == 0xCABC;
  }

  lemma Row8(i: nat)
    requires i < 8
    ensures Columns(8)[i] == Shift8(Columns(7)[i])
  {
    assert Shift8(0x16AB) == 0xD111;
    assert Shift8(0xCE8E) == 0xAD53;
    assert Shift8(0x6747) == 0x9372;
    assert Shift8(0xF678) == 0x49B9;
    assert Shift8(0x7B3C) == 0xE107;
    assert Shift8(0x3D9E) == 0xB558;
    assert Shift8(0x1ECF) == 0x5AAC;
    assert Shift8(0xCABC) == 0x2D56;
  }

  lemma Row9(i: nat)
    requires i < 8
    ensures Columns(9)[i] == Shift8(Columns(8)[i])
  {
    assert Shift8(0xD111) == 0x2C48;
    assert Shift8(0xAD53) == 0x1624;
    assert Shift8(0x9372) == 0x0B12;
    assert Shift8(0x49B9) == 0x0589;
    assert Shift8(0xE107) == 0xC71F;
    assert Shift8(0xB558) == 0xA654;
    assert Shift8(0x5AAC) == 0x532A;
    assert Shift8(0x2D56) == 0x2995;
  }

  lemma Row10(i: nat)
    requires i < 8
    ensures Columns(10)[i] == Shift8(Columns(9)[i])
  {
    assert Shift8(0x2C48) == 0xBC22;
    assert Shift8(0x1624) == 0x5E11;
    assert Shift8(0x0B12) == 0xEAD3;
    assert Shift8(0x0589) == 0xB0B2;
    assert Shift8(0xC71F) == 0x5859;
    assert Shift8(0xA654) == 0xE9F7;
    assert Shift8(0x532A) == 0xB120;
    assert Shift8(0x2995) == 0x5890;
  }

  lemma Row11(i: nat)
    requires i < 8
    ensures Columns(11)[i] == Shift8(Columns(10)[i])
  {
    assert Shift8(0xBC22) == 0xB85E;
    assert Shift8(0x5E11) == 0x5C2F;
    assert Shift8(0xEAD3) == 0xEBCC;
    assert Shift8(0xB0B2) == 0x75E6;
    assert Shift8(0x5859) == 0x3AF3;
    assert Shift8(0xE9F7) == 0xD8A2;
    assert Shift8(0xB120) == 0x6C51;
    assert Shift8(0x5890) == 0xF3F3;
  }

  lemma Row12(i: nat)
    requires i < 8
    ensures Columns(12)[i] == Shift8(Columns(11)[i])
  {
    assert Shift8(0xB85E) == 0x765B;
    assert Shift8(0x5C2F) == 0xFEF6;
    assert Shift8(0xEBCC) == 0x7F7B;
    assert Shift8(0x75E6) == 0xFA66;
    assert Shift8(0x3AF3) == 0x7D33;
    assert Shift8(0xD8A2) == 0xFB42;
    assert Shift8(0x6C51) == 0x7DA1;
    assert Shift8(0xF3F3) == 0xFB0B;
  }

  lemma Row13(i: nat)
    requires i < 8
    ensures Columns(13)[i] == Shift8(Columns(12)[i])
  {
    assert Shift8(0x765B) == 0x5008;
    assert Shift8(0xFEF6) == 0x2804;
    assert Shift8(0x7F7B) == 0x1402;
    assert Shift8(0xFA66) == 0x0A01;
    assert Shift8(0x7D33) == 0xC0DB;
    assert Shift8(0xFB42) == 0xA5B6;
    assert Shift8(0x7DA1) == 0x52DB;
    assert Shift8(0xFB0B) == 0xECB6;
  }

  lemma Row14(i: nat)
    requires i < 8
    ensures Columns(14)[i] == Shift8(Columns(13)[i])
  {
    assert Shift8(0x5008) == 0x844E;
    assert Shift8(0x2804) == 0x4227;
    assert Shift8(0x1402) == 0xE4C8;
    assert Shift8(0x0A01) == 0x7264;
    assert Shift8(0xC0DB) == 0x3932;
    assert Shift8(0xA5B6) == 0x1C99;
    assert Shift8(0x52DB) == 0xCB97;
    assert Shift8(0xECB6) == 0xA010;
  }

  lemma Row15(i: nat)
    requires i < 8
    ensures Columns(15)[i] == Shift8(Columns(14)[i])
  {
    assert Shift8(0x844E) == 0xC6B4;
    assert Shift8(0x4227) == 0x635A;
    assert Shift8(0xE4C8) == 0x31AD;
    assert Shift8(0x7264) == 0xDD0D;
    assert Shift8(0x3932) == 0xAB5D;
    assert Shift8(0x1C99) == 0x9075;
    assert Shift8(0xCB97) == 0x8DE1;
    assert Shift8(0xA010) == 0x832B;
  }

  /** Every row is the previous one followed by a zero byte. */
  lemma NextRow(k: nat, i: nat)
    requires 0 < k < 16 && i < 8
    ensures Columns(k)[i] == Shift8(Columns(k - 1)[i])
  {
    match k
    case 1 => Row1(i);
    case 2 => Row2(i);
    case 3 => Row3(i);
    case 4 => Row4(i);
    case 5 => Row5(i);
    case 6 => Row6(i);
    case 7 => Row7(i);
    case 8 => Row8(i);
    case 9 => Row9(i);
    case 10 => Row10(i);
    case 11 => Row11(i);
    case 12 => Row12(i);
    case 13 => Row13(i);
    case 14 => Row14(i);
    case _ => Row15(i);
  }

  lemma ColumnsShift(k: nat, i: nat)
    requires 0 < k < 16 && i < 8
    ensures Columns(k)[i] == Shifts(OPS, Columns(k - 1)[i], OPS.bits)
  {
    NextRow(k, i);
    Shift8IsShifts(Columns(k - 1)[i]);
  }

  lemma {:induction false} FirstColumns(i: nat)
    requires i < 8
    ensures Columns(0)[i] == Shifts(OPS, OPS.inject(true), 8 - i)
    decreases 8 - i
  {
    Row0();
    ShiftsLast(OPS, OPS.inject(true), 7 - i);
    if i < 7 {
      FirstColumns(i + 1);
      ShiftIs(Columns(0)[i + 1]);
    } else {
      ShiftIs(0x8000);
    }
  }

  lemma ColumnsShifted()
    ensures Columns(0) == Traces(OPS, OPS.bits)
    ensures forall k: nat, i: nat | k < 15 && i < 8 :: RowShiftedAt(OPS, Columns, k, i)
  {
    forall i | 0 <= i < 8 ensures Columns(0)[i] == Traces(OPS, OPS.bits)[i] {
      FirstColumns(i);
    }
    forall k: nat, i: nat | k < 15 && i < 8 ensures RowShiftedAt(OPS, Columns, k, i) {
      ColumnsShift(k + 1, i);
    }
  }

  /** An entry of row `k` is its byte followed by `k` zero bytes, divided bit by bit. */
  lemma TableIsDivision(k: nat, b: bv8)
    requires k < 16
    ensures Table(k, b) == Blocks(OPS, OPS.load(b), k + 1)
  {
    OpsIsGroup();
    OpsIsLinear();
    OpsReadsBits();
    ColumnsShifted();
    MixedTable(OPS, b, Columns, k, 15);
  }

  lemma OpsHasTable()
    ensures IsTable(OPS, Table, 16)
  {
    forall k: nat, b | k < 16 ensures TableAt(OPS, Table, k, b) {
      TableIsDivision(k, b);
    }
  }

  // ---------------------------------------------------------------------------------------------
  // Two bytes are one word

  lemma LowMovesUp(v: bv8) ensures Shift8(v as bv16) == High(v) {}

  lemma HighOf(x: bv16) returns (v: bv8)
    requires x & 0xFF == 0
    ensures x == High(v) && x >> 8 == v as bv16
  {
    v := (x >> 8) as bv8;
  }

  lemma HighFits(b: bv8) ensures High(b) & 0xFF == 0 {}

  lemma LowerIs(x: bv16) ensures OPS.lower(x) == x >> 8 {}

  lemma LoadIs(b: bv8) ensures OPS.load(b) == High(b) {}

  lemma OpsLowersAt(k: nat, x: bv16, b: bv8)
    requires k < 2 && Fits(k, x)
    ensures Shifts(OPS, OPS.lower(x), OPS.bits) == x
    ensures Fits(k + 1, OPS.xor(OPS.load(b), OPS.lower(x)))
  {
    LowerIs(x);
    if k == 0 {
      OpsIsGroup();
      OpsIsLinear();
      ZeroShifts(OPS, 8);
      LoadIs(b);
      XorIs(High(b), 0);
      XorZero(High(b));
      HighFits(b);
    } else {
      var v := HighOf(x);
      LowMovesUp(v);
      Shift8IsShifts(v as bv16);
    }
  }

  lemma SplitWord(x: bv16, y: bv16, a: bv8, b: bv8)
    requires x & 0xFF == 0 && y & 0xFF == 0 && High(a) ^ (x >> 8) == High(b) ^ (y >> 8)
    ensures a == b && x == y
  {
  }

  lemma OpsSplitsAt(k: nat, x: bv16, y: bv16, a: bv8, b: bv8)
    requires k < 2 && Fits(k, x) && Fits(k, y)
    requires OPS.xor(OPS.load(a), OPS.lower(x)) == OPS.xor(OPS.load(b), OPS.lower(y))
    ensures a == b && x == y
  {
    LowerIs(x);
    LowerIs(y);
    LoadIs(a);
    LoadIs(b);
    XorIs(High(a), x >> 8);
    XorIs(High(b), y >> 8);
    SplitWord(x, y, a, b);
  }

  lemma OpsHasWindow()
    ensures HasWindow(OPS)
  {
    forall k: nat, x, b ensures LowersAt(OPS, k, x, b) {
      if k < 2 && Fits(k, x) {
        OpsLowersAt(k, x, b);
      }
    }
    forall k: nat, x, y, a, b ensures SplitsAt(OPS, k, x, y, a, b) {
      if k < OPS.window && OPS.fits(k, x) && OPS.fits(k, y)
         && OPS.xor(OPS.load(a), OPS.lower(x)) == OPS.xor(OPS.load(b), OPS.lower(y)) {
        OpsSplitsAt(k, x, y, a, b);
      }
    }
  }

  // ---------------------------------------------------------------------------------------------
  // The two loops

  function Hi(c: bv16): bv8 { (c >> 8) as bv8 }

  function Lo(c: bv16): bv8 { (c & 0xFF) as bv8 }

  predicate XorAt(o: Ops<bv16, bv8>, a: bv16, b: bv16) { o.xor(a, b) == a ^ b }

  predicate LoadAt(o: Ops<bv16, bv8>, b: bv8) { o.load(b) == High(b) }

  predicate LowAt(o: Ops<bv16, bv8>, v: bv8) { Shifts(o, v as bv16, o.bits) == High(v) }

  /** What the loops need to know of the division, one fact at a time. */
  ghost predicate Divides(o: Ops<bv16, bv8>) {
    && IsGroup(o) && IsLinear(o) && IsTable(o, Table, 16) && o.zero == 0
    && (forall a, b :: XorAt(o, a, b))
    && (forall b :: LoadAt(o, b))
    && (forall v :: LowAt(o, v))
  }

  lemma OpsDivides()
    ensures Divides(OPS)
  {
    OpsIsGroup();
    OpsIsLinear();
    OpsHasTable();
    forall a, b ensures XorAt(OPS, a, b) { XorIs(a, b); }
    forall b ensures LoadAt(OPS, b) { LoadIs(b); }
    forall v ensures LowAt(OPS, v) { LowShiftsUp(v); }
  }

  lemma LowShiftsUp(v: bv8)
    ensures Shifts(OPS, v as bv16, OPS.bits) == High(v)
  {
    LowMovesUp(v);
    Shift8IsShifts(v as bv16);
  }

  lemma HalvesAddUp(c: bv16) ensures High(Hi(c)) ^ (Lo(c) as bv16) == c {}

  lemma LowIsShifted(c: bv16) ensures High(Lo(c)) == c << 8 {}

  lemma HighXor(a: bv8, b: bv8) ensures High(a) ^ High(b) == High(a ^ b) {}

  lemma Halves(o: Ops<bv16, bv8>, c: bv16)
    requires Divides(o)
    ensures c == o.xor(o.load(Hi(c)), Lo(c) as bv16)
    ensures Shifts(o, Lo(c) as bv16, o.bits) == o.load(Lo(c))
  {
    assert LoadAt(o, Hi(c)) && LoadAt(o, Lo(c)) && LowAt(o, Lo(c));
    assert XorAt(o, High(Hi(c)), Lo(c) as bv16);
    HalvesAddUp(c);
  }

  lemma LoadXor(o: Ops<bv16, bv8>, a: bv8, b: bv8)
    requires Divides(o)
    ensures o.load(a ^ b) == o.xor(o.load(a), o.load(b))
  {
    assert LoadAt(o, a) && LoadAt(o, b) && LoadAt(o, a ^ b) && XorAt(o, High(a), High(b));
    HighXor(a, b);
  }

  /** The first two bytes of a block with the register added to them. */
  function Primed(c: bv16, d: seq<bv8>): (r: seq<bv8>)
    requires |d| >= 2
    ensures |r| == |d|
  {
    [d[0] ^ Hi(c), d[1] ^ Lo(c)] + d[2..]
  }

  /** Adding the register to the first two bytes empties it. */
  lemma PrimedBlock(o: Ops<bv16, bv8>, c: bv16, d: seq<bv8>, p: seq<bv8>)
    requires Divides(o) && |d| >= 2 && p == Primed(c, d)
    ensures Crc(o, c, d) == Crc(o, o.zero, p)
  {
    assert p[2..] == d[2..];
    Halves(o, c);
    LoadXor(o, d[0], Hi(c));
    LoadXor(o, d[1], Lo(c));
    PrimedCrc(o, c, Lo(c) as bv16, Hi(c), Lo(c), d, p);
  }

  /** Sixteen bytes in one go: the sum of one table entry per byte. */
  method SixteenBytes(ghost o: Ops<bv16, bv8>, c: bv16, d: seq<bv8>) returns (r: bv16)
    requires Divides(o) && |d| == 16
    ensures r == Crc(o, c, d)
  {
    var p := Primed(c, d);
    r := Sum(o, Table, p);
    BlockLookup(o, Table, p);
    PrimedBlock(o, c, d, p);
  }

  method Sum(ghost o: Ops<bv16, bv8>, table: (nat, bv8) -> bv16, d: seq<bv8>) returns (r: bv16)
    requires o.zero == 0 && forall a, b :: XorAt(o, a, b)
    ensures r == Lookups(o, table, d, |d|)
  {
    r := 0;
    for i := 0 to |d|
      invariant r == Lookups(o, table, d, i)
    {
      assert XorAt(o, r, table(|d| - 1 - i, d[i]));
      r := r ^ table(|d| - 1 - i, d[i]);
    }
  }

  lemma ByteStep(o: Ops<bv16, bv8>, c: bv16, b: bv8, e: bv16)
    requires Divides(o) && e == Shifts(o, o.load(Hi(c) ^ b), o.bits)
    ensures Step(o, c, b) == o.xor(o.load(Lo(c)), e)
  {
    Halves(o, c);
    LoadXor(o, Hi(c), b);
    StepSplits(o, c, Lo(c) as bv16, o.load(Lo(c)), Hi(c), b, Hi(c) ^ b);
  }

  method OneByte(ghost o: Ops<bv16, bv8>, c: bv16, b: bv8) returns (r: bv16)
    requires Divides(o)
    ensures r == Step(o, c, b)
  {
    var e := Entry(o, Table, Hi(c) ^ b);
    ByteStep(o, c, b, e);
    LowIsShifted(c);
    assert LoadAt(o, Lo(c)) && XorAt(o, c << 8, e);
    r := (c << 8) ^ e;
  }

  method Entry(ghost o: Ops<bv16, bv8>, table: (nat, bv8) -> bv16, b: bv8) returns (e: bv16)
    requires IsTable(o, table, 16)
    ensures e == Shifts(o, o.load(b), o.bits)
  {
    assert TableAt(o, table, 0, b);
    e := table(0, b);
    assert Blocks(o, o.load(b), 1) == Blocks(o, Shifts(o, o.load(b), o.bits), 0);
  }

  /** The bytes in `n` blocks. */
  function Sixteens(n: nat): (r: nat)
    ensures r == 16 * n
  {
    if n == 0 then 0 else 16 + Sixteens(n - 1)
  }

  /** Blocks of sixteen. */
  method WholeBlocks(ghost o: Ops<bv16, bv8>, crc: bv16, data: seq<bv8>, last16: nat, ghost n: nat)
    returns (r: bv16)
    requires Divides(o) && last16 <= |data| && last16 == Sixteens(n)
    ensures r == CrcTo(o, crc, data, last16)
  {
    r := crc;
    var i := 0;
    ghost var left := n;
    while i < last16
      invariant i + Sixteens(left) == last16 && r == CrcTo(o, crc, data, i)
    {
      r := NextBlock(o, crc, data, i, r);
      i, left := i + 16, left - 1;
    }
  }

  method NextBlock(ghost o: Ops<bv16, bv8>, ghost crc: bv16, data: seq<bv8>, i: nat, c: bv16) returns (r: bv16)
    requires Divides(o) && i + 16 <= |data| && c == CrcTo(o, crc, data, i)
    ensures r == CrcTo(o, crc, data, i + 16)
  {
    r := SixteenBytes(o, c, data[i..i + 16]);
    CrcContinues(o, crc, data, i, i + 16);
  }

  /** The remaining bytes. */
  method RemainingBytes(ghost o: Ops<bv16, bv8>, ghost crc: bv16, data: seq<bv8>, from: nat, c: bv16) returns (r: bv16)
    requires Divides(o) && from <= |data| && c == CrcTo(o, crc, data, from)
    ensures r == Crc(o, crc, data)
  {
    r := c;
    for i := from to |data|
      invariant r == CrcTo(o, crc, data, i)
    {
      r := OneByte(o, r, data[i]);
    }
  }

  method UpdateFast(crc: bv16, data: seq<bv8>) returns (r: bv16)
    ensures r == Bitwise(crc, data)
  {
    OpsDivides();
    var last16 := |data| - |data| % 16;
    r := WholeBlocks(OPS, crc, data, last16, |data| / 16);
    r := RemainingBytes(OPS, crc, data, last16, r);
    BitwiseIsCrc(crc, data);
  }

  // ---------------------------------------------------------------------------------------------
  // What the checksum is good for

  lemma BitwiseIsCrc(seed: bv16, msg: seq<bv8>)
    ensures Bitwise(seed, msg) == Crc(OPS, seed, msg)
  {
    OpsIsGroup();
    OpsIsLinear();
    OpsReadsBits();
    CrcIsBitwise(OPS, seed, msg, |msg|);
  }

  /** A checksum may be continued: the result for the first part is the seed for the second. */
  lemma Continues(seed: bv16, a: seq<bv8>, b: seq<bv8>)
    ensures Bitwise(seed, a + b) == Bitwise(Bitwise(seed, a), b)
  {
    BitwiseIsCrc(seed, a + b);
    BitwiseIsCrc(seed, a);
    BitwiseIsCrc(Bitwise(seed, a), b);
    CrcAppend(OPS, seed, a, b);
  }

  /** Two messages of equal length that differ, but only within two adjacent bytes, have different CRCs. */
  lemma TwoByteBurstDetected(seed: bv16, a: seq<bv8>, b: seq<bv8>, i: nat)
    requires |a| == |b| && a != b
    requires forall k | 0 <= k < |a| && !(i <= k < i + 2) :: a[k] == b[k]
    ensures Bitwise(seed, a) != Bitwise(seed, b)
  {
    BitwiseIsCrc(seed, a);
    BitwiseIsCrc(seed, b);
    OpsIsGroup();
    OpsIsLinear();
    OpsHasWindow();
    BurstDetectedAt(OPS, seed, a, b, i);
  }

  lemma SplitRegister(c: bv16) ensures High(Hi(c)) ^ (High(Lo(c)) >> 8) == c {}

  lemma WordOfRegister(c: bv16)
    ensures Word(OPS, [Hi(c), Lo(c)]) == c
  {
    var h, l := Hi(c), Lo(c);
    assert [h, l][1..] == [l] && [l][1..] == [];
    LoadIs(h);
    LoadIs(l);
    LowerIs(0);
    XorIs(High(l), 0 >> 8);
    XorZero(High(l));
    LowerIs(High(l));
    XorIs(High(h), High(l) >> 8);
    SplitRegister(c);
  }

  /** A message followed by its own CRC divides without remainder: a receiver may check for zero. */
  lemma CodewordHasNoRemainder(seed: bv16, msg: seq<bv8>)
    ensures var c := Bitwise(seed, msg); Bitwise(seed, msg + [Hi(c), Lo(c)]) == 0
  {
    var c := Bitwise(seed, msg);
    var tail := [Hi(c), Lo(c)];
    BitwiseIsCrc(seed, msg);
    BitwiseIsCrc(seed, msg + tail);
    CrcAppend(OPS, seed, msg, tail);
    OpsIsGroup();
    OpsIsLinear();
    OpsHasWindow();
    WindowIsWord(OPS, c, tail);
    WordOfRegister(c);
    XorIs(c, c);
    XorSelf(c);
    ZeroBlocks(OPS, 2);
  }
}
