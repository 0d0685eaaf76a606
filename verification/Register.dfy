/**
 The algebra behind the CRC code, for any register type `T` and message symbol type `B`: a division
 register is a linear, injective shift; a message symbol is added to it before its bits are shifted
 out. CRC-16 and CRC-64 are two instances.
 */
module Register {

  /** `load` places a symbol where its bits enter the register. `first` and `rest` take a symbol apart bit
      by bit: `inject` is where one bit enters, `later` places the bits after the first one. `lower` undoes the
      shifts of one symbol for a word that `fits` the register, so that up to `window` symbols are one word. */
  datatype Ops<!T, !B> = Ops(
    zero: T,
    xor: (T, T) -> T,
    shift: T -> T,
    load: B -> T,
    bits: nat,
    inject: bool -> T,
    first: B -> bool,
    rest: B -> B,
    later: B -> T,
    window: nat,
    lower: T -> T,
    fits: (nat, T) -> bool)

  predicate AssocAt<T(==), B>(o: Ops<T, B>, a: T, b: T, c: T) {
    o.xor(o.xor(a, b), c) == o.xor(a, o.xor(b, c))
  }

  /** Addition is commutative, and every element is its own inverse. */
  predicate CommutesAt<T(==), B>(o: Ops<T, B>, a: T, b: T) {
    o.xor(a, b) == o.xor(b, a) && o.xor(a, o.zero) == a && o.xor(a, a) == o.zero
  }

  predicate LinearAt<T(==), B>(o: Ops<T, B>, a: T, b: T) {
    o.shift(o.xor(a, b)) == o.xor(o.shift(a), o.shift(b)) && (o.shift(a) == o.shift(b) ==> a == b)
  }

  /** A symbol is its first bit and its later bits, which shift down to the rest of the symbol. */
  predicate ReadsAt<T(==), B>(o: Ops<T, B>, b: B) {
    && o.load(b) == o.xor(o.inject(o.first(b)), o.later(b))
    && o.shift(o.later(b)) == o.load(o.rest(b))
  }

  predicate LowersAt<T(==), B>(o: Ops<T, B>, k: nat, x: T, b: B) {
    k < o.window && o.fits(k, x)
    ==> Shifts(o, o.lower(x), o.bits) == x && o.fits(k + 1, o.xor(o.load(b), o.lower(x)))
  }

  predicate SplitsAt<T(==), B(==)>(o: Ops<T, B>, k: nat, x: T, y: T, a: B, b: B) {
    k < o.window && o.fits(k, x) && o.fits(k, y) && o.xor(o.load(a), o.lower(x)) == o.xor(o.load(b), o.lower(y))
    ==> a == b && x == y
  }

  ghost predicate IsGroup<T(!new), B(!new)>(o: Ops<T, B>) {
    && (forall a, b, c :: AssocAt(o, a, b, c))
    && (forall a, b :: CommutesAt(o, a, b))
  }

  ghost predicate IsLinear<T(!new), B(!new)>(o: Ops<T, B>) {
    forall a, b :: LinearAt(o, a, b)
  }

  ghost predicate ReadsBits<T(!new), B(!new)>(o: Ops<T, B>) {
    && (forall b :: ReadsAt(o, b))
    && (forall b :: o.load(Rest(o, b, o.bits)) == o.zero)
  }

  ghost predicate HasWindow<T(!new), B(!new)>(o: Ops<T, B>) {
    && o.fits(0, o.zero)
    && (forall k: nat, x, b :: LowersAt(o, k, x, b))
    && (forall k: nat, x, y, a, b :: SplitsAt(o, k, x, y, a, b))
  }

  // ---------------------------------------------------------------------------------------------
  // Shifting

  function Shifts<T, B>(o: Ops<T, B>, c: T, n: nat): T
    decreases n
  {
    if n == 0 then c else Shifts(o, o.shift(c), n - 1)
  }

  function Rest<T, B>(o: Ops<T, B>, b: B, n: nat): B
    decreases n
  {
    if n == 0 then b else Rest(o, o.rest(b), n - 1)
  }

  lemma {:induction false} ShiftsXor<T(!new), B(!new)>(o: Ops<T, B>, a: T, b: T, n: nat)
    requires IsLinear(o)
    ensures Shifts(o, o.xor(a, b), n) == o.xor(Shifts(o, a, n), Shifts(o, b, n))
    decreases n
  {
    if n != 0 {
      assert LinearAt(o, a, b);
      ShiftsXor(o, o.shift(a), o.shift(b), n - 1);
    }
  }

  lemma {:induction false} ShiftsInjective<T(!new), B(!new)>(o: Ops<T, B>, a: T, b: T, n: nat)
    requires IsLinear(o) && Shifts(o, a, n) == Shifts(o, b, n)
    ensures a == b
    decreases n
  {
    if n != 0 {
      ShiftsInjective(o, o.shift(a), o.shift(b), n - 1);
      assert LinearAt(o, a, b);
    }
  }

  /** `k` zero symbols. */
  function Blocks<T, B>(o: Ops<T, B>, c: T, k: nat): T
    decreases k
  {
    if k == 0 then c else Blocks(o, Shifts(o, c, o.bits), k - 1)
  }

  lemma {:induction false} BlocksLast<T, B>(o: Ops<T, B>, c: T, k: nat)
    ensures Blocks(o, c, k + 1) == Shifts(o, Blocks(o, c, k), o.bits)
    decreases k
  {
    if k == 0 {
      assert Blocks(o, c, 1) == Blocks(o, Shifts(o, c, o.bits), 0);
    } else {
      BlocksLast(o, Shifts(o, c, o.bits), k - 1);
    }
  }

  lemma {:induction false} BlocksXor<T(!new), B(!new)>(o: Ops<T, B>, a: T, b: T, k: nat)
    requires IsLinear(o)
    ensures Blocks(o, o.xor(a, b), k) == o.xor(Blocks(o, a, k), Blocks(o, b, k))
    decreases k
  {
    if k != 0 {
      ShiftsXor(o, a, b, o.bits);
      BlocksXor(o, Shifts(o, a, o.bits), Shifts(o, b, o.bits), k - 1);
    }
  }

  lemma {:induction false} BlocksInjective<T(!new), B(!new)>(o: Ops<T, B>, a: T, b: T, k: nat)
    requires IsLinear(o) && Blocks(o, a, k) == Blocks(o, b, k)
    ensures a == b
    decreases k
  {
    if k != 0 {
      BlocksInjective(o, Shifts(o, a, o.bits), Shifts(o, b, o.bits), k - 1);
      ShiftsInjective(o, a, b, o.bits);
    }
  }

  lemma XorCancel<T(!new), B(!new)>(o: Ops<T, B>, a: T, b: T, c: T)
    requires IsGroup(o) && o.xor(a, b) == o.xor(a, c)
    ensures b == c
  {
    XorUndo(o, a, b);
    XorUndo(o, a, c);
  }

  lemma XorUndo<T(!new), B(!new)>(o: Ops<T, B>, a: T, b: T)
    requires IsGroup(o)
    ensures o.xor(a, o.xor(a, b)) == b
  {
    assert AssocAt(o, a, a, b) && CommutesAt(o, a, a) && CommutesAt(o, b, o.zero);
  }

  // ---------------------------------------------------------------------------------------------
  // Messages, bit by bit and symbol by symbol

  /** Reference: one bit enters the register and is divided. */
  function Feed<T, B>(o: Ops<T, B>, c: T, bit: bool): T {
    o.shift(o.xor(c, o.inject(bit)))
  }

  /** Reference: the bits of a symbol enter the register one by one. */
  function FeedBits<T, B>(o: Ops<T, B>, c: T, b: B, n: nat): T
    decreases n
  {
    if n == 0 then c else FeedBits(o, Feed(o, c, o.first(b)), o.rest(b), n - 1)
  }

  /** Reference: the register after the first `n` symbols of a message, read bit by bit. */
  function BitwiseTo<T, B>(o: Ops<T, B>, seed: T, msg: seq<B>, n: nat): T
    requires n <= |msg|
    decreases n
  {
    if n == 0 then seed else FeedBits(o, BitwiseTo(o, seed, msg, n - 1), msg[n - 1], o.bits)
  }

  /** A whole symbol at once. */
  function Step<T, B>(o: Ops<T, B>, c: T, b: B): T {
    Shifts(o, o.xor(c, o.load(b)), o.bits)
  }

  function CrcTo<T, B>(o: Ops<T, B>, seed: T, msg: seq<B>, n: nat): T
    requires n <= |msg|
    decreases n
  {
    if n == 0 then seed else Step(o, CrcTo(o, seed, msg, n - 1), msg[n - 1])
  }

  function Crc<T, B>(o: Ops<T, B>, seed: T, msg: seq<B>): T {
    CrcTo(o, seed, msg, |msg|)
  }

  /** Reading a bit and adding the rest of its symbol is shifting after adding the whole symbol. */
  lemma FeedIsShift<T(!new), B(!new)>(o: Ops<T, B>, c: T, b: B)
    requires IsGroup(o) && IsLinear(o) && ReadsBits(o)
    ensures o.xor(Feed(o, c, o.first(b)), o.load(o.rest(b))) == o.shift(o.xor(c, o.load(b)))
  {
    var i, l := o.inject(o.first(b)), o.later(b);
    assert ReadsAt(o, b) && AssocAt(o, c, i, l) && LinearAt(o, o.xor(c, i), l);
  }

  lemma {:induction false} FeedBitsIsShifts<T(!new), B(!new)>(o: Ops<T, B>, c: T, b: B, n: nat)
    requires IsGroup(o) && IsLinear(o) && ReadsBits(o)
    ensures o.xor(FeedBits(o, c, b, n), o.load(Rest(o, b, n))) == Shifts(o, o.xor(c, o.load(b)), n)
    decreases n
  {
    if n != 0 {
      FeedBitsIsShifts(o, Feed(o, c, o.first(b)), o.rest(b), n - 1);
      FeedIsShift(o, c, b);
    }
  }

  /** Symbol by symbol is bit by bit. */
  lemma {:induction false} CrcIsBitwise<T(!new), B(!new)>(o: Ops<T, B>, seed: T, msg: seq<B>, n: nat)
    requires IsGroup(o) && IsLinear(o) && ReadsBits(o) && n <= |msg|
    ensures CrcTo(o, seed, msg, n) == BitwiseTo(o, seed, msg, n)
    decreases n
  {
    if n != 0 {
      CrcIsBitwise(o, seed, msg, n - 1);
      var c, b := CrcTo(o, seed, msg, n - 1), msg[n - 1];
      FeedBitsIsShifts(o, c, b, o.bits);
      assert CommutesAt(o, FeedBits(o, c, b, o.bits), o.zero);
    }
  }

  lemma {:induction false} CrcPrefix<T, B>(o: Ops<T, B>, seed: T, a: seq<B>, b: seq<B>, n: nat)
    requires n <= |a| && n <= |b| && a[..n] == b[..n]
    ensures CrcTo(o, seed, a, n) == CrcTo(o, seed, b, n)
    decreases n
  {
    if n != 0 {
      assert a[..n][..n - 1] == a[..n - 1] && b[..n][..n - 1] == b[..n - 1];
      assert a[n - 1] == a[..n][n - 1] == b[..n][n - 1] == b[n - 1];
      CrcPrefix(o, seed, a, b, n - 1);
    }
  }

  lemma {:induction false} CrcAppendTo<T, B>(o: Ops<T, B>, seed: T, a: seq<B>, b: seq<B>, n: nat)
    requires n <= |b|
    ensures CrcTo(o, seed, a + b, |a| + n) == CrcTo(o, Crc(o, seed, a), b, n)
    decreases n
  {
    if n == 0 {
      assert (a + b)[..|a|] == a == a[..|a|];
      CrcPrefix(o, seed, a + b, a, |a|);
    } else {
      CrcAppendTo(o, seed, a, b, n - 1);
    }
  }

  /** The CRC of a concatenation continues from the CRC of its first part. */
  lemma CrcAppend<T, B>(o: Ops<T, B>, seed: T, a: seq<B>, b: seq<B>)
    ensures Crc(o, seed, a + b) == Crc(o, Crc(o, seed, a), b)
  {
    CrcAppendTo(o, seed, a, b, |b|);
  }

  // ---------------------------------------------------------------------------------------------
  // Many symbols at once, by table lookup

  /** The sum of the table entries for the first `n` of `len` symbols: row `k` is for the symbol that is
      followed by `k` others. */
  function Lookups<T, B>(o: Ops<T, B>, table: (nat, B) -> T, msg: seq<B>, n: nat): T
    requires n <= |msg|
    decreases n
  {
    if n == 0 then o.zero else o.xor(Lookups(o, table, msg, n - 1), table(|msg| - n, msg[n - 1]))
  }

  predicate TableAt<T(==), B>(o: Ops<T, B>, table: (nat, B) -> T, k: nat, b: B) {
    table(k, b) == Blocks(o, o.load(b), k + 1)
  }

  ghost predicate IsTable<T, B(!new)>(o: Ops<T, B>, table: (nat, B) -> T, rows: nat) {
    forall k: nat, b | k < rows :: TableAt(o, table, k, b)
  }

  lemma {:induction false} ZeroShifts<T(!new), B(!new)>(o: Ops<T, B>, n: nat)
    requires IsGroup(o) && IsLinear(o)
    ensures Shifts(o, o.zero, n) == o.zero
    decreases n
  {
    if n != 0 {
      assert LinearAt(o, o.zero, o.zero) && CommutesAt(o, o.zero, o.zero);
      assert CommutesAt(o, o.shift(o.zero), o.zero);
      ZeroShifts(o, n - 1);
    }
  }

  lemma {:induction false} ZeroBlocks<T(!new), B(!new)>(o: Ops<T, B>, k: nat)
    requires IsGroup(o) && IsLinear(o)
    ensures Blocks(o, o.zero, k) == o.zero
    decreases k
  {
    if k != 0 {
      ZeroShifts(o, o.bits);
      ZeroBlocks(o, k - 1);
    }
  }

  /** The first `n` bits of a symbol, in the order they are divided. */
  function ReadBits<T, B>(o: Ops<T, B>, b: B, n: nat): (r: seq<bool>)
    ensures |r| == n
  {
    seq(n, (i: nat) => o.first(Rest(o, b, i)))
  }

  function Pick<T, B>(o: Ops<T, B>, bits: seq<bool>, columns: seq<T>, i: nat): T
    requires i < |bits| && i < |columns|
  {
    if bits[i] then columns[i] else o.zero
  }

  /** The sum of the first `n` columns whose bit is set. */
  function Mixed<T, B>(o: Ops<T, B>, bits: seq<bool>, columns: seq<T>, n: nat): T
    requires n <= |bits| && n <= |columns|
  {
    if n == 0 then o.zero else o.xor(Mixed(o, bits, columns, n - 1), Pick(o, bits, columns, n - 1))
  }

  /** Column `i` of `b` is that of `a` shifted `k` times. */
  predicate ShiftedAt<T(==), B>(o: Ops<T, B>, a: seq<T>, b: seq<T>, i: nat, k: nat) {
    i < |a| && i < |b| && b[i] == Shifts(o, a[i], k)
  }

  /** Shifting a sum of columns is summing the shifted columns. */
  lemma {:induction false} MixedShifts<T(!new), B(!new)>(o: Ops<T, B>, bits: seq<bool>, a: seq<T>, b: seq<T>, n: nat,
                                                         k: nat)
    requires IsGroup(o) && IsLinear(o) && n <= |bits| && n <= |a| && n <= |b|
    requires forall i: nat | i < n :: ShiftedAt(o, a, b, i, k)
    ensures Mixed(o, bits, b, n) == Shifts(o, Mixed(o, bits, a, n), k)
    decreases n
  {
    ZeroShifts(o, k);
    if n != 0 {
      assert ShiftedAt(o, a, b, n - 1, k);
      MixedShifts(o, bits, a, b, n - 1, k);
      ShiftsXor(o, Mixed(o, bits, a, n - 1), Pick(o, bits, a, n - 1), k);
    }
  }

  lemma {:induction false} ShiftsLast<T, B>(o: Ops<T, B>, c: T, n: nat)
    ensures Shifts(o, c, n + 1) == o.shift(Shifts(o, c, n))
    decreases n
  {
    if n != 0 {
      ShiftsLast(o, o.shift(c), n - 1);
    }
  }

  lemma {:induction false} FeedBitsLast<T, B>(o: Ops<T, B>, c: T, b: B, n: nat)
    ensures FeedBits(o, c, b, n + 1) == Feed(o, FeedBits(o, c, b, n), o.first(Rest(o, b, n)))
    decreases n
  {
    if n == 0 {
      assert FeedBits(o, c, b, 1) == FeedBits(o, Feed(o, c, o.first(b)), o.rest(b), 0);
    } else {
      FeedBitsLast(o, Feed(o, c, o.first(b)), o.rest(b), n - 1);
    }
  }

  /** What a single one leaves behind, when it was read `n - i` bits ago. */
  function Traces<T, B>(o: Ops<T, B>, n: nat): (r: seq<T>)
    ensures |r| == n && forall i | 0 <= i < n :: r[i] == Shifts(o, o.inject(true), n - i)
  {
    seq(n, i requires 0 <= i < n => Shifts(o, o.inject(true), n - i))
  }

  lemma TracesShift<T(!new), B(!new)>(o: Ops<T, B>, bits: seq<bool>, n: nat)
    requires IsGroup(o) && IsLinear(o) && n < |bits|
    ensures Mixed(o, bits, Traces(o, n + 1), n) == o.shift(Mixed(o, bits, Traces(o, n), n))
  {
    var a, b := Traces(o, n), Traces(o, n + 1);
    forall i: nat | i < n ensures ShiftedAt(o, a, b, i, 1) {
      ShiftsLast(o, o.inject(true), n - i);
      assert Shifts(o, a[i], 1) == Shifts(o, o.shift(a[i]), 0);
    }
    MixedShifts(o, bits, a, b, n, 1);
    var m := Mixed(o, bits, a, n);
    assert Shifts(o, m, 1) == Shifts(o, o.shift(m), 0);
  }

  /** Bits read into an empty register leave the sum of the traces of the ones. */
  lemma {:induction false} FeedBitsIsMixed<T(!new), B(!new)>(o: Ops<T, B>, b: B, bits: seq<bool>, n: nat)
    requires IsGroup(o) && IsLinear(o) && o.inject(false) == o.zero
    requires n <= |bits| && forall i: nat | i < n :: bits[i] == o.first(Rest(o, b, i))
    ensures FeedBits(o, o.zero, b, n) == Mixed(o, bits, Traces(o, n), n)
    decreases n
  {
    if n != 0 {
      FeedBitsIsMixed(o, b, bits, n - 1);
      NextTrace(o, b, bits, n - 1, FeedBits(o, o.zero, b, n - 1));
    }
  }

  lemma NextTrace<T(!new), B(!new)>(o: Ops<T, B>, b: B, bits: seq<bool>, n: nat, s: T)
    requires IsGroup(o) && IsLinear(o) && o.inject(false) == o.zero && n < |bits| && bits[n] == o.first(Rest(o, b, n))
    requires s == FeedBits(o, o.zero, b, n) && s == Mixed(o, bits, Traces(o, n), n)
    ensures FeedBits(o, o.zero, b, n + 1) == Mixed(o, bits, Traces(o, n + 1), n + 1)
  {
    FeedBitsLast(o, o.zero, b, n);
    TracesShift(o, bits, n);
    LastTrace(o, bits, Traces(o, n + 1), n + 1, s);
  }

  lemma LastTrace<T(!new), B(!new)>(o: Ops<T, B>, bits: seq<bool>, traces: seq<T>, n: nat, s: T)
    requires IsGroup(o) && IsLinear(o) && o.inject(false) == o.zero && 0 < n <= |bits| && n <= |traces|
    requires traces[n - 1] == Shifts(o, o.inject(true), 1)
    requires Mixed(o, bits, traces, n - 1) == o.shift(s)
    ensures Mixed(o, bits, traces, n) == Feed(o, s, bits[n - 1])
  {
    ZeroShifts(o, 1);
    assert LinearAt(o, s, o.inject(bits[n - 1]));
    assert Shifts(o, o.inject(bits[n - 1]), 1) == Shifts(o, o.shift(o.inject(bits[n - 1])), 0);
  }

  /** A symbol divided from an empty register is the sum of the traces of its ones. */
  lemma DividedIsMixed<T(!new), B(!new)>(o: Ops<T, B>, b: B)
    requires IsGroup(o) && IsLinear(o) && ReadsBits(o) && o.inject(false) == o.zero
    ensures Shifts(o, o.load(b), o.bits) == Mixed(o, ReadBits(o, b, o.bits), Traces(o, o.bits), o.bits)
  {
    FeedBitsIsMixed(o, b, ReadBits(o, b, o.bits), o.bits);
    FeedBitsIsShifts(o, o.zero, b, o.bits);
    var f := FeedBits(o, o.zero, b, o.bits);
    assert CommutesAt(o, f, o.zero) && CommutesAt(o, o.zero, o.load(b)) && CommutesAt(o, o.load(b), o.zero);
  }

  /** Row `j + 1` of a table is row `j` followed by a zero symbol. */
  predicate RowShiftedAt<T(==), B>(o: Ops<T, B>, rows: nat -> seq<T>, j: nat, i: nat) {
    ShiftedAt(o, rows(j), rows(j + 1), i, o.bits)
  }

  /** Column by column, the first row holds the traces and every row is the one before it followed by a zero symbol:
      then row `k` divides a symbol with `k` zero symbols after it. */
  lemma {:induction false} MixedTable<T(!new), B(!new)>(o: Ops<T, B>, b: B, rows: nat -> seq<T>, k: nat, last: nat)
    requires IsGroup(o) && IsLinear(o) && ReadsBits(o) && o.inject(false) == o.zero
    requires k <= last && rows(0) == Traces(o, o.bits) && forall j: nat :: |rows(j)| == o.bits
    requires forall j: nat, i: nat | j < last && i < o.bits :: RowShiftedAt(o, rows, j, i)
    ensures Mixed(o, ReadBits(o, b, o.bits), rows(k), o.bits) == Blocks(o, o.load(b), k + 1)
    decreases k
  {
    BlocksLast(o, o.load(b), k);
    if k == 0 {
      DividedIsMixed(o, b);
    } else {
      MixedTable(o, b, rows, k - 1, last);
      var a, c := rows(k - 1), rows(k);
      forall i: nat | i < o.bits ensures ShiftedAt(o, a, c, i, o.bits) {
        assert RowShiftedAt(o, rows, k - 1, i);
      }
      MixedShifts(o, ReadBits(o, b, o.bits), a, c, o.bits, o.bits);
    }
  }

  /** Looking `n` symbols up is processing them from an empty register and moving on past the others. */
  lemma {:induction false} LookupsAreSteps<T(!new), B(!new)>(o: Ops<T, B>, table: (nat, B) -> T, msg: seq<B>, n: nat)
    requires IsGroup(o) && IsLinear(o) && IsTable(o, table, |msg|) && n <= |msg|
    ensures Lookups(o, table, msg, n) == Blocks(o, CrcTo(o, o.zero, msg, n), |msg| - n)
    decreases n
  {
    if n == 0 {
      ZeroBlocks(o, |msg|);
    } else {
      LookupsAreSteps(o, table, msg, n - 1);
      var c, b, k := CrcTo(o, o.zero, msg, n - 1), msg[n - 1], |msg| - n;
      LookupIsStep(o, table, c, b, k);
    }
  }

  lemma LookupIsStep<T(!new), B(!new)>(o: Ops<T, B>, table: (nat, B) -> T, c: T, b: B, k: nat)
    requires IsLinear(o) && TableAt(o, table, k, b)
    ensures o.xor(Blocks(o, c, k + 1), table(k, b)) == Blocks(o, Step(o, c, b), k)
  {
    BlocksXor(o, c, o.load(b), k + 1);
  }

  /** One symbol when the register is `load(h)` plus a part `u` that moves up to `l`. */
  lemma StepSplits<T(!new), B(!new)>(o: Ops<T, B>, c: T, u: T, l: T, h: B, b: B, p: B)
    requires IsGroup(o) && IsLinear(o) && c == o.xor(o.load(h), u) && Shifts(o, u, o.bits) == l
    requires o.load(p) == o.xor(o.load(h), o.load(b))
    ensures Step(o, c, b) == o.xor(l, Shifts(o, o.load(p), o.bits))
  {
    assert CommutesAt(o, o.load(h), u) && AssocAt(o, u, o.load(h), o.load(b));
    ShiftsXor(o, u, o.load(p), o.bits);
  }

  /** Two symbols with the register added to them, from an empty register. */
  lemma PrimedSteps<T(!new), B(!new)>(o: Ops<T, B>, c: T, u: T, h: B, l: B, b0: B, b1: B, p0: B, p1: B)
    requires IsGroup(o) && IsLinear(o) && c == o.xor(o.load(h), u) && Shifts(o, u, o.bits) == o.load(l)
    requires o.load(p0) == o.xor(o.load(b0), o.load(h)) && o.load(p1) == o.xor(o.load(b1), o.load(l))
    ensures Step(o, Step(o, c, b0), b1) == Step(o, Step(o, o.zero, p0), p1)
  {
    var s := Shifts(o, o.load(p0), o.bits);
    assert CommutesAt(o, o.load(h), o.load(b0)) && CommutesAt(o, o.load(p0), o.zero);
    assert CommutesAt(o, o.zero, o.load(p0));
    StepSplits(o, c, u, o.load(l), h, b0, p0);
    assert CommutesAt(o, o.load(l), s) && AssocAt(o, s, o.load(l), o.load(b1)) && CommutesAt(o, o.load(l), o.load(b1));
  }

  lemma PrimedCrc<T(!new), B(!new)>(o: Ops<T, B>, c: T, u: T, h: B, l: B, d: seq<B>, p: seq<B>)
    requires IsGroup(o) && IsLinear(o) && c == o.xor(o.load(h), u) && Shifts(o, u, o.bits) == o.load(l)
    requires |d| >= 2 && |p| >= 2 && p[2..] == d[2..]
    requires o.load(p[0]) == o.xor(o.load(d[0]), o.load(h)) && o.load(p[1]) == o.xor(o.load(d[1]), o.load(l))
    ensures Crc(o, c, d) == Crc(o, o.zero, p)
  {
    CrcHeadTwo(o, c, d);
    CrcHeadTwo(o, o.zero, p);
    PrimedSteps(o, c, u, h, l, d[0], d[1], p[0], p[1]);
  }

  /** A block looked up in the table is a block processed symbol by symbol from an empty register. */
  lemma BlockLookup<T(!new), B(!new)>(o: Ops<T, B>, table: (nat, B) -> T, msg: seq<B>)
    requires IsGroup(o) && IsLinear(o) && IsTable(o, table, |msg|)
    ensures Lookups(o, table, msg, |msg|) == Crc(o, o.zero, msg)
  {
    LookupsAreSteps(o, table, msg, |msg|);
  }

  // ---------------------------------------------------------------------------------------------
  // Bursts

  /** Up to `window` symbols as one word. */
  function Word<T, B>(o: Ops<T, B>, msg: seq<B>): T {
    if msg == [] then o.zero else o.xor(o.load(msg[0]), o.lower(Word(o, msg[1..])))
  }

  lemma WordHead<T, B>(o: Ops<T, B>, b: B, rest: seq<B>)
    ensures Word(o, [b] + rest) == o.xor(o.load(b), o.lower(Word(o, rest)))
  {
    assert ([b] + rest)[1..] == rest;
  }

  lemma {:induction false} WordFits<T(!new), B(!new)>(o: Ops<T, B>, msg: seq<B>)
    requires HasWindow(o) && |msg| <= o.window
    ensures o.fits(|msg|, Word(o, msg))
  {
    if msg != [] {
      WordFits(o, msg[1..]);
      assert LowersAt(o, |msg| - 1, Word(o, msg[1..]), msg[0]);
    }
  }

  /** A message has one word and a word has one message. */
  lemma {:induction false} WordInjective<T(!new), B(!new)>(o: Ops<T, B>, a: seq<B>, b: seq<B>)
    requires HasWindow(o) && |a| == |b| <= o.window && Word(o, a) == Word(o, b)
    ensures a == b
  {
    if a != [] {
      WordFits(o, a[1..]);
      WordFits(o, b[1..]);
      assert SplitsAt(o, |a| - 1, Word(o, a[1..]), Word(o, b[1..]), a[0], b[0]);
      assert a[0] == b[0] && Word(o, a[1..]) == Word(o, b[1..]);
      WordInjective(o, a[1..], b[1..]);
      assert a == [a[0]] + a[1..] && b == [b[0]] + b[1..];
    }
  }

  /** Processing a window of symbols is adding its word and shifting all of it out. */
  lemma {:induction false} WindowIsWord<T(!new), B(!new)>(o: Ops<T, B>, c: T, msg: seq<B>)
    requires IsGroup(o) && IsLinear(o) && HasWindow(o) && |msg| <= o.window
    ensures Crc(o, c, msg) == Blocks(o, o.xor(c, Word(o, msg)), |msg|)
    decreases |msg|
  {
    if msg == [] {
      assert CommutesAt(o, c, o.zero);
    } else {
      var b, rest := msg[0], msg[1..];
      CrcHead(o, c, msg);
      WindowIsWord(o, Step(o, c, b), rest);
      WordFits(o, rest);
      AddHead(o, c, b, Word(o, rest), |rest|);
    }
  }

  lemma AddHead<T(!new), B(!new)>(o: Ops<T, B>, c: T, b: B, w: T, k: nat)
    requires IsGroup(o) && IsLinear(o) && HasWindow(o) && k < o.window && o.fits(k, w)
    ensures Shifts(o, o.xor(c, o.xor(o.load(b), o.lower(w))), o.bits) == o.xor(Step(o, c, b), w)
  {
    assert LowersAt(o, k, w, b) && AssocAt(o, c, o.load(b), o.lower(w));
    ShiftsXor(o, o.xor(c, o.load(b)), o.lower(w), o.bits);
  }

  lemma CrcHead<T, B>(o: Ops<T, B>, c: T, msg: seq<B>)
    requires msg != []
    ensures Crc(o, c, msg) == Crc(o, Step(o, c, msg[0]), msg[1..])
  {
    assert [msg[0]] + msg[1..] == msg;
    CrcAppend(o, c, [msg[0]], msg[1..]);
    assert Crc(o, c, [msg[0]]) == Step(o, CrcTo(o, c, [msg[0]], 0), msg[0]);
  }

  lemma CrcHeadTwo<T, B>(o: Ops<T, B>, c: T, msg: seq<B>)
    requires |msg| >= 2
    ensures Crc(o, c, msg) == Crc(o, Step(o, Step(o, c, msg[0]), msg[1]), msg[2..])
  {
    CrcHead(o, c, msg);
    CrcHead(o, Step(o, c, msg[0]), msg[1..]);
    assert msg[1..][1..] == msg[2..];
  }

  lemma {:induction false} CrcContinues<T, B>(o: Ops<T, B>, seed: T, msg: seq<B>, i: nat, j: nat)
    requires i <= j <= |msg|
    ensures CrcTo(o, seed, msg, j) == Crc(o, CrcTo(o, seed, msg, i), msg[i..j])
  {
    CrcPrefix(o, seed, msg, msg[..j], j);
    CrcPrefix(o, seed, msg, msg[..i], i);
    assert msg[..i] + msg[i..j] == msg[..j];
    CrcAppend(o, seed, msg[..i], msg[i..j]);
  }

  /** The same symbols after two registers keep the registers apart. */
  lemma {:induction false} SuffixInjective<T(!new), B(!new)>(o: Ops<T, B>, c: T, d: T, msg: seq<B>, n: nat)
    requires IsGroup(o) && IsLinear(o) && n <= |msg|
    requires CrcTo(o, c, msg, n) == CrcTo(o, d, msg, n)
    ensures c == d
    decreases n
  {
    if n != 0 {
      var x, y, l := CrcTo(o, c, msg, n - 1), CrcTo(o, d, msg, n - 1), o.load(msg[n - 1]);
      ShiftsInjective(o, o.xor(x, l), o.xor(y, l), o.bits);
      assert CommutesAt(o, x, l) && CommutesAt(o, y, l);
      XorCancel(o, l, x, y);
      SuffixInjective(o, c, d, msg, n - 1);
    }
  }

  /** Two messages that differ, but only inside one window, have different CRCs. */
  lemma BurstDetected<T(!new), B(!new)>(o: Ops<T, B>, seed: T, head: seq<B>, a: seq<B>, b: seq<B>, tail: seq<B>)
    requires IsGroup(o) && IsLinear(o) && HasWindow(o)
    requires |a| == |b| <= o.window && a != b
    ensures Crc(o, seed, head + a + tail) != Crc(o, seed, head + b + tail)
  {
    var c := Crc(o, seed, head);
    CrcParts(o, seed, head, a, tail);
    CrcParts(o, seed, head, b, tail);
    if Crc(o, Crc(o, c, a), tail) == Crc(o, Crc(o, c, b), tail) {
      SuffixInjective(o, Crc(o, c, a), Crc(o, c, b), tail, |tail|);
      WindowInjective(o, c, a, b);
    }
  }

  lemma CrcParts<T, B>(o: Ops<T, B>, seed: T, head: seq<B>, a: seq<B>, tail: seq<B>)
    ensures Crc(o, seed, head + a + tail) == Crc(o, Crc(o, Crc(o, seed, head), a), tail)
  {
    CrcAppend(o, seed, head + a, tail);
    CrcAppend(o, seed, head, a);
  }

  lemma WindowInjective<T(!new), B(!new)>(o: Ops<T, B>, c: T, a: seq<B>, b: seq<B>)
    requires IsGroup(o) && IsLinear(o) && HasWindow(o)
    requires |a| == |b| <= o.window && Crc(o, c, a) == Crc(o, c, b)
    ensures a == b
  {
    WindowIsWord(o, c, a);
    WindowIsWord(o, c, b);
    BlocksInjective(o, o.xor(c, Word(o, a)), o.xor(c, Word(o, b)), |a|);
    XorCancel(o, c, Word(o, a), Word(o, b));
    WordInjective(o, a, b);
  }

  /** The same by positions: two messages of equal length that agree outside `window` adjacent symbols. */
  lemma BurstDetectedAt<T(!new), B(!new)>(o: Ops<T, B>, seed: T, a: seq<B>, b: seq<B>, i: nat)
    requires IsGroup(o) && IsLinear(o) && HasWindow(o)
    requires |a| == |b| && a != b
    requires forall k | 0 <= k < |a| && !(i <= k < i + o.window) :: a[k] == b[k]
    ensures Crc(o, seed, a) != Crc(o, seed, b)
  {
    var lo := if i < |a| then i else |a|;
    var hi := if i + o.window < |a| then i + o.window else |a|;
    assert a[..lo] == b[..lo] && a[hi..] == b[hi..];
    assert a == a[..lo] + a[lo..hi] + a[hi..] && b == b[..lo] + b[lo..hi] + b[hi..];
    BurstDetected(o, seed, a[..lo], a[lo..hi], b[lo..hi], a[hi..]);
  }
}
