/**
 The CPUs to pin threads to, given as a hexadecimal mask or as a list of ids and ranges.
 */
module CpuSet {
  import opened Common
  import opened Arith
  import opened CpuList
  import opened Lists

  predicate Ascending(s: seq<nat>) {
    forall i, j | 0 <= i < j < |s| :: s[i] < s[j]
  }

  predicate Below(s: seq<nat>, n: nat) {
    forall i | 0 <= i < |s| :: s[i] < n
  }

  // ---------------------------------------------------------------------------------------------
  // A set of ids as a number

  /** The number whose set bits are the first `n` ids. */
  function WeightTo(s: seq<nat>, n: nat): nat
    requires n <= |s|
  {
    if n == 0 then 0 else WeightTo(s, n - 1) + Pow2(s[n - 1])
  }

  function Weight(s: seq<nat>): nat {
    WeightTo(s, |s|)
  }

  lemma {:induction false} WeightPrefix(s: seq<nat>, x: nat, n: nat)
    requires n <= |s|
    ensures WeightTo(s + [x], n) == WeightTo(s, n)
  {
    if n != 0 {
      WeightPrefix(s, x, n - 1);
    }
  }

  lemma WeightAppend(s: seq<nat>, x: nat)
    ensures Weight(s + [x]) == Weight(s) + Pow2(x)
  {
    WeightPrefix(s, x, |s|);
  }

  /** Ascending ids below `x` weigh less than the power `x`. */
  lemma {:induction false} WeightBound(s: seq<nat>, n: nat, x: nat)
    requires Ascending(s) && n <= |s| && (n > 0 ==> s[n - 1] < x)
    ensures WeightTo(s, n) < Pow2(x)
    decreases n
  {
    if n != 0 {
      WeightBound(s, n - 1, s[n - 1]);
      Pow2Grows(s[n - 1] + 1, x);
    }
  }

  /** The greatest id is the top bit. */
  lemma TopBit(s: seq<nat>, n: nat)
    requires Ascending(s) && 0 < n <= |s|
    ensures Pow2(s[n - 1]) <= WeightTo(s, n) < Pow2(s[n - 1] + 1)
  {
    WeightBound(s, n - 1, s[n - 1]);
  }

  lemma SameTop(a: seq<nat>, b: seq<nat>, m: nat, n: nat)
    requires Ascending(a) && Ascending(b) && 0 < m <= |a| && 0 < n <= |b| && WeightTo(a, m) == WeightTo(b, n)
    ensures a[m - 1] == b[n - 1]
  {
    TopBit(a, m);
    TopBit(b, n);
    if a[m - 1] < b[n - 1] {
      Pow2Grows(a[m - 1] + 1, b[n - 1]);
    } else if b[n - 1] < a[m - 1] {
      Pow2Grows(b[n - 1] + 1, a[m - 1]);
    }
  }

  lemma {:induction false} WeightToUnique(a: seq<nat>, b: seq<nat>, m: nat, n: nat)
    requires Ascending(a) && Ascending(b) && m <= |a| && n <= |b| && WeightTo(a, m) == WeightTo(b, n)
    ensures m == n && forall i | 0 <= i < m :: a[i] == b[i]
    decreases m
  {
    if m != 0 && n != 0 {
      SameTop(a, b, m, n);
      WeightToUnique(a, b, m - 1, n - 1);
    }
  }

  /** A number has one binary notation. */
  lemma WeightUnique(a: seq<nat>, b: seq<nat>)
    requires Ascending(a) && Ascending(b) && Weight(a) == Weight(b)
    ensures a == b
  {
    WeightToUnique(a, b, |a|, |b|);
  }

  // ---------------------------------------------------------------------------------------------
  // Hexadecimal masks

  predicate IsHex(c: char) {
    '0' <= c <= '9' || 'a' <= c <= 'f' || 'A' <= c <= 'F'
  }

  function HexDigit(c: char): (d: nat)
    requires IsHex(c)
    ensures d < 16 && (d == 0 <==> c == '0')
  {
    if '0' <= c <= '9' then (c as int) - ('0' as int)
    else if 'a' <= c <= 'f' then (c as int) - ('a' as int) + 10
    else (c as int) - ('A' as int) + 10
  }

  predicate AllHex(h: string) {
    forall i | 0 <= i < |h| :: IsHex(h[i])
  }

  /** The value of a hexadecimal numeral. */
  function HexValue(h: string): nat
    requires AllHex(h)
  {
    if h == [] then 0 else 16 * HexValue(h[..|h| - 1]) + HexDigit(h[|h| - 1])
  }

  function Pow16(k: nat): nat {
    if k == 0 then 1 else 16 * Pow16(k - 1)
  }

  lemma {:induction false} Pow16IsPow2(k: nat)
    ensures Pow16(k) == Pow2(4 * k)
  {
    if k != 0 {
      Pow16IsPow2(k - 1);
      Pow2Add(4 * (k - 1), 4);
    }
  }

  /** The value of its last `k` digits. */
  function LowValue(h: string, k: nat): nat
    requires AllHex(h) && k <= |h|
  {
    if k == 0 then 0 else LowValue(h, k - 1) + HexDigit(h[|h| - k]) * Pow16(k - 1)
  }

  lemma Commute(x: nat, y: nat, z: nat)
    requires y == z
    ensures x * y == z * x
  {
  }

  lemma NextDigit(h: string, k: nat)
    requires AllHex(h) && k < |h|
    ensures LowValue(h, k + 1) == LowValue(h, k) + Pow2(4 * k) * HexDigit(h[|h| - 1 - k])
  {
    Pow16IsPow2(k);
    Commute(HexDigit(h[|h| - 1 - k]), Pow16(k), Pow2(4 * k));
  }

  lemma OneDigit(h: string)
    requires AllHex(h) && h != []
    ensures LowValue(h, 1) == HexDigit(h[|h| - 1])
  {
    assert LowValue(h, 1) == LowValue(h, 0) + HexDigit(h[|h| - 1]) * Pow16(0);
  }

  lemma Times16(d: nat, k: nat)
    requires k > 0
    ensures d * Pow16(k) == 16 * (d * Pow16(k - 1))
  {
  }

  lemma {:induction false} LowValueShift(h: string, c: char, k: nat)
    requires AllHex(h) && IsHex(c) && k <= |h|
    ensures AllHex(h + [c]) && LowValue(h + [c], k + 1) == 16 * LowValue(h, k) + HexDigit(c)
  {
    var g := h + [c];
    if k == 0 {
      OneDigit(g);
    } else {
      LowValueShift(h, c, k - 1);
      assert g[|g| - (k + 1)] == h[|h| - k];
      Times16(HexDigit(h[|h| - k]), k);
    }
  }

  lemma {:induction false} LowValueIsHexValue(h: string)
    requires AllHex(h)
    ensures LowValue(h, |h|) == HexValue(h)
    decreases |h|
  {
    if h != [] {
      var g, c := h[..|h| - 1], h[|h| - 1];
      LowValueIsHexValue(g);
      LowValueShift(g, c, |g|);
      assert g + [c] == h;
    }
  }

  predicate Bit(value: nat, b: nat) {
    value / Pow2(b) % 2 == 1
  }

  /** The lowest `b` bits of a digit. */
  function LowBits(value: nat, b: nat): nat
    requires b <= 4
  {
    match b
    case 0 => 0
    case 1 => value % 2
    case 2 => value % 4
    case 3 => value % 8
    case 4 => value % 16
  }

  lemma NextBit(value: nat, b: nat)
    requires value < 16 && b < 4
    ensures LowBits(value, b + 1) == LowBits(value, b) + (if Bit(value, b) then Pow2(b) else 0)
  {
    assert Pow2(0) == 1 && Pow2(1) == 2 && Pow2(2) == 4 && Pow2(3) == 8;
  }

  /** What the lowest `b` bits of a digit weigh at an offset. */
  function BitsAt(offset: nat, value: nat, b: nat): nat
    requires b <= 4
  {
    Pow2(offset) * LowBits(value, b)
  }

  lemma BitAdds(offset: nat, value: nat, b: nat)
    requires value < 16 && b < 4
    ensures BitsAt(offset, value, b + 1) == BitsAt(offset, value, b) + (if Bit(value, b) then Pow2(offset + b) else 0)
  {
    NextBit(value, b);
    Pow2Add(offset, b);
    Distribute(Pow2(offset), LowBits(value, b), Pow2(b));
  }

  lemma Distribute(x: nat, y: nat, z: nat) ensures x * (y + z) == x * y + x * z {}

  /** The bits below `n` that are set in a number, ascending. */
  function SetBits(v: nat, n: nat): seq<nat> {
    if n == 0 then [] else SetBits(v, n - 1) + (if Bit(v, n - 1) then [n - 1] else [])
  }

  lemma {:induction false} SetBitsAre(v: nat, n: nat)
    ensures Ascending(SetBits(v, n)) && Below(SetBits(v, n), n)
    ensures forall x: nat :: x in SetBits(v, n) <==> x < n && Bit(v, x)
    decreases n
  {
    if n != 0 {
      SetBitsAre(v, n - 1);
    }
  }

  /** The remainder by the next power of two has one more bit. */
  lemma OneMoreBit(v: nat, p: nat)
    requires p > 0
    ensures v % (2 * p) == v % p + (if v / p % 2 == 1 then p else 0)
  {
    var q, r := v / p, v % p;
    var h, b := q / 2, q % 2;
    assert q == 2 * h + b;
    HalfQuotient(p, q, h, b);
    DivUnique(v, 2 * p, h, b * p + r);
  }

  lemma HalfQuotient(p: nat, q: nat, h: nat, b: nat)
    requires q == 2 * h + b
    ensures p * q == 2 * p * h + b * p
  {
  }

  lemma {:induction false} SetBitsWeigh(v: nat, n: nat)
    ensures Weight(SetBits(v, n)) == v % Pow2(n)
    decreases n
  {
    if n != 0 {
      SetBitsWeigh(v, n - 1);
      OneMoreBit(v, Pow2(n - 1));
      WeightAppend(SetBits(v, n - 1), n - 1);
      assert SetBits(v, n - 1) + [] == SetBits(v, n - 1);
    }
  }

  lemma SmallMod(v: nat, p: nat)
    requires v < p
    ensures v % p == v
  {
  }

  /** The ids of a mask: the set bits of its value. */
  function MaskIds(h: string): seq<nat>
    requires AllHex(h)
  {
    SetBits(HexValue(h), 4 * |h|)
  }

  /** Ascending ids that weigh the value of a numeral are its set bits. */
  lemma IdsAreBits(h: string, s: seq<nat>)
    requires AllHex(h) && Ascending(s) && Below(s, 4 * |h|) && Weight(s) == HexValue(h)
    ensures s == MaskIds(h)
  {
    var v, n := HexValue(h), 4 * |h|;
    WeightBound(s, |s|, n);
    SetBitsAre(v, n);
    SetBitsWeigh(v, n);
    SmallMod(v, Pow2(n));
    WeightUnique(s, SetBits(v, n));
  }

  function StripPrefix(hex: string): string {
    if |hex| > 1 && hex[0] == '0' && (hex[1] == 'x' || hex[1] == 'X') then hex[2..] else hex
  }

  /** A mask is a hexadecimal numeral of at most 256 digits, not all of them zero. */
  predicate MaskOk(h: string) {
    0 < |h| <= 256 && AllHex(h) && exists i | 0 <= i < |h| :: h[i] != '0'
  }

  // ---------------------------------------------------------------------------------------------
  // Writing hexadecimal numerals

  const LOWER := "0123456789abcdef"
  const UPPER := "0123456789ABCDEF"

  /** The hexadecimal numeral of a number, in lower case and without leading zeros. */
  function HexText(v: nat): (h: string)
    ensures h != []
  {
    if v < 16 then [LOWER[v]] else HexText(v / 16) + [LOWER[v % 16]]
  }

  /** A digit stands for its place in the alphabet, in lower case and in upper case. */
  lemma DigitPlace(d: nat)
    requires d < 16
    ensures IsHex(LOWER[d]) && IsHex(UPPER[d]) && HexDigit(LOWER[d]) == d == HexDigit(UPPER[d])
  {
  }

  lemma HexDigitsAre(c: char)
    ensures IsHex(c) <==> c in LOWER || c in UPPER
  {
    if '0' <= c <= '9' {
      assert LOWER[(c as int) - ('0' as int)] == c;
    } else if 'a' <= c <= 'f' {
      assert LOWER[(c as int) - ('a' as int) + 10] == c;
    } else if 'A' <= c <= 'F' {
      assert UPPER[(c as int) - ('A' as int) + 10] == c;
    }
  }

  /** A number written in hexadecimal is read back as itself. */
  lemma {:induction false} HexRoundTrip(v: nat)
    ensures AllHex(HexText(v)) && HexValue(HexText(v)) == v
    decreases v
  {
    DigitPlace(v % 16);
    if v >= 16 {
      HexRoundTrip(v / 16);
      assert HexText(v)[..|HexText(v)| - 1] == HexText(v / 16);
    } else {
      assert HexText(v)[..|HexText(v)| - 1] == [];
    }
  }

  /** The `i`-th digits of two numerals stand in the same place, one in lower case and one in upper case. */
  predicate SameDigit(g: string, h: string, i: nat)
    requires i < |g| && i < |h|
  {
    exists d | 0 <= d < 16 :: g[i] == LOWER[d] && h[i] == UPPER[d]
  }

  /** A numeral and its spelling in upper case have the same value. */
  lemma {:induction false} UpperCase(g: string, h: string)
    requires |g| == |h| && forall i | 0 <= i < |g| :: SameDigit(g, h, i)
    ensures AllHex(g) && AllHex(h) && HexValue(g) == HexValue(h)
    decreases |g|
  {
    if g != [] {
      var n := |g| - 1;
      forall i | 0 <= i < n ensures SameDigit(g[..n], h[..n], i) {
        assert SameDigit(g, h, i);
      }
      UpperCase(g[..n], h[..n]);
      assert SameDigit(g, h, n);
      var d :| 0 <= d < 16 && g[n] == LOWER[d] && h[n] == UPPER[d];
      DigitPlace(d);
      AllHexLast(g);
      AllHexLast(h);
    }
  }

  lemma AllHexLast(h: string)
    requires h != [] && AllHex(h[..|h| - 1]) && IsHex(h[|h| - 1])
    ensures AllHex(h)
  {
    forall i | 0 <= i < |h| ensures IsHex(h[i]) {
      assert i < |h| - 1 ==> h[i] == h[..|h| - 1][i];
    }
  }

  lemma {:induction false} HexLength(v: nat, n: nat)
    requires n > 0 && v < Pow16(n)
    ensures |HexText(v)| <= n && (v > 0 ==> HexText(v)[0] != '0')
    decreases v
  {
    if v >= 16 {
      HexLength(v / 16, n - 1);
    }
  }

  /** Every number below 2^1024 but zero can be given as a mask, with or without a prefix, and names the cpus of its
      set bits. */
  lemma MaskOfNumber(v: nat)
    requires 0 < v < Pow2(1024)
    ensures var h := HexText(v);
      && MaskOk(h) && StripPrefix(h) == StripPrefix("0x" + h) == StripPrefix("0X" + h) == h
      && Ascending(MaskIds(h)) && forall x: nat :: x in MaskIds(h) <==> Bit(v, x)
  {
    var h := HexText(v);
    Pow16IsPow2(256);
    HexLength(v, 256);
    HexRoundTrip(v);
    WithPrefix(h);
    HexBound(h);
    AllBits(v, 4 * |h|);
  }

  lemma WithPrefix(h: string)
    requires h != [] && h[0] != '0'
    ensures StripPrefix(h) == StripPrefix("0x" + h) == StripPrefix("0X" + h) == h
  {
    assert ("0x" + h)[2..] == h && ("0X" + h)[2..] == h;
  }

  /** A number below a power of two has its bits below it. */
  lemma AllBits(v: nat, n: nat)
    requires v < Pow2(n)
    ensures Ascending(SetBits(v, n)) && forall x: nat :: x in SetBits(v, n) <==> Bit(v, x)
  {
    SetBitsAre(v, n);
    forall x: nat | Bit(v, x) ensures x < n {
      if n <= x {
        Pow2Grows(n, x);
        DivUnique(v, Pow2(x), 0, v);
      }
    }
  }

  // ---------------------------------------------------------------------------------------------
  // Lists

  /** Distinct ids below `n` are at most `n`. */
  lemma {:induction false} Pigeonhole(s: seq<nat>, n: nat)
    requires Distinct(s) && Below(s, n)
    ensures |s| <= n
    decreases n
  {
    if s != [] {
      assert s[0] < n;
      if i :| 0 <= i < |s| && s[i] == n - 1 {
        var t := Without(s, i);
        assert Distinct(t) && Below(t, n - 1);
        Pigeonhole(t, n - 1);
      } else {
        Pigeonhole(s, n - 1);
      }
    }
  }

  lemma {:induction false} ExpandAppend(rs: seq<Range>, r: Range)
    ensures Expand(rs + [r]) == Expand(rs) + Ids(r.first, r.last + 1)
    decreases |rs|
  {
    if rs != [] {
      assert (rs + [r])[1..] == rs[1..] + [r];
      ExpandAppend(rs[1..], r);
    } else {
      assert (rs + [r])[1..] == [];
    }
  }

  lemma {:induction false} ExpandPrefix(rs: seq<Range>, rest: seq<Range>)
    ensures Expand(rs) <= Expand(rs + rest)
    decreases |rest|
  {
    if rest == [] {
      assert rs + rest == rs;
    } else {
      ExpandAppend(rs, rest[0]);
      ExpandPrefix(rs + [rest[0]], rest[1..]);
      assert rs + [rest[0]] + rest[1..] == rs + rest;
    }
  }

  /** A list is well formed, not empty, and names no id twice. */
  predicate ListOk(list: string) {
    list != "" && RangesFrom(list, 0).Some? && Distinct(Expand(RangesFrom(list, 0).value))
  }

  /** Accepted lists are those of the grammar that name no id twice. */
  lemma ListOkByGrammar(list: string)
    ensures ListOk(list) <==> exists rs :: rs != [] && IsList(list, rs) && Distinct(Expand(rs))
  {
    if ListOk(list) {
      var rs := RangesFrom(list, 0).value;
      Grammar(list, rs);
      NotEmptyList(list, rs);
    }
    if rs :| rs != [] && IsList(list, rs) && Distinct(Expand(rs)) {
      Grammar(list, rs);
      NotEmptyList(list, rs);
    }
  }

  /** `all` is what was read so far and what is read from `cur` on. */
  predicate Continues(list: string, cur: nat, got: seq<Range>) {
    && cur <= |list|
    && match RangesFrom(list, cur)
       case None => RangesFrom(list, 0) == None
       case Some(rest) => RangesFrom(list, 0) == Some(got + rest)
  }

  lemma OneMoreElement(list: string, cur: nat, got: seq<Range>, e: Element)
    requires Continues(list, cur, got) && cur < |list| && ElementAt(list, cur) == Some(e)
    ensures Continues(list, e.next, got + [Range(e.first, e.last)])
  {
    var rest := RangesFrom(list, e.next);
    if rest.Some? {
      assert got + ([Range(e.first, e.last)] + rest.value) == got + [Range(e.first, e.last)] + rest.value;
    }
  }

  /** A repetition among the elements read so far refutes the whole list. */
  lemma RepeatRefutes(list: string, cur: nat, got: seq<Range>, e: Element)
    requires Continues(list, cur, got) && cur < |list| && ElementAt(list, cur) == Some(e)
    requires !Distinct(Expand(got) + Ids(e.first, e.last + 1))
    ensures !ListOk(list)
  {
    var all := got + [Range(e.first, e.last)];
    OneMoreElement(list, cur, got, e);
    ExpandAppend(got, Range(e.first, e.last));
    if ListOk(list) {
      ExpandPrefix(all, RangesFrom(list, e.next).value);
      DistinctPrefix(Expand(all), Expand(RangesFrom(list, 0).value));
    }
  }

  lemma DistinctPrefix(a: seq<nat>, b: seq<nat>)
    requires a <= b && Distinct(b)
    ensures Distinct(a)
  {
  }

  lemma NotEmptyEither(a: seq<nat>, b: seq<nat>)
    requires a != [] && forall x | x in a :: x in b
    ensures b != []
  {
    assert a[0] in a;
  }

  lemma SameLast(a: seq<nat>, b: seq<nat>)
    requires Ascending(a) && Ascending(b) && a != [] && b != [] && forall x :: x in a <==> x in b
    ensures a[|a| - 1] == b[|b| - 1]
  {
    assert a[|a| - 1] in a && b[|b| - 1] in b;
    var i :| 0 <= i < |b| && b[i] == a[|a| - 1];
    var j :| 0 <= j < |a| && a[j] == b[|b| - 1];
  }

  lemma WithoutLast(a: seq<nat>, x: nat)
    requires Ascending(a) && a != []
    ensures x in a[..|a| - 1] <==> x in a && x != a[|a| - 1]
  {
    if x in a && x != a[|a| - 1] {
      var i :| 0 <= i < |a| && a[i] == x;
      assert a[..|a| - 1][i] == x;
    }
  }

  /** Ascending ids are determined by their set: a mask and the ascending list of the same set parse alike. */
  lemma {:induction false} SetDetermines(a: seq<nat>, b: seq<nat>)
    requires Ascending(a) && Ascending(b) && forall x :: x in a <==> x in b
    ensures a == b
    decreases |a|
  {
    if a == [] {
      if b != [] {
        NotEmptyEither(b, a);
      }
    } else {
      NotEmptyEither(a, b);
      SameLast(a, b);
      var s, t := a[..|a| - 1], b[..|b| - 1];
      forall x ensures x in s <==> x in t {
        WithoutLast(a, x);
        WithoutLast(b, x);
      }
      SetDetermines(s, t);
      assert a == s + [a[|a| - 1]] && b == t + [b[|b| - 1]];
    }
  }

  /** A mask and an accepted list with ascending ids give the same array exactly when they name the same set. */
  lemma NotationsAgree(h: string, list: string)
    requires MaskOk(h) && ListOk(list) && Ascending(Expand(RangesFrom(list, 0).value))
    ensures MaskIds(h) == Expand(RangesFrom(list, 0).value)
            <==> forall x: nat :: x in Expand(RangesFrom(list, 0).value) <==> x < 4 * |h| && Bit(HexValue(h), x)
  {
    var ids := Expand(RangesFrom(list, 0).value);
    SetBitsAre(HexValue(h), 4 * |h|);
    if forall x: nat :: x in ids <==> x < 4 * |h| && Bit(HexValue(h), x) {
      forall x: nat ensures x in MaskIds(h) <==> x in ids {
      }
      SetDetermines(MaskIds(h), ids);
    }
  }

  /** Each id as a range of its own. */
  function Singles(ids: seq<nat>): (rs: seq<Range>)
    ensures |rs| == |ids| && forall i | 0 <= i < |rs| :: rs[i] == Range(ids[i], ids[i])
  {
    seq(|ids|, i requires 0 <= i < |ids| => Range(ids[i], ids[i]))
  }

  lemma {:induction false} ExpandSingles(ids: seq<nat>)
    ensures Expand(Singles(ids)) == ids
    decreases |ids|
  {
    if ids != [] {
      ExpandSingles(ids[1..]);
      assert Singles(ids)[1..] == Singles(ids[1..]);
      assert Ids(ids[0], ids[0] + 1) == [ids[0]];
    }
  }

  lemma {:induction false} NonZero(h: string, i: nat)
    requires AllHex(h) && i < |h| && h[i] != '0'
    ensures HexValue(h) > 0
    decreases |h|
  {
    if i < |h| - 1 {
      NonZero(h[..|h| - 1], i);
    }
  }

  lemma MaskNotEmpty(h: string)
    requires MaskOk(h)
    ensures MaskIds(h) != []
  {
    var i :| 0 <= i < |h| && h[i] != '0';
    NonZero(h, i);
    var v, n := HexValue(h), 4 * |h|;
    SetBitsWeigh(v, n);
    HexBound(h);
    SmallMod(v, Pow2(n));
  }

  lemma {:induction false} HexBound(h: string)
    requires AllHex(h)
    ensures HexValue(h) < Pow2(4 * |h|)
    decreases |h|
  {
    if h != [] {
      HexBound(h[..|h| - 1]);
      Pow2Add(4 * (|h| - 1), 4);
      assert Pow2(4) == 16;
    }
  }

  /** The ids of a mask, written as a list, are accepted and read back in the same order. */
  lemma MaskAsList(h: string)
    requires MaskOk(h)
    ensures var text := ListText(Singles(MaskIds(h)));
      ListOk(text) && Expand(RangesFrom(text, 0).value) == MaskIds(h)
  {
    var m := MaskIds(h);
    SetBitsAre(HexValue(h), 4 * |h|);
    MaskNotEmpty(h);
    RoundTrip(Singles(m));
    ExpandSingles(m);
    TextNotEmpty(Singles(m));
  }

  class Args {
    const cpus: array<nat>
    var ncpus: nat

    ghost predicate Valid()
      reads this
    {
      cpus.Length == MAX_ID && ncpus <= MAX_ID
    }

    constructor ()
      ensures Valid() && ncpus == 0
    {
      cpus := new nat[MAX_ID](_ => 0);
      ncpus := 0;
    }

    /** The first `count` ids are ascending, below `bound`, and weigh `w`. */
    ghost predicate Holds(count: nat, bound: nat, w: nat)
      reads cpus
    {
      && count <= cpus.Length && count <= bound
      && Ascending(cpus[..count]) && Below(cpus[..count], bound) && Weight(cpus[..count]) == w
    }

    method Append(count: nat, id: nat, ghost w: nat)
      requires Holds(count, id, w) && count < cpus.Length
      modifies cpus
      ensures Holds(count + 1, id + 1, w + Pow2(id))
    {
      ghost var s := cpus[..count];
      cpus[count] := id;
      assert cpus[..count + 1] == s + [id];
      WeightAppend(s, id);
    }

    method AddBit(count: nat, value: nat, offset: nat, b: nat, ghost w: nat) returns (n: nat)
      requires value < 16 && b < 4 && offset + b < cpus.Length && Holds(count, offset + b, w)
      modifies cpus
      ensures Holds(n, offset + b + 1, w + if Bit(value, b) then Pow2(offset + b) else 0)
    {
      n := count;
      if Bit(value, b) {
        Append(count, offset + b, w);
        n := n + 1;
      }
    }

    /** The ids for the set bits of one digit, the lowest of which is `offset`. */
    method AddDigit(count: nat, value: nat, offset: nat, ghost w: nat) returns (n: nat)
      requires value < 16 && offset + 4 <= cpus.Length && Holds(count, offset, w)
      modifies cpus
      ensures Holds(n, offset + 4, w + Pow2(offset) * value)
    {
      n := count;
      for b := 0 to 4
        invariant Holds(n, offset + b, w + BitsAt(offset, value, b))
      {
        BitAdds(offset, value, b);
        n := AddBit(n, value, offset, b, w + BitsAt(offset, value, b));
      }
    }

    /** The ids for all digits; the rightmost digit has the lowest bits. */
    method AddDigits(h: string) returns (count: nat)
      requires AllHex(h) && 4 * |h| <= cpus.Length
      modifies cpus
      ensures Holds(count, 4 * |h|, HexValue(h))
    {
      count := 0;
      var i := |h|;
      while i > 0
        invariant 0 <= i <= |h| && Holds(count, 4 * (|h| - i), LowValue(h, |h| - i))
      {
        i := i - 1;
        ghost var k := |h| - 1 - i;
        NextDigit(h, k);
        count := AddDigit(count, HexDigit(h[i]), (|h| - 1 - i) * 4, LowValue(h, k));
      }
      LowValueIsHexValue(h);
    }

    /** A mask yields the ascending ids of its set bits: they weigh its value. */
    method ParseCpumask(hex: string) returns (err: int)
      requires Valid()
      modifies this`ncpus, cpus
      ensures Valid()
      ensures err == if MaskOk(StripPrefix(hex)) then 0 else -EINVAL
      ensures err != 0 ==> ncpus == old(ncpus) && cpus[..] == old(cpus[..])
      ensures err == 0 ==> Ascending(cpus[..ncpus]) && Below(cpus[..ncpus], MAX_ID)
      ensures err == 0 ==> Weight(cpus[..ncpus]) == HexValue(StripPrefix(hex))
      ensures err == 0 ==> cpus[..ncpus] == MaskIds(StripPrefix(hex))
    {
      var h := hex;
      if |hex| > 1 && hex[0] == '0' && (hex[1] == 'x' || hex[1] == 'X') {
        h := hex[2..];
      }
      var len := |h|;
      if len == 0 || len > MAX_ID / 4 {
        return -EINVAL;
      }
      var nonzero := false;
      for i := 0 to len
        invariant AllHex(h[..i]) && (nonzero <==> exists k | 0 <= k < i :: h[k] != '0')
      {
        if !IsHex(h[i]) {
          return -EINVAL;
        }
        nonzero := nonzero || h[i] != '0';
      }
      assert h[..len] == h;
      if !nonzero {
        return -EINVAL;
      }
      var count := AddDigits(h);
      IdsAreBits(h, cpus[..count]);
      ncpus := count;
      err := 0;
    }

    /** Read the digits at the cursor. */
    method ReadNumber(list: string, cur: nat) returns (value: nat, end: nat)
      requires cur <= |list|
      ensures end == DigitsEnd(list, cur) && value == Number(list, cur, end)
    {
      value, end := 0, cur;
      while end < |list| && IsDigit(list[end])
        invariant cur <= end <= |list| && (forall k | cur <= k < end :: IsDigit(list[k]))
        invariant value == Number(list, cur, end)
      {
        value := 10 * value + DigitOf(list[end]);
        end := end + 1;
      }
      DigitsEndAt(list, cur, end);
    }

    /** Read one element at the cursor. */
    method ParseElement(list: string, cur: nat) returns (r: Option<Element>)
      requires cur <= |list|
      ensures r == ElementAt(list, cur)
    {
      var first, end := ReadNumber(list, cur);
      if end == cur || first >= MAX_ID {
        return None;
      }
      var last := first;
      if end < |list| && list[end] == '-' {
        var from := end + 1;
        last, end := ReadNumber(list, from);
        if end == from || last >= MAX_ID {
          return None;
        }
      }
      if first > last {
        return None;
      }
      if end < |list| && list[end] == ',' {
        if end + 1 == |list| {
          return None;
        }
        end := end + 1;
      } else if end < |list| {
        return None;
      }
      r := Some(Element(first, last, end));
    }

    /** The ids written so far are distinct and are those marked as seen. */
    ghost predicate Marked(seen: array<bool>, count: nat)
      reads cpus, seen
    {
      && seen.Length == cpus.Length == MAX_ID && count <= MAX_ID
      && Distinct(cpus[..count]) && Below(cpus[..count], MAX_ID)
      && (forall c | 0 <= c < MAX_ID :: seen[c] <==> c in cpus[..count])
    }

    method Mark(seen: array<bool>, count: nat, cpu: nat)
      requires Marked(seen, count) && cpu < MAX_ID && !seen[cpu]
      modifies cpus, seen
      ensures Marked(seen, count + 1) && cpus[..count + 1] == old(cpus[..count]) + [cpu]
    {
      ghost var s := cpus[..count];
      assert Distinct(s + [cpu]) && Below(s + [cpu], MAX_ID);
      Pigeonhole(s + [cpu], MAX_ID);
      seen[cpu] := true;
      cpus[count] := cpu;
      assert cpus[..count + 1] == s + [cpu];
    }

    /** Append the ids of one range, unless one of them was seen. */
    method AddRange(seen: array<bool>, count: nat, first: nat, last: nat) returns (ok: bool, n: nat)
      requires Marked(seen, count) && first <= last < MAX_ID
      modifies cpus, seen
      ensures ok <==> Distinct(old(cpus[..count]) + Ids(first, last + 1))
      ensures ok ==> Marked(seen, n) && cpus[..n] == old(cpus[..count]) + Ids(first, last + 1)
    {
      ghost var s := cpus[..count];
      n := count;
      for cpu := first to last + 1
        invariant Marked(seen, n) && cpus[..n] == s + Ids(first, cpu)
      {
        if seen[cpu] {
          RepeatFound(s, first, cpu, last);
          return false, n;
        }
        Mark(seen, n, cpu);
        n := n + 1;
        assert s + Ids(first, cpu) + [cpu] == s + Ids(first, cpu + 1);
      }
      ok := true;
    }

    /** An accepted list yields its ids in the order given. They are distinct, so they fit. */
    method ParseCpulist(list: string) returns (err: int)
      requires Valid()
      modifies this`ncpus, cpus
      ensures Valid()
      ensures err == if ListOk(list) then 0 else -EINVAL
      ensures err != 0 ==> ncpus == old(ncpus)
      ensures err == 0 ==> cpus[..ncpus] == Expand(RangesFrom(list, 0).value) && Distinct(cpus[..ncpus])
    {
      if list == "" {
        return -EINVAL;
      }
      var seen := new bool[MAX_ID](_ => false);
      var cur: nat, count: nat, ok := 0, 0, true;
      ghost var got: seq<Range> := [];
      StartsWith(list);
      while cur < |list|
        invariant ncpus == old(ncpus) && Reading(list, cur, got, seen, count)
        decreases |list| - cur
      {
        ok, cur, count, got := NextElement(list, cur, got, seen, count);
        if !ok {
          return -EINVAL;
        }
      }
      assert got + [] == got;
      ncpus := count;
      err := 0;
    }

    /** The elements before the cursor were read, and their ids written. */
    ghost predicate Reading(list: string, cur: nat, got: seq<Range>, seen: array<bool>, count: nat)
      reads cpus, seen
    {
      Continues(list, cur, got) && Marked(seen, count) && cpus[..count] == Expand(got)
    }

    /** One turn of the loop. */
    method NextElement(list: string, cur: nat, ghost got: seq<Range>, seen: array<bool>, count: nat)
      returns (ok: bool, next: nat, n: nat, ghost more: seq<Range>)
      requires cur < |list| && Reading(list, cur, got, seen, count)
      modifies cpus, seen
      ensures if ok then cur < next <= |list| && Reading(list, next, more, seen, n) else !ListOk(list)
    {
      more := got;
      var r := ParseElement(list, cur);
      if r == None {
        return false, cur, count, more;
      }
      var e := r.value;
      ok, n := AddRange(seen, count, e.first, e.last);
      next := e.next;
      if ok {
        OneMoreElement(list, cur, got, e);
        ExpandAppend(got, Range(e.first, e.last));
        more := got + [Range(e.first, e.last)];
      } else {
        RepeatRefutes(list, cur, got, e);
      }
    }
  }

  lemma StartsWith(list: string)
    ensures Continues(list, 0, [])
  {
    var r := RangesFrom(list, 0);
    assert r.Some? ==> [] + r.value == r.value;
  }

  lemma RepeatFound(s: seq<nat>, first: nat, cpu: nat, last: nat)
    requires first <= cpu <= last && cpu in s + Ids(first, cpu)
    ensures !Distinct(s + Ids(first, last + 1))
  {
    var all := s + Ids(first, last + 1);
    var i :| 0 <= i < |s + Ids(first, cpu)| && (s + Ids(first, cpu))[i] == cpu;
    assert all[i] == cpu && all[|s| + (cpu - first)] == cpu;
  }
}
