/**
 The notation of CPU lists: ids and ranges of ids in decimal, separated by commas.
 */
module CpuList {
  const MAX_ID := 1024

  datatype Option<T> = None | Some(value: T)

  /** An element of a list, and where the text after it starts. */
  datatype Element = Element(first: nat, last: nat, next: nat)

  datatype Range = Range(first: nat, last: nat)

  // ---------------------------------------------------------------------------------------------
  // Reading

  predicate IsDigit(c: char) {
    '0' <= c <= '9'
  }

  function DigitOf(c: char): nat
    requires IsDigit(c)
  {
    (c as int) - ('0' as int)
  }

  const DIGITS := "0123456789"

  /** A digit stands for its place in the alphabet. */
  lemma DigitsAre(c: char)
    ensures IsDigit(c) <==> c in DIGITS
    ensures IsDigit(c) ==> DigitOf(c) < 10 && DIGITS[DigitOf(c)] == c
  {
    if IsDigit(c) {
      assert DIGITS[DigitOf(c)] == c;
    }
  }

  /** The end of the digits that start at `i`. */
  function DigitsEnd(s: string, i: nat): (j: nat)
    requires i <= |s|
    ensures i <= j <= |s| && (forall k | i <= k < j :: IsDigit(s[k])) && (j < |s| ==> !IsDigit(s[j]))
    decreases |s| - i
  {
    if i < |s| && IsDigit(s[i]) then DigitsEnd(s, i + 1) else i
  }

  /** The number written from `i` up to `j`. */
  function Number(s: string, i: nat, j: nat): nat
    requires i <= j <= |s| && forall k | i <= k < j :: IsDigit(s[k])
    decreases j
  {
    if i == j then 0 else 10 * Number(s, i, j - 1) + DigitOf(s[j - 1])
  }

  /** The element at `i`: an id, or two ids with a dash between them, not descending, and then a comma with
      text after it or the end of the list. */
  function ElementAt(s: string, i: nat): (r: Option<Element>)
    requires i <= |s|
    ensures r.Some? ==> r.value.first <= r.value.last < MAX_ID && i < r.value.next <= |s|
  {
    var j := DigitsEnd(s, i);
    if j == i || Number(s, i, j) >= MAX_ID then None
    else if j < |s| && s[j] == '-' then
      var k := DigitsEnd(s, j + 1);
      if k == j + 1 || Number(s, j + 1, k) >= MAX_ID then None
      else Closed(s, Number(s, i, j), Number(s, j + 1, k), k)
    else Closed(s, Number(s, i, j), Number(s, i, j), j)
  }

  function Closed(s: string, first: nat, last: nat, e: nat): (r: Option<Element>)
    requires e <= |s|
    ensures r.Some? ==> r.value.first == first <= r.value.last == last && e <= r.value.next <= |s|
  {
    if first > last then None
    else if e == |s| then Some(Element(first, last, e))
    else if s[e] == ',' && e + 1 < |s| then Some(Element(first, last, e + 1))
    else None
  }

  /** All elements from `i` on. */
  function RangesFrom(s: string, i: nat): Option<seq<Range>>
    requires i <= |s|
    decreases |s| - i
  {
    if i == |s| then Some([])
    else match ElementAt(s, i)
      case None => None
      case Some(e) =>
        match RangesFrom(s, e.next)
        case None => None
        case Some(rest) => Some([Range(e.first, e.last)] + rest)
  }

  /** The ids of a range, ascending. */
  function Ids(first: nat, upto: nat): (r: seq<nat>)
    ensures |r| == (if first < upto then upto - first else 0) && forall i | 0 <= i < |r| :: r[i] == first + i
  {
    seq(if first < upto then upto - first else 0, i => first + i)
  }

  function Expand(rs: seq<Range>): seq<nat> {
    if rs == [] then [] else Ids(rs[0].first, rs[0].last + 1) + Expand(rs[1..])
  }

  // ---------------------------------------------------------------------------------------------
  // Writing

  function DigitFor(d: nat): (c: char)
    requires d < 10
    ensures IsDigit(c) && DigitOf(c) == d
  {
    ('0' as int + d) as char
  }

  function Decimal(n: nat): (s: string)
    ensures s != [] && forall k | 0 <= k < |s| :: IsDigit(s[k])
  {
    if n < 10 then [DigitFor(n)] else Decimal(n / 10) + [DigitFor(n % 10)]
  }

  function RangeText(r: Range): string {
    if r.first == r.last then Decimal(r.first) else Decimal(r.first) + "-" + Decimal(r.last)
  }

  function ListText(rs: seq<Range>): string {
    if rs == [] then "" else if |rs| == 1 then RangeText(rs[0]) else RangeText(rs[0]) + "," + ListText(rs[1..])
  }

  predicate RangeOk(r: Range) {
    r.first <= r.last < 1024
  }

  // ---------------------------------------------------------------------------------------------
  // The grammar

  /** `t` is a decimal numeral for `n`; leading zeros are allowed. */
  predicate IsNumeral(t: string, n: nat) {
    t != "" && (forall k | 0 <= k < |t| :: IsDigit(t[k])) && Number(t, 0, |t|) == n
  }

  predicate IsPair(t: string, a: string, b: string, r: Range) {
    t == a + "-" + b && IsNumeral(a, r.first) && IsNumeral(b, r.last)
  }

  /** An id, or two ids with a dash between them. */
  ghost predicate IsRange(t: string, r: Range) {
    RangeOk(r) && ((r.first == r.last && IsNumeral(t, r.first)) || exists a, b :: IsPair(t, a, b, r))
  }

  /** Ranges with commas between them. */
  ghost predicate IsList(s: string, rs: seq<Range>)
    decreases |rs|
  {
    if rs == [] then s == ""
    else if |rs| == 1 then IsRange(s, rs[0])
    else exists t, u :: IsJoin(s, t, u) && IsRange(t, rs[0]) && IsList(u, rs[1..])
  }

  predicate IsJoin(s: string, t: string, u: string) {
    s == t + "," + u
  }

  // ---------------------------------------------------------------------------------------------
  // Texts inside texts

  predicate At(s: string, i: nat, t: string) {
    i + |t| <= |s| && s[i..i + |t|] == t
  }

  lemma AtParts(s: string, i: nat, t: string, u: string)
    requires At(s, i, t + u)
    ensures At(s, i, t) && At(s, i + |t|, u)
  {
    var n := i + |t + u|;
    assert s[i..n][..|t|] == s[i..i + |t|] && (t + u)[..|t|] == t;
    assert s[i..n][|t|..] == s[i + |t|..n] && (t + u)[|t|..] == u;
  }

  /** Two texts with a character between them. */
  lemma AtJoin(s: string, i: nat, t: string, c: char, u: string)
    requires At(s, i, t + [c] + u)
    ensures At(s, i, t) && i + |t| < |s| && s[i + |t|] == c && At(s, i + |t| + 1, u)
  {
    AtParts(s, i, t + [c], u);
    AtParts(s, i, t, [c]);
    assert s[i + |t|] == s[i + |t|..i + |t| + 1][0];
  }

  predicate Ends(s: string, e: nat) {
    e == |s| || (e + 1 < |s| && s[e] == ',')
  }

  function NextFrom(s: string, e: nat): nat {
    if e == |s| then e else e + 1
  }

  lemma {:induction false} DigitsEndAt(s: string, i: nat, j: nat)
    requires i <= j <= |s| && (forall k | i <= k < j :: IsDigit(s[k])) && (j < |s| ==> !IsDigit(s[j]))
    ensures DigitsEnd(s, i) == j
    decreases j - i
  {
    if i < j {
      DigitsEndAt(s, i + 1, j);
    }
  }

  /** A number is that of its own text. */
  lemma {:induction false} NumberOfText(s: string, i: nat, j: nat, k: nat)
    requires i <= k <= j <= |s| && forall x | i <= x < j :: IsDigit(s[x])
    ensures (forall x | 0 <= x < k - i :: IsDigit(s[i..j][x])) && Number(s[i..j], 0, k - i) == Number(s, i, k)
    decreases k
  {
    if i < k {
      NumberOfText(s, i, j, k - 1);
    }
  }

  // ---------------------------------------------------------------------------------------------
  // What is read is in the grammar, and what is in the grammar is read

  lemma NumeralRead(s: string, i: nat, j: nat)
    requires i < j <= |s| && forall x | i <= x < j :: IsDigit(s[x])
    ensures IsNumeral(s[i..j], Number(s, i, j))
  {
    NumberOfText(s, i, j, j);
  }

  /** Where the text of the element at `i` ends. */
  function ElementEnd(s: string, i: nat): (e: nat)
    requires i <= |s|
    ensures i <= e <= |s|
  {
    var j := DigitsEnd(s, i);
    if j < |s| && s[j] == '-' then DigitsEnd(s, j + 1) else j
  }

  /** The text of an element that was read is a range, and ends at the end of the list or at a comma with text after
      it. */
  lemma ElementRead(s: string, i: nat)
    requires i <= |s| && ElementAt(s, i).Some?
    ensures var e, k := ElementAt(s, i).value, ElementEnd(s, i);
      IsRange(s[i..k], Range(e.first, e.last)) && Ends(s, k) && e.next == NextFrom(s, k)
  {
    var e, j, k := ElementAt(s, i).value, DigitsEnd(s, i), ElementEnd(s, i);
    NumeralRead(s, i, j);
    if j < |s| && s[j] == '-' {
      NumeralRead(s, j + 1, k);
      assert s[i..k] == s[i..j] + "-" + s[j + 1..k];
      assert IsPair(s[i..k], s[i..j], s[j + 1..k], Range(e.first, e.last));
    }
  }

  lemma {:induction false} ListRead(s: string, i: nat, rs: seq<Range>)
    requires i <= |s| && RangesFrom(s, i) == Some(rs)
    ensures IsList(s[i..], rs)
    decreases |s| - i
  {
    if i < |s| {
      ElementRead(s, i);
      var e, k := ElementAt(s, i).value, ElementEnd(s, i);
      var rest := RangesFrom(s, e.next).value;
      ListRead(s, e.next, rest);
      assert rs[1..] == rest;
      ListJoins(s, i, k, e.next, rs);
    }
  }

  lemma ListJoins(s: string, i: nat, k: nat, next: nat, rs: seq<Range>)
    requires i <= k <= |s| && rs != [] && Ends(s, k) && next == NextFrom(s, k)
    requires IsRange(s[i..k], rs[0]) && IsList(s[next..], rs[1..])
    ensures IsList(s[i..], rs)
  {
    if k == |s| {
      EmptyList(rs[1..]);
      assert s[i..] == s[i..k];
    } else {
      NotEmptyList(s[next..], rs[1..]);
      assert IsJoin(s[i..], s[i..k], s[next..]);
    }
  }

  lemma NotEmptyRange(t: string, r: Range)
    requires IsRange(t, r)
    ensures t != ""
  {
  }

  lemma EmptyList(rs: seq<Range>)
    requires IsList("", rs)
    ensures rs == []
  {
    if |rs| == 1 {
      NotEmptyRange("", rs[0]);
    }
  }

  lemma NotEmptyList(s: string, rs: seq<Range>)
    requires IsList(s, rs)
    ensures s != "" <==> rs != []
  {
    if s == "" {
      EmptyList(rs);
    }
  }

  /** A numeral followed by no digit is read as its number. */
  lemma ReadsNumeral(s: string, i: nat, t: string, n: nat)
    requires At(s, i, t) && IsNumeral(t, n) && (i + |t| < |s| ==> !IsDigit(s[i + |t|]))
    ensures DigitsEnd(s, i) == i + |t| && Number(s, i, i + |t|) == n
  {
    var j := i + |t|;
    forall k | i <= k < j ensures IsDigit(s[k]) {
      assert s[k] == s[i..j][k - i] == t[k - i];
    }
    DigitsEndAt(s, i, j);
    NumberOfText(s, i, j, j);
  }

  lemma ReadsId(s: string, i: nat, t: string, n: nat, e: nat)
    requires n < MAX_ID && At(s, i, t) && IsNumeral(t, n) && e == i + |t| && Ends(s, e)
    ensures ElementAt(s, i) == Some(Element(n, n, NextFrom(s, e)))
  {
    ReadsNumeral(s, i, t, n);
  }

  lemma PairFound(s: string, i: nat, m: nat, n: nat, j: nat, e: nat)
    requires i < j < |s| && s[j] == '-' && DigitsEnd(s, i) == j && Number(s, i, j) == m
    requires j + 1 < e <= |s| && DigitsEnd(s, j + 1) == e && Number(s, j + 1, e) == n
    requires m <= n < MAX_ID && Ends(s, e)
    ensures ElementAt(s, i) == Some(Element(m, n, NextFrom(s, e)))
  {
  }

  lemma ReadsPair(s: string, i: nat, t: string, a: string, b: string, r: Range, e: nat)
    requires RangeOk(r) && IsPair(t, a, b, r) && At(s, i, t) && e == i + |t| && Ends(s, e)
    ensures ElementAt(s, i) == Some(Element(r.first, r.last, NextFrom(s, e)))
  {
    AtJoin(s, i, a, '-', b);
    ReadsNumeral(s, i, a, r.first);
    ReadsNumeral(s, i + |a| + 1, b, r.last);
    PairFound(s, i, r.first, r.last, i + |a|, e);
  }

  /** A range is read as itself at the end of the list and before a comma with text after it. */
  lemma ReadsRange(s: string, i: nat, t: string, r: Range, e: nat)
    requires IsRange(t, r) && At(s, i, t) && e == i + |t| && Ends(s, e)
    ensures ElementAt(s, i) == Some(Element(r.first, r.last, NextFrom(s, e)))
  {
    if r.first == r.last && IsNumeral(t, r.first) {
      ReadsId(s, i, t, r.first, e);
    } else {
      var a, b :| IsPair(t, a, b, r);
      ReadsPair(s, i, t, a, b, r, e);
    }
  }

  lemma ReadsNext(s: string, i: nat, e: Element, rest: seq<Range>)
    requires i < |s| && ElementAt(s, i) == Some(e) && RangesFrom(s, e.next) == Some(rest)
    ensures RangesFrom(s, i) == Some([Range(e.first, e.last)] + rest)
  {
  }

  lemma {:induction false} ReadsList(s: string, i: nat, text: string, rs: seq<Range>)
    requires IsList(text, rs) && At(s, i, text) && i + |text| == |s|
    ensures RangesFrom(s, i) == Some(rs)
    decreases |rs|
  {
    if |rs| == 1 {
      ReadsLast(s, i, text, rs);
    } else if |rs| > 1 {
      var t, u :| IsJoin(text, t, u) && IsRange(t, rs[0]) && IsList(u, rs[1..]);
      var next := JoinedAt(s, i, text, t, u);
      NotEmptyList(u, rs[1..]);
      ReadsList(s, next, u, rs[1..]);
      ReadsFirst(s, i, t, next, rs);
    }
  }

  lemma JoinedAt(s: string, i: nat, text: string, t: string, u: string) returns (next: nat)
    requires IsJoin(text, t, u) && At(s, i, text) && i + |text| == |s|
    ensures At(s, i, t) && next == i + |t| + 1 <= |s| && s[next - 1] == ',' && At(s, next, u) && next + |u| == |s|
  {
    next := i + |t| + 1;
    AtJoin(s, i, t, ',', u);
  }

  lemma ReadsLast(s: string, i: nat, t: string, rs: seq<Range>)
    requires |rs| == 1 && IsRange(t, rs[0]) && At(s, i, t) && i + |t| == |s|
    ensures RangesFrom(s, i) == Some(rs)
  {
    NotEmptyRange(t, rs[0]);
    ReadsRange(s, i, t, rs[0], |s|);
    ReadsNext(s, i, Element(rs[0].first, rs[0].last, |s|), []);
    assert rs == [rs[0]] + [];
  }

  /** A range and a comma in front of a list that is read. */
  lemma ReadsFirst(s: string, i: nat, t: string, next: nat, rs: seq<Range>)
    requires rs != [] && IsRange(t, rs[0]) && At(s, i, t) && i + |t| + 1 == next < |s| && s[next - 1] == ','
    requires RangesFrom(s, next) == Some(rs[1..])
    ensures RangesFrom(s, i) == Some(rs)
  {
    ReadsRange(s, i, t, rs[0], next - 1);
    ReadsNext(s, i, Element(rs[0].first, rs[0].last, next), rs[1..]);
    assert rs == [rs[0]] + rs[1..];
  }

  /** A list is accepted exactly when it is in the grammar, and then as the ranges it spells. */
  lemma Grammar(s: string, rs: seq<Range>)
    ensures RangesFrom(s, 0) == Some(rs) <==> IsList(s, rs)
  {
    assert s[0..] == s == s[0..|s|];
    if RangesFrom(s, 0) == Some(rs) {
      ListRead(s, 0, rs);
    }
    if IsList(s, rs) {
      ReadsList(s, 0, s, rs);
    }
  }

  // ---------------------------------------------------------------------------------------------
  // What is written is read back

  lemma {:induction false} NumberOfPrefix(s: string, t: string, j: nat)
    requires j <= |s| <= |t| && t[..|s|] == s && forall k | 0 <= k < j :: IsDigit(s[k])
    ensures (forall k | 0 <= k < j :: IsDigit(t[k])) && Number(t, 0, j) == Number(s, 0, j)
    decreases j
  {
    forall k | 0 <= k < |s| ensures t[k] == s[k] {
      assert t[k] == t[..|s|][k];
    }
    if j != 0 {
      NumberOfPrefix(s, t, j - 1);
    }
  }

  lemma {:induction false} DecimalIsNumeral(n: nat)
    ensures IsNumeral(Decimal(n), n)
    decreases n
  {
    var t := Decimal(n);
    if n < 10 {
      assert Number(t, 0, 0) == 0;
    } else {
      var s := Decimal(n / 10);
      DecimalIsNumeral(n / 10);
      assert t[..|s|] == s;
      NumberOfPrefix(s, t, |s|);
    }
  }

  lemma RangeTextIsRange(r: Range)
    requires RangeOk(r)
    ensures IsRange(RangeText(r), r)
  {
    DecimalIsNumeral(r.first);
    DecimalIsNumeral(r.last);
    if r.first != r.last {
      assert IsPair(RangeText(r), Decimal(r.first), Decimal(r.last), r);
    }
  }

  lemma {:induction false} ListTextIsList(rs: seq<Range>)
    requires forall k | 0 <= k < |rs| :: RangeOk(rs[k])
    ensures IsList(ListText(rs), rs)
    decreases |rs|
  {
    if rs != [] {
      RangeTextIsRange(rs[0]);
      ListTextIsList(rs[1..]);
      if |rs| > 1 {
        assert IsJoin(ListText(rs), RangeText(rs[0]), ListText(rs[1..]));
      }
    }
  }

  /** Every list of ranges, written out, is read back. */
  lemma RoundTrip(rs: seq<Range>)
    requires forall k | 0 <= k < |rs| :: RangeOk(rs[k])
    ensures RangesFrom(ListText(rs), 0) == Some(rs)
  {
    ListTextIsList(rs);
    Grammar(ListText(rs), rs);
  }

  lemma TextNotEmpty(rs: seq<Range>)
    requires rs != []
    ensures ListText(rs) != ""
  {
    assert RangeText(rs[0]) != "";
  }
}
