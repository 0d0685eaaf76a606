/**
 Zone Management Receive on a Linux zoned block device: the kernel reports zones in batches of 64, which
 are filtered by zone state and written, as far as they fit, behind the header of the caller's buffer.
 */
module ZoneReport {
  import opened Common
  import opened Arith
  import opened Lists

  const HEADER_BYTES := 64
  const DESCRIPTOR_BYTES := 64
  const BATCH := 64
  const LINUX_BLOCK_SSW := 9
  const TYPE_SEQWR := 2
  const STATE_EMPTY := 0x1
  const STATE_IMPLICITLY_OPEN := 0x2
  const STATE_EXPLICITLY_OPEN := 0x3
  const STATE_CLOSED := 0x4
  const STATE_READ_ONLY := 0xD
  const STATE_FULL := 0xE
  const STATE_OFFLINE := 0xF

  /** A zone as the kernel reports it. */
  datatype Zone = Zone(start: nat, len: nat, capacity: nat, wp: nat, kind: nat, cond: nat)

  datatype Descriptor = Descriptor(zslba: nat, wp: nat, zcap: nat, zt: nat, zs: nat)

  const BLANK := Descriptor(0, 0, 0, 0, 0)

  /** The device: its zones, their size in logical blocks, the width of a logical block and whether the
      kernel reports zone capacities. */
  datatype Device = Device(zoned: bool, zones: seq<Zone>, nsect: nat, ssw: nat, hasCapacity: bool)

  datatype Request = Request(zra: nat, zrasf: nat, slba: nat, partial: bool)

  /** Which kernel calls fail: counting the zones, allocating the report, and each batch. */
  datatype Faults = Faults(count: bool, alloc: bool, batch: nat -> bool)

  /** The zone state a request asks for; zero is any, and an unknown value matches no state. */
  function ToState(zrasf: nat): int {
    match zrasf
    case 0 => 0
    case 1 => 1
    case 2 => 2
    case 3 => 3
    case 4 => 4
    case 5 => 0xE
    case 6 => 0xD
    case 7 => 0xF
    case _ => -1
  }

  predicate Match(zrasf: nat, z: Zone) {
    ToState(zrasf) == 0 || ToState(zrasf) == z.cond
  }

  function ToDescriptor(d: Device, z: Zone): Descriptor
    requires d.ssw >= LINUX_BLOCK_SSW
  {
    var unit := Pow2(d.ssw - LINUX_BLOCK_SSW);
    Descriptor(z.start / unit, z.wp / unit, (if d.hasCapacity then z.capacity else z.len) / unit, TYPE_SEQWR,
               if z.kind == TYPE_SEQWR then z.cond else STATE_OFFLINE)
  }

  /** The zones the kernel reports when asked for `n` of them from the one that holds block `zslba`. */
  function Kernel(d: Device, zslba: nat, n: nat): seq<Zone>
    requires d.nsect > 0
  {
    var first := Min(zslba / d.nsect, |d.zones|);
    d.zones[first..Min(first + n, |d.zones|)]
  }

  // ---------------------------------------------------------------------------------------------
  // The reference: a plain filter

  /** The matching zones among those from `from` up to `to`, in order. */
  function Matches(zones: seq<Zone>, zrasf: nat, from: nat, upto: nat): (m: seq<Zone>)
    requires upto <= |zones|
    ensures |m| <= upto
    decreases upto
  {
    if upto <= from then []
    else if Match(zrasf, zones[upto - 1]) then Matches(zones, zrasf, from, upto - 1) + [zones[upto - 1]]
    else Matches(zones, zrasf, from, upto - 1)
  }

  lemma {:induction false} MatchesGrow(zones: seq<Zone>, zrasf: nat, from: nat, k: nat, upto: nat)
    requires k <= upto <= |zones|
    ensures Matches(zones, zrasf, from, k) <= Matches(zones, zrasf, from, upto)
    decreases upto
  {
    if k < upto {
      MatchesGrow(zones, zrasf, from, k, upto - 1);
    }
  }

  /** The filter keeps the zones in the condition asked for and no others. */
  lemma {:induction false} MatchesAre(zones: seq<Zone>, zrasf: nat, from: nat, upto: nat, z: Zone)
    requires upto <= |zones|
    ensures z in Matches(zones, zrasf, from, upto)
            <==> exists i | from <= i < upto :: zones[i] == z && Wanted(zrasf, z.cond)
    decreases upto
  {
    if upto > from {
      MatchesAre(zones, zrasf, from, upto - 1, z);
      MatchIsWanted(zrasf, zones[upto - 1]);
    }
  }

  lemma {:induction false} AllMatch(zones: seq<Zone>, from: nat, upto: nat)
    requires upto <= |zones|
    ensures |Matches(zones, 0, from, upto)| == if from < upto then upto - from else 0
    decreases upto
  {
    if upto > from {
      AllMatch(zones, from, upto - 1);
    }
  }

  /** Without room for descriptors the answer to "all" is the number of zones of the device: that is the
      number from the start zone on exactly when the report starts at the first zone, or there are none. */
  lemma CountOfAll(zones: seq<Zone>, from: nat)
    ensures |zones| == |Matches(zones, 0, from, |zones|)| <==> from == 0 || zones == []
  {
    AllMatch(zones, from, |zones|);
  }

  /** A zone in condition `cond` is what a request with value `zrasf` asks for. */
  predicate Wanted(zrasf: nat, cond: nat) {
    || zrasf == 0
    || (zrasf == 1 && cond == STATE_EMPTY)
    || (zrasf == 2 && cond == STATE_IMPLICITLY_OPEN)
    || (zrasf == 3 && cond == STATE_EXPLICITLY_OPEN)
    || (zrasf == 4 && cond == STATE_CLOSED)
    || (zrasf == 5 && cond == STATE_FULL)
    || (zrasf == 6 && cond == STATE_READ_ONLY)
    || (zrasf == 7 && cond == STATE_OFFLINE)
  }

  lemma MatchIsWanted(zrasf: nat, z: Zone)
    ensures Match(zrasf, z) <==> Wanted(zrasf, z.cond)
  {
  }

  /** `picks` are the zones from `from` up to `upto` in the condition asked for: all of them, each once, in order. */
  ghost predicate Picked(zones: seq<Zone>, zrasf: nat, from: nat, upto: nat, picks: seq<nat>)
    requires upto <= |zones|
  {
    && (forall i, j | 0 <= i < j < |picks| :: picks[i] < picks[j])
    && (forall i | 0 <= i < |picks| :: IsPick(zones, zrasf, from, upto, picks[i]))
    && (forall k | from <= k < upto && Wanted(zrasf, zones[k].cond) :: k in picks)
  }

  predicate IsPick(zones: seq<Zone>, zrasf: nat, from: nat, upto: nat, k: nat)
    requires upto <= |zones|
  {
    from <= k < upto && Wanted(zrasf, zones[k].cond)
  }

  function Picks(zones: seq<Zone>, zrasf: nat, from: nat, upto: nat): seq<nat>
    requires upto <= |zones|
    decreases upto
  {
    if upto <= from then []
    else Picks(zones, zrasf, from, upto - 1) + if Wanted(zrasf, zones[upto - 1].cond) then [upto - 1] else []
  }

  lemma {:induction false} PicksArePicked(zones: seq<Zone>, zrasf: nat, from: nat, upto: nat)
    requires upto <= |zones|
    ensures Picked(zones, zrasf, from, upto, Picks(zones, zrasf, from, upto))
    decreases upto
  {
    if upto > from {
      PicksArePicked(zones, zrasf, from, upto - 1);
      PickedNext(zones, zrasf, from, upto, Picks(zones, zrasf, from, upto - 1), Picks(zones, zrasf, from, upto));
    }
  }

  predicate SameZone(zones: seq<Zone>, m: seq<Zone>, picks: seq<nat>, i: nat) {
    i < |m| && i < |picks| && picks[i] < |zones| && m[i] == zones[picks[i]]
  }

  /** What the filter keeps is the zones picked. */
  lemma {:induction false} MatchesArePicks(zones: seq<Zone>, zrasf: nat, from: nat, upto: nat)
    requires upto <= |zones|
    ensures |Matches(zones, zrasf, from, upto)| == |Picks(zones, zrasf, from, upto)|
    ensures forall i | 0 <= i < |Picks(zones, zrasf, from, upto)| ::
              SameZone(zones, Matches(zones, zrasf, from, upto), Picks(zones, zrasf, from, upto), i)
    decreases upto
  {
    if upto > from {
      MatchesArePicks(zones, zrasf, from, upto - 1);
      MatchIsWanted(zrasf, zones[upto - 1]);
      var m, p := Matches(zones, zrasf, from, upto - 1), Picks(zones, zrasf, from, upto - 1);
      forall i | 0 <= i < |Picks(zones, zrasf, from, upto)|
        ensures SameZone(zones, Matches(zones, zrasf, from, upto), Picks(zones, zrasf, from, upto), i)
      {
        assert i < |p| ==> SameZone(zones, m, p, i);
      }
    }
  }

  lemma PickedNext(zones: seq<Zone>, zrasf: nat, from: nat, upto: nat, before: seq<nat>, picks: seq<nat>)
    requires from < upto <= |zones| && Picked(zones, zrasf, from, upto - 1, before)
    requires picks == before + if Wanted(zrasf, zones[upto - 1].cond) then [upto - 1] else []
    ensures Picked(zones, zrasf, from, upto, picks)
  {
    forall i | 0 <= i < |picks| ensures IsPick(zones, zrasf, from, upto, picks[i]) {
      assert i < |before| ==> IsPick(zones, zrasf, from, upto - 1, before[i]);
    }
    forall i, j | 0 <= i < j < |picks| ensures picks[i] < picks[j] {
      assert IsPick(zones, zrasf, from, upto - 1, before[i]);
    }
  }

  /** A value outside the eight that are defined matches no zone. */
  lemma {:induction false} UnknownMatchesNone(zones: seq<Zone>, zrasf: nat, from: nat, upto: nat)
    requires zrasf > 7 && upto <= |zones|
    ensures Matches(zones, zrasf, from, upto) == []
    decreases upto
  {
    if upto > from {
      UnknownMatchesNone(zones, zrasf, from, upto - 1);
    }
  }

  /** A zone of one defined state is reported under the request for that state and for all, and no other. */
  lemma StatesApart(a: nat, b: nat, z: Zone)
    requires 0 < a <= 7 && 0 < b <= 7 && a != b && Match(a, z)
    ensures Match(0, z) && !Match(b, z)
  {
  }

  /** Block `b`, of `2^ssw` bytes, is the one that sector `s`, of 512 bytes, lies in. */
  predicate HoldsSector(ssw: nat, b: nat, s: nat) {
    b * Pow2(ssw) <= s * 512 < (b + 1) * Pow2(ssw)
  }

  lemma InBlocks(ssw: nat, s: nat, unit: nat, b: nat)
    requires ssw >= 9 && unit == Pow2(ssw - 9) && b == s / unit
    ensures HoldsSector(ssw, b, s)
  {
    Pow2Add(9, ssw - 9);
    assert Pow2(9) == 512;
    assert s == unit * b + s % unit;
    Scaled(unit, b, s);
  }

  lemma Scaled(unit: nat, b: nat, s: nat)
    requires unit * b <= s < unit * b + unit
    ensures b * (512 * unit) <= s * 512 < (b + 1) * (512 * unit)
  {
    assert b * (512 * unit) == 512 * (unit * b) && (b + 1) * (512 * unit) == 512 * (unit * b + unit);
  }

  /** Sectors of 512 bytes become logical blocks, for start, write pointer and capacity alike; the capacity is that
      of the zone where the kernel reports it, and its length where not. */
  lemma DescriptorInBlocks(d: Device, z: Zone)
    requires d.ssw >= 9
    ensures var x := ToDescriptor(d, z);
      HoldsSector(d.ssw, x.zslba, z.start) && HoldsSector(d.ssw, x.wp, z.wp)
      && HoldsSector(d.ssw, x.zcap, if d.hasCapacity then z.capacity else z.len)
  {
    var unit, x, cap := Pow2(d.ssw - 9), ToDescriptor(d, z), if d.hasCapacity then z.capacity else z.len;
    InBlocks(d.ssw, z.start, unit, x.zslba);
    InBlocks(d.ssw, z.wp, unit, x.wp);
    InBlocks(d.ssw, cap, unit, x.zcap);
  }

  /** Every zone is shown as of the sequential-write kind: in its own condition if that is its kind, and as offline
      if not. So a descriptor shows the condition that was asked for exactly when its zone is of that kind, or offline
      zones were asked for. */
  lemma DescriptorShowsState(d: Device, zrasf: nat, z: Zone)
    requires d.ssw >= 9
    ensures ToDescriptor(d, z).zt == 2 && ToDescriptor(d, z).zs == if z.kind == 2 then z.cond else 15
    ensures Wanted(zrasf, z.cond) ==>
              (Wanted(zrasf, ToDescriptor(d, z).zs) <==> zrasf == 0 || z.kind == 2 || zrasf == 7)
  {
  }

  // ---------------------------------------------------------------------------------------------
  // The scan

  function Hits(zones: seq<Zone>, zrasf: nat, from: nat, upto: nat): nat
    requires upto <= |zones|
  {
    |Matches(zones, zrasf, from, upto)|
  }

  /** Does the batch of zones from `first` up to `upto` hold a match behind the first `room` ones? */
  predicate Overflows(zones: seq<Zone>, zrasf: nat, from: nat, room: nat, first: nat, upto: nat)
    requires first <= |zones| && upto <= |zones|
  {
    Hits(zones, zrasf, from, upto) > room && Hits(zones, zrasf, from, upto) > Hits(zones, zrasf, from, first)
  }

  lemma NotOver(zones: seq<Zone>, zrasf: nat, from: nat, room: nat, first: nat, k: nat)
    requires first <= k < |zones|
    ensures !Overflows(zones, zrasf, from, room, first, k) && !Overflows(zones, zrasf, from, room, k, k + 1)
            ==> !Overflows(zones, zrasf, from, room, first, k + 1)
  {
    MatchesGrow(zones, zrasf, from, first, k);
    MatchesGrow(zones, zrasf, from, k, k + 1);
  }

  /** Where the first `b` batches end. */
  function BatchEnd(n: nat, from: nat, b: nat): (k: nat)
    ensures k <= n
  {
    Min(from + b * BATCH, n)
  }

  /** The kernel, asked for batch `b` by its first block, reports that batch. */
  lemma KernelReports(d: Device, slba: nat, zidx: nat, b: nat)
    requires d.nsect > 0 && zidx == b * BATCH
    ensures var from := slba / d.nsect;
      var first, end := BatchEnd(|d.zones|, from, b), BatchEnd(|d.zones|, from, b + 1);
      first <= end && Kernel(d, slba + zidx * d.nsect, BATCH) == d.zones[first..end]
      && (first < end ==> from <= first)
  {
    DivAdd(slba, zidx, d.nsect);
  }

  predicate BatchOver(zones: seq<Zone>, zrasf: nat, from: nat, room: nat, b: nat) {
    Overflows(zones, zrasf, from, room, BatchEnd(|zones|, from, b), BatchEnd(|zones|, from, b + 1))
  }

  /** How many of the first `b` batches hold a match behind the first `room` ones. */
  function Overflowing(zones: seq<Zone>, zrasf: nat, from: nat, room: nat, b: nat): nat {
    if b == 0 then 0
    else Overflowing(zones, zrasf, from, room, b - 1)
         + Flag(BatchOver(zones, zrasf, from, room, b - 1))
  }

  /** The batches a scan asks for. */
  function Batches(n: nat): nat {
    (n + BATCH - 1) / BATCH
  }

  /** The header of a report: every match, or in a partial report the matches that fit and one for every batch that
      holds a match behind them. */
  function Header(zones: seq<Zone>, rq: Request, from: nat, room: nat): nat {
    var hits := Hits(zones, rq.zrasf, from, |zones|);
    if rq.partial then Min(hits, room) + Overflowing(zones, rq.zrasf, from, room, Batches(|zones|)) else hits
  }

  /** What the header says with `hits` matches so far and `over` batches that ran over. */
  predicate Counted(nzones: nat, hits: nat, room: nat, partial: bool, over: nat) {
    if partial then nzones == Min(hits, room) + over && (over > 0 ==> hits > room) else nzones == hits
  }

  /** The first `room` matches stand in the buffer, in order; the rest of it is blank. */
  predicate Holds(d: Device, ds: seq<Descriptor>, m: seq<Zone>, room: nat) {
    && d.ssw >= LINUX_BLOCK_SSW && room <= |ds|
    && (forall i | 0 <= i < |ds| :: HoldsAt(d, ds[i], m, room, i))
  }

  predicate HoldsAt(d: Device, x: Descriptor, m: seq<Zone>, room: nat, i: nat)
    requires d.ssw >= LINUX_BLOCK_SSW
  {
    x == if i < room && i < |m| then ToDescriptor(d, m[i]) else BLANK
  }

  lemma NoRoom(d: Device, ds: seq<Descriptor>, m: seq<Zone>, m': seq<Zone>, room: nat)
    requires Holds(d, ds, m, room) && m <= m' && room <= |m|
    ensures Holds(d, ds, m', room)
  {
    forall i | 0 <= i < |ds| ensures HoldsAt(d, ds[i], m', room, i) {
      assert HoldsAt(d, ds[i], m, room, i);
    }
  }

  lemma OneMore(d: Device, ds: seq<Descriptor>, m: seq<Zone>, z: Zone, room: nat)
    requires Holds(d, ds, m, room) && |m| < room
    ensures Holds(d, ds[|m| := ToDescriptor(d, z)], m + [z], room)
  {
    var ds' := ds[|m| := ToDescriptor(d, z)];
    forall i | 0 <= i < |ds'| ensures HoldsAt(d, ds'[i], m + [z], room, i) {
      assert HoldsAt(d, ds[i], m, room, i);
    }
  }

  /** Buffer and header after the matches `m`, with `over` batches that ran over. */
  predicate ScannedOk(d: Device, rq: Request, room: nat, m: seq<Zone>, over: nat, ds: seq<Descriptor>, nzones: nat) {
    Holds(d, ds, m, room) && Counted(nzones, |m|, room, rq.partial, over)
  }

  class Buffer {
    var nzones: nat
    const descrs: array<Descriptor>

    constructor (descrs: array<Descriptor>)
      ensures this.descrs == descrs
    {
      this.descrs := descrs;
      nzones := 0;
    }

    /** One reported zone. `full` tells that a partial report has found a match it has no room for. */
    method Visit(d: Device, rq: Request, room: nat, z: Zone, ghost from: nat, ghost k: nat, ghost over: nat)
      returns (full: bool)
      requires k < |d.zones| && from <= k && z == d.zones[k]
      requires Scanned(d, rq, room, from, k, over)
      modifies this`nzones, descrs
      ensures full <==> rq.partial && Overflows(d.zones, rq.zrasf, from, room, k, k + 1)
      ensures Scanned(d, rq, room, from, k + 1, over + Flag(full))
    {
      ghost var m := Matches(d.zones, rq.zrasf, from, k);
      full := false;
      var cur := nzones;
      if !(ToState(rq.zrasf) == 0 || ToState(rq.zrasf) == z.cond) {
        return;
      }
      nzones := nzones + 1;
      if cur >= room {
        NoRoom(d, descrs[..], m, m + [z], room);
        full := rq.partial;
        return;
      }
      OneMore(d, descrs[..], m, z, room);
      descrs[cur] := ToDescriptor(d, z);
      assert descrs[..] == old(descrs[..])[cur := ToDescriptor(d, z)];
    }

    /** The zones before `k` were taken into account. */
    ghost predicate Scanned(d: Device, rq: Request, room: nat, from: nat, k: nat, over: nat)
      reads this, descrs
    {
      k <= |d.zones| && ScannedOk(d, rq, room, Matches(d.zones, rq.zrasf, from, k), over, descrs[..], nzones)
    }

    /** One batch of reported zones. A partial report leaves the batch when it runs over. */
    method VisitBatch(d: Device, rq: Request, room: nat, report: seq<Zone>, ghost from: nat, ghost first: nat,
                      ghost over: nat) returns (ran: bool)
      requires first + |report| <= |d.zones| && report == d.zones[first..first + |report|]
      requires (from <= first || report == []) && Scanned(d, rq, room, from, first, over)
      modifies this`nzones, descrs
      ensures ran <==> rq.partial && Overflows(d.zones, rq.zrasf, from, room, first, first + |report|)
      ensures Scanned(d, rq, room, from, first + |report|, over + Flag(ran))
    {
      ran := false;
      for i := 0 to |report|
        invariant Scanned(d, rq, room, from, first + i, over)
        invariant rq.partial ==> !Overflows(d.zones, rq.zrasf, from, room, first, first + i)
      {
        ran := VisitNext(d, rq, room, report[i], from, first, first + i, first + |report|, over);
        if ran {
          return;
        }
      }
    }

    /** One zone of the batch from `first` up to `upto`. */
    method VisitNext(d: Device, rq: Request, room: nat, z: Zone, ghost from: nat, ghost first: nat, ghost k: nat,
                     ghost upto: nat, ghost over: nat) returns (ran: bool)
      requires from <= first <= k < upto <= |d.zones| && z == d.zones[k] && Scanned(d, rq, room, from, k, over)
      requires rq.partial ==> !Overflows(d.zones, rq.zrasf, from, room, first, k)
      modifies this`nzones, descrs
      ensures ran ==> rq.partial && Overflows(d.zones, rq.zrasf, from, room, first, upto)
                      && Scanned(d, rq, room, from, upto, over + 1)
      ensures !ran ==> Scanned(d, rq, room, from, k + 1, over)
                       && (rq.partial ==> !Overflows(d.zones, rq.zrasf, from, room, first, k + 1))
    {
      ran := Visit(d, rq, room, z, from, k, over);
      if ran {
        Skip(d, rq, room, from, first, k, upto, over + 1);
      } else {
        NotOver(d.zones, rq.zrasf, from, room, first, k);
      }
    }

    /** With the buffer full, zones left out change neither the buffer nor the header. */
    lemma Skip(d: Device, rq: Request, room: nat, from: nat, first: nat, k: nat, upto: nat, over: nat)
      requires first <= k < upto <= |d.zones| && Scanned(d, rq, room, from, k + 1, over)
      requires rq.partial && Overflows(d.zones, rq.zrasf, from, room, k, k + 1)
      ensures Scanned(d, rq, room, from, upto, over) && Overflows(d.zones, rq.zrasf, from, room, first, upto)
    {
      MatchesGrow(d.zones, rq.zrasf, from, first, k);
      MatchesGrow(d.zones, rq.zrasf, from, k + 1, upto);
      NoRoom(d, descrs[..], Matches(d.zones, rq.zrasf, from, k + 1), Matches(d.zones, rq.zrasf, from, upto), room);
    }

    /** The zones of batch `b`, asked of the kernel by their first block. */
    method Fetch(d: Device, rq: Request, room: nat, zidx: nat, ghost from: nat, ghost b: nat, ghost over: nat)
      returns (ran: bool)
      requires d.nsect > 0 && from == rq.slba / d.nsect && zidx == b * BATCH
      requires Scanned(d, rq, room, from, BatchEnd(|d.zones|, from, b), over)
      modifies this`nzones, descrs
      ensures ran <==> rq.partial && BatchOver(d.zones, rq.zrasf, from, room, b)
      ensures Scanned(d, rq, room, from, BatchEnd(|d.zones|, from, b + 1), over + Flag(ran))
    {
      var report := Ask(d, rq.slba, zidx, from, b);
      ran := VisitBatch(d, rq, room, report, from, BatchEnd(|d.zones|, from, b), over);
    }

    method Ask(d: Device, slba: nat, zidx: nat, ghost from: nat, ghost b: nat) returns (report: seq<Zone>)
      requires d.nsect > 0 && from == slba / d.nsect && zidx == b * BATCH
      ensures var first, end := BatchEnd(|d.zones|, from, b), BatchEnd(|d.zones|, from, b + 1);
              first <= end && report == d.zones[first..end] && (first < end ==> from <= first)
    {
      KernelReports(d, slba, zidx, b);
      report := Kernel(d, slba + zidx * d.nsect, BATCH);
    }

    /** The scan of the whole device. */
    method Scan(d: Device, rq: Request, room: nat, faults: Faults) returns (err: int)
      requires d.nsect > 0 && d.ssw >= LINUX_BLOCK_SSW && room <= descrs.Length
      requires forall i | 0 <= i < descrs.Length :: descrs[i] == BLANK
      modifies this`nzones, descrs
      ensures err == if AllAnswered(d, faults) then 0 else -EIO
      ensures err == 0 ==>
                var from := rq.slba / d.nsect;
                && Holds(d, descrs[..], Matches(d.zones, rq.zrasf, from, |d.zones|), room)
                && nzones == Header(d.zones, rq, from, room)
    {
      var zidx := 0;
      ghost var from, b, over: nat := rq.slba / d.nsect, 0, 0;
      nzones := 0;
      while zidx < |d.zones|
        invariant zidx == b * BATCH && (b > 0 ==> (b - 1) * BATCH < |d.zones|)
        invariant Scanned(d, rq, room, from, BatchEnd(|d.zones|, from, b), over)
        invariant rq.partial ==> over == Overflowing(d.zones, rq.zrasf, from, room, b)
        invariant forall c: nat | c < b :: !faults.batch(c)
      {
        if faults.batch(zidx / BATCH) {
          assert faults.batch(b);
          return -EIO;
        }
        var ran := Fetch(d, rq, room, zidx, from, b, over);
        over := over + Flag(ran);
        zidx, b := zidx + BATCH, b + 1;
      }
      assert b == Batches(|d.zones|);
      err := 0;
    }

    /** The command. Outside its error cases the buffer holds the first matching zones from the start zone
        on, as many as fit, in order; the header counts all of them, and in a partial report those that fit and one
        for every batch with a match behind them. */
    method Receive(d: Device, rq: Request, nbytes: nat, faults: Faults) returns (err: int)
      requires d.zoned ==> d.nsect > 0 && d.ssw >= LINUX_BLOCK_SSW
      requires descrs.Length == if nbytes < HEADER_BYTES then 0 else (nbytes - HEADER_BYTES) / DESCRIPTOR_BYTES
      modifies this, descrs
      ensures err == Outcome(d, rq, nbytes, faults)
      ensures Refused(d, rq, nbytes, faults) ==> nzones == old(nzones) && descrs[..] == old(descrs[..])
      ensures err == 0 && HeaderOnly(rq, nbytes) ==> nzones == |d.zones|
      ensures !Refused(d, rq, nbytes, faults) && !HeaderOnly(rq, nbytes) && faults.alloc ==>
                nzones == 0 && forall i | 0 <= i < descrs.Length :: descrs[i] == Descriptor(0, 0, 0, 0, 0)
      ensures err == 0 && !HeaderOnly(rq, nbytes) ==>
                var m := Matches(d.zones, rq.zrasf, rq.slba / d.nsect, |d.zones|);
                && Holds(d, descrs[..], m, Room(nbytes))
                && nzones == Header(d.zones, rq, rq.slba / d.nsect, Room(nbytes))
      ensures err == 0 && !HeaderOnly(rq, nbytes) ==>
                Reported(d, rq, rq.slba / d.nsect, Room(nbytes), descrs[..], nzones)
    {
      if !d.zoned {
        return -EINVAL;
      }
      if nbytes < HEADER_BYTES {
        return -EINVAL;
      }
      if rq.zra != 0 {
        return -ENOSYS;
      }
      if faults.count {
        return -EIO;
      }
      nzones := 0;
      for i := 0 to descrs.Length
        invariant nzones == 0 && forall j | 0 <= j < i :: descrs[j] == BLANK
      {
        descrs[i] := BLANK;
      }
      var room := (nbytes - HEADER_BYTES) / DESCRIPTOR_BYTES % 0x1_0000_0000;
      if rq.zrasf == 0 && room == 0 {
        nzones := |d.zones|;
        return 0;
      }
      if faults.alloc {
        return -EIO;
      }
      err := Scan(d, rq, room, faults);
      if err == 0 {
        ReportedOk(d, rq, rq.slba / d.nsect, room, descrs[..], nzones);
      }
    }
  }

  /** The report, told by the zones of the device: of those from zone `from` on that are in the condition asked for,
      the first ones stand in the buffer, one after the other, as many as fit; the rest of it is blank. A full header
      counts them all, and a partial one no fewer than stand in the buffer. */
  ghost predicate Reported(d: Device, rq: Request, from: nat, room: nat, ds: seq<Descriptor>, nzones: nat)
    requires d.ssw >= LINUX_BLOCK_SSW
  {
    exists picks :: Picked(d.zones, rq.zrasf, from, |d.zones|, picks) && Stand(d, rq, picks, room, ds, nzones)
  }

  predicate Stand(d: Device, rq: Request, picks: seq<nat>, room: nat, ds: seq<Descriptor>, nzones: nat)
    requires d.ssw >= LINUX_BLOCK_SSW
  {
    && (forall i | 0 <= i < |ds| :: StandsAt(d, picks, room, ds[i], i))
    && (if rq.partial then Min(|picks|, room) <= nzones else nzones == |picks|)
  }

  predicate StandsAt(d: Device, picks: seq<nat>, room: nat, x: Descriptor, i: nat)
    requires d.ssw >= LINUX_BLOCK_SSW
  {
    if i < room && i < |picks| then picks[i] < |d.zones| && x == ToDescriptor(d, d.zones[picks[i]])
    else x == Descriptor(0, 0, 0, 0, 0)
  }

  lemma ReportedOk(d: Device, rq: Request, from: nat, room: nat, ds: seq<Descriptor>, nzones: nat)
    requires d.ssw >= LINUX_BLOCK_SSW && Holds(d, ds, Matches(d.zones, rq.zrasf, from, |d.zones|), room)
    requires nzones == Header(d.zones, rq, from, room)
    ensures Reported(d, rq, from, room, ds, nzones)
  {
    var m, picks := Matches(d.zones, rq.zrasf, from, |d.zones|), Picks(d.zones, rq.zrasf, from, |d.zones|);
    PicksArePicked(d.zones, rq.zrasf, from, |d.zones|);
    MatchesArePicks(d.zones, rq.zrasf, from, |d.zones|);
    forall i | 0 <= i < |ds| ensures StandsAt(d, picks, room, ds[i], i) {
      assert HoldsAt(d, ds[i], m, room, i);
      assert i < |picks| ==> SameZone(d.zones, m, picks, i);
    }
    assert Stand(d, rq, picks, room, ds, nzones);
  }

  /** A report in full whose header is no more than there is room for is complete: every zone from the start zone on
      that is in the condition asked for is shown, and nothing else is. */
  lemma UntruncatedReport(d: Device, rq: Request, from: nat, room: nat, ds: seq<Descriptor>, nzones: nat)
    requires d.ssw >= LINUX_BLOCK_SSW && Reported(d, rq, from, room, ds, nzones)
    requires !rq.partial && nzones <= room <= |ds|
    ensures forall k | from <= k < |d.zones| && Wanted(rq.zrasf, d.zones[k].cond) :: Shown(d, k, ds[..nzones])
    ensures forall i | 0 <= i < nzones :: ShowsWanted(d, rq.zrasf, from, ds[i])
  {
    var picks :| Picked(d.zones, rq.zrasf, from, |d.zones|, picks) && Stand(d, rq, picks, room, ds, nzones);
    forall k | from <= k < |d.zones| && Wanted(rq.zrasf, d.zones[k].cond) ensures Shown(d, k, ds[..nzones]) {
      PickShown(d, picks, room, ds, k);
    }
    forall i | 0 <= i < nzones ensures ShowsWanted(d, rq.zrasf, from, ds[i]) {
      assert IsPick(d.zones, rq.zrasf, from, |d.zones|, picks[i]) && StandsAt(d, picks, room, ds[i], i);
    }
  }

  lemma PickShown(d: Device, picks: seq<nat>, room: nat, ds: seq<Descriptor>, k: nat)
    requires k < |d.zones| && d.ssw >= LINUX_BLOCK_SSW && k in picks && |picks| <= room <= |ds|
    requires forall i | 0 <= i < |ds| :: StandsAt(d, picks, room, ds[i], i)
    ensures Shown(d, k, ds[..|picks|])
  {
    var i :| 0 <= i < |picks| && picks[i] == k;
    assert StandsAt(d, picks, room, ds[i], i);
    assert ds[..|picks|][i] == ToDescriptor(d, d.zones[k]);
  }

  predicate Shown(d: Device, k: nat, shown: seq<Descriptor>)
    requires k < |d.zones| && d.ssw >= LINUX_BLOCK_SSW
  {
    ToDescriptor(d, d.zones[k]) in shown
  }

  /** The descriptor of some zone from `from` on that is in the condition asked for. */
  ghost predicate ShowsWanted(d: Device, zrasf: nat, from: nat, x: Descriptor)
    requires d.ssw >= LINUX_BLOCK_SSW
  {
    exists k | from <= k < |d.zones| && Wanted(zrasf, d.zones[k].cond) :: x == ToDescriptor(d, d.zones[k])
  }

  /** Descriptors there is room for; the count is kept in 32 bits. */
  function Room(nbytes: nat): nat {
    if nbytes < HEADER_BYTES then 0 else (nbytes - HEADER_BYTES) / DESCRIPTOR_BYTES % 0x1_0000_0000
  }

  /** A header of 64 bytes, and then 64 bytes a descriptor. */
  lemma RoomIs(k: nat, rest: nat)
    requires rest < 64
    ensures Room(rest) == 0 && Room(64 + 64 * k + rest) == k % 0x1_0000_0000
  {
    DivUnique(64 * k + rest, 64, k, rest);
  }

  /** All zones are asked for, and there is room for none. */
  predicate HeaderOnly(rq: Request, nbytes: nat) {
    rq.zrasf == 0 && Room(nbytes) == 0
  }

  predicate Refused(d: Device, rq: Request, nbytes: nat, faults: Faults) {
    !d.zoned || nbytes < HEADER_BYTES || rq.zra != 0 || faults.count
  }

  ghost function Outcome(d: Device, rq: Request, nbytes: nat, faults: Faults): int {
    if !d.zoned || nbytes < HEADER_BYTES then -EINVAL
    else if rq.zra != 0 then -ENOSYS
    else if faults.count then -EIO
    else if HeaderOnly(rq, nbytes) then 0
    else if faults.alloc || !AllAnswered(d, faults) then -EIO
    else 0
  }

  /** The kernel answers for every batch it is asked for. */
  ghost predicate AllAnswered(d: Device, faults: Faults) {
    forall b: nat | b * BATCH < |d.zones| :: !faults.batch(b)
  }

  lemma BatchFits(zones: seq<Zone>, zrasf: nat, from: nat, room: nat, first: nat, upto: nat)
    requires first <= |zones| && upto <= |zones| && Hits(zones, zrasf, from, |zones|) <= room
    ensures !Overflows(zones, zrasf, from, room, first, upto)
  {
    MatchesGrow(zones, zrasf, from, upto, |zones|);
  }

  lemma {:induction false} NoneOverflow(zones: seq<Zone>, zrasf: nat, from: nat, room: nat, b: nat)
    requires Hits(zones, zrasf, from, |zones|) <= room
    ensures Overflowing(zones, zrasf, from, room, b) == 0
    decreases b
  {
    if b != 0 {
      NoneOverflow(zones, zrasf, from, room, b - 1);
      BatchFits(zones, zrasf, from, room, BatchEnd(|zones|, from, b - 1), BatchEnd(|zones|, from, b));
    }
  }

  lemma {:induction false} SomeOverflow(zones: seq<Zone>, zrasf: nat, from: nat, room: nat, b: nat)
    requires Hits(zones, zrasf, from, BatchEnd(|zones|, from, b)) > room
    ensures Overflowing(zones, zrasf, from, room, b) > 0
    decreases b
  {
    if b != 0 && Hits(zones, zrasf, from, BatchEnd(|zones|, from, b - 1)) > room {
      SomeOverflow(zones, zrasf, from, room, b - 1);
    }
  }

  /** A partial header says what the buffer holds exactly when every match fits. */
  lemma PartialHeader(zones: seq<Zone>, rq: Request, from: nat, room: nat)
    requires rq.partial
    ensures var hits := Hits(zones, rq.zrasf, from, |zones|);
      Header(zones, rq, from, room) == Min(hits, room) <==> hits <= room
  {
    if Hits(zones, rq.zrasf, from, |zones|) <= room {
      NoneOverflow(zones, rq.zrasf, from, room, Batches(|zones|));
    } else {
      assert BatchEnd(|zones|, from, Batches(|zones|)) == |zones|;
      SomeOverflow(zones, rq.zrasf, from, room, Batches(|zones|));
    }
  }

  /** A partial report of all zones from the first one on, with room for fewer: its header exceeds what the buffer holds
      by the number of batches of 64 zones that do not fit entirely. */
  lemma PartialHeaderOfAll(zones: seq<Zone>, rq: Request, room: nat)
    requires rq.partial && rq.zrasf == 0 && room < |zones|
    ensures Header(zones, rq, 0, room) == room + (|zones| + 63) / 64 - room / 64
  {
    FullBatches(zones, room, Batches(|zones|));
    AllMatch(zones, 0, |zones|);
  }

  /** Two hundred zones, asked for with room for one, are reported as five. */
  lemma HeaderOfFive(zones: seq<Zone>, rq: Request)
    requires |zones| == 200 && rq.partial && rq.zrasf == 0
    ensures Header(zones, rq, 0, 1) == 5
  {
    PartialHeaderOfAll(zones, rq, 1);
  }

  lemma {:induction false} FullBatches(zones: seq<Zone>, room: nat, b: nat)
    requires room < |zones| && b <= (|zones| + 63) / 64
    ensures Overflowing(zones, 0, 0, room, b) == if b <= room / 64 then 0 else b - room / 64
    decreases b
  {
    if b != 0 {
      FullBatches(zones, room, b - 1);
      FullBatch(zones, room, b);
    }
  }

  lemma FullBatch(zones: seq<Zone>, room: nat, b: nat)
    requires room < |zones| && 0 < b <= (|zones| + 63) / 64
    ensures BatchOver(zones, 0, 0, room, b - 1) <==> b > room / 64
  {
    AllMatch(zones, 0, BatchEnd(|zones|, 0, b - 1));
    AllMatch(zones, 0, BatchEnd(|zones|, 0, b));
  }

  /** The count of all zones without room for any does not start at the start zone. */
  lemma CountOfAllMisses(a: Zone, b: Zone)
    ensures |[a, b]| == 2 && |Matches([a, b], 0, 1, 2)| == 1
  {
    AllMatch([a, b], 1, 2);
  }
}
