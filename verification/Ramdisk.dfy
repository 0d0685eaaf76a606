/**
 The ramdisk command executor. Disk, data buffers and command contexts live in one memory, as they
 do in the process that runs the executor: the disk is the region `[base, base + size)`.

 `Prog` gives the bytes a command moves, in order, including the status a worker stores when the
 command fails. `Machine` is the executor itself, working in place on an array.
 */
module Ramdisk {
  import opened Arith
  import opened Common
  import opened Memory

  const NVM_FLUSH := 0x00
  const NVM_WRITE := 0x01
  const NVM_READ := 0x02
  const NVM_COMPARE := 0x05
  const NVM_WRITE_ZEROES := 0x08
  const NVM_DATASET_MANAGEMENT := 0x09
  const NVM_SCOPY := 0x19
  const FS_WRITE := 0xAC
  const FS_FLUSH := 0xAD
  const FS_READ := 0xDC

  /** The size of a range descriptor of a simple copy. */
  const DESCRIPTOR_BYTES := 32

  datatype Device = Device(base: Addr, size: nat, ssw: nat, lbaNbytes: nat)

  /** A contiguous stretch of memory: an `iovec`, or a source range of a simple copy. */
  datatype Segment = Segment(base: Addr, len: nat)

  /** A source range descriptor of a simple copy; the block count is zero-based. */
  datatype Range = Range(slba: nat, nlb: nat)

  datatype Payload =
    | Contig(dbuf: Addr, nbytes: nat)
    | Vectored(segs: seq<Segment>)

  /** `meta` tells whether a metadata buffer came along; `sc` is where the context keeps its status code.
      `nr` is the zero-based number of ranges of a simple copy. */
  datatype Cmd = Cmd(opcode: int, slba: nat, nlb: nat, nr: nat, payload: Payload, meta: bool, sc: Addr)

  // ---------------------------------------------------------------------------------------------
  // Building blocks: what memcpy, memset and memcmp do, byte by byte

  function CopyOps(dst: Addr, src: Addr, n: nat): (p: Program)
    ensures |p| == n
  {
    if n == 0 then [] else CopyOps(dst, src, n - 1) + [Copy(dst + n - 1, src + n - 1)]
  }

  function ZeroOps(dst: Addr, n: nat): (p: Program)
    ensures |p| == n
  {
    if n == 0 then [] else ZeroOps(dst, n - 1) + [Put(dst + n - 1, 0)]
  }

  function CompareOps(sc: Addr, a: Addr, b: Addr, n: nat): (p: Program)
    ensures |p| == n
  {
    if n == 0 then []
    else CompareOps(sc, a, b, n - 1) + [Differ(sc, a + n - 1, b + n - 1, StatusCode(-EIO))]
  }

  /** Length of the first `k` segments together. */
  function Len(segs: seq<Segment>, k: nat): nat
    requires k <= |segs|
  {
    if k == 0 then 0 else Len(segs, k - 1) + segs[k - 1].len
  }

  function TotalLen(segs: seq<Segment>): nat {
    Len(segs, |segs|)
  }

  /** The first `k` segments into one stretch at `dst`, each after the previous one. */
  function GatherOps(dst: Addr, segs: seq<Segment>, k: nat): Program
    requires k <= |segs|
  {
    if k == 0 then []
    else GatherOps(dst, segs, k - 1) + CopyOps(dst + Len(segs, k - 1), segs[k - 1].base, segs[k - 1].len)
  }

  /** One stretch at `src` out into the first `k` segments. */
  function ScatterOps(src: Addr, segs: seq<Segment>, k: nat): Program
    requires k <= |segs|
  {
    if k == 0 then []
    else ScatterOps(src, segs, k - 1) + CopyOps(segs[k - 1].base, src + Len(segs, k - 1), segs[k - 1].len)
  }

  function Source(d: Device, r: Range): Segment {
    Segment(d.base + r.slba * Pow2(d.ssw), (r.nlb + 1) * d.lbaNbytes)
  }

  /** A number of `n` bytes, least significant first. */
  function LittleEndian(m: Mem, a: Addr, n: nat): nat
    requires a + n <= |m|
    decreases n
  {
    if n == 0 then 0 else m[a] + 256 * LittleEndian(m, a + 1, n - 1)
  }

  /** The range descriptor at `a`: eight reserved bytes, the first block, the zero-based block count. */
  function RangeAt(m: Mem, a: Addr): Range
    requires a + DESCRIPTOR_BYTES <= |m|
  {
    Range(LittleEndian(m, a + 8, 8), LittleEndian(m, a + 16, 2))
  }

  /** The first `k` source ranges that the descriptors at `buf` describe. */
  function Sources(d: Device, m: Mem, buf: Addr, k: nat): (segs: seq<Segment>)
    requires buf + DESCRIPTOR_BYTES * k <= |m|
    ensures |segs| == k
    ensures forall i | 0 <= i < k :: segs[i] == Source(d, RangeAt(m, buf + DESCRIPTOR_BYTES * i))
  {
    if k == 0 then [] else Sources(d, m, buf, k - 1) + [Source(d, RangeAt(m, buf + DESCRIPTOR_BYTES * (k - 1)))]
  }

  /** The source ranges of a simple copy. */
  function CopySources(d: Device, m: Mem, c: Cmd): (segs: seq<Segment>)
    requires c.payload.Contig? && c.payload.dbuf + DescriptorLen(c) <= |m|
    ensures |segs| == c.nr + 1
  {
    Sources(d, m, c.payload.dbuf, c.nr + 1)
  }

  function DescriptorLen(c: Cmd): nat {
    DESCRIPTOR_BYTES * (c.nr + 1)
  }

  /** Where a command starts on the disk: block address for NVM opcodes, byte address for file opcodes. */
  function DiskAddr(d: Device, c: Cmd): Addr {
    if c.opcode == FS_WRITE || c.opcode == FS_READ then d.base + c.slba
    else d.base + c.slba * Pow2(d.ssw)
  }

  function ZeroLen(d: Device, c: Cmd): nat {
    (c.nlb + 1) * d.lbaNbytes
  }

  // ---------------------------------------------------------------------------------------------
  // The command as a program

  predicate IsScopy(c: Cmd) {
    !c.meta && c.payload.Contig? && c.opcode == NVM_SCOPY
  }

  /** The descriptors a simple copy reads exist. */
  predicate DescriptorsFit(c: Cmd, size: nat) {
    IsScopy(c) ==> c.payload.dbuf + DescriptorLen(c) <= size
  }

  function ContigProg(d: Device, m: Mem, c: Cmd): Program
    requires c.payload.Contig? && DescriptorsFit(c, |m|)
  {
    var at, buf, n := DiskAddr(d, c), c.payload.dbuf, c.payload.nbytes;
    if c.meta then [Raise(c.sc, StatusCode(-ENOTSUP))]
    else if c.opcode == NVM_WRITE || c.opcode == FS_WRITE then CopyOps(at, buf, n)
    else if c.opcode == NVM_READ || c.opcode == FS_READ then CopyOps(buf, at, n)
    else if c.opcode == NVM_WRITE_ZEROES then ZeroOps(at, ZeroLen(d, c))
    else if c.opcode == NVM_SCOPY then GatherOps(at, CopySources(d, m, c), c.nr + 1)
    else if c.opcode == NVM_FLUSH || c.opcode == FS_FLUSH || c.opcode == NVM_DATASET_MANAGEMENT then []
    else if c.opcode == NVM_COMPARE then CompareOps(c.sc, at, buf, n)
    else [Raise(c.sc, StatusCode(-ENOSYS))]
  }

  function VectoredProg(d: Device, c: Cmd): Program
    requires c.payload.Vectored?
  {
    var at, segs := DiskAddr(d, c), c.payload.segs;
    if c.meta then [Raise(c.sc, StatusCode(-ENOTSUP))]
    else if c.opcode == NVM_WRITE || c.opcode == FS_WRITE then GatherOps(at, segs, |segs|)
    else if c.opcode == NVM_READ || c.opcode == FS_READ then ScatterOps(at, segs, |segs|)
    else if c.opcode == NVM_FLUSH || c.opcode == FS_FLUSH then []
    else [Raise(c.sc, StatusCode(-ENOSYS))]
  }

  /** Everything executing a command in memory `m` does to it, a worker's error path included. Only a simple copy
      depends on `m`, through its descriptors. */
  function Prog(d: Device, m: Mem, c: Cmd): Program
    requires DescriptorsFit(c, |m|)
  {
    if c.payload.Contig? then ContigProg(d, m, c) else VectoredProg(d, c)
  }

  // ---------------------------------------------------------------------------------------------
  // What the C code demands of its callers: addresses exist and memcpy operands do not overlap

  predicate Fits(at: Addr, n: nat, size: nat) {
    at + n <= size
  }

  predicate Apart(a: Addr, n: nat, b: Addr, k: nat) {
    a + n <= b || b + k <= a
  }

  predicate SegmentsFit(segs: seq<Segment>, size: nat) {
    forall i | 0 <= i < |segs| :: Fits(segs[i].base, segs[i].len, size)
  }

  predicate PieceApart(at: Addr, segs: seq<Segment>, i: nat)
    requires i < |segs|
  {
    Apart(at + Len(segs, i), segs[i].len, segs[i].base, segs[i].len)
  }

  /** Each piece of the stretch at `at` is apart from the segment it is copied from or to. */
  predicate PiecesApart(at: Addr, segs: seq<Segment>) {
    forall i | 0 <= i < |segs| :: PieceApart(at, segs, i)
  }

  predicate ContigWellFormed(d: Device, c: Cmd, m: Mem)
    requires c.payload.Contig? && DescriptorsFit(c, |m|) && !c.meta
  {
    var at, buf, n, end := DiskAddr(d, c), c.payload.dbuf, c.payload.nbytes, d.base + d.size;
    if c.opcode == NVM_SCOPY then
      var segs := CopySources(d, m, c);
      && Fits(at, TotalLen(segs), end) && SegmentsFit(segs, end) && PiecesApart(at, segs)
      && Apart(at, TotalLen(segs), buf, DescriptorLen(c))
    else if c.opcode == NVM_WRITE_ZEROES then Fits(at, ZeroLen(d, c), end)
    else if IsWrite(c) || IsRead(c) || c.opcode == NVM_COMPARE then
      && Fits(at, n, end)
      && Fits(buf, n, |m|)
      && Apart(at, n, buf, n)
      && Apart(c.sc, 1, at, n)
      && Apart(c.sc, 1, buf, n)
    else true
  }

  predicate VectoredWellFormed(d: Device, c: Cmd, size: nat)
    requires c.payload.Vectored?
  {
    var at, segs := DiskAddr(d, c), c.payload.segs;
    IsWrite(c) || IsRead(c)
    ==> Fits(at, TotalLen(segs), d.base + d.size) && SegmentsFit(segs, size) && PiecesApart(at, segs)
  }

  /** The caller kept the rules, as memory stands. */
  predicate WellFormed(d: Device, c: Cmd, m: Mem) {
    && d.base + d.size <= |m|
    && c.sc < |m|
    && DescriptorsFit(c, |m|)
    && (!c.meta ==> if c.payload.Contig? then ContigWellFormed(d, c, m) else VectoredWellFormed(d, c, |m|))
  }

  // ---------------------------------------------------------------------------------------------
  // Meaning of the building blocks

  predicate Within(at: Addr, n: nat, a: int) {
    at <= a < at + n
  }

  /** `r` is `m` with the bytes at `src` copied to `dst`, and nothing else changed. */
  ghost predicate Moved(m: Mem, r: Mem, dst: Addr, src: Addr, n: nat)
    requires Fits(dst, n, |m|) && Fits(src, n, |m|)
  {
    && |r| == |m|
    && (forall a | Within(dst, n, a) :: r[a] == m[src + (a - dst)])
    && (forall a | 0 <= a < |m| && !Within(dst, n, a) :: r[a] == m[a])
  }

  ghost predicate SameBytes(m: Mem, a: Addr, b: Addr, n: nat)
    requires Fits(a, n, |m|) && Fits(b, n, |m|)
  {
    forall i | Within(a, n, i) :: m[i] == m[b + (i - a)]
  }

  /** Where the `j`-th byte of the first `k` segments lies. */
  function Nth(segs: seq<Segment>, k: nat, j: nat): (a: Addr)
    requires k <= |segs| && j < Len(segs, k)
  {
    if j >= Len(segs, k - 1) then segs[k - 1].base + (j - Len(segs, k - 1)) else Nth(segs, k - 1, j)
  }

  /** `r` is `m` with the first `k` segments laid out one after the other at `at`. */
  ghost predicate Gathered(m: Mem, r: Mem, at: Addr, segs: seq<Segment>, k: nat)
    requires k <= |segs| && SegmentsFit(segs, |m|) && Fits(at, Len(segs, k), |m|)
  {
    && |r| == |m|
    && (forall a | Within(at, Len(segs, k), a) :: NthFits(segs, k, a - at, |m|) && r[a] == m[Nth(segs, k, a - at)])
    && (forall a | 0 <= a < |m| && !Within(at, Len(segs, k), a) :: r[a] == m[a])
  }

  predicate NthFits(segs: seq<Segment>, k: nat, j: nat, size: nat)
    requires k <= |segs| && j < Len(segs, k)
  {
    Nth(segs, k, j) < size
  }

  /** `r` is `m` with the stretch at `at` handed out to the first `k` segments. */
  ghost predicate Scattered(m: Mem, r: Mem, at: Addr, segs: seq<Segment>, k: nat)
    requires k <= |segs| && SegmentsFit(segs, |m|) && Fits(at, Len(segs, k), |m|)
  {
    && |r| == |m|
    && (forall j | 0 <= j < Len(segs, k) :: NthFits(segs, k, j, |m|) && r[Nth(segs, k, j)] == m[at + j])
    && (forall a | 0 <= a < |m| && Outside(segs, k, a) :: r[a] == m[a])
  }

  predicate Inside(s: Segment, a: int) {
    Within(s.base, s.len, a)
  }

  ghost predicate Outside(segs: seq<Segment>, k: nat, a: int)
    requires k <= |segs|
  {
    forall i | 0 <= i < k :: !Inside(segs[i], a)
  }

  /** The stretch at `at` is apart from every one of the segments. */
  ghost predicate AllApart(at: Addr, len: nat, segs: seq<Segment>) {
    forall i | 0 <= i < |segs| :: Apart(at, len, segs[i].base, segs[i].len)
  }

  predicate SegmentsApart(segs: seq<Segment>, i: nat, j: nat)
    requires i < |segs| && j < |segs|
  {
    Apart(segs[i].base, segs[i].len, segs[j].base, segs[j].len)
  }

  ghost predicate PairwiseApart(segs: seq<Segment>) {
    forall i, j | 0 <= i < j < |segs| :: SegmentsApart(segs, i, j)
  }

  /** One more operation after a program. */
  lemma ThenOne(m: Mem, p: Program, op: Op)
    requires InBounds(p, |m|) && OpInBounds(op, |m|)
    ensures InBounds(p + [op], |m|)
    ensures Run(m, p + [op]) == Exec(Run(m, p), op)
  {
    RunAppend(m, p, [op]);
    assert Run(Run(m, p), [op]) == Exec(RunTo(Run(m, p), [op], 0), op);
  }

  lemma {:induction false} CopyMeaning(m: Mem, dst: Addr, src: Addr, n: nat)
    requires Fits(dst, n, |m|) && Fits(src, n, |m|) && Apart(dst, n, src, n)
    ensures InBounds(CopyOps(dst, src, n), |m|)
    ensures Moved(m, Run(m, CopyOps(dst, src, n)), dst, src, n)
  {
    if n != 0 {
      CopyMeaning(m, dst, src, n - 1);
      ThenOne(m, CopyOps(dst, src, n - 1), Copy(dst + n - 1, src + n - 1));
      CopyStep(m, Run(m, CopyOps(dst, src, n - 1)), dst, src, n);
    }
  }

  lemma CopyStep(m: Mem, r: Mem, dst: Addr, src: Addr, n: nat)
    requires 0 < n && Fits(dst, n, |m|) && Fits(src, n, |m|) && Apart(dst, n, src, n)
    requires Moved(m, r, dst, src, n - 1)
    ensures Moved(m, Exec(r, Copy(dst + n - 1, src + n - 1)), dst, src, n)
  {
    assert !Within(dst, n - 1, src + n - 1);
  }

  /** `r` is `m` with `n` bytes at `dst` cleared, and nothing else changed. */
  ghost predicate Zeroed(m: Mem, r: Mem, dst: Addr, n: nat) {
    && |r| == |m|
    && (forall a | 0 <= a < |m| && Within(dst, n, a) :: r[a] == 0)
    && (forall a | 0 <= a < |m| && !Within(dst, n, a) :: r[a] == m[a])
  }

  lemma {:induction false} ZeroMeaning(m: Mem, dst: Addr, n: nat)
    requires Fits(dst, n, |m|)
    ensures InBounds(ZeroOps(dst, n), |m|)
    ensures Zeroed(m, Run(m, ZeroOps(dst, n)), dst, n)
  {
    if n != 0 {
      ZeroMeaning(m, dst, n - 1);
      var r := Run(m, ZeroOps(dst, n - 1));
      ThenOne(m, ZeroOps(dst, n - 1), Put(dst + n - 1, 0));
      assert Zeroed(m, Exec(r, Put(dst + n - 1, 0)), dst, n);
    }
  }

  /** What a worker's error path leaves: a status that is still zero becomes `v`. */
  function Raised(m: Mem, sc: Addr, v: byte): Mem
    requires sc < |m|
  {
    if m[sc] == 0 then m[sc := v] else m
  }

  /** Compare leaves memory alone unless the stretches differ; then it raises an I/O error. */
  lemma {:induction false} CompareMeaning(m: Mem, sc: Addr, a: Addr, b: Addr, n: nat)
    requires Fits(a, n, |m|) && Fits(b, n, |m|) && sc < |m|
    requires Apart(sc, 1, a, n) && Apart(sc, 1, b, n)
    ensures InBounds(CompareOps(sc, a, b, n), |m|)
    ensures Run(m, CompareOps(sc, a, b, n)) ==
            if SameBytes(m, a, b, n) then m else Raised(m, sc, StatusCode(-EIO))
  {
    if n == 0 {
      assert SameBytes(m, a, b, 0);
    } else {
      CompareMeaning(m, sc, a, b, n - 1);
      ThenOne(m, CompareOps(sc, a, b, n - 1), Differ(sc, a + n - 1, b + n - 1, StatusCode(-EIO)));
      CompareStep(m, Run(m, CompareOps(sc, a, b, n - 1)), sc, a, b, n);
    }
  }

  lemma CompareStep(m: Mem, r: Mem, sc: Addr, a: Addr, b: Addr, n: nat)
    requires 0 < n && Fits(a, n, |m|) && Fits(b, n, |m|) && sc < |m|
    requires Apart(sc, 1, a, n) && Apart(sc, 1, b, n)
    requires r == if SameBytes(m, a, b, n - 1) then m else Raised(m, sc, StatusCode(-EIO))
    ensures Exec(r, Differ(sc, a + n - 1, b + n - 1, StatusCode(-EIO))) ==
            if SameBytes(m, a, b, n) then m else Raised(m, sc, StatusCode(-EIO))
  {
    var last := a + n - 1;
    assert Within(a, n, last);
    assert SameBytes(m, a, b, n) ==> SameBytes(m, a, b, n - 1) && m[last] == m[b + (last - a)];
    assert SameBytes(m, a, b, n - 1) && m[last] == m[b + (last - a)] ==> SameBytes(m, a, b, n);
  }

  lemma {:induction false} LenMonotone(segs: seq<Segment>, i: nat, k: nat)
    requires i <= k <= |segs|
    ensures Len(segs, i) <= Len(segs, k)
  {
    if i < k {
      LenMonotone(segs, i, k - 1);
    }
  }

  /** One more memcpy after a program. */
  lemma ThenCopy(m: Mem, p: Program, dst: Addr, src: Addr, n: nat)
    requires InBounds(p, |m|) && Fits(dst, n, |m|) && Fits(src, n, |m|) && Apart(dst, n, src, n)
    ensures InBounds(p + CopyOps(dst, src, n), |m|)
    ensures Moved(Run(m, p), Run(m, p + CopyOps(dst, src, n)), dst, src, n)
  {
    CopyMeaning(Run(m, p), dst, src, n);
    RunAppend(m, p, CopyOps(dst, src, n));
  }

  /** A vectored write, and a simple copy, is one contiguous store of the original segments. */
  lemma {:induction false} GatherMeaning(m: Mem, at: Addr, segs: seq<Segment>, k: nat)
    requires k <= |segs| && SegmentsFit(segs, |m|) && Fits(at, TotalLen(segs), |m|)
    requires AllApart(at, TotalLen(segs), segs)
    ensures Len(segs, k) <= TotalLen(segs)
    ensures InBounds(GatherOps(at, segs, k), |m|)
    ensures Gathered(m, Run(m, GatherOps(at, segs, k)), at, segs, k)
  {
    LenMonotone(segs, k, |segs|);
    if k != 0 {
      var s := segs[k - 1];
      GatherMeaning(m, at, segs, k - 1);
      assert Apart(at, TotalLen(segs), s.base, s.len);
      ThenCopy(m, GatherOps(at, segs, k - 1), at + Len(segs, k - 1), s.base, s.len);
      GatherStep(m, Run(m, GatherOps(at, segs, k - 1)), Run(m, GatherOps(at, segs, k)), at, segs, k);
    }
  }

  lemma GatherStep(m: Mem, m1: Mem, m2: Mem, at: Addr, segs: seq<Segment>, k: nat)
    requires 0 < k <= |segs| && SegmentsFit(segs, |m|) && Fits(at, Len(segs, k), |m|) && |m1| == |m|
    requires Apart(at, Len(segs, k), segs[k - 1].base, segs[k - 1].len)
    requires Gathered(m, m1, at, segs, k - 1)
    requires Moved(m1, m2, at + Len(segs, k - 1), segs[k - 1].base, segs[k - 1].len)
    ensures Gathered(m, m2, at, segs, k)
  {
    var s, l := segs[k - 1], Len(segs, k - 1);
    forall a | Within(at, Len(segs, k), a) ensures NthFits(segs, k, a - at, |m|) && m2[a] == m[Nth(segs, k, a - at)] {
      if a - at < l {
        assert Within(at, l, a) && !Within(at + l, s.len, a);
        assert NthFits(segs, k - 1, a - at, |m|);
      } else {
        assert Within(at + l, s.len, a);
        var b := s.base + (a - at - l);
        assert !Within(at, l, b);
      }
    }
  }

  /** A vectored read hands the contiguous stretch to the segments, in order, and changes nothing else. */
  lemma {:induction false} ScatterMeaning(m: Mem, at: Addr, segs: seq<Segment>, k: nat)
    requires k <= |segs| && SegmentsFit(segs, |m|) && Fits(at, TotalLen(segs), |m|)
    requires AllApart(at, TotalLen(segs), segs) && PairwiseApart(segs)
    ensures Len(segs, k) <= TotalLen(segs)
    ensures InBounds(ScatterOps(at, segs, k), |m|)
    ensures Scattered(m, Run(m, ScatterOps(at, segs, k)), at, segs, k)
  {
    LenMonotone(segs, k, |segs|);
    if k != 0 {
      var s := segs[k - 1];
      ScatterMeaning(m, at, segs, k - 1);
      assert Apart(at, TotalLen(segs), s.base, s.len);
      assert Fits(s.base, s.len, |m|);
      var p := ScatterOps(at, segs, k - 1);
      ThenCopy(m, p, s.base, at + Len(segs, k - 1), s.len);
      var q := ScatterOps(at, segs, k);
      assert q == p + CopyOps(s.base, at + Len(segs, k - 1), s.len);
      ScatterStep(m, Run(m, p), Run(m, q), at, segs, k);
    }
  }

  /** Every byte position of the segments lies inside one of them. */
  lemma {:induction false} NthInside(segs: seq<Segment>, k: nat, j: nat) returns (i: nat)
    requires k <= |segs| && j < Len(segs, k)
    ensures i < k && Inside(segs[i], Nth(segs, k, j))
  {
    if j >= Len(segs, k - 1) {
      i := k - 1;
    } else {
      i := NthInside(segs, k - 1, j);
    }
  }

  /** The earlier pieces of a scatter are not disturbed by the last one. */
  lemma ScatterEarlier(segs: seq<Segment>, k: nat, j: nat)
    requires 0 < k <= |segs| && j < Len(segs, k - 1) && PairwiseApart(segs)
    ensures !Within(segs[k - 1].base, segs[k - 1].len, Nth(segs, k - 1, j))
  {
    var i := NthInside(segs, k - 1, j);
    assert SegmentsApart(segs, i, k - 1);
  }

  /** The stretch being read lies outside all segments. */
  lemma StretchOutside(at: Addr, segs: seq<Segment>, k: nat, j: nat)
    requires k <= |segs| && j < TotalLen(segs) && AllApart(at, TotalLen(segs), segs)
    ensures Outside(segs, k, at + j)
  {
    forall i | 0 <= i < k ensures !Inside(segs[i], at + j) {
      assert Apart(at, TotalLen(segs), segs[i].base, segs[i].len);
    }
  }

  lemma ScatterStep(m: Mem, m1: Mem, m2: Mem, at: Addr, segs: seq<Segment>, k: nat)
    requires 0 < k <= |segs| && |m| == |m1| && SegmentsFit(segs, |m|)
    requires Fits(at, Len(segs, k), |m|) && Len(segs, k) <= TotalLen(segs)
    requires AllApart(at, TotalLen(segs), segs) && PairwiseApart(segs)
    requires Scattered(m, m1, at, segs, k - 1)
    requires Moved(m1, m2, segs[k - 1].base, at + Len(segs, k - 1), segs[k - 1].len)
    ensures Scattered(m, m2, at, segs, k)
  {
    var s, l := segs[k - 1], Len(segs, k - 1);
    forall j | 0 <= j < Len(segs, k) ensures NthFits(segs, k, j, |m|) && m2[Nth(segs, k, j)] == m[at + j] {
      if j < l {
        assert NthFits(segs, k - 1, j, |m|);
        ScatterEarlier(segs, k, j);
      } else {
        assert Within(s.base, s.len, Nth(segs, k, j));
        StretchOutside(at, segs, k - 1, j);
      }
    }
    forall a | 0 <= a < |m| && Outside(segs, k, a) ensures m2[a] == m[a] {
      assert !Inside(segs[k - 1], a) && Outside(segs, k - 1, a);
    }
  }

  // ---------------------------------------------------------------------------------------------
  // Commands stay inside memory

  lemma {:induction false} CopyInBounds(dst: Addr, src: Addr, n: nat, size: nat)
    requires Fits(dst, n, size) && Fits(src, n, size)
    ensures InBounds(CopyOps(dst, src, n), size)
    ensures forall i | 0 <= i < n :: CopyOps(dst, src, n)[i] == Copy(dst + i, src + i)
  {
    if n != 0 {
      CopyInBounds(dst, src, n - 1, size);
    }
  }

  lemma {:induction false} ZeroInBounds(dst: Addr, n: nat, size: nat)
    requires Fits(dst, n, size)
    ensures InBounds(ZeroOps(dst, n), size)
    ensures forall i | 0 <= i < n :: ZeroOps(dst, n)[i] == Put(dst + i, 0)
  {
    if n != 0 {
      ZeroInBounds(dst, n - 1, size);
    }
  }

  lemma {:induction false} CompareInBounds(sc: Addr, a: Addr, b: Addr, n: nat, size: nat)
    requires sc < size && Fits(a, n, size) && Fits(b, n, size)
    ensures InBounds(CompareOps(sc, a, b, n), size)
  {
    if n != 0 {
      CompareInBounds(sc, a, b, n - 1, size);
    }
  }

  lemma {:induction false} GatherInBounds(at: Addr, segs: seq<Segment>, k: nat, size: nat)
    requires k <= |segs| && SegmentsFit(segs, size) && Fits(at, Len(segs, k), size)
    ensures InBounds(GatherOps(at, segs, k), size)
  {
    if k != 0 {
      GatherInBounds(at, segs, k - 1, size);
      CopyInBounds(at + Len(segs, k - 1), segs[k - 1].base, segs[k - 1].len, size);
    }
  }

  lemma {:induction false} ScatterInBounds(at: Addr, segs: seq<Segment>, k: nat, size: nat)
    requires k <= |segs| && SegmentsFit(segs, size) && Fits(at, Len(segs, k), size)
    ensures InBounds(ScatterOps(at, segs, k), size)
  {
    if k != 0 {
      ScatterInBounds(at, segs, k - 1, size);
      CopyInBounds(segs[k - 1].base, at + Len(segs, k - 1), segs[k - 1].len, size);
    }
  }

  lemma ContigInBounds(d: Device, c: Cmd, m: Mem)
    requires c.payload.Contig? && DescriptorsFit(c, |m|) && !c.meta
    requires ContigWellFormed(d, c, m) && d.base + d.size <= |m| && c.sc < |m|
    ensures InBounds(ContigProg(d, m, c), |m|)
  {
    var at, buf, n := DiskAddr(d, c), c.payload.dbuf, c.payload.nbytes;
    if c.opcode == NVM_SCOPY {
      SegmentsFitMore(CopySources(d, m, c), d.base + d.size, |m|);
      GatherInBounds(at, CopySources(d, m, c), c.nr + 1, |m|);
    } else if c.opcode == NVM_WRITE_ZEROES {
      ZeroInBounds(at, ZeroLen(d, c), |m|);
    } else if c.opcode == NVM_COMPARE {
      CompareInBounds(c.sc, at, buf, n, |m|);
    } else if c.opcode == NVM_WRITE || c.opcode == FS_WRITE {
      CopyInBounds(at, buf, n, |m|);
    } else if c.opcode == NVM_READ || c.opcode == FS_READ {
      CopyInBounds(buf, at, n, |m|);
    }
  }

  lemma SegmentsFitMore(segs: seq<Segment>, n: nat, size: nat)
    requires SegmentsFit(segs, n) && n <= size
    ensures SegmentsFit(segs, size)
  {
    forall i | 0 <= i < |segs| ensures Fits(segs[i].base, segs[i].len, size) {
      assert Fits(segs[i].base, segs[i].len, n);
    }
  }

  /** A command whose caller kept the rules only touches memory that exists. */
  lemma ProgInBounds(d: Device, c: Cmd, m: Mem)
    requires WellFormed(d, c, m)
    ensures InBounds(Prog(d, m, c), |m|)
  {
    if !c.meta {
      match c.payload
      case Contig(_, _) => ContigInBounds(d, c, m);
      case Vectored(segs) =>
        if IsWrite(c) {
          GatherInBounds(DiskAddr(d, c), segs, |segs|, |m|);
        } else if IsRead(c) {
          ScatterInBounds(DiskAddr(d, c), segs, |segs|, |m|);
        }
    }
  }

  // ---------------------------------------------------------------------------------------------
  // Meaning of the commands

  predicate IsWrite(c: Cmd) {
    !c.meta && (c.opcode == NVM_WRITE || c.opcode == FS_WRITE)
  }

  predicate IsRead(c: Cmd) {
    !c.meta && (c.opcode == NVM_READ || c.opcode == FS_READ)
  }

  /** A vectored write leaves the same disk as one contiguous write of the same bytes to the same place. */
  lemma VectoredWriteIsContiguous(d: Device, v: Cmd, c: Cmd, m: Mem)
    requires IsWrite(v) && IsWrite(c) && v.payload.Vectored? && c.payload.Contig?
    requires WellFormed(d, v, m) && WellFormed(d, c, m) && DiskAddr(d, v) == DiskAddr(d, c)
    requires var segs := v.payload.segs;
      && c.payload.nbytes == TotalLen(segs)
      && AllApart(DiskAddr(d, v), TotalLen(segs), segs)
      && (forall j | 0 <= j < TotalLen(segs) ::
            NthFits(segs, |segs|, j, |m|) && m[c.payload.dbuf + j] == m[Nth(segs, |segs|, j)])
    ensures InBounds(Prog(d, m, v), |m|) && InBounds(Prog(d, m, c), |m|)
    ensures Run(m, Prog(d, m, v)) == Run(m, Prog(d, m, c))
  {
    var segs, at, buf := v.payload.segs, DiskAddr(d, v), c.payload.dbuf;
    GatherMeaning(m, at, segs, |segs|);
    CopyMeaning(m, at, buf, TotalLen(segs));
    var r, r' := Run(m, Prog(d, m, v)), Run(m, Prog(d, m, c));
    SameStore(m, r, r', at, segs, buf);
  }

  lemma SameStore(m: Mem, r: Mem, r': Mem, at: Addr, segs: seq<Segment>, buf: Addr)
    requires SegmentsFit(segs, |m|) && Fits(at, TotalLen(segs), |m|) && Fits(buf, TotalLen(segs), |m|)
    requires Gathered(m, r, at, segs, |segs|) && Moved(m, r', at, buf, TotalLen(segs))
    requires forall j | 0 <= j < TotalLen(segs) ::
               NthFits(segs, |segs|, j, |m|) && m[buf + j] == m[Nth(segs, |segs|, j)]
    ensures r == r'
  {
    forall a | 0 <= a < |m| ensures r[a] == r'[a] {
      if Within(at, TotalLen(segs), a) {
        assert NthFits(segs, |segs|, a - at, |m|);
      }
    }
  }

  /** A vectored read hands the segments, in order, the bytes that one contiguous read puts into its buffer,
      and changes nothing outside them. */
  lemma VectoredReadIsContiguous(d: Device, v: Cmd, c: Cmd, m: Mem)
    requires IsRead(v) && IsRead(c) && v.payload.Vectored? && c.payload.Contig?
    requires WellFormed(d, v, m) && WellFormed(d, c, m) && DiskAddr(d, v) == DiskAddr(d, c)
    requires var segs := v.payload.segs;
      c.payload.nbytes == TotalLen(segs) && AllApart(DiskAddr(d, v), TotalLen(segs), segs) && PairwiseApart(segs)
    ensures InBounds(Prog(d, m, v), |m|) && InBounds(Prog(d, m, c), |m|)
    ensures var segs := v.payload.segs;
      && (forall j | 0 <= j < TotalLen(segs) ::
            NthFits(segs, |segs|, j, |m|)
            && Run(m, Prog(d, m, v))[Nth(segs, |segs|, j)] == Run(m, Prog(d, m, c))[c.payload.dbuf + j])
      && (forall a | 0 <= a < |m| && Outside(segs, |segs|, a) :: Run(m, Prog(d, m, v))[a] == m[a])
  {
    var segs, at, buf := v.payload.segs, DiskAddr(d, v), c.payload.dbuf;
    ScatterMeaning(m, at, segs, |segs|);
    CopyMeaning(m, buf, at, TotalLen(segs));
    var r, r' := Run(m, Prog(d, m, v)), Run(m, Prog(d, m, c));
    forall j | 0 <= j < TotalLen(segs) ensures NthFits(segs, |segs|, j, |m|) && r[Nth(segs, |segs|, j)] == r'[buf + j] {
      assert NthFits(segs, |segs|, j, |m|) && Within(buf, TotalLen(segs), buf + j);
    }
  }

  /** Writing from one set of segments and reading back into another moves the bytes across, in order. */
  lemma VectoredRoundTrip(d: Device, w: Cmd, r: Cmd, m: Mem)
    requires IsWrite(w) && IsRead(r) && w.payload.Vectored? && r.payload.Vectored?
    requires WellFormed(d, w, m) && WellFormed(d, r, m) && DiskAddr(d, w) == DiskAddr(d, r)
    requires TotalLen(w.payload.segs) == TotalLen(r.payload.segs)
    requires AllApart(DiskAddr(d, w), TotalLen(w.payload.segs), w.payload.segs)
    requires AllApart(DiskAddr(d, r), TotalLen(r.payload.segs), r.payload.segs) && PairwiseApart(r.payload.segs)
    ensures InBounds(Prog(d, m, w), |m|)
    ensures var written := Run(m, Prog(d, m, w)); InBounds(Prog(d, written, r), |m|)
    ensures var written := Run(m, Prog(d, m, w));
      var after := Run(written, Prog(d, written, r));
      forall j | 0 <= j < TotalLen(w.payload.segs) ::
        && NthFits(r.payload.segs, |r.payload.segs|, j, |m|)
        && NthFits(w.payload.segs, |w.payload.segs|, j, |m|)
        && after[Nth(r.payload.segs, |r.payload.segs|, j)] == m[Nth(w.payload.segs, |w.payload.segs|, j)]
  {
    var ws, rs, at := w.payload.segs, r.payload.segs, DiskAddr(d, w);
    GatherMeaning(m, at, ws, |ws|);
    var m1 := Run(m, Prog(d, m, w));
    ScatterMeaning(m1, at, rs, |rs|);
    var m2 := Run(m1, Prog(d, m1, r));
    forall j | 0 <= j < TotalLen(ws)
      ensures NthFits(rs, |rs|, j, |m|) && NthFits(ws, |ws|, j, |m|) && m2[Nth(rs, |rs|, j)] == m[Nth(ws, |ws|, j)]
    {
      assert NthFits(rs, |rs|, j, |m1|);
      assert Within(at, TotalLen(ws), at + j);
    }
  }

  /** Simple copy with a destination apart from all its sources: the destination holds the original
      ranges one after the other, and every other byte is unchanged. */
  lemma SimpleCopyMeaning(d: Device, c: Cmd, m: Mem)
    requires !c.meta && c.opcode == NVM_SCOPY && c.payload.Contig? && WellFormed(d, c, m)
    requires var segs := CopySources(d, m, c); AllApart(DiskAddr(d, c), TotalLen(segs), segs)
    ensures InBounds(Prog(d, m, c), |m|)
    ensures SegmentsFit(CopySources(d, m, c), |m|)
    ensures Gathered(m, Run(m, Prog(d, m, c)), DiskAddr(d, c), CopySources(d, m, c), c.nr + 1)
  {
    var segs := CopySources(d, m, c);
    SegmentsFitMore(segs, d.base + d.size, |m|);
    GatherMeaning(m, DiskAddr(d, c), segs, c.nr + 1);
  }

  // ---------------------------------------------------------------------------------------------
  // The executor, in place

  /** The error a command ends with: zero when it succeeds. */
  ghost function Errno(d: Device, c: Cmd, m: Mem): int
    requires WellFormed(d, c, m)
  {
    if c.meta then -ENOTSUP
    else if c.opcode in {NVM_WRITE, FS_WRITE, NVM_READ, FS_READ, NVM_FLUSH, FS_FLUSH} then 0
    else if c.payload.Vectored? then -ENOSYS
    else if c.opcode in {NVM_WRITE_ZEROES, NVM_SCOPY, NVM_DATASET_MANAGEMENT} then 0
    else if c.opcode == NVM_COMPARE then
      (if SameBytes(m, DiskAddr(d, c), c.payload.dbuf, c.payload.nbytes) then 0 else -EIO)
    else -ENOSYS
  }

  class Machine {
    const mem: array<byte>

    constructor (size: nat)
      ensures fresh(mem) && mem.Length == size
    {
      mem := new byte[size];
    }

    method Memcpy(dst: Addr, src: Addr, n: nat)
      requires Fits(dst, n, mem.Length) && Fits(src, n, mem.Length) && Apart(dst, n, src, n)
      modifies mem
      ensures InBounds(CopyOps(dst, src, n), mem.Length)
      ensures mem[..] == Run(old(mem[..]), CopyOps(dst, src, n))
    {
      ghost var m0 := mem[..];
      CopyInBounds(dst, src, n, |m0|);
      ghost var p := CopyOps(dst, src, n);
      for i := 0 to n
        invariant mem[..] == RunTo(m0, p, i)
      {
        ghost var before := mem[..];
        mem[dst + i] := mem[src + i];
        assert p[i] == Copy(dst + i, src + i);
        assert mem[..] == Exec(before, p[i]);
      }
    }

    method Memset(dst: Addr, n: nat)
      requires Fits(dst, n, mem.Length)
      modifies mem
      ensures InBounds(ZeroOps(dst, n), mem.Length)
      ensures mem[..] == Run(old(mem[..]), ZeroOps(dst, n))
    {
      ghost var m0 := mem[..];
      ZeroInBounds(dst, n, |m0|);
      ghost var p := ZeroOps(dst, n);
      for i := 0 to n
        invariant mem[..] == RunTo(m0, p, i)
      {
        ghost var before := mem[..];
        mem[dst + i] := 0;
        assert p[i] == Put(dst + i, 0);
        assert mem[..] == Exec(before, p[i]);
      }
    }

    method Memcmp(a: Addr, b: Addr, n: nat) returns (same: bool)
      requires Fits(a, n, mem.Length) && Fits(b, n, mem.Length)
      ensures same == SameBytes(mem[..], a, b, n)
    {
      var i := 0;
      while i < n
        invariant 0 <= i <= n
        invariant forall k | Within(a, i, k) :: mem[k] == mem[b + (k - a)]
      {
        if mem[a + i] != mem[b + i] {
          assert Within(a, n, a + i);
          return false;
        }
        i := i + 1;
      }
      same := true;
    }

    method CmdIo(d: Device, c: Cmd) returns (err: int)
      requires WellFormed(d, c, mem[..]) && c.payload.Contig?
      modifies mem
      ensures err == Errno(d, c, old(mem[..]))
      ensures err != 0 ==> mem[..] == old(mem[..])
      ensures err == 0 ==> InBounds(Prog(d, old(mem[..]), c), mem.Length)
                           && mem[..] == Run(old(mem[..]), Prog(d, old(mem[..]), c))
    {
      if c.meta {
        return -ENOTSUP;
      }
      var at, buf, n := DiskAddr(d, c), c.payload.dbuf, c.payload.nbytes;
      err := 0;
      if c.opcode == NVM_WRITE || c.opcode == FS_WRITE {
        Memcpy(at, buf, n);
      } else if c.opcode == NVM_READ || c.opcode == FS_READ {
        Memcpy(buf, at, n);
      } else if c.opcode == NVM_WRITE_ZEROES {
        Memset(at, ZeroLen(d, c));
      } else if c.opcode == NVM_SCOPY {
        SimpleCopy(d, at, c.nr, buf);
      } else if c.opcode == NVM_FLUSH || c.opcode == FS_FLUSH || c.opcode == NVM_DATASET_MANAGEMENT {
      } else if c.opcode == NVM_COMPARE {
        var same := Memcmp(at, buf, n);
        if !same {
          return -EIO;
        }
        CompareMeaning(mem[..], c.sc, at, buf, n);
      } else {
        return -ENOSYS;
      }
    }

    method SimpleCopy(d: Device, at: Addr, nr: nat, buf: Addr)
      requires buf + DESCRIPTOR_BYTES * (nr + 1) <= mem.Length
      requires var segs := Sources(d, mem[..], buf, nr + 1);
        && SegmentsFit(segs, mem.Length)
        && Fits(at, TotalLen(segs), mem.Length)
        && PiecesApart(at, segs)
        && Apart(at, TotalLen(segs), buf, DESCRIPTOR_BYTES * (nr + 1))
      modifies mem
      ensures var segs := Sources(d, old(mem[..]), buf, nr + 1);
        && InBounds(GatherOps(at, segs, nr + 1), mem.Length)
        && mem[..] == Run(old(mem[..]), GatherOps(at, segs, nr + 1))
    {
      ghost var m0 := mem[..];
      ghost var segs := Sources(d, m0, buf, nr + 1);
      var i, off := 0, 0;
      while i <= nr
        invariant 0 <= i <= nr + 1 && off == Len(segs, i)
        invariant InBounds(GatherOps(at, segs, i), |m0|)
        invariant mem[..] == Run(m0, GatherOps(at, segs, i))
      {
        var nbytes := CopyRange(d, at + off, buf + DESCRIPTOR_BYTES * i, at, buf, nr + 1, m0, segs, i);
        off := off + nbytes;
        i := i + 1;
      }
    }

    /** One range: read its descriptor at `a` and copy its bytes to `dst`. */
    method CopyRange(d: Device, dst: Addr, a: Addr, ghost at: Addr, ghost buf: Addr, ghost n: nat, ghost m0: Mem,
                     ghost segs: seq<Segment>, ghost i: nat) returns (nbytes: nat)
      requires i < n == |segs| && |m0| == mem.Length && dst == at + Len(segs, i) && a == buf + DESCRIPTOR_BYTES * i
      requires buf + DESCRIPTOR_BYTES * n <= |m0| && Apart(at, TotalLen(segs), buf, DESCRIPTOR_BYTES * n)
      requires segs[i] == Source(d, RangeAt(m0, a))
      requires SegmentsFit(segs, mem.Length) && Fits(at, TotalLen(segs), mem.Length) && PiecesApart(at, segs)
      requires InBounds(GatherOps(at, segs, i), |m0|) && mem[..] == Run(m0, GatherOps(at, segs, i))
      modifies mem
      ensures nbytes == segs[i].len && InBounds(GatherOps(at, segs, i + 1), |m0|)
      ensures mem[..] == Run(m0, GatherOps(at, segs, i + 1))
    {
      GatherKeepsRange(m0, at, segs, i, buf, n);
      var r := ReadRange(a);
      var src := d.base + r.slba * Pow2(d.ssw);
      nbytes := (r.nlb + 1) * d.lbaNbytes;
      CopyPiece(dst, src, nbytes, at, m0, segs, i);
    }

    /** The descriptor at `a`, as memory stands. */
    method ReadRange(a: Addr) returns (r: Range)
      requires a + DESCRIPTOR_BYTES <= mem.Length
      ensures r == RangeAt(mem[..], a)
    {
      var slba := ReadNumber(a + 8, 8);
      var nlb := ReadNumber(a + 16, 2);
      r := Range(slba, nlb);
    }

    method ReadNumber(a: Addr, n: nat) returns (v: nat)
      requires a + n <= mem.Length
      ensures v == LittleEndian(mem[..], a, n)
    {
      v := 0;
      for i := n downto 0
        invariant v == LittleEndian(mem[..], a + i, n - i)
      {
        v := mem[a + i] + 256 * v;
      }
    }

    /** One more piece, behind the pieces before it. */
    method CopyPiece(dst: Addr, src: Addr, nbytes: nat, ghost at: Addr, ghost m0: Mem, ghost segs: seq<Segment>,
                     ghost i: nat)
      requires i < |segs| && segs[i] == Segment(src, nbytes) && dst == at + Len(segs, i) && |m0| == mem.Length
      requires SegmentsFit(segs, mem.Length) && Fits(at, TotalLen(segs), mem.Length) && PiecesApart(at, segs)
      requires InBounds(GatherOps(at, segs, i), |m0|) && mem[..] == Run(m0, GatherOps(at, segs, i))
      modifies mem
      ensures InBounds(GatherOps(at, segs, i + 1), |m0|)
      ensures mem[..] == Run(m0, GatherOps(at, segs, i + 1))
    {
      PieceFits(at, segs, i, mem.Length);
      GatherNext(m0, at, segs, i);
      Memcpy(dst, src, nbytes);
    }

    method CmdIov(d: Device, c: Cmd) returns (err: int)
      requires WellFormed(d, c, mem[..]) && c.payload.Vectored?
      modifies mem
      ensures err == Errno(d, c, old(mem[..]))
      ensures err != 0 ==> mem[..] == old(mem[..])
      ensures err == 0 ==> InBounds(Prog(d, old(mem[..]), c), mem.Length)
                           && mem[..] == Run(old(mem[..]), Prog(d, old(mem[..]), c))
    {
      if c.meta {
        return -ENOTSUP;
      }
      var at, segs := DiskAddr(d, c), c.payload.segs;
      err := 0;
      if c.opcode == NVM_WRITE || c.opcode == FS_WRITE {
        WriteSegments(at, segs);
      } else if c.opcode == NVM_READ || c.opcode == FS_READ {
        ReadSegments(at, segs);
      } else if c.opcode == NVM_FLUSH || c.opcode == FS_FLUSH {
      } else {
        return -ENOSYS;
      }
    }

    method WriteSegments(at: Addr, segs: seq<Segment>)
      requires Fits(at, TotalLen(segs), mem.Length) && SegmentsFit(segs, mem.Length) && PiecesApart(at, segs)
      modifies mem
      ensures InBounds(GatherOps(at, segs, |segs|), mem.Length)
      ensures mem[..] == Run(old(mem[..]), GatherOps(at, segs, |segs|))
    {
      ghost var m0 := mem[..];
      var offset := at;
      for i := 0 to |segs|
        invariant offset == at + Len(segs, i)
        invariant InBounds(GatherOps(at, segs, i), |m0|)
        invariant mem[..] == Run(m0, GatherOps(at, segs, i))
      {
        CopyPiece(offset, segs[i].base, segs[i].len, at, m0, segs, i);
        offset := offset + segs[i].len;
      }
    }

    method ReadSegments(at: Addr, segs: seq<Segment>)
      requires Fits(at, TotalLen(segs), mem.Length) && SegmentsFit(segs, mem.Length) && PiecesApart(at, segs)
      modifies mem
      ensures InBounds(ScatterOps(at, segs, |segs|), mem.Length)
      ensures mem[..] == Run(old(mem[..]), ScatterOps(at, segs, |segs|))
    {
      ghost var m0 := mem[..];
      var offset := at;
      for i := 0 to |segs|
        invariant offset == at + Len(segs, i)
        invariant InBounds(ScatterOps(at, segs, i), |m0|)
        invariant mem[..] == Run(m0, ScatterOps(at, segs, i))
      {
        FillPiece(segs[i].base, offset, segs[i].len, at, m0, segs, i);
        offset := offset + segs[i].len;
      }
    }

    /** One more segment, from behind the bytes that were handed out before. */
    method FillPiece(dst: Addr, src: Addr, nbytes: nat, ghost at: Addr, ghost m0: Mem, ghost segs: seq<Segment>,
                     ghost i: nat)
      requires i < |segs| && segs[i] == Segment(dst, nbytes) && src == at + Len(segs, i) && |m0| == mem.Length
      requires SegmentsFit(segs, mem.Length) && Fits(at, TotalLen(segs), mem.Length) && PiecesApart(at, segs)
      requires InBounds(ScatterOps(at, segs, i), |m0|) && mem[..] == Run(m0, ScatterOps(at, segs, i))
      modifies mem
      ensures InBounds(ScatterOps(at, segs, i + 1), |m0|)
      ensures mem[..] == Run(m0, ScatterOps(at, segs, i + 1))
    {
      PieceFits(at, segs, i, mem.Length);
      ScatterNext(m0, at, segs, i);
      Memcpy(dst, src, nbytes);
    }

    /** What a queue does with an entry it took: execute it, and store the error if there was one. For a command
        whose caller did not keep the rules C leaves the outcome open, and so does the contract. */
    method Execute(d: Device, c: Cmd)
      modifies mem
      ensures WellFormed(d, c, old(mem[..])) ==>
                && InBounds(Prog(d, old(mem[..]), c), mem.Length)
                && mem[..] == Run(old(mem[..]), Prog(d, old(mem[..]), c))
    {
      if WellFormed(d, c, mem[..]) {
        ExecuteWellFormed(d, c);
      }
    }

    method ExecuteWellFormed(d: Device, c: Cmd)
      requires WellFormed(d, c, mem[..])
      modifies mem
      ensures InBounds(Prog(d, old(mem[..]), c), mem.Length)
      ensures mem[..] == Run(old(mem[..]), Prog(d, old(mem[..]), c))
    {
      ghost var m0 := mem[..];
      ProgInBounds(d, c, m0);
      var err;
      if c.payload.Vectored? {
        err := CmdIov(d, c);
      } else {
        err := CmdIo(d, c);
      }
      if err != 0 {
        if mem[c.sc] == 0 {
          mem[c.sc] := StatusCode(err);
        }
        FailureMeaning(d, c, m0);
      }
    }
  }

  /** Memory that agrees on a stretch holds the same number there. */
  lemma {:induction false} SameNumber(m: Mem, m': Mem, a: Addr, n: nat)
    requires a + n <= |m| == |m'| && forall x | Within(a, n, x) :: m[x] == m'[x]
    ensures LittleEndian(m, a, n) == LittleEndian(m', a, n)
    decreases n
  {
    if n != 0 {
      assert Within(a, n, a);
      forall x | Within(a + 1, n - 1, x) ensures m[x] == m'[x] { assert Within(a, n, x); }
      SameNumber(m, m', a + 1, n - 1);
    }
  }

  lemma SameRange(m: Mem, m': Mem, a: Addr)
    requires a + DESCRIPTOR_BYTES <= |m| == |m'| && forall x | Within(a, DESCRIPTOR_BYTES, x) :: m[x] == m'[x]
    ensures RangeAt(m, a) == RangeAt(m', a)
  {
    forall x | Within(a + 8, 8, x) || Within(a + 16, 2, x) ensures m[x] == m'[x] {
      assert Within(a, DESCRIPTOR_BYTES, x);
    }
    SameNumber(m, m', a + 8, 8);
    SameNumber(m, m', a + 16, 2);
  }

  lemma {:induction false} CopyTarget(dst: Addr, src: Addr, n: nat, i: nat)
    requires i < n
    ensures Target(CopyOps(dst, src, n)[i]) == dst + i
    decreases n
  {
    if i < n - 1 {
      CopyTarget(dst, src, n - 1, i);
    }
  }

  lemma {:induction false} GatherTarget(at: Addr, segs: seq<Segment>, k: nat, i: nat)
    requires k <= |segs| && i < |GatherOps(at, segs, k)|
    ensures Within(at, Len(segs, k), Target(GatherOps(at, segs, k)[i]))
    decreases k
  {
    var p := GatherOps(at, segs, k - 1);
    if i < |p| {
      GatherTarget(at, segs, k - 1, i);
    } else {
      CopyTarget(at + Len(segs, k - 1), segs[k - 1].base, segs[k - 1].len, i - |p|);
    }
  }

  /** Gathering changes nothing outside its destination. */
  lemma GatherKeeps(m: Mem, at: Addr, segs: seq<Segment>, k: nat, x: Addr)
    requires k <= |segs| && InBounds(GatherOps(at, segs, k), |m|) && x < |m| && !Within(at, Len(segs, k), x)
    ensures Run(m, GatherOps(at, segs, k))[x] == m[x]
  {
    var p := GatherOps(at, segs, k);
    forall i | 0 <= i < |p| ensures Target(p[i]) != x {
      GatherTarget(at, segs, k, i);
    }
    RunToKeeps(m, p, |p|, x);
  }

  lemma GatherKeepsRange(m: Mem, at: Addr, segs: seq<Segment>, k: nat, buf: Addr, n: nat)
    requires k < n && k <= |segs| && SegmentsFit(segs, |m|) && Fits(at, TotalLen(segs), |m|) && PiecesApart(at, segs)
    requires buf + DESCRIPTOR_BYTES * n <= |m| && Apart(at, TotalLen(segs), buf, DESCRIPTOR_BYTES * n)
    ensures InBounds(GatherOps(at, segs, k), |m|)
    ensures var a := buf + DESCRIPTOR_BYTES * k; RangeAt(Run(m, GatherOps(at, segs, k)), a) == RangeAt(m, a)
  {
    LenMonotone(segs, k, |segs|);
    GatherInBounds(at, segs, k, |m|);
    var m', a := Run(m, GatherOps(at, segs, k)), buf + DESCRIPTOR_BYTES * k;
    forall x | Within(a, DESCRIPTOR_BYTES, x) ensures m'[x] == m[x] {
      GatherKeeps(m, at, segs, k, x);
    }
    SameRange(m', m, a);
  }

  lemma GatherNext(m: Mem, at: Addr, segs: seq<Segment>, i: nat)
    requires i < |segs| && InBounds(GatherOps(at, segs, i), |m|)
    requires Fits(at + Len(segs, i), segs[i].len, |m|) && Fits(segs[i].base, segs[i].len, |m|)
    ensures InBounds(CopyOps(at + Len(segs, i), segs[i].base, segs[i].len), |m|)
    ensures InBounds(GatherOps(at, segs, i + 1), |m|)
    ensures Run(m, GatherOps(at, segs, i + 1)) ==
            Run(Run(m, GatherOps(at, segs, i)), CopyOps(at + Len(segs, i), segs[i].base, segs[i].len))
  {
    CopyInBounds(at + Len(segs, i), segs[i].base, segs[i].len, |m|);
    RunAppend(m, GatherOps(at, segs, i), CopyOps(at + Len(segs, i), segs[i].base, segs[i].len));
  }

  lemma ScatterNext(m: Mem, at: Addr, segs: seq<Segment>, i: nat)
    requires i < |segs| && InBounds(ScatterOps(at, segs, i), |m|)
    requires Fits(at + Len(segs, i), segs[i].len, |m|) && Fits(segs[i].base, segs[i].len, |m|)
    ensures InBounds(CopyOps(segs[i].base, at + Len(segs, i), segs[i].len), |m|)
    ensures InBounds(ScatterOps(at, segs, i + 1), |m|)
    ensures Run(m, ScatterOps(at, segs, i + 1)) ==
            Run(Run(m, ScatterOps(at, segs, i)), CopyOps(segs[i].base, at + Len(segs, i), segs[i].len))
  {
    CopyInBounds(segs[i].base, at + Len(segs, i), segs[i].len, |m|);
    RunAppend(m, ScatterOps(at, segs, i), CopyOps(segs[i].base, at + Len(segs, i), segs[i].len));
  }

  lemma PieceFits(at: Addr, segs: seq<Segment>, i: nat, size: nat)
    requires i < |segs| && SegmentsFit(segs, size) && Fits(at, TotalLen(segs), size) && PiecesApart(at, segs)
    ensures Fits(at + Len(segs, i), segs[i].len, size) && Fits(segs[i].base, segs[i].len, size)
    ensures Apart(at + Len(segs, i), segs[i].len, segs[i].base, segs[i].len)
  {
    LenMonotone(segs, i + 1, |segs|);
    assert PieceApart(at, segs, i);
  }

  /** A failing command changes nothing but its own status. */
  lemma FailureMeaning(d: Device, c: Cmd, m: Mem)
    requires WellFormed(d, c, m) && Errno(d, c, m) != 0
    ensures InBounds(Prog(d, m, c), |m|)
    ensures Run(m, Prog(d, m, c)) == Raised(m, c.sc, StatusCode(Errno(d, c, m)))
  {
    if !c.meta && c.payload.Contig? && c.opcode == NVM_COMPARE {
      CompareMeaning(m, c.sc, DiskAddr(d, c), c.payload.dbuf, c.payload.nbytes);
    } else {
      var v := StatusCode(Errno(d, c, m));
      assert Prog(d, m, c) == [Raise(c.sc, v)];
      assert InBounds([], |m|) && [] + [Raise(c.sc, v)] == [Raise(c.sc, v)];
      ThenOne(m, [], Raise(c.sc, v));
    }
  }
}
