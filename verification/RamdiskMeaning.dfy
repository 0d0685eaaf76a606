/**
 What the commands of the ramdisk do to its bytes, told by the fields of the command and the bytes of memory alone:
 block `b` of the disk is the `2^ssw` bytes from `base + b * 2^ssw` on, and file commands count bytes. Every law takes
 what the caller has to see to, the ranges being there and apart, and gives the whole memory afterwards.
 */
module RamdiskMeaning {
  import opened Arith
  import opened Common
  import opened Memory
  import opened Ramdisk

  /** Memory after a command. */
  ghost function Done(d: Device, c: Cmd, m: Mem): Mem
    requires WellFormed(d, c, m)
  {
    ProgInBounds(d, c, m);
    Run(m, Prog(d, m, c))
  }

  /** `m` with `bytes` at `at`. */
  function Spliced(m: Mem, at: Addr, bytes: Mem): (r: Mem)
    requires at + |bytes| <= |m|
    ensures |r| == |m| && r[at..at + |bytes|] == bytes
  {
    m[..at] + bytes + m[at + |bytes|..]
  }

  /** Told byte by byte. */
  lemma IsSpliced(m: Mem, r: Mem, at: Addr, bytes: Mem)
    requires at + |bytes| <= |m| == |r|
    requires forall a | at <= a < at + |bytes| :: r[a] == bytes[a - at]
    requires forall a | 0 <= a < |m| && !(at <= a < at + |bytes|) :: r[a] == m[a]
    ensures r == Spliced(m, at, bytes)
  {
  }

  // ---------------------------------------------------------------------------------------------
  // Transfers

  /** A transfer of `n` bytes between the disk at `at` and the buffer of a command: both are there, they do not
      overlap, and the status of the command is in neither. */
  predicate Transferable(d: Device, c: Cmd, m: Mem, at: Addr, n: nat) {
    && c.payload.Contig? && c.payload.nbytes == n && !c.meta
    && at + n <= d.base + d.size <= |m| && c.payload.dbuf + n <= |m| && c.sc < |m|
    && (at + n <= c.payload.dbuf || c.payload.dbuf + n <= at)
    && !(at <= c.sc < at + n) && !(c.payload.dbuf <= c.sc < c.payload.dbuf + n)
  }

  lemma MovedIsSpliced(m: Mem, r: Mem, dst: Addr, src: Addr, n: nat)
    requires dst + n <= |m| && src + n <= |m| && Moved(m, r, dst, src, n)
    ensures r == Spliced(m, dst, m[src..src + n])
  {
    forall a | 0 <= a < |m| ensures r[a] == Spliced(m, dst, m[src..src + n])[a] {
      assert Within(dst, n, a) ==> r[a] == m[src + (a - dst)];
    }
  }

  lemma StoreBytes(d: Device, c: Cmd, m: Mem, at: Addr, n: nat)
    requires (c.opcode == NVM_WRITE || c.opcode == FS_WRITE) && at == DiskAddr(d, c) && Transferable(d, c, m, at, n)
    ensures WellFormed(d, c, m) && Done(d, c, m) == Spliced(m, at, m[c.payload.dbuf..c.payload.dbuf + n])
  {
    CopyMeaning(m, at, c.payload.dbuf, n);
    MovedIsSpliced(m, Done(d, c, m), at, c.payload.dbuf, n);
  }

  lemma LoadBytes(d: Device, c: Cmd, m: Mem, at: Addr, n: nat)
    requires (c.opcode == NVM_READ || c.opcode == FS_READ) && at == DiskAddr(d, c) && Transferable(d, c, m, at, n)
    ensures WellFormed(d, c, m) && Done(d, c, m) == Spliced(m, c.payload.dbuf, m[at..at + n])
  {
    CopyMeaning(m, c.payload.dbuf, at, n);
    MovedIsSpliced(m, Done(d, c, m), c.payload.dbuf, at, n);
  }

  /** Write, opcode 0x01: the buffer goes to the block given, and nothing else changes. */
  lemma WriteBlocks(d: Device, c: Cmd, m: Mem, at: Addr, n: nat)
    requires c.opcode == 0x01 && at == d.base + c.slba * Pow2(d.ssw) && Transferable(d, c, m, at, n)
    ensures WellFormed(d, c, m) && Done(d, c, m) == Spliced(m, at, m[c.payload.dbuf..c.payload.dbuf + n])
  {
    StoreBytes(d, c, m, at, n);
  }

  /** Read, opcode 0x02: the block given comes into the buffer. */
  lemma ReadBlocks(d: Device, c: Cmd, m: Mem, at: Addr, n: nat)
    requires c.opcode == 0x02 && at == d.base + c.slba * Pow2(d.ssw) && Transferable(d, c, m, at, n)
    ensures WellFormed(d, c, m) && Done(d, c, m) == Spliced(m, c.payload.dbuf, m[at..at + n])
  {
    LoadBytes(d, c, m, at, n);
  }

  /** File write, opcode 0xAC: the buffer goes to the byte given. */
  lemma WriteFile(d: Device, c: Cmd, m: Mem, at: Addr, n: nat)
    requires c.opcode == 0xAC && at == d.base + c.slba && Transferable(d, c, m, at, n)
    ensures WellFormed(d, c, m) && Done(d, c, m) == Spliced(m, at, m[c.payload.dbuf..c.payload.dbuf + n])
  {
    StoreBytes(d, c, m, at, n);
  }

  /** File read, opcode 0xDC: the bytes from the one given on come into the buffer. */
  lemma ReadFile(d: Device, c: Cmd, m: Mem, at: Addr, n: nat)
    requires c.opcode == 0xDC && at == d.base + c.slba && Transferable(d, c, m, at, n)
    ensures WellFormed(d, c, m) && Done(d, c, m) == Spliced(m, c.payload.dbuf, m[at..at + n])
  {
    LoadBytes(d, c, m, at, n);
  }

  /** What is stored at a block is found, by a file read, at the byte where the block begins. */
  lemma BlockIsFile(d: Device, w: Cmd, r: Cmd, m: Mem, at: Addr, n: nat)
    requires w.opcode == 0x01 && r.opcode == 0xDC && r.slba == w.slba * Pow2(d.ssw) && at == d.base + r.slba
    requires Transferable(d, w, m, at, n) && Transferable(d, r, m, at, n)
    ensures WellFormed(d, w, m) && WellFormed(d, r, Done(d, w, m)) && |Done(d, r, Done(d, w, m))| == |m|
    ensures Done(d, r, Done(d, w, m))[r.payload.dbuf..r.payload.dbuf + n] == m[w.payload.dbuf..w.payload.dbuf + n]
  {
    WriteBlocks(d, w, m, at, n);
    ReadFile(d, r, Done(d, w, m), at, n);
  }

  /** What a file write stores at the byte where a block begins is found there by a read of that block. */
  lemma FileIsBlock(d: Device, w: Cmd, r: Cmd, m: Mem, at: Addr, n: nat)
    requires w.opcode == 0xAC && r.opcode == 0x02 && w.slba == r.slba * Pow2(d.ssw) && at == d.base + w.slba
    requires Transferable(d, w, m, at, n) && Transferable(d, r, m, at, n)
    ensures WellFormed(d, w, m) && WellFormed(d, r, Done(d, w, m)) && |Done(d, r, Done(d, w, m))| == |m|
    ensures Done(d, r, Done(d, w, m))[r.payload.dbuf..r.payload.dbuf + n] == m[w.payload.dbuf..w.payload.dbuf + n]
  {
    WriteFile(d, w, m, at, n);
    ReadBlocks(d, r, Done(d, w, m), at, n);
  }

  // ---------------------------------------------------------------------------------------------
  // Clearing and comparing

  /** Write zeroes, opcode 0x08: one block more than the zero-based count is cleared. */
  lemma ClearBlocks(d: Device, c: Cmd, m: Mem, at: Addr, n: nat)
    requires c.opcode == 0x08 && c.payload.Contig? && !c.meta && c.sc < |m|
    requires at == d.base + c.slba * Pow2(d.ssw) && n == (c.nlb + 1) * d.lbaNbytes && at + n <= d.base + d.size <= |m|
    ensures WellFormed(d, c, m) && Done(d, c, m) == Spliced(m, at, seq(n, _ => 0))
  {
    ZeroMeaning(m, at, n);
    var r, z := Done(d, c, m), Spliced(m, at, seq(n, _ => 0));
    assert Zeroed(m, r, at, n);
    forall a | 0 <= a < |m| ensures r[a] == z[a] {
      assert Within(at, n, a) ==> r[a] == 0;
    }
  }

  lemma CompareBytes(d: Device, c: Cmd, m: Mem, at: Addr, n: nat)
    requires c.opcode == NVM_COMPARE && at == DiskAddr(d, c) && Transferable(d, c, m, at, n)
    ensures WellFormed(d, c, m)
    ensures Done(d, c, m) == if SameBytes(m, at, c.payload.dbuf, n) then m else Raised(m, c.sc, StatusCode(-EIO))
  {
    CompareMeaning(m, c.sc, at, c.payload.dbuf, n);
  }

  /** Compare, opcode 0x05: memory stands, but for a status that was zero when block and buffer differ. That becomes
      251, which is minus five in eight bits. */
  lemma CompareBlocks(d: Device, c: Cmd, m: Mem, at: Addr, n: nat)
    requires c.opcode == 0x05 && at == d.base + c.slba * Pow2(d.ssw) && Transferable(d, c, m, at, n)
    ensures WellFormed(d, c, m)
    ensures Done(d, c, m) ==
            if m[at..at + n] == m[c.payload.dbuf..c.payload.dbuf + n] || m[c.sc] != 0 then m else m[c.sc := 251]
  {
    CompareBytes(d, c, m, at, n);
    SameSlices(m, at, c.payload.dbuf, n);
  }

  lemma SameSlices(m: Mem, a: Addr, b: Addr, n: nat)
    requires a + n <= |m| && b + n <= |m|
    ensures SameBytes(m, a, b, n) <==> m[a..a + n] == m[b..b + n]
  {
    if m[a..a + n] == m[b..b + n] {
      forall i | Within(a, n, i) ensures m[i] == m[b + (i - a)] {
        assert m[a..a + n][i - a] == m[b..b + n][i - a];
      }
    }
  }

  // ---------------------------------------------------------------------------------------------
  // Pieces

  /** The bytes of the first `k` segments, one after the other. */
  function Joined(m: Mem, segs: seq<Segment>, k: nat): (bytes: Mem)
    requires k <= |segs| && forall i | 0 <= i < k :: segs[i].base + segs[i].len <= |m|
    ensures |bytes| == Len(segs, k)
  {
    if k == 0 then [] else Joined(m, segs, k - 1) + m[segs[k - 1].base..segs[k - 1].base + segs[k - 1].len]
  }

  lemma {:induction false} JoinedAt(m: Mem, segs: seq<Segment>, k: nat, j: nat)
    requires k <= |segs| && (forall i | 0 <= i < k :: segs[i].base + segs[i].len <= |m|) && j < Len(segs, k)
    ensures Nth(segs, k, j) < |m| && Joined(m, segs, k)[j] == m[Nth(segs, k, j)]
    decreases k
  {
    if j < Len(segs, k - 1) {
      JoinedAt(m, segs, k - 1, j);
    }
  }

  /** Byte `j` of the segments, taken together, is `bytes[j]`. */
  predicate ByteOf(m: Mem, segs: seq<Segment>, bytes: Mem, j: nat)
    requires |bytes| == TotalLen(segs)
  {
    j < |bytes| && Nth(segs, |segs|, j) < |m| && bytes[j] == m[Nth(segs, |segs|, j)]
  }

  lemma GatheredBytes(m: Mem, r: Mem, at: Addr, segs: seq<Segment>, bytes: Mem)
    requires SegmentsFit(segs, |m|) && Fits(at, TotalLen(segs), |m|) && Gathered(m, r, at, segs, |segs|)
    requires |bytes| == TotalLen(segs) && forall j | 0 <= j < |bytes| :: ByteOf(m, segs, bytes, j)
    ensures r == Spliced(m, at, bytes)
  {
    forall a | at <= a < at + |bytes| ensures r[a] == bytes[a - at] {
      assert Within(at, |bytes|, a) && ByteOf(m, segs, bytes, a - at);
    }
    forall a | 0 <= a < |m| && !(at <= a < at + |bytes|) ensures r[a] == m[a] {
      assert !Within(at, |bytes|, a);
    }
    IsSpliced(m, r, at, bytes);
  }

  lemma GatheredIsSpliced(m: Mem, r: Mem, at: Addr, segs: seq<Segment>)
    requires SegmentsFit(segs, |m|) && Fits(at, TotalLen(segs), |m|) && Gathered(m, r, at, segs, |segs|)
    ensures r == Spliced(m, at, Joined(m, segs, |segs|))
  {
    var bytes := Joined(m, segs, |segs|);
    forall j | 0 <= j < |bytes| ensures ByteOf(m, segs, bytes, j) {
      JoinedAt(m, segs, |segs|, j);
    }
    GatheredBytes(m, r, at, segs, bytes);
  }

  lemma ScatteredIsJoined(m: Mem, r: Mem, at: Addr, segs: seq<Segment>)
    requires SegmentsFit(segs, |m|) && Fits(at, TotalLen(segs), |m|) && Scattered(m, r, at, segs, |segs|)
    ensures |r| == |m| && Joined(r, segs, |segs|) == m[at..at + TotalLen(segs)]
  {
    forall j | 0 <= j < TotalLen(segs) ensures Joined(r, segs, |segs|)[j] == m[at..at + TotalLen(segs)][j] {
      JoinedAt(r, segs, |segs|, j);
      assert NthFits(segs, |segs|, j, |m|);
    }
  }

  /** Pieces of a stretch that is apart from every segment are apart from theirs. */
  lemma PiecesOfApart(at: Addr, segs: seq<Segment>)
    requires AllApart(at, TotalLen(segs), segs)
    ensures PiecesApart(at, segs)
  {
    forall i | 0 <= i < |segs| ensures PieceApart(at, segs, i) {
      LenMonotone(segs, i + 1, |segs|);
      assert Apart(at, TotalLen(segs), segs[i].base, segs[i].len);
    }
  }

  // ---------------------------------------------------------------------------------------------
  // Vectored transfers

  /** Segments and a stretch of the disk that are there and apart. */
  ghost predicate VectoredTransfer(d: Device, c: Cmd, m: Mem, at: Addr, segs: seq<Segment>) {
    && c.payload == Vectored(segs) && !c.meta && c.sc < |m| && SegmentsFit(segs, |m|)
    && at + TotalLen(segs) <= d.base + d.size <= |m| && AllApart(at, TotalLen(segs), segs)
  }

  lemma StoreVectored(d: Device, c: Cmd, m: Mem, at: Addr, segs: seq<Segment>)
    requires (c.opcode == NVM_WRITE || c.opcode == FS_WRITE) && at == DiskAddr(d, c)
    requires VectoredTransfer(d, c, m, at, segs)
    ensures WellFormed(d, c, m) && Done(d, c, m) == Spliced(m, at, Joined(m, segs, |segs|))
  {
    PiecesOfApart(at, segs);
    GatherMeaning(m, at, segs, |segs|);
    GatheredIsSpliced(m, Done(d, c, m), at, segs);
  }

  lemma LoadVectored(d: Device, c: Cmd, m: Mem, at: Addr, segs: seq<Segment>)
    requires (c.opcode == NVM_READ || c.opcode == FS_READ) && at == DiskAddr(d, c)
    requires VectoredTransfer(d, c, m, at, segs) && PairwiseApart(segs)
    ensures WellFormed(d, c, m) && Scattered(m, Done(d, c, m), at, segs, |segs|)
  {
    PiecesOfApart(at, segs);
    ScatterMeaning(m, at, segs, |segs|);
  }

  /** Write, opcode 0x01, and file write, 0xAC, with segments: they go to the disk one after the other. */
  lemma WriteVectored(d: Device, c: Cmd, m: Mem, at: Addr, segs: seq<Segment>)
    requires (c.opcode == 0x01 && at == d.base + c.slba * Pow2(d.ssw)) || (c.opcode == 0xAC && at == d.base + c.slba)
    requires VectoredTransfer(d, c, m, at, segs)
    ensures WellFormed(d, c, m) && Done(d, c, m) == Spliced(m, at, Joined(m, segs, |segs|))
  {
    StoreVectored(d, c, m, at, segs);
  }

  /** Read, opcode 0x02, and file read, 0xDC, with segments: joined, they are what was on the disk, and no byte
      outside them changes. */
  lemma ReadVectored(d: Device, c: Cmd, m: Mem, at: Addr, segs: seq<Segment>)
    requires (c.opcode == 0x02 && at == d.base + c.slba * Pow2(d.ssw)) || (c.opcode == 0xDC && at == d.base + c.slba)
    requires VectoredTransfer(d, c, m, at, segs) && PairwiseApart(segs)
    ensures WellFormed(d, c, m) && |Done(d, c, m)| == |m|
    ensures Joined(Done(d, c, m), segs, |segs|) == m[at..at + TotalLen(segs)]
    ensures forall a | 0 <= a < |m| && Outside(segs, |segs|, a) :: Done(d, c, m)[a] == m[a]
  {
    LoadVectored(d, c, m, at, segs);
    ScatteredIsJoined(m, Done(d, c, m), at, segs);
  }

  // ---------------------------------------------------------------------------------------------
  // Simple copy

  /** The eight bytes at `a`, least significant first. */
  function Word64(m: Mem, a: Addr): nat
    requires a + 8 <= |m|
  {
    var at := (k: nat) requires a + k < |m| => m[a + k] as int;
    at(0) + 0x100 * at(1) + 0x1_0000 * at(2) + 0x100_0000 * at(3) + 0x1_0000_0000 * at(4)
    + 0x100_0000_0000 * at(5) + 0x1_0000_0000_0000 * at(6) + 0x100_0000_0000_0000 * at(7)
  }

  lemma Word64Is(m: Mem, a: Addr)
    requires a + 8 <= |m|
    ensures LittleEndian(m, a, 8) == Word64(m, a)
  {
    assert LittleEndian(m, a + 8, 0) == 0;
    assert LittleEndian(m, a + 7, 1) == m[a + 7];
    assert LittleEndian(m, a + 6, 2) == m[a + 6] + 256 * LittleEndian(m, a + 7, 1);
    assert LittleEndian(m, a + 5, 3) == m[a + 5] + 256 * LittleEndian(m, a + 6, 2);
    assert LittleEndian(m, a + 4, 4) == m[a + 4] + 256 * LittleEndian(m, a + 5, 3);
    assert LittleEndian(m, a + 3, 5) == m[a + 3] + 256 * LittleEndian(m, a + 4, 4);
    assert LittleEndian(m, a + 2, 6) == m[a + 2] + 256 * LittleEndian(m, a + 3, 5);
    assert LittleEndian(m, a + 1, 7) == m[a + 1] + 256 * LittleEndian(m, a + 2, 6);
  }

  /** The descriptor at `a` describes the segment: its first block in bytes 8 to 15, and one less than its number of
      blocks in bytes 16 and 17. */
  predicate Describes(d: Device, m: Mem, a: Addr, s: Segment) {
    && a + 32 <= |m|
    && s.base == d.base + Word64(m, a + 8) * Pow2(d.ssw)
    && s.len == (m[a + 16] + 256 * m[a + 17] + 1) * d.lbaNbytes
  }

  lemma DescribedRange(d: Device, m: Mem, a: Addr, s: Segment)
    requires Describes(d, m, a, s)
    ensures Source(d, RangeAt(m, a)) == s
  {
    Word64Is(m, a + 8);
    assert LittleEndian(m, a + 18, 0) == 0;
    assert LittleEndian(m, a + 17, 1) == m[a + 17];
    assert LittleEndian(m, a + 16, 2) == m[a + 16] + 256 * LittleEndian(m, a + 17, 1);
  }

  lemma DescribedSources(d: Device, c: Cmd, m: Mem, segs: seq<Segment>)
    requires c.payload.Contig? && |segs| == c.nr + 1 && c.payload.dbuf + 32 * (c.nr + 1) <= |m|
    requires forall j | 0 <= j < |segs| :: Describes(d, m, c.payload.dbuf + 32 * j, segs[j])
    ensures c.payload.dbuf + DescriptorLen(c) <= |m| && CopySources(d, m, c) == segs
  {
    forall j | 0 <= j < |segs| ensures CopySources(d, m, c)[j] == segs[j] {
      DescribedRange(d, m, c.payload.dbuf + 32 * j, segs[j]);
    }
  }

  lemma CopySegments(d: Device, c: Cmd, m: Mem, at: Addr, segs: seq<Segment>)
    requires IsScopy(c) && at == DiskAddr(d, c) && WellFormed(d, c, m) && CopySources(d, m, c) == segs
    requires SegmentsFit(segs, d.base + d.size) && AllApart(at, TotalLen(segs), segs)
    ensures SegmentsFit(segs, |m|) && at + TotalLen(segs) <= |m|
    ensures Done(d, c, m) == Spliced(m, at, Joined(m, segs, |segs|))
  {
    SegmentsFitMore(segs, d.base + d.size, |m|);
    SimpleCopyMeaning(d, c, m);
    GatheredIsSpliced(m, Done(d, c, m), at, segs);
  }

  /** Simple copy, opcode 0x19: the ranges that the descriptors in the buffer describe go to the block given, one after
      the other. */
  lemma CopyBlocks(d: Device, c: Cmd, m: Mem, at: Addr, segs: seq<Segment>)
    requires c.opcode == 0x19 && at == d.base + c.slba * Pow2(d.ssw) && c.payload.Contig? && !c.meta && c.sc < |m|
    requires |segs| == c.nr + 1 && c.payload.dbuf + 32 * (c.nr + 1) <= |m|
    requires forall j | 0 <= j < |segs| :: Describes(d, m, c.payload.dbuf + 32 * j, segs[j])
    requires SegmentsFit(segs, d.base + d.size) && at + TotalLen(segs) <= d.base + d.size <= |m|
    requires AllApart(at, TotalLen(segs), segs) && Apart(at, TotalLen(segs), c.payload.dbuf, 32 * (c.nr + 1))
    ensures SegmentsFit(segs, |m|) && WellFormed(d, c, m) && Done(d, c, m) == Spliced(m, at, Joined(m, segs, |segs|))
  {
    DescribedSources(d, c, m, segs);
    PiecesOfApart(at, segs);
    CopySegments(d, c, m, at, segs);
  }

  // ---------------------------------------------------------------------------------------------
  // Commands that do nothing, and commands that are refused

  /** Flush, opcodes 0x00 and 0xAD, and dataset management, 0x09, which is not vectored. */
  lemma NothingDone(d: Device, c: Cmd, m: Mem)
    requires d.base + d.size <= |m| && c.sc < |m| && !c.meta
    requires c.opcode == 0x00 || c.opcode == 0xAD || (c.opcode == 0x09 && c.payload.Contig?)
    ensures WellFormed(d, c, m) && Done(d, c, m) == m
  {
  }

  /** A command with metadata gets status 161, minus 95 in eight bits; an opcode that is not supported, 218, minus 38.
      A status that is set already stays, and nothing else changes. */
  lemma CommandRefused(d: Device, c: Cmd, m: Mem)
    requires d.base + d.size <= |m| && c.sc < |m|
    requires c.meta || c.opcode !in {0x00, 0x01, 0x02, 0xAC, 0xAD, 0xDC}
    requires c.meta || c.payload.Vectored? || c.opcode !in {0x05, 0x08, 0x09, 0x19}
    ensures WellFormed(d, c, m)
    ensures Done(d, c, m) == if m[c.sc] != 0 then m else m[c.sc := if c.meta then 161 else 218]
  {
    FailureMeaning(d, c, m);
  }
}
