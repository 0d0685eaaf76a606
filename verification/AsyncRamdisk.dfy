/**
 The thread-pool queue on top of the ramdisk: which bytes a command reads and writes, and what
 becomes of the disk when the commands between two drains keep out of each other's way.
 */
module AsyncRamdisk {
  import opened Memory
  import opened Ramdisk
  import opened ThreadPool
  import opened ThreadPoolTheorems

  // ---------------------------------------------------------------------------------------------
  // Which bytes a command reads and writes

  ghost predicate InSegments(segs: seq<Segment>, a: Addr) {
    exists i :: 0 <= i < |segs| && Inside(segs[i], a)
  }

  /** Flushes and hints to the device touch nothing. */
  predicate IsIdle(c: Cmd) {
    && !c.meta
    && (c.opcode == NVM_FLUSH || c.opcode == FS_FLUSH || (c.payload.Contig? && c.opcode == NVM_DATASET_MANAGEMENT))
  }

  /** The bytes a command may write: the disk range of a write, the buffer of a read, its status. */
  ghost predicate CmdWrites(d: Device, m: Mem, c: Cmd, a: Addr)
    requires DescriptorsFit(c, |m|)
  {
    var at := DiskAddr(d, c);
    if IsIdle(c) then false
    else if c.meta then a == c.sc
    else if c.payload.Contig? then
      if IsWrite(c) then Within(at, c.payload.nbytes, a)
      else if IsRead(c) then Within(c.payload.dbuf, c.payload.nbytes, a)
      else if c.opcode == NVM_WRITE_ZEROES then Within(at, ZeroLen(d, c), a)
      else if c.opcode == NVM_SCOPY then Within(at, TotalLen(CopySources(d, m, c)), a)
      else a == c.sc && (c.opcode == NVM_COMPARE ==> c.payload.nbytes != 0)
    else if IsWrite(c) then Within(at, TotalLen(c.payload.segs), a)
    else if IsRead(c) then InSegments(c.payload.segs, a)
    else a == c.sc
  }

  /** The bytes a command may read; a simple copy also reads its descriptors. */
  ghost predicate CmdReads(d: Device, m: Mem, c: Cmd, a: Addr)
    requires DescriptorsFit(c, |m|)
  {
    var at := DiskAddr(d, c);
    if IsIdle(c) then false
    else if c.meta then a == c.sc
    else if c.payload.Contig? then
      if IsWrite(c) then Within(c.payload.dbuf, c.payload.nbytes, a)
      else if IsRead(c) then Within(at, c.payload.nbytes, a)
      else if c.opcode == NVM_SCOPY then
        Within(c.payload.dbuf, DescriptorLen(c), a) || InSegments(CopySources(d, m, c), a)
      else if c.opcode == NVM_COMPARE then
        Within(at, c.payload.nbytes, a) || Within(c.payload.dbuf, c.payload.nbytes, a)
      else if c.opcode == NVM_WRITE_ZEROES then false
      else a == c.sc
    else if IsWrite(c) then InSegments(c.payload.segs, a)
    else if IsRead(c) then Within(at, TotalLen(c.payload.segs), a)
    else a == c.sc
  }

  ghost predicate CmdTouches(d: Device, m: Mem, c: Cmd, a: Addr)
    requires DescriptorsFit(c, |m|)
  {
    CmdWrites(d, m, c, a) || CmdReads(d, m, c, a)
  }

  /** Neither command writes a byte the other one uses. */
  ghost predicate Disjoint(d: Device, m: Mem, b: Cmd, c: Cmd)
    requires DescriptorsFit(b, |m|) && DescriptorsFit(c, |m|)
  {
    forall a: Addr ::
      && (CmdWrites(d, m, b, a) ==> !CmdTouches(d, m, c, a))
      && (CmdWrites(d, m, c, a) ==> !CmdTouches(d, m, b, a))
  }

  /** Every operation of `p` writes inside `w` and touches nothing outside `w` and `r`. */
  ghost predicate Bounded(p: Program, w: iset<Addr>, r: iset<Addr>) {
    forall k | 0 <= k < |p| :: Target(p[k]) in w && forall a <- Footprint(p[k]) :: a in w || a in r
  }

  lemma BoundedAppend(p: Program, q: Program, w: iset<Addr>, r: iset<Addr>)
    requires Bounded(p, w, r) && Bounded(q, w, r)
    ensures Bounded(p + q, w, r)
  {
  }

  lemma {:induction false} CopyBounded(dst: Addr, src: Addr, n: nat, w: iset<Addr>, r: iset<Addr>)
    requires forall a: Addr | Within(dst, n, a) :: a in w
    requires forall a: Addr | Within(src, n, a) :: a in r
    ensures Bounded(CopyOps(dst, src, n), w, r)
  {
    if n != 0 {
      assert Within(dst, n, dst + n - 1) && Within(src, n, src + n - 1);
      forall a: Addr | Within(dst, n - 1, a) ensures a in w { assert Within(dst, n, a); }
      forall a: Addr | Within(src, n - 1, a) ensures a in r { assert Within(src, n, a); }
      CopyBounded(dst, src, n - 1, w, r);
    }
  }

  lemma {:induction false} ZeroBounded(dst: Addr, n: nat, w: iset<Addr>, r: iset<Addr>)
    requires forall a: Addr | Within(dst, n, a) :: a in w
    ensures Bounded(ZeroOps(dst, n), w, r)
  {
    if n != 0 {
      assert Within(dst, n, dst + n - 1);
      forall a: Addr | Within(dst, n - 1, a) ensures a in w { assert Within(dst, n, a); }
      ZeroBounded(dst, n - 1, w, r);
    }
  }

  lemma {:induction false} CompareBounded(sc: Addr, a: Addr, b: Addr, n: nat, w: iset<Addr>, r: iset<Addr>)
    requires n != 0 ==> sc in w
    requires forall x: Addr | Within(a, n, x) || Within(b, n, x) :: x in r
    ensures Bounded(CompareOps(sc, a, b, n), w, r)
  {
    if n != 0 {
      assert Within(a, n, a + n - 1) && Within(b, n, b + n - 1);
      forall x: Addr | Within(a, n - 1, x) || Within(b, n - 1, x) ensures x in r {
        assert Within(a, n, x) || Within(b, n, x);
      }
      CompareBounded(sc, a, b, n - 1, w, r);
    }
  }

  lemma {:induction false} GatherBounded(at: Addr, segs: seq<Segment>, k: nat, w: iset<Addr>, r: iset<Addr>)
    requires k <= |segs|
    requires forall a: Addr | Within(at, TotalLen(segs), a) :: a in w
    requires forall a: Addr | InSegments(segs, a) :: a in r
    ensures Bounded(GatherOps(at, segs, k), w, r)
  {
    if k != 0 {
      var s, l := segs[k - 1], Len(segs, k - 1);
      LenMonotone(segs, k, |segs|);
      GatherBounded(at, segs, k - 1, w, r);
      forall a: Addr | Within(at + l, s.len, a) ensures a in w { assert Within(at, TotalLen(segs), a); }
      forall a: Addr | Within(s.base, s.len, a) ensures a in r {
        assert Inside(segs[k - 1], a);
        assert InSegments(segs, a);
      }
      CopyBounded(at + l, s.base, s.len, w, r);
      BoundedAppend(GatherOps(at, segs, k - 1), CopyOps(at + l, s.base, s.len), w, r);
    }
  }

  lemma {:induction false} ScatterBounded(at: Addr, segs: seq<Segment>, k: nat, w: iset<Addr>, r: iset<Addr>)
    requires k <= |segs|
    requires forall a: Addr | Within(at, TotalLen(segs), a) :: a in r
    requires forall a: Addr | InSegments(segs, a) :: a in w
    ensures Bounded(ScatterOps(at, segs, k), w, r)
  {
    if k != 0 {
      var s, l := segs[k - 1], Len(segs, k - 1);
      LenMonotone(segs, k, |segs|);
      ScatterBounded(at, segs, k - 1, w, r);
      forall a: Addr | Within(at + l, s.len, a) ensures a in r { assert Within(at, TotalLen(segs), a); }
      forall a: Addr | Within(s.base, s.len, a) ensures a in w {
        assert Inside(segs[k - 1], a);
        assert InSegments(segs, a);
      }
      CopyBounded(s.base, at + l, s.len, w, r);
      BoundedAppend(ScatterOps(at, segs, k - 1), CopyOps(s.base, at + l, s.len), w, r);
    }
  }

  ghost function WriteSet(d: Device, m: Mem, c: Cmd): iset<Addr>
    requires DescriptorsFit(c, |m|)
  {
    iset a: Addr | CmdWrites(d, m, c, a)
  }

  ghost function ReadSet(d: Device, m: Mem, c: Cmd): iset<Addr>
    requires DescriptorsFit(c, |m|)
  {
    iset a: Addr | CmdReads(d, m, c, a)
  }

  /** A command stays inside the ranges its fields describe. */
  lemma CommandBounded(d: Device, m: Mem, c: Cmd)
    requires DescriptorsFit(c, |m|)
    ensures Bounded(Prog(d, m, c), WriteSet(d, m, c), ReadSet(d, m, c))
  {
    var at, w, r := DiskAddr(d, c), WriteSet(d, m, c), ReadSet(d, m, c);
    if !c.meta {
      match c.payload
      case Contig(buf, n) =>
        if IsWrite(c) {
          CopyBounded(at, buf, n, w, r);
        } else if IsRead(c) {
          CopyBounded(buf, at, n, w, r);
        } else if c.opcode == NVM_WRITE_ZEROES {
          ZeroBounded(at, ZeroLen(d, c), w, r);
        } else if c.opcode == NVM_SCOPY {
          GatherBounded(at, CopySources(d, m, c), c.nr + 1, w, r);
        } else if c.opcode == NVM_COMPARE {
          CompareBounded(c.sc, at, buf, n, w, r);
        }
      case Vectored(segs) =>
        if IsWrite(c) {
          GatherBounded(at, segs, |segs|, w, r);
        } else if IsRead(c) {
          ScatterBounded(at, segs, |segs|, w, r);
        }
    }
  }

  /** Every byte of `w` is written by some operation of `p`, and every byte of `r` is used by one. */
  ghost predicate Covers(p: Program, w: iset<Addr>, r: iset<Addr>) {
    (forall a: Addr | a in w :: WritesTo(p, a)) && (forall a: Addr | a in r :: Touches(p, a))
  }

  lemma CopyCovers(dst: Addr, src: Addr, n: nat, w: iset<Addr>, r: iset<Addr>)
    requires forall a: Addr | a in w :: Within(dst, n, a)
    requires forall a: Addr | a in r :: Within(src, n, a)
    ensures Covers(CopyOps(dst, src, n), w, r)
  {
    var p := CopyOps(dst, src, n);
    CopyInBounds(dst, src, n, dst + src + n);
    forall a: Addr | a in w ensures WritesTo(p, a) { assert Target(p[a - dst]) == a; }
    forall a: Addr | a in r ensures Touches(p, a) { assert a in Footprint(p[a - src]); }
  }

  lemma ZeroCovers(dst: Addr, n: nat, w: iset<Addr>, r: iset<Addr>)
    requires (forall a: Addr | a in w :: Within(dst, n, a)) && forall a: Addr :: a !in r
    ensures Covers(ZeroOps(dst, n), w, r)
  {
    var p := ZeroOps(dst, n);
    ZeroInBounds(dst, n, dst + n);
    forall a: Addr | a in w ensures WritesTo(p, a) { assert Target(p[a - dst]) == a; }
  }

  lemma {:induction false} CompareAt(sc: Addr, a: Addr, b: Addr, n: nat, i: nat)
    requires i < n
    ensures CompareOps(sc, a, b, n)[i].Differ? && CompareOps(sc, a, b, n)[i].sc == sc
    ensures CompareOps(sc, a, b, n)[i].a == a + i && CompareOps(sc, a, b, n)[i].b == b + i
    decreases n
  {
    if i < n - 1 {
      CompareAt(sc, a, b, n - 1, i);
    }
  }

  lemma CompareCovers(sc: Addr, a: Addr, b: Addr, n: nat, w: iset<Addr>, r: iset<Addr>)
    requires forall x: Addr | x in w :: x == sc && n != 0
    requires forall x: Addr | x in r :: Within(a, n, x) || Within(b, n, x)
    ensures Covers(CompareOps(sc, a, b, n), w, r)
  {
    var p := CompareOps(sc, a, b, n);
    forall x: Addr | x in w ensures WritesTo(p, x) {
      CompareAt(sc, a, b, n, 0);
      assert Target(p[0]) == x;
    }
    forall x: Addr | x in r ensures Touches(p, x) {
      var i := if Within(a, n, x) then x - a else x - b;
      CompareAt(sc, a, b, n, i);
      assert x in Footprint(p[i]);
    }
  }

  lemma {:induction false} GatherAt(at: Addr, segs: seq<Segment>, k: nat, i: nat, j: nat)
    requires i < k <= |segs| && j < segs[i].len
    ensures |GatherOps(at, segs, k)| == Len(segs, k) && Len(segs, i) + j < Len(segs, k)
    ensures GatherOps(at, segs, k)[Len(segs, i) + j] == Copy(at + Len(segs, i) + j, segs[i].base + j)
    decreases k
  {
    GatherLen(at, segs, k - 1);
    if i < k - 1 {
      GatherAt(at, segs, k - 1, i, j);
    } else {
      CopyInBounds(at + Len(segs, i), segs[i].base, segs[i].len, at + Len(segs, i) + segs[i].base + segs[i].len);
    }
  }

  lemma {:induction false} GatherLen(at: Addr, segs: seq<Segment>, k: nat)
    requires k <= |segs|
    ensures |GatherOps(at, segs, k)| == Len(segs, k)
  {
    if k != 0 {
      GatherLen(at, segs, k - 1);
    }
  }

  lemma {:induction false} ScatterAt(at: Addr, segs: seq<Segment>, k: nat, i: nat, j: nat)
    requires i < k <= |segs| && j < segs[i].len
    ensures |ScatterOps(at, segs, k)| == Len(segs, k) && Len(segs, i) + j < Len(segs, k)
    ensures ScatterOps(at, segs, k)[Len(segs, i) + j] == Copy(segs[i].base + j, at + Len(segs, i) + j)
    decreases k
  {
    ScatterLen(at, segs, k - 1);
    if i < k - 1 {
      ScatterAt(at, segs, k - 1, i, j);
    } else {
      CopyInBounds(segs[i].base, at + Len(segs, i), segs[i].len, at + Len(segs, i) + segs[i].base + segs[i].len);
    }
  }

  lemma {:induction false} ScatterLen(at: Addr, segs: seq<Segment>, k: nat)
    requires k <= |segs|
    ensures |ScatterOps(at, segs, k)| == Len(segs, k)
  {
    if k != 0 {
      ScatterLen(at, segs, k - 1);
    }
  }

  /** The segment that byte `j` of the first `k` ones lies in. */
  lemma {:induction false} FindPiece(segs: seq<Segment>, k: nat, j: nat) returns (i: nat)
    requires k <= |segs| && j < Len(segs, k)
    ensures i < k && Len(segs, i) <= j < Len(segs, i) + segs[i].len
    decreases k
  {
    if j >= Len(segs, k - 1) {
      i := k - 1;
    } else {
      i := FindPiece(segs, k - 1, j);
    }
  }

  lemma GatherCovers(at: Addr, segs: seq<Segment>, w: iset<Addr>, r: iset<Addr>)
    requires forall a: Addr | a in w :: Within(at, TotalLen(segs), a)
    requires forall a: Addr | a in r :: InSegments(segs, a)
    ensures Covers(GatherOps(at, segs, |segs|), w, r)
  {
    var p := GatherOps(at, segs, |segs|);
    forall a: Addr | a in w ensures WritesTo(p, a) {
      var i := FindPiece(segs, |segs|, a - at);
      GatherAt(at, segs, |segs|, i, a - at - Len(segs, i));
      assert Target(p[a - at]) == a;
    }
    forall a: Addr | a in r ensures Touches(p, a) {
      var i :| 0 <= i < |segs| && Inside(segs[i], a);
      GatherAt(at, segs, |segs|, i, a - segs[i].base);
      assert a in Footprint(p[Len(segs, i) + (a - segs[i].base)]);
    }
  }

  lemma ScatterCovers(at: Addr, segs: seq<Segment>, w: iset<Addr>, r: iset<Addr>)
    requires forall a: Addr | a in w :: InSegments(segs, a)
    requires forall a: Addr | a in r :: Within(at, TotalLen(segs), a)
    ensures Covers(ScatterOps(at, segs, |segs|), w, r)
  {
    var p := ScatterOps(at, segs, |segs|);
    forall a: Addr | a in w ensures WritesTo(p, a) {
      var i :| 0 <= i < |segs| && Inside(segs[i], a);
      ScatterAt(at, segs, |segs|, i, a - segs[i].base);
      assert Target(p[Len(segs, i) + (a - segs[i].base)]) == a;
    }
    forall a: Addr | a in r ensures Touches(p, a) {
      var i := FindPiece(segs, |segs|, a - at);
      ScatterAt(at, segs, |segs|, i, a - at - Len(segs, i));
      assert a in Footprint(p[a - at]);
    }
  }

  /** The bytes that a simple copy reads but its program does not: the descriptors it is decoded from. */
  ghost predicate IsDescriptor(c: Cmd, a: Addr) {
    IsScopy(c) && Within(c.payload.dbuf, DescriptorLen(c), a)
  }

  ghost function SourceSet(d: Device, m: Mem, c: Cmd): iset<Addr>
    requires DescriptorsFit(c, |m|)
  {
    if IsScopy(c) then iset a: Addr | InSegments(CopySources(d, m, c), a) else ReadSet(d, m, c)
  }

  /** A command uses every byte of the ranges its fields describe. */
  lemma CommandCovers(d: Device, m: Mem, c: Cmd)
    requires DescriptorsFit(c, |m|)
    ensures Covers(Prog(d, m, c), WriteSet(d, m, c), SourceSet(d, m, c))
  {
    var at, w, r := DiskAddr(d, c), WriteSet(d, m, c), SourceSet(d, m, c);
    if c.meta {
      RaiseCovers(c.sc, Prog(d, m, c), w, r);
    } else {
      match c.payload
      case Contig(buf, n) =>
        if IsWrite(c) {
          CopyCovers(at, buf, n, w, r);
        } else if IsRead(c) {
          CopyCovers(buf, at, n, w, r);
        } else if c.opcode == NVM_WRITE_ZEROES {
          ZeroCovers(at, ZeroLen(d, c), w, r);
        } else if c.opcode == NVM_SCOPY {
          GatherCovers(at, CopySources(d, m, c), w, r);
        } else if c.opcode == NVM_COMPARE {
          CompareCovers(c.sc, at, buf, n, w, r);
        } else if !IsIdle(c) {
          RaiseCovers(c.sc, Prog(d, m, c), w, r);
        }
      case Vectored(segs) =>
        if IsWrite(c) {
          GatherCovers(at, segs, w, r);
        } else if IsRead(c) {
          ScatterCovers(at, segs, w, r);
        } else if !IsIdle(c) {
          RaiseCovers(c.sc, Prog(d, m, c), w, r);
        }
    }
  }

  lemma RaiseCovers(sc: Addr, p: Program, w: iset<Addr>, r: iset<Addr>)
    requires |p| == 1 && p[0].Raise? && p[0].sc == sc && forall a: Addr | a in w || a in r :: a == sc
    ensures Covers(p, w, r)
  {
    assert Target(p[0]) == sc && sc in Footprint(p[0]);
  }

  /** The ranges are exact: a byte is in them if and only if the program of the command writes it, or uses it, or it
      is a descriptor. */
  lemma RangesExact(d: Device, m: Mem, c: Cmd, a: Addr)
    requires DescriptorsFit(c, |m|)
    ensures CmdWrites(d, m, c, a) <==> WritesTo(Prog(d, m, c), a)
    ensures CmdTouches(d, m, c, a) <==> Touches(Prog(d, m, c), a) || IsDescriptor(c, a)
  {
    WritesDescribed(d, m, c, a);
    CommandCovers(d, m, c);
    assert CmdWrites(d, m, c, a) ==> a in WriteSet(d, m, c);
    WrittenIsTouched(Prog(d, m, c), a);
    assert CmdReads(d, m, c, a) && !IsDescriptor(c, a) ==> a in SourceSet(d, m, c);
  }

  lemma WrittenIsTouched(p: Program, a: Addr)
    ensures WritesTo(p, a) ==> Touches(p, a)
  {
    if WritesTo(p, a) {
      var k :| 0 <= k < |p| && Target(p[k]) == a;
      FootprintInBounds(p[k], 0);
      assert a in Footprint(p[k]);
    }
  }

  /** Commands are disjoint exactly when their programs are independent and neither writes the descriptors of the
      other. */
  lemma DisjointIsIndependent(d: Device, m: Mem, b: Cmd, c: Cmd)
    requires DescriptorsFit(b, |m|) && DescriptorsFit(c, |m|)
    ensures Disjoint(d, m, b, c) <==>
            && Independent(Prog(d, m, b), Prog(d, m, c))
            && (forall a: Addr | IsDescriptor(c, a) :: !WritesTo(Prog(d, m, b), a))
            && (forall a: Addr | IsDescriptor(b, a) :: !WritesTo(Prog(d, m, c), a))
  {
    forall a: Addr
      ensures CmdWrites(d, m, b, a) <==> WritesTo(Prog(d, m, b), a)
      ensures CmdTouches(d, m, b, a) <==> Touches(Prog(d, m, b), a) || IsDescriptor(b, a)
      ensures CmdWrites(d, m, c, a) <==> WritesTo(Prog(d, m, c), a)
      ensures CmdTouches(d, m, c, a) <==> Touches(Prog(d, m, c), a) || IsDescriptor(c, a)
    {
      RangesExact(d, m, b, a);
      RangesExact(d, m, c, a);
    }
  }

  /** A program writes only what its command may write. */
  lemma WritesDescribed(d: Device, m: Mem, c: Cmd, a: Addr)
    requires DescriptorsFit(c, |m|)
    ensures WritesTo(Prog(d, m, c), a) ==> CmdWrites(d, m, c, a)
    ensures Touches(Prog(d, m, c), a) ==> CmdTouches(d, m, c, a)
  {
    CommandBounded(d, m, c);
  }

  /** Commands on disjoint byte ranges are independent programs. */
  lemma DisjointMeansIndependent(d: Device, m: Mem, b: Cmd, c: Cmd)
    requires DescriptorsFit(b, |m|) && DescriptorsFit(c, |m|) && Disjoint(d, m, b, c)
    ensures Independent(Prog(d, m, b), Prog(d, m, c))
  {
    var p, q := Prog(d, m, b), Prog(d, m, c);
    forall a: Addr ensures (WritesTo(p, a) ==> !Touches(q, a)) && (WritesTo(q, a) ==> !Touches(p, a)) {
      WritesDescribed(d, m, b, a);
      WritesDescribed(d, m, c, a);
    }
  }

  // ---------------------------------------------------------------------------------------------
  // A command means the same while its descriptors stand

  /** The descriptors of a command are the same bytes in both memories. */
  ghost predicate SameDescriptors(c: Cmd, m: Mem, m': Mem) {
    |m| == |m'| && (IsScopy(c) && DescriptorsFit(c, |m|)
                    ==> forall x | Within(c.payload.dbuf, DescriptorLen(c), x) :: m[x] == m'[x])
  }

  lemma SameDescriptor(c: Cmd, m: Mem, m': Mem, i: nat)
    requires IsScopy(c) && DescriptorsFit(c, |m|) && SameDescriptors(c, m, m') && i <= c.nr
    ensures var a := c.payload.dbuf + DESCRIPTOR_BYTES * i;
      a + DESCRIPTOR_BYTES <= |m| && RangeAt(m, a) == RangeAt(m', a)
  {
    var a := c.payload.dbuf + DESCRIPTOR_BYTES * i;
    forall x | Within(a, DESCRIPTOR_BYTES, x) ensures m[x] == m'[x] {
      assert Within(c.payload.dbuf, DescriptorLen(c), x);
    }
    SameRange(m, m', a);
  }

  lemma SameSources(d: Device, c: Cmd, m: Mem, m': Mem)
    requires IsScopy(c) && DescriptorsFit(c, |m|) && SameDescriptors(c, m, m')
    ensures CopySources(d, m, c) == CopySources(d, m', c)
  {
    forall i | 0 <= i < c.nr + 1 ensures CopySources(d, m, c)[i] == CopySources(d, m', c)[i] {
      SameDescriptor(c, m, m', i);
    }
  }

  lemma SameMeaning(d: Device, c: Cmd, m: Mem, m': Mem)
    requires WellFormed(d, c, m) && SameDescriptors(c, m, m')
    ensures WellFormed(d, c, m') && Prog(d, m', c) == Prog(d, m, c)
  {
    if IsScopy(c) {
      SameSources(d, c, m, m');
    }
  }

  /** A well-formed simple copy leaves its own descriptors alone. */
  lemma OwnDescriptors(d: Device, m: Mem, c: Cmd, x: Addr)
    requires WellFormed(d, c, m) && IsScopy(c) && Within(c.payload.dbuf, DescriptorLen(c), x)
    ensures !CmdWrites(d, m, c, x)
  {
  }

  // ---------------------------------------------------------------------------------------------
  // The theorem about bytes

  /** Each command is well formed when its turn comes. */
  ghost predicate AllWellFormed(d: Device, m: Mem, cmds: seq<Cmd>)
    decreases |cmds|, 0
  {
    cmds == []
    || (var n := |cmds| - 1;
        AllWellFormed(d, m, cmds[..n]) && WellFormed(d, cmds[n], ExecuteAll(d, m, cmds[..n])))
  }

  /** The commands executed one by one, each to its end, in the order given. */
  ghost function ExecuteAll(d: Device, m: Mem, cmds: seq<Cmd>): (r: Mem)
    requires AllWellFormed(d, m, cmds)
    ensures |r| == |m|
    decreases |cmds|, 1
  {
    if cmds == [] then m
    else
      var n := |cmds| - 1;
      var before := ExecuteAll(d, m, cmds[..n]);
      ProgInBounds(d, cmds[n], before);
      Run(before, Prog(d, before, cmds[n]))
  }

  /** Well formed, as memory stands, every one of them. */
  ghost predicate EachWellFormed(d: Device, m: Mem, cmds: seq<Cmd>) {
    forall i | 0 <= i < |cmds| :: WellFormed(d, cmds[i], m)
  }

  ghost predicate PairwiseDisjoint(d: Device, m: Mem, cmds: seq<Cmd>)
    requires EachWellFormed(d, m, cmds)
  {
    forall i, j | 0 <= i < j < |cmds| :: Disjoint(d, m, cmds[i], cmds[j])
  }

  /** One command more is kept apart from each of the others, and that is all. */
  lemma DisjointOneMore(d: Device, m: Mem, cmds: seq<Cmd>, c: Cmd)
    requires EachWellFormed(d, m, cmds) && WellFormed(d, c, m)
    ensures EachWellFormed(d, m, cmds + [c])
    ensures PairwiseDisjoint(d, m, cmds + [c])
            <==> PairwiseDisjoint(d, m, cmds) && forall i | 0 <= i < |cmds| :: Disjoint(d, m, cmds[i], c)
  {
    var all := cmds + [c];
    assert EachWellFormed(d, m, all);
    if PairwiseDisjoint(d, m, all) {
      forall i, j | 0 <= i < j < |cmds| ensures Disjoint(d, m, cmds[i], cmds[j]) {
        assert Disjoint(d, m, all[i], all[j]);
      }
      forall i | 0 <= i < |cmds| ensures Disjoint(d, m, cmds[i], c) {
        assert Disjoint(d, m, all[i], all[|cmds|]);
      }
    }
  }

  /** The programs submitted are those of the commands, as memory `m` stands. */
  ghost predicate AreProgramsOf(d: Device, m: Mem, cmds: seq<Cmd>, progs: seq<Program>)
    requires EachWellFormed(d, m, cmds)
  {
    |progs| == |cmds| && forall i | 0 <= i < |cmds| :: progs[i] == Prog(d, m, cmds[i])
  }

  /** None of the commands writes the descriptors of command `i`. */
  lemma DescriptorsUnwritten(d: Device, m: Mem, cmds: seq<Cmd>, progs: seq<Program>, i: nat, x: Addr)
    requires EachWellFormed(d, m, cmds) && PairwiseDisjoint(d, m, cmds) && AreProgramsOf(d, m, cmds, progs)
    requires i < |cmds| && IsScopy(cmds[i]) && Within(cmds[i].payload.dbuf, DescriptorLen(cmds[i]), x)
    ensures forall j | 0 <= j < |progs| :: !WritesTo(progs[j], x)
  {
    assert CmdReads(d, m, cmds[i], x);
    forall j | 0 <= j < |progs| ensures !WritesTo(progs[j], x) {
      WritesDescribed(d, m, cmds[j], x);
      if i < j {
        assert Disjoint(d, m, cmds[i], cmds[j]);
      } else if j < i {
        assert Disjoint(d, m, cmds[j], cmds[i]);
      } else {
        OwnDescriptors(d, m, cmds[i], x);
      }
    }
  }

  lemma PrefixOf(d: Device, m: Mem, cmds: seq<Cmd>, progs: seq<Program>, n: nat)
    requires EachWellFormed(d, m, cmds) && PairwiseDisjoint(d, m, cmds) && AreProgramsOf(d, m, cmds, progs)
    requires n <= |cmds|
    ensures EachWellFormed(d, m, cmds[..n]) && PairwiseDisjoint(d, m, cmds[..n])
    ensures AreProgramsOf(d, m, cmds[..n], progs[..n])
  {
    forall i, j | 0 <= i < j < n ensures Disjoint(d, m, cmds[..n][i], cmds[..n][j]) {
      assert Disjoint(d, m, cmds[i], cmds[j]);
    }
  }

  /** Disjoint commands one by one, each reading its descriptors when its turn comes, are their programs one by one. */
  lemma {:induction false} ExecuteAllIsRunAll(d: Device, m: Mem, cmds: seq<Cmd>, progs: seq<Program>)
    requires EachWellFormed(d, m, cmds) && PairwiseDisjoint(d, m, cmds) && AreProgramsOf(d, m, cmds, progs)
    requires AllInBounds(progs, |m|)
    ensures AllWellFormed(d, m, cmds) && RunAll(m, progs) == ExecuteAll(d, m, cmds)
    decreases |cmds|
  {
    if cmds != [] {
      var n := |cmds| - 1;
      PrefixOf(d, m, cmds, progs, n);
      ExecuteAllIsRunAll(d, m, cmds[..n], progs[..n]);
      StillDescribed(d, m, cmds, progs, n, RunAll(m, progs[..n]));
    }
  }

  lemma StillDescribed(d: Device, m: Mem, cmds: seq<Cmd>, progs: seq<Program>, n: nat, m': Mem)
    requires EachWellFormed(d, m, cmds) && PairwiseDisjoint(d, m, cmds) && AreProgramsOf(d, m, cmds, progs)
    requires n < |cmds| && AllInBounds(progs[..n], |m|) && m' == RunAll(m, progs[..n])
    ensures WellFormed(d, cmds[n], m') && Prog(d, m', cmds[n]) == progs[n]
  {
    var c := cmds[n];
    if IsScopy(c) {
      forall x | Within(c.payload.dbuf, DescriptorLen(c), x) ensures m[x] == m'[x] {
        DescriptorsUnwritten(d, m, cmds, progs, n, x);
        RunAllKeeps(m, progs[..n], x);
      }
    }
    SameMeaning(d, c, m, m');
  }

  /** At every moment of a run: reading a submitted command then, descriptors and all, gives the program that was
      submitted for it. Fixing the program at submission loses nothing. */
  lemma DescriptorsStand(d: Device, s0: State, steps: seq<Step>, cmds: seq<Cmd>)
    requires Reachable(s0) && Drained(s0) && Possible(s0, steps)
    requires EachWellFormed(d, s0.mem, cmds) && PairwiseDisjoint(d, s0.mem, cmds)
    requires var s := After(s0, steps);
      |s0.subs| <= |s.subs| && AreProgramsOf(d, s0.mem, cmds, s.subs[|s0.subs|..])
    ensures var s := After(s0, steps);
      EachWellFormed(d, s.mem, cmds) && AreProgramsOf(d, s.mem, cmds, s.subs[|s0.subs|..])
  {
    var s := After(s0, steps);
    var progs := s.subs[|s0.subs|..];
    ProgramsIndependent(d, s0.mem, cmds, progs);
    UnwrittenStands(s0, steps);
    forall i | 0 <= i < |cmds| ensures WellFormed(d, cmds[i], s.mem) && progs[i] == Prog(d, s.mem, cmds[i]) {
      var c := cmds[i];
      if IsScopy(c) {
        forall x | Within(c.payload.dbuf, DescriptorLen(c), x) ensures s0.mem[x] == s.mem[x] {
          DescriptorsUnwritten(d, s0.mem, cmds, progs, i, x);
        }
      }
      SameMeaning(d, c, s0.mem, s.mem);
    }
  }

  lemma ProgramsIndependent(d: Device, m: Mem, cmds: seq<Cmd>, progs: seq<Program>)
    requires EachWellFormed(d, m, cmds) && PairwiseDisjoint(d, m, cmds) && AreProgramsOf(d, m, cmds, progs)
    ensures PairwiseIndependent(progs)
  {
    forall i, j | 0 <= i < j < |progs| ensures Independent(progs[i], progs[j]) {
      assert Disjoint(d, m, cmds[i], cmds[j]);
      DisjointMeansIndependent(d, m, cmds[i], cmds[j]);
    }
  }

  /** For any number of workers and any schedule, byte for byte: if no two commands submitted between two
      drains use a byte that one of them writes, memory (the disk, the buffers that were read into and the
      status fields) is after the second drain what executing the commands one by one would leave. */
  lemma ThreadPoolDiskIsSequential(d: Device, s0: State, steps: seq<Step>, cmds: seq<Cmd>)
    requires Reachable(s0) && Drained(s0) && Possible(s0, steps) && Drained(After(s0, steps))
    requires EachWellFormed(d, s0.mem, cmds) && PairwiseDisjoint(d, s0.mem, cmds)
    requires var s := After(s0, steps);
      |s0.subs| <= |s.subs| && AreProgramsOf(d, s0.mem, cmds, s.subs[|s0.subs|..])
    ensures AllWellFormed(d, s0.mem, cmds) && After(s0, steps).mem == ExecuteAll(d, s0.mem, cmds)
  {
    var progs := After(s0, steps).subs[|s0.subs|..];
    ProgramsIndependent(d, s0.mem, cmds, progs);
    AsyncEqualsSequential(s0, steps);
    ExecuteAllIsRunAll(d, s0.mem, cmds, progs);
  }
}
