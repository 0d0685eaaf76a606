/**
 Byte-addressed memory shared by the ramdisk, the data buffers and the completion fields of the
 command contexts, and the byte-sized operations that a command performs on it.

 A command is a program: a sequence of such operations. Several threads may interleave the
 operations of several programs. `Consistent` describes the memory at any moment of such an
 interleaving without mentioning the order in which the operations happened.
 */
module Memory {

  type byte = x: int | 0 <= x < 256

  type Addr = nat

  type Mem = seq<byte>

  /** One byte-sized memory access.
      `Raise(sc, v)` is the error path of the workers: a status field that is still zero becomes `v`.
      `Differ(sc, a, b, v)` raises `v` when the two compared bytes differ. */
  datatype Op =
    | Copy(dst: Addr, src: Addr)
    | Put(dst: Addr, v: byte)
    | Differ(sc: Addr, a: Addr, b: Addr, v: byte)
    | Raise(sc: Addr, v: byte)

  type Program = seq<Op>

  /** The one address an operation may change. */
  function Target(op: Op): Addr {
    match op
    case Copy(dst, _) => dst
    case Put(dst, _) => dst
    case Differ(sc, _, _, _) => sc
    case Raise(sc, _) => sc
  }

  /** The addresses an operation reads or writes. */
  function Footprint(op: Op): set<Addr> {
    match op
    case Copy(dst, src) => {dst, src}
    case Put(dst, _) => {dst}
    case Differ(sc, a, b, _) => {sc, a, b}
    case Raise(sc, _) => {sc}
  }

  predicate OpInBounds(op: Op, size: nat) {
    match op
    case Copy(dst, src) => dst < size && src < size
    case Put(dst, _) => dst < size
    case Differ(sc, a, b, _) => sc < size && a < size && b < size
    case Raise(sc, _) => sc < size
  }

  /** An operation is in bounds exactly when all that it reads or writes is, what it writes included. */
  lemma FootprintInBounds(op: Op, size: nat)
    ensures OpInBounds(op, size) <==> forall a <- Footprint(op) :: a < size
    ensures Target(op) in Footprint(op)
  {
    match op
    case Copy(dst, src) => assert dst in Footprint(op) && src in Footprint(op);
    case Put(dst, _) => assert dst in Footprint(op);
    case Differ(sc, a, b, _) => assert sc in Footprint(op) && a in Footprint(op) && b in Footprint(op);
    case Raise(sc, _) => assert sc in Footprint(op);
  }

  predicate InBounds(p: Program, size: nat) {
    forall k | 0 <= k < |p| :: OpInBounds(p[k], size)
  }

  /** The byte an operation leaves at its target. */
  function Result(m: Mem, op: Op): byte
    requires OpInBounds(op, |m|)
  {
    match op
    case Copy(_, src) => m[src]
    case Put(_, v) => v
    case Differ(sc, a, b, v) => if m[a] != m[b] && m[sc] == 0 then v else m[sc]
    case Raise(sc, v) => if m[sc] == 0 then v else m[sc]
  }

  function Exec(m: Mem, op: Op): (m': Mem)
    requires OpInBounds(op, |m|)
    ensures |m'| == |m|
  {
    m[Target(op) := Result(m, op)]
  }

  /** The first `k` operations of one program running alone. */
  function RunTo(m: Mem, p: Program, k: nat): (m': Mem)
    requires InBounds(p, |m|) && k <= |p|
    ensures |m'| == |m|
  {
    if k == 0 then m else Exec(RunTo(m, p, k - 1), p[k - 1])
  }

  /** One program running alone, to its end. */
  function Run(m: Mem, p: Program): (m': Mem)
    requires InBounds(p, |m|)
    ensures |m'| == |m|
  {
    RunTo(m, p, |p|)
  }

  ghost predicate AllInBounds(progs: seq<Program>, size: nat) {
    forall i | 0 <= i < |progs| :: InBounds(progs[i], size)
  }

  /** Programs one after the other, in the order given. */
  function RunAll(m: Mem, progs: seq<Program>): (m': Mem)
    requires AllInBounds(progs, |m|)
    ensures |m'| == |m|
  {
    if progs == [] then m else Run(RunAll(m, progs[..|progs| - 1]), progs[|progs| - 1])
  }

  lemma {:induction false} RunToPrefix(m: Mem, p: Program, q: Program, k: nat)
    requires InBounds(p, |m|) && InBounds(q, |m|) && k <= |p| && p <= q
    ensures RunTo(m, q, k) == RunTo(m, p, k)
  {
    if k != 0 {
      RunToPrefix(m, p, q, k - 1);
    }
  }

  lemma {:induction false} RunAppendTo(m: Mem, p: Program, q: Program, k: nat)
    requires InBounds(p, |m|) && InBounds(q, |m|) && k <= |q| && InBounds(p + q, |m|)
    ensures RunTo(m, p + q, |p| + k) == RunTo(Run(m, p), q, k)
  {
    if k == 0 {
      RunToPrefix(m, p, p + q, |p|);
    } else {
      RunAppendTo(m, p, q, k - 1);
      assert (p + q)[|p| + k - 1] == q[k - 1];
    }
  }

  lemma RunAppend(m: Mem, p: Program, q: Program)
    requires InBounds(p, |m|) && InBounds(q, |m|)
    ensures InBounds(p + q, |m|)
    ensures Run(m, p + q) == Run(Run(m, p), q)
  {
    assert InBounds(p + q, |m|);
    RunAppendTo(m, p, q, |q|);
  }

  // ---------------------------------------------------------------------------------------------
  // Independent programs

  ghost predicate WritesTo(p: Program, a: Addr) {
    exists k :: 0 <= k < |p| && Target(p[k]) == a
  }

  ghost predicate Touches(p: Program, a: Addr) {
    exists k :: 0 <= k < |p| && a in Footprint(p[k])
  }

  /** A byte that no operation writes stays. */
  lemma {:induction false} RunToKeeps(m: Mem, p: Program, k: nat, a: Addr)
    requires InBounds(p, |m|) && k <= |p| && a < |m| && !WritesTo(p, a)
    ensures RunTo(m, p, k)[a] == m[a]
    decreases k
  {
    if k != 0 {
      RunToKeeps(m, p, k - 1, a);
    }
  }

  lemma {:induction false} RunAllKeeps(m: Mem, progs: seq<Program>, a: Addr)
    requires AllInBounds(progs, |m|) && a < |m| && forall i | 0 <= i < |progs| :: !WritesTo(progs[i], a)
    ensures RunAll(m, progs)[a] == m[a]
    decreases |progs|
  {
    if progs != [] {
      var n := |progs| - 1;
      RunAllKeeps(m, progs[..n], a);
      RunToKeeps(RunAll(m, progs[..n]), progs[n], |progs[n]|, a);
    }
  }

  /** Neither program writes a byte that the other one reads or writes. */
  ghost predicate Independent(p: Program, q: Program) {
    forall a: Addr :: (WritesTo(p, a) ==> !Touches(q, a)) && (WritesTo(q, a) ==> !Touches(p, a))
  }

  ghost predicate PairwiseIndependent(progs: seq<Program>) {
    forall i, j | 0 <= i < j < |progs| :: Independent(progs[i], progs[j])
  }

  /** One program more is independent of each of the others, and that is all. */
  lemma IndependentOneMore(progs: seq<Program>, p: Program)
    ensures PairwiseIndependent(progs + [p])
            <==> PairwiseIndependent(progs) && forall i | 0 <= i < |progs| :: Independent(progs[i], p)
  {
    var all := progs + [p];
    if PairwiseIndependent(all) {
      forall i, j | 0 <= i < j < |progs| ensures Independent(progs[i], progs[j]) {
        assert Independent(all[i], all[j]);
      }
      forall i | 0 <= i < |progs| ensures Independent(progs[i], p) {
        assert Independent(all[i], all[|progs|]);
      }
    }
  }

  /** `done[i]` operations of `progs[i]` have happened, in whatever global order. */
  ghost predicate ValidProgress(progs: seq<Program>, done: seq<nat>) {
    |done| == |progs| && forall i | 0 <= i < |progs| :: done[i] <= |progs[i]|
  }

  /** The part of program `p` that has run explains what `m` holds on the bytes `p` touches. */
  ghost predicate Explains(m0: Mem, m: Mem, p: Program, done: nat)
    requires |m| == |m0| && InBounds(p, |m0|) && done <= |p|
  {
    forall a | 0 <= a < |m0| && Touches(p, a) :: m[a] == RunTo(m0, p, done)[a]
  }

  /** The memory reached from `m0` when `done[i]` operations of each `progs[i]` have happened. */
  ghost predicate Consistent(m0: Mem, m: Mem, progs: seq<Program>, done: seq<nat>)
    requires AllInBounds(progs, |m0|) && ValidProgress(progs, done)
  {
    && |m| == |m0|
    && (forall i | 0 <= i < |progs| :: Explains(m0, m, progs[i], done[i]))
    && (forall a | 0 <= a < |m0| && (forall i | 0 <= i < |progs| :: !WritesTo(progs[i], a)) :: m[a] == m0[a])
  }

  lemma TargetTouched(p: Program, k: nat)
    requires k < |p|
    ensures WritesTo(p, Target(p[k])) && Touches(p, Target(p[k]))
    ensures forall a <- Footprint(p[k]) :: Touches(p, a)
  {
    assert Target(p[k]) in Footprint(p[k]);
  }

  /** Two memories that agree on the footprint of an operation still agree there after it. */
  lemma ExecAgrees(m: Mem, n: Mem, op: Op)
    requires |m| == |n| && OpInBounds(op, |m|)
    requires forall a <- Footprint(op) :: m[a] == n[a]
    ensures Exec(m, op)[Target(op)] == Exec(n, op)[Target(op)]
  {
    assert Target(op) in Footprint(op);
  }

  /** Running one more operation of program `j` keeps its own explanation. */
  lemma StepExplainsSelf(m0: Mem, m: Mem, p: Program, done: nat)
    requires |m| == |m0| && InBounds(p, |m0|) && done < |p|
    requires Explains(m0, m, p, done)
    ensures Explains(m0, Exec(m, p[done]), p, done + 1)
  {
    var op := p[done];
    var r := RunTo(m0, p, done);
    TargetTouched(p, done);
    forall a | a in Footprint(op) ensures m[a] == r[a] {
      assert Touches(p, a);
    }
    ExecAgrees(m, r, op);
    forall a | 0 <= a < |m0| && Touches(p, a) ensures Exec(m, op)[a] == Exec(r, op)[a] {
      if a != Target(op) {
        assert m[a] == r[a];
      }
    }
  }

  /** Any program may take the next step: the memory stays explained by progress alone. */
  lemma StepKeepsConsistent(m0: Mem, m: Mem, progs: seq<Program>, done: seq<nat>, j: nat)
    requires AllInBounds(progs, |m0|) && ValidProgress(progs, done)
    requires PairwiseIndependent(progs)
    requires j < |progs| && done[j] < |progs[j]|
    requires Consistent(m0, m, progs, done)
    ensures Consistent(m0, Exec(m, progs[j][done[j]]), progs, done[j := done[j] + 1])
  {
    var op := progs[j][done[j]];
    var m' := Exec(m, op);
    var done' := done[j := done[j] + 1];
    TargetTouched(progs[j], done[j]);
    forall i | 0 <= i < |progs| ensures Explains(m0, m', progs[i], done'[i]) {
      assert Explains(m0, m, progs[i], done[i]);
      if i == j {
        StepExplainsSelf(m0, m, progs[j], done[j]);
      } else {
        if i < j {
          assert Independent(progs[i], progs[j]);
        } else {
          assert Independent(progs[j], progs[i]);
        }
        assert !Touches(progs[i], Target(op));
        assert done'[i] == done[i];
      }
    }
  }

  /** A program that has not started yet may join, if it is independent of all the others. */
  lemma JoinKeepsConsistent(m0: Mem, m: Mem, progs: seq<Program>, done: seq<nat>, p: Program)
    requires AllInBounds(progs + [p], |m0|) && ValidProgress(progs, done)
    requires AllInBounds(progs, |m0|)
    requires PairwiseIndependent(progs + [p])
    requires Consistent(m0, m, progs, done)
    ensures ValidProgress(progs + [p], done + [0])
    ensures Consistent(m0, m, progs + [p], done + [0])
  {
    var ps, ds := progs + [p], done + [0];
    assert forall i | 0 <= i < |progs| :: ps[i] == progs[i];
    assert ps[|progs|] == p;
    assert InBounds(p, |m0|);
    forall i | 0 <= i < |ps| ensures Explains(m0, m, ps[i], ds[i]) {
      if i == |progs| {
        forall a | 0 <= a < |m0| && Touches(p, a) ensures m[a] == RunTo(m0, p, 0)[a] {
          forall k | 0 <= k < |progs| ensures !WritesTo(progs[k], a) {
            assert Independent(ps[k], ps[|progs|]);
          }
        }
      } else {
        assert Explains(m0, m, progs[i], done[i]);
      }
    }
    forall a | 0 <= a < |m0| && (forall i | 0 <= i < |ps| :: !WritesTo(ps[i], a)) ensures m[a] == m0[a] {
      forall k | 0 <= k < |progs| ensures !WritesTo(progs[k], a) {
        assert !WritesTo(ps[k], a);
      }
    }
  }

  /** Progress determines the memory. */
  lemma ConsistentUnique(m0: Mem, m: Mem, n: Mem, progs: seq<Program>, done: seq<nat>)
    requires AllInBounds(progs, |m0|) && ValidProgress(progs, done)
    requires Consistent(m0, m, progs, done) && Consistent(m0, n, progs, done)
    ensures m == n
  {
    forall a | 0 <= a < |m0| ensures m[a] == n[a] {
      if i :| 0 <= i < |progs| && WritesTo(progs[i], a) {
        assert Explains(m0, m, progs[i], done[i]) && Explains(m0, n, progs[i], done[i]);
        var k :| 0 <= k < |progs[i]| && Target(progs[i][k]) == a;
        TargetTouched(progs[i], k);
      }
    }
  }

  function FullProgress(progs: seq<Program>): (done: seq<nat>)
    ensures |done| == |progs|
    ensures forall i | 0 <= i < |progs| :: done[i] == |progs[i]|
  {
    seq(|progs|, i requires 0 <= i < |progs| => |progs[i]|)
  }

  /** Running the last program to its end, step by step. */
  lemma {:induction false} FinishLast(m0: Mem, m: Mem, progs: seq<Program>, done: seq<nat>, k: nat)
    requires AllInBounds(progs, |m0|) && ValidProgress(progs, done)
    requires PairwiseIndependent(progs) && progs != []
    requires done[|progs| - 1] == 0 && k <= |progs[|progs| - 1]|
    requires Consistent(m0, m, progs, done)
    ensures InBounds(progs[|progs| - 1], |m|)
    ensures Consistent(m0, RunTo(m, progs[|progs| - 1], k), progs, done[|progs| - 1 := k])
  {
    var last := |progs| - 1;
    if k == 0 {
      assert done[last := 0] == done;
    } else {
      FinishLast(m0, m, progs, done, k - 1);
      var done1 := done[last := k - 1];
      StepKeepsConsistent(m0, RunTo(m, progs[last], k - 1), progs, done1, last);
      assert done1[last := k] == done[last := k];
    }
  }

  /** The sequential execution is one of the interleavings. */
  lemma {:induction false} SequentialConsistent(m0: Mem, progs: seq<Program>)
    requires AllInBounds(progs, |m0|) && PairwiseIndependent(progs)
    ensures Consistent(m0, RunAll(m0, progs), progs, FullProgress(progs))
  {
    if progs != [] {
      var n := |progs| - 1;
      var init, p := progs[..n], progs[n];
      assert init + [p] == progs;
      forall i, j | 0 <= i < j < |init| ensures Independent(init[i], init[j]) {
        assert Independent(progs[i], progs[j]);
      }
      SequentialConsistent(m0, init);
      var m := RunAll(m0, init);
      JoinKeepsConsistent(m0, m, init, FullProgress(init), p);
      FinishLast(m0, m, progs, FullProgress(init) + [0], |p|);
      assert (FullProgress(init) + [0])[n := |p|] == FullProgress(progs);
    }
  }

  /** Interleaving theorem: once every operation of every program has happened, in any interleaving,
      the memory is that of running the programs one by one. */
  lemma InterleavingIsSequential(m0: Mem, m: Mem, progs: seq<Program>, done: seq<nat>)
    requires AllInBounds(progs, |m0|) && ValidProgress(progs, done)
    requires PairwiseIndependent(progs)
    requires Consistent(m0, m, progs, done)
    requires forall i | 0 <= i < |progs| :: done[i] == |progs[i]|
    ensures m == RunAll(m0, progs)
  {
    assert done == FullProgress(progs);
    SequentialConsistent(m0, progs);
    ConsistentUnique(m0, m, RunAll(m0, progs), progs, done);
  }
}
