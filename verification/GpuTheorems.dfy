/**
 What holds in every state that threads and controller can reach, in any number of rounds.
 */
module GpuTheorems {
  import opened Lists
  import opened Tape
  import opened GpuRing
  import opened GpuRounds

  lemma ReachableInv(p: Params, s: State)
    requires ParamsOk(p) && Reachable(p, s)
    ensures Inv(p, s)
  {
    var init, run :| Initial(p, init) && Possible(p, init, run) && s == After(p, init, run);
    InitialInv(p, init);
    RunKeepsInv(p, init, run);
  }

  /** Head and phase are the number of acknowledged completions, modulo the depth, and the parity of the laps. */
  lemma HeadAndPhase(p: Params, s: State)
    requires ParamsOk(p) && Reachable(p, s)
    ensures s.head == s.cqdb == Base(p, s.threads[0].round) % p.depth
            && (s.phase <==> Base(p, s.threads[0].round) / p.depth % 2 == 0)
  {
    ReachableInv(p, s);
    var a := Acked(p, s);
    SlotIsMod(a, p.depth);
    TagIsParity(a, p.depth);
  }

  lemma CidsInRange(p: Params, s: State, j: nat)
    requires ParamsOk(p) && Inv(p, s) && Acked(p, s) <= j < |s.log|
    ensures s.log[j].round == Round(s) && s.log[j].cid < p.batch(Round(s))
  {
    var a := Acked(p, s);
    var tail := s.log[a..];
    SentBound(p, s);
    PartitionInRange(Cids(tail), Cids(s.pending), [], s.fetched - a);
    assert tail[j - a] == s.log[j];
    assert Cids(tail)[j - a] == s.log[j].cid;
  }

  /** A thread accepts an entry exactly when the completion for its position is posted. What it accepts is
      that completion, of a command of the current round: never what an earlier lap left in the slot. */
  lemma ReapIsCurrent(p: Params, s: State, t: nat)
    requires ParamsOk(p) && Reachable(p, s)
    requires t < p.threads && s.threads[t].pc == Reap && Active(p, s, t)
    ensures var j := Base(p, s.threads[t].round) + t;
            && (Ready(p, s, t) <==> j < |s.log|)
            && (Ready(p, s, t) ==> Polled(p, s, t).cmd == s.log[j] && s.log[j].round == s.threads[t].round)
  {
    ReachableInv(p, s);
    var j := Acked(p, s) + t;
    ReapTime(p, s, t);
    PolledIsPosted(p, s, t);
    if j < |s.log| {
      CidsInRange(p, s, j);
      assert BatchOk(p, Round(s));
    }
  }

  /** What the threads reaped in a round. */
  function Reaps(s: State, n: nat): (r: seq<Cmd>)
    requires n <= |s.got|
    ensures |r| == n
  {
    seq(n, i requires 0 <= i < n => s.got[i].cmd)
  }

  /** When thread 0 closes a round, the threads have reaped the commands of that round, each once: the
      command ids are a permutation of 0 .. batch. */
  lemma RoundIsPermutation(p: Params, s: State)
    requires ParamsOk(p) && Reachable(p, s)
    requires s.threads[0].pc == Acknowledge
    ensures var n := p.batch(s.threads[0].round);
            && n <= |s.got| && OfRound(Reaps(s, n), s.threads[0].round)
            && Partition(Cids(Reaps(s, n)), [], [], n)
  {
    ReachableInv(p, s);
    var n, a := p.batch(Round(s)), Acked(p, s);
    assert BatchOk(p, Round(s));
    AllCollected(p, s, 0);
    var tail := s.log[a..];
    forall i | 0 <= i < n ensures Reaps(s, n)[i] == tail[i] {
      assert Collected(p, s.threads, Round(s), i) && GotAt(p, s.got, s.log, a, i);
    }
    assert Reaps(s, n) == tail;
    assert s.pending == [] && Cids([]) == [];
  }

  /** No thread reads the tail while thread 0 is about to change it, nor head and phase: a thread that
      writes a command does not meet a doorbell, a thread that reaps does not meet an acknowledgement. And
      the doorbell comes after every write of its round, the acknowledgement after every reap. */
  lemma RaceFree(p: Params, s: State, t: nat)
    requires ParamsOk(p) && Reachable(p, s) && t < p.threads
    ensures (s.threads[t].pc == Enqueue ==> s.threads[0].pc != Ring)
            && (s.threads[t].pc == Reap ==> s.threads[0].pc != Acknowledge)
            && (s.threads[0].pc == Ring ==> s.threads[t].round == s.threads[0].round && s.threads[t].pc != Enqueue)
            && (s.threads[0].pc == Acknowledge ==> Arrived(s.threads[t]) >= 2 * s.threads[0].round + 2)
  {
    ReachableInv(p, s);
    assert Passed(s.threads[0]) <= Arrived(s.threads[t]);
    if s.threads[t].pc == Enqueue {
      EnqueueTime(p, s, t);
    } else if s.threads[t].pc == Reap {
      ReapTime(p, s, t);
    }
    if s.threads[0].pc == Ring {
      RingTime(p, s, t);
    }
  }

  /** The controller reads the commands of a round, in the order of the threads, and only written ones. */
  lemma FetchesInOrder(p: Params, s: State)
    requires ParamsOk(p) && Reachable(p, s) && Enabled(p, s, Fetch)
    ensures Base(p, s.threads[0].round) <= s.fetched < Base(p, s.threads[0].round + 1)
            && s.sq[s.sqHead] == Cmd(s.threads[0].round, s.fetched - Base(p, s.threads[0].round))
  {
    ReachableInv(p, s);
    FetchesNext(p, s);
    SentBound(p, s);
    assert SentAt(s.sq, s.fetched, Acked(p, s), Round(s));
  }

  // ---------------------------------------------------------------------------------------------
  // Some step is always possible

  predicate Stands(th: Thread) {
    th.pc == Meet || th.pc == MeetAgain
  }

  /** A block whose threads all stand at a barrier can leave it. */
  lemma SomeoneLeaves(threads: seq<Thread>) returns (t: nat)
    requires threads != [] && BarrierInv(threads) && forall u | 0 <= u < |threads| :: Stands(threads[u])
    ensures t < |threads| && AllArrived(threads, Passed(threads[t]) + 1)
  {
    t := 0;
    for u := 0 to |threads|
      invariant t < |threads| && forall v | 0 <= v < u :: Passed(threads[t]) <= Passed(threads[v])
    {
      if Passed(threads[u]) < Passed(threads[t]) {
        t := u;
      }
    }
    forall v | 0 <= v < |threads| ensures Arrived(threads[v]) >= Passed(threads[t]) + 1 {
      assert Stands(threads[v]);
    }
  }

  /** With commands announced and not completed, the controller can move. */
  lemma ControllerMoves(p: Params, s: State) returns (step: Step)
    requires ParamsOk(p) && Inv(p, s) && |s.log| < Sent(p, s)
    ensures Enabled(p, s, step)
  {
    SentBound(p, s);
    if s.pending == [] {
      SlotDistinct(s.fetched, Sent(p, s), p.depth);
      step := Fetch;
    } else {
      IndexIsSlot(s.cqTail, |s.log|, 1, p.depth);
      SlotDistinct(Acked(p, s), |s.log| + 1, p.depth);
      step := Post(0);
    }
  }

  /** A thread that waits for its completion, or thread 0, or else the controller, can move. */
  lemma ReaperMoves(p: Params, s: State, t: nat) returns (step: Step)
    requires ParamsOk(p) && Inv(p, s) && t < p.threads && s.threads[t].pc == Reap
    ensures Enabled(p, s, step)
  {
    ReapTime(p, s, t);
    SentBound(p, s);
    assert BatchOk(p, Round(s));
    var a := Acked(p, s);
    if !Active(p, s, t) {
      step := Move(t);
    } else if a + t < |s.log| {
      CidsInRange(p, s, a + t);
      PolledIsPosted(p, s, t);
      step := Move(t);
    } else if Rung(s) {
      step := ControllerMoves(p, s);
    } else {
      forall v | 0 <= v < |s.threads| ensures Arrived(s.threads[v]) >= 2 * Round(s) + 1 {
        assert Passed(s.threads[t]) <= Arrived(s.threads[v]);
      }
      step := Move(0);
    }
  }

  lemma SomeStep(p: Params, s: State) returns (step: Step)
    requires ParamsOk(p) && Inv(p, s)
    ensures Enabled(p, s, step)
  {
    if t: nat :| t < p.threads && s.threads[t].pc == Reap {
      step := ReaperMoves(p, s, t);
    } else if t: nat :| t < p.threads && !Stands(s.threads[t]) {
      step := Move(t);
    } else {
      var t := SomeoneLeaves(s.threads);
      step := Move(t);
    }
  }

  /** Neither the threads nor the controller ever wait for each other in vain. */
  lemma NoDeadlock(p: Params, s: State)
    requires ParamsOk(p) && Reachable(p, s)
    ensures exists step :: Enabled(p, s, step)
  {
    ReachableInv(p, s);
    var step := SomeStep(p, s);
  }

  // ---------------------------------------------------------------------------------------------
  // A batch as large as the ring

  /** Thread 0 has not got past its reap in round `r`, the controller has nothing to do, and the slot that thread 0
      polls is stale. */
  predicate Stranded(p: Params, s: State, r: nat) {
    && Shaped(p, s) && s.threads[0].round == r
    && (s.threads[0].pc == Enqueue || s.threads[0].pc == Meet || s.threads[0].pc == Ring || s.threads[0].pc == Reap)
    && s.tail == s.sqdb == s.sqHead && s.pending == []
    && s.head < p.depth && s.cq[s.head].tag != s.phase
  }

  lemma FullRingStays(p: Params, s: State, r: nat)
    requires 0 < p.depth < WIDTH && p.batch(r) == p.depth && Stranded(p, s, r)
    ensures Index(s.tail, Trunc16(p.batch(r)), p.depth) == s.tail
    ensures Active(p, s, 0) && !Ready(p, s, 0)
  {
    FullBatchAnnouncesNothing(s.tail, p.depth);
    SlotIsMod(s.head, p.depth);
  }

  lemma StrandedStep(p: Params, s: State, r: nat, step: Step)
    requires 0 < p.depth < WIDTH && p.batch(r) == p.depth && Stranded(p, s, r) && Enabled(p, s, step)
    ensures Stranded(p, Next(p, s, step), r) && Next(p, s, step).fetched == s.fetched
  {
    FullRingStays(p, s, r);
  }

  /** A round with a batch as large as the ring never ends: whatever the schedule, the controller fetches nothing and
      thread 0 waits for its completion. */
  lemma {:induction false} FullBatchStrands(p: Params, s: State, r: nat, run: seq<Step>)
    requires 0 < p.depth < WIDTH && p.batch(r) == p.depth && Stranded(p, s, r) && Possible(p, s, run)
    ensures Stranded(p, After(p, s, run), r) && After(p, s, run).fetched == s.fetched
    ensures !Enabled(p, After(p, s, run), Fetch)
    decreases |run|
  {
    if run != [] {
      StrandedStep(p, s, r, run[0]);
      FullBatchStrands(p, Next(p, s, run[0]), r, run[1..]);
    }
  }

  /** So it is from the start, when the first batch is as large as the ring. */
  lemma FirstBatchStrands(p: Params, init: State, run: seq<Step>)
    requires 0 < p.depth < WIDTH && p.batch(0) == p.depth && Initial(p, init) && Possible(p, init, run)
    ensures After(p, init, run).fetched == 0 && !Enabled(p, After(p, init, run), Fetch)
  {
    FullBatchStrands(p, init, 0, run);
  }
}
