/**
 Rounds of the GPU-resident queue pair. A block of threads shares one submission and one completion ring:
 in every round the first `batch` threads write a command each, the block meets at a barrier, thread 0
 rings the doorbell, the threads reap a completion each, the block meets again and thread 0 moves the head
 on.

 Threads and controller are a step relation: any thread that may move, or the controller, moves next. The
 controller completes the commands it fetched in any order. There is no timeout.
 */
module GpuRounds {
  import opened Lists
  import opened Tape
  import opened GpuRing

  /** The next thing a thread does in its round. */
  datatype Pc = Enqueue | Meet | Ring | Reap | MeetAgain | Acknowledge

  datatype Thread = Thread(round: nat, pc: Pc)

  /** Thread `t` is active in round `r` when `t < batch(r)`. */
  datatype Params = Params(depth: nat, threads: nat, batch: nat -> nat)

  datatype State = State(
    threads: seq<Thread>,
    tail: nat, head: nat, phase: bool,
    sqdb: nat, cqdb: nat,
    sq: seq<Cmd>, cq: seq<Cpl>, got: seq<Cpl>,
    sqHead: nat, cqTail: nat, cqTag: bool,
    pending: seq<Cmd>, fetched: nat, log: seq<Cmd>)

  datatype Step = Move(t: nat) | Fetch | Post(i: nat)

  ghost predicate ParamsOk(p: Params) {
    && 0 < p.threads && 0 < p.depth < WIDTH
    && (forall r: nat :: BatchOk(p, r))
  }

  /** A round leaves one slot of the ring empty, has a thread per command, and fits the 16-bit fields. */
  predicate BatchOk(p: Params, r: nat) {
    p.batch(r) < p.depth && p.batch(r) <= p.threads && p.depth + p.batch(r) <= WIDTH
  }

  /** In rings of up to 32768 entries every batch that leaves a slot empty and has a thread per command is one of
      these. */
  lemma SmallRingsOk(p: Params)
    requires p.threads >= 1 && 1 <= p.depth <= 32768
    requires forall r: nat :: p.batch(r) < p.depth && p.batch(r) <= p.threads
    ensures ParamsOk(p)
  {
  }

  // ---------------------------------------------------------------------------------------------
  // The two barriers of a round

  /** Barriers a thread has come to. */
  function Arrived(th: Thread): nat {
    2 * th.round + match th.pc
                   case Enqueue => 0
                   case Meet => 1
                   case Ring => 1
                   case Reap => 1
                   case MeetAgain => 2
                   case Acknowledge => 2
  }

  /** Barriers a thread has left behind. */
  function Passed(th: Thread): nat {
    2 * th.round + match th.pc
                   case Enqueue => 0
                   case Meet => 0
                   case Ring => 1
                   case Reap => 1
                   case MeetAgain => 1
                   case Acknowledge => 2
  }

  predicate AllArrived(threads: seq<Thread>, n: nat) {
    forall u | 0 <= u < |threads| :: Arrived(threads[u]) >= n
  }

  // ---------------------------------------------------------------------------------------------
  // Steps

  predicate Shaped(p: Params, s: State) {
    && |s.threads| == |s.got| == p.threads > 0
    && |s.sq| == |s.cq| == p.depth > 0
    && s.sqHead < p.depth && s.cqTail < p.depth
  }

  function Then(th: Thread): Thread {
    match th.pc
    case Enqueue => th.(pc := Meet)
    case Meet => th.(pc := Ring)
    case Ring => th.(pc := Reap)
    case Reap => th.(pc := MeetAgain)
    case MeetAgain => th.(pc := Acknowledge)
    case Acknowledge => Thread(th.round + 1, Enqueue)
  }

  predicate Active(p: Params, s: State, t: nat)
    requires t < |s.threads|
  {
    t < p.batch(s.threads[t].round)
  }

  /** The entry an active thread polls. */
  function Polled(p: Params, s: State, t: nat): Cpl
    requires Shaped(p, s)
  {
    s.cq[Index(s.head, Trunc16(t), p.depth)]
  }

  predicate Ready(p: Params, s: State, t: nat)
    requires Shaped(p, s)
  {
    Fresh(Polled(p, s, t), Expected(s.head, s.phase, Trunc16(t), p.depth))
  }

  predicate Enabled(p: Params, s: State, step: Step) {
    && Shaped(p, s)
    && match step
       case Move(t) =>
         && t < p.threads
         && (s.threads[t].pc == Meet || s.threads[t].pc == MeetAgain
             ==> AllArrived(s.threads, Passed(s.threads[t]) + 1))
         && (s.threads[t].pc == Reap && Active(p, s, t) ==> Ready(p, s, t))
       case Fetch => s.sqHead != s.sqdb
       case Post(i) => i < |s.pending| && (s.cqTail + 1) % p.depth != s.cqdb
  }

  function Next(p: Params, s: State, step: Step): State
    requires Enabled(p, s, step)
  {
    match step
    case Move(t) => Effect(p, s, t).(threads := s.threads[t := Then(s.threads[t])])
    case Fetch =>
      s.(pending := s.pending + [s.sq[s.sqHead]], fetched := s.fetched + 1, sqHead := (s.sqHead + 1) % p.depth)
    case Post(i) =>
      s.(cq := s.cq[s.cqTail := Cpl(s.pending[i], s.cqTag)],
         log := s.log + [s.pending[i]],
         pending := s.pending[..i] + s.pending[i + 1..],
         cqTag := if s.cqTail + 1 == p.depth then !s.cqTag else s.cqTag,
         cqTail := (s.cqTail + 1) % p.depth)
  }

  /** What a thread does to the queue pair. */
  function Effect(p: Params, s: State, t: nat): State
    requires Shaped(p, s) && t < p.threads
  {
    var th := s.threads[t];
    var n := Trunc16(p.batch(th.round));
    match th.pc
    case Enqueue =>
      if Active(p, s, t)
      then s.(sq := s.sq[Index(s.tail, Trunc16(t), p.depth) := Cmd(th.round, Trunc16(t))])
      else s
    case Ring =>
      if t == 0 && p.batch(th.round) != 0
      then s.(tail := Index(s.tail, n, p.depth), sqdb := Index(s.tail, n, p.depth))
      else s
    case Reap => if Active(p, s, t) then s.(got := s.got[t := Polled(p, s, t)]) else s
    case Acknowledge =>
      if t == 0 && p.batch(th.round) != 0
      then var m := Moved(s.head, s.phase, n, p.depth); s.(head := m.0, phase := m.1, cqdb := m.0)
      else s
    case Meet => s
    case MeetAgain => s
  }

  /** Rings zeroed, the controller and the queue pair at their first lap. */
  predicate Initial(p: Params, s: State) {
    && Shaped(p, s)
    && (forall u | 0 <= u < |s.threads| :: s.threads[u] == Thread(0, Enqueue))
    && s.tail == s.head == s.sqdb == s.cqdb == s.sqHead == s.cqTail == s.fetched == 0
    && s.phase && s.cqTag && s.pending == [] && s.log == []
    && (forall i | 0 <= i < |s.cq| :: !s.cq[i].tag)
  }

  ghost predicate Possible(p: Params, s: State, run: seq<Step>)
    decreases |run|
  {
    run == [] || (Enabled(p, s, run[0]) && Possible(p, Next(p, s, run[0]), run[1..]))
  }

  ghost function After(p: Params, s: State, run: seq<Step>): (r: State)
    requires Possible(p, s, run)
    ensures Shaped(p, s) ==> Shaped(p, r)
    decreases |run|
  {
    if run == [] then s else After(p, Next(p, s, run[0]), run[1..])
  }

  ghost predicate Reachable(p: Params, s: State) {
    exists init, run | Initial(p, init) && Possible(p, init, run) :: s == After(p, init, run)
  }

  // ---------------------------------------------------------------------------------------------
  // The tape

  /** Commands of the rounds before `r`. */
  function Base(p: Params, r: nat): nat {
    if r == 0 then 0 else Base(p, r - 1) + p.batch(r - 1)
  }

  /** The round of thread 0: the one whose completions are being collected. */
  function Round(s: State): nat
    requires s.threads != []
  {
    s.threads[0].round
  }

  /** Has thread 0 rung the doorbell in its round? */
  predicate Rung(s: State)
    requires s.threads != []
  {
    s.threads[0].pc == Reap || s.threads[0].pc == MeetAgain || s.threads[0].pc == Acknowledge
  }

  /** The round whose commands are written next. */
  function Writing(s: State): nat
    requires s.threads != []
  {
    if Rung(s) then Round(s) + 1 else Round(s)
  }

  function Acked(p: Params, s: State): nat
    requires s.threads != []
  {
    Base(p, Round(s))
  }

  function Sent(p: Params, s: State): nat
    requires s.threads != []
  {
    Base(p, Writing(s))
  }

  // ---------------------------------------------------------------------------------------------
  // Invariants

  predicate BarrierInv(threads: seq<Thread>) {
    forall u, v | 0 <= u < |threads| && 0 <= v < |threads| :: Passed(threads[u]) <= Arrived(threads[v])
  }

  /** Every pointer and tag is a position of the tape folded into the ring. */
  predicate PointerInv(p: Params, s: State)
    requires Shaped(p, s)
  {
    && Acked(p, s) <= |s.log| <= s.fetched <= Sent(p, s)
    && s.fetched == |s.log| + |s.pending|
    && s.tail == s.sqdb == Slot(Sent(p, s), p.depth)
    && s.head == s.cqdb == Slot(Acked(p, s), p.depth)
    && s.phase == Tag(Acked(p, s), p.depth)
    && s.sqHead == Slot(s.fetched, p.depth)
    && s.cqTail == Slot(|s.log|, p.depth)
    && s.cqTag == Tag(|s.log|, p.depth)
  }

  /** Announced commands wait in the ring until they are fetched. */
  predicate SentInv(sq: seq<Cmd>, fetched: nat, sent: nat, acked: nat, round: nat) {
    forall j: nat | fetched <= j < sent :: SentAt(sq, j, acked, round)
  }

  predicate SentAt(sq: seq<Cmd>, j: nat, acked: nat, round: nat) {
    sq != [] && acked <= j && sq[Slot(j, |sq|)] == Cmd(round, j - acked)
  }

  /** Has the thread written its command for the round being written? */
  predicate Wrote(p: Params, threads: seq<Thread>, writing: nat, t: nat) {
    t < |threads| && t < p.batch(writing) && threads[t].round == writing && threads[t].pc != Enqueue
  }

  ghost predicate WrittenInv(p: Params, threads: seq<Thread>, sq: seq<Cmd>, sent: nat, writing: nat) {
    forall t: nat | Wrote(p, threads, writing, t) :: SentAt(sq, sent + t, sent, writing)
  }

  /** Unacknowledged completions stand in the ring; the slots ahead carry the other tag. */
  predicate PostedInv(cq: seq<Cpl>, log: seq<Cmd>, acked: nat) {
    forall j: nat | acked <= j < |log| :: PostedAt(cq, log, j)
  }

  predicate PostedAt(cq: seq<Cpl>, log: seq<Cmd>, j: nat) {
    cq != [] && j < |log| && cq[Slot(j, |cq|)] == Cpl(log[j], Tag(j, |cq|))
  }

  predicate AheadInv(cq: seq<Cpl>, n: nat) {
    forall j: nat | n <= j < n + |cq| :: StaleAt(cq, j)
  }

  predicate StaleAt(cq: seq<Cpl>, j: nat) {
    cq != [] && cq[Slot(j, |cq|)].tag != Tag(j, |cq|)
  }

  /** Has the thread reaped its completion of the round being collected? */
  predicate Collected(p: Params, threads: seq<Thread>, round: nat, t: nat) {
    t < |threads| && t < p.batch(round) && Arrived(threads[t]) >= 2 * round + 2
  }

  ghost predicate ReapedInv(p: Params, threads: seq<Thread>, got: seq<Cpl>, log: seq<Cmd>, acked: nat, round: nat) {
    forall t: nat | Collected(p, threads, round, t) :: GotAt(p, got, log, acked, t)
  }

  predicate GotAt(p: Params, got: seq<Cpl>, log: seq<Cmd>, acked: nat, t: nat) {
    p.depth > 0 && t < |got| && acked + t < |log| && got[t] == Cpl(log[acked + t], Tag(acked + t, p.depth))
  }

  function Cids(cmds: seq<Cmd>): (r: seq<nat>)
    ensures |r| == |cmds|
  {
    seq(|cmds|, i requires 0 <= i < |cmds| => cmds[i].cid)
  }

  predicate OfRound(cmds: seq<Cmd>, r: nat) {
    forall i | 0 <= i < |cmds| :: cmds[i].round == r
  }

  /** The commands fetched in this round are completed or pending, each once. */
  ghost predicate OnceInv(log: seq<Cmd>, pending: seq<Cmd>, fetched: nat, acked: nat, round: nat) {
    && acked <= |log| && acked <= fetched
    && OfRound(log[acked..], round) && OfRound(pending, round)
    && Partition(Cids(log[acked..]), Cids(pending), [], fetched - acked)
  }

  ghost predicate Inv(p: Params, s: State) {
    && Shaped(p, s)
    && BarrierInv(s.threads)
    && PointerInv(p, s)
    && SentInv(s.sq, s.fetched, Sent(p, s), Acked(p, s), Round(s))
    && WrittenInv(p, s.threads, s.sq, Sent(p, s), Writing(s))
    && PostedInv(s.cq, s.log, Acked(p, s))
    && AheadInv(s.cq, |s.log|)
    && ReapedInv(p, s.threads, s.got, s.log, Acked(p, s), Round(s))
    && OnceInv(s.log, s.pending, s.fetched, Acked(p, s), Round(s))
  }

  // ---------------------------------------------------------------------------------------------
  // Where the threads are

  lemma BarrierKept(threads: seq<Thread>, t: nat)
    requires BarrierInv(threads) && t < |threads|
    requires threads[t].pc == Meet || threads[t].pc == MeetAgain ==> AllArrived(threads, Passed(threads[t]) + 1)
    ensures BarrierInv(threads[t := Then(threads[t])])
  {
  }

  /** A thread that is about to write a command writes for the round after the last doorbell, and by then
      the controller has fetched, completed and seen reaped everything announced before. */
  lemma EnqueueTime(p: Params, s: State, t: nat)
    requires ParamsOk(p) && Inv(p, s) && t < p.threads && s.threads[t].pc == Enqueue
    ensures s.threads[t].round == Writing(s) && s.threads[0].pc != Ring
    ensures |s.log| == s.fetched == Sent(p, s)
  {
    assert Passed(s.threads[t]) <= Arrived(s.threads[0]) && Passed(s.threads[0]) <= Arrived(s.threads[t]);
    if Rung(s) {
      AllCollected(p, s, t);
    }
  }

  /** When a thread has left the second barrier of a round, the whole round was completed and reaped. */
  lemma AllCollected(p: Params, s: State, t: nat)
    requires ParamsOk(p) && Inv(p, s) && t < p.threads && Rung(s) && Passed(s.threads[t]) >= 2 * Round(s) + 2
    ensures |s.log| == s.fetched == Sent(p, s)
    ensures forall u | 0 <= u < p.batch(Round(s)) :: Collected(p, s.threads, Round(s), u)
  {
    assert BatchOk(p, Round(s));
    forall u | 0 <= u < p.batch(Round(s)) ensures Collected(p, s.threads, Round(s), u) {
      assert Passed(s.threads[t]) <= Arrived(s.threads[u]);
    }
    if p.batch(Round(s)) > 0 {
      assert GotAt(p, s.got, s.log, Acked(p, s), p.batch(Round(s)) - 1);
    }
  }

  /** A thread that is reaping reaps for the round of thread 0, which has not moved the head yet. */
  lemma ReapTime(p: Params, s: State, t: nat)
    requires Inv(p, s) && t < p.threads && s.threads[t].pc == Reap
    ensures s.threads[t].round == Round(s) && s.threads[0].pc != Acknowledge
  {
    assert Passed(s.threads[t]) <= Arrived(s.threads[0]) && Passed(s.threads[0]) <= Arrived(s.threads[t]);
  }

  /** When thread 0 rings the doorbell every active thread has written its command. */
  lemma RingTime(p: Params, s: State, t: nat)
    requires Inv(p, s) && t < p.threads && s.threads[0].pc == Ring
    ensures s.threads[t].round == Round(s) && s.threads[t].pc != Enqueue
  {
    assert Passed(s.threads[t]) <= Arrived(s.threads[0]) && Passed(s.threads[0]) <= Arrived(s.threads[t]);
  }

  lemma SentBound(p: Params, s: State)
    requires ParamsOk(p) && s.threads != []
    ensures Sent(p, s) == if Rung(s) then Acked(p, s) + p.batch(Round(s)) else Acked(p, s)
    ensures Acked(p, s) <= Sent(p, s) < Acked(p, s) + p.depth
  {
    assert BatchOk(p, Round(s));
  }

  // ---------------------------------------------------------------------------------------------
  // Every step keeps the invariant

  /** A step of one thread that leaves the rings alone. */
  lemma ThreadMoves(p: Params, s: State, s': State)
    requires Inv(p, s) && s' == s.(threads := s'.threads) && |s'.threads| == |s.threads| && BarrierInv(s'.threads)
    requires Round(s') == Round(s) && Rung(s') == Rung(s)
    requires WrittenInv(p, s'.threads, s.sq, Sent(p, s), Writing(s))
    requires ReapedInv(p, s'.threads, s.got, s.log, Acked(p, s), Round(s))
    ensures Inv(p, s')
  {
  }

  /** A step that moves a thread past nothing the rings depend on. */
  lemma Quiet(p: Params, s: State, s': State)
    requires Inv(p, s) && s' == s.(threads := s'.threads) && |s'.threads| == |s.threads| && BarrierInv(s'.threads)
    requires Round(s') == Round(s) && Rung(s') == Rung(s)
    requires forall u: nat | Wrote(p, s'.threads, Writing(s), u) :: Wrote(p, s.threads, Writing(s), u)
    requires forall u: nat | Collected(p, s'.threads, Round(s), u) :: Collected(p, s.threads, Round(s), u)
    ensures Inv(p, s')
  {
    ThreadMoves(p, s, s');
  }

  /** A command written by thread `t` disturbs no other thread's. */
  lemma WrittenKept(p: Params, threads: seq<Thread>, threads': seq<Thread>, sq: seq<Cmd>, sent: nat, writing: nat,
                    t: nat)
    requires ParamsOk(p) && |sq| == p.depth && t < p.batch(writing) && WrittenInv(p, threads, sq, sent, writing)
    requires forall u: nat | u != t && Wrote(p, threads', writing, u) :: Wrote(p, threads, writing, u)
    ensures WrittenInv(p, threads', sq[Slot(sent + t, p.depth) := Cmd(writing, t)], sent, writing)
  {
    var sq' := sq[Slot(sent + t, p.depth) := Cmd(writing, t)];
    assert BatchOk(p, writing);
    forall u: nat | Wrote(p, threads', writing, u) ensures SentAt(sq', sent + u, sent, writing) {
      if u != t {
        assert SentAt(sq, sent + u, sent, writing);
        if u < t {
          SlotDistinct(sent + u, sent + t, p.depth);
        } else {
          SlotDistinct(sent + t, sent + u, p.depth);
        }
      }
    }
  }

  lemma WritesAt(p: Params, s: State, t: nat)
    requires ParamsOk(p) && Shaped(p, s) && PointerInv(p, s) && t < p.batch(Writing(s))
    ensures Trunc16(t) == t && Index(s.tail, t, p.depth) == Slot(Sent(p, s) + t, p.depth)
  {
    assert BatchOk(p, Writing(s));
    IndexIsSlot(s.tail, Sent(p, s), t, p.depth);
  }

  lemma EnqueueWrites(p: Params, s: State, t: nat)
    requires ParamsOk(p) && Inv(p, s) && Enabled(p, s, Move(t)) && s.threads[t].pc == Enqueue && Active(p, s, t)
    ensures s.threads[t].round == Writing(s) && s.fetched == Sent(p, s)
    ensures Next(p, s, Move(t)) == s.(sq := s.sq[Slot(Sent(p, s) + t, p.depth) := Cmd(Writing(s), t)],
                                      threads := s.threads[t := Thread(Writing(s), Meet)])
  {
    EnqueueTime(p, s, t);
    WritesAt(p, s, t);
  }

  lemma SlotWritten(p: Params, s: State, s1: State, t: nat)
    requires ParamsOk(p) && Inv(p, s) && t < p.batch(Writing(s)) && s.fetched == Sent(p, s)
    requires s1 == s.(sq := s.sq[Slot(Sent(p, s) + t, p.depth) := Cmd(Writing(s), t)])
    ensures Inv(p, s1)
  {
    WrittenKept(p, s.threads, s.threads, s.sq, Sent(p, s), Writing(s), t);
  }

  /** Coming to the first barrier of a round is not reaping in any. */
  lemma MeetCollectsNothing(p: Params, threads: seq<Thread>, t: nat, r: nat, round: nat)
    requires t < |threads| && threads[t] == Thread(r, Enqueue)
    ensures forall u: nat | Collected(p, threads[t := Thread(r, Meet)], round, u) :: Collected(p, threads, round, u)
  {
  }

  lemma Enqueued(p: Params, s: State, s': State, t: nat)
    requires ParamsOk(p) && Inv(p, s) && t < p.threads && s.threads[t] == Thread(Writing(s), Enqueue)
    requires t < p.batch(Writing(s))
    requires s' == s.(threads := s.threads[t := Thread(Writing(s), Meet)])
    requires SentAt(s.sq, Sent(p, s) + t, Sent(p, s), Writing(s))
    requires BarrierInv(s'.threads)
    ensures Inv(p, s')
  {
    MeetCollectsNothing(p, s.threads, t, Writing(s), Round(s));
    forall u: nat | Wrote(p, s'.threads, Writing(s), u) ensures SentAt(s.sq, Sent(p, s) + u, Sent(p, s), Writing(s)) {
      if u != t {
        assert Wrote(p, s.threads, Writing(s), u);
      }
    }
    ThreadMoves(p, s, s');
  }

  lemma WrittenAndEnqueued(p: Params, s: State, s': State, t: nat)
    requires ParamsOk(p) && Inv(p, s) && t < p.threads && s.threads[t] == Thread(Writing(s), Enqueue)
    requires t < p.batch(Writing(s)) && s.fetched == Sent(p, s)
    requires s' == s.(sq := s.sq[Slot(Sent(p, s) + t, p.depth) := Cmd(Writing(s), t)],
                      threads := s.threads[t := Thread(Writing(s), Meet)])
    requires BarrierInv(s'.threads)
    ensures Inv(p, s')
  {
    var s1 := s.(sq := s'.sq);
    SlotWritten(p, s, s1, t);
    Enqueued(p, s1, s', t);
  }

  lemma EnqueueKeeps(p: Params, s: State, t: nat)
    requires ParamsOk(p) && Inv(p, s) && Enabled(p, s, Move(t)) && s.threads[t].pc == Enqueue
    ensures Inv(p, Next(p, s, Move(t)))
  {
    BarrierKept(s.threads, t);
    if Active(p, s, t) {
      EnqueueWrites(p, s, t);
      WrittenAndEnqueued(p, s, Next(p, s, Move(t)), t);
    } else {
      EnqueueTime(p, s, t);
      Quiet(p, s, Next(p, s, Move(t)));
    }
  }

  lemma MeetKeeps(p: Params, s: State, t: nat)
    requires ParamsOk(p) && Inv(p, s) && Enabled(p, s, Move(t))
    requires s.threads[t].pc == Meet || s.threads[t].pc == MeetAgain
    ensures Inv(p, Next(p, s, Move(t)))
  {
    BarrierKept(s.threads, t);
    Quiet(p, s, Next(p, s, Move(t)));
  }

  lemma RingKeeps(p: Params, s: State, t: nat)
    requires ParamsOk(p) && Inv(p, s) && Enabled(p, s, Move(t)) && s.threads[t].pc == Ring
    ensures Inv(p, Next(p, s, Move(t)))
  {
    var s' := Next(p, s, Move(t));
    BarrierKept(s.threads, t);
    if t == 0 {
      DoorbellKeeps(p, s);
    } else {
      Quiet(p, s, s');
    }
  }

  lemma TailMoves(p: Params, s: State, n: nat, sent: nat)
    requires ParamsOk(p) && Shaped(p, s) && PointerInv(p, s) && s.threads[0].pc == Ring
    requires n == p.batch(Round(s)) && sent == Base(p, Round(s) + 1)
    ensures Trunc16(n) == n && Index(s.tail, n, p.depth) == Slot(sent, p.depth)
    ensures n == 0 ==> s.tail == s.sqdb == Slot(sent, p.depth)
  {
    assert BatchOk(p, Round(s));
    IndexIsSlot(s.tail, Acked(p, s), n, p.depth);
  }

  /** The doorbell announces the whole batch. */
  lemma DoorbellRings(p: Params, s: State, sent: nat)
    requires ParamsOk(p) && Shaped(p, s) && PointerInv(p, s) && s.threads[0].pc == Ring
    requires sent == Base(p, Round(s) + 1)
    ensures Next(p, s, Move(0)) == s.(tail := Slot(sent, p.depth), sqdb := Slot(sent, p.depth),
                                      threads := s.threads[0 := Thread(Round(s), Reap)])
  {
    TailMoves(p, s, p.batch(Round(s)), sent);
  }

  lemma BatchWritten(p: Params, s: State, w: nat)
    requires ParamsOk(p) && Inv(p, s) && s.threads[0].pc == Ring && w == Round(s) + 1
    ensures SentInv(s.sq, s.fetched, Base(p, w), Acked(p, s), Round(s))
    ensures forall u: nat :: !Wrote(p, s.threads, w, u)
  {
    var a := Acked(p, s);
    assert BatchOk(p, Round(s));
    forall t: nat | t < p.threads ensures s.threads[t].round == Round(s) && s.threads[t].pc != Enqueue {
      RingTime(p, s, t);
    }
    forall j: nat | s.fetched <= j < Base(p, w) ensures SentAt(s.sq, j, a, Round(s)) {
      assert Wrote(p, s.threads, Writing(s), j - a);
      assert SentAt(s.sq, a + (j - a), a, Writing(s));
    }
  }

  lemma DoorbellKeeps(p: Params, s: State)
    requires ParamsOk(p) && Inv(p, s) && Enabled(p, s, Move(0)) && s.threads[0].pc == Ring
    requires BarrierInv(Next(p, s, Move(0)).threads)
    ensures Inv(p, Next(p, s, Move(0)))
  {
    var s' := Next(p, s, Move(0));
    DoorbellRings(p, s, Base(p, Round(s) + 1));
    BatchWritten(p, s, Round(s) + 1);
    forall u: nat ensures !Wrote(p, s'.threads, Writing(s'), u) {
      assert !Wrote(p, s.threads, Round(s) + 1, u);
    }
    assert forall u: nat | Collected(p, s'.threads, Round(s), u) :: Collected(p, s.threads, Round(s), u);
  }

  lemma PollsAt(p: Params, s: State, t: nat)
    requires ParamsOk(p) && Shaped(p, s) && PointerInv(p, s) && t < p.batch(Round(s))
    ensures Polled(p, s, t) == s.cq[Slot(Acked(p, s) + t, p.depth)]
    ensures Expected(s.head, s.phase, Trunc16(t), p.depth) == Tag(Acked(p, s) + t, p.depth)
  {
    assert BatchOk(p, Round(s));
    PollValues(s.head, s.phase, Acked(p, s), t, p.depth);
  }

  /** A slot carries the tag of a position exactly when that position is posted, and then holds it. */
  lemma FreshIsPosted(cq: seq<Cpl>, log: seq<Cmd>, acked: nat, j: nat)
    requires cq != [] && PostedInv(cq, log, acked) && AheadInv(cq, |log|) && acked <= j < |log| + |cq|
    ensures Fresh(cq[Slot(j, |cq|)], Tag(j, |cq|)) <==> j < |log| && log[j].cid < 0xFFFF
    ensures j < |log| ==> cq[Slot(j, |cq|)] == Cpl(log[j], Tag(j, |cq|))
  {
    if j < |log| {
      assert PostedAt(cq, log, j);
    } else {
      assert StaleAt(cq, j);
    }
  }

  /** The polled entry is fresh exactly when the completion of its position is posted, and is that one. */
  lemma PolledIsPosted(p: Params, s: State, t: nat)
    requires ParamsOk(p) && Inv(p, s) && t < p.threads && s.threads[t].pc == Reap && Active(p, s, t)
    ensures Ready(p, s, t) <==> Acked(p, s) + t < |s.log| && s.log[Acked(p, s) + t].cid < 0xFFFF
    ensures Ready(p, s, t) ==> GotAt(p, s.got[t := Polled(p, s, t)], s.log, Acked(p, s), t)
  {
    ReapTime(p, s, t);
    assert BatchOk(p, Round(s));
    PollsAt(p, s, t);
    FreshIsPosted(s.cq, s.log, Acked(p, s), Acked(p, s) + t);
  }

  lemma Reaped(p: Params, s: State, s': State, t: nat)
    requires Inv(p, s) && t < p.threads && s.threads[t] == Thread(Round(s), Reap)
    requires s' == s.(got := s'.got, threads := s.threads[t := Thread(Round(s), MeetAgain)])
    requires |s'.got| == |s.got| && s'.got == s.got[t := s'.got[t]] && GotAt(p, s'.got, s.log, Acked(p, s), t)
    requires BarrierInv(s'.threads)
    ensures Inv(p, s')
  {
    assert Round(s') == Round(s) && Writing(s') == Writing(s);
    forall u: nat | Collected(p, s'.threads, Round(s), u) ensures GotAt(p, s'.got, s.log, Acked(p, s), u) {
      if u != t {
        assert Collected(p, s.threads, Round(s), u) && GotAt(p, s.got, s.log, Acked(p, s), u);
      }
    }
    forall u: nat | Wrote(p, s'.threads, Writing(s), u) ensures SentAt(s.sq, Sent(p, s) + u, Sent(p, s), Writing(s)) {
      assert Wrote(p, s.threads, Writing(s), u);
    }
  }

  lemma ReapKeeps(p: Params, s: State, t: nat)
    requires ParamsOk(p) && Inv(p, s) && Enabled(p, s, Move(t)) && s.threads[t].pc == Reap
    ensures Inv(p, Next(p, s, Move(t)))
  {
    BarrierKept(s.threads, t);
    ReapTime(p, s, t);
    if Active(p, s, t) {
      PolledIsPosted(p, s, t);
      Reaped(p, s, Next(p, s, Move(t)), t);
    } else {
      Quiet(p, s, Next(p, s, Move(t)));
    }
  }

  lemma AcknowledgeKeeps(p: Params, s: State, t: nat)
    requires ParamsOk(p) && Inv(p, s) && Enabled(p, s, Move(t)) && s.threads[t].pc == Acknowledge
    ensures Inv(p, Next(p, s, Move(t)))
  {
    var s' := Next(p, s, Move(t));
    BarrierKept(s.threads, t);
    if t == 0 {
      RoundEnds(p, s);
    } else {
      Quiet(p, s, s');
    }
  }

  lemma HeadMoves(p: Params, s: State, n: nat, a: nat)
    requires ParamsOk(p) && Shaped(p, s) && PointerInv(p, s)
    requires n == p.batch(Round(s)) && a == Base(p, Round(s) + 1)
    ensures Trunc16(n) == n && Moved(s.head, s.phase, n, p.depth) == (Slot(a, p.depth), Tag(a, p.depth))
    ensures n == 0 ==> s.head == s.cqdb == Slot(a, p.depth) && s.phase == Tag(a, p.depth)
  {
    assert BatchOk(p, Round(s));
    MovedIsNext(Acked(p, s), n, p.depth);
  }

  /** The head moves past the whole batch. */
  lemma HeadAdvances(p: Params, s: State, a: nat)
    requires ParamsOk(p) && Shaped(p, s) && PointerInv(p, s) && s.threads[0].pc == Acknowledge
    requires a == Base(p, Round(s) + 1)
    ensures Next(p, s, Move(0)) == s.(head := Slot(a, p.depth), cqdb := Slot(a, p.depth), phase := Tag(a, p.depth),
                                      threads := s.threads[0 := Thread(Round(s) + 1, Enqueue)])
  {
    HeadMoves(p, s, p.batch(Round(s)), a);
  }

  lemma NoneCollected(p: Params, s: State, w: nat)
    requires Inv(p, s) && s.threads[0].pc == Acknowledge && w == Round(s) + 1
    ensures forall u: nat :: !Collected(p, s.threads, w, u)
  {
    forall u: nat ensures !Collected(p, s.threads, w, u) {
      if u < |s.threads| {
        assert Passed(s.threads[u]) <= Arrived(s.threads[0]);
      }
    }
  }

  lemma NothingLeft(log: seq<Cmd>, pending: seq<Cmd>, n: nat, round: nat)
    requires |log| == n && pending == []
    ensures OnceInv(log, pending, n, n, round)
  {
    assert log[n..] == [] && Cids([]) == [];
    assert Partition([], [], [], 0);
  }

  lemma RoundClosed(p: Params, s: State, s': State, a: nat)
    requires ParamsOk(p) && Inv(p, s) && s.threads[0].pc == Acknowledge && a == Base(p, Round(s) + 1)
    requires s' == s.(head := Slot(a, p.depth), cqdb := Slot(a, p.depth), phase := Tag(a, p.depth),
                      threads := s.threads[0 := Thread(Round(s) + 1, Enqueue)])
    requires BarrierInv(s'.threads)
    ensures Inv(p, s')
  {
    var w := Round(s) + 1;
    assert Round(s') == w == Writing(s') == Writing(s);
    AllCollected(p, s, 0);
    NothingLeft(s.log, s.pending, a, w);
    NoneCollected(p, s, w);
    NewRoundThreads(p, s.threads, s'.threads, w);
  }

  lemma NewRoundThreads(p: Params, threads: seq<Thread>, threads': seq<Thread>, w: nat)
    requires threads != [] && threads' == threads[0 := Thread(w, Enqueue)]
    ensures forall u: nat | Wrote(p, threads', w, u) :: Wrote(p, threads, w, u)
    ensures forall u: nat | Collected(p, threads', w, u) :: Collected(p, threads, w, u)
  {
  }

  /** Thread 0 closes the round. */
  lemma RoundEnds(p: Params, s: State)
    requires ParamsOk(p) && Inv(p, s) && Enabled(p, s, Move(0)) && s.threads[0].pc == Acknowledge
    requires BarrierInv(Next(p, s, Move(0)).threads)
    ensures Inv(p, Next(p, s, Move(0)))
  {
    HeadAdvances(p, s, Base(p, Round(s) + 1));
    RoundClosed(p, s, Next(p, s, Move(0)), Base(p, Round(s) + 1));
  }

  lemma CidsAppend(cmds: seq<Cmd>, c: Cmd)
    ensures Cids(cmds + [c]) == Cids(cmds) + [c.cid]
  {
  }

  lemma CidsWithout(cmds: seq<Cmd>, i: nat)
    requires i < |cmds|
    ensures Cids(cmds[..i] + cmds[i + 1..]) == Without(Cids(cmds), i)
  {
  }

  /** The controller fetches the next command of the round, never a stale one. */
  lemma FetchesNext(p: Params, s: State)
    requires ParamsOk(p) && Inv(p, s) && Enabled(p, s, Fetch)
    ensures Acked(p, s) <= s.fetched < Sent(p, s)
    ensures Next(p, s, Fetch) == s.(pending := s.pending + [Cmd(Round(s), s.fetched - Acked(p, s))],
                                    fetched := s.fetched + 1, sqHead := Slot(s.fetched + 1, p.depth))
  {
    SentBound(p, s);
    assert SentAt(s.sq, s.fetched, Acked(p, s), Round(s));
    IndexIsSlot(s.sqHead, s.fetched, 1, p.depth);
  }

  lemma FetchedOnce(log: seq<Cmd>, pending: seq<Cmd>, fetched: nat, acked: nat, round: nat)
    requires OnceInv(log, pending, fetched, acked, round)
    ensures OnceInv(log, pending + [Cmd(round, fetched - acked)], fetched + 1, acked, round)
  {
    PartitionPush(Cids(log[acked..]), Cids(pending), fetched - acked);
    CidsAppend(pending, Cmd(round, fetched - acked));
  }

  lemma FetchKeeps(p: Params, s: State)
    requires ParamsOk(p) && Inv(p, s) && Enabled(p, s, Fetch)
    ensures Inv(p, Next(p, s, Fetch))
  {
    FetchesNext(p, s);
    FetchedOnce(s.log, s.pending, s.fetched, Acked(p, s), Round(s));
  }

  lemma PostMoves(p: Params, s: State, i: nat)
    requires ParamsOk(p) && Inv(p, s) && Enabled(p, s, Post(i))
    ensures |s.log| < s.fetched
    ensures var n := |s.log|;
            Next(p, s, Post(i)) == s.(cq := s.cq[Slot(n, p.depth) := Cpl(s.pending[i], Tag(n, p.depth))],
                                      log := s.log + [s.pending[i]], pending := s.pending[..i] + s.pending[i + 1..],
                                      cqTag := Tag(n + 1, p.depth), cqTail := Slot(n + 1, p.depth))
  {
    SentBound(p, s);
    IndexIsSlot(s.cqTail, |s.log|, 1, p.depth);
    SlotAdd(|s.log|, 1, p.depth);
  }

  /** One more completion in the ring. */
  lemma PostedKept(cq: seq<Cpl>, log: seq<Cmd>, acked: nat, c: Cmd)
    requires cq != [] && acked <= |log| < acked + |cq| && PostedInv(cq, log, acked) && AheadInv(cq, |log|)
    ensures var cq' := cq[Slot(|log|, |cq|) := Cpl(c, Tag(|log|, |cq|))];
            PostedInv(cq', log + [c], acked) && AheadInv(cq', |log| + 1)
  {
    var n, d := |log|, |cq|;
    var cq' := cq[Slot(n, d) := Cpl(c, Tag(n, d))];
    forall j: nat | acked <= j < n + 1 ensures PostedAt(cq', log + [c], j) {
      if j < n {
        assert PostedAt(cq, log, j);
        SlotDistinct(j, n, d);
      }
    }
    forall j: nat | n + 1 <= j < n + 1 + d ensures StaleAt(cq', j) {
      if j == n + d {
        SlotLap(n, d);
      } else {
        assert StaleAt(cq, j);
        SlotDistinct(n, j, d);
      }
    }
  }

  lemma PostedOnce(log: seq<Cmd>, pending: seq<Cmd>, fetched: nat, acked: nat, round: nat, i: nat)
    requires OnceInv(log, pending, fetched, acked, round) && i < |pending|
    ensures OnceInv(log + [pending[i]], pending[..i] + pending[i + 1..], fetched, acked, round)
  {
    assert (log + [pending[i]])[acked..] == log[acked..] + [pending[i]];
    PartitionPick(Cids(log[acked..]), Cids(pending), i, fetched - acked);
    CidsAppend(log[acked..], pending[i]);
    CidsWithout(pending, i);
  }

  lemma Posted(p: Params, s: State, s': State, i: nat, n: nat)
    requires ParamsOk(p) && Inv(p, s) && i < |s.pending| && n == |s.log|
    requires s' == s.(cq := s.cq[Slot(n, p.depth) := Cpl(s.pending[i], Tag(n, p.depth))],
                      log := s.log + [s.pending[i]], pending := s.pending[..i] + s.pending[i + 1..],
                      cqTag := Tag(n + 1, p.depth), cqTail := Slot(n + 1, p.depth))
    ensures Inv(p, s')
  {
    var a := Acked(p, s);
    SentBound(p, s);
    PostedKept(s.cq, s.log, a, s.pending[i]);
    PostedOnce(s.log, s.pending, s.fetched, a, Round(s), i);
    forall u: nat | Collected(p, s'.threads, Round(s), u) ensures GotAt(p, s'.got, s'.log, a, u) {
      assert GotAt(p, s.got, s.log, a, u);
    }
  }

  lemma PostKeeps(p: Params, s: State, i: nat)
    requires ParamsOk(p) && Inv(p, s) && Enabled(p, s, Post(i))
    ensures Inv(p, Next(p, s, Post(i)))
  {
    PostMoves(p, s, i);
    Posted(p, s, Next(p, s, Post(i)), i, |s.log|);
  }

  lemma StepKeepsInv(p: Params, s: State, step: Step)
    requires ParamsOk(p) && Inv(p, s) && Enabled(p, s, step)
    ensures Inv(p, Next(p, s, step))
  {
    match step
    case Fetch => FetchKeeps(p, s);
    case Post(i) => PostKeeps(p, s, i);
    case Move(t) =>
      match s.threads[t].pc
      case Enqueue => EnqueueKeeps(p, s, t);
      case Meet => MeetKeeps(p, s, t);
      case Ring => RingKeeps(p, s, t);
      case Reap => ReapKeeps(p, s, t);
      case MeetAgain => MeetKeeps(p, s, t);
      case Acknowledge => AcknowledgeKeeps(p, s, t);
  }

  lemma InitialInv(p: Params, s: State)
    requires ParamsOk(p) && Initial(p, s)
    ensures Inv(p, s)
  {
    assert Partition([], [], [], 0);
    assert s.log[0..] == [] && Cids([]) == [];
    forall j: nat | 0 <= j < p.depth ensures StaleAt(s.cq, j) {
    }
  }

  lemma {:induction false} RunKeepsInv(p: Params, s: State, run: seq<Step>)
    requires ParamsOk(p) && Inv(p, s) && Possible(p, s, run)
    ensures Inv(p, After(p, s, run))
    decreases |run|
  {
    if run != [] {
      StepKeepsInv(p, s, run[0]);
      RunKeepsInv(p, Next(p, s, run[0]), run[1..]);
    }
  }
}
