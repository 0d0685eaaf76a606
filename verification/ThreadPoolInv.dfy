/**
 What every step of the thread-pool queue keeps.

 `PlacesInv`: every request entry is in exactly one place, and `outstanding` counts the entries that
 are under way. `TicketInv`: submissions start in submission order, run exactly once and are called
 back exactly once, in the order in which they finished. `WakeInv`: no wake-up is lost.
 */
module ThreadPoolInv {
  import opened Memory
  import opened ThreadPool
  import opened Lists

  // ---------------------------------------------------------------------------------------------
  // Counting

  predicate Holds(w: Worker, e: Entry) {
    w.Running? && w.entry == e
  }

  predicate IsReady(w: Worker) {
    w.Start? || w.Woken?
  }

  /** How many of the first `k` workers hold entry `e`. */
  function HoldersTo(ws: seq<Worker>, e: Entry, k: nat): nat
    requires k <= |ws|
  {
    if k == 0 then 0 else HoldersTo(ws, e, k - 1) + Flag(Holds(ws[k - 1], e))
  }

  /** How many of the first `k` workers are executing. */
  function BusyTo(ws: seq<Worker>, k: nat): nat
    requires k <= |ws|
  {
    if k == 0 then 0 else BusyTo(ws, k - 1) + Flag(ws[k - 1].Running?)
  }

  /** How many of the first `k` workers are about to look at the submission queue. */
  function ReadyTo(ws: seq<Worker>, k: nat): nat
    requires k <= |ws|
  {
    if k == 0 then 0 else ReadyTo(ws, k - 1) + Flag(IsReady(ws[k - 1]))
  }

  function Holders(ws: seq<Worker>, e: Entry): nat { HoldersTo(ws, e, |ws|) }

  function Busy(ws: seq<Worker>): nat { BusyTo(ws, |ws|) }

  function Ready(ws: seq<Worker>): nat { ReadyTo(ws, |ws|) }

  lemma {:induction false} HoldersUpdate(ws: seq<Worker>, w: nat, x: Worker, e: Entry, k: nat)
    requires w < |ws| && k <= |ws|
    ensures HoldersTo(ws[w := x], e, k) + (if w < k then Flag(Holds(ws[w], e)) else 0)
         == HoldersTo(ws, e, k) + (if w < k then Flag(Holds(x, e)) else 0)
  {
    if k != 0 {
      HoldersUpdate(ws, w, x, e, k - 1);
    }
  }

  lemma {:induction false} BusyUpdate(ws: seq<Worker>, w: nat, x: Worker, k: nat)
    requires w < |ws| && k <= |ws|
    ensures BusyTo(ws[w := x], k) + (if w < k then Flag(ws[w].Running?) else 0)
         == BusyTo(ws, k) + (if w < k then Flag(x.Running?) else 0)
  {
    if k != 0 {
      BusyUpdate(ws, w, x, k - 1);
    }
  }

  lemma {:induction false} ReadyUpdate(ws: seq<Worker>, w: nat, x: Worker, k: nat)
    requires w < |ws| && k <= |ws|
    ensures ReadyTo(ws[w := x], k) + (if w < k then Flag(IsReady(ws[w])) else 0)
         == ReadyTo(ws, k) + (if w < k then Flag(IsReady(x)) else 0)
  {
    if k != 0 {
      ReadyUpdate(ws, w, x, k - 1);
    }
  }

  /** Waking everybody up takes no entry from anybody. */
  lemma {:induction false} WakeAllKeepsEntries(ws: seq<Worker>, e: Entry, k: nat)
    requires k <= |ws|
    ensures HoldersTo(WakeAll(ws), e, k) == HoldersTo(ws, e, k)
    ensures BusyTo(WakeAll(ws), k) == BusyTo(ws, k)
  {
    if k != 0 {
      WakeAllKeepsEntries(ws, e, k - 1);
    }
  }

  lemma {:induction false} AllStartCounts(ws: seq<Worker>, e: Entry, k: nat)
    requires k <= |ws| && forall w | 0 <= w < |ws| :: ws[w] == Start
    ensures HoldersTo(ws, e, k) == 0 && BusyTo(ws, k) == 0 && ReadyTo(ws, k) == k
  {
    if k != 0 {
      AllStartCounts(ws, e, k - 1);
    }
  }

  lemma {:induction false} HolderCounts(ws: seq<Worker>, w: nat, e: Entry, k: nat)
    requires w < k <= |ws| && Holds(ws[w], e)
    ensures HoldersTo(ws, e, k) >= 1 && BusyTo(ws, k) >= 1
  {
    if w < k - 1 {
      HolderCounts(ws, w, e, k - 1);
    }
  }

  // ---------------------------------------------------------------------------------------------
  // Every entry is in exactly one place

  /** The entries of the batch that are not back in the pool yet. */
  function PendingOf(f: Frame): seq<Entry> {
    if f.Poking? && f.next <= |f.batch| then f.batch[f.next..] else []
  }

  function BatchSize(f: Frame): nat {
    if f.Poking? then |f.batch| else 0
  }

  predicate InHandIs(u: Submit, e: Entry) {
    u.InHand? && u.entry == e
  }

  /** In how many places entry `e` is: request pool, submission queue, completion queue, batch being
      reaped, submitter's hand, workers. */
  function PlacesOf(s: State, e: Entry): nat {
    Occurs(s.rp, e) + Occurs(s.sq, e) + Occurs(s.cq, e) + Occurs(PendingOf(s.frame), e)
    + Flag(InHandIs(s.submit, e)) + Holders(s.workers, e)
  }

  ghost predicate FrameInv(s: State) {
    && (s.frame.Poking? ==> s.frame.next <= |s.frame.batch|)
    && (s.frame.Poking? && s.frame.inCallback ==> s.frame.next < |s.frame.batch|)
    && (s.frame.Poking? && !s.frame.inCallback ==> s.submit.Free?)
    && (s.frame.Joining? || s.frame.Closed? ==> s.submit.Free?)
  }

  ghost predicate PlacesInv(s: State) {
    && (forall e: Entry :: PlacesOf(s, e) == Flag(e < Capacity(s)))
  }

  ghost predicate CountInv(s: State) {
    && FrameInv(s)
    && |s.rp| + |s.sq| + |s.cq| + |PendingOf(s.frame)| + Flag(s.submit.InHand?) + Busy(s.workers) == Capacity(s)
    && s.outstanding == |s.sq| + Busy(s.workers) + |s.cq| + BatchSize(s.frame)
    && s.outstanding + Flag(s.submit.InHand?) <= Capacity(s)
    && !s.refused
  }

  /** Admission is enough: when the guard lets a submission through, the request pool has an entry,
      also inside a callback, where `outstanding` still counts the batch being reaped. */
  lemma AdmissionSuffices(s: State)
    requires CountInv(s) && CanSubmit(s) && s.outstanding != Capacity(s)
    ensures s.rp != []
  {
  }

  lemma InitPlaces(s: State)
    requires Init(s)
    ensures PlacesInv(s) && CountInv(s)
  {
    forall e: Entry ensures PlacesOf(s, e) == Flag(e < Capacity(s)) {
      InitialPoolOnce(Capacity(s), e);
      AllStartCounts(s.workers, e, |s.workers|);
    }
    AllStartCounts(s.workers, 0, |s.workers|);
  }

  /** What a worker step does to the place of one entry. */
  lemma PlaceKeptByWorker(s: State, step: Step, e: Entry)
    requires Enabled(s, step)
    requires step.Signal? || step.Lock? || step.WakeUp? || step.Move? || step.Complete?
    ensures PlacesOf(Next(s, step), e) == PlacesOf(s, e)
  {
    var s', w := Next(s, step), step.w;
    if w < |s.workers| {
      HoldersUpdate(s.workers, w, s'.workers[w], e, |s.workers|);
      assert s'.workers == s.workers[w := s'.workers[w]];
    }
    if step.Lock? && s.sq != [] {
      OccursHead(s.sq, e);
    } else if step.Complete? {
      OccursAppend(s.cq, s.workers[w].entry, e);
    }
  }

  lemma PlaceKeptByReap(s: State, max: nat, e: Entry)
    requires Enabled(s, Reap(max))
    ensures PlacesOf(Reaped(s, max), e) == PlacesOf(s, e)
  {
    var k := BatchLen(s, max);
    OccursSplit(s.cq, k, e);
    assert PendingOf(Reaped(s, max).frame) == s.cq[..k];
  }

  lemma PlaceKeptByReturn(s: State, e: Entry)
    requires Enabled(s, Return)
    ensures PlacesOf(Returned(s), e) == PlacesOf(s, e)
  {
    OccursHead(PendingOf(s.frame), e);
    assert PendingOf(s.frame)[1..] == PendingOf(Returned(s).frame);
    OccursAppend(s.rp, s.frame.batch[s.frame.next], e);
  }

  lemma PlaceKeptBySubmitter(s: State, step: Step, e: Entry)
    requires Enabled(s, step) && FrameInv(s)
    requires !(step.Signal? || step.Lock? || step.WakeUp? || step.Move? || step.Complete?)
    ensures PlacesOf(Next(s, step), e) == PlacesOf(s, e)
  {
    match step
    case Take(_) => if s.rp != [] { OccursHead(s.rp, e); }
    case Push => OccursAppend(s.sq, s.submit.entry, e);
    case Reap(max) => PlaceKeptByReap(s, max, e);
    case Return => PlaceKeptByReturn(s, e);
    case Term => WakeAllKeepsEntries(s.workers, e, |s.workers|);
    case _ =>
  }

  /** No step loses or duplicates an entry. */
  lemma PlacesKept(s: State, step: Step)
    requires PlacesInv(s) && FrameInv(s) && Enabled(s, step)
    ensures PlacesInv(Next(s, step))
  {
    var s' := Next(s, step);
    assert Capacity(s') == Capacity(s);
    forall e: Entry ensures PlacesOf(s', e) == Flag(e < Capacity(s')) {
      assert PlacesOf(s, e) == Flag(e < Capacity(s));
      if step.Signal? || step.Lock? || step.WakeUp? || step.Move? || step.Complete? {
        PlaceKeptByWorker(s, step, e);
      } else {
        PlaceKeptBySubmitter(s, step, e);
      }
    }
  }

  lemma CountKeptByWorker(s: State, step: Step)
    requires CountInv(s) && Enabled(s, step)
    requires step.Signal? || step.Lock? || step.WakeUp? || step.Move? || step.Complete?
    ensures CountInv(Next(s, step))
  {
    var s', w := Next(s, step), step.w;
    if w < |s.workers| {
      BusyUpdate(s.workers, w, s'.workers[w], |s.workers|);
      assert s'.workers == s.workers[w := s'.workers[w]];
    }
  }

  /** `outstanding` keeps counting the entries under way, the whole batch being reaped included. */
  lemma CountKept(s: State, step: Step)
    requires CountInv(s) && Enabled(s, step)
    ensures CountInv(Next(s, step))
  {
    if step.Signal? || step.Lock? || step.WakeUp? || step.Move? || step.Complete? {
      CountKeptByWorker(s, step);
    } else if step.Take? {
      AdmissionSuffices(s);
    } else if step.Term? {
      WakeAllKeepsEntries(s.workers, 0, |s.workers|);
    }
  }

  // ---------------------------------------------------------------------------------------------
  // No lost wake-up

  /** A worker sleeps only while every queued entry has somebody on the way to it: a worker about to
      look at the queue, or the signal the submitter still owes. After the stop flag nobody sleeps,
      and before it nobody has left. */
  ghost predicate WakeInv(s: State) {
    && s.workers != []
    && (s.stop <==> s.frame.Joining? || s.frame.Closed?)
    && (s.stop ==> NoneWaiting(s.workers))
    && (!s.stop ==> forall w | 0 <= w < |s.workers| :: !s.workers[w].Exited?)
    && (NoneWaiting(s.workers) || |s.sq| <= Ready(s.workers) + Flag(s.submit.OwesSignal?))
    && (s.frame.Closed? ==> AllExited(s.workers))
  }

  lemma WakeKeptByWorker(s: State, step: Step)
    requires WakeInv(s) && Enabled(s, step)
    requires step.Lock? || step.WakeUp? || step.Move? || step.Complete?
    ensures WakeInv(Next(s, step))
  {
    var s', w := Next(s, step), step.w;
    ReadyUpdate(s.workers, w, s'.workers[w], |s.workers|);
    assert s'.workers == s.workers[w := s'.workers[w]];
    assert s.stop ==> !s'.workers[w].Waiting?;
    if NoneWaiting(s.workers) && !s'.workers[w].Waiting? {
      assert NoneWaiting(s'.workers);
    }
  }

  lemma WakeKeptBySignal(s: State, w: nat)
    requires WakeInv(s) && Enabled(s, Signal(w))
    ensures WakeInv(Next(s, Signal(w)))
  {
    var s' := Next(s, Signal(w));
    if w < |s.workers| && s.workers[w].Waiting? {
      ReadyUpdate(s.workers, w, Woken, |s.workers|);
    }
  }

  lemma WakeKeptBySubmitter(s: State, step: Step)
    requires WakeInv(s) && FrameInv(s) && Enabled(s, step)
    requires !(step.Signal? || step.Lock? || step.WakeUp? || step.Move? || step.Complete?)
    ensures WakeInv(Next(s, step))
  {
  }

  /** No step loses a wake-up. */
  lemma WakeKept(s: State, step: Step)
    requires WakeInv(s) && FrameInv(s) && Enabled(s, step)
    ensures WakeInv(Next(s, step))
  {
    if step.Signal? {
      WakeKeptBySignal(s, step.w);
    } else if step.Lock? || step.WakeUp? || step.Move? || step.Complete? {
      WakeKeptByWorker(s, step);
    } else {
      WakeKeptBySubmitter(s, step);
    }
  }

  lemma InitWake(s: State)
    requires Init(s)
    ensures WakeInv(s)
  {
  }

  // ---------------------------------------------------------------------------------------------
  // Tickets: exactly once, in order

  /** Finished entries whose callback has not begun yet, oldest first. */
  function Unreported(s: State): seq<Entry> {
    (if s.frame.Poking? && s.frame.next + Flag(s.frame.inCallback) <= |s.frame.batch|
     then s.frame.batch[s.frame.next + Flag(s.frame.inCallback)..] else [])
    + s.cq
  }

  predicate Carries(s: State, e: Entry, t: nat) {
    e < |s.ticket| && s.ticket[e] == t
  }

  predicate RunsTicket(s: State, w: nat, t: nat)
    requires w < |s.workers|
  {
    s.workers[w].Running? && Carries(s, s.workers[w].entry, t)
  }

  /** The submission queue holds the submissions that have not started, in submission order. */
  ghost predicate QueueInv(s: State) {
    && |s.done| == |s.subs| == s.started + |s.sq|
    && (forall k | 0 <= k < |s.sq| :: Carries(s, s.sq[k], s.started + k))
  }

  ghost predicate ProgressInv(s: State) {
    && |s.done| == |s.subs|
    && (forall t | 0 <= t < |s.subs| :: InBounds(s.subs[t], |s.mem|) && s.done[t] <= |s.subs[t]|)
    && (forall t | s.started <= t < |s.subs| :: s.done[t] == 0)
    && (s.submit.InHand? ==> InBounds(s.submit.prog, |s.mem|))
  }

  ghost predicate FinishedInv(s: State) {
    && s.started <= |s.subs| == |s.done|
    && Distinct(s.finished)
    && (forall i | 0 <= i < |s.finished| ::
          s.finished[i] < s.started && s.done[s.finished[i]] == |s.subs[s.finished[i]]|)
  }

  /** A worker executes a submission that has started and not finished, at the point its history says. */
  ghost predicate WorkerOk(s: State, w: nat)
    requires w < |s.workers|
  {
    s.workers[w].Running? ==>
      && s.workers[w].entry < |s.ticket|
      && var t := s.ticket[s.workers[w].entry];
        && t < s.started && t < |s.done|
        && t !in s.finished
        && s.done[t] == s.workers[w].pc
  }

  ghost predicate DifferentTickets(s: State, v: nat, w: nat)
    requires v < |s.workers| && w < |s.workers|
  {
    s.workers[v].Running? && s.workers[w].Running?
    && s.workers[v].entry < |s.ticket| && s.workers[w].entry < |s.ticket|
    ==> s.ticket[s.workers[v].entry] != s.ticket[s.workers[w].entry]
  }

  ghost predicate WorkersInv(s: State) {
    && (forall w | 0 <= w < |s.workers| :: WorkerOk(s, w))
    && (forall v, w | 0 <= v < w < |s.workers| :: DifferentTickets(s, v, w))
  }

  ghost predicate UnderWay(s: State, t: nat) {
    exists w :: 0 <= w < |s.workers| && RunsTicket(s, w, t)
  }

  /** A submission that has started is being executed or has finished. */
  ghost predicate CoverInv(s: State) {
    forall t | 0 <= t < s.started :: t in s.finished || UnderWay(s, t)
  }

  /** Callbacks happen in the order in which submissions finished, each of them once. */
  ghost predicate ReportInv(s: State) {
    && |s.finished| == |s.called| + |Unreported(s)|
    && (forall i | 0 <= i < |s.called| :: s.called[i] == s.finished[i])
    && (forall k | 0 <= k < |Unreported(s)| :: Carries(s, Unreported(s)[k], s.finished[|s.called| + k]))
  }

  ghost predicate TicketInv(s: State) {
    QueueInv(s) && ProgressInv(s) && FinishedInv(s) && WorkersInv(s) && CoverInv(s) && ReportInv(s)
  }

  lemma InitTickets(s: State)
    requires Init(s)
    ensures TicketInv(s)
  {
  }

  // -- Push: a fresh ticket for the entry in hand, which is nowhere else

  lemma HandElsewhere(s: State)
    requires PlacesInv(s) && FrameInv(s) && s.submit.InHand?
    ensures s.submit.entry < Capacity(s)
    ensures s.submit.entry !in s.sq && s.submit.entry !in Unreported(s)
    ensures forall w | 0 <= w < |s.workers| :: !Holds(s.workers[w], s.submit.entry)
  {
    var e := s.submit.entry;
    assert PlacesOf(s, e) == Flag(e < Capacity(s));
    forall w | 0 <= w < |s.workers| ensures !Holds(s.workers[w], e) {
      if Holds(s.workers[w], e) {
        HolderCounts(s.workers, w, e, |s.workers|);
      }
    }
    assert forall x <- Unreported(s) :: x in PendingOf(s.frame) || x in s.cq;
  }

  lemma PushKeepsWorkers(s: State)
    requires PlacesInv(s) && FrameInv(s) && TicketInv(s) && Enabled(s, Push)
    ensures WorkersInv(Queued(s)) && CoverInv(Queued(s))
  {
    HandElsewhere(s);
    var s' := Queued(s);
    forall w | 0 <= w < |s'.workers| ensures WorkerOk(s', w) {
      assert WorkerOk(s, w) && !Holds(s.workers[w], s.submit.entry);
    }
    forall v, w | 0 <= v < w < |s'.workers| ensures DifferentTickets(s', v, w) {
      assert DifferentTickets(s, v, w);
      assert !Holds(s.workers[v], s.submit.entry) && !Holds(s.workers[w], s.submit.entry);
    }
    forall t | 0 <= t < s'.started ensures t in s'.finished || UnderWay(s', t) {
      if t !in s.finished {
        assert UnderWay(s, t);
        var w :| 0 <= w < |s.workers| && RunsTicket(s, w, t);
        assert !Holds(s.workers[w], s.submit.entry);
        assert RunsTicket(s', w, t);
      }
    }
  }

  lemma PushKeepsReport(s: State)
    requires PlacesInv(s) && FrameInv(s) && ReportInv(s) && Enabled(s, Push)
    ensures ReportInv(Queued(s))
  {
    HandElsewhere(s);
    var s', u := Queued(s), Unreported(s);
    assert Unreported(s') == u;
    forall k | 0 <= k < |u| ensures Carries(s', u[k], s'.finished[|s'.called| + k]) {
      assert u[k] in u;
      assert Carries(s, u[k], s.finished[|s.called| + k]);
    }
  }

  lemma PushKeepsTickets(s: State)
    requires PlacesInv(s) && FrameInv(s) && TicketInv(s) && Enabled(s, Push)
    ensures TicketInv(Queued(s))
  {
    HandElsewhere(s);
    PushKeepsWorkers(s);
    PushKeepsReport(s);
    var s' := Queued(s);
    forall k | 0 <= k < |s'.sq| ensures Carries(s', s'.sq[k], s'.started + k) {
      if k < |s.sq| {
        assert s.sq[k] in s.sq;
        assert Carries(s, s.sq[k], s.started + k);
      }
    }
  }

  // -- Lock: the oldest queued submission starts

  lemma LockKeepsTickets(s: State, w: nat)
    requires TicketInv(s) && Enabled(s, Lock(w))
    ensures TicketInv(Locked(s, w))
  {
    var s' := Locked(s, w);
    assert Unreported(s') == Unreported(s);
    if !s.stop && s.sq != [] {
      assert Carries(s, s.sq[0], s.started + 0);
      forall k | 0 <= k < |s'.sq| ensures Carries(s', s'.sq[k], s'.started + k) {
        assert Carries(s, s.sq[k + 1], s.started + (k + 1));
      }
      assert RunsTicket(s', w, s.started);
    }
    LockKeepsWorkers(s, w);
  }

  lemma LockKeepsWorkers(s: State, w: nat)
    requires TicketInv(s) && Enabled(s, Lock(w))
    ensures WorkersInv(Locked(s, w)) && CoverInv(Locked(s, w))
  {
    var s' := Locked(s, w);
    if !s.stop && s.sq != [] {
      assert Carries(s, s.sq[0], s.started + 0);
    }
    forall v | 0 <= v < |s'.workers| ensures WorkerOk(s', v) {
      assert WorkerOk(s, v);
    }
    forall u, v | 0 <= u < v < |s'.workers| ensures DifferentTickets(s', u, v) {
      assert DifferentTickets(s, u, v) && WorkerOk(s, u) && WorkerOk(s, v);
    }
    forall t | 0 <= t < s'.started ensures t in s'.finished || UnderWay(s', t) {
      if t < s.started && t !in s.finished {
        assert UnderWay(s, t);
        var v :| 0 <= v < |s.workers| && RunsTicket(s, v, t);
        assert RunsTicket(s', v, t);
      } else if t == s.started {
        assert RunsTicket(s', w, t);
      }
    }
  }

  // -- Move: one byte of one submission

  lemma MoveKeepsTickets(s: State, w: nat)
    requires TicketInv(s) && Enabled(s, Move(w))
    ensures TicketInv(Moved(s, w))
    ensures Moved(s, w).mem == Exec(s.mem, HeldProgram(s, s.workers[w].entry)[s.workers[w].pc])
  {
    var s' := Moved(s, w);
    assert WorkerOk(s, w);
    assert Unreported(s') == Unreported(s);
    forall v | 0 <= v < |s'.workers| ensures WorkerOk(s', v) {
      assert WorkerOk(s, v);
      if v < w {
        assert DifferentTickets(s, v, w);
      } else if v > w {
        assert DifferentTickets(s, w, v);
      }
    }
    forall u, v | 0 <= u < v < |s'.workers| ensures DifferentTickets(s', u, v) {
      assert DifferentTickets(s, u, v);
    }
    forall t | 0 <= t < s'.started ensures t in s'.finished || UnderWay(s', t) {
      if t !in s.finished {
        assert UnderWay(s, t);
        var v :| 0 <= v < |s.workers| && RunsTicket(s, v, t);
        assert RunsTicket(s', v, t);
      }
    }
    forall k | 0 <= k < |s'.sq| ensures Carries(s', s'.sq[k], s'.started + k) {
      assert Carries(s, s.sq[k], s.started + k);
    }
    forall k | 0 <= k < |Unreported(s')| ensures Carries(s', Unreported(s')[k], s'.finished[|s'.called| + k]) {
      assert Carries(s, Unreported(s)[k], s.finished[|s.called| + k]);
    }
  }

  // -- Complete: a submission finishes

  lemma CompleteKeepsWorkers(s: State, w: nat)
    requires TicketInv(s) && Enabled(s, Complete(w))
    ensures WorkersInv(Completed(s, w)) && CoverInv(Completed(s, w))
  {
    var s' := Completed(s, w);
    assert WorkerOk(s, w);
    var t0 := s.ticket[s.workers[w].entry];
    forall v | 0 <= v < |s'.workers| ensures WorkerOk(s', v) {
      assert WorkerOk(s, v);
      if v < w {
        assert DifferentTickets(s, v, w);
      } else if v > w {
        assert DifferentTickets(s, w, v);
      }
    }
    forall u, v | 0 <= u < v < |s'.workers| ensures DifferentTickets(s', u, v) {
      assert DifferentTickets(s, u, v);
    }
    forall t | 0 <= t < s'.started ensures t in s'.finished || UnderWay(s', t) {
      if t == t0 {
        assert s'.finished[|s.finished|] == t0;
      } else if t !in s.finished {
        assert UnderWay(s, t);
        var v :| 0 <= v < |s.workers| && RunsTicket(s, v, t);
        assert RunsTicket(s', v, t);
      }
    }
  }

  lemma CompleteKeepsReport(s: State, w: nat)
    requires ReportInv(s) && Enabled(s, Complete(w)) && s.workers[w].entry < |s.ticket|
    ensures ReportInv(Completed(s, w))
  {
    var s', u := Completed(s, w), Unreported(s);
    var u' := Unreported(s');
    assert u' == u + [s.workers[w].entry];
    forall k | 0 <= k < |u'| ensures Carries(s', u'[k], s'.finished[|s'.called| + k]) {
      if k < |u| {
        assert Carries(s, u[k], s.finished[|s.called| + k]);
      }
    }
  }

  lemma CompleteKeepsTickets(s: State, w: nat)
    requires TicketInv(s) && Enabled(s, Complete(w))
    ensures TicketInv(Completed(s, w))
  {
    var s' := Completed(s, w);
    assert WorkerOk(s, w);
    CompleteKeepsWorkers(s, w);
    CompleteKeepsReport(s, w);
    forall k | 0 <= k < |s'.sq| ensures Carries(s', s'.sq[k], s'.started + k) {
      assert Carries(s, s.sq[k], s.started + k);
    }
  }

  // -- Steps that leave the histories of execution alone

  lemma QuietStepKeepsTickets(s: State, s': State)
    requires TicketInv(s)
    requires s'.mem == s.mem && s'.sq == s.sq && s'.ticket == s.ticket && s'.subs == s.subs && s'.done == s.done
    requires s'.started == s.started && s'.finished == s.finished && |s'.workers| == |s.workers|
    requires s'.submit.InHand? ==> InBounds(s'.submit.prog, |s'.mem|)
    requires forall w | 0 <= w < |s.workers| ::
               s'.workers[w] == s.workers[w] || (!s'.workers[w].Running? && !s.workers[w].Running?)
    requires ReportInv(s')
    ensures TicketInv(s')
  {
    forall k | 0 <= k < |s'.sq| ensures Carries(s', s'.sq[k], s'.started + k) {
      assert Carries(s, s.sq[k], s.started + k);
    }
    forall w | 0 <= w < |s'.workers| ensures WorkerOk(s', w) {
      assert WorkerOk(s, w);
    }
    forall v, w | 0 <= v < w < |s'.workers| ensures DifferentTickets(s', v, w) {
      assert DifferentTickets(s, v, w);
    }
    forall t | 0 <= t < s'.started ensures t in s'.finished || UnderWay(s', t) {
      if t !in s.finished {
        assert UnderWay(s, t);
        var w :| 0 <= w < |s.workers| && RunsTicket(s, w, t);
        assert RunsTicket(s', w, t);
      }
    }
  }

  lemma SameReport(s: State, s': State)
    requires ReportInv(s) && s'.ticket == s.ticket && s'.finished == s.finished && s'.called == s.called
    requires Unreported(s') == Unreported(s)
    ensures ReportInv(s')
  {
    forall k | 0 <= k < |Unreported(s')| ensures Carries(s', Unreported(s')[k], s'.finished[|s'.called| + k]) {
      assert Carries(s, Unreported(s)[k], s.finished[|s.called| + k]);
    }
  }

  lemma CallKeepsReport(s: State)
    requires ReportInv(s) && Enabled(s, Call)
    ensures ReportInv(Called(s))
  {
    var s' := Called(s);
    var u := Unreported(s);
    assert u[0] == s.frame.batch[s.frame.next] && Unreported(s') == u[1..];
    assert Carries(s, u[0], s.finished[|s.called| + 0]);
    forall k | 0 <= k < |Unreported(s')| ensures Carries(s', Unreported(s')[k], s'.finished[|s'.called| + k]) {
      assert Carries(s, u[k + 1], s.finished[|s.called| + (k + 1)]);
    }
  }

  /** A poke hands the front of the completion queue to its batch. */
  lemma ReapKeepsReport(s: State, max: nat)
    requires ReportInv(s) && Enabled(s, Reap(max))
    ensures ReportInv(Reaped(s, max))
  {
    var k := BatchLen(s, max);
    assert s.cq[..k] + s.cq[k..] == s.cq;
    assert Unreported(Reaped(s, max)) == Unreported(s);
    SameReport(s, Reaped(s, max));
  }

  lemma QuietKeepsReport(s: State, step: Step)
    requires ReportInv(s) && FrameInv(s) && Enabled(s, step)
    requires !(step.Push? || step.Lock? || step.Move? || step.Complete? || step.Call? || step.Reap?)
    ensures ReportInv(Next(s, step))
  {
    var s' := Next(s, step);
    assert Unreported(s') == Unreported(s);
    SameReport(s, s');
  }

  lemma QuietKeepsTickets(s: State, step: Step)
    requires TicketInv(s) && FrameInv(s) && Enabled(s, step)
    requires !(step.Push? || step.Lock? || step.Move? || step.Complete?)
    ensures TicketInv(Next(s, step))
  {
    if step.Call? {
      CallKeepsReport(s);
    } else if step.Reap? {
      ReapKeepsReport(s, step.max);
    } else {
      QuietKeepsReport(s, step);
    }
    QuietStepKeepsTickets(s, Next(s, step));
  }

  /** No step breaks the order of starting, runs a submission twice or calls it back twice. */
  lemma TicketsKept(s: State, step: Step)
    requires PlacesInv(s) && FrameInv(s) && TicketInv(s) && Enabled(s, step)
    ensures TicketInv(Next(s, step))
  {
    match step
    case Push => PushKeepsTickets(s);
    case Lock(w) => LockKeepsTickets(s, w);
    case Move(w) => MoveKeepsTickets(s, w);
    case Complete(w) => CompleteKeepsTickets(s, w);
    case _ => QuietKeepsTickets(s, step);
  }

  // ---------------------------------------------------------------------------------------------
  // The invariant over runs

  ghost predicate Inv(s: State) {
    PlacesInv(s) && CountInv(s) && WakeInv(s) && TicketInv(s)
  }

  lemma InitInv(s: State)
    requires Init(s)
    ensures Inv(s)
  {
    InitPlaces(s);
    InitWake(s);
    InitTickets(s);
  }

  lemma StepKeepsInv(s: State, step: Step)
    requires Inv(s) && Enabled(s, step)
    ensures Inv(Next(s, step))
  {
    PlacesKept(s, step);
    CountKept(s, step);
    WakeKept(s, step);
    TicketsKept(s, step);
  }

  lemma {:induction false} RunKeepsInv(s: State, steps: seq<Step>)
    requires Inv(s) && Possible(s, steps)
    ensures Inv(After(s, steps))
    decreases |steps|
  {
    if steps != [] {
      var n := |steps| - 1;
      RunKeepsInv(s, steps[..n]);
      StepKeepsInv(After(s, steps[..n]), steps[n]);
    }
  }
}
