/**
 What the invariants of the thread-pool queue mean for every run: exactly-once execution and
 call-back, enough request entries, no lost wake-up, an orderly shutdown, and a memory that does
 not depend on the schedule.
 */
module ThreadPoolTheorems {
  import opened Common
  import opened Lists
  import opened Memory
  import opened ThreadPool
  import opened ThreadPoolInv

  lemma ReachableInv(s: State)
    requires Reachable(s)
    ensures Inv(s)
  {
    var s0: State, steps: seq<Step> :| Init(s0) && Possible(s0, steps) && After(s0, steps) == s;
    InitInv(s0);
    RunKeepsInv(s0, steps);
  }

  // ---------------------------------------------------------------------------------------------
  // Exactly once

  /** Every entry is in exactly one place; a submission is executed by at most one worker, finishes at
      most once, and is called back at most once, in the order of finishing, after all of its bytes. */
  lemma ExactlyOnce(s: State)
    requires Reachable(s)
    ensures forall e: Entry :: PlacesOf(s, e) == Flag(e < Capacity(s))
    ensures forall v, w | 0 <= v < w < |s.workers| :: DifferentTickets(s, v, w)
    ensures Distinct(s.finished) && Distinct(s.called) && s.called <= s.finished
    ensures forall i | 0 <= i < |s.called| ::
              s.called[i] < s.started <= |s.subs| == |s.done| && s.done[s.called[i]] == |s.subs[s.called[i]]|
  {
    ReachableInv(s);
    assert forall i | 0 <= i < |s.called| :: s.called[i] == s.finished[i];
    assert s.called == s.finished[..|s.called|];
  }

  /** No submission that passed the admission guard is refused for want of a request entry. */
  lemma NeverRefused(s: State)
    requires Reachable(s)
    ensures !s.refused
    ensures s.outstanding <= Capacity(s)
    ensures CanSubmit(s) && s.outstanding != Capacity(s) ==> s.rp != []
  {
    ReachableInv(s);
  }

  // ---------------------------------------------------------------------------------------------
  // What a poke takes

  /** A poke takes completions from the front of the completion queue and leaves the others there: no more than it
      was asked for, no more than are outstanding, and all of them unless it was asked for fewer. */
  lemma ReapTakes(s: State, max: nat)
    requires Enabled(s, Reap(max))
    ensures var s' := Next(s, Reap(max));
      && s'.frame.Poking? && s'.frame.next == 0 && !s'.frame.inCallback
      && s'.frame.batch + s'.cq == s.cq
      && (max != 0 ==> |s'.frame.batch| <= max)
      && |s'.frame.batch| <= s.outstanding
      && (Inv(s) ==> |s'.frame.batch| == |s.cq| || (max != 0 && |s'.frame.batch| == max))
  {
  }

  /** Between `s` and `t` a poke took `batch` and has called back the submissions of its first entries, in order. */
  ghost predicate MidPoke(s: State, t: State, batch: seq<Entry>) {
    && t.frame.Poking? && t.frame.batch == batch
    && s.called <= t.called
    && |t.called| == |s.called| + t.frame.next + Flag(t.frame.inCallback)
  }

  lemma MidPokeStep(s: State, t: State, step: Step, batch: seq<Entry>)
    requires Inv(t) && MidPoke(s, t, batch) && Enabled(t, step) && !step.Retire?
    ensures MidPoke(s, Next(t, step), batch)
  {
    if step.Call? {
      var e := batch[t.frame.next];
      OccursHead(PendingOf(t.frame), e);
      assert PlacesOf(t, e) == Flag(e < Capacity(t));
    }
  }

  /** From a reap up to the end of its poke, whatever the workers and the callbacks do in between: the poke calls back
      the entries it took and no others, so no more than it was asked for. */
  lemma {:induction false} PokeCallsBack(s: State, max: nat, steps: seq<Step>)
    requires Inv(s) && steps != [] && steps[0] == Reap(max) && Possible(s, steps)
    requires forall i | 0 < i < |steps| :: !steps[i].Retire?
    ensures Inv(After(s, steps)) && After(s, steps).frame.Poking?
    ensures var t := After(s, steps);
      && MidPoke(s, t, t.frame.batch) && t.frame.batch <= s.cq
      && |t.called| <= |s.called| + |t.frame.batch|
      && (max != 0 ==> |t.frame.batch| <= max)
      && (|t.frame.batch| == |s.cq| || (max != 0 && |t.frame.batch| == max))
    decreases |steps|
  {
    var n := |steps| - 1;
    if n == 0 {
      assert After(s, steps[..0]) == s;
      ReapTakes(s, max);
      StepKeepsInv(s, Reap(max));
    } else {
      PokeCallsBack(s, max, steps[..n]);
      var t := After(s, steps[..n]);
      MidPokeStep(s, t, steps[n], t.frame.batch);
      StepKeepsInv(t, steps[n]);
    }
  }

  /** When the poke ends it has called back all that it took, and exactly that is no longer outstanding. */
  lemma PokeEnds(s: State, max: nat, steps: seq<Step>)
    requires Inv(s) && steps != [] && steps[0] == Reap(max) && Possible(s, steps) && Enabled(After(s, steps), Retire)
    requires forall i | 0 < i < |steps| :: !steps[i].Retire?
    ensures var t := After(s, steps);
      var t' := Next(t, Retire);
      && t'.frame.Idle? && s.called <= t'.called
      && |t'.called| - |s.called| == t.outstanding - t'.outstanding <= |s.cq|
      && (max != 0 ==> |t'.called| - |s.called| <= max)
      && (|t'.called| - |s.called| == |s.cq| || (max != 0 && |t'.called| - |s.called| == max))
  {
    PokeCallsBack(s, max, steps);
  }

  // ---------------------------------------------------------------------------------------------
  // No lost wake-up

  lemma {:induction false} SomeReady(ws: seq<Worker>, k: nat) returns (w: nat)
    requires k <= |ws| && ReadyTo(ws, k) > 0
    ensures w < k && IsReady(ws[w])
  {
    if IsReady(ws[k - 1]) {
      w := k - 1;
    } else {
      w := SomeReady(ws, k - 1);
    }
  }

  lemma {:induction false} SomeBusy(ws: seq<Worker>, k: nat) returns (w: nat)
    requires k <= |ws| && BusyTo(ws, k) > 0
    ensures w < k && ws[w].Running?
  {
    if ws[k - 1].Running? {
      w := k - 1;
    } else {
      w := SomeBusy(ws, k - 1);
    }
  }

  /** While a worker sleeps, every queued entry has a worker on its way to the queue or the signal that
      the submitter still owes. */
  lemma NoLostWakeUp(s: State)
    requires Reachable(s) && !s.stop
    ensures (exists w :: 0 <= w < |s.workers| && s.workers[w].Waiting?)
            ==> |s.sq| <= Ready(s.workers) + Flag(s.submit.OwesSignal?)
    ensures s.sq != [] ==> s.submit.OwesSignal? || exists w :: 0 <= w < |s.workers| && !s.workers[w].Waiting?
  {
    ReachableInv(s);
    if s.sq != [] && !s.submit.OwesSignal? {
      if NoneWaiting(s.workers) {
        assert !s.workers[0].Waiting?;
      } else {
        var w := SomeReady(s.workers, |s.workers|);
        assert !s.workers[w].Waiting?;
      }
    }
  }

  /** The steps by which workers bring submissions forward. */
  predicate IsWorkStep(step: Step) {
    step.Lock? || step.Move? || step.Complete?
  }

  lemma RunningCanStep(s: State, w: nat) returns (step: Step)
    requires Inv(s) && w < |s.workers| && s.workers[w].Running?
    ensures IsWorkStep(step) && step.w == w && Enabled(s, step)
  {
    assert WorkerOk(s, w);
    var t := s.ticket[s.workers[w].entry];
    step := if s.workers[w].pc < |s.subs[t]| then Move(w) else Complete(w);
  }

  /** The queue cannot get stuck: with commands outstanding and the caller polling, there is a completion
      to reap, or a worker can take a step that is not going to sleep. */
  lemma NoDeadlock(s: State)
    requires Reachable(s) && s.frame.Idle? && s.submit.Free? && s.outstanding > 0
    ensures s.cq != []
            || exists step :: IsWorkStep(step) && Enabled(s, step)
                              && !(s.workers[step.w].Waiting? || Next(s, step).workers[step.w].Waiting?)
  {
    ReachableInv(s);
    if s.cq == [] {
      var step := WorkerCanStep(s);
    }
  }

  lemma WorkerCanStep(s: State) returns (step: Step)
    requires Inv(s) && s.frame.Idle? && s.submit.Free? && s.outstanding > 0 && s.cq == []
    ensures IsWorkStep(step) && Enabled(s, step)
    ensures !(s.workers[step.w].Waiting? || Next(s, step).workers[step.w].Waiting?)
  {
    if Busy(s.workers) > 0 {
      var w := SomeBusy(s.workers, |s.workers|);
      step := RunningCanStep(s, w);
    } else {
      var w: nat := 0;
      if !NoneWaiting(s.workers) {
        w := SomeReady(s.workers, |s.workers|);
      } else if s.workers[0].Running? {
        HolderCounts(s.workers, 0, s.workers[0].entry, |s.workers|);
      }
      assert IsReady(s.workers[w]);
      step := Lock(w);
    }
  }

  // ---------------------------------------------------------------------------------------------
  // Progress is bounded

  /** Bytes that the first `k` submissions have still to move. */
  function BytesLeft(subs: seq<Program>, done: seq<nat>, k: nat): nat
    requires k <= |subs| && k <= |done|
  {
    if k == 0 then 0
    else BytesLeft(subs, done, k - 1) + if done[k - 1] < |subs[k - 1]| then |subs[k - 1]| - done[k - 1] else 0
  }

  /** What is left to do for the batch of a poke: two turns an entry, and the end of the poke. */
  function BatchLeft(f: Frame): nat {
    if f.Poking? && f.batch != [] then
      if f.next < |f.batch| then 1 + 2 * (|f.batch| - f.next) - Flag(f.inCallback) else 1
    else 0
  }

  /** An entry has still to be taken, finished, reaped, called back and returned. */
  function WorkLeft(s: State): nat
    requires |s.subs| == |s.done|
  {
    BytesLeft(s.subs, s.done, |s.subs|) + 6 * |s.sq| + 5 * Busy(s.workers) + 4 * |s.cq| + BatchLeft(s.frame)
  }

  /** The steps that bring some submission forward. */
  predicate IsProductive(s: State, step: Step) {
    match step
    case Lock(_) => s.sq != [] && !s.stop
    case Move(_) => true
    case Complete(_) => true
    case Reap(_) => s.cq != []
    case Call => true
    case Return => true
    case Retire => s.frame.Poking? && s.frame.batch != []
    case _ => false
  }

  lemma {:induction false} BytesLeftUpdate(subs: seq<Program>, done: seq<nat>, t: nat, k: nat)
    requires k <= |subs| == |done| && t < |subs| && done[t] < |subs[t]|
    ensures BytesLeft(subs, done[t := done[t] + 1], k) == BytesLeft(subs, done, k) - Flag(t < k)
    decreases k
  {
    if k != 0 {
      BytesLeftUpdate(subs, done, t, k - 1);
    }
  }

  lemma MoveLowersWork(s: State, w: nat)
    requires Inv(s) && Enabled(s, Move(w))
    ensures WorkLeft(Moved(s, w)) < WorkLeft(s)
  {
    var e, pc := s.workers[w].entry, s.workers[w].pc;
    assert WorkerOk(s, w);
    BytesLeftUpdate(s.subs, s.done, s.ticket[e], |s.subs|);
    BusyUpdate(s.workers, w, Running(e, pc + 1), |s.workers|);
  }

  lemma LockLowersWork(s: State, w: nat)
    requires Inv(s) && Enabled(s, Lock(w))
    ensures WorkLeft(Locked(s, w)) <= WorkLeft(s)
    ensures s.sq != [] && !s.stop ==> WorkLeft(Locked(s, w)) < WorkLeft(s)
  {
    BusyUpdate(s.workers, w, Locked(s, w).workers[w], |s.workers|);
  }

  lemma CompleteLowersWork(s: State, w: nat)
    requires Inv(s) && Enabled(s, Complete(w))
    ensures WorkLeft(Completed(s, w)) < WorkLeft(s)
  {
    BusyUpdate(s.workers, w, Start, |s.workers|);
  }

  lemma ReapLowersWork(s: State, max: nat)
    requires Inv(s) && Enabled(s, Reap(max))
    ensures if s.cq != [] then WorkLeft(Reaped(s, max)) < WorkLeft(s) else WorkLeft(Reaped(s, max)) == WorkLeft(s)
  {
  }

  lemma FrameLowersWork(s: State, step: Step)
    requires Inv(s) && Enabled(s, step) && (step.Call? || step.Return? || step.Retire?)
    ensures WorkLeft(Next(s, step)) <= WorkLeft(s) && (IsProductive(s, step) ==> WorkLeft(Next(s, step)) < WorkLeft(s))
  {
  }

  lemma WakeKeepsWork(s: State, step: Step)
    requires Inv(s) && Enabled(s, step) && (step.Signal? || step.WakeUp? || step.Term? || step.Join?)
    ensures WorkLeft(Next(s, step)) == WorkLeft(s)
  {
    match step
    case Signal(w) =>
      if w < |s.workers| && s.workers[w].Waiting? {
        BusyUpdate(s.workers, w, Woken, |s.workers|);
      }
    case WakeUp(w) => BusyUpdate(s.workers, w, Woken, |s.workers|);
    case Term => WakeAllKeepsEntries(s.workers, 0, |s.workers|);
    case Join =>
  }

  lemma StepLowersWork(s: State, step: Step)
    requires Inv(s) && Enabled(s, step) && !step.Take? && !step.Push?
    ensures |Next(s, step).subs| == |Next(s, step).done|
    ensures WorkLeft(Next(s, step)) + Flag(IsProductive(s, step)) <= WorkLeft(s)
  {
    match step
    case Lock(w) => LockLowersWork(s, w);
    case Move(w) => MoveLowersWork(s, w);
    case Complete(w) => CompleteLowersWork(s, w);
    case Reap(max) => ReapLowersWork(s, max);
    case Call => FrameLowersWork(s, step);
    case Return => FrameLowersWork(s, step);
    case Retire => FrameLowersWork(s, step);
    case _ => WakeKeepsWork(s, step);
  }

  /** The productive steps of a run. */
  ghost function ProductiveSteps(s: State, steps: seq<Step>): nat
    requires Possible(s, steps)
    decreases |steps|
  {
    if steps == [] then 0
    else
      var n := |steps| - 1;
      ProductiveSteps(s, steps[..n]) + Flag(IsProductive(After(s, steps[..n]), steps[n]))
  }

  /** While nothing new is submitted, every productive step uses up some of the work that was left when the run
      began: there are at most that many of them, whatever the schedule. */
  lemma {:induction false} WorkRunsOut(s: State, steps: seq<Step>)
    requires Inv(s) && Possible(s, steps) && forall i | 0 <= i < |steps| :: !steps[i].Take? && !steps[i].Push?
    ensures Inv(After(s, steps)) && ProductiveSteps(s, steps) + WorkLeft(After(s, steps)) <= WorkLeft(s)
    decreases |steps|
  {
    if steps != [] {
      var n := |steps| - 1;
      WorkRunsOut(s, steps[..n]);
      StepKeepsInv(After(s, steps[..n]), steps[n]);
      StepLowersWork(After(s, steps[..n]), steps[n]);
    }
  }

  /** As long as commands are outstanding and the caller polls, some productive step is possible. */
  lemma ProductiveStepExists(s: State)
    requires Reachable(s) && s.frame.Idle? && s.submit.Free? && s.outstanding > 0
    ensures exists step :: IsProductive(s, step) && Enabled(s, step)
  {
    ReachableInv(s);
    if s.cq != [] {
      var step := Reap(0);
      assert IsProductive(s, step) && Enabled(s, step);
    } else {
      NoDeadlock(s);
      var step :| IsWorkStep(step) && Enabled(s, step)
                  && !(s.workers[step.w].Waiting? || Next(s, step).workers[step.w].Waiting?);
      assert IsProductive(s, step);
    }
  }

  // ---------------------------------------------------------------------------------------------
  // What can always be done

  /** The last step of a run. */
  lemma LastStep(s: State, steps: seq<Step>, front: seq<Step>, last: Step)
    requires steps == front + [last]
    ensures Possible(s, steps) <==> Possible(s, front) && Enabled(After(s, front), last)
    ensures Possible(s, steps) ==> After(s, steps) == Next(After(s, front), last)
  {
    assert steps[..|steps| - 1] == front;
  }

  lemma {:induction false} RunOneBefore(s: State, step: Step, steps: seq<Step>)
    requires Enabled(s, step) && Possible(Next(s, step), steps)
    ensures Possible(s, [step] + steps) && After(s, [step] + steps) == After(Next(s, step), steps)
    decreases |steps|
  {
    if steps == [] {
      LastStep(s, [step] + steps, [], step);
    } else {
      var front, last := steps[..|steps| - 1], steps[|steps| - 1];
      LastStep(Next(s, step), steps, front, last);
      RunOneBefore(s, step, front);
      LastStep(s, [step] + steps, [step] + front, last);
    }
  }

  /** Below its capacity the queue takes any command, from an idle caller and from within a callback: the command
      becomes the newest submission, at the end of the submission queue, and the submitter is free again. */
  lemma SubmissionGoesThrough(s: State, p: Program) returns (w: nat)
    requires Reachable(s) && s.submit.Free? && s.outstanding < Capacity(s) && InBounds(p, |s.mem|)
    requires s.frame.Idle? || (s.frame.Poking? && s.frame.inCallback)
    ensures Possible(s, [Take(p), Push, Signal(w)])
    ensures var t := After(s, [Take(p), Push, Signal(w)]);
      && t.subs == s.subs + [p] && t.outstanding == s.outstanding + 1 && t.submit.Free? && t.frame == s.frame
      && |t.sq| == |s.sq| + 1 && s.sq <= t.sq && t.mem == s.mem && t.called == s.called
  {
    ReachableInv(s);
    var a := Next(s, Take(p));
    var b := Next(a, Push);
    w := SignalTo(b);
    ThreeSteps(s, Take(p), Push, Signal(w));
  }

  lemma ThreeSteps(s: State, x: Step, y: Step, z: Step)
    requires Enabled(s, x) && Enabled(Next(s, x), y) && Enabled(Next(Next(s, x), y), z)
    ensures Possible(s, [x, y, z]) && After(s, [x, y, z]) == Next(Next(Next(s, x), y), z)
  {
    LastStep(s, [x], [], x);
    LastStep(s, [x, y], [x], y);
    LastStep(s, [x, y, z], [x, y], z);
  }

  /** A worker that a signal may go to. */
  lemma SignalTo(s: State) returns (w: nat)
    requires s.submit.OwesSignal?
    ensures Enabled(s, Signal(w))
  {
    w := 0;
    if !NoneWaiting(s.workers) {
      var v :| 0 <= v < |s.workers| && s.workers[v].Waiting?;
      w := v;
    }
  }

  /** The caller is polling, or will be when its callback returns. */
  predicate IsPolling(s: State) {
    s.submit.Free? && !s.stop && (s.frame.Idle? || s.frame.Poking?)
  }

  function DrainLeft(s: State): nat
    requires |s.subs| == |s.done|
  {
    2 * WorkLeft(s) + Flag(s.frame.Poking? && s.frame.batch == [])
  }

  /** The next step towards a drained queue. */
  lemma DrainStep(s: State) returns (step: Step)
    requires Inv(s) && IsPolling(s) && !Drained(s)
    ensures Enabled(s, step) && Inv(Next(s, step)) && IsPolling(Next(s, step)) && Next(s, step).subs == s.subs
    ensures DrainLeft(Next(s, step)) < DrainLeft(s)
  {
    if s.frame.Poking? {
      step := PokeStep(s);
    } else if s.cq != [] {
      step := Reap(0);
    } else {
      step := WorkerCanStep(s);
    }
    StaysPolling(s, step);
    StepKeepsInv(s, step);
    StepLowersWork(s, step);
  }

  lemma StaysPolling(s: State, step: Step)
    requires IsPolling(s) && Enabled(s, step)
    requires IsWorkStep(step) || step.Reap? || step.Call? || step.Return? || step.Retire?
    ensures IsPolling(Next(s, step)) && Next(s, step).subs == s.subs
  {
  }

  lemma PokeStep(s: State) returns (step: Step)
    requires Inv(s) && s.frame.Poking? && s.submit.Free?
    ensures Enabled(s, step) && (step.Call? || step.Return? || step.Retire?)
    ensures IsProductive(s, step) || (step.Retire? && s.frame.batch == [])
  {
    step := if s.frame.inCallback then Return else if s.frame.next < |s.frame.batch| then Call else Retire;
  }

  lemma {:induction false} DrainFrom(s: State) returns (steps: seq<Step>)
    requires Inv(s) && IsPolling(s)
    ensures Possible(s, steps) && Drained(After(s, steps)) && After(s, steps).subs == s.subs
    decreases DrainLeft(s)
  {
    if Drained(s) {
      steps := [];
    } else {
      var step := DrainStep(s);
      var rest := DrainFrom(Next(s, step));
      RunOneBefore(s, step, rest);
      steps := [step] + rest;
    }
  }

  /** Wherever a run has come to, the queue can be drained from there, without further submissions. */
  lemma DrainIsPossible(s: State) returns (steps: seq<Step>)
    requires Reachable(s) && IsPolling(s)
    ensures Possible(s, steps) && Drained(After(s, steps)) && After(s, steps).subs == s.subs
  {
    ReachableInv(s);
    steps := DrainFrom(s);
  }

  // ---------------------------------------------------------------------------------------------
  // Shutdown

  function Remaining(s: State, w: nat): nat
    requires w < |s.workers|
  {
    match s.workers[w]
    case Exited => 0
    case Running(e, pc) =>
      var n := |HeldProgram(s, e)|;
      if pc <= n then 2 + (n - pc) else 2
    case _ => 1
  }

  /** How many more steps the first `k` workers take before they are all gone. */
  function StepsLeft(s: State, k: nat): nat
    requires k <= |s.workers|
  {
    if k == 0 then 0 else StepsLeft(s, k - 1) + Remaining(s, k - 1)
  }

  lemma {:induction false} StepsLeftDecreases(s: State, s': State, w: nat, k: nat)
    requires w < |s.workers| == |s'.workers| && k <= |s.workers|
    requires forall v | 0 <= v < |s.workers| && v != w :: Remaining(s', v) == Remaining(s, v)
    requires Remaining(s', w) < Remaining(s, w)
    ensures if w < k then StepsLeft(s', k) < StepsLeft(s, k) else StepsLeft(s', k) == StepsLeft(s, k)
  {
    if k != 0 {
      StepsLeftDecreases(s, s', w, k - 1);
    }
  }

  /** After the stop flag and the broadcast nobody sleeps and nobody can fall asleep, and a worker that leaves
      holds nothing. */
  lemma NobodySleeps(s: State, step: Step)
    requires Reachable(s) && s.stop && Enabled(s, step)
    ensures NoneWaiting(s.workers) && NoneWaiting(Next(s, step).workers)
    ensures step.Lock? ==> Next(s, step).workers[step.w].Exited? && !s.workers[step.w].Running?
  {
    ReachableInv(s);
    StepKeepsInv(s, step);
  }

  /** Every step after the broadcast but the final join brings the workers closer to having left: `term`
      waits for a bounded number of steps, whatever the schedule. */
  lemma ShutdownTerminates(s: State, step: Step)
    requires Reachable(s) && s.stop && Enabled(s, step)
    ensures step.Join? || (IsWorkStep(step) && StepsLeft(Next(s, step), |s.workers|) < StepsLeft(s, |s.workers|))
  {
    ReachableInv(s);
    if step.Move? {
      assert WorkerOk(s, step.w);
    }
    if !step.Join? {
      assert step.Lock? || step.Move? || step.Complete?;
      StepsLeftDecreases(s, Next(s, step), step.w, |s.workers|);
    }
  }

  /** Until all workers have left, one of them can take a step: `term` does not wait for ever. */
  lemma ShutdownNotStuck(s: State)
    requires Reachable(s) && s.frame.Joining?
    ensures exists step :: Enabled(s, step)
  {
    ReachableInv(s);
    if AllExited(s.workers) {
      assert Enabled(s, Join);
    } else {
      var w :| 0 <= w < |s.workers| && !s.workers[w].Exited?;
      if s.workers[w].Running? {
        var step := RunningCanStep(s, w);
      } else {
        assert Enabled(s, Lock(w));
      }
    }
  }

  lemma ReachableNext(s: State, step: Step)
    requires Reachable(s) && Enabled(s, step)
    ensures Reachable(Next(s, step))
  {
    var s0: State, steps: seq<Step> :| Init(s0) && Possible(s0, steps) && After(s0, steps) == s;
    LastStep(s0, steps + [step], steps, step);
  }

  lemma {:induction false} ShutdownFrom(s: State) returns (steps: seq<Step>)
    requires Reachable(s) && s.stop
    ensures Possible(s, steps) && After(s, steps).frame.Closed?
    decreases if s.frame.Closed? then 0 else 1, StepsLeft(s, |s.workers|)
  {
    ReachableInv(s);
    if s.frame.Closed? {
      steps := [];
    } else {
      ShutdownNotStuck(s);
      var step :| Enabled(s, step);
      ShutdownTerminates(s, step);
      ReachableNext(s, step);
      var rest := ShutdownFrom(Next(s, step));
      RunOneBefore(s, step, rest);
      steps := [step] + rest;
    }
  }

  /** An idle caller can shut the queue down at any time, whatever the workers are doing: `term` comes to its end. */
  lemma ShutdownIsPossible(s: State) returns (steps: seq<Step>)
    requires Reachable(s) && s.frame.Idle? && s.submit.Free?
    ensures Possible(s, [Term] + steps) && After(s, [Term] + steps).frame.Closed?
  {
    ReachableNext(s, Term);
    steps := ShutdownFrom(Next(s, Term));
    RunOneBefore(s, Term, steps);
  }

  /** When `term` has joined the workers every entry is in one of the three lists: none is lost. */
  lemma NothingLostAtShutdown(s: State, e: Entry)
    requires Reachable(s) && s.frame.Closed? && e < Capacity(s)
    ensures Occurs(s.rp, e) + Occurs(s.sq, e) + Occurs(s.cq, e) == 1
  {
    ReachableInv(s);
    assert PlacesOf(s, e) == Flag(e < Capacity(s));
    if Holders(s.workers, e) > 0 {
      var w := SomeHolder(s.workers, e, |s.workers|);
    }
  }

  lemma {:induction false} SomeHolder(ws: seq<Worker>, e: Entry, k: nat) returns (w: nat)
    requires k <= |ws| && HoldersTo(ws, e, k) > 0
    ensures w < k && Holds(ws[w], e)
  {
    if Holds(ws[k - 1], e) {
      w := k - 1;
    } else {
      w := SomeHolder(ws, e, k - 1);
    }
  }

  // ---------------------------------------------------------------------------------------------
  // The memory does not depend on the schedule

  /** Nothing is outstanding, and the submitter is not inside a call. */
  ghost predicate Drained(s: State) {
    s.frame.Idle? && s.submit.Free? && s.outstanding == 0
  }

  /** A drained queue has executed and called back every submission, completely. */
  lemma DrainedMeansDone(s: State)
    requires Inv(s) && Drained(s)
    ensures s.sq == [] && s.cq == [] && s.started == |s.subs| == |s.done|
    ensures s.called == s.finished
    ensures forall t | 0 <= t < |s.subs| :: t in s.called && s.done[t] == |s.subs[t]|
  {
    assert Unreported(s) == [];
    assert s.called == s.finished;
    forall t | 0 <= t < |s.subs| ensures t in s.finished && s.done[t] == |s.subs[t]| {
      if t !in s.finished {
        assert UnderWay(s, t);
        var w :| 0 <= w < |s.workers| && RunsTicket(s, w, t);
        HolderCounts(s.workers, w, s.workers[w].entry, |s.workers|);
        assert false;
      }
      var i :| 0 <= i < |s.finished| && s.finished[i] == t;
    }
  }

  /** `s` continues the drained state `s0`: what was submitted since then explains the memory. */
  ghost predicate Continues(s0: State, s: State) {
    var n := |s0.subs|;
    && |s.mem| == |s0.mem|
    && n <= |s.subs| == |s.done|
    && (forall t | 0 <= t < n :: t in s.finished)
    && AllInBounds(s.subs[n..], |s0.mem|)
    && ValidProgress(s.subs[n..], s.done[n..])
    && (PairwiseIndependent(s.subs[n..]) ==> Consistent(s0.mem, s.mem, s.subs[n..], s.done[n..]))
  }

  lemma ContinuesStart(s: State)
    requires Inv(s) && Drained(s)
    ensures Continues(s, s)
  {
    DrainedMeansDone(s);
    assert s.subs[|s.subs|..] == [] && s.done[|s.subs|..] == [];
  }

  lemma ContinuesPush(s0: State, s: State)
    requires Inv(s) && Continues(s0, s) && Enabled(s, Push)
    ensures Continues(s0, Queued(s))
  {
    var n, s' := |s0.subs|, Queued(s);
    var progs, done, p := s.subs[n..], s.done[n..], s.submit.prog;
    assert s'.subs[n..] == progs + [p] && s'.done[n..] == done + [0];
    if PairwiseIndependent(progs + [p]) {
      IndependentOneMore(progs, p);
      JoinKeepsConsistent(s0.mem, s.mem, progs, done, p);
    }
  }

  lemma ContinuesMove(s0: State, s: State, w: nat)
    requires Inv(s) && Continues(s0, s) && Enabled(s, Move(w))
    ensures Continues(s0, Moved(s, w))
  {
    var t := MovesTicket(s0, s, w);
    MoveOne(s0, s, Moved(s, w), t);
  }

  /** A move is the next byte of a submission made since the drain. */
  lemma MovesTicket(s0: State, s: State, w: nat) returns (t: nat)
    requires Inv(s) && Continues(s0, s) && Enabled(s, Move(w))
    ensures |s0.subs| <= t < |s.subs| == |s.done| && s.done[t] < |s.subs[t]|
    ensures OpInBounds(s.subs[t][s.done[t]], |s.mem|)
    ensures var s' := Moved(s, w);
      && s'.subs == s.subs && s'.finished == s.finished && s'.mem == Exec(s.mem, s.subs[t][s.done[t]])
      && s'.done == s.done[t := s.done[t] + 1]
  {
    MoveKeepsTickets(s, w);
    assert WorkerOk(s, w);
    t := s.ticket[s.workers[w].entry];
    var progs := s.subs[|s0.subs|..];
    assert t >= |s0.subs|;
    assert progs[t - |s0.subs|] == s.subs[t];
  }

  lemma MoveOne(s0: State, s: State, s': State, t: nat)
    requires Continues(s0, s) && |s0.subs| <= t < |s.subs| && s.done[t] < |s.subs[t]|
    requires OpInBounds(s.subs[t][s.done[t]], |s.mem|) && s'.mem == Exec(s.mem, s.subs[t][s.done[t]])
    requires s'.subs == s.subs && s'.finished == s.finished && s'.done == s.done[t := s.done[t] + 1]
    ensures Continues(s0, s')
  {
    var n := |s0.subs|;
    var progs, done := s.subs[n..], s.done[n..];
    assert progs[t - n] == s.subs[t] && done[t - n] == s.done[t];
    assert s'.done[n..] == done[t - n := done[t - n] + 1];
    if PairwiseIndependent(progs) {
      StepKeepsConsistent(s0.mem, s.mem, progs, done, t - n);
    }
  }

  lemma ContinuesQuietly(s0: State, s: State, s': State)
    requires Continues(s0, s)
    requires s'.subs == s.subs && s'.done == s.done && s'.mem == s.mem && s.finished <= s'.finished
    ensures Continues(s0, s')
  {
    assert forall t | t in s.finished :: t in s'.finished;
  }

  lemma ContinuesStep(s0: State, s: State, step: Step)
    requires Inv(s) && Continues(s0, s) && Enabled(s, step)
    ensures Continues(s0, Next(s, step))
  {
    match step
    case Push => ContinuesPush(s0, s);
    case Move(w) => ContinuesMove(s0, s, w);
    case _ => ContinuesQuietly(s0, s, Next(s, step));
  }

  lemma {:induction false} ContinuesRun(s0: State, steps: seq<Step>)
    requires Inv(s0) && Drained(s0) && Possible(s0, steps)
    ensures Inv(After(s0, steps)) && Continues(s0, After(s0, steps))
    decreases |steps|
  {
    if steps == [] {
      ContinuesStart(s0);
    } else {
      var n := |steps| - 1;
      ContinuesRun(s0, steps[..n]);
      StepKeepsInv(After(s0, steps[..n]), steps[n]);
      ContinuesStep(s0, After(s0, steps[..n]), steps[n]);
    }
  }

  /** For any number of workers and any schedule: when the programs submitted between two drains are
      pairwise independent, the memory after the second drain is that of running them one by one in
      submission order. */
  lemma AsyncEqualsSequential(s0: State, steps: seq<Step>)
    requires Reachable(s0) && Drained(s0) && Possible(s0, steps) && Drained(After(s0, steps))
    requires var s := After(s0, steps); |s0.subs| <= |s.subs| && PairwiseIndependent(s.subs[|s0.subs|..])
    ensures var s := After(s0, steps);
      && AllInBounds(s.subs[|s0.subs|..], |s0.mem|)
      && s.mem == RunAll(s0.mem, s.subs[|s0.subs|..])
  {
    ReachableInv(s0);
    ContinuesRun(s0, steps);
    var s, n := After(s0, steps), |s0.subs|;
    DrainedMeansDone(s);
    InterleavingIsSequential(s0.mem, s.mem, s.subs[n..], s.done[n..]);
  }

  /** At every moment between two drains, a byte that none of the independent programs writes is as it was. */
  lemma UnwrittenStands(s0: State, steps: seq<Step>)
    requires Reachable(s0) && Drained(s0) && Possible(s0, steps)
    requires var s := After(s0, steps); |s0.subs| <= |s.subs| && PairwiseIndependent(s.subs[|s0.subs|..])
    ensures var s := After(s0, steps);
      && |s.mem| == |s0.mem|
      && forall a | 0 <= a < |s.mem| && (forall i | |s0.subs| <= i < |s.subs| :: !WritesTo(s.subs[i], a)) ::
           s.mem[a] == s0.mem[a]
  {
    ReachableInv(s0);
    ContinuesRun(s0, steps);
    var s, n := After(s0, steps), |s0.subs|;
    var progs := s.subs[n..];
    forall a | 0 <= a < |s.mem| && (forall i | n <= i < |s.subs| :: !WritesTo(s.subs[i], a))
      ensures s.mem[a] == s0.mem[a]
    {
      assert forall i | 0 <= i < |progs| :: !WritesTo(progs[i], a);
    }
  }
}
