/**
 The thread-pool queue: one submitter, which is also the reaper, and a fixed number of workers.

 Every critical section is one step, and so is every byte a worker moves while it executes a
 command outside the locks. `Next` is what the code does in a step; which enabled step happens
 next is left open, so a statement about all step sequences is a statement about all schedules.

 `subs`, `done`, `started`, `finished` and `called` are history. A submission is named by its
 ticket, its position in `subs`. `refused` records that the backend ran out of request entries.

 A few arms below only make the step functions total (an entry beyond the element array, a count
 that would go below zero); the invariants in ThreadPoolInv show that they are never taken.
 */
module ThreadPool {
  import opened Common
  import opened Memory
  import opened Lists

  datatype Worker =
    | Start                          // about to take the submission lock
    | Waiting                        // inside the condition wait, lock released
    | Woken                          // about to leave the condition wait, wants the lock
    | Running(entry: Entry, pc: nat) // executing its entry, `pc` bytes done
    | Exited

  datatype Submit =
    | Free
    | InHand(entry: Entry, prog: Program) // entry popped and filled, submission lock not taken yet
    | OwesSignal                          // entry queued and lock released, condition not signalled yet

  datatype Frame =
    | Idle
    | Poking(batch: seq<Entry>, next: nat, inCallback: bool)
    | Joining
    | Closed

  datatype State = State(
    mem: Mem,
    rp: seq<Entry>,
    sq: seq<Entry>,
    cq: seq<Entry>,
    ticket: seq<nat>,
    outstanding: nat,
    stop: bool,
    workers: seq<Worker>,
    submit: Submit,
    frame: Frame,
    subs: seq<Program>,
    done: seq<nat>,
    started: nat,
    finished: seq<nat>,
    called: seq<nat>,
    refused: bool)

  function Capacity(s: State): nat {
    |s.ticket|
  }

  ghost predicate Init(s: State) {
    && s.rp == InitialPool(Capacity(s))
    && s.sq == [] && s.cq == []
    && s.outstanding == 0 && !s.stop
    && s.workers != [] && (forall w | 0 <= w < |s.workers| :: s.workers[w] == Start)
    && s.submit == Free && s.frame == Idle
    && s.subs == [] && s.done == [] && s.started == 0 && s.finished == [] && s.called == []
    && !s.refused
  }

  datatype Step =
    | Take(prog: Program) // admission guard passed; pop an entry from the request pool and fill it
    | Push                // submission lock: append the entry, count it
    | Signal(w: nat)      // signal the condition
    | Lock(w: nat)        // a worker gets the submission lock
    | WakeUp(w: nat)      // a spurious wake-up
    | Move(w: nat)        // a worker moves one byte
    | Complete(w: nat)    // completion lock: a worker appends its entry
    | Reap(max: nat)      // completion lock: a poke takes a batch
    | Call                // the callback of the next entry of the batch begins
    | Return              // that callback returns; the entry goes back to the pool
    | Retire              // the poke is over
    | Term                // submission lock: stop and broadcast
    | Join                // all workers have exited

  predicate CanSubmit(s: State) {
    s.submit.Free? && (s.frame.Idle? || (s.frame.Poking? && s.frame.inCallback))
  }

  ghost predicate NoneWaiting(ws: seq<Worker>) {
    forall w | 0 <= w < |ws| :: !ws[w].Waiting?
  }

  ghost predicate AllExited(ws: seq<Worker>) {
    forall w | 0 <= w < |ws| :: ws[w].Exited?
  }

  /** The program of the entry a worker holds. */
  function HeldProgram(s: State, e: Entry): Program {
    if e < |s.ticket| && s.ticket[e] < |s.subs| then s.subs[s.ticket[e]] else []
  }

  ghost predicate Enabled(s: State, step: Step) {
    match step
    case Take(p) => CanSubmit(s) && s.outstanding != Capacity(s) && InBounds(p, |s.mem|)
    case Push => s.submit.InHand?
    case Signal(w) =>
      && s.submit.OwesSignal?
      && (NoneWaiting(s.workers) || (w < |s.workers| && s.workers[w].Waiting?))
    case Lock(w) => w < |s.workers| && (s.workers[w].Start? || s.workers[w].Woken?)
    case WakeUp(w) => w < |s.workers| && s.workers[w].Waiting?
    case Move(w) =>
      && w < |s.workers| && s.workers[w].Running?
      && s.workers[w].pc < |HeldProgram(s, s.workers[w].entry)|
    case Complete(w) =>
      && w < |s.workers| && s.workers[w].Running?
      && s.workers[w].pc == |HeldProgram(s, s.workers[w].entry)|
    case Reap(_) => s.frame.Idle? && s.submit.Free? && s.outstanding != 0
    case Call => s.frame.Poking? && !s.frame.inCallback && s.frame.next < |s.frame.batch|
    case Return => s.frame.Poking? && s.frame.inCallback && s.frame.next < |s.frame.batch| && s.submit.Free?
    case Retire => s.frame.Poking? && !s.frame.inCallback && s.frame.next >= |s.frame.batch|
    case Term => s.frame.Idle? && s.submit.Free?
    case Join => s.frame.Joining? && AllExited(s.workers)
  }

  function WakeAll(ws: seq<Worker>): (r: seq<Worker>)
    ensures |r| == |ws|
    ensures forall w | 0 <= w < |ws| :: r[w] == if ws[w].Waiting? then Woken else ws[w]
  {
    if ws == [] then [] else WakeAll(ws[..|ws| - 1]) + [if ws[|ws| - 1].Waiting? then Woken else ws[|ws| - 1]]
  }

  /** One turn of the worker loop under the submission lock. */
  function Locked(s: State, w: nat): State
    requires w < |s.workers|
  {
    if s.stop then s.(workers := s.workers[w := Exited])
    else if s.sq == [] then s.(workers := s.workers[w := Waiting])
    else s.(sq := s.sq[1..], workers := s.workers[w := Running(s.sq[0], 0)], started := s.started + 1)
  }

  function Queued(s: State): State
    requires s.submit.InHand?
  {
    var e := s.submit.entry;
    s.(sq := s.sq + [e],
       outstanding := s.outstanding + 1,
       submit := OwesSignal,
       ticket := if e < |s.ticket| then s.ticket[e := |s.subs|] else s.ticket,
       subs := s.subs + [s.submit.prog],
       done := s.done + [0])
  }

  function Moved(s: State, w: nat): State
    requires w < |s.workers| && s.workers[w].Running?
    requires s.workers[w].pc < |HeldProgram(s, s.workers[w].entry)|
  {
    var Running(e, pc) := s.workers[w];
    var op, t := HeldProgram(s, e)[pc], s.ticket[e];
    s.(mem := if OpInBounds(op, |s.mem|) then Exec(s.mem, op) else s.mem,
       workers := s.workers[w := Running(e, pc + 1)],
       done := if t < |s.done| then s.done[t := pc + 1] else s.done)
  }

  function Taken(s: State, p: Program): State {
    if s.rp == [] then s.(refused := true) else s.(rp := s.rp[1..], submit := InHand(s.rp[0], p))
  }

  function Signalled(s: State, w: nat): State {
    if w < |s.workers| && s.workers[w].Waiting?
    then s.(submit := Free, workers := s.workers[w := Woken])
    else s.(submit := Free)
  }

  function Completed(s: State, w: nat): State
    requires w < |s.workers| && s.workers[w].Running?
  {
    var e := s.workers[w].entry;
    s.(cq := s.cq + [e],
       workers := s.workers[w := Start],
       finished := if e < |s.ticket| then s.finished + [s.ticket[e]] else s.finished)
  }

  /** How many completions a poke takes: no more than asked for, than are outstanding, than there are. */
  function BatchLen(s: State, max: nat): (k: nat)
    ensures k <= |s.cq|
  {
    Min(Clamp(max, s.outstanding), |s.cq|)
  }

  function Reaped(s: State, max: nat): State {
    var k := BatchLen(s, max);
    s.(cq := s.cq[k..], frame := Poking(s.cq[..k], 0, false))
  }

  function Called(s: State): State
    requires s.frame.Poking? && s.frame.next < |s.frame.batch|
  {
    var e := s.frame.batch[s.frame.next];
    s.(frame := Poking(s.frame.batch, s.frame.next, true),
       called := if e < |s.ticket| then s.called + [s.ticket[e]] else s.called)
  }

  function Returned(s: State): State
    requires s.frame.Poking? && s.frame.next < |s.frame.batch|
  {
    s.(rp := s.rp + [s.frame.batch[s.frame.next]],
       frame := Poking(s.frame.batch, s.frame.next + 1, false))
  }

  function Retired(s: State): State
    requires s.frame.Poking?
  {
    var n := |s.frame.batch|;
    s.(outstanding := if s.outstanding < n then 0 else s.outstanding - n, frame := Idle)
  }

  function Next(s: State, step: Step): State
    requires Enabled(s, step)
  {
    match step
    case Take(p) => Taken(s, p)
    case Push => Queued(s)
    case Signal(w) => Signalled(s, w)
    case Lock(w) => Locked(s, w)
    case WakeUp(w) => s.(workers := s.workers[w := Woken])
    case Move(w) => Moved(s, w)
    case Complete(w) => Completed(s, w)
    case Reap(max) => Reaped(s, max)
    case Call => Called(s)
    case Return => Returned(s)
    case Retire => Retired(s)
    case Term => s.(stop := true, workers := WakeAll(s.workers), frame := Joining)
    case Join => s.(frame := Closed)
  }

  // ---------------------------------------------------------------------------------------------
  // Runs

  /** Every step of the sequence is possible when its turn comes. */
  ghost predicate Possible(s: State, steps: seq<Step>)
    decreases |steps|, 0
  {
    steps == [] || (Possible(s, steps[..|steps| - 1]) && Enabled(After(s, steps[..|steps| - 1]), steps[|steps| - 1]))
  }

  /** The state after a sequence of steps. */
  ghost function After(s: State, steps: seq<Step>): State
    requires Possible(s, steps)
    decreases |steps|, 1
  {
    if steps == [] then s else Next(After(s, steps[..|steps| - 1]), steps[|steps| - 1])
  }

  ghost predicate Reachable(s: State) {
    exists s0: State, steps: seq<Step> :: Init(s0) && Possible(s0, steps) && After(s0, steps) == s
  }
}
