/**
 The `posix` queue: requests move from a ready list to an outstanding list on submission, and back, from
 any position, when a poll of the kernel finds them finished. The scan starts again at the head of the
 list after every completion, since the callback may have submitted further requests.

 The kernel is a function from a submission and the time of a poll to the answer of that poll; callbacks
 are scripts of submissions.
 */
module PosixQueue {
  import opened Common
  import opened Arith
  import opened Lists

  datatype Opcode = NvmWrite | NvmRead | FsWrite | FsRead | NvmFlush | FsFlush | Other

  /** `aioErr` is the errno with which the kernel refuses the transfer, zero when it takes it. */
  datatype Submission = Submission(opcode: Opcode, slba: nat, nbytes: nat, meta: bool, aioErr: nat)

  datatype Transfer = Transfer(write: bool, offset: nat, nbytes: nat)

  /** What `aio_error` and `aio_return` say of a request. A failed poll is any other answer of `aio_error`, -1
      included. */
  datatype Poll = InProgress | Done(res: int, errno: nat) | Failed(err: int)

  datatype Completion = Completion(result: int, sc: nat, vendor: bool)

  datatype Slot = Idle | Busy(ticket: nat)

  predicate Supported(op: Opcode) {
    op == NvmWrite || op == NvmRead || op == FsWrite || op == FsRead
  }

  /** NVMe addresses count sectors, file addresses count bytes; offsets are 64 bits wide. */
  function ToTransfer(s: Submission, ssw: nat): Transfer
    requires Supported(s.opcode)
  {
    match s.opcode
    case NvmWrite => Transfer(true, s.slba * Pow2(ssw) % 0x1_0000_0000_0000_0000, s.nbytes)
    case NvmRead => Transfer(false, s.slba * Pow2(ssw) % 0x1_0000_0000_0000_0000, s.nbytes)
    case FsWrite => Transfer(true, s.slba, s.nbytes)
    case FsRead => Transfer(false, s.slba, s.nbytes)
  }

  /** A submission and the transfer that is made of it: the direction, the length and the place of each opcode. */
  predicate Asks(s: Submission, ssw: nat, tr: Transfer) {
    && (tr.write <==> s.opcode == NvmWrite || s.opcode == FsWrite)
    && tr.nbytes == s.nbytes
    && (s.opcode == FsWrite || s.opcode == FsRead ==> tr.offset == s.slba)
    && (s.opcode == NvmWrite || s.opcode == NvmRead ==>
          tr.offset < 0x1_0000_0000_0000_0000
          && (s.slba * Pow2(ssw) - tr.offset) % 0x1_0000_0000_0000_0000 == 0)
  }

  /** An NVMe command at a block and the file command of the same direction at the byte where that block begins are
      the same transfer, exactly when that byte has a 64-bit address. */
  lemma SameTransfer(nvm: Submission, fs: Submission, ssw: nat)
    requires (nvm.opcode == NvmWrite && fs.opcode == FsWrite) || (nvm.opcode == NvmRead && fs.opcode == FsRead)
    requires fs.slba == nvm.slba * Pow2(ssw) && fs.nbytes == nvm.nbytes
    ensures ToTransfer(nvm, ssw) == ToTransfer(fs, ssw) <==> nvm.slba * Pow2(ssw) < 0x1_0000_0000_0000_0000
  {
  }

  function Report(p: Poll): Completion
    requires !p.InProgress?
  {
    match p
    case Done(res, errno) => if res < 0 then Completion(0, StatusCode(errno), true) else Completion(res, 0, false)
    case Failed(err) => Completion(0, StatusCode(err), true)
  }

  /** A completion says success exactly when the transfer went through or its error is a multiple of 256, which the
      eight bits of the status do not show. */
  lemma StatusShown(p: Poll)
    requires !p.InProgress?
    ensures Report(p).sc == 0 <==> (p.Done? && (p.res >= 0 || p.errno % 256 == 0)) || (p.Failed? && p.err % 256 == 0)
    ensures Report(p).vendor <==> p.Failed? || p.res < 0
  {
  }

  // ---------------------------------------------------------------------------------------------
  // What is accepted

  /** The kernel is asked for this transfer, and takes it. */
  predicate Takes(s: Submission) {
    !s.meta && s.opcode !in {NvmFlush, FsFlush, Other} && s.aioErr == 0
  }

  predicate AllTaken(subs: seq<Submission>) {
    forall i | 0 <= i < |subs| :: Takes(subs[i])
  }

  /** The submissions in a row that are accepted, with room for `room` of them. */
  function Admitted(script: seq<Submission>, room: nat): (subs: seq<Submission>)
    ensures |subs| <= room && |subs| <= |script| && AllTaken(subs)
    decreases |script|
  {
    if script == [] then []
    else
      var s, before := script[|script| - 1], Admitted(script[..|script| - 1], room);
      if |before| < room && Takes(s) then before + [s] else before
  }

  function Transfers(subs: seq<Submission>, ssw: nat): (trs: seq<Transfer>)
    requires AllTaken(subs)
    ensures |trs| == |subs|
  {
    seq(|subs|, i requires 0 <= i < |subs| => ToTransfer(subs[i], ssw))
  }

  /** The submissions accepted from the callbacks of the first `n` completions of a poke. A callback finds the
      completions before its own counted off. */
  function Resubmitted(scripts: seq<seq<Submission>>, capacity: nat, outstanding: nat, n: nat): (subs: seq<Submission>)
    ensures AllTaken(subs)
  {
    if n == 0 then []
    else
      var before := Resubmitted(scripts, capacity, outstanding, n - 1);
      var now := outstanding + |before| - (n - 1);
      before + Admitted(Script(scripts, n - 1), if now <= capacity then capacity - now else 0)
  }

  /** What a poke changes for its caller. */
  datatype Snapshot = Snapshot(submitted: seq<Transfer>, outstanding: nat, called: seq<nat>)

  /** The states of a poke, one after each completion: a callback submits what it can, and then its own request is
      counted off. */
  ghost predicate Chain(scripts: seq<seq<Submission>>, ssw: nat, capacity: nat, states: seq<Snapshot>) {
    forall i | 0 <= i < |states| - 1 :: Turn(scripts, ssw, capacity, states, i)
  }

  ghost predicate Turn(scripts: seq<seq<Submission>>, ssw: nat, capacity: nat, states: seq<Snapshot>, i: nat) {
    i + 1 < |states| && Follows(Script(scripts, i), ssw, capacity, states[i], states[i + 1])
  }

  ghost predicate Follows(script: seq<Submission>, ssw: nat, capacity: nat, before: Snapshot, after: Snapshot) {
    && before.outstanding <= capacity
    && after.submitted == before.submitted + Transfers(Admitted(script, capacity - before.outstanding), ssw)
    && after.outstanding == before.outstanding + |Admitted(script, capacity - before.outstanding)| - 1
    && (exists t :: after.called == before.called + [t])
  }

  lemma ChainMore(scripts: seq<seq<Submission>>, ssw: nat, capacity: nat, states: seq<Snapshot>, now: Snapshot)
    requires states != [] && Chain(scripts, ssw, capacity, states)
    requires Follows(Script(scripts, |states| - 1), ssw, capacity, states[|states| - 1], now)
    ensures Chain(scripts, ssw, capacity, states + [now])
  {
    forall i | 0 <= i < |states + [now]| - 1 ensures Turn(scripts, ssw, capacity, states + [now], i) {
      assert i < |states| - 1 ==> Turn(scripts, ssw, capacity, states, i);
    }
  }

  /** What a poke made of the queue after `n` completions. */
  lemma {:induction false} ChainMeans(scripts: seq<seq<Submission>>, ssw: nat, capacity: nat, states: seq<Snapshot>,
                                      n: nat)
    requires n < |states| && Chain(scripts, ssw, capacity, states)
    ensures var subs := Resubmitted(scripts, capacity, states[0].outstanding, n);
      && states[n].submitted == states[0].submitted + Transfers(subs, ssw)
      && states[n].outstanding == states[0].outstanding + |subs| - n
      && states[0].called <= states[n].called && |states[n].called| == |states[0].called| + n
    decreases n
  {
    if n != 0 {
      ChainMeans(scripts, ssw, capacity, states, n - 1);
      assert Turn(scripts, ssw, capacity, states, n - 1);
      TurnMeans(scripts, ssw, capacity, states[0], states[n - 1], states[n], n);
    }
  }

  lemma TurnMeans(scripts: seq<seq<Submission>>, ssw: nat, capacity: nat, first: Snapshot, before: Snapshot,
                  after: Snapshot, n: nat)
    requires n > 0 && Follows(Script(scripts, n - 1), ssw, capacity, before, after)
    requires var subs := Resubmitted(scripts, capacity, first.outstanding, n - 1);
      && before.submitted == first.submitted + Transfers(subs, ssw)
      && before.outstanding == first.outstanding + |subs| - (n - 1)
    ensures var subs := Resubmitted(scripts, capacity, first.outstanding, n);
      && after.submitted == first.submitted + Transfers(subs, ssw)
      && after.outstanding == first.outstanding + |subs| - n
  {
    var subs := Resubmitted(scripts, capacity, first.outstanding, n - 1);
    var more := Admitted(Script(scripts, n - 1), capacity - before.outstanding);
    assert Resubmitted(scripts, capacity, first.outstanding, n) == subs + more;
    TransfersMore(subs, more, ssw);
  }

  lemma TransfersMore(a: seq<Submission>, b: seq<Submission>, ssw: nat)
    requires AllTaken(a) && AllTaken(b)
    ensures AllTaken(a + b) && Transfers(a + b, ssw) == Transfers(a, ssw) + Transfers(b, ssw)
  {
  }

  lemma {:induction false} NoneResubmitted(capacity: nat, outstanding: nat, n: nat)
    ensures Resubmitted([], capacity, outstanding, n) == []
  {
    if n != 0 {
      NoneResubmitted(capacity, outstanding, n - 1);
    }
  }

  // ---------------------------------------------------------------------------------------------
  // How many completions a poke may reap

  function AsInt(x: nat): int {
    if x < 0x8000_0000 then x else x - 0x1_0000_0000
  }

  function AsUnsigned(x: int): nat {
    x % 0x1_0000_0000
  }

  /** The limit the code computes: the minimum is taken of signed integers. */
  function Limit(max: nat, outstanding: nat): nat {
    var m := if max != 0 then max else outstanding;
    AsUnsigned(if AsInt(m) < AsInt(outstanding) then AsInt(m) else AsInt(outstanding))
  }

  /** The computed limit is the smaller of the two unless just one of them has its top bit set. */
  lemma LimitIsClamp(max: nat, outstanding: nat)
    requires max < 0x1_0000_0000 && outstanding < 0x1_0000_0000
    ensures Limit(max, outstanding) == Clamp(max, outstanding)
            <==> max == 0 || (max < 0x8000_0000 <==> outstanding < 0x8000_0000)
  {
  }

  /** A maximum of 2^31 with one command outstanding is not clamped. */
  lemma LimitNotClamped()
    ensures Limit(0x8000_0000, 1) == 0x8000_0000 && Clamp(0x8000_0000, 1) == 1
  {
  }

  // ---------------------------------------------------------------------------------------------
  // What holds between the lists

  /** The requests are those of the two lists; each outstanding one carries its submission. */
  ghost predicate ListsOk(slots: seq<Slot>, ready: seq<Entry>, inflight: seq<Entry>, tickets: seq<nat>, n: nat) {
    && |slots| == n
    && Partition(ready, inflight, [], n)
    && |inflight| == |tickets|
    && (forall i | 0 <= i < |inflight| :: Carries(slots, inflight[i], tickets[i]))
  }

  predicate Carries(slots: seq<Slot>, e: Entry, ticket: nat) {
    e < |slots| && slots[e] == Busy(ticket)
  }

  /** Every accepted submission is outstanding or was called back, and once; the outstanding ones are in the
      order of submission. */
  ghost predicate OnceOk(called: seq<nat>, tickets: seq<nat>, n: nat) {
    && Partition(called, tickets, [], n)
    && (forall i, j | 0 <= i < j < |tickets| :: tickets[i] < tickets[j])
  }

  /** A callback reports what the kernel said of its submission when it was found finished. */
  ghost predicate TruthOk(kernel: (nat, nat) -> Poll, called: seq<nat>, times: seq<nat>, reports: seq<Completion>) {
    && |called| == |times| == |reports|
    && (forall k | 0 <= k < |called| :: Reported(kernel, called[k], times[k], reports[k]))
  }

  /** A transfer that went through is reported with its result; one that did not, with the error number the kernel
      gave for it, as far as eight bits hold it, and result zero. */
  predicate Reported(kernel: (nat, nat) -> Poll, ticket: nat, at: nat, r: Completion) {
    match kernel(ticket, at)
    case InProgress => false
    case Done(res, errno) =>
      if res >= 0 then r.result == res && r.sc == 0 && !r.vendor
      else r.result == 0 && r.sc < 256 && (errno - r.sc) % 256 == 0 && r.vendor
    case Failed(err) => r.result == 0 && r.sc < 256 && (err - r.sc) % 256 == 0 && r.vendor
  }

  lemma MarkReady(slots: seq<Slot>, ready: seq<Entry>, inflight: seq<Entry>, tickets: seq<nat>, n: nat, s: Slot)
    requires ListsOk(slots, ready, inflight, tickets, n) && ready != []
    ensures ready[0] < n && ListsOk(slots[ready[0] := s], ready, inflight, tickets, n)
  {
    PartitionInRange(ready, inflight, [], n);
  }

  lemma Submitted(slots: seq<Slot>, ready: seq<Entry>, inflight: seq<Entry>, tickets: seq<nat>, n: nat, t: nat)
    requires ListsOk(slots, ready, inflight, tickets, n) && ready != [] && Carries(slots, ready[0], t)
    ensures ListsOk(slots, ready[1..], inflight + [ready[0]], tickets + [t], n)
  {
    PartitionHeadToTail(ready, inflight, [], n);
  }

  lemma NextTicket(called: seq<nat>, tickets: seq<nat>, n: nat)
    requires OnceOk(called, tickets, n)
    ensures OnceOk(called, tickets + [n], n + 1)
  {
    PartitionInRange(called, tickets, [], n);
    PartitionPush(called, tickets, n);
  }

  lemma Recycled(slots: seq<Slot>, ready: seq<Entry>, inflight: seq<Entry>, tickets: seq<nat>, n: nat, pos: nat)
    requires ListsOk(slots, ready, inflight, tickets, n) && pos < |inflight|
    ensures inflight[pos] < n
    ensures var e := inflight[pos];
      ListsOk(slots[e := Idle], ready + [e], Without(inflight, pos), Without(tickets, pos), n)
  {
    var e, rest, left := inflight[pos], Without(inflight, pos), Without(tickets, pos);
    assert Carries(slots, e, tickets[pos]);
    PartitionPick(ready, inflight, pos, n);
    forall i | 0 <= i < |rest| ensures Carries(slots[e := Idle], rest[i], left[i]) {
      var k := if i < pos then i else i + 1;
      assert Carries(slots, inflight[k], tickets[k]);
      if i < pos {
        PartitionDistinct(ready, inflight, n, k, pos);
      } else {
        PartitionDistinct(ready, inflight, n, pos, k);
      }
    }
  }

  lemma TicketCalled(called: seq<nat>, tickets: seq<nat>, n: nat, pos: nat)
    requires OnceOk(called, tickets, n) && pos < |tickets|
    ensures OnceOk(called + [tickets[pos]], Without(tickets, pos), n)
  {
    PartitionPick(called, tickets, pos, n);
  }

  class Queue {
    const capacity: nat
    const ssw: nat
    const kernel: (nat, nat) -> Poll
    var slots: seq<Slot>
    var ready: seq<Entry>
    var inflight: seq<Entry>
    var outstanding: nat
    var clock: nat

    /** Accepted submissions, the submission of each outstanding request, and the callbacks made: which
        submission, the time of the poll that found it finished, and what was reported. */
    var submitted: seq<Transfer>
    ghost var tickets: seq<nat>
    ghost var called: seq<nat>
    ghost var times: seq<nat>
    ghost var reports: seq<Completion>

    ghost predicate Valid()
      reads this
    {
      && ListsOk(slots, ready, inflight, tickets, capacity)
      && outstanding == |inflight|
      && OnceOk(called, tickets, |submitted|)
      && TruthOk(kernel, called, times, reports)
    }

    constructor (capacity: nat, ssw: nat, kernel: (nat, nat) -> Poll)
      ensures Valid() && fresh(this) && this.capacity == capacity && this.ssw == ssw && this.kernel == kernel
      ensures submitted == [] && called == [] && outstanding == 0
    {
      this.capacity, this.ssw, this.kernel := capacity, ssw, kernel;
      slots := seq(capacity, _ => Idle);
      inflight, outstanding, clock := [], 0, 0;
      submitted, tickets, called, times, reports := [], [], [], [], [];
      var list: seq<Entry> := [];
      for i := 0 to capacity
        invariant list == InitialPool(i)
      {
        list := [i] + list;
      }
      ready := list;
      new;
      forall e: Entry ensures Occurs(ready, e) + Occurs([], e) + Occurs([], e) == Flag(e < capacity) {
        InitialPoolOnce(capacity, e);
      }
    }

    /** The backend's submission. Refusals leave both lists and the counter alone. */
    method CmdIo(s: Submission) returns (err: int)
      requires Valid() && ready != []
      modifies this`slots, this`ready, this`inflight, this`outstanding, this`submitted, this`tickets
      ensures Valid()
      ensures err == if s.meta || s.opcode in {NvmFlush, FsFlush, Other} then -ENOSYS else 0 - s.aioErr
      ensures err == 0 ==> inflight == old(inflight) + [old(ready)[0]] && ready == old(ready)[1..]
                           && submitted == old(submitted) + [ToTransfer(s, ssw)]
                           && tickets == old(tickets) + [|old(submitted)|]
                           && Asks(s, ssw, submitted[|old(submitted)|])
      ensures err != 0 ==> inflight == old(inflight) && ready == old(ready) && submitted == old(submitted)
                           && tickets == old(tickets)
      ensures s.meta ==> slots == old(slots)
      ensures !s.meta ==> old(ready)[0] < |old(slots)| && slots == old(slots)[old(ready)[0] := Busy(|old(submitted)|)]
    {
      if s.meta {
        return -ENOSYS;
      }
      var e, n := ready[0], |submitted|;
      MarkReady(slots, ready, inflight, tickets, capacity, Busy(n));
      slots := slots[e := Busy(n)];
      if !Supported(s.opcode) {
        return -ENOSYS;
      }
      if s.aioErr != 0 {
        return 0 - s.aioErr;
      }
      Accept(ToTransfer(s, ssw));
      err := 0;
    }

    /** The kernel took the transfer of the first ready request. */
    method Accept(tr: Transfer)
      requires Valid() && ready != [] && Carries(slots, ready[0], |submitted|)
      modifies this`ready, this`inflight, this`outstanding, this`submitted, this`tickets
      ensures Valid() && outstanding == old(outstanding) + 1
      ensures inflight == old(inflight) + [old(ready)[0]] && ready == old(ready)[1..]
      ensures submitted == old(submitted) + [tr] && tickets == old(tickets) + [|old(submitted)|]
    {
      Submitted(slots, ready, inflight, tickets, capacity, |submitted|);
      NextTicket(called, tickets, |submitted|);
      inflight := inflight + [ready[0]];
      ready := ready[1..];
      outstanding := outstanding + 1;
      tickets := tickets + [|submitted|];
      submitted := submitted + [tr];
    }

    /** The admission guard in front of the backend: the ready list is then never empty. */
    method Pass(s: Submission) returns (err: int)
      requires Valid()
      modifies this`slots, this`ready, this`inflight, this`outstanding, this`submitted, this`tickets
      ensures Valid() && old(submitted) <= submitted && old(inflight) <= inflight && old(tickets) <= tickets
      ensures err == if old(outstanding) == capacity then -EBUSY
                     else if s.meta || s.opcode in {NvmFlush, FsFlush, Other} then -ENOSYS else 0 - s.aioErr
      ensures err == 0 ==> submitted == old(submitted) + [ToTransfer(s, ssw)] && outstanding == old(outstanding) + 1
                           && Asks(s, ssw, submitted[|old(submitted)|])
      ensures err != 0 ==> submitted == old(submitted) && outstanding == old(outstanding)
    {
      if outstanding == capacity {
        return -EBUSY;
      }
      err := CmdIo(s);
    }

    /** A callback works through its script. The request it is called for is still outstanding. */
    method Callback(script: seq<Submission>)
      requires Valid()
      modifies this`slots, this`ready, this`inflight, this`outstanding, this`submitted, this`tickets
      ensures Valid() && old(inflight) <= inflight && old(tickets) <= tickets && old(outstanding) <= capacity
      ensures submitted == old(submitted) + Transfers(Admitted(script, capacity - old(outstanding)), ssw)
      ensures outstanding == old(outstanding) + |Admitted(script, capacity - old(outstanding))|
    {
      WithinCapacity();
      ghost var room := capacity - outstanding;
      for i := 0 to |script|
        invariant Valid() && old(inflight) <= inflight && old(tickets) <= tickets
        invariant submitted == old(submitted) + Transfers(Admitted(script[..i], room), ssw)
        invariant outstanding == old(outstanding) + |Admitted(script[..i], room)|
      {
        assert script[..i + 1][..i] == script[..i];
        var err := Pass(script[i]);
      }
      assert script[..|script|] == script;
    }

    /** The requests under way are among those there are. */
    lemma WithinCapacity()
      requires Valid()
      ensures outstanding <= capacity
    {
      assert |ready| + |inflight| + 0 == capacity;
    }

    /** Take the request at `pos` off the outstanding list and make it ready for reuse. */
    method Recycle(pos: nat, ghost at: nat)
      requires Valid() && pos < |inflight| && !kernel(tickets[pos], at).InProgress?
      modifies this`slots, this`ready, this`inflight, this`outstanding, this`tickets, this`called, this`times,
               this`reports
      ensures Valid() && outstanding == old(outstanding) - 1
      ensures called == old(called) + [old(tickets)[pos]] && times == old(times) + [at]
      ensures inflight == Without(old(inflight), pos) && tickets == Without(old(tickets), pos)
      ensures ready == old(ready) + [old(inflight)[pos]] && slots == old(slots)[old(inflight)[pos] := Idle]
    {
      var e := inflight[pos];
      Recycled(slots, ready, inflight, tickets, capacity, pos);
      TicketCalled(called, tickets, |submitted|, pos);
      outstanding := outstanding - 1;
      slots := slots[e := Idle];
      inflight := Without(inflight, pos);
      ready := ready + [e];
      called, times := called + [tickets[pos]], times + [at];
      reports := reports + [Report(kernel(tickets[pos], at))];
      tickets := Without(tickets, pos);
    }

    /** The requests before `pos` were found in progress by the latest `pos` polls, in order. */
    ghost predicate Scanned(pos: nat)
      reads this
    {
      && pos <= |tickets| && pos <= clock
      && (forall i | 0 <= i < pos :: InProgressAt(tickets[i], clock - pos + i))
    }

    ghost predicate InProgressAt(ticket: nat, at: nat) {
      kernel(ticket, at).InProgress?
    }

    /** Reap finished requests, at most the limit computed from `max`; completion `i` runs `scripts[i]`. A
        poke that stops short of its limit has just seen every outstanding request in progress. */
    method Poke(max: nat, scripts: seq<seq<Submission>>) returns (completed: nat)
      requires Valid()
      modifies this
      ensures Valid()
      ensures completed <= Limit(max, old(outstanding))
      ensures |called| == |old(called)| + completed && old(called) <= called
      ensures submitted == old(submitted) + Transfers(Resubmitted(scripts, capacity, old(outstanding), completed), ssw)
      ensures outstanding == old(outstanding) + |submitted| - |old(submitted)| - completed
      ensures old(outstanding) != 0 && completed < Limit(max, old(outstanding))
              ==> Scanned(outstanding) && clock - outstanding >= old(clock) && clock > old(clock)
    {
      completed := 0;
      var limit := Limit(max, outstanding);
      if outstanding == 0 {
        return;
      }
      ghost var states;
      completed, states := Scan(limit, scripts);
      ChainMeans(scripts, ssw, capacity, states, completed);
    }

    method Scan(limit: nat, scripts: seq<seq<Submission>>) returns (completed: nat, ghost states: seq<Snapshot>)
      requires Valid() && outstanding != 0
      modifies this
      ensures Valid() && completed <= limit
      ensures |states| == completed + 1 && Chain(scripts, ssw, capacity, states)
      ensures states[0] == Snapshot(old(submitted), old(outstanding), old(called))
      ensures states[completed] == Snapshot(submitted, outstanding, called)
      ensures completed < limit ==> Scanned(outstanding) && clock - outstanding >= old(clock) && clock > old(clock)
    {
      completed := 0;
      states := [Snapshot(submitted, outstanding, called)];
      var pos := 0;
      while pos < |inflight| && completed < limit
        invariant Valid() && completed <= limit && Scanned(pos)
        invariant |states| == completed + 1 && Chain(scripts, ssw, capacity, states)
        invariant states[0] == Snapshot(old(submitted), old(outstanding), old(called))
        invariant states[completed] == Snapshot(submitted, outstanding, called)
        invariant clock >= old(clock) + completed + pos && (completed == 0 ==> outstanding == old(outstanding))
        decreases limit - completed, |inflight| - pos
      {
        var finished := PollAt(pos);
        if finished {
          states := CompleteNext(pos, scripts, completed, states);
          completed := completed + 1;
          pos := 0;
        } else {
          pos := pos + 1;
        }
      }
    }

    method CompleteNext(pos: nat, scripts: seq<seq<Submission>>, completed: nat, ghost states: seq<Snapshot>)
      returns (ghost more: seq<Snapshot>)
      requires Valid() && pos < |inflight| && clock > 0 && !InProgressAt(tickets[pos], clock - 1)
      requires |states| == completed + 1 && Chain(scripts, ssw, capacity, states)
      requires states[completed] == Snapshot(submitted, outstanding, called)
      modifies this`slots, this`ready, this`inflight, this`outstanding, this`submitted, this`tickets, this`called,
               this`times, this`reports
      ensures Valid() && more == states + [Snapshot(submitted, outstanding, called)]
      ensures Chain(scripts, ssw, capacity, more)
    {
      Complete(pos, if completed < |scripts| then scripts[completed] else []);
      more := states + [Snapshot(submitted, outstanding, called)];
      ChainMore(scripts, ssw, capacity, states, more[|states|]);
    }

    /** Ask the kernel about the request at `pos`. */
    method PollAt(pos: nat) returns (finished: bool)
      requires Valid() && pos < |inflight| && Scanned(pos)
      modifies this`clock
      ensures Valid() && clock == old(clock) + 1
      ensures if finished then !InProgressAt(tickets[pos], old(clock)) else Scanned(pos + 1)
    {
      assert Carries(slots, inflight[pos], tickets[pos]);
      var answer := kernel(slots[inflight[pos]].ticket, clock);
      clock := clock + 1;
      finished := !answer.InProgress?;
      assert forall i | 0 <= i < pos :: InProgressAt(tickets[i], old(clock) - pos + i);
    }

    /** The request at `pos` was found finished: call back, then recycle. */
    method Complete(pos: nat, script: seq<Submission>)
      requires Valid() && pos < |inflight| && clock > 0 && !InProgressAt(tickets[pos], clock - 1)
      modifies this`slots, this`ready, this`inflight, this`outstanding, this`submitted, this`tickets, this`called,
               this`times, this`reports
      ensures Valid() && called == old(called) + [old(tickets)[pos]] && old(outstanding) <= capacity
      ensures submitted == old(submitted) + Transfers(Admitted(script, capacity - old(outstanding)), ssw)
      ensures outstanding == old(outstanding) + |submitted| - |old(submitted)| - 1
    {
      Callback(script);
      Recycle(pos, clock - 1);
    }

    /** If the kernel finishes every request in the end, polling until nothing is outstanding ends too. */
    method Drain(ghost deadline: nat)
      requires Valid() && outstanding < 0x1_0000_0000
      requires forall t: nat, at: nat | at >= deadline :: !InProgressAt(t, at)
      modifies this
      ensures Valid() && outstanding == 0 && submitted == old(submitted)
      ensures forall t: nat | t < |submitted| :: Occurs(called, t) == 1
    {
      while outstanding != 0
        invariant Valid() && submitted == old(submitted) && outstanding < 0x1_0000_0000
        decreases outstanding, if clock < deadline then deadline - clock else 0
      {
        ghost var before := outstanding;
        var n := Poke(0, []);
        NoneResubmitted(capacity, before, n);
        if n == 0 {
          assert InProgressAt(tickets[0], clock - outstanding + 0);
        }
      }
      forall t: nat | t < |submitted| ensures Occurs(called, t) == 1 {
        assert Occurs(called, t) + Occurs(tickets, t) + Occurs([], t) == Flag(t < |submitted|);
      }
    }
  }
}
