/**
 The `emu` queue: commands are queued on submission and executed, in order, when the caller pokes.
 The completion callback may submit further commands, but not poke.

 A callback is a script: the commands it submits, each through the admission guard. Whatever a
 callback decides at run time, some script does the same, so a statement about all scripts is a
 statement about all callbacks.
 */
module EmuQueue {
  import opened Common
  import opened Lists
  import opened Memory
  import opened Ramdisk
  import opened AsyncRamdisk

  /** What the caller of the queue does next. */
  datatype Action = Submit(cmd: Cmd) | Poke(max: nat, scripts: seq<seq<Cmd>>)

  /** The queue as its caller sees it: what was accepted, in order, and how many of the latest are outstanding. */
  datatype Log = Log(submitted: seq<Cmd>, outstanding: nat)

  /** Of `n` commands submitted in a row, those that find the queue below its capacity. */
  function Accepted(capacity: nat, outstanding: nat, n: nat): nat {
    if outstanding >= capacity then 0 else if n <= capacity - outstanding then n else capacity - outstanding
  }

  /** The commands accepted from those submitted in a row. */
  function Admit(capacity: nat, log: Log, cmds: seq<Cmd>): Log {
    var k := Accepted(capacity, log.outstanding, |cmds|);
    Log(log.submitted + cmds[..k], log.outstanding + k)
  }

  /** What an action makes of the queue. A poke completes commands while its callbacks submit; only then does it count
      the completed ones off, so that its callbacks together submit as one caller in a row. */
  function LogAfter(capacity: nat, log: Log, a: Action): Log {
    match a
    case Submit(c) => Admit(capacity, log, [c])
    case Poke(max, scripts) =>
      var n := Clamp(max, log.outstanding);
      var during := Admit(capacity, log, Flat(scripts, n));
      Log(during.submitted, during.outstanding - n)
  }

  function LogsAfter(capacity: nat, log: Log, actions: seq<Action>): Log
    decreases |actions|
  {
    if actions == [] then log
    else LogAfter(capacity, LogsAfter(capacity, log, actions[..|actions| - 1]), actions[|actions| - 1])
  }

  /** What is accepted in two goes is what is accepted in one. */
  lemma AdmitMore(capacity: nat, log: Log, cmds: seq<Cmd>, more: seq<Cmd>)
    ensures Admit(capacity, Admit(capacity, log, cmds), more) == Admit(capacity, log, cmds + more)
  {
    var k := Accepted(capacity, log.outstanding, |cmds|);
    var j := Accepted(capacity, log.outstanding + k, |more|);
    assert Accepted(capacity, log.outstanding, |cmds + more|) == k + j;
    if k < |cmds| {
      assert (cmds + more)[..k + j] == cmds[..k] + more[..j];
    } else {
      TakeJoined(cmds, more, j);
    }
  }

  lemma TakeJoined(cmds: seq<Cmd>, more: seq<Cmd>, j: nat)
    requires j <= |more|
    ensures cmds[..|cmds|] + more[..j] == (cmds + more)[..|cmds| + j]
  {
  }

  /** The guard keeps the queue within its capacity, and keeps every earlier submission. */
  lemma {:induction false} LogBounded(capacity: nat, log: Log, actions: seq<Action>)
    requires log.outstanding <= capacity && log.outstanding <= |log.submitted|
    ensures var after := LogsAfter(capacity, log, actions);
      after.outstanding <= capacity && after.outstanding <= |after.submitted| && log.submitted <= after.submitted
    decreases |actions|
  {
    if actions != [] {
      LogBounded(capacity, log, actions[..|actions| - 1]);
    }
  }

  /** One more command at the end. */
  lemma ExecuteOneMore(d: Device, m: Mem, cmds: seq<Cmd>, k: nat)
    requires k < |cmds| && AllWellFormed(d, m, cmds[..k + 1])
    ensures AllWellFormed(d, m, cmds[..k]) && WellFormed(d, cmds[k], ExecuteAll(d, m, cmds[..k]))
    ensures var before := ExecuteAll(d, m, cmds[..k]);
      InBounds(Prog(d, before, cmds[k]), |before|)
      && ExecuteAll(d, m, cmds[..k + 1]) == Run(before, Prog(d, before, cmds[k]))
  {
    assert cmds[..k + 1][..k] == cmds[..k];
    ProgInBounds(d, cmds[k], ExecuteAll(d, m, cmds[..k]));
  }

  /** Every element is in one list, or in hand. */
  ghost predicate ListsOk(elm: seq<Cmd>, rp: seq<Entry>, sq: seq<Entry>, hand: seq<Entry>, n: nat) {
    |elm| == n && Partition(rp, sq, hand, n)
  }

  /** The submission queue holds the submissions that were not executed, in order. */
  ghost predicate QueuedOk(elm: seq<Cmd>, sq: seq<Entry>, submitted: seq<Cmd>, executed: nat) {
    && |submitted| == executed + |sq|
    && (forall i | 0 <= i < |sq| :: Carries(elm, sq[i], submitted[executed + i]))
  }

  predicate Carries(elm: seq<Cmd>, e: Entry, c: Cmd) {
    e < |elm| && elm[e] == c
  }

  lemma Queued(elm: seq<Cmd>, rp: seq<Entry>, sq: seq<Entry>, hand: seq<Entry>, n: nat, submitted: seq<Cmd>,
               executed: nat, c: Cmd)
    requires ListsOk(elm, rp, sq, hand, n) && QueuedOk(elm, sq, submitted, executed) && rp != []
    ensures rp[0] < n && ListsOk(elm[rp[0] := c], rp[1..], sq + [rp[0]], hand, n)
    ensures QueuedOk(elm[rp[0] := c], sq + [rp[0]], submitted + [c], executed)
  {
    PartitionInRange(rp, sq, hand, n);
    PartitionHeadToTail(rp, sq, hand, n);
    var elm' := elm[rp[0] := c];
    var sq', submitted' := sq + [rp[0]], submitted + [c];
    forall i | 0 <= i < |sq'| ensures Carries(elm', sq'[i], submitted'[executed + i]) {
      if i < |sq| {
        assert Carries(elm, sq[i], submitted[executed + i]);
      }
    }
  }

  lemma HeadTaken(elm: seq<Cmd>, rp: seq<Entry>, sq: seq<Entry>, n: nat, submitted: seq<Cmd>, executed: nat)
    requires ListsOk(elm, rp, sq, [], n) && QueuedOk(elm, sq, submitted, executed) && sq != []
    ensures ListsOk(elm, rp, sq[1..], [sq[0]], n) && QueuedOk(elm, sq[1..], submitted, executed + 1)
    ensures executed < |submitted| && Carries(elm, sq[0], submitted[executed])
  {
    PartitionTake(rp, sq, n);
    assert Carries(elm, sq[0], submitted[executed + 0]);
    forall i | 0 <= i < |sq[1..]| ensures Carries(elm, sq[1..][i], submitted[executed + 1 + i]) {
      assert Carries(elm, sq[i + 1], submitted[executed + (i + 1)]);
    }
  }

  /** `m` is what the first `executed` submissions, one by one, make of `m0`, provided each of them was well formed
      when its turn came. */
  ghost predicate RefinesOk(d: Device, m0: Mem, m: Mem, submitted: seq<Cmd>, executed: nat) {
    && |m0| == |m|
    && executed <= |submitted|
    && (AllWellFormed(d, m0, submitted[..executed]) ==> m == ExecuteAll(d, m0, submitted[..executed]))
  }

  lemma RefinesMore(d: Device, m0: Mem, m: Mem, submitted: seq<Cmd>, executed: nat, c: Cmd)
    requires RefinesOk(d, m0, m, submitted, executed)
    ensures RefinesOk(d, m0, m, submitted + [c], executed)
  {
    assert (submitted + [c])[..executed] == submitted[..executed];
  }

  lemma RefinesNext(d: Device, m0: Mem, m: Mem, m': Mem, submitted: seq<Cmd>, executed: nat)
    requires RefinesOk(d, m0, m, submitted, executed) && executed < |submitted| && |m'| == |m|
    requires WellFormed(d, submitted[executed], m) ==>
      InBounds(Prog(d, m, submitted[executed]), |m|) && m' == Run(m, Prog(d, m, submitted[executed]))
    ensures RefinesOk(d, m0, m', submitted, executed + 1)
  {
    if AllWellFormed(d, m0, submitted[..executed + 1]) {
      ExecuteOneMore(d, m0, submitted, executed);
    }
  }

  class Queue {
    const capacity: nat
    const dev: Device
    const machine: Machine
    var elm: seq<Cmd>
    var rp: seq<Entry>
    var sq: seq<Entry>
    var outstanding: nat

    ghost const mem0: Mem
    ghost var submitted: seq<Cmd>
    ghost var executed: nat
    ghost var called: seq<Cmd>

    /** `hand` is the element whose callback is running; `reaped` counts the completions of the running
        poke, which `outstanding` still includes. */
    ghost predicate Consistent(hand: seq<Entry>, reaped: nat)
      reads this
    {
      && ListsOk(elm, rp, sq, hand, capacity)
      && QueuedOk(elm, sq, submitted, executed)
      && |hand| <= reaped
      && outstanding == |sq| + reaped
    }

    /** Execution so far was that of the first `executed` submissions, one by one. */
    ghost predicate Refines()
      reads this, machine.mem
    {
      RefinesOk(dev, mem0, machine.mem[..], submitted, executed)
    }

    ghost predicate Valid()
      reads this, machine.mem
    {
      Consistent([], 0) && Refines() && Reported()
    }

    /** Each executed command was called back, once and in order. */
    ghost predicate Reported()
      reads this
    {
      executed <= |submitted| && called == submitted[..executed]
    }

    constructor (capacity: nat, dev: Device, machine: Machine, filler: Cmd)
      ensures Valid() && fresh(this)
      ensures this.capacity == capacity && this.dev == dev && this.machine == machine
      ensures submitted == [] && executed == 0 && called == [] && outstanding == 0 && mem0 == machine.mem[..]
    {
      this.capacity, this.dev, this.machine := capacity, dev, machine;
      elm := seq(capacity, _ => filler);
      sq, outstanding := [], 0;
      submitted, executed, called, mem0 := [], 0, [], machine.mem[..];
      var pool: seq<Entry> := [];
      for i := 0 to capacity
        invariant pool == InitialPool(i)
      {
        pool := [i] + pool;
      }
      rp := pool;
      new;
      forall e: Entry ensures Occurs(rp, e) + Occurs(sq, e) + Occurs([], e) == Flag(e < capacity) {
        InitialPoolOnce(capacity, e);
      }
    }

    /** The backend's submission: an entry moves from the request pool to the submission queue. */
    method CmdIo(c: Cmd, ghost hand: seq<Entry>, ghost reaped: nat) returns (err: int)
      requires Consistent(hand, reaped) && Refines()
      modifies this`elm, this`rp, this`sq, this`outstanding, this`submitted
      ensures Consistent(hand, reaped) && Refines()
      ensures err == if old(rp) != [] then 0 else -EIO
      ensures submitted == if err == 0 then old(submitted) + [c] else old(submitted)
      ensures outstanding == if err == 0 then old(outstanding) + 1 else old(outstanding)
    {
      if rp == [] {
        return -EIO;
      }
      Queued(elm, rp, sq, hand, capacity, submitted, executed, c);
      var e := rp[0];
      rp := rp[1..];
      elm := elm[e := c];
      sq := sq + [e];
      outstanding := outstanding + 1;
      RefinesMore(dev, mem0, machine.mem[..], submitted, executed, c);
      submitted := submitted + [c];
      err := 0;
    }

    /** The admission guard in front of the backend. It is enough: the backend's own check never fails,
        also inside a callback, where `outstanding` still counts the commands being reaped. */
    method Pass(c: Cmd, ghost hand: seq<Entry>, ghost reaped: nat) returns (err: int)
      requires Consistent(hand, reaped) && Refines()
      requires outstanding <= capacity
      modifies this`elm, this`rp, this`sq, this`outstanding, this`submitted
      ensures Consistent(hand, reaped) && Refines() && outstanding <= capacity
      ensures err == if old(outstanding) < capacity then 0 else -EBUSY
      ensures Log(submitted, outstanding) == Admit(capacity, Log(old(submitted), old(outstanding)), [c])
    {
      if outstanding == capacity {
        return -EBUSY;
      }
      err := CmdIo(c, hand, reaped);
    }

    /** The callback of command `c` works through its script. */
    method Callback(c: Cmd, script: seq<Cmd>, ghost hand: seq<Entry>, ghost reaped: nat)
      requires Consistent(hand, reaped) && Refines()
      requires outstanding <= capacity
      modifies this`elm, this`rp, this`sq, this`outstanding, this`submitted, this`called
      ensures Consistent(hand, reaped) && Refines() && outstanding <= capacity
      ensures called == old(called) + [c]
      ensures Log(submitted, outstanding) == Admit(capacity, Log(old(submitted), old(outstanding)), script)
    {
      called := called + [c];
      SubmitAll(script, hand, reaped);
    }

    method SubmitAll(script: seq<Cmd>, ghost hand: seq<Entry>, ghost reaped: nat)
      requires Consistent(hand, reaped) && Refines()
      requires outstanding <= capacity
      modifies this`elm, this`rp, this`sq, this`outstanding, this`submitted
      ensures Consistent(hand, reaped) && Refines() && outstanding <= capacity
      ensures Log(submitted, outstanding) == Admit(capacity, Log(old(submitted), old(outstanding)), script)
    {
      for i := 0 to |script|
        invariant Consistent(hand, reaped) && Refines() && outstanding <= capacity
        invariant Log(submitted, outstanding) == Admit(capacity, Log(old(submitted), old(outstanding)), script[..i])
      {
        AdmitMore(capacity, Log(old(submitted), old(outstanding)), script[..i], [script[i]]);
        assert script[..i + 1] == script[..i] + [script[i]];
        var err := Pass(script[i], hand, reaped);
      }
      assert script[..|script|] == script;
    }

    /** Take the oldest queued element off the queue and execute its command. */
    method ExecuteHead(ghost reaped: nat) returns (e: Entry)
      requires Consistent([], reaped) && Refines() && sq != []
      modifies this`sq, this`executed, machine.mem
      ensures Consistent([e], reaped + 1) && Refines()
      ensures executed == old(executed) + 1 && sq == old(sq)[1..]
      ensures e < |elm| && elm[e] == submitted[old(executed)]
    {
      e := sq[0];
      HeadTaken(elm, rp, sq, capacity, submitted, executed);
      sq := sq[1..];
      RunCommand(elm[e]);
    }

    /** The next submission is executed. */
    method RunCommand(c: Cmd)
      requires Refines() && executed < |submitted| && c == submitted[executed]
      modifies this`executed, machine.mem
      ensures Refines() && executed == old(executed) + 1
    {
      ghost var m := machine.mem[..];
      machine.Execute(dev, c);
      RefinesNext(dev, mem0, m, machine.mem[..], submitted, executed);
      executed := executed + 1;
    }

    /** One turn of the poke: execute, call back, recycle the element. */
    method CompleteOne(script: seq<Cmd>, ghost reaped: nat)
      requires Consistent([], reaped) && Refines() && Reported() && sq != [] && outstanding <= capacity
      modifies this`elm, this`rp, this`sq, this`outstanding, this`submitted, this`executed, this`called, machine.mem
      ensures Consistent([], reaped + 1) && Refines() && Reported() && outstanding <= capacity
      ensures executed == old(executed) + 1
      ensures Log(submitted, outstanding) == Admit(capacity, Log(old(submitted), old(outstanding)), script)
    {
      var e := ExecuteHead(reaped);
      Callback(elm[e], script, [e], reaped + 1);
      Recycle(e, reaped + 1);
      assert submitted[..executed] == old(submitted)[..old(executed)] + [old(submitted)[old(executed)]];
    }

    /** The element goes back to the request pool. */
    method Recycle(e: Entry, ghost reaped: nat)
      requires Consistent([e], reaped)
      modifies this`rp
      ensures Consistent([], reaped)
    {
      PartitionReturn(rp, sq, e, capacity);
      rp := rp + [e];
    }

    /** Execute queued commands in order, at most `max` of them; the `i`-th completion runs `scripts[i]`. */
    method Poke(max: nat, scripts: seq<seq<Cmd>>) returns (completed: nat)
      requires Valid()
      modifies this`elm, this`rp, this`sq, this`outstanding, this`submitted, this`executed, this`called, machine.mem
      ensures Valid()
      ensures completed == Clamp(max, old(outstanding))
      ensures executed == old(executed) + completed
      ensures Log(submitted, outstanding) ==
              LogAfter(capacity, Log(old(submitted), old(outstanding)), Action.Poke(max, scripts))
    {
      var limit := if max == 0 then outstanding else max;
      limit := if limit > outstanding then outstanding else limit;
      ghost var log := Log(submitted, outstanding);
      completed := 0;
      while completed < limit
        invariant completed <= limit == Clamp(max, old(outstanding))
        invariant Consistent([], completed) && Refines() && Reported() && outstanding <= capacity
        invariant executed == old(executed) + completed
        invariant Log(submitted, outstanding) == Admit(capacity, log, Flat(scripts, completed))
      {
        assert |sq| == |submitted| - executed > 0;
        AdmitMore(capacity, log, Flat(scripts, completed), Script(scripts, completed));
        CompleteOne(if completed < |scripts| then scripts[completed] else [], completed);
        completed := completed + 1;
      }
      outstanding := outstanding - completed;
    }

    /** Repeated pokes until nothing is outstanding. */
    method Drain()
      requires Valid()
      modifies this`elm, this`rp, this`sq, this`outstanding, this`submitted, this`executed, this`called, machine.mem
      ensures Valid() && outstanding == 0 && submitted == old(submitted)
      ensures AllWellFormed(dev, mem0, submitted) ==> machine.mem[..] == ExecuteAll(dev, mem0, submitted)
    {
      while outstanding > 0
        invariant Valid() && submitted == old(submitted)
        decreases outstanding
      {
        FlatOfNone<Cmd>(outstanding);
        var n := Poke(0, []);
      }
      assert submitted[..executed] == submitted;
    }

    /** Any sequence of submissions and pokes, with any callbacks: what was accepted and what is outstanding is what
        the caller's view says; the commands executed are exactly the first `|submitted| - outstanding` submissions, in
        order, each called back once. A command reads memory, and a simple copy its descriptors, when it is executed. */
    method Drive(actions: seq<Action>)
      requires Valid()
      modifies this`elm, this`rp, this`sq, this`outstanding, this`submitted, this`executed, this`called, machine.mem
      ensures Valid() && outstanding <= |submitted|
      ensures Log(submitted, outstanding) == LogsAfter(capacity, Log(old(submitted), old(outstanding)), actions)
      ensures called == submitted[..|submitted| - outstanding]
      ensures AllWellFormed(dev, mem0, called) ==> machine.mem[..] == ExecuteAll(dev, mem0, called)
    {
      ghost var log := Log(submitted, outstanding);
      for i := 0 to |actions|
        invariant Valid() && Log(submitted, outstanding) == LogsAfter(capacity, log, actions[..i])
      {
        assert actions[..i + 1][..i] == actions[..i];
        Act(actions[i]);
      }
      assert actions[..|actions|] == actions;
    }

    method Act(a: Action)
      requires Valid()
      modifies this`elm, this`rp, this`sq, this`outstanding, this`submitted, this`executed, this`called, machine.mem
      ensures Valid() && Log(submitted, outstanding) == LogAfter(capacity, Log(old(submitted), old(outstanding)), a)
    {
      match a
      case Submit(c) => var err := Pass(c, [], 0);
      case Poke(max, scripts) => var n := Poke(max, scripts);
    }
  }
}
