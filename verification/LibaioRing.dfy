/**
 The libaio queue, which takes completion events straight out of the ring that the kernel shares with the
 process. The kernel may append events at any time, also while the ring is being read.
 */
module LibaioRing {
  import opened Common
  import opened Lists
  import opened Tape

  /** `ctx` is the command context of the event; zero is no context. */
  datatype Event = Event(ctx: nat, res: int)

  /** What happens while a callback runs: it submits a command, and `io_submit` answers with the number of
      commands taken or an error; or the kernel posts an event. */
  datatype Action = Submit(answer: int) | Post(e: Event)

  datatype Report = Report(ctx: nat, result: int, sc: int, vendor: bool)

  /** What an event tells its context: the result of a transfer that went through, or the error number of one that
      did not, as far as eight bits hold it, and result zero. */
  predicate Tells(e: Event, r: Report) {
    && r.ctx == e.ctx
    && (e.res >= 0 ==> r.result == e.res && r.sc == 0 && !r.vendor)
    && (e.res < 0 ==> r.result == 0 && 0 <= r.sc < 256 && (e.res + r.sc) % 256 == 0 && r.vendor)
  }

  function ToReport(e: Event): (r: Report)
    ensures Tells(e, r)
  {
    if e.res < 0 then Report(e.ctx, 0, StatusCode(-e.res), true) else Report(e.ctx, e.res, 0, false)
  }

  function Reports(events: seq<Event>): (r: seq<Report>)
    ensures |r| == |events| && forall i | 0 <= i < |r| :: Tells(events[i], r[i])
  {
    seq(|events|, i requires 0 <= i < |events| => ToReport(events[i]))
  }

  /** The first event of a batch without a context, or the length of the batch. */
  function FirstNull(events: seq<Event>): (k: nat)
    ensures k <= |events| && (k < |events| ==> events[k].ctx == 0)
    ensures forall i | 0 <= i < k :: events[i].ctx != 0
  {
    if events == [] || events[0].ctx == 0 then 0 else 1 + FirstNull(events[1..])
  }

  /** The events from position `from` on stand in the ring. */
  predicate Stand(cells: seq<Event>, posted: seq<Event>, from: nat) {
    forall j: nat | from <= j < |posted| :: StandsAt(cells, posted, j)
  }

  predicate StandsAt(cells: seq<Event>, posted: seq<Event>, j: nat) {
    cells != [] && j < |posted| && cells[Slot(j, |cells|)] == posted[j]
  }

  lemma StandOneMore(cells: seq<Event>, posted: seq<Event>, from: nat, e: Event)
    requires cells != [] && from <= |posted| < from + |cells| && Stand(cells, posted, from)
    ensures Stand(cells[Slot(|posted|, |cells|) := e], posted + [e], from)
  {
    var n := |posted|;
    var cells' := cells[Slot(n, |cells|) := e];
    forall j: nat | from <= j < n + 1 ensures StandsAt(cells', posted + [e], j) {
      if j < n {
        assert StandsAt(cells, posted, j);
        SlotDistinct(j, n, |cells|);
      }
    }
  }

  // ---------------------------------------------------------------------------------------------
  // What happens meanwhile

  /** As many of the events in a row as there is room for. */
  function Fitting(es: seq<Event>, room: nat): (fs: seq<Event>)
    ensures |fs| == Min(|es|, room)
  {
    es[..Min(|es|, room)]
  }

  /** Of the events `es` those were posted, after `before`, that there was room for. */
  predicate Arrived(before: seq<Event>, now: seq<Event>, es: seq<Event>, room: nat) {
    now == before + Fitting(es, room)
  }

  /** Events that come in two goes fit like those that come in one. */
  lemma FittingMore(es: seq<Event>, more: seq<Event>, room: nat)
    ensures Fitting(es, room) + Fitting(more, room - |Fitting(es, room)|) == Fitting(es + more, room)
  {
    if |es| >= room {
      assert (es + more)[..room] == es[..room];
    } else {
      var k := Min(|more|, room - |es|);
      assert es[..|es|] + more[..k] == (es + more)[..|es| + k];
    }
  }

  lemma ArrivedMore(p0: seq<Event>, p1: seq<Event>, p2: seq<Event>, es: seq<Event>, more: seq<Event>, room: nat)
    requires Arrived(p0, p1, es, room) && |p1| <= |p0| + room && Arrived(p1, p2, more, |p0| + room - |p1|)
    ensures Arrived(p0, p2, es + more, room)
  {
    FittingMore(es, more, room);
  }

  /** The events that the kernel has for the ring while a script runs. */
  function Posts(script: seq<Action>): seq<Event>
    decreases |script|
  {
    if script == [] then []
    else
      var a := script[|script| - 1];
      Posts(script[..|script| - 1]) + if a.Post? then [a.e] else []
  }

  /** The submissions of a script that the kernel would take. */
  function Submits(script: seq<Action>): nat
    decreases |script|
  {
    if script == [] then 0
    else
      var a := script[|script| - 1];
      Submits(script[..|script| - 1]) + if a.Submit? && a.answer == 1 then 1 else 0
  }

  lemma {:induction false} ScriptsJoin(a: seq<Action>, b: seq<Action>)
    ensures Posts(a + b) == Posts(a) + Posts(b) && Submits(a + b) == Submits(a) + Submits(b)
    decreases |b|
  {
    if b == [] {
      assert a + b == a;
    } else {
      var n := |b| - 1;
      ScriptsJoin(a, b[..n]);
      assert (a + b)[..|a + b| - 1] == a + b[..n];
    }
  }

  /** While a script ran the kernel posted its events as far as they fit, and the queue took its submissions as far as
      it had room. */
  predicate Happened(script: seq<Action>, posted0: seq<Event>, posted: seq<Event>, room: nat, submitted0: nat,
                     submitted: nat, free: nat) {
    && Arrived(posted0, posted, Posts(script), room)
    && submitted == submitted0 + Min(Submits(script), free)
  }

  lemma HappenedMore(a: seq<Action>, b: seq<Action>, p0: seq<Event>, p1: seq<Event>, p2: seq<Event>, room: nat,
                     s0: nat, s1: nat, s2: nat, free: nat)
    requires Happened(a, p0, p1, room, s0, s1, free)
    requires |p1| <= |p0| + room && s1 <= s0 + free
    requires Happened(b, p1, p2, |p0| + room - |p1|, s1, s2, s0 + free - s1)
    ensures Happened(a + b, p0, p2, room, s0, s2, free)
  {
    ScriptsJoin(a, b);
    FittingMore(Posts(a), Posts(b), room);
  }

  /** While a poke took `n` events the events `es` came in, and while it called back the script ran. */
  predicate Meanwhile(es: seq<Event>, script: seq<Action>, n: nat, posted0: seq<Event>, posted: seq<Event>, room: nat,
                      submitted0: nat, submitted: nat, free: nat) {
    var arrived := Fitting(es, room);
    Happened(script, posted0 + arrived, posted, room - |arrived| + n, submitted0, submitted, free)
  }

  lemma MeanwhileOk(es: seq<Event>, script: seq<Action>, n: nat, p0: seq<Event>, p1: seq<Event>, p2: seq<Event>,
                    room0: nat, room1: nat, s0: nat, s1: nat, free: nat)
    requires Arrived(p0, p1, es, room0) && |p1| + room1 == |p0| + room0 + n
    requires Happened(script, p1, p2, room1, s0, s1, free)
    ensures Meanwhile(es, script, n, p0, p2, room0, s0, s1, free)
  {
  }

  class Queue {
    const capacity: nat
    const nr: nat
    const compatible: bool
    const ring: array<Event>
    const events: array<Event>
    var head: nat
    var tail: nat
    var outstanding: nat

    /** Commands submitted; events posted by the kernel, in order; how many of them were taken out of the
        ring; and the callbacks made. */
    ghost var submitted: nat
    ghost var posted: seq<Event>
    ghost var taken: nat
    ghost var delivered: seq<Report>

    /** The ring holds the events that were posted and not taken. The kernel leaves one slot empty. */
    ghost predicate RingOk()
      reads this, ring, events
    {
      && 0 < nr == ring.Length && events.Length == capacity && ring != events
      && taken <= |posted| < taken + nr
      && head == Slot(taken, nr) && tail == Slot(|posted|, nr)
      && Stand(ring[..], posted, taken)
    }

    /** `reaped` commands are being called back and still count as outstanding. */
    ghost predicate Counts(reaped: nat)
      reads this
    {
      outstanding <= capacity && taken <= submitted + reaped && outstanding == submitted - taken + reaped
    }

    ghost predicate Valid()
      reads this, ring, events
    {
      RingOk() && Counts(0) && delivered == Reports(posted[..taken])
    }

    constructor (capacity: nat, nr: nat, compatible: bool)
      requires nr > 0
      ensures Valid() && fresh(this) && fresh(ring) && fresh(events)
      ensures submitted == taken == 0 && posted == [] && delivered == []
    {
      this.capacity, this.nr, this.compatible := capacity, nr, compatible;
      ring := new Event[nr](_ => Event(0, 0));
      events := new Event[capacity](_ => Event(0, 0));
      head, tail, outstanding := 0, 0, 0;
      submitted, taken, posted, delivered := 0, 0, [], [];
    }

    /** The kernel posts an event, if its ring has room for one. */
    method KernelPost(e: Event) returns (ok: bool)
      requires RingOk()
      modifies this`tail, this`posted, ring
      ensures RingOk() && events[..] == old(events[..])
      ensures posted == if ok then old(posted) + [e] else old(posted)
      ensures ok <==> old(Room()) > 0
    {
      SlotSum(|posted|, 1, nr);
      if Room() > 0 {
        SlotDistinct(taken, |posted| + 1, nr);
      } else {
        SlotLap(taken, nr);
      }
      ok := (tail + 1) % nr != head;
      if ok {
        StandOneMore(ring[..], posted, taken, e);
        ring[tail] := e;
        assert ring[..] == old(ring[..])[Slot(|posted|, nr) := e];
        tail := (tail + 1) % nr;
        posted := posted + [e];
      }
    }

    /** The slots that the kernel can still fill. */
    ghost function Room(): nat
      requires RingOk()
      reads this, ring, events
    {
      taken + nr - 1 - |posted|
    }

    /** Copy events out of the ring until `limit` is reached or the ring is empty. Before the `i`-th look at
        the tail the kernel posts `arrivals[i]`. */
    method Copy(limit: nat, arrivals: seq<seq<Event>>) returns (completed: nat)
      requires RingOk() && limit <= capacity
      modifies this`head, this`tail, this`posted, this`taken, ring, events
      ensures RingOk()
      ensures completed <= limit && taken == old(taken) + completed
      ensures events[..completed] == posted[old(taken)..taken]
      ensures completed < limit ==> taken == |posted|
      ensures Arrived(old(posted), posted, Flat(arrivals, completed + Flag(completed < limit)), old(Room()))
    {
      var current, more := head, true;
      ghost var looks, room: nat := 0, Room();
      completed := 0;
      while completed < limit && more
        invariant RingOk() && taken == old(taken)
        invariant completed <= limit && (!more ==> completed < limit) && Copied(current, completed)
        invariant !more ==> taken + completed == |posted|
        invariant looks == completed + Flag(!more) && |old(posted)| + room == taken + nr - 1
        invariant Arrived(old(posted), posted, Flat(arrivals, looks), room)
        decreases limit - completed, more
      {
        current, more := Look(current, completed, arrivals, old(posted), room);
        looks := completed + 1;
        completed := if more then completed + 1 else completed;
      }
      Release(current, completed);
    }

    /** The slots of the copied events are free again. */
    method Release(current: nat, completed: nat)
      requires RingOk() && Copied(current, completed)
      modifies this`head, this`taken
      ensures RingOk() && taken == old(taken) + completed && events[..completed] == posted[old(taken)..taken]
    {
      head := current;
      taken := taken + completed;
    }

    /** One look at the tail. */
    method Look(current: nat, completed: nat, arrivals: seq<seq<Event>>, ghost posted0: seq<Event>, ghost room: nat)
      returns (next: nat, more: bool)
      requires RingOk() && completed < capacity && Copied(current, completed)
      requires |posted0| + room == taken + nr - 1 && Arrived(posted0, posted, Flat(arrivals, completed), room)
      modifies this`tail, this`posted, ring, events
      ensures RingOk() && Arrived(posted0, posted, Flat(arrivals, completed + 1), room)
      ensures if more then Copied(next, completed + 1)
              else Copied(next, completed) && taken + completed == |posted|
    {
      ArriveMeanwhile(current, completed, if completed < |arrivals| then arrivals[completed] else []);
      ArrivedMore(posted0, old(posted), posted, Flat(arrivals, completed), Script(arrivals, completed), room);
      next, more := Turn(current, completed);
    }

    /** `completed` events were copied; `current` is the slot of the next one. */
    ghost predicate Copied(current: nat, completed: nat)
      reads this, events
    {
      && nr > 0 && completed <= events.Length && taken + completed <= |posted|
      && current == Slot(taken + completed, nr)
      && events[..completed] == posted[taken..taken + completed]
    }

    /** Copy one more event, unless the ring is empty. */
    method Turn(current: nat, completed: nat) returns (next: nat, more: bool)
      requires RingOk() && completed < capacity && Copied(current, completed)
      modifies events
      ensures RingOk()
      ensures if more then Copied(next, completed + 1)
              else Copied(next, completed) && taken + completed == |posted|
    {
      if current == tail {
        if taken + completed < |posted| {
          SlotDistinct(taken + completed, |posted|, nr);
        }
        return current, false;
      }
      TakeOne(current, completed);
      SlotSum(taken + completed, 1, nr);
      next, more := (current + 1) % nr, true;
    }

    method ArriveMeanwhile(ghost current: nat, ghost completed: nat, arrivals: seq<Event>)
      requires RingOk() && Copied(current, completed)
      modifies this`tail, this`posted, ring
      ensures RingOk() && Copied(current, completed)
      ensures Arrived(old(posted), posted, arrivals, old(Room()))
    {
      Arrive(arrivals);
      assert events[..completed] == old(events[..])[..completed];
    }

    method TakeOne(current: nat, completed: nat)
      requires RingOk() && completed < capacity && taken + completed < |posted|
      requires current == Slot(taken + completed, nr)
      requires events[..completed] == posted[taken..taken + completed]
      modifies events
      ensures RingOk()
      ensures events[..completed + 1] == posted[taken..taken + completed + 1]
    {
      assert StandsAt(ring[..], posted, taken + completed);
      events[completed] := ring[current];
      assert events[..completed] == old(events[..completed]);
    }

    method Arrive(es: seq<Event>)
      requires RingOk()
      modifies this`tail, this`posted, ring
      ensures RingOk() && events[..] == old(events[..])
      ensures posted == old(posted) + Fitting(es, old(Room()))
    {
      for i := 0 to |es|
        invariant RingOk() && events[..] == old(events[..])
        invariant posted == old(posted) + Fitting(es[..i], old(Room()))
      {
        FittingMore(es[..i], [es[i]], old(Room()));
        assert es[..i + 1] == es[..i] + [es[i]];
        var ok := KernelPost(es[i]);
      }
      assert es[..|es|] == es;
    }

    /** The system call for rings this code does not read itself: the kernel copies the events. It is asked
        for `limit` of them and gives no more than there are, or fails with a negative `answer`. */
    method GetEvents(limit: nat, answer: int) returns (completed: int)
      requires RingOk() && limit <= capacity
      modifies this`head, this`tail, this`posted, this`taken, ring, events
      ensures RingOk() && posted == old(posted)
      ensures completed < 0 <==> answer < 0
      ensures completed < 0 ==> completed == answer && taken == old(taken)
      ensures completed >= 0 ==> completed <= limit && taken == old(taken) + completed
                                 && events[..completed] == posted[old(taken)..taken]
    {
      completed := answer;
      if answer >= 0 {
        completed := Copy(if answer < limit then answer else limit, []);
        FlatOfNone<Event>(completed);
        FlatOfNone<Event>(completed + 1);
      }
    }

    /** The guard and the submission; `answer` is what `io_submit` returns. */
    method Pass(answer: int, ghost reaped: nat) returns (err: int)
      requires Counts(reaped)
      modifies this`outstanding, this`submitted
      ensures Counts(reaped)
      ensures err == if old(outstanding) == capacity then -EBUSY else if answer == 1 then 0 else answer
      ensures submitted == if old(outstanding) < capacity && answer == 1 then old(submitted) + 1 else old(submitted)
      ensures outstanding - old(outstanding) == submitted - old(submitted)
    {
      if outstanding == capacity {
        return -EBUSY;
      }
      if answer == 1 {
        outstanding := outstanding + 1;
        submitted := submitted + 1;
        return 0;
      }
      err := answer;
    }

    /** Call back for one event; meanwhile the callback submits commands and the kernel posts events. */
    method Callback(ev: Event, script: seq<Action>, ghost reaped: nat)
      requires RingOk() && Counts(reaped)
      modifies this`outstanding, this`submitted, this`tail, this`posted, this`delivered, ring
      ensures RingOk() && Counts(reaped) && events[..] == old(events[..])
      ensures delivered == old(delivered) + [ToReport(ev)]
      ensures Happened(script, old(posted), posted, old(Room()), old(submitted), submitted, capacity - old(outstanding))
    {
      delivered := delivered + [ToReport(ev)];
      RunScript(script, reaped);
    }

    method RunScript(script: seq<Action>, ghost reaped: nat)
      requires RingOk() && Counts(reaped)
      modifies this`outstanding, this`submitted, this`tail, this`posted, ring
      ensures RingOk() && Counts(reaped) && events[..] == old(events[..])
      ensures Happened(script, old(posted), posted, old(Room()), old(submitted), submitted, capacity - old(outstanding))
    {
      ghost var room, free := Room(), capacity - outstanding;
      for i := 0 to |script|
        invariant RingOk() && Counts(reaped) && events[..] == old(events[..])
        invariant Happened(script[..i], old(posted), posted, room, old(submitted), submitted, free)
      {
        assert script[..i + 1][..i] == script[..i];
        DoAction(script[..i + 1], reaped, old(posted), room, old(submitted), free);
      }
      assert script[..|script|] == script;
    }

    /** The last action of a script, after the others. */
    method DoAction(script: seq<Action>, ghost reaped: nat, ghost posted0: seq<Event>, ghost room: nat,
                    ghost submitted0: nat, ghost free: nat)
      requires RingOk() && Counts(reaped) && script != []
      requires |posted0| + room == taken + nr - 1 && submitted0 + free == submitted + capacity - outstanding
      requires Happened(script[..|script| - 1], posted0, posted, room, submitted0, submitted, free)
      modifies this`outstanding, this`submitted, this`tail, this`posted, ring
      ensures RingOk() && Counts(reaped) && events[..] == old(events[..])
      ensures Happened(script, posted0, posted, room, submitted0, submitted, free)
    {
      var a := script[|script| - 1];
      FittingMore(Posts(script[..|script| - 1]), if a.Post? then [a.e] else [], room);
      match a
      case Submit(answer) => var err := Pass(answer, reaped);
      case Post(e) => var ok := KernelPost(e);
    }

    /** Call back for the first `completed` events of the array, up to one without a context. */
    method Deliver(completed: nat, scripts: seq<seq<Action>>, ghost batch: seq<Event>, ghost es: seq<Event>,
                   ghost posted0: seq<Event>, ghost room0: nat) returns (r: int)
      requires RingOk() && Counts(completed) && completed <= outstanding && completed <= capacity
      requires batch == events[..completed]
      requires Arrived(posted0, posted, es, room0) && |posted0| + room0 + completed == taken + nr - 1
      modifies this`outstanding, this`submitted, this`tail, this`posted, this`delivered, ring
      ensures RingOk() && old(posted) <= posted
      ensures Meanwhile(es, Flat(scripts, FirstNull(batch)), completed, posted0, posted, room0, old(submitted),
                        submitted, capacity - old(outstanding))
      ensures var k := FirstNull(batch);
              && delivered == old(delivered) + Reports(batch[..k])
              && r == (if k < completed then -EIO else completed)
              && (Counts(0) <==> k == completed || completed == 1)
    {
      ghost var room, free := Room(), capacity - outstanding;
      var k := CallAll(completed, scripts, batch, room, free);
      MeanwhileOk(es, Flat(scripts, k), completed, posted0, old(posted), posted, room0, room, old(submitted), submitted,
                  free);
      if k < completed {
        outstanding := outstanding - 1;
        return -EIO;
      }
      outstanding := outstanding - completed;
      r := completed;
    }

    /** Call back for the events of the batch up to the first one without a context. */
    method CallAll(completed: nat, scripts: seq<seq<Action>>, ghost batch: seq<Event>, ghost room: nat, ghost free: nat)
      returns (k: nat)
      requires completed <= events.Length && batch == events[..completed]
      requires Delivering(0, scripts, batch, delivered, posted, room, submitted, free)
      modifies this`outstanding, this`submitted, this`tail, this`posted, this`delivered, ring
      ensures k == FirstNull(batch)
      ensures Delivering(k, scripts, batch, old(delivered), old(posted), room, old(submitted), free)
    {
      k := 0;
      while k < completed && events[k].ctx != 0
        invariant k <= completed
        invariant Delivering(k, scripts, batch, old(delivered), old(posted), room, old(submitted), free)
      {
        assert batch[k] == events[k];
        DeliverNext(k, scripts, batch, old(delivered), old(posted), room, old(submitted), free);
        k := k + 1;
      }
      assert k < completed ==> batch[k] == events[k];
    }

    /** The first `i` events of a batch were called back for, since there were `delivered0` callbacks, `posted0` events
        and `submitted0` submissions. */
    ghost predicate Delivering(i: nat, scripts: seq<seq<Action>>, batch: seq<Event>, delivered0: seq<Report>,
                               posted0: seq<Event>, room: nat, submitted0: nat, free: nat)
      reads this, ring, events
    {
      && RingOk() && Counts(|batch|) && |batch| <= outstanding && i <= FirstNull(batch)
      && |posted0| + room == taken + nr - 1 && submitted0 + free == submitted + capacity - outstanding
      && delivered == delivered0 + Reports(batch[..i])
      && Happened(Flat(scripts, i), posted0, posted, room, submitted0, submitted, free)
    }

    method DeliverNext(i: nat, scripts: seq<seq<Action>>, ghost batch: seq<Event>, ghost delivered0: seq<Report>,
                       ghost posted0: seq<Event>, ghost room: nat, ghost submitted0: nat, ghost free: nat)
      requires Delivering(i, scripts, batch, delivered0, posted0, room, submitted0, free)
      requires i < |batch| <= events.Length && batch[i] == events[i] && events[i].ctx != 0
      modifies this`outstanding, this`submitted, this`tail, this`posted, this`delivered, ring
      ensures Delivering(i + 1, scripts, batch, delivered0, posted0, room, submitted0, free)
    {
      Callback(events[i], if i < |scripts| then scripts[i] else [], |batch|);
      HappenedMore(Flat(scripts, i), Script(scripts, i), posted0, old(posted), posted, room, submitted0, old(submitted),
                   submitted, free);
      assert Reports(batch[..i + 1]) == Reports(batch[..i]) + [ToReport(batch[i])];
    }

    /** Take events and call back for them, at most `max`. They are taken in the order they were posted and
        each once, whatever number of laps the ring has made. Without a context-less event every one of them
        is delivered and `outstanding` is again what was submitted and not delivered; with one, that is so
        only when it was alone. */
    method Poke(max: nat, answer: int, arrivals: seq<seq<Event>>, scripts: seq<seq<Action>>)
      returns (r: int, ghost n: nat, ghost batch: seq<Event>)
      requires Valid()
      modifies this, ring, events
      ensures RingOk() && old(posted) <= posted && taken == old(taken) + n && n <= Clamp(max, old(outstanding))
      ensures batch == posted[old(taken)..taken]
      ensures compatible && n < Clamp(max, old(outstanding)) ==>
                taken == |old(posted)| + |Fitting(Meantime(arrivals, n, Clamp(max, old(outstanding))), old(Room()))|
      ensures !compatible && answer < 0 ==> r == answer && Valid() && n == 0
      ensures compatible || answer >= 0 ==>
                && delivered == old(delivered) + Reports(batch[..FirstNull(batch)])
                && r == (if FirstNull(batch) < n then -EIO else n)
                && (Counts(0) <==> FirstNull(batch) == n || n == 1)
                && (FirstNull(batch) == n ==> Valid())
      ensures compatible || answer >= 0 ==>
                Meanwhile(Meantime(arrivals, n, Clamp(max, old(outstanding))), Flat(scripts, FirstNull(batch)), n,
                          old(posted), posted, old(Room()), old(submitted), submitted, capacity - old(outstanding))
    {
      var limit := if max == 0 then outstanding else max;
      limit := if limit > outstanding then outstanding else limit;
      assert limit == Clamp(max, outstanding);
      r, n, batch := TakeAndDeliver(limit, answer, arrivals, scripts);
    }

    /** Take at most `limit` events, those of `batch`, and call back for them. */
    method TakeAndDeliver(limit: nat, answer: int, arrivals: seq<seq<Event>>, scripts: seq<seq<Action>>)
      returns (r: int, ghost n: nat, ghost batch: seq<Event>)
      requires Valid() && limit <= outstanding
      modifies this, ring, events
      ensures RingOk() && old(posted) <= posted && taken == old(taken) + n && n <= limit
      ensures batch == posted[old(taken)..taken]
      ensures compatible && n < limit ==> taken == |old(posted)| + |Fitting(Meantime(arrivals, n, limit), old(Room()))|
      ensures !compatible && answer < 0 ==> r == answer && Valid() && n == 0
      ensures compatible || answer >= 0 ==>
                && delivered == old(delivered) + Reports(batch[..FirstNull(batch)])
                && r == (if FirstNull(batch) < n then -EIO else n)
                && (Counts(0) <==> FirstNull(batch) == n || n == 1)
                && (FirstNull(batch) == n ==> Valid())
      ensures compatible || answer >= 0 ==>
                Meanwhile(Meantime(arrivals, n, limit), Flat(scripts, FirstNull(batch)), n, old(posted), posted,
                          old(Room()), old(submitted), submitted, capacity - old(outstanding))
    {
      var completed := Take(limit, answer, arrivals);
      if completed < 0 {
        return completed, 0, [];
      }
      n, batch := completed, posted[old(taken)..taken];
      r := DeliverTaken(completed, scripts, batch, Meantime(arrivals, n, limit), old(posted), old(Room()));
    }

    /** Call back for the events just taken; `posted0` were posted before they were taken. */
    method DeliverTaken(completed: nat, scripts: seq<seq<Action>>, ghost batch: seq<Event>, ghost es: seq<Event>,
                        ghost posted0: seq<Event>, ghost room0: nat) returns (r: int)
      requires RingOk() && Counts(completed) && completed <= outstanding && completed <= capacity && completed <= taken
      requires batch == events[..completed] == posted[taken - completed..taken] && posted0 <= posted
      requires Arrived(posted0, posted, es, room0) && |posted0| + room0 + completed == taken + nr - 1
      requires taken - completed <= |posted0| && delivered == Reports(posted0[..taken - completed])
      modifies this`outstanding, this`submitted, this`tail, this`posted, this`delivered, ring
      ensures RingOk() && posted0 <= posted && batch == posted[taken - completed..taken]
      ensures delivered == old(delivered) + Reports(batch[..FirstNull(batch)])
      ensures r == if FirstNull(batch) < completed then -EIO else completed
      ensures Counts(0) <==> FirstNull(batch) == completed || completed == 1
      ensures FirstNull(batch) == completed ==> Valid()
      ensures Meanwhile(es, Flat(scripts, FirstNull(batch)), completed, posted0, posted, room0, old(submitted),
                        submitted, capacity - old(outstanding))
    {
      ghost var now := posted;
      r := Deliver(completed, scripts, batch, es, posted0, room0);
      Extended(posted0, now, posted, taken - completed, taken);
      ReportsMore(posted0, posted, taken - completed, taken, batch, FirstNull(batch));
    }

    /** The events that come in while `completed` events are copied, at most `limit` of them. */
    function Meantime(arrivals: seq<seq<Event>>, completed: nat, limit: nat): seq<Event> {
      if compatible then Flat(arrivals, completed + Flag(completed < limit)) else []
    }

    /** Take events out of the ring, directly or through the system call. */
    method Take(limit: nat, answer: int, arrivals: seq<seq<Event>>) returns (completed: int)
      requires RingOk() && limit <= capacity
      modifies this`head, this`tail, this`posted, this`taken, ring, events
      ensures RingOk() && old(posted) <= posted
      ensures completed >= 0 ==> Arrived(old(posted), posted, Meantime(arrivals, completed, limit), old(Room()))
      ensures compatible && completed < limit ==> taken == |posted|
      ensures completed < 0 <==> !compatible && answer < 0
      ensures completed < 0 ==> completed == answer && taken == old(taken)
      ensures completed >= 0 ==> completed <= limit && taken == old(taken) + completed
                                 && events[..completed] == posted[old(taken)..taken]
    {
      if compatible {
        completed := Copy(limit, arrivals);
      } else {
        completed := GetEvents(limit, answer);
      }
    }
  }

  /** A batch of two whose second event has no context: it is taken whole, one command is called back, and one is
      counted off. */
  lemma CountGoesWrong(a: Event, b: Event)
    requires a.ctx != 0 && b.ctx == 0
    ensures FirstNull([a, b]) == 1 && !(FirstNull([a, b]) == |[a, b]| || |[a, b]| == 1)
  {
    assert [a, b][1..] == [b];
  }

  /** Events posted meanwhile change nothing about the ones taken. */
  lemma Extended(first: seq<Event>, was: seq<Event>, now: seq<Event>, i: nat, j: nat)
    requires i <= j <= |was| && first <= was <= now
    ensures first <= now && j <= |now| && now[i..j] == was[i..j]
  {
  }

  lemma ReportsMore(was: seq<Event>, now: seq<Event>, i: nat, j: nat, batch: seq<Event>, k: nat)
    requires i <= j <= |now| && i <= |was| && was <= now && batch == now[i..j] && k <= |batch|
    ensures k == |batch| ==> Reports(was[..i]) + Reports(batch[..k]) == Reports(now[..j])
  {
    assert was[..i] == now[..i];
    assert k == |batch| ==> batch[..k] == batch;
  }
}
