/**
 The GPU-resident queue pair: a submission ring and a completion ring whose tail, head and phase bit are
 kept in small unsigned fields, and the operations on it.
 */
module GpuRing {
  import opened Common
  import opened Tape

  const WIDTH := 0x1_0000

  /** A conversion to a 16-bit integer. */
  function Trunc16(x: nat): nat {
    x % WIDTH
  }

  datatype Cmd = Cmd(round: nat, cid: nat)

  /** A completion entry; `tag` is its phase bit. */
  datatype Cpl = Cpl(cmd: Cmd, tag: bool)

  // ---------------------------------------------------------------------------------------------
  // The operations of the ring, on 16-bit fields

  /** The ring position `offset` places after `base`. */
  function Index(base: nat, offset: nat, depth: nat): nat
    requires depth > 0
  {
    (base + offset) % depth
  }

  /** The phase tag of a fresh entry `offset` places after `head`. */
  function Expected(head: nat, phase: bool, offset: nat, depth: nat): bool {
    if Trunc16(head + offset) >= depth then !phase else phase
  }

  /** The head, and the phase, after `increment` more completions. */
  function Moved(head: nat, phase: bool, increment: nat, depth: nat): (r: (nat, bool)) {
    var h := Trunc16(head + increment);
    if h >= depth then (h - depth, !phase) else (h, phase)
  }

  predicate Fresh(cqe: Cpl, expected: bool) {
    cqe.cmd.cid < 0xFFFF && cqe.tag == expected
  }

  // ---------------------------------------------------------------------------------------------
  // The operations on an unbounded tape

  lemma IndexIsSlot(base: nat, j: nat, offset: nat, depth: nat)
    requires depth > 0 && offset < depth && base == Slot(j, depth)
    ensures Index(base, offset, depth) == Slot(j + offset, depth)
  {
    SlotAdd(j, offset, depth);
    SlotIsMod(base + offset, depth);
  }

  /** The tag compared with is that of the entry's position exactly when the sum fits 16 bits. */
  lemma ExpectedIsTag(j: nat, offset: nat, depth: nat)
    requires 0 < depth < WIDTH && offset < depth
    ensures Expected(Slot(j, depth), Tag(j, depth), offset, depth) == Tag(j + offset, depth)
            <==> Slot(j, depth) + offset < WIDTH
  {
    SlotAdd(j, offset, depth);
  }

  /** The head moves to the next position, and the phase with it, exactly when the sum fits 16 bits. */
  lemma MovedIsNext(j: nat, increment: nat, depth: nat)
    requires 0 < depth < WIDTH && increment < depth
    ensures Moved(Slot(j, depth), Tag(j, depth), increment, depth)
            == (Slot(j + increment, depth), Tag(j + increment, depth))
            <==> Slot(j, depth) + increment < WIDTH
  {
    SlotAdd(j, increment, depth);
  }

  lemma PollValues(head: nat, phase: bool, j: nat, offset: nat, depth: nat)
    requires 0 < depth < WIDTH && offset < depth && depth + offset <= WIDTH
    requires head == Slot(j, depth) && phase == Tag(j, depth)
    ensures Trunc16(offset) == offset && Index(head, offset, depth) == Slot(j + offset, depth)
    ensures Expected(head, phase, offset, depth) == Tag(j + offset, depth)
  {
    IndexIsSlot(head, j, offset, depth);
    ExpectedIsTag(j, offset, depth);
  }

  /** The number of commands a doorbell write announces. */
  function Announced(was: nat, now: nat, depth: nat): nat
    requires was < depth
  {
    if was <= now then now - was else now + depth - was
  }

  /** A batch of the whole ring is not seen: the doorbell announces a batch iff it is smaller than the ring. */
  lemma DoorbellAnnounces(tail: nat, increment: nat, depth: nat)
    requires tail < depth
    ensures Announced(tail, Index(tail, increment, depth), depth) == increment <==> increment < depth
  {
    var i := Index(tail, increment, depth);
    if increment < depth {
      SlotIsMod(tail + increment, depth);
    } else {
      assert i < depth;
    }
  }

  /** In a ring of 40000 entries the sums do leave 16 bits: the thread 30000 places after the last slot expects the
      tag of the old lap, and the head does not move on. */
  lemma SumsLeaveSixteenBits()
    ensures Expected(39999, true, 30000, 40000) && !Tag(39999 + 30000, 40000)
    ensures Moved(39999, true, 30000, 40000) == (4463, true) && Slot(39999 + 30000, 40000) == 29999
  {
  }

  /** A batch of the whole ring announces nothing, wherever the tail stands. */
  lemma FullBatchAnnouncesNothing(tail: nat, depth: nat)
    requires tail < depth
    ensures Index(tail, depth, depth) == tail && Announced(tail, Index(tail, depth, depth), depth) == 0
  {
    SlotIsMod(tail + depth, depth);
    SlotLap(tail, depth);
  }

  // ---------------------------------------------------------------------------------------------
  // The queue pair in device memory

  /** A command is sixteen words of 32 bits. */
  const WORDS := 16

  class QueuePair {
    const depth: nat
    const sq: array<seq<nat>>
    var tail: nat
    var head: nat
    var phase: bool
    var sqdb: nat
    var cqdb: nat

    /** Commands announced and completions acknowledged since the queue was created. */
    ghost var sent: nat
    ghost var acked: nat

    ghost predicate Valid()
      reads this, sq
    {
      && 0 < depth < WIDTH && sq.Length == depth
      && (forall i | 0 <= i < depth :: |sq[i]| == WORDS)
      && tail == sqdb == Slot(sent, depth)
      && head == cqdb == Slot(acked, depth)
      && phase == Tag(acked, depth)
    }

    constructor (depth: nat)
      requires 0 < depth < WIDTH
      ensures Valid() && sent == acked == 0 && this.depth == depth && fresh(sq)
    {
      this.depth := depth;
      sq := new seq<nat>[depth](_ => seq(WORDS, _ => 0));
      tail, head, sqdb, cqdb, phase := 0, 0, 0, 0, true;
      sent, acked := 0, 0;
    }

    /** Copy a command, word by word, to the slot `offset` places after the tail; the tail stays. */
    method EnqueueAt(cmd: seq<nat>, offset: nat)
      requires Valid() && |cmd| == 16
      modifies sq
      ensures Valid()
      ensures sq[..] == old(sq[..])[Index(tail, offset, depth) := cmd]
      ensures sq[Slot(sent + offset, depth)] == cmd
    {
      var index := (tail + offset) % depth;
      for i := 0 to WORDS
        invariant forall k | 0 <= k < depth && k != index :: sq[k] == old(sq[k])
        invariant |sq[index]| == WORDS && sq[index][..i] == cmd[..i]
      {
        sq[index] := sq[index][i := cmd[i]];
        assert sq[index][..i + 1] == sq[index][..i] + [cmd[i]] == cmd[..i + 1];
      }
      assert sq[index] == sq[index][..WORDS] == cmd[..WORDS] == cmd;
      SlotSum(sent, offset, depth);
    }

    /** Move the tail and ring the doorbell. The controller sees `increment` new commands, unless they would
        fill the ring. */
    method SqUpdate(increment: nat)
      requires Valid()
      modifies this`tail, this`sqdb, this`sent
      ensures Valid() && sent == old(sent) + increment
      ensures Announced(old(sqdb), sqdb, depth) == increment <==> increment < depth
    {
      SlotSum(sent, increment, depth);
      DoorbellAnnounces(tail, increment, depth);
      tail := (tail + increment) % depth;
      sqdb := tail;
      sent := sent + increment;
    }

    function Tagged(offset: nat): bool
      reads this
    {
      Expected(head, phase, offset, depth)
    }

    /** Poll the slot `offset` places after the head; `polls` is what it holds, poll by poll, until the
        deadline passes. */
    method ReapAt(polls: seq<Cpl>, offset: nat) returns (err: int, cpl: Cpl)
      requires Valid() && polls != []
      ensures err == 0 || err == -EAGAIN
      ensures err == 0 ==> exists i | 0 <= i < |polls| :: polls[i] == cpl && FirstFresh(polls, i, Tagged(offset))
      ensures err != 0 ==> forall i | 0 <= i < |polls| :: !Fresh(polls[i], Tagged(offset))
      ensures offset < depth ==> (Tagged(offset) == Tag(acked + offset, depth) <==> head + offset < WIDTH)
    {
      var expected := if Trunc16(head + offset) >= depth then !phase else phase;
      if offset < depth {
        ExpectedIsTag(acked, offset, depth);
      }
      var i := 0;
      cpl := polls[0];
      while i < |polls|
        invariant 0 <= i <= |polls|
        invariant forall k | 0 <= k < i :: !Fresh(polls[k], expected)
      {
        if Fresh(polls[i], expected) {
          return 0, polls[i];
        }
        i := i + 1;
      }
      err := -EAGAIN;
    }

    /** Move the head past `increment` completions; the phase follows the laps. */
    method CqUpdate(increment: nat)
      requires Valid()
      modifies this`head, this`cqdb, this`phase, this`acked
      ensures (head, phase) == Moved(old(head), old(phase), increment, depth) && cqdb == head
      ensures acked == old(acked) + increment
      ensures increment < depth ==> (Valid() <==> old(head) + increment < WIDTH)
    {
      if increment < depth {
        MovedIsNext(acked, increment, depth);
      }
      var newHead := Trunc16(head + increment);
      if newHead >= depth {
        newHead := newHead - depth;
        phase := !phase;
      }
      head := newHead;
      cqdb := head;
      acked := acked + increment;
    }
  }

  predicate FirstFresh(polls: seq<Cpl>, i: nat, tag: bool) {
    i < |polls| && Fresh(polls[i], tag) && forall k | 0 <= k < i :: !Fresh(polls[k], tag)
  }
}
