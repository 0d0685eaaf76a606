/**
 A ring as an unbounded tape folded into `depth` slots: position `j` of the tape is in slot `j` modulo the
 depth, and the parity of the laps before it is its phase tag.
 */
module Tape {
  import opened Arith

  function Slot(j: nat, depth: nat): (i: nat)
    requires depth > 0
    ensures i < depth
  {
    if j < depth then j else Slot(j - depth, depth)
  }

  /** The phase tag of the `j`-th completion: one in the first lap, then alternating. */
  function Tag(j: nat, depth: nat): bool
    requires depth > 0
  {
    if j < depth then true else !Tag(j - depth, depth)
  }

  lemma {:induction false} SlotIsMod(j: nat, depth: nat)
    requires depth > 0
    ensures Slot(j, depth) == j % depth
  {
    if j >= depth {
      SlotIsMod(j - depth, depth);
      ModShift(j, depth);
    } else {
      DivUnique(j, depth, 0, j);
    }
  }

  /** The tag is the parity of the number of laps. */
  lemma {:induction false} TagIsParity(j: nat, depth: nat)
    requires depth > 0
    ensures Tag(j, depth) == (j / depth % 2 == 0)
  {
    if j >= depth {
      TagIsParity(j - depth, depth);
      ModShift(j, depth);
      ParityFlips(j / depth, (j - depth) / depth);
    } else {
      DivUnique(j, depth, 0, j);
    }
  }

  lemma ParityFlips(p: nat, q: nat)
    requires p == q + 1
    ensures (p % 2 == 0) != (q % 2 == 0)
  {
  }

  /** Moving on by less than a lap. */
  lemma {:induction false} SlotAdd(j: nat, k: nat, depth: nat)
    requires k < depth
    ensures Slot(j + k, depth) == if Slot(j, depth) + k < depth then Slot(j, depth) + k else Slot(j, depth) + k - depth
    ensures Tag(j + k, depth) == if Slot(j, depth) + k < depth then Tag(j, depth) else !Tag(j, depth)
  {
    if j >= depth {
      SlotAdd(j - depth, k, depth);
    }
  }

  lemma {:induction false} SlotLap(j: nat, depth: nat)
    requires depth > 0
    ensures Slot(j + depth, depth) == Slot(j, depth) && Tag(j + depth, depth) == !Tag(j, depth)
  {
  }

  /** Positions less than a lap apart do not share a slot. */
  lemma SlotDistinct(i: nat, j: nat, depth: nat)
    requires i < j < i + depth
    ensures Slot(i, depth) != Slot(j, depth)
  {
    SlotAdd(i, j - i, depth);
  }

  /** Positions add up in the ring, by whatever offset. */
  lemma {:induction false} SlotSum(j: nat, k: nat, depth: nat)
    requires depth > 0
    ensures (Slot(j, depth) + k) % depth == Slot(j + k, depth)
  {
    if j < depth {
      SlotIsMod(j + k, depth);
    } else {
      SlotSum(j - depth, k, depth);
    }
  }
}
