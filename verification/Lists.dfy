/**
 The linked lists of request entries that the queues move entries between. An entry is named by its
 position in the element array of its queue.
 */
module Lists {
  /** A position in the element array of the queue. */
  type Entry = nat

  function Flag(b: bool): nat {
    if b then 1 else 0
  }

  /** The `i`-th of a list of scripts; there is nothing to do where the list has none. */
  function Script<T>(scripts: seq<seq<T>>, i: nat): seq<T> {
    if i < |scripts| then scripts[i] else []
  }

  /** The first `n` scripts, one after the other. */
  function Flat<T>(scripts: seq<seq<T>>, n: nat): seq<T> {
    if n == 0 then [] else Flat(scripts, n - 1) + Script(scripts, n - 1)
  }

  lemma {:induction false} FlatOfNone<T>(n: nat)
    ensures Flat<T>([], n) == []
  {
    if n != 0 {
      FlatOfNone<T>(n - 1);
    }
  }

  function Occurs(q: seq<Entry>, e: Entry): nat {
    multiset(q)[e]
  }

  lemma OccursHead(q: seq<Entry>, e: Entry)
    requires q != []
    ensures Occurs(q, e) == Flag(q[0] == e) + Occurs(q[1..], e)
  {
    assert q == [q[0]] + q[1..];
  }

  lemma OccursAppend(q: seq<Entry>, x: Entry, e: Entry)
    ensures Occurs(q + [x], e) == Occurs(q, e) + Flag(x == e)
  {
  }

  lemma OccursSplit(q: seq<Entry>, k: nat, e: Entry)
    requires k <= |q|
    ensures Occurs(q, e) == Occurs(q[..k], e) + Occurs(q[k..], e)
  {
    assert q == q[..k] + q[k..];
  }

  lemma OccursMember(q: seq<Entry>, i: nat)
    requires i < |q|
    ensures Occurs(q, q[i]) >= 1
  {
    assert q[i] in q;
  }

  predicate Distinct(q: seq<nat>) {
    forall i, j | 0 <= i < j < |q| :: q[i] != q[j]
  }

  /** Entries are put in front of the request pool one by one. */
  function InitialPool(capacity: nat): (rp: seq<Entry>)
    ensures |rp| == capacity
  {
    if capacity == 0 then [] else [capacity - 1] + InitialPool(capacity - 1)
  }

  lemma {:induction false} InitialPoolOnce(n: nat, e: Entry)
    ensures Occurs(InitialPool(n), e) == Flag(e < n)
  {
    if n != 0 {
      InitialPoolOnce(n - 1, e);
      OccursHead(InitialPool(n), e);
      assert InitialPool(n)[1..] == InitialPool(n - 1);
    }
  }

  /** Each of the entries `0 .. n` is in exactly one of the three lists, once. */
  ghost predicate Partition(a: seq<Entry>, b: seq<Entry>, c: seq<Entry>, n: nat) {
    && |a| + |b| + |c| == n
    && (forall e: Entry :: Occurs(a, e) + Occurs(b, e) + Occurs(c, e) == Flag(e < n))
  }

  lemma PartitionInRange(a: seq<Entry>, b: seq<Entry>, c: seq<Entry>, n: nat)
    requires Partition(a, b, c, n)
    ensures forall i | 0 <= i < |a| :: a[i] < n && a[i] !in b && a[i] !in c
    ensures forall i | 0 <= i < |b| :: b[i] < n && b[i] !in a && b[i] !in c
  {
    forall i | 0 <= i < |a| ensures a[i] < n && a[i] !in b && a[i] !in c {
      OccursMember(a, i);
      assert Occurs(a, a[i]) + Occurs(b, a[i]) + Occurs(c, a[i]) == Flag(a[i] < n);
    }
    forall i | 0 <= i < |b| ensures b[i] < n && b[i] !in a && b[i] !in c {
      OccursMember(b, i);
      assert Occurs(a, b[i]) + Occurs(b, b[i]) + Occurs(c, b[i]) == Flag(b[i] < n);
    }
  }

  /** The head of the first list moves to the end of the second. */
  lemma PartitionHeadToTail(a: seq<Entry>, b: seq<Entry>, c: seq<Entry>, n: nat)
    requires a != [] && Partition(a, b, c, n)
    ensures Partition(a[1..], b + [a[0]], c, n)
  {
    forall e: Entry ensures Occurs(a[1..], e) + Occurs(b + [a[0]], e) + Occurs(c, e) == Flag(e < n) {
      assert Occurs(a, e) + Occurs(b, e) + Occurs(c, e) == Flag(e < n);
      OccursHead(a, e);
      OccursAppend(b, a[0], e);
    }
  }

  /** The lists may change roles. */
  lemma PartitionRotate(a: seq<Entry>, b: seq<Entry>, c: seq<Entry>, n: nat)
    requires Partition(a, b, c, n)
    ensures Partition(b, c, a, n) && Partition(b, a, c, n) && Partition(c, a, b, n)
  {
    forall e: Entry ensures Occurs(b, e) + Occurs(c, e) + Occurs(a, e) == Flag(e < n) {
      assert Occurs(a, e) + Occurs(b, e) + Occurs(c, e) == Flag(e < n);
    }
  }

  /** The head of the second list is taken in hand. */
  lemma PartitionTake(a: seq<Entry>, b: seq<Entry>, n: nat)
    requires b != [] && Partition(a, b, [], n)
    ensures Partition(a, b[1..], [b[0]], n)
  {
    PartitionRotate(a, b, [], n);
    PartitionHeadToTail(b, [], a, n);
    PartitionRotate(b[1..], [] + [b[0]], a, n);
    assert [] + [b[0]] == [b[0]];
  }

  /** The entry in hand is put at the end of the first list. */
  lemma PartitionReturn(a: seq<Entry>, b: seq<Entry>, e: Entry, n: nat)
    requires Partition(a, b, [e], n)
    ensures Partition(a + [e], b, [], n)
  {
    PartitionRotate(a, b, [e], n);
    PartitionHeadToTail([e], a, b, n);
    PartitionRotate([e][1..], a + [e], b, n);
    assert [e][1..] == [];
  }

  // ---------------------------------------------------------------------------------------------
  // Taking an entry out of the middle of a list

  function Without(q: seq<Entry>, i: nat): seq<Entry>
    requires i < |q|
  {
    q[..i] + q[i + 1..]
  }

  lemma OccursWithout(q: seq<Entry>, i: nat, e: Entry)
    requires i < |q|
    ensures Occurs(q, e) == Occurs(Without(q, i), e) + Flag(q[i] == e)
  {
    assert q == q[..i] + [q[i]] + q[i + 1..];
  }

  lemma PartitionPick(a: seq<Entry>, b: seq<Entry>, i: nat, n: nat)
    requires i < |b| && Partition(a, b, [], n)
    ensures Partition(a + [b[i]], Without(b, i), [], n)
  {
    forall e: Entry ensures Occurs(a + [b[i]], e) + Occurs(Without(b, i), e) + Occurs([], e) == Flag(e < n) {
      assert Occurs(a, e) + Occurs(b, e) + Occurs([], e) == Flag(e < n);
      OccursAppend(a, b[i], e);
      OccursWithout(b, i, e);
    }
  }

  lemma PartitionPush(a: seq<Entry>, b: seq<Entry>, n: nat)
    requires Partition(a, b, [], n)
    ensures Partition(a, b + [n], [], n + 1)
  {
    forall e: Entry ensures Occurs(a, e) + Occurs(b + [n], e) + Occurs([], e) == Flag(e < n + 1) {
      assert Occurs(a, e) + Occurs(b, e) + Occurs([], e) == Flag(e < n);
      OccursAppend(b, n, e);
    }
  }

  lemma PartitionDistinct(a: seq<Entry>, b: seq<Entry>, n: nat, i: nat, j: nat)
    requires Partition(a, b, [], n) && i < j < |b|
    ensures b[i] != b[j]
  {
    var e := b[i];
    OccursSplit(b, i + 1, e);
    OccursMember(b[..i + 1], i);
    assert Occurs(a, e) + Occurs(b, e) + Occurs([], e) == Flag(e < n);
    assert b[i + 1..][j - i - 1] == b[j];
    OccursMember(b[i + 1..], j - i - 1);
  }
}
