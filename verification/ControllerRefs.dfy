/**
 The table of shared controller handles: a handle is looked up by device URI, counted while it is in use
 and destroyed when its last user lets go.
 */
module ControllerRefs {
  import opened Common
  import opened Lists

  const MAX_ENTRIES := 100
  const URI_LEN := 384

  /** Handles and destructors are addresses; zero is null. */
  datatype Slot = Slot(ctrlr: nat, destructor: nat, refcount: int, uri: string)

  const EMPTY := Slot(0, 0, 0, "")

  /** The part of a URI that is stored and compared. */
  function Key(uri: string): string {
    if |uri| <= URI_LEN then uri else uri[..URI_LEN]
  }

  /** URIs are told apart by their first 384 characters, and so entirely when they are no longer than that. */
  lemma KeysApart(a: string, b: string)
    ensures Key(a) == Key(b) <==> a == b || (|a| >= 384 && |b| >= 384 && a[..384] == b[..384])
  {
  }

  /** A slot is free exactly when its handle is null. */
  predicate SlotOk(s: Slot) {
    s.refcount >= 0 && (s.ctrlr == 0 <==> s.refcount == 0) && (s.ctrlr != 0 ==> s.uri == Key(s.uri))
  }

  predicate Apart(a: Slot, b: Slot) {
    a.ctrlr != 0 && b.ctrlr != 0 ==> a.uri != b.uri && a.ctrlr != b.ctrlr
  }

  /** At most one live entry per URI and per handle. */
  predicate TableOk(ts: seq<Slot>) {
    && |ts| == MAX_ENTRIES
    && (forall i | 0 <= i < |ts| :: SlotOk(ts[i]))
    && (forall i, j | 0 <= i < j < |ts| :: Apart(ts[i], ts[j]))
  }

  predicate NotHeld(ts: seq<Slot>, h: nat) {
    forall i | 0 <= i < |ts| :: ts[i].ctrlr != h
  }

  predicate NotNamed(ts: seq<Slot>, uri: string) {
    forall i | 0 <= i < |ts| :: ts[i].ctrlr != 0 ==> ts[i].uri != Key(uri)
  }

  /** The count of handle `h` is `n`, and `a` armed insertions of it have led to `c` destructor calls. */
  predicate Agrees(ts: seq<Slot>, h: nat, n: int, a: nat, c: nat) {
    && (forall i | 0 <= i < |ts| :: ts[i].ctrlr == h ==> ts[i].refcount == n && a == c + Flag(ts[i].destructor != 0))
    && (NotHeld(ts, h) ==> n == 0 && a == c)
  }

  /** What happened so far: handles inserted, those among them with a destructor, hits, puts, and the
      destructor calls made. */
  datatype History = History(born: seq<nat>, armed: seq<nat>, hits: seq<nat>, drops: seq<nat>, calls: seq<nat>)

  function Balance(y: History, h: nat): int {
    Occurs(y.born, h) + Occurs(y.hits, h) - Occurs(y.drops, h)
  }

  /** For every handle the count is what was inserted and found, less what was put back; its destructor ran
      once for every time it went away. */
  ghost predicate Accounts(ts: seq<Slot>, y: History) {
    forall h: nat | h != 0 :: AgreesOn(ts, y, h)
  }

  predicate AgreesOn(ts: seq<Slot>, y: History, h: nat) {
    Agrees(ts, h, Balance(y, h), Occurs(y.armed, h), Occurs(y.calls, h))
  }

  // ---------------------------------------------------------------------------------------------
  // The operations on values

  lemma Counted(ts: seq<Slot>, y: History, i: nat)
    requires TableOk(ts) && Accounts(ts, y) && i < |ts| && ts[i].ctrlr != 0
    ensures var ts' := ts[i := ts[i].(refcount := ts[i].refcount + 1)];
            TableOk(ts') && Accounts(ts', y.(hits := y.hits + [ts[i].ctrlr]))
  {
    var ts', y' := ts[i := ts[i].(refcount := ts[i].refcount + 1)], y.(hits := y.hits + [ts[i].ctrlr]);
    forall h: nat | h != 0 ensures AgreesOn(ts', y', h) {
      OccursAppend(y.hits, ts[i].ctrlr, h);
      assert AgreesOn(ts, y, h);
      SameHandles(ts, ts', i, h);
    }
    StillApart(ts, ts', i);
  }

  lemma SameHandles(ts: seq<Slot>, ts': seq<Slot>, i: nat, h: nat)
    requires i < |ts| && |ts'| == |ts| && ts' == ts[i := ts'[i]] && ts'[i].ctrlr == ts[i].ctrlr
    ensures NotHeld(ts', h) == NotHeld(ts, h)
  {
    if !NotHeld(ts, h) {
      var k :| 0 <= k < |ts| && ts[k].ctrlr == h;
      assert ts'[k].ctrlr == h;
    }
  }

  lemma StillApart(ts: seq<Slot>, ts': seq<Slot>, i: nat)
    requires TableOk(ts) && i < |ts| && |ts'| == |ts| && ts' == ts[i := ts'[i]] && SlotOk(ts'[i])
    requires ts'[i].ctrlr != 0 ==> ts'[i].ctrlr == ts[i].ctrlr && ts'[i].uri == ts[i].uri
    ensures TableOk(ts')
  {
    forall j, k | 0 <= j < k < |ts'| ensures Apart(ts'[j], ts'[k]) {
      assert Apart(ts[j], ts[k]);
    }
  }

  lemma Dropped(ts: seq<Slot>, y: History, i: nat)
    requires TableOk(ts) && Accounts(ts, y) && i < |ts| && ts[i].refcount > 1
    ensures var ts' := ts[i := ts[i].(refcount := ts[i].refcount - 1)];
            TableOk(ts') && Accounts(ts', y.(drops := y.drops + [ts[i].ctrlr]))
  {
    var ts', y' := ts[i := ts[i].(refcount := ts[i].refcount - 1)], y.(drops := y.drops + [ts[i].ctrlr]);
    forall h: nat | h != 0 ensures AgreesOn(ts', y', h) {
      OccursAppend(y.drops, ts[i].ctrlr, h);
      assert AgreesOn(ts, y, h);
      SameHandles(ts, ts', i, h);
    }
    StillApart(ts, ts', i);
  }

  /** The last user puts a handle back: its slot is cleared and its destructor, if any, called. */
  lemma Destroyed(ts: seq<Slot>, y: History, i: nat)
    requires TableOk(ts) && Accounts(ts, y) && i < |ts| && ts[i].refcount == 1
    ensures var c := ts[i].ctrlr;
            var y' := y.(drops := y.drops + [c], calls := if ts[i].destructor != 0 then y.calls + [c] else y.calls);
            TableOk(ts[i := EMPTY]) && Accounts(ts[i := EMPTY], y')
  {
    var c, ts' := ts[i].ctrlr, ts[i := EMPTY];
    var y' := y.(drops := y.drops + [c], calls := if ts[i].destructor != 0 then y.calls + [c] else y.calls);
    forall h: nat | h != 0 ensures AgreesOn(ts', y', h) {
      OccursAppend(y.drops, c, h);
      OccursAppend(y.calls, c, h);
      assert AgreesOn(ts, y, h);
      if h == c {
        OnlyHolder(ts, i);
      } else {
        OthersHeld(ts, ts', i, h);
      }
    }
    StillApart(ts, ts', i);
  }

  lemma OnlyHolder(ts: seq<Slot>, i: nat)
    requires TableOk(ts) && i < |ts| && ts[i].ctrlr != 0
    ensures forall j | 0 <= j < |ts| && j != i :: ts[j].ctrlr != ts[i].ctrlr
  {
    forall j | 0 <= j < |ts| && j != i ensures ts[j].ctrlr != ts[i].ctrlr {
      assert if i < j then Apart(ts[i], ts[j]) else Apart(ts[j], ts[i]);
    }
  }

  lemma OthersHeld(ts: seq<Slot>, ts': seq<Slot>, i: nat, h: nat)
    requires i < |ts| && |ts'| == |ts| && ts' == ts[i := ts'[i]] && ts[i].ctrlr != h && ts'[i].ctrlr != h
    ensures NotHeld(ts', h) == NotHeld(ts, h)
  {
    if !NotHeld(ts, h) {
      var k :| 0 <= k < |ts| && ts[k].ctrlr == h;
      assert ts'[k].ctrlr == h;
    }
  }

  /** A new handle under a new name. */
  lemma Inserted(ts: seq<Slot>, y: History, i: nat, s: Slot)
    requires TableOk(ts) && Accounts(ts, y) && i < |ts| && ts[i].refcount == 0
    requires SlotOk(s) && s.refcount == 1 && NotHeld(ts, s.ctrlr) && NotNamed(ts, s.uri)
    ensures var y' := y.(born := y.born + [s.ctrlr],
                         armed := if s.destructor != 0 then y.armed + [s.ctrlr] else y.armed);
            TableOk(ts[i := s]) && Accounts(ts[i := s], y')
  {
    var ts' := ts[i := s];
    var y' := y.(born := y.born + [s.ctrlr], armed := if s.destructor != 0 then y.armed + [s.ctrlr] else y.armed);
    forall h: nat | h != 0 ensures AgreesOn(ts', y', h) {
      OccursAppend(y.born, s.ctrlr, h);
      OccursAppend(y.armed, s.ctrlr, h);
      assert AgreesOn(ts, y, h);
      if h != s.ctrlr {
        OthersHeld(ts, ts', i, h);
      } else {
        assert ts'[i].ctrlr == h;
      }
    }
    forall j, k | 0 <= j < k < |ts'| ensures Apart(ts'[j], ts'[k]) {
      assert Apart(ts[j], ts[k]);
    }
  }

  // ---------------------------------------------------------------------------------------------
  // Histories

  /** The first slot from `i` on with a property, or the end of the table. */
  function First(ts: seq<Slot>, p: Slot -> bool, i: nat): (k: nat)
    requires i <= |ts|
    ensures i <= k <= |ts| && (k < |ts| ==> p(ts[k])) && forall j | i <= j < k :: !p(ts[j])
    decreases |ts| - i
  {
    if i == |ts| || p(ts[i]) then i else First(ts, p, i + 1)
  }

  function Named(uri: string): Slot -> bool {
    (s: Slot) => s.ctrlr != 0 && s.uri == Key(uri)
  }

  function Holding(ctrlr: nat): Slot -> bool {
    (s: Slot) => s.ctrlr == ctrlr
  }

  function Free(): Slot -> bool {
    (s: Slot) => s.refcount == 0
  }

  function FirstNamed(ts: seq<Slot>, uri: string): nat {
    First(ts, Named(uri), 0)
  }

  function FirstHolding(ts: seq<Slot>, ctrlr: nat): nat {
    First(ts, Holding(ctrlr), 0)
  }

  function FirstFree(ts: seq<Slot>): nat {
    First(ts, Free(), 0)
  }

  /** A user opens a device, with the handle to insert should the URI be unknown, or closes one. */
  datatype Op = Open(uri: string, ctrlr: nat, destructor: nat) | Close(ctrlr: nat, result: int)

  /** The table after an operation. */
  function After(ts: seq<Slot>, op: Op): seq<Slot> {
    match op
    case Open(uri, ctrlr, destructor) =>
      var i, j := FirstNamed(ts, uri), FirstFree(ts);
      if i < |ts| then ts[i := ts[i].(refcount := ts[i].refcount + 1)]
      else if ctrlr != 0 && j < |ts| then ts[j := Slot(ctrlr, destructor, 1, Key(uri))]
      else ts
    case Close(ctrlr, _) =>
      var i := FirstHolding(ts, ctrlr);
      if ctrlr == 0 || i == |ts| then ts
      else ts[i := if ts[i].refcount == 1 then EMPTY else ts[i].(refcount := ts[i].refcount - 1)]
  }

  function Inserting(y: History, ctrlr: nat, destructor: nat): History {
    y.(born := y.born + [ctrlr], armed := if destructor != 0 then y.armed + [ctrlr] else y.armed)
  }

  function Dropping(y: History, s: Slot): History {
    y.(drops := y.drops + [s.ctrlr], calls := if LastArmed(s) then y.calls + [s.ctrlr] else y.calls)
  }

  /** What an operation adds to the history. */
  function Recorded(ts: seq<Slot>, y: History, op: Op): History {
    match op
    case Open(uri, ctrlr, destructor) =>
      var i := FirstNamed(ts, uri);
      if i < |ts| then y.(hits := y.hits + [ts[i].ctrlr])
      else if ctrlr != 0 && FirstFree(ts) < |ts| then Inserting(y, ctrlr, destructor)
      else y
    case Close(ctrlr, _) =>
      var i := FirstHolding(ts, ctrlr);
      if ctrlr == 0 || i == |ts| then y else Dropping(y, ts[i])
  }

  /** Table and history after a sequence of operations. */
  function AfterAll(ts: seq<Slot>, y: History, ops: seq<Op>): (seq<Slot>, History)
    decreases |ops|
  {
    if ops == [] then (ts, y) else AfterAll(After(ts, ops[0]), Recorded(ts, y, ops[0]), ops[1..])
  }

  /** A table without room holds a hundred different handles. */
  lemma FullHolds(ts: seq<Slot>)
    requires TableOk(ts) && Full(ts)
    ensures |ts| == 100 && forall i, j | 0 <= i < j < |ts| :: ts[i].ctrlr != ts[j].ctrlr
  {
    forall i, j | 0 <= i < j < |ts| ensures ts[i].ctrlr != ts[j].ctrlr {
      assert SlotOk(ts[i]) && SlotOk(ts[j]) && Apart(ts[i], ts[j]);
    }
  }

  /** A handle that is inserted is not in the table at that moment. It may have been before. */
  predicate NewWhenInserted(ts: seq<Slot>, op: Op) {
    op.Open? && NotNamed(ts, op.uri) && op.ctrlr != 0 ==> NotHeld(ts, op.ctrlr)
  }

  ghost predicate Disciplined(ts: seq<Slot>, ops: seq<Op>)
    decreases |ops|
  {
    ops == [] || (NewWhenInserted(ts, ops[0]) && Disciplined(After(ts, ops[0]), ops[1..]))
  }

  // ---------------------------------------------------------------------------------------------
  // The table

  class Table {
    const slots: array<Slot>
    ghost var history: History

    ghost predicate Valid()
      reads this, slots
    {
      TableOk(slots[..]) && Accounts(slots[..], history)
    }

    constructor ()
      ensures Valid() && fresh(slots) && history == History([], [], [], [], [])
    {
      slots := new Slot[MAX_ENTRIES](_ => EMPTY);
      history := History([], [], [], [], []);
    }

    /** Look a handle up by URI and count the new user. */
    method Get(uri: string) returns (hit: bool, i: nat)
      requires Valid()
      modifies this`history, slots
      ensures Valid()
      ensures hit <==> !NotNamed(old(slots[..]), uri)
      ensures !hit ==> slots[..] == old(slots[..]) && history == old(history)
      ensures hit ==> i == FirstNamed(old(slots[..]), uri) < slots.Length
                      && slots[i].ctrlr != 0 && slots[i].uri == Key(uri)
                      && slots[..] == old(slots[..])[i := old(slots[i]).(refcount := old(slots[i]).refcount + 1)]
                      && history == old(history).(hits := old(history).hits + [slots[i].ctrlr])
    {
      i := 0;
      while i < MAX_ENTRIES
        invariant 0 <= i <= slots.Length && slots[..] == old(slots[..]) && history == old(history)
        invariant forall k | 0 <= k < i :: slots[k].ctrlr != 0 ==> slots[k].uri != Key(uri)
      {
        if slots[i].ctrlr != 0 && slots[i].uri == Key(uri) {
          assert SlotOk(slots[..][i]);
          FirstIs(slots[..], Named(uri), i);
          Counted(slots[..], history, i);
          history := history.(hits := history.hits + [slots[i].ctrlr]);
          slots[i] := slots[i].(refcount := slots[i].refcount + 1);
          assert slots[..] == old(slots[..])[i := old(slots[i]).(refcount := old(slots[i]).refcount + 1)];
          return true, i;
        }
        i := i + 1;
      }
      hit := false;
    }

    /** Enter a handle, with one user. The table stays consistent when handle and URI are new to it. */
    method Insert(uri: string, ctrlr: nat, destructor: nat) returns (err: int)
      requires Valid()
      modifies this`history, slots
      ensures err == if ctrlr == 0 then -EINVAL else if Full(old(slots[..])) then -ENOMEM else 0
      ensures err != 0 ==> Valid() && slots[..] == old(slots[..]) && history == old(history)
      ensures err == 0 ==> (TableOk(slots[..]) <==> NotHeld(old(slots[..]), ctrlr) && NotNamed(old(slots[..]), uri))
      ensures err == 0 && TableOk(slots[..]) ==> Valid()
      ensures err == 0 ==> var s := Slot(ctrlr, destructor, 1, Key(uri));
                           Entered(old(slots[..]), slots[..], FirstFree(old(slots[..])), s)
      ensures err == 0 ==> history == Inserting(old(history), ctrlr, destructor)
    {
      if ctrlr == 0 {
        return -EINVAL;
      }
      for i := 0 to MAX_ENTRIES
        invariant slots[..] == old(slots[..]) && history == old(history)
        invariant forall k | 0 <= k < i :: slots[k].refcount != 0
      {
        if slots[i].refcount == 0 {
          var s := Slot(ctrlr, destructor, 1, Key(uri));
          if NotHeld(slots[..], ctrlr) && NotNamed(slots[..], uri) {
            Inserted(slots[..], history, i, s);
          } else {
            Clashes(slots[..], i, s);
          }
          FirstIs(slots[..], Free(), i);
          slots[i] := s;
          assert Entered(old(slots[..]), slots[..], i, s);
          history := history.(born := history.born + [ctrlr],
                              armed := if destructor != 0 then history.armed + [ctrlr] else history.armed);
          return 0;
        }
      }
      err := -ENOMEM;
    }

    /** One user lets go of a handle; the last one destroys it. `result` is what its destructor returns. */
    method Put(ctrlr: nat, result: int) returns (err: int)
      requires Valid()
      modifies this`history, slots
      ensures Valid()
      ensures ctrlr == 0 || NotHeld(old(slots[..]), ctrlr) ==>
                err == -EINVAL && slots[..] == old(slots[..]) && history == old(history)
      ensures ctrlr != 0 && !NotHeld(old(slots[..]), ctrlr) ==>
                var i := FirstHolding(old(slots[..]), ctrlr);
                && PutBack(old(slots[..]), slots[..], i, ctrlr)
                && err == (if LastArmed(old(slots[..])[i]) then result else 0)
                && history == Dropping(old(history), old(slots[..])[i])
    {
      if ctrlr == 0 {
        return -EINVAL;
      }
      for i := 0 to MAX_ENTRIES
        invariant slots[..] == old(slots[..]) && history == old(history)
        invariant forall k | 0 <= k < i :: slots[k].ctrlr != ctrlr
      {
        if slots[i].ctrlr == ctrlr {
          FirstIs(slots[..], Holding(ctrlr), i);
          err := PutAt(i, ctrlr, result);
          return;
        }
      }
      err := -EINVAL;
    }

    method PutAt(i: nat, ctrlr: nat, result: int) returns (err: int)
      requires Valid() && i < slots.Length && slots[i].ctrlr == ctrlr != 0
      modifies this`history, slots
      ensures Valid() && PutBack(old(slots[..]), slots[..], i, ctrlr)
      ensures err == if LastArmed(old(slots[i])) then result else 0
      ensures history == Dropping(old(history), old(slots[i]))
    {
      assert SlotOk(slots[..][i]);
      err := 0;
      if slots[i].refcount == 1 {
        Destroyed(slots[..], history, i);
        if slots[i].destructor != 0 {
          err := result;
          history := history.(calls := history.calls + [ctrlr]);
        }
        slots[i] := EMPTY;
        assert slots[..] == old(slots[..])[i := EMPTY];
      } else {
        Dropped(slots[..], history, i);
        slots[i] := slots[i].(refcount := slots[i].refcount - 1);
        assert slots[..] == old(slots[..])[i := old(slots[i]).(refcount := old(slots[i]).refcount - 1)];
      }
      history := history.(drops := history.drops + [ctrlr]);
    }

    /** Any history of opens and closes. An open looks the URI up and, after a miss, inserts a handle that is not in
        the table; handles may come back after their destructor ran. */
    method Drive(ops: seq<Op>)
      requires Valid() && Disciplined(slots[..], ops)
      modifies this`history, slots
      ensures Valid() && (slots[..], history) == AfterAll(old(slots[..]), old(history), ops)
    {
      for n := 0 to |ops|
        invariant Valid() && Disciplined(slots[..], ops[n..])
        invariant AfterAll(slots[..], history, ops[n..]) == AfterAll(old(slots[..]), old(history), ops)
      {
        assert ops[n..][0] == ops[n] && ops[n..][1..] == ops[n + 1..];
        Act(ops[n]);
      }
    }

    method Act(op: Op)
      requires Valid() && NewWhenInserted(slots[..], op)
      modifies this`history, slots
      ensures Valid() && slots[..] == After(old(slots[..]), op)
      ensures history == Recorded(old(slots[..]), old(history), op)
    {
      match op
      case Close(ctrlr, result) =>
        var err := Put(ctrlr, result);
        NotThere(old(slots[..]), ctrlr);
      case Open(uri, ctrlr, destructor) =>
        var hit, _ := Get(uri);
        if !hit {
          var err := Insert(uri, ctrlr, destructor);
        }
    }
  }

  lemma NotThere(ts: seq<Slot>, ctrlr: nat)
    ensures NotHeld(ts, ctrlr) <==> FirstHolding(ts, ctrlr) == |ts|
  {
  }

  lemma {:induction false} FirstIsFrom(ts: seq<Slot>, p: Slot -> bool, i: nat, k: nat)
    requires i <= k < |ts| && p(ts[k]) && forall j | i <= j < k :: !p(ts[j])
    ensures First(ts, p, i) == k
    decreases k - i
  {
    if i < k {
      FirstIsFrom(ts, p, i + 1, k);
    }
  }

  lemma FirstIs(ts: seq<Slot>, p: Slot -> bool, k: nat)
    requires k < |ts| && p(ts[k]) && forall j | 0 <= j < k :: !p(ts[j])
    ensures First(ts, p, 0) == k
  {
    FirstIsFrom(ts, p, 0, k);
  }

  /** A handle is in the table exactly while its balance is positive; its destructor has then run for every
      earlier stay, and once its balance is zero for every stay. */
  lemma DestroyedAtZero(ts: seq<Slot>, y: History, h: nat)
    requires TableOk(ts) && Accounts(ts, y) && h != 0
    ensures Balance(y, h) >= 0 && (NotHeld(ts, h) <==> Balance(y, h) == 0)
    ensures Balance(y, h) == 0 ==> Occurs(y.calls, h) == Occurs(y.armed, h)
    ensures Occurs(y.calls, h) <= Occurs(y.armed, h) <= Occurs(y.calls, h) + 1
  {
    assert AgreesOn(ts, y, h);
    if !NotHeld(ts, h) {
      var i :| 0 <= i < |ts| && ts[i].ctrlr == h;
      assert SlotOk(ts[i]);
    }
  }

  predicate Full(ts: seq<Slot>) {
    forall i | 0 <= i < |ts| :: ts[i].refcount != 0
  }

  predicate Entered(ts: seq<Slot>, ts': seq<Slot>, i: nat, s: Slot) {
    i < |ts| && ts[i].refcount == 0 && ts' == ts[i := s]
  }

  predicate LastArmed(s: Slot) {
    s.refcount == 1 && s.destructor != 0
  }

  /** Slot `i` held the handle and lost one user, or all. */
  predicate PutBack(ts: seq<Slot>, ts': seq<Slot>, i: nat, ctrlr: nat) {
    && i < |ts| && ts[i].ctrlr == ctrlr
    && ts' == ts[i := if ts[i].refcount == 1 then EMPTY else ts[i].(refcount := ts[i].refcount - 1)]
  }

  lemma Clashes(ts: seq<Slot>, i: nat, s: Slot)
    requires TableOk(ts) && i < |ts| && ts[i].refcount == 0 && s.ctrlr != 0
    requires !NotHeld(ts, s.ctrlr) || !NotNamed(ts, s.uri)
    requires s.uri == Key(s.uri)
    ensures !TableOk(ts[i := s])
  {
    var ts' := ts[i := s];
    assert SlotOk(ts[i]);
    var k :| 0 <= k < |ts| && ts[k].ctrlr != 0 && (ts[k].ctrlr == s.ctrlr || ts[k].uri == s.uri);
    assert ts'[k] == ts[k] && ts'[i] == s;
    assert if i < k then !Apart(ts'[i], ts'[k]) else !Apart(ts'[k], ts'[i]);
  }
}
