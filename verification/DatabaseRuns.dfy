/**
 Runs of the code from the empty page to the states in which it falls short: a write
 after a wait that races, the reads it changes, an abort that leaves an insert, and a
 statement that reads its own insert.
 */
module DatabaseRuns {
  import opened Wrappers
  import opened Registry
  import opened Snapshots
  import opened Waiting
  import Transactions
  import opened HeapVersions
  import opened Database
  import opened DatabaseInvariant
  import opened DatabaseSteps
  import opened DatabaseTheorems
  import opened DatabaseRaces
  import opened CodeRuns

  // ---- Building runs -----------------------------------------------------------------

  /** One more step of a worker that is not about to write after a wait. */
  lemma {:induction false} Goes(c: Code, w: nat, s: Step) returns (c': Code)
    requires Reached(c) && w !in c.woken && CanStep(c.db, w, s) && !s.WaitMove?
    ensures Reached(c') && c' == Code(Take(c.db, w, s), c.woken)
  {
    hide Reached;
    Reaches(c, w, s);
    c' := CodeTake(c, w, s);
  }

  lemma {:induction false} InitialIsReached(workers: nat)
    ensures Reached(Code(InitialDb(workers), {}))
  {
    var none: seq<Turn> := [];
    var c := Code(InitialDb(workers), {});
    assert CodeCanPlay(c, none) && RaceFree(c, none) && CodePlay(c, none) == c;
  }

  /** The worker has nothing in hand and may begin a transaction. */
  predicate IsIdle(db: Db, w: nat) {
    w < |db.work| == |db.reg.phases| == |db.reg.transactions| && db.reg.phases[w] == Idle
  }

  /** A begin and its first statement, with nobody in between. */
  lemma {:induction false} Begins(c: Code, w: nat) returns (c': Code)
    requires Reached(c) && IsIdle(c.db, w) && w !in c.woken
    ensures Reached(c') && c'.woken == c.woken && c'.db.heap == c.db.heap
    ensures c'.db.reg == Transactions.Begun(c.db.reg, w)
    ensures c'.db.work == c.db.work[w := FRESH.(snapshot := Some(Snapshot(c.db.reg.csn, 0)))]
  {
    hide Reached;
    Transactions.BeginSteps(c.db.reg, w);
    var c1 := Goes(c, w, Life(TakeXid));
    var c2 := Goes(c1, w, Life(Install));
    var c3 := Goes(c2, w, Life(Register));
    assert c3.db.work == c.db.work[w := FRESH] && c3.db.reg == Transactions.Begun(c.db.reg, w);
    c' := Goes(c3, w, BeginStatement);
    assert c'.db.work == c.db.work[w := FRESH.(snapshot := Some(Snapshot(c.db.reg.csn, 0)))];
  }

  /** A commit up to the moment its CSN is published. */
  lemma {:induction false} Publishes(c: Code, w: nat, x: nat) returns (c': Code)
    requires Reached(c) && w < |c.db.work| == |c.db.reg.phases| == |c.db.reg.transactions| && w !in c.woken
    requires c.db.reg.phases[w] == Running(x) && c.db.work[w].act.Quiet?
    ensures Reached(c') && c'.woken == c.woken && c'.db.heap == c.db.heap && c'.db.work == c.db.work
    ensures c'.db.reg.csn == c.db.reg.csn + 1 && c'.db.reg.xid == c.db.reg.xid
    ensures c'.db.reg.transactions == c.db.reg.transactions && c'.db.reg.objects == c.db.reg.objects
    ensures c'.db.reg.history == c.db.reg.history[x := c.db.reg.csn]
    ensures c'.db.reg.phases == c.db.reg.phases[w := Published(x, c.db.reg.csn)]
  {
    hide Reached;
    var c1 := Goes(c, w, Life(MarkCommitting));
    assert c1.db.work == c.db.work;
    var c2 := Goes(c1, w, Life(TakeCsn));
    c' := Goes(c2, w, Life(Publish));
    assert c'.db.reg.history == c.db.reg.history[x := c.db.reg.csn];
  }

  /** A scan of one slot whose page tuple is visible. */
  lemma {:induction false} Scans(c: Code, w: nat, t: nat) returns (c': Code)
    requires Reached(c) && w !in c.woken
    requires IsRunning(c.db, w) && c.db.work[w].act.Quiet? && c.db.work[w].snapshot.Some?
    requires c.db.work[w].cursor <= t < |c.db.heap.slots| && c.db.heap.slots[t].state == Normal
    requires var v := c.db.heap.slots[t].tuple;
      && v.xid in c.db.reg.history && (v.undo == 0 || v.undo in c.db.heap.log)
      && IsVisible(c.db.reg.history, c.db.reg.phases[w].xid, c.db.work[w].snapshot.value, v) == Yes
    ensures var v := c.db.heap.slots[t].tuple; var found := if v.deleted then Missed(t) else Got(t, v);
      Reached(c') && c' == c.(db := c.db.(work := c.db.work[w := c.db.work[w].(cursor := t + 1, act := found)]))
  {
    hide Reached;
    var v := c.db.heap.slots[t].tuple;
    var found := if v.deleted then Missed(t) else Got(t, v);
    var c1 := Goes(c, w, ReadItem(t));
    c' := Goes(c1, w, Test);
    assert c'.db.work == c.db.work[w := c.db.work[w].(cursor := t + 1, act := found)];
  }

  // ---- A run to the untested write -----------------------------------------------------

  const SCANNED: Version := Version(1, 0, false, [])

  /** Four workers; the first has inserted one empty tuple and committed. */
  lemma {:induction false} OneTupleCommitted() returns (c: Code)
    ensures Reached(c) && c.woken == {}
    ensures |c.db.work| == |c.db.reg.phases| == |c.db.reg.transactions| == 4
    ensures c.db.heap.slots == [Slot(Normal, 0, SCANNED)] && c.db.heap.size == 1 && c.db.heap.log.Keys == {1}
    ensures forall w :: 0 <= w < 4 ==> c.db.reg.phases[w] == Idle
    ensures c.db.reg.xid == 2 && c.db.reg.csn == 6 && 1 in c.db.reg.history && c.db.reg.history[1] == 5
  {
    hide Reached;
    InitialIsReached(4);
    var c1 := Begins(Code(InitialDb(4), {}), 0);
    var c2 := Goes(c1, 0, Insert([], 1));
    var c3 := Publishes(c2, 0, 1);
    var c4 := Goes(c3, 0, Life(ReleaseLatch));
    c := Goes(c4, 0, Life(Forget));
  }

  /** The state of a worker that has scanned the tuple and done nothing else. */
  predicate HasScanned(db: Db, w: nat) {
    w < |db.work| == |db.reg.phases| == |db.reg.transactions| && db.reg.phases[w] == Running(w + 1)
    && db.work[w] == FRESH.(snapshot := Some(Snapshot(6, 0)), cursor := 1, act := Got(0, SCANNED))
    && w + 1 in db.reg.history && db.reg.history[w + 1] == IN_PROGRESS
  }

  /** The tuple inserted first, committed with CSN 5. */
  predicate FirstCommitted(db: Db) {
    1 in db.reg.history && db.reg.history[1] == 5 && IsIdle(db, 0)
  }

  /** A further worker begins and scans. */
  lemma {:induction false} OneMoreScans(c: Code, w: nat) returns (c': Code)
    requires Reached(c) && c.woken == {} && w > 0 && IsIdle(c.db, w) && c.db.reg.xid == w + 1 && c.db.reg.csn == 6
    requires c.db.heap.slots == [Slot(Normal, 0, SCANNED)] && FirstCommitted(c.db)
    ensures Reached(c') && c'.woken == {} && c'.db.heap == c.db.heap && HasScanned(c'.db, w)
    ensures |c'.db.work| == |c.db.work| && |c'.db.reg.phases| == |c.db.reg.phases|
    ensures |c'.db.reg.transactions| == |c.db.reg.transactions|
    ensures c'.db.reg.xid == w + 2 && c'.db.reg.csn == 6 && FirstCommitted(c'.db)
    ensures forall v :: 0 <= v < |c.db.work| && v != w ==>
      c'.db.work[v] == c.db.work[v] && c'.db.reg.phases[v] == c.db.reg.phases[v]
    ensures forall x :: x in c.db.reg.history && x != w + 1 ==>
      x in c'.db.reg.history && c'.db.reg.history[x] == c.db.reg.history[x]
  {
    hide Reached;
    var c1 := Begins(c, w);
    c' := Scans(c1, w, 0);
  }

  lemma {:induction false} ThreeScan() returns (c: Code)
    ensures Reached(c) && c.woken == {} && |c.db.work| == 4 && FirstCommitted(c.db) && c.db.reg.xid == 5 &&
      c.db.reg.csn == 6
    ensures HasScanned(c.db, 1) && HasScanned(c.db, 2) && HasScanned(c.db, 3)
    ensures c.db.heap.slots == [Slot(Normal, 0, SCANNED)] && c.db.heap.size == 1 && c.db.heap.log.Keys == {1}
  {
    hide Reached;
    var c0 := OneTupleCommitted();
    var c1 := OneMoreScans(c0, 1);
    var c2 := OneMoreScans(c1, 2);
    c := OneMoreScans(c2, 3);
  }

  /** Worker 1 updates; worker 2 finds its XID on the page and goes to wait for it. */
  lemma {:induction false} OneUpdatesOneWaits() returns (c: Code)
    ensures Reached(c) && c.woken == {} && |c.db.work| == 4 && FirstCommitted(c.db) && HasScanned(c.db, 3)
    ensures c.db.reg.xid == 5 && c.db.reg.csn == 6 && c.db.reg.phases[1] == Running(2) &&
      c.db.reg.phases[2] == Running(3)
    ensures c.db.heap.slots == [Slot(Normal, 0, Version(2, 2, false, []))] && c.db.heap.size == 2
    ensures c.db.heap.log.Keys == {1, 2} && c.db.heap.log[2] == UndoRecord.UpdateRecord(0, SCANNED)
    ensures c.db.work[1].undo == [2] && c.db.work[1].act.Quiet?
    ensures 2 in c.db.reg.history && c.db.reg.history[2] == IN_PROGRESS
    ensures 3 in c.db.reg.history && c.db.reg.history[3] == IN_PROGRESS
    ensures c.db.work[2].act == Awaiting(0, SCANNED, 2, Ask)
  {
    hide Reached;
    var c0 := ThreeScan();
    var c1 := Goes(c0, 1, Update([], 1));
    var c2 := Goes(c1, 2, Refuse);
    c := Goes(c2, 2, ReadTarget);
  }

  /** Worker 1 rolls back and marks its transaction aborted; worker 2 still waits. */
  lemma {:induction false} TheFirstAborts() returns (c: Code)
    ensures Reached(c) && c.woken == {} && |c.db.work| == 4 && FirstCommitted(c.db) && HasScanned(c.db, 3)
    ensures c.db.reg.xid == 5 && c.db.reg.csn == 6 && c.db.reg.phases[2] == Running(3)
    ensures c.db.heap.slots == [Slot(Normal, 0, SCANNED)] && c.db.heap.size == 2 && c.db.heap.log.Keys == {1, 2}
    ensures 2 in c.db.reg.history && c.db.reg.history[2] == ABORTED && c.db.work[2].act == Awaiting(0, SCANNED, 2, Ask)
    ensures 3 in c.db.reg.history && c.db.reg.history[3] == IN_PROGRESS
  {
    hide Reached;
    var c0 := OneUpdatesOneWaits();
    var c1 := Goes(c0, 1, Life(StartRollback));
    assert ApplyUndo(c1.db.heap, 2).Ok?;
    var c2 := Goes(c1, 1, UndoLast);
    c := Goes(c2, 1, Life(MarkAborted));
  }

  /**
   The race.  Worker 2 comes back from its wait with no error, and before it has the page
   lock again worker 3 updates or deletes the tuple.  Worker 2 now writes without testing.
   */
  lemma {:induction false} WorkerTwoRaces(first: Step) returns (waiting: Code, c: Code)
    requires first in {Update([], 1), Remove(1)}
    ensures Reached(waiting) && waiting.woken == {} && CodeCanStep(waiting, 2, WaitMove)
    ensures var woken := CodeTake(waiting, 2, WaitMove); CodeCanStep(woken, 3, first) && c == CodeTake(woken, 3, first)
    ensures Reached(c) && c.woken == {2} && |c.db.work| == 4 && FirstCommitted(c.db)
    ensures c.db.reg.xid == 5 && c.db.reg.csn == 6
    ensures IsRunning(c.db, 2) && c.db.reg.phases[2].xid == 3 && c.db.work[2].act == Got(0, SCANNED) && Races(c, 2)
    ensures IsRunning(c.db, 3) && c.db.reg.phases[3].xid == 4 && c.db.work[3].act.Quiet? && c.db.work[3].undo == [3]
    ensures |c.db.reg.transactions| == 4
    ensures c.db.heap.slots == [Slot(Normal, 0, Version(4, 3, first.Remove?, []))] && c.db.heap.size == 3
    ensures c.db.heap.log.Keys == {1, 2, 3}
    ensures c.db.heap.log[3] == if first.Update? then UpdateRecord(0, SCANNED) else InsertRecord(0, SCANNED)
    ensures 3 in c.db.reg.history && c.db.reg.history[3] == IN_PROGRESS
    ensures 4 in c.db.reg.history && c.db.reg.history[4] == IN_PROGRESS
  {
    hide Reached;
    waiting := TheFirstAborts();
    Reaches(waiting, 2, WaitMove);
    var woken := CodeTake(waiting, 2, WaitMove);
    assert woken.db.work[2].act == Got(0, SCANNED) && woken.woken == {2};
    c := Goes(woken, 3, first);
  }

  /** Worker 3's update is gone from the page, and its abort throws. */
  lemma {:induction false} WriteAfterWaitRace() returns (c: Code)
    ensures Reached(c) && Reachable(c.db) && Races(c, 2) && CodeCanStep(c, 2, Update([], 1))
    ensures InTransaction(c.db, 3) && |c.db.heap.slots| == 1 && c.db.heap.slots[0].tuple.xid == c.db.reg.phases[3].xid
    ensures c.db.work[3].undo == [3]
    ensures var h' := CodeTake(c, 2, Update([], 1)).db.heap;
      3 in h'.log && h'.log[3].at < |h'.slots| && ApplyUndo(h', 3).Err?
  {
    hide Reached;
    var _, raced := WorkerTwoRaces(Update([], 1));
    c := raced;
    ReachedIsReachable(c);
  }

  /** Worker 3 commits its write, and worker 0 begins and scans the slot. */
  lemma {:induction false} AReaderBegins(first: Step) returns (c: Code)
    requires first in {Update([], 1), Remove(1)}
    ensures Reached(c) && c.woken == {2} && IsRunning(c.db, 2) && c.db.work[2].act == Got(0, SCANNED) && Races(c, 2)
    ensures c.db.reg.phases[2].xid == 3
    ensures IsRunning(c.db, 0) && c.db.work[0].snapshot == Some(Snapshot(7, 0)) && c.db.reg.phases[0].xid == 5
    ensures var page := Version(4, 3, first.Remove?, []);
      && c.db.work[0].act == (if first.Remove? then Missed(0) else Got(0, page))
      && c.db.heap.slots == [Slot(Normal, 0, page)] && c.db.heap.size == 3 && c.db.heap.log.Keys == {1, 2, 3}
    ensures c.db.heap.log[3] == if first.Update? then UpdateRecord(0, SCANNED) else InsertRecord(0, SCANNED)
    ensures {1, 3, 4} <= c.db.reg.history.Keys
    ensures c.db.reg.history[1] == 5 && c.db.reg.history[3] == IN_PROGRESS && c.db.reg.history[4] == 6
  {
    hide Reached;
    var _, c0 := WorkerTwoRaces(first);
    var c1 := Publishes(c0, 3, 4);
    var c2 := Begins(c1, 0);
    c := Scans(c2, 0, 0);
  }

  /**
   Repeatable read fails: worker 0 has read the committed update, and reads the version before
   it once worker 2 has updated.
   */
  lemma {:induction false} ReadIsNotRepeated() returns (c: Code)
    ensures Reached(c) && DbInv(c.db) && Races(c, 2) && CodeCanStep(c, 2, Update([], 1))
    ensures IsRunning(c.db, 0) && c.db.work[0].act == Got(0, Version(4, 3, false, [])) && c.db.work[0].snapshot.Some?
    ensures var h' := CodeTake(c, 2, Update([], 1)).db.heap;
      var me := c.db.reg.phases[0].xid; var snap := c.db.work[0].snapshot.value;
      && LogOk(h'.log) && XidsKnown(h'.log, c.db.reg.history) && |h'.slots| == 1
      && h'.slots[0].tuple.xid in c.db.reg.history && h'.slots[0].tuple.undo in h'.log
      && ReadNow(c.db, me, snap, 0) == Found(Version(4, 3, false, []))
      && ChooseNow(h', c.db.reg.history, me, snap, 0) == Found(SCANNED)
  {
    hide Reached;
    c := AReaderBegins(Update([], 1));
    ReachedIsReachable(c);
    ReachableInv(c.db);
    UntestedLog(c.db, 2, Update([], 1));
    hide DbInv, Reachable, HeapOk;
    var h' := CodeTake(c, 2, Update([], 1)).db.heap;
    assert h'.log[4] == UpdateRecord(0, SCANNED);
    assert LinkOk(h'.log, 4, SCANNED);
  }

  /**
   A deleted tuple comes back: worker 0 has found the slot deleted, and reads the deleted tuple
   once worker 2 has deleted it again.
   */
  lemma {:induction false} DeletedTupleReturns() returns (c: Code)
    ensures Reached(c) && DbInv(c.db) && Races(c, 2) && CodeCanStep(c, 2, Remove(1))
    ensures IsRunning(c.db, 0) && c.db.work[0].act == Missed(0) && c.db.work[0].snapshot.Some?
    ensures var h' := CodeTake(c, 2, Remove(1)).db.heap;
      var me := c.db.reg.phases[0].xid; var snap := c.db.work[0].snapshot.value;
      && LogOk(h'.log) && XidsKnown(h'.log, c.db.reg.history) && |h'.slots| == 1
      && h'.slots[0].tuple.xid in c.db.reg.history && h'.slots[0].tuple.undo in h'.log
      && ReadNow(c.db, me, snap, 0) == Nothing
      && ChooseNow(h', c.db.reg.history, me, snap, 0) == Found(Version(4, 3, true, []))
  {
    hide Reached;
    c := AReaderBegins(Remove(1));
    ReachedIsReachable(c);
    ReachableInv(c.db);
    UntestedLog(c.db, 2, Remove(1));
    hide DbInv, Reachable, HeapOk;
    var h' := CodeTake(c, 2, Remove(1)).db.heap;
    assert h'.log[4] == InsertRecord(0, Version(4, 3, true, []));
    assert LinkOk(h'.log, 4, Version(4, 3, true, []));
  }

  // ---- Inserts ---------------------------------------------------------------------------

  /** An abort that does not restore the page: everything is undone, and the inserted slot is still there. */
  lemma {:induction false} AbortLeavesInsert() returns (before: Code, c: Code)
    ensures Reached(before) && IsRunning(before.db, 0) && before.db.work[0].undo == [] && before.db.heap.slots == []
    ensures Reached(c) && |c.db.work| == |c.db.reg.phases| == 1
    ensures c.db.reg.phases[0] == RollingBack(before.db.reg.phases[0].xid) && c.db.work[0].undo == []
    ensures |c.db.heap.slots| == 1 && c.db.heap.slots[0].state == Normal
    ensures c.db.heap.slots[0].tuple.xid == before.db.reg.phases[0].xid
  {
    hide Reached;
    InitialIsReached(1);
    before := Begins(Code(InitialDb(1), {}), 0);
    var c1 := Goes(before, 0, Insert([], 1));
    var c2 := Goes(c1, 0, Life(StartRollback));
    assert ApplyUndo(c2.db.heap, 1) == Ok(c2.db.heap);
    c := Goes(c2, 0, UndoLast);
  }

  /**
   The failing case of insert isolation: with a write of an earlier statement behind it, a
   statement inserts a tuple and its scan returns that very tuple.
   */
  lemma {:induction false} OwnInsertIsRead() returns (before: Code, c: Code)
    ensures Reached(before) && IsRunning(before.db, 0) && before.db.work[0].base == 1 == |before.db.work[0].undo|
    ensures CanStep(before.db, 0, Insert([], 1))
    ensures Reached(c) && IsRunning(c.db, 0) && c.db.heap == Take(before.db, 0, Insert([], 1)).heap
    ensures c.db.work[0].snapshot == before.db.work[0].snapshot && c.db.work[0].base == 1 && |c.db.work[0].undo| == 2
    ensures |before.db.heap.slots| == 1 && |c.db.heap.slots| == 2 &&
      c.db.work[0].act == Got(1, c.db.heap.slots[1].tuple)
  {
    hide Reached;
    InitialIsReached(1);
    var c1 := Begins(Code(InitialDb(1), {}), 0);
    var c2 := Goes(c1, 0, Insert([], 1));
    before := Goes(c2, 0, BeginStatement);
    var c3 := Goes(before, 0, Insert([], 1));
    c := Scans(c3, 0, 1);
  }
}
