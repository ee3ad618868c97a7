/**
 The snapshots of a transaction: one CSN for all its statements, taken by the first, so
 that what it reads of others never changes, whatever it or anybody else writes.
 */
module StatementSnapshots {
  import opened Wrappers
  import opened Registry
  import opened Snapshots
  import opened HeapVersions
  import opened Database
  import opened DatabaseInvariant
  import opened DatabaseSteps
  import opened DatabaseTheorems
  import opened CommitOrder
  import opened WriteConflicts

  // ---- The first statement -----------------------------------------------------------------

  /**
   A transaction's first statement sees exactly the transactions whose CSN is fixed at that
   moment, published or not, and nothing of its own transaction, which has written nothing.
   */
  lemma {:induction false} FirstSnapshotIsNow(db: Db, w: nat, x: nat)
    requires Reachable(db) && CanStep(db, w, BeginStatement) && db.work[w].snapshot.None?
    ensures db.work[w].undo == []
    ensures var k := Take(db, w, BeginStatement).work[w];
      && k.snapshot.Some? && k.snapshot.value.commandId == 0
      && (x in Seen(db.reg, k.snapshot.value.csn) <==> x in db.reg.history && AssignedCsn(db.reg, x) != 0)
  {
    ReachableInv(db);
    assert WorkOk(db, w);
    if AssignedCsn(db.reg, x) != 0 { AssignedBelowCounter(db.reg, x); }
  }

  /**
   A later statement keeps the CSN; its command id is one past the last record of the
   transaction, if there is one.
   */
  lemma {:induction false} LaterSnapshot(db: Db, w: nat)
    requires Reachable(db) && CanStep(db, w, BeginStatement) && db.work[w].snapshot.Some?
    ensures var k, k' := db.work[w], Take(db, w, BeginStatement).work[w];
      && k'.snapshot.Some? && k'.snapshot.value.csn == k.snapshot.value.csn && k'.undo == k.undo
      && (forall i :: 0 <= i < |k.undo| ==> k.undo[i] < k'.snapshot.value.commandId)
      && (k'.snapshot.value.commandId == if k.undo == [] then 0 else k.undo[|k.undo| - 1] + 1)
  {
    ReachableInv(db);
    assert WorkOk(db, w);
  }

  /** Every statement scans from the first slot on, and its scan can reach every slot. */
  lemma {:induction false} StatementCanScanAll(db: Db, w: nat, t: nat)
    requires Reachable(db) && CanStep(db, w, BeginStatement) && t < |db.heap.slots|
    ensures CanStep(Take(db, w, BeginStatement), w, ReadItem(t))
  {
    ReachableInv(db);
  }

  // ---- One CSN for the whole transaction ------------------------------------------------------

  /** w is past transaction x, or running another. */
  predicate HasLeft(db: Db, w: nat, x: nat) {
    w < |db.reg.phases| && x < db.reg.xid &&
    match db.reg.phases[w]
    case Running(y) => y != x
    case XidTaken(y) => y != x
    case Installed(y) => y != x
    case _ => true
  }

  lemma {:induction false} NeverBack(db: Db, turns: seq<Turn>, w: nat, x: nat)
    requires CanPlay(db, turns) && HasLeft(db, w, x)
    ensures HasLeft(Play(db, turns), w, x)
    decreases |turns|
  {
    if turns != [] { NeverBack(Take(db, turns[0].worker, turns[0].step), turns[1..], w, x); }
  }

  /** A turn of anybody either leaves w's transaction running with its snapshot's CSN, or ends it for good. */
  lemma {:induction false} TurnKeepsCsn(db: Db, v: nat, s: Step, w: nat)
    requires DbInv(db) && CanStep(db, v, s) && IsRunning(db, w) && db.work[w].snapshot.Some?
    ensures var db' := Take(db, v, s);
      || HasLeft(db', w, db.reg.phases[w].xid)
      || (IsRunning(db', w) && db'.reg.phases[w] == db.reg.phases[w] && db'.work[w].snapshot.Some?
          && db'.work[w].snapshot.value.csn == db.work[w].snapshot.value.csn)
  {
    assert PhaseOk(db.reg, w);
    ActiveIsNotCommitted(db.reg, w);
    assert EntryOk(db.reg, db.reg.phases[w].xid);
  }

  /**
   Over every run in which w's transaction is still running at the end, its own writes and
   statements among the turns, its snapshot has the CSN it had.
   */
  lemma {:induction false} OneSnapshotCsn(db: Db, turns: seq<Turn>, w: nat)
    requires DbInv(db) && CanPlay(db, turns) && IsRunning(db, w) && db.work[w].snapshot.Some?
    requires w < |Play(db, turns).reg.phases| && Play(db, turns).reg.phases[w] == db.reg.phases[w]
    ensures var db' := Play(db, turns);
      && DbInv(db') && IsRunning(db', w) && db'.work[w].snapshot.Some?
      && db'.work[w].snapshot.value.csn == db.work[w].snapshot.value.csn
    decreases |turns|
  {
    if turns != [] {
      var v, s := turns[0].worker, turns[0].step;
      TakeOk(db, v, s);
      TurnKeepsCsn(db, v, s, w);
      hide DbInv, Take, CanStep;
      if HasLeft(Take(db, v, s), w, db.reg.phases[w].xid) {
        NeverBack(Take(db, v, s), turns[1..], w, db.reg.phases[w].xid);
      } else {
        OneSnapshotCsn(Take(db, v, s), turns[1..], w);
      }
    }
  }

  // ---- What is read of others ---------------------------------------------------------------------

  /** What w's snapshot picks in slot t among the versions of others: no transaction has XID 0. */
  ghost function OthersPick(db: Db, w: nat, t: nat): Option<Version>
    requires DbInv(db) && IsRunning(db, w) && db.work[w].snapshot.Some?
  {
    HeapOkLog(db.heap, db.reg);
    assert t < |db.heap.slots| ==> VersionOk(db.heap, db.reg, t, db.heap.slots[t].tuple);
    Choose(db.heap, Seen(db.reg, db.work[w].snapshot.value.csn), 0, 0, t)
  }

  /** No step of anybody changes it, w's own writes and statements among them. */
  lemma {:induction false} StepKeepsOthersPick(db: Db, v: nat, s: Step, w: nat, t: nat)
    requires DbInv(db) && CanStep(db, v, s) && IsRunning(db, w) && db.work[w].snapshot.Some?
    requires var db' := Take(db, v, s); IsRunning(db', w) && db'.reg.phases[w] == db.reg.phases[w]
    ensures var db' := Take(db, v, s);
      DbInv(db') && db'.work[w].snapshot.Some? && OthersPick(db', w, t) == OthersPick(db, w, t)
  {
    var db' := Take(db, v, s);
    var csn := db.work[w].snapshot.value.csn;
    TakeOk(db, v, s);
    TurnKeepsCsn(db, v, s, w);
    assert WorkOk(db, w);
    if s.Life? {
      StepInv(db.reg, v, s.action);
      SeenStable(db.reg, db'.reg, csn);
    } else if !LeavesPage(s) {
      var change := WritingTurn(db, v, s);
      ActiveIsNotCommitted(db.reg, v);
      assert EntryOk(db.reg, db.reg.phases[v].xid);
      ActiveIsUnseen(db.reg, v, csn);
      ChangedKeepsChoice(db.heap, db'.heap, db.reg, db.reg.phases[v].xid, change, Seen(db.reg, csn), 0, 0, t);
    }
    hide DbInv, CanStep, Choose;
  }

  lemma {:induction false} ActiveIsUnseen(r: Tables, w: nat, csn: nat)
    requires Inv(r) && w < |r.phases| && (r.phases[w].Running? || r.phases[w].RollingBack?)
    ensures r.phases[w].xid !in Seen(r, csn)
  {
    ActiveIsNotCommitted(r, w);
  }

  lemma {:induction false} RunKeepsOthersPick(db: Db, turns: seq<Turn>, w: nat, t: nat)
    requires DbInv(db) && CanPlay(db, turns) && IsRunning(db, w) && db.work[w].snapshot.Some?
    requires w < |Play(db, turns).reg.phases| && Play(db, turns).reg.phases[w] == db.reg.phases[w]
    ensures var db' := Play(db, turns);
      && DbInv(db') && IsRunning(db', w) && db'.work[w].snapshot.Some?
      && OthersPick(db', w, t) == OthersPick(db, w, t)
    decreases |turns|
  {
    if turns != [] {
      var v, s := turns[0].worker, turns[0].step;
      TakeOk(db, v, s);
      TurnKeepsCsn(db, v, s, w);
      if HasLeft(Take(db, v, s), w, db.reg.phases[w].xid) {
        NeverBack(Take(db, v, s), turns[1..], w, db.reg.phases[w].xid);
      } else {
        StepKeepsOthersPick(db, v, s, w, t);
        hide DbInv, Take, CanStep, OthersPick;
        RunKeepsOthersPick(Take(db, v, s), turns[1..], w, t);
      }
    }
  }

  // ---- What a statement reads ----------------------------------------------------------------------

  /** Own versions lie on top: an open transaction's version is covered by nobody else's. */
  lemma {:induction false} OwnOnTop(h: Heap, r: Tables, me: nat, t: nat, i: nat, j: nat)
    requires HeapOk(h, r) && me !in Committed(r) && t < |h.slots|
    requires i < j < |Versions(h, r, t)| && Versions(h, r, t)[j].xid == me
    ensures Versions(h, r, t)[i].xid == me
    decreases j
  {
    HeapOkLog(h, r);
    var c := Versions(h, r, t);
    var page := h.slots[t].tuple;
    LinkIsOwn(h, r, t, j - 1);
    if i < j - 1 { OwnOnTop(h, r, me, t, i, j - 1); }
  }

  /** Next to each other lie versions of one transaction, or the lower one is committed. */
  lemma {:induction false} LinkIsOwn(h: Heap, r: Tables, t: nat, i: nat)
    requires HeapOk(h, r) && t < |h.slots| && i + 1 < |Versions(h, r, t)|
    ensures var c := Versions(h, r, t); c[i + 1].xid == c[i].xid || c[i + 1].xid in Committed(r)
  {
    HeapOkLog(h, r);
    var c := Versions(h, r, t);
    var page := h.slots[t].tuple;
    assert VersionOk(h, r, t, page);
    if i > 0 {
      ChainTail(h.log, page.undo, i - 1);
      assert c[i + 1] == Chain(h.log, page.undo)[i];
      ChainVersionOk(h, r, page.undo, i - 1);
    }
  }

  lemma {:induction false} ChainVersionOk(h: Heap, r: Tables, usn: nat, i: nat)
    requires HeapOk(h, r) && LogOk(h.log) && (usn == 0 || usn in h.log) && i < |Chain(h.log, usn)|
    ensures var v := Chain(h.log, usn)[i];
      && v.xid in r.history && !v.deleted
      && (v.undo != 0 ==>
            && v.undo in h.log && !h.log[v.undo].DeleteRecord?
            && (h.log[v.undo].prior.xid == v.xid || h.log[v.undo].prior.xid in Committed(r)))
    decreases usn
  {
    assert RecordOk(h, r, usn);
    var prior := h.log[usn].prior;
    assert LinkOk(h.log, usn, prior);
    if i > 0 { ChainVersionOk(h, r, prior.undo, i - 1); }
  }

  /** Two views that agree on every version of a slot pick the same. */
  lemma {:induction false} SameViewsPickSame(h: Heap, seen: set<nat>, me: nat, commandId: nat, me': nat,
                                             commandId': nat,
                                             t: nat)
    requires LogOk(h.log) && t < |h.slots| && (h.slots[t].tuple.undo == 0 || h.slots[t].tuple.undo in h.log)
    requires h.slots[t].state == Normal
    requires forall j :: 0 <= j < |VersionsOf(h, t)| ==>
      (InView(seen, me, commandId, VersionsOf(h, t)[j]) <==> InView(seen, me', commandId', VersionsOf(h, t)[j]))
    ensures Choose(h, seen, me, commandId, t) == Choose(h, seen, me', commandId', t)
  {
    var i := ChoiceIsNewestInView(h, seen, me, commandId, t);
    var i' := ChoiceIsNewestInView(h, seen, me', commandId', t);
    hide Choose, InView, VersionsOf;
  }

  /** An own version that the snapshot sees: written by an earlier statement, or an insert seen by a later one. */
  predicate IsOwnInView(me: nat, snapshot: Snapshot, v: Version) {
    v.xid == me && v.undo < snapshot.commandId
  }

  predicate SeesNoOwn(me: nat, snapshot: Snapshot, c: seq<Version>) {
    forall j :: 0 <= j < |c| ==> !IsOwnInView(me, snapshot, c[j])
  }

  lemma {:induction false} VersionsBegun(h: Heap, r: Tables, t: nat, j: nat)
    requires Inv(r) && HeapOk(h, r) && t < |h.slots| && j < |Versions(h, r, t)|
    ensures Versions(h, r, t)[j].xid in r.history && Versions(h, r, t)[j].xid >= 1
    ensures j > 0 ==> !Versions(h, r, t)[j].deleted
  {
    HeapOkLog(h, r);
    var page := h.slots[t].tuple;
    assert VersionOk(h, r, t, page);
    if j > 0 { ChainVersionOk(h, r, page.undo, j - 1); }
    assert EntryOk(r, Versions(h, r, t)[j].xid);
  }

  /**
   What a statement reads in a slot: the newest version of its own transaction that it sees,
   or nothing if that is a delete; and if it sees none of its own, what its snapshot picks
   among the versions of others.
   */
  lemma {:induction false} ReadIsOwnOrOthers(db: Db, w: nat, t: nat) returns (i: nat)
    requires Reachable(db) && IsRunning(db, w) && db.work[w].snapshot.Some? && t < |db.heap.slots|
    ensures DbInv(db)
    ensures var c := Versions(db.heap, db.reg, t); var me := db.reg.phases[w].xid; var s := db.work[w].snapshot.value;
      var read := ReadNow(db, me, s, t); var others := OthersPick(db, w, t);
      && i <= |c| && (forall j :: 0 <= j < i ==> !IsOwnInView(me, s, c[j])) && (i < |c| ==> IsOwnInView(me, s, c[i]))
      && (read != Blocked ==>
            read == if i < |c| then (if c[i].deleted then Nothing else Found(c[i]))
                    else if others == None then Nothing else Found(others.value))
  {
    ReachableInv(db);
    HeapOkLog(db.heap, db.reg);
    var h, r := db.heap, db.reg;
    var me, s := r.phases[w].xid, db.work[w].snapshot.value;
    var seen := Seen(r, s.csn);
    var c := Versions(h, r, t);
    assert VersionOk(h, r, t, h.slots[t].tuple);
    ActiveIsNotCommitted(r, w);
    ActiveIsUnseen(r, w, s.csn);
    assert EntryOk(r, me);
    var k := ChoiceIsNewestInView(h, seen, me, s.commandId, t);
    i := if k < |c| && c[k].xid == me then k else |c|;
    forall j | 0 <= j < |c| ensures c[j].xid >= 1 && (j > 0 ==> !c[j].deleted) { VersionsBegun(h, r, t, j); }
    forall j | 0 <= j < i ensures !IsOwnInView(me, s, c[j]) {
      if c[j].xid == me && k < j { OwnOnTop(h, r, me, t, k, j); }
    }
    if ReadNow(db, me, s, t) != Blocked { ReadNowIsPick(db, me, s, t); }
    if i == |c| {
      assert h.slots[t].state == Normal;
      hide DbInv, Reachable, HeapOk, Choose, Inv, ReadNow;
      SameViewsPickSame(h, seen, me, s.commandId, 0, 0, t);
    }
  }

  /**
   Repeatable read for a transaction that writes: over every run in which it is still running
   at the end, with its own writes and later statements among the turns, a version of another
   transaction it read in a slot is the only one it can read there.  Where it sees no version
   of its own, before and after, the two reads are the same, found or not.
   */
  lemma {:induction false} ReadsOfOthersRepeat(db: Db, turns: seq<Turn>, w: nat, t: nat)
    requires Reachable(db) && CanPlay(db, turns) && IsRunning(db, w) && db.work[w].snapshot.Some? && t < |db.heap.slots|
    requires w < |Play(db, turns).reg.phases| && Play(db, turns).reg.phases[w] == db.reg.phases[w]
    ensures var db' := Play(db, turns);
      && DbInv(db) && DbInv(db') && IsRunning(db', w) && db'.work[w].snapshot.Some? && t < |db'.heap.slots|
      && var me := db.reg.phases[w].xid; var s, s' := db.work[w].snapshot.value, db'.work[w].snapshot.value;
         var c, c' := Versions(db.heap, db.reg, t), Versions(db'.heap, db'.reg, t);
         var read, read' := ReadNow(db, me, s, t), ReadNow(db', me, s', t);
         && (read.Found? && read.version.xid != me && read'.Found? && read'.version.xid != me ==> read' == read)
         && (read != Blocked && read' != Blocked && SeesNoOwn(me, s, c) && SeesNoOwn(me, s', c') ==> read' == read)
  {
    ReachableInv(db);
    RunKeepsOthersPick(db, turns, w, t);
    ReachableAfter(db, turns);
    SlotsStay(db, turns, t);
    var i := ReadIsOwnOrOthers(db, w, t);
    var i' := ReadIsOwnOrOthers(Play(db, turns), w, t);
    hide DbInv, Reachable, OthersPick, ReadNow, Versions, Play, CanPlay;
  }

  lemma {:induction false} SlotsStay(db: Db, turns: seq<Turn>, t: nat)
    requires DbInv(db) && CanPlay(db, turns) && t < |db.heap.slots|
    ensures t < |Play(db, turns).heap.slots|
    decreases |turns|
  {
    if turns != [] {
      TakeOk(db, turns[0].worker, turns[0].step);
      SlotsStay(Take(db, turns[0].worker, turns[0].step), turns[1..], t);
    }
  }

  lemma {:induction false} ReachableAfter(db: Db, turns: seq<Turn>)
    requires Reachable(db) && CanPlay(db, turns)
    ensures Reachable(Play(db, turns))
  {
    var workers: nat, before :| CanPlay(InitialDb(workers), before) && Play(InitialDb(workers), before) == db;
    hide Take, CanStep;
    PlayJoins(InitialDb(workers), before, turns);
  }

  lemma {:induction false} PlayJoins(db: Db, a: seq<Turn>, b: seq<Turn>)
    requires CanPlay(db, a) && CanPlay(Play(db, a), b)
    ensures CanPlay(db, a + b) && Play(db, a + b) == Play(Play(db, a), b)
    decreases |a|
  {
    hide Take, CanStep;
    if a == [] {
      assert a + b == b;
    } else {
      PlayJoins(Take(db, a[0].worker, a[0].step), a[1..], b);
      assert (a + b)[1..] == a[1..] + b;
    }
  }
}
