/** What the interleaved system guarantees, in every reachable state and over every run. */
module DatabaseTheorems {
  import opened Wrappers
  import opened Registry
  import opened Snapshots
  import opened Waiting
  import opened HeapVersions
  import opened Database
  import opened DatabaseInvariant
  import opened DatabaseSteps

  lemma {:induction false} PlayKeepsInv(db: Db, turns: seq<Turn>)
    requires DbInv(db) && CanPlay(db, turns)
    ensures DbInv(Play(db, turns))
    decreases |turns|
  {
    if turns != [] {
      TakeOk(db, turns[0].worker, turns[0].step);
      PlayKeepsInv(Take(db, turns[0].worker, turns[0].step), turns[1..]);
    }
  }

  /** Reachable: some list of turns leads here from the empty page. */
  ghost predicate Reachable(db: Db) {
    exists workers: nat, turns :: CanPlay(InitialDb(workers), turns) && Play(InitialDb(workers), turns) == db
  }

  lemma {:induction false} ReachableInv(db: Db)
    requires Reachable(db)
    ensures DbInv(db)
  {
    var workers: nat, turns :| CanPlay(InitialDb(workers), turns) && Play(InitialDb(workers), turns) == db;
    InitialDbInv(workers);
    PlayKeepsInv(InitialDb(workers), turns);
  }

  // ---- Reading ----------------------------------------------------------

  /** What the code's per-slot choice returns in this state; slots not yet there hold nothing. */
  ghost function ReadNow(db: Db, me: nat, snapshot: Snapshot, t: nat): Choice
    requires DbInv(db)
  {
    HeapOkLog(db.heap, db.reg);
    assert t < |db.heap.slots| ==> VersionOk(db.heap, db.reg, t, db.heap.slots[t].tuple);
    if t < |db.heap.slots| then ChooseNow(db.heap, db.reg.history, me, snapshot, t) else Nothing
  }

  lemma {:induction false} ReadNowIsPick(db: Db, me: nat, snapshot: Snapshot, t: nat)
    requires DbInv(db) && ReadNow(db, me, snapshot, t) != Blocked
    ensures LogOk(db.heap.log)
    ensures t < |db.heap.slots| ==> VersionOk(db.heap, db.reg, t, db.heap.slots[t].tuple)
    ensures var c := Choose(db.heap, Seen(db.reg, snapshot.csn), me, snapshot.commandId, t);
      ReadNow(db, me, snapshot, t) == if c == None then Nothing else Found(c.value)
  {
    HeapOkLog(db.heap, db.reg);
    if t < |db.heap.slots| {
      assert VersionOk(db.heap, db.reg, t, db.heap.slots[t].tuple);
      ChooseNowIsChoose(db.reg, db.heap, me, snapshot, t);
    }
  }

  /** w's current statement has written nothing yet. */
  predicate HasNotWritten(db: Db, w: nat) {
    w < |db.work| && |db.work[w].undo| == db.work[w].base
  }

  /**
   Steps by which the owner of a snapshot writes nothing; a new statement is allowed if the
   current one has not written.
   */
  predicate OnlyReads(s: Step, idle: bool) {
    s.ReadItem? || s.Test? || s.Release? || s.Refuse? || s.ReadTarget? || s.WaitMove? || (s.BeginStatement? && idle)
  }

  /** A new statement after one that wrote nothing gets the same snapshot. */
  lemma {:induction false} SameSnapshot(db: Db, w: nat)
    requires DbInv(db) && CanStep(db, w, BeginStatement) && db.work[w].snapshot.Some? && HasNotWritten(db, w)
    ensures Take(db, w, BeginStatement).work[w].snapshot == db.work[w].snapshot
  {
    assert WorkOk(db, w);
  }

  lemma {:induction false} StepKeepsPick(db: Db, v: nat, s: Step, w: nat, t: nat)
    requires DbInv(db) && CanStep(db, v, s) && IsRunning(db, w) && db.work[w].snapshot.Some?
    requires v == w ==> OnlyReads(s, HasNotWritten(db, w))
    ensures DbInv(Take(db, v, s)) && IsRunning(Take(db, v, s), w)
    ensures HasNotWritten(db, w) ==> HasNotWritten(Take(db, v, s), w)
    ensures Take(db, v, s).reg.phases[w] == db.reg.phases[w] && Take(db, v, s).work[w].snapshot == db.work[w].snapshot
    ensures Pick(Take(db, v, s), w, t) == Pick(db, w, t)
  {
    var db' := Take(db, v, s);
    TakeOk(db, v, s);
    assert WorkOk(db, w);
    match s
    case Life(a) =>
      StepInv(db.reg, v, a);
      SeenStable(db.reg, db'.reg, db.work[w].snapshot.value.csn);
    case Update(_, _) =>
      WriteOk(db, v, s);
      BystanderKeepsPick(db, db', v, Push(db.work[v].act.t), w, t);
    case Remove(_) =>
      WriteOk(db, v, s);
      BystanderKeepsPick(db, db', v, Push(db.work[v].act.t), w, t);
    case Insert(data, bytes) =>
      InsertOk(db, v, data, bytes);
      BystanderKeepsPick(db, db', v, Grow, w, t);
    case UndoLast =>
      UndoLastOk(db, v);
      var change :| HeapStep(db, db', v, change);
      BystanderKeepsPick(db, db', v, change, w, t);
    case BeginStatement =>
      if v == w { SameSnapshot(db, w); }
    case _ =>
  }

  lemma {:induction false} RunKeepsPick(db: Db, turns: seq<Turn>, w: nat, t: nat)
    requires DbInv(db) && CanPlay(db, turns) && IsRunning(db, w) && db.work[w].snapshot.Some?
    requires forall i :: 0 <= i < |turns| && turns[i].worker == w ==> OnlyReads(turns[i].step, HasNotWritten(db, w))
    ensures DbInv(Play(db, turns)) && IsRunning(Play(db, turns), w)
    ensures Play(db, turns).reg.phases[w] == db.reg.phases[w]
    ensures Play(db, turns).work[w].snapshot == db.work[w].snapshot
    ensures Pick(Play(db, turns), w, t) == Pick(db, w, t)
    decreases |turns|
  {
    if turns != [] {
      StepKeepsPick(db, turns[0].worker, turns[0].step, w, t);
      RunKeepsPick(Take(db, turns[0].worker, turns[0].step), turns[1..], w, t);
    }
  }

  /**
   Repeatable read: while the owner of a snapshot writes nothing, in this statement
   or in later ones of its transaction, every finite run of the others' updates,
   deletes, inserts, commits and aborts leaves the version read for every slot the
   same, whenever the read does not have to wait.
   */
  lemma {:induction false} RepeatableRead(db: Db, turns: seq<Turn>, w: nat, t: nat)
    requires Reachable(db) && CanPlay(db, turns) && IsRunning(db, w) && db.work[w].snapshot.Some?
    requires forall i :: 0 <= i < |turns| && turns[i].worker == w ==> OnlyReads(turns[i].step, HasNotWritten(db, w))
    ensures DbInv(db) && DbInv(Play(db, turns)) && IsRunning(Play(db, turns), w)
    ensures Play(db, turns).work[w].snapshot == db.work[w].snapshot
    ensures var me := db.reg.phases[w].xid; var s := db.work[w].snapshot.value;
      var before := ReadNow(db, me, s, t); var after := ReadNow(Play(db, turns), me, s, t);
      before != Blocked && after != Blocked ==> before == after
  {
    ReachableInv(db);
    RunKeepsPick(db, turns, w, t);
    var me := db.reg.phases[w].xid;
    var s := db.work[w].snapshot.value;
    if ReadNow(db, me, s, t) != Blocked && ReadNow(Play(db, turns), me, s, t) != Blocked {
      ReadNowIsPick(db, me, s, t);
      ReadNowIsPick(Play(db, turns), me, s, t);
    }
  }

  /**
   A scan tests one version at a time, with other workers in between and waits at
   COMMITTING.  What it ends with is what one undisturbed read returns.
   */
  lemma {:induction false} ScanReturnsTheChoice(db: Db, w: nat)
    requires Reachable(db) && IsRunning(db, w) && db.work[w].snapshot.Some?
    ensures DbInv(db)
    ensures var me := db.reg.phases[w].xid; var s := db.work[w].snapshot.value;
      match db.work[w].act
      case Got(t, v) => ReadNow(db, me, s, t) in {Blocked, Found(v)}
      case Missed(t) => ReadNow(db, me, s, t) in {Blocked, Nothing}
      case _ => true
  {
    ReachableInv(db);
    assert WorkOk(db, w) && ActOk(db, w);
    var me := db.reg.phases[w].xid;
    var s := db.work[w].snapshot.value;
    match db.work[w].act
    case Got(t, v) => if ReadNow(db, me, s, t) != Blocked { ReadNowIsPick(db, me, s, t); }
    case Missed(t) => if ReadNow(db, me, s, t) != Blocked { ReadNowIsPick(db, me, s, t); }
    case _ =>
  }

  /** A scan step is held up by nothing but a creator that is COMMITTING. */
  lemma {:induction false} ScanOnlyWaitsForCommits(db: Db, w: nat)
    requires Reachable(db) && IsRunning(db, w) && db.work[w].act.Testing?
    ensures var x := db.work[w].act.v.xid;
      x in db.reg.history && db.reg.history[x] != INVALID &&
      (CanStep(db, w, Test) || (x != db.reg.phases[w].xid && db.reg.history[x] == COMMITTING))
  {
    ReachableInv(db);
    TestingIsSound(db, w);
    var v := db.work[w].act.v;
    if v.xid == db.reg.phases[w].xid || db.reg.history[v.xid] != COMMITTING {
      assert IsVisible(db.reg.history, db.reg.phases[w].xid, db.work[w].snapshot.value, v) != Busy;
      assert CanStep(db, w, Test);
    }
  }

  lemma {:induction false} TestingIsSound(db: Db, w: nat)
    requires DbInv(db) && IsRunning(db, w) && db.work[w].act.Testing?
    ensures var v := db.work[w].act.v;
      && db.work[w].snapshot.Some? && v.xid in db.reg.history && db.reg.history[v.xid] != INVALID
      && (v.undo == 0 || v.undo in db.heap.log)
  {
    assert WorkOk(db, w) && ActOk(db, w);
    assert EntryOk(db.reg, db.work[w].act.v.xid);
  }

  /** No dirty reads: a version of another transaction is returned only if that one committed before the snapshot. */
  lemma {:induction false} OnlyCommittedIsRead(db: Db, w: nat)
    requires Reachable(db) && IsRunning(db, w) && db.work[w].act.Got?
    ensures var v := db.work[w].act.v; var me := db.reg.phases[w].xid;
      && db.work[w].snapshot.Some? && !v.deleted
      && (v.xid != me ==> v.xid in db.reg.history && IsNormal(db.reg.history[v.xid]) &&
                          db.reg.history[v.xid] < db.work[w].snapshot.value.csn)
  {
    ReachableInv(db);
    assert WorkOk(db, w) && ActOk(db, w);
    HeapOkLog(db.heap, db.reg);
    var g := db.work[w].act;
    var s := db.work[w].snapshot.value;
    var seen := Seen(db.reg, s.csn);
    PickIsInView(db.heap, seen, db.reg.phases[w].xid, s.commandId, g.t);
    PickNotDeleted(db.heap, db.reg, seen, db.reg.phases[w].xid, s.commandId, g.t);
  }

  lemma {:induction false} WalkNotDeleted(h: Heap, r: Tables, seen: set<nat>, me: nat, commandId: nat, usn: nat)
    requires HeapOk(h, r) && LogOk(h.log) && (usn == 0 || usn in h.log)
    ensures Walk(h.log, seen, me, commandId, usn).Some? ==> !Walk(h.log, seen, me, commandId, usn).value.deleted
    decreases usn
  {
    if usn != 0 && !h.log[usn].DeleteRecord? {
      assert RecordOk(h, r, usn) && LinkOk(h.log, usn, h.log[usn].prior);
      WalkNotDeleted(h, r, seen, me, commandId, h.log[usn].prior.undo);
    }
  }

  lemma {:induction false} PickNotDeleted(h: Heap, r: Tables, seen: set<nat>, me: nat, commandId: nat, t: nat)
    requires HeapOk(h, r) && LogOk(h.log) && t < |h.slots|
    ensures VersionOk(h, r, t, h.slots[t].tuple)
    ensures Choose(h, seen, me, commandId, t).Some? ==> !Choose(h, seen, me, commandId, t).value.deleted
  {
    WalkNotDeleted(h, r, seen, me, commandId, h.slots[t].tuple.undo);
  }

  // ---- Writing ----------------------------------------------------------

  /** No lost update: a write that passes the guard replaces exactly the version its scan returned. */
  lemma {:induction false} NoLostUpdate(db: Db, w: nat)
    requires Reachable(db) && IsRunning(db, w) && GuardHolds(db, w)
    ensures var g := db.work[w].act; db.heap.slots[g.t].tuple == g.v && !g.v.deleted
  {
    ReachableInv(db);
    GuardMeansUnchanged(db, w);
  }

  /** No dirty write: while a transaction is open, nobody else passes the guard on a slot it wrote. */
  lemma {:induction false} NoDirtyWrite(db: Db, w: nat, v: nat)
    requires Reachable(db) && IsRunning(db, w) && GuardHolds(db, w)
    requires v != w && v < |db.reg.phases| && (db.reg.phases[v].Running? || db.reg.phases[v].RollingBack?)
    ensures db.heap.slots[db.work[w].act.t].tuple.xid != db.reg.phases[v].xid
  {
    ReachableInv(db);
    GuardMeansUnchanged(db, w);
    ActiveIsNotCommitted(db.reg, v);
    OtherXid(db.reg, v, w);
  }

  /** A refused writer waits for another, begun transaction and never meets an invalid status. */
  lemma {:induction false} WriterWaitsSoundly(db: Db, w: nat)
    requires Reachable(db) && IsRunning(db, w) && db.work[w].act.Awaiting?
    ensures var g := db.work[w].act;
      && g.target in db.reg.history && g.target != db.reg.phases[w].xid && g.at != BadStatus
      && (g.at in {AskAgain, Inside(Returned)} ==> IsFinal(db.reg.history[g.target]))
  {
    ReachableInv(db);
    assert WorkOk(db, w) && ActOk(db, w);
  }

  /** Where a refused writer goes to wait: for whoever wrote the tuple now on the page. */
  lemma {:induction false} WaitsForTheWriter(db: Db, w: nat)
    requires Reachable(db) && IsRunning(db, w) && db.work[w].act.Refused?
    ensures CanStep(db, w, ReadTarget)
    ensures var g := db.work[w].act; var g' := Take(db, w, ReadTarget).work[w].act;
      && g'.Awaiting? && g'.t == g.t && g'.v == g.v && g'.at == Ask
      && g.t < |db.heap.slots| && g'.target == db.heap.slots[g.t].tuple.xid && g'.target != db.reg.phases[w].xid
  {
    ReachableInv(db);
    assert WorkOk(db, w) && ActOk(db, w);
    HeldOwn(db, w, db.work[w].act.t, db.work[w].act.v);
  }

  /**
   How a wait ends.  The writer gets its version back exactly when it asks for the status of
   the target and that is ABORTED (3); it fails exactly when it asks and the target has
   committed; any other move leaves it waiting for the same.
   */
  lemma {:induction false} WaitEndsWithTheFate(db: Db, w: nat)
    requires Reachable(db) && CanStep(db, w, WaitMove)
    ensures var g := db.work[w].act; var db' := Take(db, w, WaitMove); var g' := db'.work[w].act;
      g.target in db.reg.history &&
      var csn := db.reg.history[g.target]; var asks := g.at in {Ask, AskAgain};
      && db'.heap == db.heap && db'.reg == db.reg
      && (g'.Got? <==> asks && csn == 3)
      && (g'.Failed? <==> asks && csn >= 5)
      && (g'.Got? ==> g' == Got(g.t, g.v))
      && (!g'.Got? && !g'.Failed? ==> g'.Awaiting? && g' == g.(at := g'.at) && WaitRank(g'.at) < WaitRank(g.at))
  {
    ReachableInv(db);
    assert WorkOk(db, w) && ActOk(db, w);
    WaiterKeepsKnowing(db.reg, db.work[w].act.target, db.work[w].act.at);
    assert EntryOk(db.reg, db.work[w].act.target);
  }

  /** Moves a waiter has left at most. */
  function WaitRank(at: EndPoint): nat {
    match at
    case Ask => 6
    case Inside(LookUp) => 5
    case Inside(Fetch(_)) => 4
    case Inside(AwaitLatch) => 3
    case Inside(Returned) => 2
    case AskAgain => 1
    case _ => 0
  }

  /**
   A waiter is held up by two things only: a target that is COMMITTING (4) when it asks, and
   the target's latch while it is held.
   */
  lemma {:induction false} WaiterIsHeldUp(db: Db, w: nat)
    requires Reachable(db) && IsRunning(db, w) && db.work[w].act.Awaiting?
    ensures var g := db.work[w].act;
      g.target in db.reg.history &&
      (CanStep(db, w, WaitMove) <==>
        && !(g.at in {Ask, AskAgain} && db.reg.history[g.target] == 4)
        && !(g.at == Inside(AwaitLatch) && g.target in db.reg.objects && db.reg.objects[g.target].latched))
  {
    ReachableInv(db);
    assert WorkOk(db, w) && ActOk(db, w);
    var g := db.work[w].act;
    assert EndKnows(db.reg, g.target, g.at);
    hide DbInv, Reachable, WorkOk, ActOk, HeapOk, Held, Inv;
  }

  // ---- Statements -------------------------------------------------------

  /**
   Among its transaction's updates and deletes a statement sees those of all
   earlier statements and none of its own: record i was written before the
   statement began exactly when its version is in view.
   */
  lemma {:induction false} StatementIsolation(db: Db, w: nat, i: nat, v: Version)
    requires Reachable(db) && IsRunning(db, w) && db.work[w].snapshot.Some? && i < |db.work[w].undo|
    requires v.xid == db.reg.phases[w].xid && v.undo == db.work[w].undo[i]
    ensures v.xid in db.reg.history
    ensures IsVisible(db.reg.history, db.reg.phases[w].xid, db.work[w].snapshot.value, v) ==
            if i < db.work[w].base then Yes else No
  {
    ReachableInv(db);
    assert WorkOk(db, w);
    ActiveIsNotCommitted(db.reg, w);
  }

  /**
   Inserted tuples carry no USN.  A statement is isolated from its own inserts
   exactly when no earlier statement of the transaction wrote anything.
   */
  lemma {:induction false} InsertIsolation(db: Db, w: nat, data: Payload, bytes: nat)
    requires Reachable(db) && CanStep(db, w, Insert(data, bytes))
    ensures var db' := Take(db, w, Insert(data, bytes)); var me := db.reg.phases[w].xid;
      && me in db'.reg.history
      && db'.heap.slots[|db.heap.slots|].tuple.xid == me
      && (IsVisible(db'.reg.history, me, db'.work[w].snapshot.value, db'.heap.slots[|db.heap.slots|].tuple) == No
          <==> db.work[w].base == 0)
  {
    ReachableInv(db);
    assert WorkOk(db, w);
    ActiveIsNotCommitted(db.reg, w);
  }
}
