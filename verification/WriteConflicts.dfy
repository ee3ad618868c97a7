/**
 First updater wins: what a transaction writes over is what its snapshot sees, so no
 version that committed after the snapshot lies below one of its own.
 */
module WriteConflicts {
  import opened Wrappers
  import opened Registry
  import opened Snapshots
  import opened HeapVersions
  import opened Database
  import opened DatabaseInvariant
  import opened DatabaseSteps
  import opened DatabaseTheorems
  import opened CommitOrder

  // ---- One transaction ---------------------------------------------------------------

  /** If me wrote v, the version its undo record saved is another one of me's, or seen. */
  ghost predicate OverSeen(h: Heap, me: nat, seen: set<nat>, v: Version) {
    v.xid == me && v.undo != 0 && v.undo in h.log && !h.log[v.undo].DeleteRecord? ==>
      h.log[v.undo].prior.xid == me || h.log[v.undo].prior.xid in seen
  }

  ghost predicate WritesOverSeen(h: Heap, me: nat, seen: set<nat>) {
    && (forall t :: 0 <= t < |h.slots| ==> OverSeen(h, me, seen, h.slots[t].tuple))
    && (forall u :: u in h.log && !h.log[u].DeleteRecord? ==> OverSeen(h, me, seen, h.log[u].prior))
  }

  ghost predicate HasNoVersions(h: Heap, me: nat) {
    && (forall t :: 0 <= t < |h.slots| ==> h.slots[t].tuple.xid != me)
    && (forall u :: u in h.log && !h.log[u].DeleteRecord? ==> h.log[u].prior.xid != me)
  }

  /** What a running worker's versions lie over; before its first statement it has none. */
  ghost predicate WriterOverSeen(db: Db, w: nat)
    requires IsRunning(db, w)
  {
    var me := db.reg.phases[w].xid;
    match db.work[w].snapshot
    case None => HasNoVersions(db.heap, me)
    case Some(s) => WritesOverSeen(db.heap, me, Seen(db.reg, s.csn))
  }

  ghost predicate AllOverSeen(db: Db) {
    forall w :: IsRunning(db, w) ==> WriterOverSeen(db, w)
  }

  // ---- Steps ---------------------------------------------------------------------------

  lemma {:induction false} OverSeenFrame(h: Heap, h': Heap, me: nat, seen: set<nat>, v: Version)
    requires OverSeen(h, me, seen, v) && (v.undo == 0 || v.undo in h.log)
    requires forall u :: u in h.log ==> u in h'.log && h'.log[u] == h.log[u]
    ensures OverSeen(h', me, seen, v)
  {}

  /** A change by x keeps it, if a version x pushes is another transaction's or lies over one that me wrote or sees. */
  lemma {:induction false} ChangedOverSeen(h: Heap, h': Heap, r: Tables, x: nat, change: Change, me: nat,
                                           seen: set<nat>)
    requires HeapOk(h, r) && Changed(h, h', Committed(r), x, change) && WritesOverSeen(h, me, seen)
    requires change.Push? ==> x != me || h.slots[change.t].tuple.xid == me || h.slots[change.t].tuple.xid in seen
    ensures WritesOverSeen(h', me, seen)
  {
    LogGrows(h, h', r, x, change);
    forall t | 0 <= t < |h.slots| ensures OverSeen(h', me, seen, h.slots[t].tuple) {
      assert VersionOk(h, r, t, h.slots[t].tuple);
      OverSeenFrame(h, h', me, seen, h.slots[t].tuple);
    }
    forall u | u in h.log && !h.log[u].DeleteRecord? ensures OverSeen(h', me, seen, h.log[u].prior) {
      assert RecordOk(h, r, u);
      OverSeenFrame(h, h', me, seen, h.log[u].prior);
    }
    hide HeapOk;
  }

  lemma {:induction false} ChangedStillNone(h: Heap, h': Heap, r: Tables, x: nat, change: Change, me: nat)
    requires HeapOk(h, r) && Changed(h, h', Committed(r), x, change) && HasNoVersions(h, me) && x != me
    ensures HasNoVersions(h', me)
  {
    LogGrows(h, h', r, x, change);
  }

  lemma {:induction false} BystanderOverSeen(db: Db, db': Db, v: nat, change: Change, w: nat)
    requires DbInv(db) && HeapStep(db, db', v, change) && v != w && IsRunning(db, w) && WriterOverSeen(db, w)
    ensures WriterOverSeen(db', w)
  {
    OtherXid(db.reg, v, w);
    var me := db.reg.phases[w].xid;
    if db.work[w].snapshot.None? {
      ChangedStillNone(db.heap, db'.heap, db.reg, db.reg.phases[v].xid, change, me);
    } else {
      ChangedOverSeen(db.heap, db'.heap, db.reg, db.reg.phases[v].xid, change, me,
                      Seen(db.reg, db.work[w].snapshot.value.csn));
    }
  }

  /** The guard lets a writer through only over the version its scan returned, which it wrote or sees. */
  lemma {:induction false} GuardMeansSeen(db: Db, w: nat)
    requires DbInv(db) && IsRunning(db, w) && GuardHolds(db, w)
    ensures db.work[w].snapshot.Some?
    ensures var x := db.heap.slots[db.work[w].act.t].tuple.xid;
      x == db.reg.phases[w].xid || x in Seen(db.reg, db.work[w].snapshot.value.csn)
  {
    HeapOkLog(db.heap, db.reg);
    assert WorkOk(db, w) && ActOk(db, w);
    var g := db.work[w].act;
    assert Held(db, w, g.t, g.v) && VersionOk(db.heap, db.reg, g.t, db.heap.slots[g.t].tuple);
    var s := db.work[w].snapshot.value;
    PickIsInView(db.heap, Seen(db.reg, s.csn), db.reg.phases[w].xid, s.commandId, g.t);
  }

  lemma {:induction false} OwnWriteOverSeen(db: Db, w: nat, s: Step)
    requires DbInv(db) && CanStep(db, w, s) && (s.Update? || s.Remove? || s.Insert?) && WriterOverSeen(db, w)
    ensures IsRunning(Take(db, w, s), w) && WriterOverSeen(Take(db, w, s), w)
  {
    var db' := Take(db, w, s);
    var change := WritingTurn(db, w, s);
    var me := db.reg.phases[w].xid;
    if s.Insert? {
      ChangedOverSeen(db.heap, db'.heap, db.reg, me, Grow, me, Seen(db.reg, db.work[w].snapshot.value.csn));
    } else {
      GuardMeansSeen(db, w);
      WriteEffect(db, w, s);
      ChangedOverSeen(db.heap, db'.heap, db.reg, me, Push(db.work[w].act.t), me,
                      Seen(db.reg, db.work[w].snapshot.value.csn));
    }
  }

  /** A step of the tables fixes no CSN below a snapshot already taken, and a new transaction has written nothing. */
  lemma {:induction false} LifeOverSeen(db: Db, v: nat, a: Action, w: nat)
    requires DbInv(db) && CanStep(db, v, Life(a)) && IsRunning(Take(db, v, Life(a)), w)
    requires IsRunning(db, w) ==> WriterOverSeen(db, w)
    ensures WriterOverSeen(Take(db, v, Life(a)), w)
  {
    var db' := Take(db, v, Life(a));
    StepInv(db.reg, v, a);
    if v == w {
      assert PhaseOk(db.reg, w) && db.reg.phases[w].Installed?;
      var me := db.reg.phases[w].xid;
      forall t | 0 <= t < |db.heap.slots| ensures db.heap.slots[t].tuple.xid != me {
        assert VersionOk(db.heap, db.reg, t, db.heap.slots[t].tuple);
      }
      forall u | u in db.heap.log && !db.heap.log[u].DeleteRecord? ensures db.heap.log[u].prior.xid != me {
        assert RecordOk(db.heap, db.reg, u);
      }
    } else {
      assert WorkOk(db, w);
      if db.work[w].snapshot.Some? { SeenStable(db.reg, db'.reg, db.work[w].snapshot.value.csn); }
    }
  }

  lemma {:induction false} StepOverSeen(db: Db, v: nat, s: Step, w: nat)
    requires DbInv(db) && CanStep(db, v, s) && IsRunning(Take(db, v, s), w)
    requires IsRunning(db, w) ==> WriterOverSeen(db, w)
    ensures WriterOverSeen(Take(db, v, s), w)
  {
    var db' := Take(db, v, s);
    if s.Life? {
      LifeOverSeen(db, v, s.action, w);
    } else if v == w && !LeavesPage(s) {
      OwnWriteOverSeen(db, w, s);
    } else if !LeavesPage(s) {
      var change := WritingTurn(db, v, s);
      BystanderOverSeen(db, db', v, change, w);
    } else {
      assert db'.heap == db.heap && db'.reg == db.reg;
      hide DbInv;
    }
  }

  lemma {:induction false} RunOverSeen(db: Db, turns: seq<Turn>)
    requires DbInv(db) && CanPlay(db, turns) && AllOverSeen(db)
    ensures AllOverSeen(Play(db, turns))
    decreases |turns|
  {
    if turns != [] {
      var v, s := turns[0].worker, turns[0].step;
      TakeOk(db, v, s);
      var next := Take(db, v, s);
      hide DbInv, Take, CanStep, WriterOverSeen;
      forall w | IsRunning(next, w) ensures WriterOverSeen(next, w) { StepOverSeen(db, v, s, w); }
      RunOverSeen(next, turns[1..]);
    }
  }

  lemma {:induction false} ReachableOverSeen(db: Db)
    requires Reachable(db)
    ensures DbInv(db) && AllOverSeen(db)
  {
    var workers: nat, turns :| CanPlay(InitialDb(workers), turns) && Play(InitialDb(workers), turns) == db;
    InitialDbInv(workers);
    ReachableInv(db);
    RunOverSeen(InitialDb(workers), turns);
  }

  // ---- Whole chains -----------------------------------------------------------------------

  lemma {:induction false} ChainOverSeen(h: Heap, r: Tables, me: nat, csn: nat, v: Version, i: nat)
    requires HeapOk(h, r) && Ordered(h, r) && LogOk(h.log) && LinkOrdered(h, r, v) && v.xid == me
    requires WritesOverSeen(h, me, Seen(r, csn)) && OverSeen(h, me, Seen(r, csn), v)
    requires (v.undo == 0 || v.undo in h.log) && i < |Chain(h.log, v.undo)|
    ensures var p := Chain(h.log, v.undo)[i];
      p.xid == me || (CommittedAt(r, p.xid) && r.history[p.xid] < csn)
    decreases v.undo
  {
    var prior := h.log[v.undo].prior;
    assert LinkOk(h.log, v.undo, prior);
    if i > 0 {
      if prior.xid == me {
        ChainOverSeen(h, r, me, csn, prior, i - 1);
      } else {
        ChainInCommitOrder(h, r, prior, i - 1);
      }
    }
  }

  /**
   Below a running transaction's own version of a slot lie only its other versions and
   ones that committed before its snapshot.
   */
  lemma {:induction false} FirstUpdaterWins(db: Db, w: nat, t: nat, i: nat, j: nat)
    requires Reachable(db) && IsRunning(db, w) && db.work[w].snapshot.Some? && t < |db.heap.slots|
    ensures DbInv(db)
    ensures var c := Versions(db.heap, db.reg, t); var me := db.reg.phases[w].xid;
      i < j < |c| && c[i].xid == me && c[j].xid != me ==>
        CommittedAt(db.reg, c[j].xid) && db.reg.history[c[j].xid] < db.work[w].snapshot.value.csn
  {
    ReachableOverSeen(db);
    ReachableOrdered(db);
    HeapOkLog(db.heap, db.reg);
    var h, r := db.heap, db.reg;
    var page := h.slots[t].tuple;
    assert WriterOverSeen(db, w);
    assert VersionOk(h, r, t, page);
    var c := Versions(h, r, t);
    hide Reachable, DbInv, AllOverSeen, Ordered, HeapOk, WritesOverSeen;
    if i < j < |c| && c[i].xid == r.phases[w].xid && c[j].xid != r.phases[w].xid {
      BelowOwn(h, r, r.phases[w].xid, db.work[w].snapshot.value.csn, t, i, j);
    }
  }

  /** The same of any heap whose versions lie in commit order over what me wrote or sees. */
  lemma {:induction false} BelowOwn(h: Heap, r: Tables, me: nat, csn: nat, t: nat, i: nat, j: nat)
    requires HeapOk(h, r) && Ordered(h, r) && LogOk(h.log) && WritesOverSeen(h, me, Seen(r, csn)) && t < |h.slots|
    requires i < j < |Versions(h, r, t)| && Versions(h, r, t)[i].xid == me && Versions(h, r, t)[j].xid != me
    ensures var x := Versions(h, r, t)[j].xid; CommittedAt(r, x) && r.history[x] < csn
  {
    var c := Versions(h, r, t);
    VersionOverSeen(h, r, me, Seen(r, csn), t, i);
    assert c[j] == Chain(h.log, c[i].undo)[j - i - 1] by { assert c[i + 1..][j - i - 1] == c[j]; }
    hide HeapOk, Ordered, WritesOverSeen, LogOk, Versions, Seen, CommittedAt;
    ChainOverSeen(h, r, me, csn, c[i], j - i - 1);
  }

  /** Every version of a slot leads on to those below it, in commit order and over what me wrote or sees. */
  lemma {:induction false} VersionOverSeen(h: Heap, r: Tables, me: nat, seen: set<nat>, t: nat, i: nat)
    requires HeapOk(h, r) && Ordered(h, r) && LogOk(h.log) && WritesOverSeen(h, me, seen) && t < |h.slots|
    requires i < |Versions(h, r, t)|
    ensures var c := Versions(h, r, t);
      && (c[i].undo == 0 || c[i].undo in h.log) && Chain(h.log, c[i].undo) == c[i + 1..]
      && LinkOrdered(h, r, c[i]) && OverSeen(h, me, seen, c[i])
  {
    var page := h.slots[t].tuple;
    assert VersionOk(h, r, t, page);
    var c := Versions(h, r, t);
    if i > 0 {
      ChainTail(h.log, page.undo, i - 1);
      ChainIsOrdered(h, r, page, i - 1);
      ChainIsOverSeen(h, me, seen, page.undo, i - 1);
      assert c[i] == Chain(h.log, page.undo)[i - 1] && c[i + 1..] == Chain(h.log, page.undo)[i..];
    }
    hide HeapOk, LogOk, OverSeen, LinkOrdered;
  }

  lemma {:induction false} ChainIsOverSeen(h: Heap, me: nat, seen: set<nat>, usn: nat, i: nat)
    requires WritesOverSeen(h, me, seen) && LogOk(h.log) && (usn == 0 || usn in h.log) && i < |Chain(h.log, usn)|
    ensures OverSeen(h, me, seen, Chain(h.log, usn)[i])
    decreases usn
  {
    var prior := h.log[usn].prior;
    assert LinkOk(h.log, usn, prior);
    if i > 0 { ChainIsOverSeen(h, me, seen, prior.undo, i - 1); }
  }
}
