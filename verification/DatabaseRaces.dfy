/**
 The write the code makes after a wait without testing the page XID again: what it
 does to rollbacks, to the versions of the slot, and to what every reader reads.
 */
module DatabaseRaces {
  import opened Wrappers
  import opened Registry
  import opened Snapshots
  import opened Waiting
  import opened HeapVersions
  import opened Database
  import opened DatabaseInvariant
  import opened DatabaseSteps
  import opened DatabaseTheorems
  import opened CommitOrder
  import opened WriteConflicts

  // ---- The write after the wait ---------------------------------------------------

  /** The page after w has updated or deleted the tuple of the slot it holds without testing the page XID. */
  function UntestedWrite(db: Db, w: nat, s: Step): Heap
    requires IsRunning(db, w) && db.work[w].act.Got? && db.work[w].act.t < |db.heap.slots| && (s.Update? || s.Remove?)
  {
    if s.Update? then UpdateSlot(db.heap, db.reg.phases[w].xid, db.work[w].act.t, db.work[w].act.v, s.data, s.bytes)
    else DeleteSlot(db.heap, db.reg.phases[w].xid, db.work[w].act.t, s.bytes)
  }

  /** With the test passed it is the write of the system. */
  lemma {:induction false} TestedWriteIsTheStep(db: Db, w: nat, s: Step)
    requires CanStep(db, w, s) && (s.Update? || s.Remove?)
    ensures UntestedWrite(db, w, s) == Take(db, w, s).heap
  {}

  lemma {:induction false} WalkGoesDown(log: map<nat, UndoRecord>, seen: set<nat>, me: nat, commandId: nat, usn: nat)
    requires LogOk(log) && (usn == 0 || usn in log)
    ensures var v := Walk(log, seen, me, commandId, usn);
      v.Some? ==> usn != 0 && v.value.undo < usn && (v.value.undo == 0 || v.value.undo in log)
    decreases usn
  {
    if usn != 0 && !log[usn].DeleteRecord? {
      assert LinkOk(log, usn, log[usn].prior);
      WalkGoesDown(log, seen, me, commandId, log[usn].prior.undo);
    }
  }

  /** A version held is the page tuple, or lies below it. */
  lemma {:induction false} HeldVersion(db: Db, w: nat)
    requires Reachable(db) && IsRunning(db, w) && db.work[w].act.Got?
    ensures DbInv(db) && LogOk(db.heap.log)
    ensures var g := db.work[w].act;
      g.t < |db.heap.slots| &&
      var page := db.heap.slots[g.t].tuple;
      && VersionOk(db.heap, db.reg, g.t, page)
      && (g.v == page ||
          (page.undo != 0 && page.xid != db.reg.phases[w].xid && g.v.undo < page.undo &&
            (g.v.undo == 0 || g.v.undo in db.heap.log)))
  {
    ReachableInv(db);
    assert WorkOk(db, w) && ActOk(db, w);
    HeapOkLog(db.heap, db.reg);
    var g := db.work[w].act;
    assert Held(db, w, g.t, g.v);
    HeldOwn(db, w, g.t, g.v);
    var page := db.heap.slots[g.t].tuple;
    assert VersionOk(db.heap, db.reg, g.t, page);
    var s := db.work[w].snapshot.value;
    WalkGoesDown(db.heap.log, Seen(db.reg, s.csn), db.reg.phases[w].xid, s.commandId, page.undo);
  }

  /**
   The test the code leaves out is exact: the page still holds the scanned version if and only
   if its XID is the scanned one.
   */
  lemma {:induction false} SameXidIsSameVersion(db: Db, w: nat)
    requires Reachable(db) && IsRunning(db, w) && db.work[w].act.Got?
    ensures var g := db.work[w].act;
      g.t < |db.heap.slots| && (db.heap.slots[g.t].tuple == g.v <==> db.heap.slots[g.t].tuple.xid == g.v.xid)
  {
    HeldVersion(db, w);
    if GuardHolds(db, w) { NoLostUpdate(db, w); }
  }

  /**
   Without the test, whoever wrote the page last can no longer undo that write: an
   update's undo fails with its error, a delete's undo silently does nothing.
   */
  lemma {:induction false} UntestedWriteBreaksUndo(db: Db, w: nat, s: Step)
    requires (s.Update? || s.Remove?) && Reachable(db) && IsRunning(db, w) && db.work[w].act.Got? && !GuardHolds(db, w)
    ensures var g := db.work[w].act;
      g.t < |db.heap.slots| &&
      var u := db.heap.slots[g.t].tuple.undo; var h' := UntestedWrite(db, w, s);
      && u in db.heap.log && u in h'.log && !db.heap.log[u].DeleteRecord? && h'.log[u] == db.heap.log[u] &&
        h'.log[u].at == g.t
      && ApplyUndo(h', u) ==
           (if db.heap.log[u].UpdateRecord? then Err("can not undo update: tuple was concurrently modified")
            else Ok(h'))
  {
    HeldVersion(db, w);
    NewUsn(db.heap, db.reg);
  }

  /** An undoable transaction owns the page tuple of every slot it has an update or delete record for. */
  lemma {:induction false} UndoableOwns(slots: seq<Slot>, log: map<nat, UndoRecord>, committed: set<nat>, x: nat,
                                        usns: seq<nat>, u: nat, t: nat)
    requires Undoable(slots, log, committed, x, usns) && u in usns && t < |slots|
    requires u in log && !log[u].DeleteRecord? && log[u].at == t
    ensures slots[t].tuple.xid == x
    decreases |usns|
  {
    var last := usns[|usns| - 1];
    var rest := usns[..|usns| - 1];
    assert usns == rest + [last];
    if last != u {
      if log[last].DeleteRecord? {
        UndoableOwns(slots, log, committed, x, rest, u, t);
      } else if log[last].at != t {
        UndoableOwns(slots[log[last].at := slots[log[last].at].(tuple := log[last].prior)], log, committed, x, rest,
                     u, t);
      }
    }
  }

  /**
   Another open transaction survives the untested write, able to roll back, if and only if the
   page was not its own.
   */
  lemma {:induction false} UntestedWriteRollback(db: Db, w: nat, z: nat, s: Step)
    requires (s.Update? || s.Remove?) && Reachable(db) && IsRunning(db, w) && db.work[w].act.Got? &&
      InTransaction(db, z) && z != w
    ensures var g := db.work[w].act; var y := db.reg.phases[z].xid;
      g.t < |db.heap.slots| &&
      var h' := UntestedWrite(db, w, s);
      Undoable(h'.slots, h'.log, Committed(db.reg), y, db.work[z].undo) <==> db.heap.slots[g.t].tuple.xid != y
  {
    HeldVersion(db, w);
    NewUsn(db.heap, db.reg);
    OtherXid(db.reg, z, w);
    ActiveIsNotCommitted(db.reg, z);
    assert WorkOk(db, z) && WorkOk(db, w) && ActOk(db, w);
    var g := db.work[w].act;
    var h' := UntestedWrite(db, w, s);
    var y := db.reg.phases[z].xid;
    var c := Committed(db.reg);
    var undo := db.work[z].undo;
    var page := db.heap.slots[g.t].tuple;
    hide DbInv, Reachable, WorkOk, ActOk, HeapOk, LogOk;
    if page.xid != y {
      UndoableExtends(db.heap.slots, db.heap.log, h'.log, c, c, y, undo);
      UndoableFrame(db.heap.slots, h'.log, c, y, undo, g.t, h'.slots[g.t].tuple);
    } else {
      assert g.v != page by { HeldIsNotOpen(db, w, z); }
      OwnPagesListed(db.heap.slots, db.heap.log, c, y, undo, g.t);
      assert h'.slots[g.t].tuple.xid != y;
      if Undoable(h'.slots, h'.log, c, y, undo) {
        UndoableOwns(h'.slots, h'.log, c, y, undo, page.undo, g.t);
      }
    }
  }

  /** A version held was not written by another open transaction. */
  lemma {:induction false} HeldIsNotOpen(db: Db, w: nat, z: nat)
    requires Reachable(db) && IsRunning(db, w) && db.work[w].act.Got? && InTransaction(db, z) && z != w
    ensures db.work[w].act.v.xid != db.reg.phases[z].xid
  {
    ReachableInv(db);
    assert WorkOk(db, w) && ActOk(db, w);
    OtherXid(db.reg, z, w);
    ActiveIsNotCommitted(db.reg, z);
  }

  // ---- What the untested write does to the versions ------------------------------------

  /** A version held is one of the slot's versions; it is the newest exactly when the test would pass. */
  lemma {:induction false} HeldIsAVersion(db: Db, w: nat) returns (k: nat)
    requires Reachable(db) && IsRunning(db, w) && db.work[w].act.Got?
    ensures DbInv(db) && LogOk(db.heap.log)
    ensures var g := db.work[w].act;
      g.t < |db.heap.slots| && db.heap.slots[g.t].state == Normal &&
      var page := db.heap.slots[g.t].tuple;
      && VersionOk(db.heap, db.reg, g.t, page)
      && (var c := VersionsOf(db.heap, g.t);
          k < |c| && c[k] == g.v && (k == 0 <==> page.xid == g.v.xid))
  {
    HeldVersion(db, w);
    SameXidIsSameVersion(db, w);
    var g := db.work[w].act;
    assert WorkOk(db, w) && ActOk(db, w) && Held(db, w, g.t, g.v);
    var s := db.work[w].snapshot.value;
    k := ChoiceIsNewestInView(db.heap, Seen(db.reg, s.csn), db.reg.phases[w].xid, s.commandId, g.t);
    if k > 0 { VersionsFall(db.heap, g.t, 0, k); }
  }

  lemma {:induction false} UpdateCoversVersion(h: Heap, me: nat, t: nat, v: Version, data: Payload, bytes: nat, k: nat)
    requires t < |h.slots| && h.size + 1 !in h.log
    requires h.slots[t].tuple.undo == 0 || h.slots[t].tuple.undo in h.log
    requires var h' := UpdateSlot(h, me, t, v, data, bytes); LogOk(h.log) && LogOk(h'.log)
    requires k < |VersionsOf(h, t)| && VersionsOf(h, t)[k] == v
    ensures var h' := UpdateSlot(h, me, t, v, data, bytes);
      VersionsOf(h', t) == [h'.slots[t].tuple] + VersionsOf(h, t)[k..]
  {
    var h' := UpdateSlot(h, me, t, v, data, bytes);
    var page := h.slots[t].tuple;
    if k > 0 { ChainTail(h.log, page.undo, k - 1); }
    assert VersionsOf(h, t)[k..] == [v] + Chain(h.log, v.undo);
    hide LogOk;
    ChainExtends(h.log, h'.log, v.undo);
  }

  lemma {:induction false} DeleteCoversPage(h: Heap, me: nat, t: nat, bytes: nat)
    requires t < |h.slots| && h.size + 1 !in h.log
    requires h.slots[t].tuple.undo == 0 || h.slots[t].tuple.undo in h.log
    requires var h' := DeleteSlot(h, me, t, bytes); LogOk(h.log) && LogOk(h'.log)
    ensures var h' := DeleteSlot(h, me, t, bytes); VersionsOf(h', t) == [h'.slots[t].tuple] + VersionsOf(h, t)
  {
    ChainExtends(h.log, DeleteSlot(h, me, t, bytes).log, h.slots[t].tuple.undo);
  }

  /** The log after the write is as good as before. */
  lemma {:induction false} UntestedLog(db: Db, w: nat, s: Step)
    requires (s.Update? || s.Remove?) && Reachable(db) && IsRunning(db, w) && db.work[w].act.Got?
    requires DbInv(db) && LogOk(db.heap.log) && db.work[w].act.t < |db.heap.slots|
    ensures var g := db.work[w].act; var h' := UntestedWrite(db, w, s);
      && LogOk(h'.log) && XidsKnown(h'.log, db.reg.history)
      && (g.v.undo == 0 || g.v.undo in db.heap.log)
      && (forall u :: u in db.heap.log ==> u in h'.log && h'.log[u] == db.heap.log[u])
  {
    HeldVersion(db, w);
    HeapOkLog(db.heap, db.reg);
    NewUsn(db.heap, db.reg);
    var g := db.work[w].act;
    var h := db.heap;
    var page := h.slots[g.t].tuple;
    assert WorkOk(db, w) && ActOk(db, w) && Held(db, w, g.t, g.v);
    ActiveIsNotCommitted(db.reg, w);
    assert page.undo in h.log ==> RecordOk(h, db.reg, page.undo);
    hide DbInv, Reachable, WorkOk, ActOk, HeapOk;
  }

  /** The new version goes on top of the scanned one after an update, on top of all after a delete. */
  lemma {:induction false} UntestedWriteVersions(db: Db, w: nat, s: Step, k: nat)
    requires (s.Update? || s.Remove?) && Reachable(db) && IsRunning(db, w) && db.work[w].act.Got?
    ensures DbInv(db) && LogOk(db.heap.log)
    ensures var g := db.work[w].act;
      g.t < |db.heap.slots| && VersionOk(db.heap, db.reg, g.t, db.heap.slots[g.t].tuple) &&
      var h' := UntestedWrite(db, w, s); var top := h'.slots[g.t].tuple;
      && LogOk(h'.log) && top.undo in h'.log && XidsKnown(h'.log, db.reg.history)
      && (var c := VersionsOf(db.heap, g.t);
          k < |c| && c[k] == g.v ==> VersionsOf(h', g.t) == [top] + (if s.Update? then c[k..] else c))
  {
    HeldVersion(db, w);
    NewUsn(db.heap, db.reg);
    UntestedLog(db, w, s);
    var g := db.work[w].act;
    var c := VersionsOf(db.heap, g.t);
    hide Reachable, DbInv, HeapOk, LogOk, LinkOk;
    if k < |c| && c[k] == g.v {
      if s.Update? {
        UpdateCoversVersion(db.heap, db.reg.phases[w].xid, g.t, g.v, s.data, s.bytes, k);
      } else {
        DeleteCoversPage(db.heap, db.reg.phases[w].xid, g.t, s.bytes);
      }
    }
  }

  /**
   Which versions an untested write loses: an update exactly those above the scanned one,
   a delete none.
   */
  lemma {:induction false} UntestedWriteLoses(db: Db, w: nat, s: Step, k: nat, j: nat)
    requires (s.Update? || s.Remove?) && Reachable(db) && IsRunning(db, w) && db.work[w].act.Got?
    ensures DbInv(db) && LogOk(db.heap.log)
    ensures var g := db.work[w].act;
      g.t < |db.heap.slots| &&
      var h' := UntestedWrite(db, w, s); var top := h'.slots[g.t].tuple;
      && VersionOk(db.heap, db.reg, g.t, db.heap.slots[g.t].tuple) && LogOk(h'.log) && top.undo in h'.log
      && (var c := VersionsOf(db.heap, g.t);
          k < |c| && c[k] == g.v && j < |c| ==>
            (c[j] in VersionsOf(h', g.t) <==> s.Remove? || k <= j))
  {
    UntestedWriteVersions(db, w, s, k);
    var g := db.work[w].act;
    var h := db.heap;
    var c := VersionsOf(h, g.t);
    hide Reachable, DbInv, HeapOk, VersionOk, LogOk;
    if k < |c| && c[k] == g.v && j < |c| {
      if j > 0 { VersionsFall(h, g.t, 0, j); }
      if k <= j {
        assert c[j] == c[k..][j - k];
      } else if s.Update? {
        forall i | k <= i < |c| ensures c[i] != c[j] { VersionsFall(h, g.t, j, i); }
      }
    }
  }

  // ---- What the untested write does to reads --------------------------------------------

  /** The version on top is in nobody's view: not the writer's in this statement, nor anybody else's. */
  lemma {:induction false} UntestedWriteIsUnseen(db: Db, w: nat, s: Step, z: nat)
    requires (s.Update? || s.Remove?) && Reachable(db) && IsRunning(db, w) && db.work[w].act.Got?
    requires IsRunning(db, z) && db.work[z].snapshot.Some? && db.work[w].act.t < |db.heap.slots|
    ensures var snap := db.work[z].snapshot.value;
      !InView(Seen(db.reg, snap.csn), db.reg.phases[z].xid, snap.commandId,
              UntestedWrite(db, w, s).slots[db.work[w].act.t].tuple)
  {
    ReachableInv(db);
    ActiveIsNotCommitted(db.reg, w);
    assert WorkOk(db, w);
    if z != w { OtherXid(db.reg, z, w); }
  }

  /** Where a deleted page tuple is in view, so is everything below it. */
  lemma {:induction false} BelowInView(db: Db, z: nat, t: nat, k: nat)
    requires Reachable(db) && IsRunning(db, z) && db.work[z].snapshot.Some? && t < |db.heap.slots|
    ensures DbInv(db)
    ensures var c := Versions(db.heap, db.reg, t); var snap := db.work[z].snapshot.value;
      var seen := Seen(db.reg, snap.csn); var me := db.reg.phases[z].xid;
      k < |c| && InView(seen, me, snap.commandId, c[0]) ==> InView(seen, me, snap.commandId, c[k])
  {
    ReachableInv(db);
    HeapOkLog(db.heap, db.reg);
    var c := Versions(db.heap, db.reg, t);
    var snap := db.work[z].snapshot.value;
    var me := db.reg.phases[z].xid;
    if 0 < k < |c| && InView(Seen(db.reg, snap.csn), me, snap.commandId, c[0]) {
      assert VersionOk(db.heap, db.reg, t, c[0]);
      VersionsFall(db.heap, t, 0, k);
      FirstUpdaterWins(db, z, t, 0, k);
      if c[0].xid != me {
        SeenBelow(db, t, snap.csn, k);
        ActiveIsNotCommitted(db.reg, z);
      }
    }
  }

  /** A seen page tuple lies over seen ones: their transactions had committed before its own. */
  lemma {:induction false} SeenBelow(db: Db, t: nat, csn: nat, k: nat)
    requires Reachable(db) && t < |db.heap.slots|
    ensures DbInv(db)
    ensures var c := Versions(db.heap, db.reg, t);
      0 < k < |c| && c[0].xid in Seen(db.reg, csn) && c[k].xid != c[0].xid ==>
        CommittedAt(db.reg, c[k].xid) && c[k].xid in Seen(db.reg, csn)
  {
    ReachableOrdered(db);
    HeapOkLog(db.heap, db.reg);
    var page := db.heap.slots[t].tuple;
    assert VersionOk(db.heap, db.reg, t, page) && LinkOrdered(db.heap, db.reg, page);
    var c := Versions(db.heap, db.reg, t);
    if 0 < k < |c| && page.xid in Seen(db.reg, csn) && c[k].xid != page.xid {
      ChainUnderCsn(db.heap, db.reg, page, AssignedCsn(db.reg, page.xid), k - 1);
    }
  }

  /** Below a version whose CSN is fixed lie its transaction's others and ones committed with smaller CSNs. */
  lemma {:induction false} ChainUnderCsn(h: Heap, r: Tables, v: Version, csn: nat, i: nat)
    requires HeapOk(h, r) && Ordered(h, r) && LogOk(h.log) && LinkOrdered(h, r, v)
    requires AssignedCsn(r, v.xid) == csn != 0
    requires (v.undo == 0 || v.undo in h.log) && i < |Chain(h.log, v.undo)|
    ensures var p := Chain(h.log, v.undo)[i];
      p.xid == v.xid || (CommittedAt(r, p.xid) && r.history[p.xid] < csn)
    decreases v.undo
  {
    var prior := h.log[v.undo].prior;
    assert LinkOk(h.log, v.undo, prior);
    if i > 0 { ChainUnderCsn(h, r, prior, AssignedCsn(r, prior.xid), i - 1); }
  }

  /** A version that is not in view, put over version k, changes a choice exactly if it hides one that was in view. */
  lemma {:induction false} CoverChangesChoice(h: Heap, h': Heap, seen: set<nat>, me: nat, commandId: nat, t: nat,
                                              k: nat)
    requires LogOk(h.log) && t < |h.slots| && (h.slots[t].tuple.undo == 0 || h.slots[t].tuple.undo in h.log)
    requires LogOk(h'.log) && t < |h'.slots| && (h'.slots[t].tuple.undo == 0 || h'.slots[t].tuple.undo in h'.log)
    requires h.slots[t].state == Normal && h'.slots[t].state == Normal && k < |VersionsOf(h, t)|
    requires var c := VersionsOf(h, t); var top := h'.slots[t].tuple;
      && VersionsOf(h', t) == [top] + c[k..] && !InView(seen, me, commandId, top)
      && (c[0].deleted ==> k > 0 && (InView(seen, me, commandId, c[0]) ==> InView(seen, me, commandId, c[k])))
    ensures Choose(h', seen, me, commandId, t) == Choose(h, seen, me, commandId, t) <==>
      forall j :: 0 <= j < k ==> !InView(seen, me, commandId, VersionsOf(h, t)[j])
  {
    var c, c' := VersionsOf(h, t), VersionsOf(h', t);
    var i := ChoiceIsNewestInView(h, seen, me, commandId, t);
    var i' := ChoiceIsNewestInView(h', seen, me, commandId, t);
    hide LogOk, Choose, InView, VersionsOf;
    assert c'[1] == c[k];
    if i < k {
      if 1 < i' < |c'| {
        assert c'[i'] == c[k + i' - 1];
        VersionsFall(h, t, i, k + i' - 1);
      } else if i' == 1 {
        VersionsFall(h, t, i, k);
      }
    } else {
      if i < |c| { assert c'[1 + i - k] == c[i]; }
      if 1 <= i' < |c'| { assert c'[i'] == c[k + i' - 1]; }
    }
  }

  /**
   The exact condition under which a read survives an untested update: for every running
   worker, the writer among them, what its snapshot picks for the slot is unchanged if and
   only if no version above the scanned one is in its view.
   */
  lemma {:induction false} UntestedUpdateReads(db: Db, w: nat, s: Step, z: nat, k: nat)
    requires s.Update? && Reachable(db) && IsRunning(db, w) && db.work[w].act.Got?
    requires IsRunning(db, z) && db.work[z].snapshot.Some?
    ensures DbInv(db) && LogOk(db.heap.log)
    ensures var t := db.work[w].act.t;
      t < |db.heap.slots| && VersionOk(db.heap, db.reg, t, db.heap.slots[t].tuple) &&
      var h' := UntestedWrite(db, w, s);
      var snap := db.work[z].snapshot.value;
      var me := db.reg.phases[z].xid;
      var seen := Seen(db.reg, snap.csn);
      var c := VersionsOf(db.heap, t);
      && LogOk(h'.log) && h'.slots[t].tuple.undo in h'.log
      && (k < |c| && c[k] == db.work[w].act.v ==>
            (Choose(h', seen, me, snap.commandId, t) == Choose(db.heap, seen, me, snap.commandId, t) <==>
              forall j :: 0 <= j < k ==> !InView(seen, me, snap.commandId, c[j])))
  {
    UntestedWriteVersions(db, w, s, k);
    UntestedWriteIsUnseen(db, w, s, z);
    OnlyCommittedIsRead(db, w);
    var _ := HeldIsAVersion(db, w);
    var t := db.work[w].act.t;
    var snap := db.work[z].snapshot.value;
    var c := VersionsOf(db.heap, t);
    if k < |c| && c[k] == db.work[w].act.v {
      BelowInView(db, z, t, k);
      assert Versions(db.heap, db.reg, t) == c;
      hide Reachable, DbInv, HeapOk, VersionOk, LogOk, Choose, InView, VersionsOf;
      CoverChangesChoice(db.heap, UntestedWrite(db, w, s), Seen(db.reg, snap.csn), db.reg.phases[z].xid,
                         snap.commandId, t, k);
    }
  }

  /**
   The same for a delete: a read changes if and only if it found the slot deleted, and then
   it finds the deleted tuple, because undo records do not show that.
   */
  lemma {:induction false} UntestedDeleteReads(db: Db, w: nat, s: Step, z: nat)
    requires s.Remove? && Reachable(db) && IsRunning(db, w) && db.work[w].act.Got?
    requires IsRunning(db, z) && db.work[z].snapshot.Some?
    ensures DbInv(db) && LogOk(db.heap.log)
    ensures var t := db.work[w].act.t;
      t < |db.heap.slots| && VersionOk(db.heap, db.reg, t, db.heap.slots[t].tuple) &&
      var h' := UntestedWrite(db, w, s);
      var snap := db.work[z].snapshot.value;
      var me := db.reg.phases[z].xid;
      var seen := Seen(db.reg, snap.csn);
      var page := db.heap.slots[t].tuple;
      LogOk(h'.log) && h'.slots[t].tuple.undo in h'.log &&
      var before, after := Choose(db.heap, seen, me, snap.commandId, t), Choose(h', seen, me, snap.commandId, t);
      if page.deleted && InView(seen, me, snap.commandId, page) then before == None && after == Some(page)
      else after == before
  {
    var k := HeldIsAVersion(db, w);
    UntestedWriteIsUnseen(db, w, s, z);
    UntestedWriteVersions(db, w, s, k);
    var t := db.work[w].act.t;
    var snap := db.work[z].snapshot.value;
    var h, h' := db.heap, UntestedWrite(db, w, s);
    var seen, me := Seen(db.reg, snap.csn), db.reg.phases[z].xid;
    hide Reachable, DbInv, HeapOk, VersionOk, LogOk, Choose, InView, VersionsOf;
    DeleteShowsPage(h, h', seen, me, snap.commandId, t);
  }

  /** Both in terms of what the code's per-slot choice answers, whenever it need not wait. */
  lemma {:induction false} UntestedWriteReads(db: Db, w: nat, s: Step, z: nat, k: nat)
    requires (s.Update? || s.Remove?) && Reachable(db) && IsRunning(db, w) && db.work[w].act.Got?
    requires IsRunning(db, z) && db.work[z].snapshot.Some?
    ensures DbInv(db) && LogOk(db.heap.log)
    ensures var t := db.work[w].act.t;
      t < |db.heap.slots| && VersionOk(db.heap, db.reg, t, db.heap.slots[t].tuple) &&
      var h' := UntestedWrite(db, w, s);
      var snap := db.work[z].snapshot.value;
      var me := db.reg.phases[z].xid;
      var seen := Seen(db.reg, snap.csn);
      var c := VersionsOf(db.heap, t);
      LogOk(h'.log) && XidsKnown(h'.log, db.reg.history) && h'.slots[t].tuple.undo in h'.log &&
      h'.slots[t].tuple.xid in db.reg.history &&
      var before, after := ReadNow(db, me, snap, t), ChooseNow(h', db.reg.history, me, snap, t);
      k < |c| && c[k] == db.work[w].act.v && before != Blocked && after != Blocked ==>
        (after == before <==>
          if s.Update? then forall j :: 0 <= j < k ==> !InView(seen, me, snap.commandId, c[j])
          else !(c[0].deleted && InView(seen, me, snap.commandId, c[0])))
  {
    UntestedWriteVersions(db, w, s, k);
    ActiveIsNotCommitted(db.reg, w);
    if s.Update? { UntestedUpdateReads(db, w, s, z, k); } else { UntestedDeleteReads(db, w, s, z); }
    var t := db.work[w].act.t;
    var snap := db.work[z].snapshot.value;
    var me := db.reg.phases[z].xid;
    var h' := UntestedWrite(db, w, s);
    hide Reachable, HeapOk, Choose, InView, ReadNow, ChooseNow;
    if ReadNow(db, me, snap, t) != Blocked { ReadNowIsPick(db, me, snap, t); }
    if ChooseNow(h', db.reg.history, me, snap, t) != Blocked { ChooseNowIsChoose(db.reg, h', me, snap, t); }
  }

  lemma {:induction false} DeleteShowsPage(h: Heap, h': Heap, seen: set<nat>, me: nat, commandId: nat, t: nat)
    requires LogOk(h.log) && t < |h.slots| && (h.slots[t].tuple.undo == 0 || h.slots[t].tuple.undo in h.log)
    requires LogOk(h'.log) && t < |h'.slots| && (h'.slots[t].tuple.undo == 0 || h'.slots[t].tuple.undo in h'.log)
    requires h.slots[t].state == Normal && h'.slots[t].state == Normal
    requires VersionsOf(h', t) == [h'.slots[t].tuple] + VersionsOf(h, t)
    requires !InView(seen, me, commandId, h'.slots[t].tuple)
    ensures var page := h.slots[t].tuple;
      if page.deleted && InView(seen, me, commandId, page)
      then Choose(h', seen, me, commandId, t) == Some(page) && Choose(h, seen, me, commandId, t) == None
      else Choose(h', seen, me, commandId, t) == Choose(h, seen, me, commandId, t)
  {
    var c, c' := VersionsOf(h, t), VersionsOf(h', t);
    var i := ChoiceIsNewestInView(h, seen, me, commandId, t);
    var i' := ChoiceIsNewestInView(h', seen, me, commandId, t);
    assert c[0] == h.slots[t].tuple;
    hide LogOk, Choose, InView, VersionsOf;
    if i < |c| { assert c'[1 + i] == c[i]; }
    if 1 <= i' < |c'| { assert c'[i'] == c[i' - 1]; }
  }
}
