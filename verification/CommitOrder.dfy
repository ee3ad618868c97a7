/**
 Versions of a slot lie in commit order, and no committed write is ever lost from
 them, so what a snapshot reads is the last commit it sees.
 */
module CommitOrder {
  import opened Wrappers
  import opened Registry
  import opened Snapshots
  import opened HeapVersions
  import opened Database
  import opened DatabaseInvariant
  import opened DatabaseSteps
  import opened DatabaseTheorems

  // ---- One link ------------------------------------------------------------------

  ghost predicate CommittedAt(r: Tables, x: nat) {
    x in r.history && IsNormal(r.history[x])
  }

  /**
   Version v covers p: the same transaction wrote both, or p's had committed before v's took its
   CSN, if it has one.
   */
  ghost predicate Covers(r: Tables, v: Version, p: Version) {
    p.xid == v.xid ||
    (CommittedAt(r, p.xid) && (AssignedCsn(r, v.xid) != 0 ==> r.history[p.xid] < AssignedCsn(r, v.xid)))
  }

  /** v and the version its undo record saved. */
  ghost predicate LinkOrdered(h: Heap, r: Tables, v: Version) {
    v.undo != 0 && v.undo in h.log && !h.log[v.undo].DeleteRecord? ==> Covers(r, v, h.log[v.undo].prior)
  }

  ghost predicate Ordered(h: Heap, r: Tables) {
    && (forall t :: 0 <= t < |h.slots| ==> LinkOrdered(h, r, h.slots[t].tuple))
    && (forall u :: u in h.log && !h.log[u].DeleteRecord? ==> LinkOrdered(h, r, h.log[u].prior))
  }

  lemma {:induction false} CoversStays(r: Tables, r': Tables, v: Version, p: Version)
    requires Inv(r) && Evolves(r, r') && Covers(r, v, p)
    ensures Covers(r', v, p)
  {
    if p.xid != v.xid {
      assert MayBecome(r.history[p.xid], r'.history[p.xid]);
      assert EntryOk(r, p.xid);
    }
  }

  lemma {:induction false} OrderedStays(h: Heap, r: Tables, r': Tables)
    requires Inv(r) && Evolves(r, r') && Ordered(h, r)
    ensures Ordered(h, r')
  {
    forall v: Version | LinkOrdered(h, r, v) ensures LinkOrdered(h, r', v) {
      if v.undo != 0 && v.undo in h.log && !h.log[v.undo].DeleteRecord? {
        CoversStays(r, r', v, h.log[v.undo].prior);
      }
    }
    hide LinkOrdered, Evolves, Inv;
  }

  lemma {:induction false} LinkFrame(h: Heap, h': Heap, r: Tables, v: Version)
    requires LinkOrdered(h, r, v) && (v.undo == 0 || v.undo in h.log)
    requires forall u :: u in h.log ==> u in h'.log && h'.log[u] == h.log[u]
    ensures LinkOrdered(h', r, v)
  {}

  lemma {:induction false} ChangedOrdered(h: Heap, h': Heap, r: Tables, x: nat, change: Change)
    requires HeapOk(h, r) && Changed(h, h', Committed(r), x, change) && AssignedCsn(r, x) == 0 && Ordered(h, r)
    ensures Ordered(h', r)
  {
    LogGrows(h, h', r, x, change);
    forall t | 0 <= t < |h.slots| ensures LinkOrdered(h', r, h.slots[t].tuple) {
      assert VersionOk(h, r, t, h.slots[t].tuple);
      LinkFrame(h, h', r, h.slots[t].tuple);
    }
    forall u | u in h.log && !h.log[u].DeleteRecord? ensures LinkOrdered(h', r, h.log[u].prior) {
      assert RecordOk(h, r, u);
      LinkFrame(h, h', r, h.log[u].prior);
    }
    if change.Push? {
      assert Covers(r, h'.slots[change.t].tuple, h.slots[change.t].tuple);
    }
    hide HeapOk, LinkOrdered;
  }

  // ---- Every run ---------------------------------------------------------------------

  lemma {:induction false} StepOrdered(db: Db, v: nat, s: Step)
    requires DbInv(db) && CanStep(db, v, s) && Ordered(db.heap, db.reg)
    ensures DbInv(Take(db, v, s)) && Ordered(Take(db, v, s).heap, Take(db, v, s).reg)
  {
    TakeOk(db, v, s);
    if s.Life? {
      StepInv(db.reg, v, s.action);
      OrderedStays(db.heap, db.reg, Take(db, v, s).reg);
    } else if !LeavesPage(s) {
      var change := WritingTurn(db, v, s);
      ActiveIsNotCommitted(db.reg, v);
      ChangedOrdered(db.heap, Take(db, v, s).heap, db.reg, db.reg.phases[v].xid, change);
    }
  }

  lemma {:induction false} RunOrdered(db: Db, turns: seq<Turn>)
    requires DbInv(db) && CanPlay(db, turns) && Ordered(db.heap, db.reg)
    ensures DbInv(Play(db, turns)) && Ordered(Play(db, turns).heap, Play(db, turns).reg)
    decreases |turns|
  {
    hide DbInv, Ordered, Take, CanStep;
    if turns != [] {
      StepOrdered(db, turns[0].worker, turns[0].step);
      RunOrdered(Take(db, turns[0].worker, turns[0].step), turns[1..]);
    }
  }

  lemma {:induction false} ReachableOrdered(db: Db)
    requires Reachable(db)
    ensures DbInv(db) && Ordered(db.heap, db.reg)
  {
    var workers: nat, turns :| CanPlay(InitialDb(workers), turns) && Play(InitialDb(workers), turns) == db;
    InitialDbInv(workers);
    RunOrdered(InitialDb(workers), turns);
  }

  // ---- The versions of a slot -----------------------------------------------------------

  /** All versions of slot t, newest first: the page tuple and then what its undo records saved. */
  ghost function Versions(h: Heap, r: Tables, t: nat): (c: seq<Version>)
    requires HeapOk(h, r) && t < |h.slots|
  {
    HeapOkLog(h, r);
    assert VersionOk(h, r, t, h.slots[t].tuple);
    VersionsOf(h, t)
  }

  /**
   Below a committed version lie only committed ones, with CSNs that never rise and fall from
   one transaction to another.
   */
  lemma {:induction false} ChainInCommitOrder(h: Heap, r: Tables, v: Version, i: nat)
    requires HeapOk(h, r) && Ordered(h, r) && LogOk(h.log) && LinkOrdered(h, r, v)
    requires (v.undo == 0 || v.undo in h.log) && i < |Chain(h.log, v.undo)| && CommittedAt(r, v.xid)
    ensures var p := Chain(h.log, v.undo)[i];
      CommittedAt(r, p.xid) && r.history[p.xid] <= r.history[v.xid] &&
      (p.xid != v.xid ==> r.history[p.xid] < r.history[v.xid])
    decreases v.undo
  {
    var prior := h.log[v.undo].prior;
    assert LinkOk(h.log, v.undo, prior);
    assert AssignedCsn(r, v.xid) == r.history[v.xid];
    if i > 0 { ChainInCommitOrder(h, r, prior, i - 1); }
  }

  lemma {:induction false} ChainIsOrdered(h: Heap, r: Tables, v: Version, i: nat)
    requires Ordered(h, r) && LogOk(h.log) && (v.undo == 0 || v.undo in h.log) && i < |Chain(h.log, v.undo)|
    ensures LinkOrdered(h, r, Chain(h.log, v.undo)[i])
    decreases v.undo
  {
    var prior := h.log[v.undo].prior;
    assert LinkOk(h.log, v.undo, prior);
    if i > 0 { ChainIsOrdered(h, r, prior, i - 1); }
  }

  /** ChainInCommitOrder from any committed element of the chain on. */
  lemma {:induction false} DeeperInCommitOrder(h: Heap, r: Tables, v: Version, i: nat, j: nat)
    requires HeapOk(h, r) && Ordered(h, r) && LogOk(h.log) && (v.undo == 0 || v.undo in h.log)
    requires i < j < |Chain(h.log, v.undo)| && CommittedAt(r, Chain(h.log, v.undo)[i].xid)
    ensures var c := Chain(h.log, v.undo);
      && CommittedAt(r, c[j].xid) && r.history[c[j].xid] <= r.history[c[i].xid]
      && (c[j].xid != c[i].xid ==> r.history[c[j].xid] < r.history[c[i].xid])
  {
    var c := Chain(h.log, v.undo);
    ChainTail(h.log, v.undo, i);
    ChainIsOrdered(h, r, v, i);
    hide HeapOk, Ordered, LogOk, LinkOrdered;
    assert c[i + 1..][j - i - 1] == c[j];
    ChainInCommitOrder(h, r, c[i], j - i - 1);
  }

  lemma {:induction false} ChainInOrder(h: Heap, r: Tables, v: Version, i: nat, j: nat)
    requires HeapOk(h, r) && Ordered(h, r) && LogOk(h.log) && LinkOrdered(h, r, v)
    requires (v.undo == 0 || v.undo in h.log) && i < j <= |Chain(h.log, v.undo)|
    requires CommittedAt(r, ([v] + Chain(h.log, v.undo))[i].xid)
    ensures var c := [v] + Chain(h.log, v.undo);
      && CommittedAt(r, c[j].xid) && r.history[c[j].xid] <= r.history[c[i].xid]
      && (c[j].xid != c[i].xid ==> r.history[c[j].xid] < r.history[c[i].xid])
  {
    hide HeapOk, Ordered, LogOk, LinkOrdered;
    if i == 0 {
      ChainInCommitOrder(h, r, v, j - 1);
    } else {
      DeeperInCommitOrder(h, r, v, i - 1, j - 1);
    }
  }

  /** Along the versions of any slot the CSNs of committed creators never rise from newer to older. */
  lemma {:induction false} VersionsInCommitOrder(db: Db, t: nat, i: nat, j: nat)
    requires Reachable(db) && t < |db.heap.slots|
    ensures DbInv(db)
    ensures var c := Versions(db.heap, db.reg, t);
      i < j < |c| && CommittedAt(db.reg, c[i].xid) ==>
        && CommittedAt(db.reg, c[j].xid) && db.reg.history[c[j].xid] <= db.reg.history[c[i].xid]
        && (c[j].xid != c[i].xid ==> db.reg.history[c[j].xid] < db.reg.history[c[i].xid])
  {
    ReachableOrdered(db);
    HeapOkLog(db.heap, db.reg);
    var page := db.heap.slots[t].tuple;
    assert VersionOk(db.heap, db.reg, t, page) && LinkOrdered(db.heap, db.reg, page);
    hide Reachable, Inv, WorkOk, LinkOrdered, Ordered, LogOk;
    var c := Versions(db.heap, db.reg, t);
    if i < j < |c| && CommittedAt(db.reg, c[i].xid) {
      ChainInOrder(db.heap, db.reg, page, i, j);
    }
  }

  // ---- No committed write is lost ---------------------------------------------------------

  /** A push adds one version on top of a slot, a pop takes that one off; nothing else happens to a slot's versions. */
  lemma {:induction false} ChangedVersions(h: Heap, h': Heap, r: Tables, x: nat, change: Change, t: nat)
    requires HeapOk(h, r) && Changed(h, h', Committed(r), x, change) && x in r.history && t < |h.slots|
    ensures HeapOk(h', r) && t < |h'.slots|
    ensures var c := Versions(h, r, t); var c' := Versions(h', r, t);
      if change == Push(t) then c' == [h'.slots[t].tuple] + c
      else if change == Pop(t) then c == [h.slots[t].tuple] + c' && h.slots[t].tuple.xid == x
      else c' == c
  {
    ChangedHeapOk(h, h', r, x, change);
    HeapOkLog(h, r);
    HeapOkLog(h', r);
    LogGrows(h, h', r, x, change);
    var page, page' := h.slots[t].tuple, h'.slots[t].tuple;
    assert VersionOk(h, r, t, page) && VersionOk(h', r, t, page');
    ChainExtends(h.log, h'.log, page.undo);
    if change == Push(t) {
      assert Chain(h'.log, page'.undo) == [page] + Chain(h'.log, page.undo);
    } else if change == Pop(t) {
      assert Chain(h.log, page.undo) == [page'] + Chain(h.log, page'.undo);
    }
    hide HeapOk, LogOk;
  }

  lemma {:induction false} StepKeepsVersion(db: Db, v: nat, s: Step, t: nat, u: Version)
    requires DbInv(db) && CanStep(db, v, s) && t < |db.heap.slots| && u in Versions(db.heap, db.reg, t)
    ensures var db' := Take(db, v, s);
      DbInv(db') && t < |db'.heap.slots| && (u in Versions(db'.heap, db'.reg, t) || Doomed(db'.reg, u.xid))
  {
    var db' := Take(db, v, s);
    TakeOk(db, v, s);
    if s.Life? || LeavesPage(s) {
      assert db'.heap == db.heap;
    } else {
      var change := WritingTurn(db, v, s);
      var x := db.reg.phases[v].xid;
      ActiveIsNotCommitted(db.reg, v);
      assert change.Pop? ==> Doomed(db.reg, x) by { assert PhaseOk(db.reg, v); }
      assert db'.reg == db.reg;
      hide DbInv, Take, CanStep, WorkOk, Inv, Doomed;
      ChangedVersions(db.heap, db'.heap, db.reg, x, change, t);
    }
  }

  lemma {:induction false} DoomedRun(db: Db, turns: seq<Turn>, x: nat)
    requires DbInv(db) && CanPlay(db, turns) && Doomed(db.reg, x)
    ensures DbInv(Play(db, turns)) && Doomed(Play(db, turns).reg, x) && !CommittedAt(Play(db, turns).reg, x)
    decreases |turns|
  {
    if turns == [] {
      if db.reg.history[x] != ABORTED { assert PhaseOk(db.reg, db.reg.xidToWorker[x]); }
    } else {
      var v, s := turns[0].worker, turns[0].step;
      TakeOk(db, v, s);
      assert Doomed(Take(db, v, s).reg, x) by {
        if s.Life? { DoomedStays(db.reg, v, s.action, x); }
      }
      hide DbInv, Take, CanStep, Doomed;
      DoomedRun(Take(db, v, s), turns[1..], x);
    }
  }

  /** A version once written stays among the versions of its slot for ever, unless its transaction rolls back. */
  lemma {:induction false} CommittedWritesStay(db: Db, turns: seq<Turn>, t: nat, u: Version)
    requires DbInv(db) && CanPlay(db, turns) && t < |db.heap.slots| && u in Versions(db.heap, db.reg, t)
    requires CommittedAt(Play(db, turns).reg, u.xid)
    ensures var db' := Play(db, turns);
      DbInv(db') && t < |db'.heap.slots| && u in Versions(db'.heap, db'.reg, t)
    decreases |turns|
  {
    hide DbInv, Take, CanStep, Doomed, Versions, CommittedAt;
    if turns != [] {
      var v, s := turns[0].worker, turns[0].step;
      StepKeepsVersion(db, v, s, t, u);
      if Doomed(Take(db, v, s).reg, u.xid) {
        DoomedRun(Take(db, v, s), turns[1..], u.xid);
      } else {
        CommittedWritesStay(Take(db, v, s), turns[1..], t, u);
      }
    }
  }

  // ---- What is read --------------------------------------------------------------------------

  lemma {:induction false} FoundIsVisible(log: map<nat, UndoRecord>, history: map<nat, nat>, me: nat,
                                          snapshot: Snapshot, usn: nat)
    requires LogOk(log) && XidsKnown(log, history) && (usn == 0 || usn in log)
    ensures var c := FindVisible(log, history, me, snapshot, usn);
      c.Found? ==> c.version.xid in history && IsVisible(history, me, snapshot, c.version) == Yes
    decreases usn
  {
    if usn != 0 && !log[usn].DeleteRecord? {
      assert LinkOk(log, usn, log[usn].prior);
      FoundIsVisible(log, history, me, snapshot, log[usn].prior.undo);
    }
  }

  /**
   A read by commit order: the version read from another transaction is the write of
   the one with the greatest CSN below the snapshot among all committed versions of the
   slot, and the last write of that transaction.
   */
  lemma {:induction false} ReadIsTheLastCommit(db: Db, me: nat, snapshot: Snapshot, t: nat, j: nat)
    requires Reachable(db) && t < |db.heap.slots|
    ensures DbInv(db)
    ensures var c := Versions(db.heap, db.reg, t); var read := ReadNow(db, me, snapshot, t);
      read.Found? && read.version.xid != me ==>
        var v := read.version;
        && v in c && CommittedAt(db.reg, v.xid) && db.reg.history[v.xid] < snapshot.csn
        && (j < |c| && c[j].xid != me && CommittedAt(db.reg, c[j].xid) && db.reg.history[c[j].xid] < snapshot.csn ==>
              && db.reg.history[c[j].xid] <= db.reg.history[v.xid]
              && (db.reg.history[c[j].xid] == db.reg.history[v.xid] ==> c[j].xid == v.xid && v in c[..j + 1]))
  {
    ReachableOrdered(db);
    HeapOkLog(db.heap, db.reg);
    var h := db.heap;
    var page := h.slots[t].tuple;
    assert VersionOk(h, db.reg, t, page);
    var read := ReadNow(db, me, snapshot, t);
    if read.Found? && read.version.xid != me {
      var v := read.version;
      FoundIsVisible(h.log, db.reg.history, me, snapshot, page.undo);
      assert EntryOk(db.reg, v.xid);
      ReadNowIsPick(db, me, snapshot, t);
      var seen := Seen(db.reg, snapshot.csn);
      var i := ChoiceIsNewestInView(h, seen, me, snapshot.commandId, t);
      var c := Versions(h, db.reg, t);
      if j < |c| && c[j].xid != me && CommittedAt(db.reg, c[j].xid) && db.reg.history[c[j].xid] < snapshot.csn {
        assert InView(seen, me, snapshot.commandId, c[j]);
        assert i <= j && c[..j + 1][i] == v;
        VersionsInCommitOrder(db, t, i, j);
      }
    }
  }
}
