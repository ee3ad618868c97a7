/** Every step keeps the invariant: first what the heap may undergo, then the steps. */
module DatabaseSteps {
  import opened Wrappers
  import opened Registry
  import opened Snapshots
  import opened Waiting
  import opened HeapVersions
  import opened Database
  import opened DatabaseInvariant

  // ---- The three ways a step changes the heap ----------------------------

  /** x put a version on top of slot t and logged the tuple it covers. */
  ghost predicate Pushed(h: Heap, h': Heap, committed: set<nat>, x: nat, t: nat) {
    && t < |h.slots| && !h.slots[t].tuple.deleted
    && (h.slots[t].tuple.xid == x || h.slots[t].tuple.xid in committed)
    && |h'.slots| == |h.slots| && h'.slots == h.slots[t := h.slots[t].(tuple := h'.slots[t].tuple)]
    && h'.slots[t].tuple.xid == x && h'.slots[t].tuple.undo == h.size + 1
    && |h'.slots[t].tuple.data| <= h.slots[t].length
    && h.size < h'.size
    && (h'.log == h.log[h.size + 1 := UpdateRecord(t, h.slots[t].tuple)] ||
        h'.log == h.log[h.size + 1 := InsertRecord(t, h.slots[t].tuple)])
  }

  /** x took its version off slot t again. */
  ghost predicate Popped(h: Heap, h': Heap, committed: set<nat>, x: nat, t: nat) {
    && t < |h.slots| && h'.log == h.log && h'.size == h.size
    && h.slots[t].tuple.xid == x
    && h.slots[t].tuple.undo in h.log
    && var record := h.log[h.slots[t].tuple.undo];
       && !record.DeleteRecord? && (record.prior.xid == x || record.prior.xid in committed)
       && h'.slots == h.slots[t := h.slots[t].(tuple := record.prior)]
  }

  /** x added a slot. */
  ghost predicate Grown(h: Heap, h': Heap, x: nat) {
    && h.size < h'.size && h'.log == h.log[h.size + 1 := DeleteRecord(|h.slots|)]
    && |h'.slots| == |h.slots| + 1 && h'.slots == h.slots + [h'.slots[|h.slots|]]
    && (var s := h'.slots[|h.slots|];
        s.state == Normal && s.tuple.xid == x && s.tuple.undo == 0 && !s.tuple.deleted && |s.tuple.data| <= s.length)
  }

  datatype Change = Same | Push(t: nat) | Pop(t: nat) | Grow

  ghost predicate Changed(h: Heap, h': Heap, committed: set<nat>, x: nat, change: Change) {
    match change
    case Same => h' == h
    case Push(t) => Pushed(h, h', committed, x, t)
    case Pop(t) => Popped(h, h', committed, x, t)
    case Grow => Grown(h, h', x)
  }

  lemma {:induction false} NewUsn(h: Heap, r: Tables)
    requires HeapOk(h, r)
    ensures h.size + 1 !in h.log
  {
    assert h.size + 1 in h.log ==> RecordOk(h, r, h.size + 1);
  }

  lemma {:induction false} LogGrows(h: Heap, h': Heap, r: Tables, x: nat, change: Change)
    requires HeapOk(h, r) && Changed(h, h', Committed(r), x, change)
    ensures forall u :: u in h.log ==> u in h'.log && h'.log[u] == h.log[u]
    ensures forall u :: u in h'.log && u !in h.log ==> u == h.size + 1
    ensures |h.slots| <= |h'.slots| && h.size <= h'.size
    ensures forall t :: 0 <= t < |h.slots| ==> h'.slots[t].length == h.slots[t].length
  {
    NewUsn(h, r);
  }

  lemma {:induction false} VersionStaysOk(h: Heap, h': Heap, r: Tables, t: nat, v: Version)
    requires VersionOk(h, r, t, v)
    requires forall u :: u in h.log ==> u in h'.log && h'.log[u] == h.log[u]
    requires |h.slots| <= |h'.slots| && (t < |h.slots| ==> h'.slots[t].length == h.slots[t].length)
    ensures VersionOk(h', r, t, v)
  {}

  lemma {:induction false} ChangedRecordOk(h: Heap, h': Heap, r: Tables, x: nat, change: Change, u: nat)
    requires HeapOk(h, r) && Changed(h, h', Committed(r), x, change) && x in r.history && u in h'.log
    ensures RecordOk(h', r, u)
  {
    LogGrows(h, h', r, x, change);
    if u in h.log {
      assert RecordOk(h, r, u);
      if !h.log[u].DeleteRecord? { VersionStaysOk(h, h', r, h.log[u].at, h.log[u].prior); }
    } else if change.Push? {
      var page := h.slots[change.t].tuple;
      VersionStaysOk(h, h', r, change.t, page);
      if page.undo != 0 { assert RecordOk(h, r, page.undo); }
    }
  }

  lemma {:induction false} ChangedSlotOk(h: Heap, h': Heap, r: Tables, x: nat, change: Change, t: nat)
    requires HeapOk(h, r) && Changed(h, h', Committed(r), x, change) && x in r.history && t < |h'.slots|
    ensures h'.slots[t].state == Normal && VersionOk(h', r, t, h'.slots[t].tuple)
  {
    LogGrows(h, h', r, x, change);
    if t < |h.slots| {
      assert VersionOk(h, r, t, h.slots[t].tuple);
      VersionStaysOk(h, h', r, t, h.slots[t].tuple);
      if change == Pop(t) { assert RecordOk(h, r, h.slots[t].tuple.undo); }
    }
  }

  lemma {:induction false} ChangedHeapOk(h: Heap, h': Heap, r: Tables, x: nat, change: Change)
    requires HeapOk(h, r) && Changed(h, h', Committed(r), x, change) && x in r.history
    ensures HeapOk(h', r)
  {
    forall u | u in h'.log ensures RecordOk(h', r, u) { ChangedRecordOk(h, h', r, x, change, u); }
    forall t | 0 <= t < |h'.slots|
      ensures h'.slots[t].state == Normal && VersionOk(h', r, t, h'.slots[t].tuple)
    {
      ChangedSlotOk(h, h', r, x, change, t);
    }
  }

  /** A snapshot that does not see x picks the same versions before and after x's step. */
  lemma {:induction false} ChangedKeepsChoice(h: Heap, h': Heap, r: Tables, x: nat, change: Change,
                           seen: set<nat>, me: nat, commandId: nat, t: nat)
    requires HeapOk(h, r) && Changed(h, h', Committed(r), x, change) && x in r.history
    requires x != me && x !in seen
    ensures HeapOk(h', r) && LogOk(h.log) && LogOk(h'.log)
    ensures t < |h.slots| ==> VersionOk(h, r, t, h.slots[t].tuple)
    ensures t < |h'.slots| ==> VersionOk(h', r, t, h'.slots[t].tuple)
    ensures Choose(h', seen, me, commandId, t) == Choose(h, seen, me, commandId, t)
  {
    ChangedHeapOk(h, h', r, x, change);
    HeapOkLog(h, r);
    HeapOkLog(h', r);
    LogGrows(h, h', r, x, change);
    if t < |h.slots| {
      var page := h.slots[t].tuple;
      assert VersionOk(h, r, t, page);
      if change == Push(t) {
        UnseenIsTransparent(h, h', seen, me, commandId, t, h'.slots[t].tuple);
      } else if change == Pop(t) {
        assert RecordOk(h, r, page.undo);
        assert h.slots == h'.slots[t := h'.slots[t].(tuple := page)];
        UnseenIsTransparent(h', h, seen, me, commandId, t, page);
      } else {
        WalkExtends(h.log, h'.log, seen, me, commandId, page.undo);
      }
    }
  }

  /** x's step leaves another transaction y able to roll back, and does not touch y's pages. */
  lemma {:induction false} ChangedKeepsRollback(h: Heap, h': Heap, r: Tables, x: nat, change: Change, y: nat,
                                                usns: seq<nat>)
    requires HeapOk(h, r) && Changed(h, h', Committed(r), x, change) && x != y && y !in Committed(r)
    requires Undoable(h.slots, h.log, Committed(r), y, usns)
    ensures Undoable(h'.slots, h'.log, Committed(r), y, usns)
  {
    LogGrows(h, h', r, x, change);
    var c := Committed(r);
    UndoableExtends(h.slots, h.log, h'.log, c, c, y, usns);
    match change
    case Same =>
    case Push(t) => UndoableFrame(h.slots, h'.log, c, y, usns, t, h'.slots[t].tuple);
    case Pop(t) => UndoableFrame(h.slots, h'.log, c, y, usns, t, h'.slots[t].tuple);
    case Grow => UndoableGrows(h.slots, h'.log, c, y, usns, h'.slots[|h.slots|]);
  }

  /** Nobody writes on, or reveals, a page tuple of another open transaction. */
  lemma {:induction false} ChangedKeepsPages(h: Heap, h': Heap, r: Tables, x: nat, change: Change, y: nat, t: nat)
    requires HeapOk(h, r) && Changed(h, h', Committed(r), x, change) && x != y && y !in Committed(r)
    requires t < |h'.slots|
    ensures h'.slots[t].tuple.xid == y ==> t < |h.slots| && h'.slots[t] == h.slots[t]
    ensures t < |h.slots| && h.slots[t].tuple.xid == y ==> h'.slots[t] == h.slots[t]
  {}

  // ---- Bystanders --------------------------------------------------------

  /** A step of worker w that may change the heap but not the registry. */
  ghost predicate HeapStep(db: Db, db': Db, w: nat, change: Change) {
    && w < |db.work| == |db'.work| == |db.reg.phases| && db'.reg == db.reg
    && !db.reg.phases[w].Idle?
    && (forall v :: 0 <= v < |db.work| && v != w ==> db'.work[v] == db.work[v])
    && Changed(db.heap, db'.heap, Committed(db.reg), db.reg.phases[w].xid, change)
  }

  lemma {:induction false} BystanderKeepsPick(db: Db, db': Db, w: nat, change: Change, v: nat, t: nat)
    requires DbInv(db) && HeapStep(db, db', w, change) && v != w && IsRunning(db, v) && db.work[v].snapshot.Some?
    requires db.reg.phases[w].Running? || db.reg.phases[w].RollingBack?
    ensures HeapOk(db'.heap, db'.reg) && IsRunning(db', v)
    ensures Pick(db', v, t) == Pick(db, v, t)
    ensures Untouched(db, v, t) ==> Untouched(db', v, t)
  {
    var x := db.reg.phases[w].xid;
    ActiveIsNotCommitted(db.reg, w);
    ActiveIsNotCommitted(db.reg, v);
    OtherXid(db.reg, v, w);
    var s := db.work[v].snapshot.value;
    ChangedKeepsChoice(db.heap, db'.heap, db.reg, x, change, Seen(db.reg, s.csn), db.reg.phases[v].xid, s.commandId, t);
    if t < |db'.heap.slots| {
      ChangedKeepsPages(db.heap, db'.heap, db.reg, x, change, db.reg.phases[v].xid, t);
    }
  }

  lemma {:induction false} BystanderHeld(db: Db, db': Db, w: nat, change: Change, v: nat, t: nat, u: Version)
    requires DbInv(db) && HeapStep(db, db', w, change) && v != w && IsRunning(db, v) && db.work[v].snapshot.Some?
    requires db.reg.phases[w].Running? || db.reg.phases[w].RollingBack?
    requires Held(db, v, t, u)
    ensures HeapOk(db'.heap, db'.reg) && IsRunning(db', v) && Held(db', v, t, u)
  {
    BystanderKeepsPick(db, db', w, change, v, t);
    ActiveIsNotCommitted(db.reg, v);
    OtherXid(db.reg, v, w);
    LogGrows(db.heap, db'.heap, db.reg, db.reg.phases[w].xid, change);
    ChangedKeepsPages(db.heap, db'.heap, db.reg, db.reg.phases[w].xid, change, db.reg.phases[v].xid, t);
  }

  lemma {:induction false} BystanderActOk(db: Db, db': Db, w: nat, change: Change, v: nat)
    requires DbInv(db) && HeapStep(db, db', w, change) && v != w && IsRunning(db, v) && db.work[v].snapshot.Some?
    requires db.reg.phases[w].Running? || db.reg.phases[w].RollingBack?
    ensures HeapOk(db'.heap, db'.reg) && IsRunning(db', v) && ActOk(db', v)
  {
    var x := db.reg.phases[w].xid;
    ActiveIsNotCommitted(db.reg, w);
    ChangedHeapOk(db.heap, db'.heap, db.reg, x, change);
    assert WorkOk(db, v);
    match db.work[v].act
    case Testing(t, u, top) => BystanderTesting(db, db', w, change, v);
    case Got(t, u) => BystanderHeld(db, db', w, change, v, t, u);
    case Missed(t) =>
      BystanderKeepsPick(db, db', w, change, v, t);
      LogGrows(db.heap, db'.heap, db.reg, x, change);
    case Refused(t, u) => BystanderHeld(db, db', w, change, v, t, u);
    case Awaiting(t, u, target, at) => BystanderHeld(db, db', w, change, v, t, u);
    case _ =>
  }

  lemma {:induction false} BystanderTesting(db: Db, db': Db, w: nat, change: Change, v: nat)
    requires DbInv(db) && HeapStep(db, db', w, change) && v != w && IsRunning(db, v) && db.work[v].snapshot.Some?
    requires db.reg.phases[w].Running? || db.reg.phases[w].RollingBack?
    requires db.work[v].act.Testing? && ActOk(db, v)
    ensures HeapOk(db'.heap, db'.reg) && IsRunning(db', v) && ActOk(db', v)
  {
    var x := db.reg.phases[w].xid;
    var me := db.reg.phases[v].xid;
    var g := db.work[v].act;
    var s := db.work[v].snapshot.value;
    BystanderKeepsPick(db, db', w, change, v, g.t);
    ActiveIsNotCommitted(db.reg, v);
    OtherXid(db.reg, v, w);
    HeapOkLog(db.heap, db.reg);
    HeapOkLog(db'.heap, db'.reg);
    LogGrows(db.heap, db'.heap, db.reg, x, change);
    VersionStaysOk(db.heap, db'.heap, db.reg, g.t, g.v);
    ChangedKeepsPages(db.heap, db'.heap, db.reg, x, change, me, g.t);
    WalkExtends(db.heap.log, db'.heap.log, Seen(db.reg, s.csn), me, s.commandId, g.v.undo);
  }

  lemma {:induction false} BystanderCanRollBack(db: Db, db': Db, w: nat, change: Change, v: nat)
    requires DbInv(db) && HeapStep(db, db', w, change) && v != w && v < |db.work|
    requires db.reg.phases[w].Running? || db.reg.phases[w].RollingBack?
    requires db.reg.phases[v].Running? || db.reg.phases[v].RollingBack?
    ensures CanRollBack(db', v)
  {
    assert WorkOk(db, v);
    ActiveIsNotCommitted(db.reg, w);
    ActiveIsNotCommitted(db.reg, v);
    OtherXid(db.reg, v, w);
    hide Inv, HeapOk, DbInv, Undoable;
    ChangedKeepsRollback(db.heap, db'.heap, db.reg, db.reg.phases[w].xid, change,
                         db.reg.phases[v].xid, db.work[v].undo);
  }

  lemma {:induction false} BystanderUntouched(db: Db, db': Db, w: nat, change: Change, v: nat)
    requires DbInv(db) && HeapStep(db, db', w, change) && v != w && IsRunning(db, v) && db.work[v].snapshot.Some?
    requires db.reg.phases[w].Running? || db.reg.phases[w].RollingBack?
    ensures forall t :: db'.work[v].cursor <= t < |db'.heap.slots| ==> Untouched(db', v, t)
  {
    var x := db.reg.phases[w].xid;
    assert WorkOk(db, v);
    ActiveIsNotCommitted(db.reg, v);
    OtherXid(db.reg, v, w);
    forall t | db'.work[v].cursor <= t < |db'.heap.slots| ensures Untouched(db', v, t) {
      ChangedKeepsPages(db.heap, db'.heap, db.reg, x, change, db.reg.phases[v].xid, t);
      assert t < |db.heap.slots| ==> Untouched(db, v, t);
    }
  }

  lemma {:induction false} BystanderRecordsOk(db: Db, db': Db, w: nat, change: Change, v: nat)
    requires DbInv(db) && HeapStep(db, db', w, change) && v != w && IsRunning(db, v)
    requires db.reg.phases[w].Running? || db.reg.phases[w].RollingBack?
    ensures RecordsOk(db', v)
  {
    assert WorkOk(db, v);
    ActiveIsNotCommitted(db.reg, w);
    LogGrows(db.heap, db'.heap, db.reg, db.reg.phases[w].xid, change);
  }

  lemma {:induction false} BystanderOk(db: Db, db': Db, w: nat, change: Change, v: nat)
    requires DbInv(db) && HeapStep(db, db', w, change) && v != w && v < |db.work|
    requires db.reg.phases[w].Running? || db.reg.phases[w].RollingBack?
    ensures HeapOk(db'.heap, db'.reg) && WorkOk(db', v)
  {
    ActiveIsNotCommitted(db.reg, w);
    ChangedHeapOk(db.heap, db'.heap, db.reg, db.reg.phases[w].xid, change);
    hide Inv, HeapOk, DbInv, RecordsOk, CanRollBack, ActOk, Untouched, Changed;
    if db.reg.phases[v].Running? || db.reg.phases[v].RollingBack? {
      BystanderCanRollBack(db, db', w, change, v);
    }
    if db.reg.phases[v].Running? {
      BystanderRecordsOk(db, db', w, change, v);
      if db.work[v].snapshot.Some? {
        BystanderActOk(db, db', w, change, v);
        BystanderUntouched(db, db', w, change, v);
      }
    }
  }

  // ---- Registry steps ----------------------------------------------------

  lemma {:induction false} CommittedGrows(r: Tables, r': Tables)
    requires Evolves(r, r')
    ensures Committed(r) <= Committed(r')
  {
    forall x | x in Committed(r) ensures x in Committed(r') {
      assert MayBecome(r.history[x], r'.history[x]);
    }
  }

  lemma {:induction false} LifeHeapOk(h: Heap, r: Tables, r': Tables)
    requires HeapOk(h, r) && Evolves(r, r')
    ensures HeapOk(h, r')
  {
    CommittedGrows(r, r');
    forall u | u in h.log ensures RecordOk(h, r', u) { assert RecordOk(h, r, u); }
    forall t | 0 <= t < |h.slots|
      ensures h.slots[t].state == Normal && VersionOk(h, r', t, h.slots[t].tuple)
    {
      assert VersionOk(h, r, t, h.slots[t].tuple);
    }
  }

  /** A worker's part of the invariant carries over a registry step of another worker. */
  lemma {:induction false} WorkFrame(db: Db, db': Db, v: nat)
    requires v < |db.work| == |db.reg.phases| == |db'.work| == |db'.reg.phases|
    requires HeapOk(db.heap, db.reg) && HeapOk(db'.heap, db'.reg) && WorkOk(db, v)
    requires db'.heap == db.heap && db'.work[v] == db.work[v] && db'.reg.phases[v] == db.reg.phases[v]
    requires db.reg.csn <= db'.reg.csn && Committed(db.reg) <= Committed(db'.reg)
    requires IsRunning(db, v) && db.work[v].snapshot.Some? ==> IsRunning(db', v) && ActOk(db', v)
    ensures WorkOk(db', v)
  {
    hide HeapOk, ActOk, Committed;
    if db.reg.phases[v].Running? || db.reg.phases[v].RollingBack? {
      UndoableExtends(db.heap.slots, db.heap.log, db.heap.log, Committed(db.reg), Committed(db'.reg),
                      db.reg.phases[v].xid, db.work[v].undo);
    }
    hide Undoable;
    if db.reg.phases[v].Running? && db.work[v].snapshot.Some? {
      forall t | db'.work[v].cursor <= t < |db'.heap.slots| ensures Untouched(db', v, t) {
        assert Untouched(db, v, t);
      }
    }
  }

  /** A registry step of another worker leaves a running statement's knowledge intact. */
  lemma {:induction false} LifeBystander(db: Db, w: nat, a: Action, v: nat)
    requires DbInv(db) && CanStep(db, w, Life(a)) && v < |db.work| && v != w
    ensures var db' := Take(db, w, Life(a)); HeapOk(db'.heap, db'.reg) && WorkOk(db', v)
  {
    var db' := Take(db, w, Life(a));
    StepInv(db.reg, w, a);
    CommittedGrows(db.reg, db'.reg);
    LifeHeapOk(db.heap, db.reg, db'.reg);
    assert WorkOk(db, v) && HeapOk(db.heap, db.reg) && |db.work| == |db.reg.phases|;
    assert db'.heap == db.heap && db'.work[v] == db.work[v] && db'.reg.phases[v] == db.reg.phases[v];
    assert db.reg.csn <= db'.reg.csn && |db'.reg.phases| == |db.reg.phases| && |db'.work| == |db.work|;
    if IsRunning(db, v) && db.work[v].snapshot.Some? {
      LifeActOk(db, w, a, v);
    }
    hide Take, CanStep, Inv, Apply, Enabled, HeapOk, Evolves, Undoable, ActOk, WorkOk, DbInv;
    WorkFrame(db, db', v);
  }

  /** What a worker knows about its slot rests on its own state, its snapshot's verdicts and settled commits. */
  lemma {:induction false} ActFrame(db: Db, db': Db, v: nat)
    requires IsRunning(db, v) && IsRunning(db', v) && db.work[v].snapshot.Some?
    requires db'.heap == db.heap && db'.work[v] == db.work[v] && db'.reg.phases[v] == db.reg.phases[v]
    requires HeapOk(db.heap, db.reg) && HeapOk(db'.heap, db'.reg) && ActOk(db, v)
    requires var csn := db.work[v].snapshot.value.csn; Seen(db'.reg, csn) == Seen(db.reg, csn)
    requires Committed(db.reg) <= Committed(db'.reg)
    requires forall t, u :: VersionOk(db.heap, db.reg, t, u) ==> VersionOk(db.heap, db'.reg, t, u)
    requires db.work[v].act.Awaiting? ==> EndKnows(db'.reg, db.work[v].act.target, db.work[v].act.at)
    ensures ActOk(db', v)
  {
    hide HeapOk, VersionOk, EndKnows, Seen, Committed;
  }

  lemma {:induction false} VersionsStay(h: Heap, r: Tables, r': Tables)
    requires Evolves(r, r') && Committed(r) <= Committed(r')
    ensures forall t, u :: VersionOk(h, r, t, u) ==> VersionOk(h, r', t, u)
  {}

  lemma {:induction false} LifeActOk(db: Db, w: nat, a: Action, v: nat)
    requires DbInv(db) && CanStep(db, w, Life(a)) && v != w && IsRunning(db, v) && db.work[v].snapshot.Some?
    ensures var db' := Take(db, w, Life(a)); IsRunning(db', v) && HeapOk(db'.heap, db'.reg) && ActOk(db', v)
  {
    var db' := Take(db, w, Life(a));
    assert WorkOk(db, v);
    assert ActOk(db, v) && db.work[v].snapshot.value.csn <= db.reg.csn;
    assert db'.reg == Apply(db.reg, w, a) && Enabled(db.reg, w, a) && Inv(db.reg);
    assert db'.heap == db.heap && db'.work[v] == db.work[v] && db'.reg.phases[v] == db.reg.phases[v];
    if db.work[v].act.Awaiting? {
      assert EndKnows(db.reg, db.work[v].act.target, db.work[v].act.at);
    }
    hide *;
    StepInv(db.reg, w, a);
    CommittedGrows(db.reg, db'.reg);
    LifeHeapOk(db.heap, db.reg, db'.reg);
    SeenStable(db.reg, db'.reg, db.work[v].snapshot.value.csn);
    VersionsStay(db.heap, db.reg, db'.reg);
    if db.work[v].act.Awaiting? {
      KnowledgeIsStable(db.reg, w, a, db.work[v].act.target, db.work[v].act.at);
    }
    assert IsRunning(db', v) by { RunningStays(db, db', v); }
    ActFrame(db, db', v);
  }

  lemma {:induction false} RunningStays(db: Db, db': Db, v: nat)
    requires IsRunning(db, v) && |db'.work| == |db'.reg.phases| && v < |db'.work| &&
      db'.reg.phases[v] == db.reg.phases[v]
    ensures IsRunning(db', v)
  {}

  /** Registering: a new transaction owns nothing on the page yet. */
  lemma {:induction false} RegisterOk(db: Db, w: nat)
    requires DbInv(db) && CanStep(db, w, Life(Register))
    ensures var db' := Take(db, w, Life(Register)); HeapOk(db'.heap, db'.reg) && WorkOk(db', w)
  {
    var db' := Take(db, w, Life(Register));
    StepInv(db.reg, w, Register);
    LifeHeapOk(db.heap, db.reg, db'.reg);
    assert PhaseOk(db.reg, w);
    forall t | 0 <= t < |db.heap.slots|
      ensures db.heap.slots[t].tuple.xid != db.reg.phases[w].xid
    {
      assert VersionOk(db.heap, db.reg, t, db.heap.slots[t].tuple);
    }
  }

  lemma {:induction false} LifeOk(db: Db, w: nat, a: Action)
    requires DbInv(db) && CanStep(db, w, Life(a))
    ensures DbInv(Take(db, w, Life(a)))
  {
    var db' := Take(db, w, Life(a));
    StepInv(db.reg, w, a);
    CommittedGrows(db.reg, db'.reg);
    LifeHeapOk(db.heap, db.reg, db'.reg);
    assert WorkOk(db, w);
    if a.Register? {
      RegisterOk(db, w);
    } else if a.StartRollback? {
      UndoableExtends(db.heap.slots, db.heap.log, db.heap.log, Committed(db.reg), Committed(db'.reg),
                      db.reg.phases[w].xid, db.work[w].undo);
    }
    forall v | 0 <= v < |db'.work| ensures WorkOk(db', v) {
      if v != w { LifeBystander(db, w, a, v); }
    }
  }

  // ---- Steps that only move the statement -------------------------------

  /** A step of w that changes nothing but w's own statement state. */
  lemma {:induction false} OwnStepOk(db: Db, db': Db, w: nat)
    requires DbInv(db) && w < |db.work| == |db'.work| && db'.reg == db.reg && db'.heap == db.heap
    requires forall v :: 0 <= v < |db.work| && v != w ==> db'.work[v] == db.work[v]
    requires WorkOk(db', w)
    ensures DbInv(db')
  {
    forall v | 0 <= v < |db'.work| ensures WorkOk(db', v) {
      assert WorkOk(db, v);
      if v != w { SameWorkOk(db, db', v); }
    }
  }

  lemma {:induction false} SameWorkOk(db: Db, db': Db, v: nat)
    requires DbInv(db) && v < |db.work| == |db'.work| && db'.reg == db.reg && db'.heap == db.heap
    requires db'.work[v] == db.work[v]
    ensures WorkOk(db', v)
  {
    assert WorkOk(db, v);
    if IsRunning(db, v) && db.work[v].snapshot.Some? {
      forall t | db'.work[v].cursor <= t < |db'.heap.slots| ensures Untouched(db', v, t) {
        assert Untouched(db, v, t);
      }
    }
  }

  lemma {:induction false} OwnPagesListed(slots: seq<Slot>, log: map<nat, UndoRecord>, committed: set<nat>,
                                          x: nat, usns: seq<nat>, t: nat)
    requires Undoable(slots, log, committed, x, usns) && t < |slots| && slots[t].tuple.xid == x
    ensures slots[t].tuple.undo == 0 || slots[t].tuple.undo in usns
    decreases |usns|
  {
    if usns != [] {
      var u := usns[|usns| - 1];
      var rest := usns[..|usns| - 1];
      assert usns == rest + [u];
      if log[u].DeleteRecord? {
        OwnPagesListed(slots, log, committed, x, rest, t);
      } else if log[u].at != t {
        OwnPagesListed(slots[log[u].at := slots[log[u].at].(tuple := log[u].prior)], log, committed, x, rest, t);
      }
    }
  }

  /** A statement step that only changes what the worker holds needs only that to be right. */
  lemma {:induction false} ActMoveOk(db: Db, db': Db, w: nat, act: Activity)
    requires DbInv(db) && IsRunning(db, w) && db.work[w].snapshot.Some?
    requires db' == db.(work := db.work[w := db.work[w].(act := act)])
    requires IsRunning(db', w) && ActOk(db', w)
    ensures DbInv(db')
  {
    RestOfWorkOk(db, w);
    UntouchedFrame(db, db', w);
    assert RecordsOk(db', w) && CanRollBack(db', w) by { hide DbInv, ActOk, Untouched, Undoable, HeapOk; }
    assert HeapOk(db'.heap, db'.reg);
    hide RecordsOk, CanRollBack, ActOk, DbInv, HeapOk, Untouched;
    assert WorkOk(db', w);
    hide WorkOk;
    OwnStepOk(db, db', w);
  }

  lemma {:induction false} RestOfWorkOk(db: Db, w: nat)
    requires DbInv(db) && IsRunning(db, w)
    ensures RecordsOk(db, w) && CanRollBack(db, w)
  {
    assert WorkOk(db, w);
  }

  lemma {:induction false} UntouchedFrame(db: Db, db': Db, w: nat)
    requires DbInv(db) && IsRunning(db, w) && db.work[w].snapshot.Some?
    requires |db'.work| == |db.work| && db'.reg == db.reg && db'.heap == db.heap
    requires db'.work[w].snapshot == db.work[w].snapshot && db.work[w].cursor <= db'.work[w].cursor
    ensures IsRunning(db', w)
    ensures forall i :: db'.work[w].cursor <= i < |db'.heap.slots| ==> Untouched(db', w, i)
  {
    assert WorkOk(db, w);
    hide ActOk, HeapOk, Inv, Undoable;
    forall i | db'.work[w].cursor <= i < |db'.heap.slots| ensures Untouched(db', w, i) {
      assert Untouched(db, w, i);
    }
  }

  /** A new statement starts before any slot was touched: its command id is above every own record. */
  lemma {:induction false} StatementStartsUntouched(db: Db, w: nat)
    requires DbInv(db) && CanStep(db, w, BeginStatement)
    ensures var db' := Take(db, w, BeginStatement);
      db'.work[w].snapshot.Some? && forall t :: 0 <= t < |db.heap.slots| ==> Untouched(db', w, t)
  {
    var db' := Take(db, w, BeginStatement);
    assert WorkOk(db, w);
    forall t | 0 <= t < |db.heap.slots| ensures Untouched(db', w, t) {
      if db.heap.slots[t].tuple.xid == db.reg.phases[w].xid {
        OwnPagesListed(db.heap.slots, db.heap.log, Committed(db.reg), db.reg.phases[w].xid, db.work[w].undo, t);
      }
    }
  }

  lemma {:induction false} BeginStatementOk(db: Db, w: nat)
    requires DbInv(db) && CanStep(db, w, BeginStatement)
    ensures DbInv(Take(db, w, BeginStatement))
  {
    var db' := Take(db, w, BeginStatement);
    StatementStartsUntouched(db, w);
    assert WorkOk(db, w);
    assert WorkOk(db', w) by {
      assert RecordsOk(db', w);
      hide Inv, HeapOk, Untouched, Undoable, RecordsOk;
    }
    hide DbInv, Take, CanStep, WorkOk;
    OwnStepOk(db, db', w);
  }

  lemma {:induction false} ReadItemActOk(db: Db, w: nat, t: nat)
    requires DbInv(db) && CanStep(db, w, ReadItem(t))
    ensures var db' := Take(db, w, ReadItem(t)); IsRunning(db', w) && ActOk(db', w)
  {
    assert WorkOk(db, w) && Untouched(db, w, t);
    assert VersionOk(db.heap, db.reg, t, db.heap.slots[t].tuple);
    HeapOkLog(db.heap, db.reg);
  }

  lemma {:induction false} ReadItemOk(db: Db, w: nat, t: nat)
    requires DbInv(db) && CanStep(db, w, ReadItem(t))
    ensures DbInv(Take(db, w, ReadItem(t)))
  {
    var db' := Take(db, w, ReadItem(t));
    ReadItemActOk(db, w, t);
    UntouchedFrame(db, db', w);
    assert WorkOk(db, w);
    assert WorkOk(db', w) by { hide ActOk, HeapOk, Inv, DbInv, Undoable, Untouched; }
    hide DbInv, Take, CanStep, WorkOk, HeapOk;
    OwnStepOk(db, db', w);
  }

  /** The step of the walk: what remains to be found is what the snapshot picks. */
  lemma {:induction false} TestOk(db: Db, w: nat)
    requires DbInv(db) && CanStep(db, w, Test)
    ensures DbInv(Take(db, w, Test))
  {
    var db' := Take(db, w, Test);
    TestActOk(db, w);
    assert IsRunning(db, w) && db.work[w].snapshot.Some?;
    assert db' == db.(work := db.work[w := db.work[w].(act := db'.work[w].act)]);
    hide DbInv, Take, CanStep, ActOk;
    ActMoveOk(db, db', w, db'.work[w].act);
  }

  lemma {:induction false} TestActOk(db: Db, w: nat)
    requires DbInv(db) && CanStep(db, w, Test)
    ensures var db' := Take(db, w, Test); IsRunning(db', w) && ActOk(db', w)
  {
    var db' := Take(db, w, Test);
    assert WorkOk(db, w) && ActOk(db, w);
    var g := db.work[w].act;
    var me := db.reg.phases[w].xid;
    var s := db.work[w].snapshot.value;
    var seen := Seen(db.reg, s.csn);
    HeapOkLog(db.heap, db.reg);
    ActiveIsNotCommitted(db.reg, w);
    VisibleIsInView(db.reg, me, s, g.v);
    if InView(seen, me, s.commandId, g.v) {
    } else if g.v.undo == 0 {
    } else {
      assert RecordOk(db.heap, db.reg, g.v.undo);
      var next := db.heap.log[g.v.undo].prior;
      assert LinkOk(db.heap.log, g.v.undo, next);
      assert Walk(db.heap.log, seen, me, s.commandId, g.v.undo)
          == From(db.heap.log, seen, me, s.commandId, g.v.undo, next);
    }
  }

  lemma {:induction false} StatementMoveActOk(db: Db, w: nat, s: Step)
    requires DbInv(db) && CanStep(db, w, s) && s in {Release, Refuse, ReadTarget}
    ensures var db' := Take(db, w, s); db.work[w].snapshot.Some? && IsRunning(db', w) && ActOk(db', w)
  {
    assert WorkOk(db, w) && ActOk(db, w);
    HeapOkLog(db.heap, db.reg);
    if s.Refuse? || s.ReadTarget? { HeldOwn(db, w, db.work[w].act.t, db.work[w].act.v); }
    if s.ReadTarget? {
      assert VersionOk(db.heap, db.reg, db.work[w].act.t, db.heap.slots[db.work[w].act.t].tuple);
    }
  }

  lemma {:induction false} StatementMoveOk(db: Db, w: nat, s: Step)
    requires DbInv(db) && CanStep(db, w, s) && s in {Release, Refuse, ReadTarget}
    ensures DbInv(Take(db, w, s))
  {
    var db' := Take(db, w, s);
    StatementMoveActOk(db, w, s);
    assert db' == db.(work := db.work[w := db.work[w].(act := db'.work[w].act)]);
    assert IsRunning(db, w);
    hide DbInv, Take, CanStep, WorkOk, ActOk;
    ActMoveOk(db, db', w, db'.work[w].act);
  }

  /** If the page tuple of a held slot is the worker's own, it is the held version. */
  lemma {:induction false} HeldOwn(db: Db, w: nat, t: nat, v: Version)
    requires DbInv(db) && IsRunning(db, w) && db.work[w].snapshot.Some? && Held(db, w, t, v)
    ensures db.heap.slots[t].tuple.xid == db.reg.phases[w].xid ==> v == db.heap.slots[t].tuple
  {
    HeapOkLog(db.heap, db.reg);
    assert VersionOk(db.heap, db.reg, t, db.heap.slots[t].tuple);
    var s := db.work[w].snapshot.value;
    assert Walk(db.heap.log, Seen(db.reg, s.csn), db.reg.phases[w].xid, s.commandId, 0) == None;
  }

  lemma {:induction false} WaitMoveOk(db: Db, w: nat)
    requires DbInv(db) && CanStep(db, w, WaitMove)
    ensures DbInv(Take(db, w, WaitMove))
  {
    var db' := Take(db, w, WaitMove);
    assert WorkOk(db, w) && ActOk(db, w);
    WaiterKeepsKnowing(db.reg, db.work[w].act.target, db.work[w].act.at);
    assert IsRunning(db, w) && db.work[w].snapshot.Some? && IsRunning(db', w);
    assert db' == db.(work := db.work[w := db.work[w].(act := db'.work[w].act)]);
    assert ActOk(db', w);
    hide DbInv, Take, CanStep, WorkOk, ActOk;
    ActMoveOk(db, db', w, db'.work[w].act);
  }

  // ---- Steps that write --------------------------------------------------

  lemma {:induction false} HeapStepOk(db: Db, db': Db, w: nat, change: Change)
    requires DbInv(db) && HeapStep(db, db', w, change)
    requires db.reg.phases[w].Running? || db.reg.phases[w].RollingBack?
    requires HeapOk(db'.heap, db'.reg) ==> WorkOk(db', w)
    ensures DbInv(db')
  {
    ActiveIsNotCommitted(db.reg, w);
    ChangedHeapOk(db.heap, db'.heap, db.reg, db.reg.phases[w].xid, change);
    forall v | 0 <= v < |db'.work| ensures WorkOk(db', v) {
      if v != w { BystanderOk(db, db', w, change, v); }
    }
  }

  lemma {:induction false} WriteEffect(db: Db, w: nat, s: Step)
    requires DbInv(db) && CanStep(db, w, s) && (s.Update? || s.Remove?)
    ensures HeapStep(db, Take(db, w, s), w, Push(db.work[w].act.t))
    ensures HeapOk(Take(db, w, s).heap, db.reg)
  {
    GuardMeansUnchanged(db, w);
    ActiveIsNotCommitted(db.reg, w);
    assert Pushed(db.heap, Take(db, w, s).heap, Committed(db.reg), db.reg.phases[w].xid, db.work[w].act.t);
    ChangedHeapOk(db.heap, Take(db, w, s).heap, db.reg, db.reg.phases[w].xid, Push(db.work[w].act.t));
  }

  lemma {:induction false} WriteCanRollBack(db: Db, w: nat, s: Step)
    requires DbInv(db) && CanStep(db, w, s) && (s.Update? || s.Remove?)
    ensures CanRollBack(Take(db, w, s), w)
    ensures (forall u :: u in db.work[w].undo ==> u in db.heap.log && db.heap.log[u].at < |db.heap.slots|)
    ensures var db' := Take(db, w, s);
      && (forall u :: u in db'.work[w].undo ==> u in db'.heap.log && db'.heap.log[u].at < |db'.heap.slots|)
      && Image(db'.heap.slots, db'.heap.log, db'.work[w].undo) == Image(db.heap.slots, db.heap.log, db.work[w].undo)
  {
    assert WorkOk(db, w);
    NewUsn(db.heap, db.reg);
    WriteEffect(db, w, s);
    PushedCanRollBack(db.heap, Take(db, w, s).heap, Committed(db.reg), db.reg.phases[w].xid, db.work[w].undo,
                      db.work[w].act.t);
  }

  lemma {:induction false} PushedCanRollBack(h: Heap, h': Heap, c: set<nat>, x: nat, usns: seq<nat>, t: nat)
    requires Pushed(h, h', c, x, t) && Undoable(h.slots, h.log, c, x, usns) && h.size + 1 !in h.log
    ensures Undoable(h'.slots, h'.log, c, x, usns + [h.size + 1])
    ensures (forall u :: u in usns ==> u in h.log && h.log[u].at < |h.slots|)
    ensures (forall u :: u in usns + [h.size + 1] ==> u in h'.log && h'.log[u].at < |h'.slots|)
    ensures Image(h'.slots, h'.log, usns + [h.size + 1]) == Image(h.slots, h.log, usns)
  {
    UndoablePush(h, h', c, x, usns, t);
  }

  /** After a write the statement is idle, and the new record belongs to it. */
  lemma {:induction false} WriterRecordsOk(db: Db, db': Db, w: nat)
    requires DbInv(db) && IsRunning(db, w) && db.work[w].snapshot.Some? && w < |db'.work|
    requires db.heap.size < db'.heap.size && db.reg.csn <= db'.reg.csn
    requires db'.work[w] == db.work[w].(undo := db.work[w].undo + [db.heap.size + 1], act := Quiet)
    ensures RecordsOk(db', w)
  {
    assert WorkOk(db, w);
  }

  lemma {:induction false} WriterOk(db: Db, db': Db, w: nat, change: Change)
    requires DbInv(db) && IsRunning(db, w) && db.work[w].snapshot.Some?
    requires HeapStep(db, db', w, change) && HeapOk(db'.heap, db'.reg) && CanRollBack(db', w)
    requires db.heap.size < db'.heap.size
    requires db'.work[w] == db.work[w].(undo := db.work[w].undo + [db.heap.size + 1], act := Quiet)
    requires forall i :: db.work[w].cursor <= i < |db'.heap.slots| ==>
      db'.heap.slots[i].tuple.undo == 0 || (i < |db.heap.slots| && db'.heap.slots[i] == db.heap.slots[i])
    ensures WorkOk(db', w)
  {
    assert WorkOk(db, w);
    WriterRecordsOk(db, db', w);
    hide Inv, HeapOk, DbInv, RecordsOk, CanRollBack;
    forall i | db'.work[w].cursor <= i < |db'.heap.slots| ensures Untouched(db', w, i) {
      assert i < |db.heap.slots| ==> Untouched(db, w, i);
    }
  }

  /** The slots a writer has still to scan are as they were, or hold a fresh insert. */
  lemma {:induction false} WriteAhead(db: Db, w: nat, s: Step)
    requires DbInv(db) && CanStep(db, w, s) && (s.Update? || s.Remove?)
    ensures var db' := Take(db, w, s);
      && |db'.work| == |db.work| && db.work[w].snapshot.Some? && db.heap.size < db'.heap.size
      && db'.work[w] == db.work[w].(undo := db.work[w].undo + [db.heap.size + 1], act := Quiet)
      && forall i :: db.work[w].cursor <= i < |db'.heap.slots| ==>
           db'.heap.slots[i].tuple.undo == 0 || (i < |db.heap.slots| && db'.heap.slots[i] == db.heap.slots[i])
  {
    assert WorkOk(db, w) && ActOk(db, w);
  }

  lemma {:induction false} WriteOk(db: Db, w: nat, s: Step)
    requires DbInv(db) && CanStep(db, w, s) && (s.Update? || s.Remove?)
    ensures DbInv(Take(db, w, s))
    ensures HeapStep(db, Take(db, w, s), w, Push(db.work[w].act.t))
  {
    assert IsRunning(db, w) && Take(db, w, s).reg == db.reg;
    WriteAhead(db, w, s);
    hide DbInv, Take, CanStep, HeapStep, WorkOk, CanRollBack, HeapOk;
    WriteEffect(db, w, s);
    WriteCanRollBack(db, w, s);
    WriterOk(db, Take(db, w, s), w, Push(db.work[w].act.t));
    HeapStepOk(db, Take(db, w, s), w, Push(db.work[w].act.t));
  }

  lemma {:induction false} InsertEffect(db: Db, w: nat, data: Payload, bytes: nat)
    requires DbInv(db) && CanStep(db, w, Insert(data, bytes))
    ensures HeapStep(db, Take(db, w, Insert(data, bytes)), w, Grow)
    ensures HeapOk(Take(db, w, Insert(data, bytes)).heap, db.reg)
  {
    ActiveIsNotCommitted(db.reg, w);
    assert Grown(db.heap, Take(db, w, Insert(data, bytes)).heap, db.reg.phases[w].xid);
    ChangedHeapOk(db.heap, Take(db, w, Insert(data, bytes)).heap, db.reg, db.reg.phases[w].xid, Grow);
  }

  lemma {:induction false} InsertCanRollBack(db: Db, w: nat, data: Payload, bytes: nat)
    requires DbInv(db) && CanStep(db, w, Insert(data, bytes))
    ensures CanRollBack(Take(db, w, Insert(data, bytes)), w)
  {
    var db' := Take(db, w, Insert(data, bytes));
    var undo := db.work[w].undo;
    var me := db.reg.phases[w].xid;
    var c := Committed(db.reg);
    assert WorkOk(db, w);
    NewUsn(db.heap, db.reg);
    UndoableExtends(db.heap.slots, db.heap.log, db'.heap.log, c, c, me, undo);
    UndoableGrows(db.heap.slots, db'.heap.log, c, me, undo, db'.heap.slots[|db.heap.slots|]);
    assert db'.work[w].undo[..|undo|] == undo;
  }

  lemma {:induction false} InsertOk(db: Db, w: nat, data: Payload, bytes: nat)
    requires DbInv(db) && CanStep(db, w, Insert(data, bytes))
    ensures DbInv(Take(db, w, Insert(data, bytes)))
    ensures HeapStep(db, Take(db, w, Insert(data, bytes)), w, Grow)
  {
    assert WorkOk(db, w);
    InsertEffect(db, w, data, bytes);
    InsertCanRollBack(db, w, data, bytes);
    WriterOk(db, Take(db, w, Insert(data, bytes)), w, Grow);
    HeapStepOk(db, Take(db, w, Insert(data, bytes)), w, Grow);
  }

  /** The record's page is as its write left it, so undoing never finds a foreign change. */
  lemma {:induction false} UndoLastOk(db: Db, w: nat)
    requires DbInv(db) && w < |db.work| && db.reg.phases[w].RollingBack? && db.work[w].undo != []
    ensures CanStep(db, w, UndoLast) && DbInv(Take(db, w, UndoLast))
    ensures exists change :: HeapStep(db, Take(db, w, UndoLast), w, change)
  {
    var k := db.work[w];
    var u := k.undo[|k.undo| - 1];
    assert WorkOk(db, w);
    assert RecordOk(db.heap, db.reg, u);
    var at := db.heap.log[u].at;
    assert VersionOk(db.heap, db.reg, at, db.heap.slots[at].tuple);
    var db' := Take(db, w, UndoLast);
    var change := if db.heap.log[u].DeleteRecord? then Same else Pop(at);
    ActiveIsNotCommitted(db.reg, w);
    assert Changed(db.heap, db'.heap, Committed(db.reg), db.reg.phases[w].xid, change);
    assert HeapStep(db, db', w, change);
    assert CanRollBack(db', w);
    HeapStepOk(db, db', w, change);
  }

  lemma {:induction false} TakeOk(db: Db, w: nat, s: Step)
    requires DbInv(db) && CanStep(db, w, s)
    ensures DbInv(Take(db, w, s))
  {
    match s
    case Life(a) => LifeOk(db, w, a);
    case BeginStatement => BeginStatementOk(db, w);
    case ReadItem(t) => ReadItemOk(db, w, t);
    case Test => TestOk(db, w);
    case Release => StatementMoveOk(db, w, s);
    case Update(_, _) => WriteOk(db, w, s);
    case Remove(_) => WriteOk(db, w, s);
    case Refuse => StatementMoveOk(db, w, s);
    case ReadTarget => StatementMoveOk(db, w, s);
    case WaitMove => WaitMoveOk(db, w);
    case Insert(data, bytes) => InsertOk(db, w, data, bytes);
    case UndoLast => UndoLastOk(db, w);
  }

  /** A turn that neither writes to the page nor undoes. */
  predicate LeavesPage(s: Step) {
    !s.Update? && !s.Remove? && !s.Insert? && !s.UndoLast?
  }

  /** w's transaction is open: it can still write, or undo what it wrote. */
  predicate InTransaction(db: Db, w: nat) {
    w < |db.work| == |db.reg.phases| && (db.reg.phases[w].Running? || db.reg.phases[w].RollingBack?)
  }

  /** Every write or undo step is one of the changes of the heap. */
  lemma {:induction false} WritingTurn(db: Db, v: nat, s: Step) returns (change: Change)
    requires DbInv(db) && CanStep(db, v, s) && !LeavesPage(s)
    ensures DbInv(Take(db, v, s)) && HeapStep(db, Take(db, v, s), v, change) && InTransaction(db, v)
    ensures change.Pop? ==> db.reg.phases[v].RollingBack?
  {
    match s
    case Update(_, _) =>
      WriteOk(db, v, s);
      change := Push(db.work[v].act.t);
    case Remove(_) =>
      WriteOk(db, v, s);
      change := Push(db.work[v].act.t);
    case Insert(data, bytes) =>
      InsertOk(db, v, data, bytes);
      change := Grow;
    case UndoLast =>
      UndoLastOk(db, v);
      change :| HeapStep(db, Take(db, v, s), v, change);
  }
}
