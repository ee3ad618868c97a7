/** What every step of every worker keeps, in every interleaving. */
module DatabaseInvariant {
  import opened Wrappers
  import opened Registry
  import opened Snapshots
  import opened Waiting
  import opened HeapVersions
  import opened Database

  ghost function Committed(r: Tables): set<nat> {
    set x | x in r.history && IsNormal(r.history[x])
  }

  // ---- The heap ---------------------------------------------------------

  /** A stored version of slot t: its creator has begun, it fits, and its undo link leads to the same slot. */
  ghost predicate VersionOk(h: Heap, r: Tables, t: nat, v: Version) {
    v.xid in r.history && t < |h.slots| && |v.data| <= h.slots[t].length &&
    (v.undo != 0 ==>
      && v.undo in h.log && !h.log[v.undo].DeleteRecord? && h.log[v.undo].at == t
      && (h.log[v.undo].prior.xid == v.xid || h.log[v.undo].prior.xid in Committed(r)))
  }

  ghost predicate RecordOk(h: Heap, r: Tables, u: nat)
    requires u in h.log
  {
    && 0 < u <= h.size && h.log[u].at < |h.slots|
    && (!h.log[u].DeleteRecord? ==>
          var v := h.log[u].prior;
          !v.deleted && VersionOk(h, r, h.log[u].at, v) && LinkOk(h.log, u, v))
  }

  ghost predicate HeapOk(h: Heap, r: Tables) {
    && (forall u :: u in h.log ==> RecordOk(h, r, u))
    && (forall t :: 0 <= t < |h.slots| ==> h.slots[t].state == Normal && VersionOk(h, r, t, h.slots[t].tuple))
  }

  lemma {:induction false} HeapOkLog(h: Heap, r: Tables)
    requires HeapOk(h, r)
    ensures LogOk(h.log) && XidsKnown(h.log, r.history)
  {
    forall u | u in h.log
      ensures 0 < u && (!h.log[u].DeleteRecord? ==> LinkOk(h.log, u, h.log[u].prior) && h.log[u].prior.xid in r.history)
    {
      assert RecordOk(h, r, u);
    }
  }

  // ---- What a statement knows about the slot at hand ----------------------

  /** The version the worker's snapshot picks for slot t, with every verdict settled. */
  ghost function Pick(db: Db, w: nat, t: nat): Option<Version>
    requires IsRunning(db, w) && db.work[w].snapshot.Some? && HeapOk(db.heap, db.reg)
  {
    HeapOkLog(db.heap, db.reg);
    var s := db.work[w].snapshot.value;
    Choose(db.heap, Seen(db.reg, s.csn), db.reg.phases[w].xid, s.commandId, t)
  }

  /** The page tuple of t, if the worker's own, dates from an earlier statement or is an insert. */
  ghost predicate Untouched(db: Db, w: nat, t: nat)
    requires IsRunning(db, w) && db.work[w].snapshot.Some?
  {
    t < |db.heap.slots| && db.heap.slots[t].tuple.xid == db.reg.phases[w].xid ==>
      var u := db.heap.slots[t].tuple.undo;
      u == 0 || u < db.work[w].snapshot.value.commandId
  }

  /** A version the scan returned. */
  ghost predicate Held(db: Db, w: nat, t: nat, v: Version)
    requires IsRunning(db, w) && db.work[w].snapshot.Some? && HeapOk(db.heap, db.reg)
  {
    var me := db.reg.phases[w].xid;
    && t < |db.heap.slots| && t < db.work[w].cursor && Untouched(db, w, t)
    && Pick(db, w, t) == Some(v)
    && (v.xid == me ==> db.heap.slots[t].tuple.xid == me)
    && (v.xid != me ==> v.xid in Committed(db.reg))
  }

  ghost predicate ActOk(db: Db, w: nat)
    requires IsRunning(db, w) && db.work[w].snapshot.Some? && HeapOk(db.heap, db.reg)
  {
    var me := db.reg.phases[w].xid;
    var s := db.work[w].snapshot.value;
    var seen := Seen(db.reg, s.csn);
    HeapOkLog(db.heap, db.reg);
    match db.work[w].act
    case Quiet => true
    case Failed => true
    case Testing(t, v, top) =>
      && t < |db.heap.slots| && t < db.work[w].cursor && Untouched(db, w, t)
      && VersionOk(db.heap, db.reg, t, v) && (top || !v.deleted)
      && (v.xid == me ==> db.heap.slots[t].tuple.xid == me)
      && Pick(db, w, t) ==
           if InView(seen, me, s.commandId, v) then (if v.deleted then None else Some(v))
           else Walk(db.heap.log, seen, me, s.commandId, v.undo)
    case Got(t, v) => Held(db, w, t, v)
    case Missed(t) => t < db.work[w].cursor && t < |db.heap.slots| && Pick(db, w, t) == None
    case Refused(t, v) => Held(db, w, t, v) && v.xid != me
    case Awaiting(t, v, target, at) =>
      && Held(db, w, t, v) && v.xid != me && target != me
      && EndKnows(db.reg, target, at) && at != Retry && at != Conflict
  }

  /** The worker's own records: ascending, and split by the command id into earlier and this statement's. */
  ghost predicate RecordsOk(db: Db, w: nat)
    requires w < |db.work|
  {
    var k := db.work[w];
    && k.base <= |k.undo|
    && (forall i, j :: 0 <= i < j < |k.undo| ==> k.undo[i] < k.undo[j])
    && (forall i :: 0 <= i < |k.undo| ==> 0 < k.undo[i] <= db.heap.size)
    && (k.snapshot == None ==> k.undo == [] && k.act.Quiet?)
    && (k.snapshot.Some? ==>
          && k.snapshot.value.csn <= db.reg.csn
          && k.snapshot.value.commandId <= db.heap.size + 1
          && (k.snapshot.value.commandId > 0 <==> k.base > 0)
          && (k.base > 0 ==> k.snapshot.value.commandId == k.undo[k.base - 1] + 1)
          && (forall i :: 0 <= i < k.base ==> k.undo[i] < k.snapshot.value.commandId)
          && (forall i :: k.base <= i < |k.undo| ==> k.snapshot.value.commandId <= k.undo[i]))
  }

  ghost predicate CanRollBack(db: Db, w: nat)
    requires w < |db.work| == |db.reg.phases| && !db.reg.phases[w].Idle?
  {
    Undoable(db.heap.slots, db.heap.log, Committed(db.reg), db.reg.phases[w].xid, db.work[w].undo)
  }

  ghost predicate WorkOk(db: Db, w: nat)
    requires w < |db.work| == |db.reg.phases| && HeapOk(db.heap, db.reg)
  {
    match db.reg.phases[w]
    case Running(me) =>
      && RecordsOk(db, w) && CanRollBack(db, w)
      && (db.work[w].snapshot.Some? ==>
            ActOk(db, w) && forall t :: db.work[w].cursor <= t < |db.heap.slots| ==> Untouched(db, w, t))
    case RollingBack(me) => CanRollBack(db, w)
    case _ => true
  }

  ghost predicate DbInv(db: Db) {
    && Inv(db.reg) && |db.work| == |db.reg.phases|
    && HeapOk(db.heap, db.reg)
    && (forall w :: 0 <= w < |db.work| ==> WorkOk(db, w))
  }

  lemma {:induction false} InitialDbInv(workers: nat)
    ensures DbInv(InitialDb(workers))
  {
    InitialInv(workers);
  }

  // ---- Facts used by every step -----------------------------------------

  lemma {:induction false} ActiveIsNotCommitted(r: Tables, w: nat)
    requires Inv(r) && w < |r.phases| && (r.phases[w].Running? || r.phases[w].RollingBack?)
    ensures r.phases[w].xid in r.history && r.phases[w].xid !in Committed(r)
    ensures AssignedCsn(r, r.phases[w].xid) == 0
  {
    assert PhaseOk(r, w);
  }

  lemma {:induction false} OtherXid(r: Tables, v: nat, w: nat)
    requires Inv(r) && v < |r.phases| && w < |r.phases| && v != w
    requires !r.phases[v].Idle? && !r.phases[w].Idle?
    ensures r.phases[v].xid != r.phases[w].xid
  {}

  /** Whoever passes the guard overwrites exactly the version it scanned. */
  lemma {:induction false} GuardMeansUnchanged(db: Db, w: nat)
    requires DbInv(db) && IsRunning(db, w) && GuardHolds(db, w)
    ensures var g := db.work[w].act;
      && db.heap.slots[g.t].tuple == g.v && !g.v.deleted
      && (g.v.xid == db.reg.phases[w].xid || g.v.xid in Committed(db.reg))
  {
    HeapOkLog(db.heap, db.reg);
    assert WorkOk(db, w);
    var g := db.work[w].act;
    assert Held(db, w, g.t, g.v);
    var me := db.reg.phases[w].xid;
    var s := db.work[w].snapshot.value;
    var seen := Seen(db.reg, s.csn);
    var page := db.heap.slots[g.t].tuple;
    PickIsInView(db.heap, seen, me, s.commandId, g.t);
  }

  lemma {:induction false} WalkIsInView(log: map<nat, UndoRecord>, seen: set<nat>, me: nat, commandId: nat, usn: nat)
    requires LogOk(log) && (usn == 0 || usn in log)
    ensures Walk(log, seen, me, commandId, usn).Some? ==>
      InView(seen, me, commandId, Walk(log, seen, me, commandId, usn).value)
    decreases usn
  {
    if usn != 0 && !log[usn].DeleteRecord? {
      assert LinkOk(log, usn, log[usn].prior);
      WalkIsInView(log, seen, me, commandId, log[usn].prior.undo);
    }
  }

  lemma {:induction false} PickIsInView(h: Heap, seen: set<nat>, me: nat, commandId: nat, t: nat)
    requires LogOk(h.log)
    requires t < |h.slots| ==> h.slots[t].tuple.undo == 0 || h.slots[t].tuple.undo in h.log
    ensures Choose(h, seen, me, commandId, t).Some? ==>
      InView(seen, me, commandId, Choose(h, seen, me, commandId, t).value)
  {
    if t < |h.slots| { WalkIsInView(h.log, seen, me, commandId, h.slots[t].tuple.undo); }
  }
}
