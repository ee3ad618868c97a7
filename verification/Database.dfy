/**
 Transactions reading and writing one heap page, as interleaved steps.  A step is
 what the code does under one lock, or one read of a shared table: a registry
 action, one visibility test, one write made under the page lock, one undo record.
 */
module Database {
  import opened Wrappers
  import opened Registry
  import opened Snapshots
  import opened Waiting
  import opened HeapVersions

  /** What a running statement is doing with a slot. */
  datatype Activity =
    | Quiet
    | Testing(t: nat, v: Version, top: bool)      // about to ask whether v is visible
    | Got(t: nat, v: Version)                     // the scan returned v
    | Missed(t: nat)                              // the scan found nothing in t
    | Refused(t: nat, v: Version)                 // page XID differs; page lock released
    | Awaiting(t: nat, v: Version, target: nat, at: EndPoint)
    | Failed                                      // "tuple was concurrently modified"

  /** The statement state of a worker; base counts the records written before this statement. */
  datatype Work = Work(snapshot: Option<Snapshot>, undo: seq<nat>, base: nat, cursor: nat, act: Activity)

  datatype Db = Db(reg: Tables, heap: Heap, work: seq<Work>)

  datatype Step =
    | Life(action: Action)
    | BeginStatement
    | ReadItem(t: nat)
    | Test
    | Release
    | Update(data: Payload, bytes: nat)
    | Remove(bytes: nat)
    | Refuse
    | ReadTarget
    | WaitMove
    | Insert(data: Payload, bytes: nat)
    | UndoLast

  const FRESH: Work := Work(None, [], 0, 0, Quiet)

  function InitialDb(workers: nat): Db {
    Db(InitialTables(workers), Heap([], map[], 0), seq(workers, _ => FRESH))
  }

  predicate IsRunning(db: Db, w: nat) {
    w < |db.work| == |db.reg.phases| && db.reg.phases[w].Running?
  }

  /** The guard of a write, tested under the page lock: the page XID is the scanned one. */
  predicate GuardHolds(db: Db, w: nat) {
    w < |db.work| && db.work[w].act.Got? &&
    var g := db.work[w].act;
    g.t < |db.heap.slots| && db.heap.slots[g.t].tuple.xid == g.v.xid
  }

  predicate CanStep(db: Db, w: nat, s: Step) {
    w < |db.work| == |db.reg.phases| &&
    var k := db.work[w];
    match s
    case Life(a) =>
      Enabled(db.reg, w, a) &&
      (a in {MarkCommitting, StartRollback} ==> k.act in {Quiet, Failed}) &&
      (a.MarkAborted? ==> k.undo == [])
    case BeginStatement => IsRunning(db, w) && k.act in {Quiet, Failed}
    case ReadItem(t) =>
      IsRunning(db, w) && k.act.Quiet? && k.snapshot.Some? &&
      k.cursor <= t < |db.heap.slots| && db.heap.slots[t].state == Normal
    case Test =>
      IsRunning(db, w) && k.act.Testing? && k.snapshot.Some? &&
      k.act.v.xid in db.reg.history &&
      (k.act.v.undo == 0 || k.act.v.undo in db.heap.log) &&
      IsVisible(db.reg.history, db.reg.phases[w].xid, k.snapshot.value, k.act.v) != Busy
    case Release => IsRunning(db, w) && (k.act.Got? || k.act.Missed?)
    case Update(data, bytes) =>
      IsRunning(db, w) && GuardHolds(db, w) && 0 < bytes && |data| <= db.heap.slots[k.act.t].length
    case Remove(bytes) => IsRunning(db, w) && GuardHolds(db, w) && 0 < bytes
    case Refuse =>
      IsRunning(db, w) && k.act.Got? && k.act.t < |db.heap.slots| && !GuardHolds(db, w)
    case ReadTarget => IsRunning(db, w) && k.act.Refused? && k.act.t < |db.heap.slots|
    case WaitMove =>
      IsRunning(db, w) && k.act.Awaiting? && CanEndStep(db.reg, k.act.target, k.act.at)
    case Insert(data, bytes) => IsRunning(db, w) && k.act.Quiet? && k.snapshot.Some? && 0 < bytes
    case UndoLast =>
      db.reg.phases[w].RollingBack? && k.undo != [] &&
      var u := k.undo[|k.undo| - 1];
      u in db.heap.log && db.heap.log[u].at < |db.heap.slots| && ApplyUndo(db.heap, u).Ok?
  }

  /** BeginNewStatement's snapshot: the CSN is kept, the command id moves past the last own record. */
  function NextSnapshot(current: Option<Snapshot>, csn: nat, undo: seq<nat>): Snapshot {
    match current
    case None => Snapshot(csn, 0)
    case Some(s) => if undo == [] then s else Snapshot(s.csn, undo[|undo| - 1] + 1)
  }

  /** After a failed test of v: the next older version, or nothing. */
  function Older(log: map<nat, UndoRecord>, t: nat, v: Version): Activity
    requires v.undo == 0 || v.undo in log
  {
    if v.undo == 0 || log[v.undo].DeleteRecord? then Missed(t)
    else Testing(t, log[v.undo].prior, false)
  }

  function Take(db: Db, w: nat, s: Step): Db
    requires CanStep(db, w, s)
  {
    var k := db.work[w];
    match s
    case Life(a) =>
      var k' := if a.Register? then FRESH
                else if a in {MarkCommitting, StartRollback} then k.(act := Quiet) else k;
      db.(reg := Apply(db.reg, w, a), work := db.work[w := k'])
    case BeginStatement =>
      db.(work := db.work[w :=
        k.(snapshot := Some(NextSnapshot(k.snapshot, db.reg.csn, k.undo)),
           base := |k.undo|, cursor := 0, act := Quiet)])
    case ReadItem(t) =>
      db.(work := db.work[w := k.(cursor := t + 1, act := Testing(t, db.heap.slots[t].tuple, true))])
    case Test =>
      var g := k.act;
      var next :=
        if IsVisible(db.reg.history, db.reg.phases[w].xid, k.snapshot.value, g.v) == Yes
        then (if g.top && g.v.deleted then Missed(g.t) else Got(g.t, g.v))
        else Older(db.heap.log, g.t, g.v);
      db.(work := db.work[w := k.(act := next)])
    case Release => db.(work := db.work[w := k.(act := Quiet)])
    case Update(data, bytes) =>
      db.(heap := UpdateSlot(db.heap, db.reg.phases[w].xid, k.act.t, k.act.v, data, bytes),
          work := db.work[w := k.(undo := k.undo + [db.heap.size + 1], act := Quiet)])
    case Remove(bytes) =>
      db.(heap := DeleteSlot(db.heap, db.reg.phases[w].xid, k.act.t, bytes),
          work := db.work[w := k.(undo := k.undo + [db.heap.size + 1], act := Quiet)])
    case Refuse => db.(work := db.work[w := k.(act := Refused(k.act.t, k.act.v))])
    case ReadTarget =>
      db.(work := db.work[w :=
        k.(act := Awaiting(k.act.t, k.act.v, db.heap.slots[k.act.t].tuple.xid, Ask))])
    case WaitMove =>
      var at := EndStep(db.reg, k.act.target, k.act.at);
      var next := if at == Retry then Got(k.act.t, k.act.v)
                  else if at == Conflict then Failed
                  else k.act.(at := at);
      db.(work := db.work[w := k.(act := next)])
    case Insert(data, bytes) =>
      db.(heap := InsertSlot(db.heap, db.reg.phases[w].xid, data, bytes),
          work := db.work[w := k.(undo := k.undo + [db.heap.size + 1])])
    case UndoLast =>
      db.(heap := ApplyUndo(db.heap, k.undo[|k.undo| - 1]).value,
          work := db.work[w := k.(undo := k.undo[..|k.undo| - 1])])
  }

  // ---- Runs -------------------------------------------------------------

  datatype Turn = Turn(worker: nat, step: Step)

  predicate CanPlay(db: Db, turns: seq<Turn>)
    decreases |turns|
  {
    turns == [] ||
    (CanStep(db, turns[0].worker, turns[0].step) &&
     CanPlay(Take(db, turns[0].worker, turns[0].step), turns[1..]))
  }

  function Play(db: Db, turns: seq<Turn>): Db
    requires CanPlay(db, turns)
    decreases |turns|
  {
    if turns == [] then db else Play(Take(db, turns[0].worker, turns[0].step), turns[1..])
  }
}
