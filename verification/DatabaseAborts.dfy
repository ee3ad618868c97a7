/**
 What an abort leaves, with any number of other workers writing meanwhile: the page as it
 would be had the transaction done nothing but its inserts.
 */
module DatabaseAborts {
  import opened Wrappers
  import opened Registry
  import opened Snapshots
  import opened HeapVersions
  import opened Database
  import opened DatabaseInvariant
  import opened DatabaseSteps
  import opened DatabaseTheorems

  // ---- Rolling back -----------------------------------------------------

  /** Undo always finds the page as the write left it: the "concurrently modified" error cannot happen. */
  lemma {:induction false} UndoNeverFails(db: Db, w: nat)
    requires Reachable(db) && w < |db.work| && w < |db.reg.phases| && db.reg.phases[w].RollingBack? &&
      db.work[w].undo != []
    ensures var u := db.work[w].undo[|db.work[w].undo| - 1];
      && u in db.heap.log && db.heap.log[u].at < |db.heap.slots| && ApplyUndo(db.heap, u).Ok?
      && (!db.heap.log[u].DeleteRecord? ==>
            db.heap.slots[db.heap.log[u].at].tuple.undo == u &&
            |db.heap.log[u].prior.data| <= db.heap.slots[db.heap.log[u].at].length)
  {
    ReachableInv(db);
    UndoLastOk(db, w);
    assert WorkOk(db, w);
    assert RecordOk(db.heap, db.reg, db.work[w].undo[|db.work[w].undo| - 1]);
  }

  /** The page as w's rollback will leave it. */
  ghost function RollbackImage(db: Db, w: nat): seq<Slot>
    requires DbInv(db) && w < |db.work| && (db.reg.phases[w].Running? || db.reg.phases[w].RollingBack?)
  {
    assert WorkOk(db, w);
    UndoableListed(db.heap.slots, db.heap.log, Committed(db.reg), db.reg.phases[w].xid, db.work[w].undo);
    Image(db.heap.slots, db.heap.log, db.work[w].undo)
  }

  /** The records of a transaction that can still roll back all stand in the log. */
  lemma {:induction false} RecordsStand(db: Db, w: nat)
    requires DbInv(db) && InTransaction(db, w)
    ensures CanRollBack(db, w) && forall u :: u in db.work[w].undo ==>
      u in db.heap.log && db.heap.log[u].at < |db.heap.slots|
    ensures RollbackImage(db, w) == Image(db.heap.slots, db.heap.log, db.work[w].undo)
  {
    assert WorkOk(db, w);
    UndoableListed(db.heap.slots, db.heap.log, Committed(db.reg), db.reg.phases[w].xid, db.work[w].undo);
  }

  /** A turn that neither writes nor undoes leaves the heap and the records of w. */
  lemma {:induction false} QuietTurn(db: Db, v: nat, s: Step, w: nat)
    requires CanStep(db, v, s) && InTransaction(db, w)
    requires LeavesPage(s) && (v == w && s.Life? ==> s.action.StartRollback?)
    ensures var db' := Take(db, v, s);
      db'.heap == db.heap && InTransaction(db', w) && db'.work[w].undo == db.work[w].undo
  {}

  lemma {:induction false} OwnTurn(db: Db, w: nat, s: Step)
    requires CanStep(db, w, s) && InTransaction(db, w) && !LeavesPage(s)
    ensures InTransaction(Take(db, w, s), w)
  {}

  /** What undoing one's last record does to the image: nothing. */
  lemma {:induction false} UndoImage(db: Db, w: nat)
    requires DbInv(db) && CanStep(db, w, UndoLast)
    ensures DbInv(Take(db, w, UndoLast)) && InTransaction(Take(db, w, UndoLast), w) && InTransaction(db, w)
    ensures RollbackImage(Take(db, w, UndoLast), w) == RollbackImage(db, w)
  {
    RecordsStand(db, w);
    UndoLastOk(db, w);
    OwnTurn(db, w, UndoLast);
    RecordsStand(Take(db, w, UndoLast), w);
    hide DbInv, RollbackImage;
  }

  lemma {:induction false} WriteImage(db: Db, w: nat, s: Step)
    requires DbInv(db) && CanStep(db, w, s) && (s.Update? || s.Remove?)
    ensures DbInv(Take(db, w, s)) && InTransaction(Take(db, w, s), w) && InTransaction(db, w)
    ensures RollbackImage(Take(db, w, s), w) == RollbackImage(db, w)
  {
    assert InTransaction(db, w);
    hide DbInv, RollbackImage, Take, CanStep;
    TakeOk(db, w, s);
    WriteCanRollBack(db, w, s);
    OwnTurn(db, w, s);
    RecordsStand(db, w);
    RecordsStand(Take(db, w, s), w);
  }

  /** The slot an insert of transaction me adds. */
  function InsertedSlot(me: nat, data: Payload): Slot {
    Slot(Normal, |data|, Version(me, 0, false, data))
  }

  lemma {:induction false} InsertImage(db: Db, w: nat, data: Payload, bytes: nat)
    requires DbInv(db) && CanStep(db, w, Insert(data, bytes))
    ensures var db' := Take(db, w, Insert(data, bytes));
      && DbInv(db') && InTransaction(db', w) && InTransaction(db, w)
      && RollbackImage(db', w) == RollbackImage(db, w) + [InsertedSlot(db.reg.phases[w].xid, data)]
  {
    var s := Insert(data, bytes);
    var db' := Take(db, w, s);
    var undo := db.work[w].undo;
    var added := InsertedSlot(db.reg.phases[w].xid, data);
    assert InTransaction(db, w) && InTransaction(db', w) && db'.reg == db.reg;
    assert db'.heap.slots == db.heap.slots + [added];
    assert db'.work[w].undo == undo + [db.heap.size + 1] && db'.heap.log[db.heap.size + 1].DeleteRecord?;
    assert db.heap.size + 1 !in db.heap.log && forall u :: u in db.heap.log ==>
      u in db'.heap.log && db'.heap.log[u] == db.heap.log[u] by {
      NewUsn(db.heap, db.reg);
    }
    TakeOk(db, w, s);
    hide DbInv, RollbackImage, Take, CanStep;
    RecordsStand(db, w);
    RecordsStand(db', w);
    var c := Committed(db.reg);
    var me := db.reg.phases[w].xid;
    UndoableExtends(db.heap.slots, db.heap.log, db'.heap.log, c, c, me, undo);
    UndoableGrows(db.heap.slots, db'.heap.log, c, me, undo, added);
    assert (undo + [db.heap.size + 1])[..|undo|] == undo;
  }

  /** The page a transaction's rollback leads to: of its own turns, only inserts change it. */
  lemma {:induction false} StepKeepsImage(db: Db, w: nat, s: Step)
    requires DbInv(db) && CanStep(db, w, s) && InTransaction(db, w)
    requires s.Life? ==> s.action.StartRollback?
    ensures var db' := Take(db, w, s);
      && DbInv(db') && InTransaction(db', w)
      && RollbackImage(db', w) ==
           RollbackImage(db, w) + (if s.Insert? then [InsertedSlot(db.reg.phases[w].xid, s.data)] else [])
  {
    hide DbInv, Take, CanStep, RollbackImage, InTransaction;
    if s.Update? || s.Remove? {
      WriteImage(db, w, s);
    } else if s.Insert? {
      InsertImage(db, w, s.data, s.bytes);
    } else if s.UndoLast? {
      UndoImage(db, w);
    } else {
      TakeOk(db, w, s);
      QuietTurn(db, w, s, w);
      RecordsStand(db, w);
      RecordsStand(Take(db, w, s), w);
    }
  }

  // ---- Other workers ------------------------------------------------------------

  /** image with the tuples that differ between page and page' set, and the new slots added. */
  ghost function Follow(page: seq<Slot>, page': seq<Slot>, image: seq<Slot>): (r: seq<Slot>)
    requires |image| == |page| <= |page'|
    ensures |r| == |page'|
    ensures forall t :: 0 <= t < |r| ==>
      r[t] == if t >= |page| then page'[t]
              else if page'[t] == page[t] then image[t] else image[t].(tuple := page'[t].tuple)
  {
    seq(|page'|, t requires 0 <= t < |page'| =>
      if t >= |page| then page'[t]
      else if page'[t] == page[t] then image[t] else image[t].(tuple := page'[t].tuple))
  }

  lemma {:induction false} FollowSame(page: seq<Slot>, image: seq<Slot>)
    requires |image| == |page|
    ensures Follow(page, page, image) == image
  {}

  lemma {:induction false} FollowWrite(page: seq<Slot>, image: seq<Slot>, t: nat, tuple: Version)
    requires |image| == |page| && t < |page| && page[t].tuple != tuple
    ensures Follow(page, page[t := page[t].(tuple := tuple)], image) == image[t := image[t].(tuple := tuple)]
  {}

  lemma {:induction false} FollowGrowth(page: seq<Slot>, image: seq<Slot>, slot: Slot)
    requires |image| == |page|
    ensures Follow(page, page + [slot], image) == image + [slot]
  {}

  /** What x does to the page it does to the page that y's rollback leads to. */
  lemma {:induction false} ChangedImage(h: Heap, h': Heap, r: Tables, x: nat, change: Change, y: nat, usns: seq<nat>)
    requires HeapOk(h, r) && Changed(h, h', Committed(r), x, change) && x != y && y !in Committed(r)
    requires Undoable(h.slots, h.log, Committed(r), y, usns)
    ensures |h.slots| <= |h'.slots|
    ensures forall u :: u in usns ==> u in h.log && h.log[u].at < |h.slots| && u in h'.log && h'.log[u].at < |h'.slots|
    ensures Image(h'.slots, h'.log, usns) == Follow(h.slots, h'.slots, Image(h.slots, h.log, usns))
  {
    LogGrows(h, h', r, x, change);
    var c := Committed(r);
    UndoableExtends(h.slots, h.log, h'.log, c, c, y, usns);
    var image := Image(h.slots, h.log, usns);
    match change
    case Same => FollowSame(h.slots, image);
    case Push(t) =>
      UndoableFrame(h.slots, h'.log, c, y, usns, t, h'.slots[t].tuple);
      assert VersionOk(h, r, t, h.slots[t].tuple);
      NewUsn(h, r);
      FollowWrite(h.slots, image, t, h'.slots[t].tuple);
    case Pop(t) =>
      UndoableFrame(h.slots, h'.log, c, y, usns, t, h'.slots[t].tuple);
      assert RecordOk(h, r, h.slots[t].tuple.undo);
      FollowWrite(h.slots, image, t, h'.slots[t].tuple);
    case Grow =>
      UndoableGrows(h.slots, h'.log, c, y, usns, h'.slots[|h.slots|]);
      FollowGrowth(h.slots, image, h'.slots[|h.slots|]);
  }

  /**
   Whatever step another worker takes, the page w's rollback leads to changes exactly
   where the page does, and to the same tuples.
   */
  lemma {:induction false} OthersWriteThroughImage(db: Db, v: nat, s: Step, w: nat)
    requires DbInv(db) && CanStep(db, v, s) && InTransaction(db, w) && v != w
    ensures var db' := Take(db, v, s);
      && DbInv(db') && InTransaction(db', w) && db'.reg.phases[w] == db.reg.phases[w]
      && db'.work[w] == db.work[w] && |db.heap.slots| <= |db'.heap.slots|
      && RollbackImage(db', w) == Follow(db.heap.slots, db'.heap.slots, RollbackImage(db, w))
  {
    var db' := Take(db, v, s);
    OtherTurn(db, v, s, w);
    TakeOk(db, v, s);
    RecordsStand(db, w);
    RecordsStand(db', w);
    if LeavesPage(s) {
      QuietTurn(db, v, s, w);
      FollowSame(db.heap.slots, RollbackImage(db, w));
    } else {
      var change := WritingTurn(db, v, s);
      assert db.reg.phases[v].xid != db.reg.phases[w].xid by { OtherXid(db.reg, v, w); }
      ActiveIsNotCommitted(db.reg, w);
      hide Take, CanStep, RollbackImage, Inv, WorkOk;
      ChangedImage(db.heap, db'.heap, db.reg, db.reg.phases[v].xid, change, db.reg.phases[w].xid, db.work[w].undo);
    }
  }

  lemma {:induction false} OtherTurn(db: Db, v: nat, s: Step, w: nat)
    requires CanStep(db, v, s) && InTransaction(db, w) && v != w
    ensures var db' := Take(db, v, s);
      InTransaction(db', w) && db'.reg.phases[w] == db.reg.phases[w] && db'.work[w] == db.work[w]
  {}

  // ---- Runs ------------------------------------------------------------------------

  lemma {:induction false} SlotsNeverGo(db: Db, v: nat, s: Step)
    requires CanStep(db, v, s)
    ensures |db.heap.slots| <= |Take(db, v, s).heap.slots|
  {}

  /** One turn, seen by a page that lacks w's updates and deletes: w's turns only add slots to it. */
  ghost function Without(db: Db, v: nat, s: Step, w: nat, page: seq<Slot>): (r: seq<Slot>)
    requires CanStep(db, v, s) && |page| == |db.heap.slots|
    ensures |r| == |Take(db, v, s).heap.slots|
  {
    SlotsNeverGo(db, v, s);
    var next := Take(db, v, s).heap.slots;
    if v == w then page + next[|page|..] else Follow(db.heap.slots, next, page)
  }

  /** The page after the run, had w made only its inserts. */
  ghost function Replay(db: Db, turns: seq<Turn>, w: nat, page: seq<Slot>): (r: seq<Slot>)
    requires CanPlay(db, turns) && |page| == |db.heap.slots|
    ensures |r| == |Play(db, turns).heap.slots| && |page| <= |r|
    decreases |turns|
  {
    if turns == [] then page
    else
      SlotsNeverGo(db, turns[0].worker, turns[0].step);
      Replay(Take(db, turns[0].worker, turns[0].step), turns[1..], w,
             Without(db, turns[0].worker, turns[0].step, w, page))
  }

  /** w neither commits nor completes its abort in the turns. */
  predicate StaysOpen(turns: seq<Turn>, w: nat) {
    forall i :: 0 <= i < |turns| && turns[i].worker == w ==>
      turns[i].step.Life? ==> turns[i].step.action.StartRollback?
  }

  lemma {:induction false} TurnImage(db: Db, v: nat, s: Step, w: nat)
    requires DbInv(db) && CanStep(db, v, s) && InTransaction(db, w)
    requires v == w && s.Life? ==> s.action.StartRollback?
    ensures var db' := Take(db, v, s);
      && DbInv(db') && InTransaction(db', w) && db'.reg.phases[w].xid == db.reg.phases[w].xid
      && RollbackImage(db', w) == Without(db, v, s, w, RollbackImage(db, w))
  {
    var image := RollbackImage(db, w);
    SlotsNeverGo(db, v, s);
    if v == w {
      OwnSlots(db, w, s);
      hide DbInv, Take, CanStep, RollbackImage;
      StepKeepsImage(db, w, s);
      var next := Take(db, w, s).heap.slots;
      assert s.Insert? ==> next[|image|..] == [InsertedSlot(db.reg.phases[w].xid, s.data)];
      assert !s.Insert? ==> next[|image|..] == [];
    } else {
      hide DbInv, Take, CanStep, RollbackImage;
      OthersWriteThroughImage(db, v, s, w);
    }
  }

  lemma {:induction false} OwnSlots(db: Db, w: nat, s: Step)
    requires CanStep(db, w, s) && InTransaction(db, w) && (s.Life? ==> s.action.StartRollback?)
    ensures var next := Take(db, w, s).heap.slots;
      if s.Insert? then next == db.heap.slots + [InsertedSlot(db.reg.phases[w].xid, s.data)]
      else |next| == |db.heap.slots|
    ensures Take(db, w, s).reg.phases[w].xid == db.reg.phases[w].xid
  {}

  /** Over every run, the page w's rollback leads to is what everybody else makes of it, plus w's inserts. */
  lemma {:induction false} RunImage(db: Db, turns: seq<Turn>, w: nat)
    requires DbInv(db) && CanPlay(db, turns) && InTransaction(db, w) && StaysOpen(turns, w)
    ensures var db' := Play(db, turns);
      && DbInv(db') && InTransaction(db', w) && db'.reg.phases[w].xid == db.reg.phases[w].xid
      && RollbackImage(db', w) == Replay(db, turns, w, RollbackImage(db, w))
    decreases |turns|
  {
    hide DbInv, Take, CanStep, RollbackImage, InTransaction, Without;
    if turns != [] {
      TurnImage(db, turns[0].worker, turns[0].step, w);
      assert StaysOpen(turns[1..], w) by {
        assert forall i :: 0 <= i < |turns[1..]| ==> turns[1..][i] == turns[i + 1];
      }
      RunImage(Take(db, turns[0].worker, turns[0].step), turns[1..], w);
    }
  }

  /**
   Abort under concurrency: once a transaction has undone everything, whatever the
   others wrote, undid, committed or aborted meanwhile, the page is exactly as if it
   had made only its inserts.
   */
  lemma {:induction false} AbortUnderConcurrency(db: Db, turns: seq<Turn>, w: nat)
    requires Reachable(db) && CanPlay(db, turns) && InTransaction(db, w) && db.work[w].undo == [] && StaysOpen(turns, w)
    requires w < |Play(db, turns).work| && Play(db, turns).work[w].undo == []
    ensures Play(db, turns).heap.slots == Replay(db, turns, w, db.heap.slots)
  {
    ReachableInv(db);
    RunImage(db, turns, w);
  }

  /** The last tuple that somebody other than w put into slot t during the run, or the given one. */
  ghost function LastByOthers(db: Db, turns: seq<Turn>, w: nat, t: nat, tuple: Version): Version
    requires CanPlay(db, turns) && t < |db.heap.slots|
    decreases |turns|
  {
    if turns == [] then tuple
    else
      SlotsNeverGo(db, turns[0].worker, turns[0].step);
      var next := Take(db, turns[0].worker, turns[0].step);
      var changed := turns[0].worker != w && next.heap.slots[t] != db.heap.slots[t];
      LastByOthers(next, turns[1..], w, t, if changed then next.heap.slots[t].tuple else tuple)
  }

  lemma {:induction false} ReplayAt(db: Db, turns: seq<Turn>, w: nat, page: seq<Slot>, t: nat)
    requires CanPlay(db, turns) && |page| == |db.heap.slots| && t < |page|
    ensures Replay(db, turns, w, page)[t] == page[t].(tuple := LastByOthers(db, turns, w, t, page[t].tuple))
    decreases |turns|
  {
    if turns != [] {
      var v, s := turns[0].worker, turns[0].step;
      SlotsNeverGo(db, v, s);
      hide Take, CanStep;
      var page' := Without(db, v, s, w, page);
      ReplayAt(Take(db, v, s), turns[1..], w, page', t);
    }
  }

  /** After an abort every slot that was there holds the last tuple somebody else put into it, or the one it had. */
  lemma {:induction false} AbortLeavesOthersTuples(db: Db, turns: seq<Turn>, w: nat, t: nat)
    requires Reachable(db) && CanPlay(db, turns) && InTransaction(db, w) && db.work[w].undo == [] && StaysOpen(turns, w)
    requires w < |Play(db, turns).work| && Play(db, turns).work[w].undo == [] && t < |db.heap.slots|
    ensures t < |Play(db, turns).heap.slots|
    ensures var slot := db.heap.slots[t];
      Play(db, turns).heap.slots[t] == slot.(tuple := LastByOthers(db, turns, w, t, slot.tuple))
  {
    AbortUnderConcurrency(db, turns, w);
    ReplayAt(db, turns, w, db.heap.slots, t);
  }

  // ---- What an abort leaves behind -------------------------------------------------------

  /** The slots that w's inserts add, in order. */
  function InsertedBy(turns: seq<Turn>, w: nat, me: nat): seq<Slot> {
    if turns == [] then []
    else
      (if turns[0].worker == w && turns[0].step.Insert? then [InsertedSlot(me, turns[0].step.data)] else [])
      + InsertedBy(turns[1..], w, me)
  }

  predicate OthersLeavePage(turns: seq<Turn>, w: nat) {
    forall i :: 0 <= i < |turns| && turns[i].worker != w ==> LeavesPage(turns[i].step)
  }

  lemma {:induction false} TurnAlone(db: Db, v: nat, s: Step, w: nat, page: seq<Slot>)
    requires CanStep(db, v, s) && InTransaction(db, w) && |page| == |db.heap.slots|
    requires if v == w then (s.Life? ==> s.action.StartRollback?) else LeavesPage(s)
    ensures Without(db, v, s, w, page) ==
      page + (if v == w && s.Insert? then [InsertedSlot(db.reg.phases[w].xid, s.data)] else [])
  {
    SlotsNeverGo(db, v, s);
    if v == w {
      OwnSlots(db, w, s);
      hide Take, CanStep;
    } else {
      QuietTurn(db, v, s, w);
      FollowSame(db.heap.slots, page);
    }
  }

  lemma {:induction false} ReplayAlone(db: Db, turns: seq<Turn>, w: nat, page: seq<Slot>)
    requires DbInv(db) && CanPlay(db, turns) && InTransaction(db, w) && StaysOpen(turns, w) && OthersLeavePage(turns, w)
    requires |page| == |db.heap.slots|
    ensures Replay(db, turns, w, page) == page + InsertedBy(turns, w, db.reg.phases[w].xid)
    decreases |turns|
  {
    var me := db.reg.phases[w].xid;
    hide Take, CanStep, DbInv, RollbackImage, InTransaction, Without, LeavesPage, InsertedSlot;
    if turns != [] {
      var v, s := turns[0].worker, turns[0].step;
      TurnImage(db, v, s, w);
      TurnAlone(db, v, s, w, page);
      assert StaysOpen(turns[1..], w) && OthersLeavePage(turns[1..], w) by {
        assert forall i :: 0 <= i < |turns[1..]| ==> turns[1..][i] == turns[i + 1];
      }
      var own := if v == w && s.Insert? then [InsertedSlot(me, s.data)] else [];
      ReplayAlone(Take(db, v, s), turns[1..], w, page + own);
      AppendAll(page, own, InsertedBy(turns[1..], w, me));
    }
  }

  lemma {:induction false} AppendAll(a: seq<Slot>, b: seq<Slot>, c: seq<Slot>)
    ensures (a + b) + c == a + (b + c)
  {}

  /**
   When nobody else writes, an abort leaves the page exactly as it was plus one
   slot for each insert; so it restores the page if and only if nothing was inserted.
   */
  lemma {:induction false} AbortRestoresPage(db: Db, turns: seq<Turn>, w: nat)
    requires Reachable(db) && CanPlay(db, turns) && InTransaction(db, w) && db.work[w].undo == []
    requires StaysOpen(turns, w) && OthersLeavePage(turns, w)
    requires w < |Play(db, turns).work| && Play(db, turns).work[w].undo == []
    ensures var added := InsertedBy(turns, w, db.reg.phases[w].xid); var page := Play(db, turns).heap.slots;
      && page == db.heap.slots + added
      && (page == db.heap.slots <==> forall i :: 0 <= i < |turns| && turns[i].worker == w ==> !turns[i].step.Insert?)
  {
    ReachableInv(db);
    AbortUnderConcurrency(db, turns, w);
    ReplayAlone(db, turns, w, db.heap.slots);
    NothingInserted(turns, w, db.reg.phases[w].xid);
    assert InsertedBy(turns, w, db.reg.phases[w].xid) == [] <==>
      Play(db, turns).heap.slots == db.heap.slots by {
      assert |Play(db, turns).heap.slots| == |db.heap.slots| + |InsertedBy(turns, w, db.reg.phases[w].xid)|;
    }
  }

  lemma {:induction false} NothingInserted(turns: seq<Turn>, w: nat, me: nat)
    ensures InsertedBy(turns, w, me) == [] <==>
      forall i :: 0 <= i < |turns| && turns[i].worker == w ==> !turns[i].step.Insert?
  {
    if turns != [] {
      NothingInserted(turns[1..], w, me);
      assert forall i :: 0 < i < |turns| ==> turns[i] == turns[1..][i - 1];
      assert forall i :: 0 <= i < |turns[1..]| ==> turns[1..][i] == turns[i + 1];
    }
  }

  /** Transaction x is over, or has nothing left to undo before it is. */
  ghost predicate Spent(db: Db, x: nat) {
    Doomed(db.reg, x) && |db.work| == |db.reg.phases| &&
    (db.reg.history[x] != ABORTED ==> db.work[db.reg.xidToWorker[x]].undo == [])
  }

  /** No reader but x itself, whatever its snapshot, finds anything in a slot left over from x. */
  lemma {:induction false} LeftoverIsUnreadable(db: Db, t: nat, me: nat, snapshot: Snapshot)
    requires DbInv(db) && t < |db.heap.slots| && Spent(db, db.heap.slots[t].tuple.xid)
    requires db.heap.slots[t].tuple.undo == 0 && me != db.heap.slots[t].tuple.xid
    ensures ReadNow(db, me, snapshot, t) == Nothing
  {
    var x := db.heap.slots[t].tuple.xid;
    HeapOkLog(db.heap, db.reg);
    assert VersionOk(db.heap, db.reg, t, db.heap.slots[t].tuple);
    if db.reg.history[x] != ABORTED { assert PhaseOk(db.reg, db.reg.xidToWorker[x]); }
  }

  /** Once everything is undone, what is left of the transaction are inserts, and nobody else can read them. */
  lemma {:induction false} RolledBackMeansGone(db: Db, w: nat, t: nat, me: nat, snapshot: Snapshot)
    requires Reachable(db) && w < |db.work| && w < |db.reg.phases| && db.reg.phases[w].RollingBack? &&
      db.work[w].undo == []
    requires t < |db.heap.slots| && db.heap.slots[t].tuple.xid == db.reg.phases[w].xid && me != db.reg.phases[w].xid
    ensures DbInv(db) && Spent(db, db.reg.phases[w].xid)
    ensures db.heap.slots[t].tuple.undo == 0 && ReadNow(db, me, snapshot, t) == Nothing
  {
    ReachableInv(db);
    assert WorkOk(db, w) && PhaseOk(db.reg, w);
    hide DbInv, ReadNow, Reachable;
    LeftoverIsUnreadable(db, t, me, snapshot);
  }

  lemma {:induction false} SpentStays(db: Db, v: nat, s: Step, x: nat)
    requires DbInv(db) && CanStep(db, v, s) && Spent(db, x)
    ensures Spent(Take(db, v, s), x)
  {
    if s.Life? {
      hide Apply, Enabled, Inv;
      DoomedStays(db.reg, v, s.action, x);
    }
  }

  lemma {:induction false} LeftoverStays(db: Db, v: nat, s: Step, t: nat)
    requires DbInv(db) && CanStep(db, v, s) && t < |db.heap.slots| && Spent(db, db.heap.slots[t].tuple.xid)
    ensures t < |Take(db, v, s).heap.slots| && Take(db, v, s).heap.slots[t] == db.heap.slots[t]
  {
    if !LeavesPage(s) {
      var change := WritingTurn(db, v, s);
      SpentDoesNotWrite(db, v, s, db.heap.slots[t].tuple.xid);
      hide DbInv, Take, CanStep, Spent;
    } else {
      hide DbInv, Spent;
    }
  }

  lemma {:induction false} SpentDoesNotWrite(db: Db, v: nat, s: Step, x: nat)
    requires DbInv(db) && CanStep(db, v, s) && !LeavesPage(s) && Spent(db, x)
    ensures db.reg.phases[v].xid != x && x !in Committed(db.reg)
  {
    assert PhaseOk(db.reg, v);
    if db.reg.history[x] != ABORTED {
      var o := db.reg.xidToWorker[x];
      assert PhaseOk(db.reg, o);
    }
  }

  /**
   An aborted insert: its slot stays on the page for ever, exactly as it is, and
   no transaction but its own ever reads anything there.
   */
  lemma {:induction false} AbortedInsertStaysUnreadable(db: Db, turns: seq<Turn>, t: nat, me: nat, snapshot: Snapshot)
    requires DbInv(db) && CanPlay(db, turns) && t < |db.heap.slots| && Spent(db, db.heap.slots[t].tuple.xid)
    requires db.heap.slots[t].tuple.undo == 0 && me != db.heap.slots[t].tuple.xid
    ensures var db' := Play(db, turns);
      && DbInv(db') && t < |db'.heap.slots| && db'.heap.slots[t] == db.heap.slots[t]
      && ReadNow(db', me, snapshot, t) == Nothing
    decreases |turns|
  {
    hide DbInv, Spent, ReadNow, Take, CanStep;
    if turns == [] {
      LeftoverIsUnreadable(db, t, me, snapshot);
    } else {
      var v, s := turns[0].worker, turns[0].step;
      TakeOk(db, v, s);
      SpentStays(db, v, s, db.heap.slots[t].tuple.xid);
      LeftoverStays(db, v, s, t);
      AbortedInsertStaysUnreadable(Take(db, v, s), turns[1..], t, me, snapshot);
    }
  }

  // ---- After the abort ------------------------------------------------------------------------

  /** No page tuple of a transaction marked aborted carries a USN. */
  ghost predicate AbortedIsUndone(db: Db) {
    forall t :: 0 <= t < |db.heap.slots| ==> TupleIsUndone(db, t)
  }

  ghost predicate TupleIsUndone(db: Db, t: nat)
    requires t < |db.heap.slots|
  {
    var tuple := db.heap.slots[t].tuple;
    tuple.xid in db.reg.history && db.reg.history[tuple.xid] == ABORTED ==> tuple.undo == 0
  }

  lemma {:induction false} MarkingIsUndone(db: Db, w: nat, t: nat)
    requires DbInv(db) && CanStep(db, w, Life(MarkAborted)) && t < |db.heap.slots|
    requires db.heap.slots[t].tuple.xid == db.reg.phases[w].xid
    ensures db.heap.slots[t].tuple.undo == 0
  {
    assert WorkOk(db, w);
  }

  lemma {:induction false} WritesAreUndone(db: Db, v: nat, s: Step, t: nat)
    requires DbInv(db) && CanStep(db, v, s) && !LeavesPage(s) && AbortedIsUndone(db) && t < |Take(db, v, s).heap.slots|
    ensures TupleIsUndone(Take(db, v, s), t)
  {
    var change := WritingTurn(db, v, s);
    assert PhaseOk(db.reg, v);
    assert t < |db.heap.slots| ==> TupleIsUndone(db, t);
    var db', x := Take(db, v, s), db.reg.phases[v].xid;
    assert Changed(db.heap, db'.heap, Committed(db.reg), x, change) && db'.reg == db.reg;
    assert db.reg.history[x] == IN_PROGRESS;
    hide DbInv, CanStep, Take, AbortedIsUndone, PhaseOk, HeapStep, Inv;
  }

  lemma {:induction false} StepIsUndone(db: Db, v: nat, s: Step)
    requires DbInv(db) && CanStep(db, v, s) && AbortedIsUndone(db)
    ensures AbortedIsUndone(Take(db, v, s))
  {
    var db' := Take(db, v, s);
    hide DbInv, Take, CanStep;
    forall t | 0 <= t < |db'.heap.slots| ensures TupleIsUndone(db', t) {
      if LeavesPage(s) { RestIsUndone(db, v, s, t); } else { WritesAreUndone(db, v, s, t); }
    }
  }

  lemma {:induction false} RestIsUndone(db: Db, v: nat, s: Step, t: nat)
    requires DbInv(db) && CanStep(db, v, s) && LeavesPage(s) && AbortedIsUndone(db) && t < |Take(db, v, s).heap.slots|
    ensures TupleIsUndone(Take(db, v, s), t)
  {
    assert TupleIsUndone(db, t);
    if s == Life(MarkAborted) && db.heap.slots[t].tuple.xid == db.reg.phases[v].xid { MarkingIsUndone(db, v, t); }
    if s.Life? { assert PhaseOk(db.reg, v); }
    hide DbInv, AbortedIsUndone, Inv;
  }

  lemma {:induction false} RunIsUndone(db: Db, turns: seq<Turn>)
    requires DbInv(db) && CanPlay(db, turns) && AbortedIsUndone(db)
    ensures AbortedIsUndone(Play(db, turns))
    decreases |turns|
  {
    hide DbInv, Take, CanStep, AbortedIsUndone;
    if turns != [] {
      TakeOk(db, turns[0].worker, turns[0].step);
      StepIsUndone(db, turns[0].worker, turns[0].step);
      RunIsUndone(Take(db, turns[0].worker, turns[0].step), turns[1..]);
    }
  }

  /**
   In every reachable state, a page tuple of a transaction whose status is ABORTED (3) is an
   insert, and nobody else finds anything there: no update or delete outlives its abort.
   */
  lemma {:induction false} AbortedLeavesOnlyInserts(db: Db, t: nat, me: nat, snapshot: Snapshot)
    requires Reachable(db) && t < |db.heap.slots|
    requires var x := db.heap.slots[t].tuple.xid; x in db.reg.history && db.reg.history[x] == 3 && me != x
    ensures DbInv(db) && db.heap.slots[t].tuple.undo == 0 && ReadNow(db, me, snapshot, t) == Nothing
  {
    ReachableInv(db);
    var workers: nat, turns :| CanPlay(InitialDb(workers), turns) && Play(InitialDb(workers), turns) == db;
    InitialDbInv(workers);
    RunIsUndone(InitialDb(workers), turns);
    assert TupleIsUndone(db, t);
    LeftoverIsUnreadable(db, t, me, snapshot);
  }
}
