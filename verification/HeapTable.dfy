/**
 The heap page and its undo log as objects, written in place.  Each method equals
 the function the interleaved system takes as its step.
 */
module HeapTables {
  import opened Wrappers
  import opened Registry
  import opened Snapshots
  import opened HeapVersions
  import opened Database
  import opened DatabaseInvariant

  /** The records of inserts among usns are referred to by no page tuple and no saved version. */
  ghost predicate InsertsUnlinked(slots: seq<Slot>, log: map<nat, UndoRecord>, usns: seq<nat>) {
    && (forall t, u :: 0 <= t < |slots| && u in usns && u in log && log[u].DeleteRecord? ==> slots[t].tuple.undo != u)
    && (forall u, d :: u in usns && d in usns && u in log && d in log ==>
          log[d].DeleteRecord? && !log[u].DeleteRecord? ==> log[u].prior.undo != d)
  }

  /** A worker that is rolling back, in any state the system can be in, may call UndoAllRecords. */
  lemma {:induction false} RollbackIsReady(db: Db, w: nat)
    requires DbInv(db) && w < |db.work| && db.reg.phases[w].RollingBack?
    ensures Undoable(db.heap.slots, db.heap.log, Committed(db.reg), db.reg.phases[w].xid, db.work[w].undo)
    ensures InsertsUnlinked(db.heap.slots, db.heap.log, db.work[w].undo)
  {
    assert WorkOk(db, w);
    forall u | u in db.heap.log
      ensures u > 0
      ensures !db.heap.log[u].DeleteRecord? ==>
        var d := db.heap.log[u].prior.undo; d == 0 || (d in db.heap.log && !db.heap.log[d].DeleteRecord?)
    {
      assert RecordOk(db.heap, db.reg, u);
    }
    forall t | 0 <= t < |db.heap.slots|
      ensures var d := db.heap.slots[t].tuple.undo; d == 0 || (d in db.heap.log && !db.heap.log[d].DeleteRecord?)
    {
      assert VersionOk(db.heap, db.reg, t, db.heap.slots[t].tuple);
    }
    hide HeapOk, RecordOk, VersionOk, WorkOk, Undoable;
  }

  class HeapTable {
    var slots: seq<Slot>
    var log: map<nat, UndoRecord>
    var size: nat

    ghost function Model(): Heap
      reads this
    {
      Heap(slots, log, size)
    }

    constructor ()
      ensures Model() == InitialDb(0).heap
    {
      slots, log, size := [], map[], 0;
    }

    method InsertRecord(record: UndoRecord, bytes: nat) returns (usn: nat)
      modifies this`log, this`size
      ensures usn == old(size) + 1 && size == old(size) + bytes && log == old(log)[usn := record]
      ensures Model() == Append(old(Model()), record, bytes)
    {
      usn := size + 1;
      log := log[usn := record];
      size := size + bytes;
    }

    /**
     The in-place branch of UpdateTuple; None means the guard failed and the caller must wait.
     The page tuple gets exactly the new data, and undo is left the scanned tuple.
     */
    method UpdateTuple(me: nat, t: nat, scanned: Version, data: Payload, bytes: nat) returns (usn: Option<nat>)
      requires t < |slots| && |data| <= slots[t].length
      modifies this
      ensures usn == None <==> old(slots)[t].tuple.xid != scanned.xid
      ensures usn == None ==> Model() == old(Model())
      ensures usn.Some? ==> usn.value == old(size) + 1 && size == old(size) + bytes
      ensures usn.Some? ==> slots == old(slots)[t := old(slots)[t].(tuple := Version(me, usn.value, false, data))]
      ensures usn.Some? ==> log == old(log)[usn.value := UndoRecord.UpdateRecord(t, scanned)]
      ensures usn.Some? ==> Model() == UpdateSlot(old(Model()), me, t, scanned, data, bytes)
    {
      if slots[t].tuple.xid != scanned.xid {
        return None;
      }
      var n := InsertRecord(UndoRecord.UpdateRecord(t, scanned), bytes);
      slots := slots[t := slots[t].(tuple := Version(me, n, false, data))];
      usn := Some(n);
    }

    /** The page tuple keeps its data and is marked; undo is left the tuple as it was on the page. */
    method DeleteTuple(me: nat, t: nat, scanned: Version, bytes: nat) returns (usn: Option<nat>)
      requires t < |slots|
      modifies this
      ensures usn == None <==> old(slots)[t].tuple.xid != scanned.xid
      ensures usn == None ==> Model() == old(Model())
      ensures usn.Some? ==> usn.value == old(size) + 1 && size == old(size) + bytes
      ensures usn.Some? ==>
        var page := old(slots)[t].tuple;
        && slots == old(slots)[t := old(slots)[t].(tuple := Version(me, usn.value, true, page.data))]
        && log == old(log)[usn.value := UndoRecord.InsertRecord(t, page)]
      ensures usn.Some? ==> Model() == DeleteSlot(old(Model()), me, t, bytes)
    {
      var page := slots[t].tuple;
      if page.xid != scanned.xid {
        return None;
      }
      var n := InsertRecord(UndoRecord.InsertRecord(t, page), bytes);
      slots := slots[t := slots[t].(tuple := page.(xid := me, undo := n, deleted := true))];
      usn := Some(n);
    }

    /** The new slot holds exactly the data and reserves no more bytes; its tuple carries no USN. */
    method InsertTuple(me: nat, data: Payload, bytes: nat) returns (usn: nat)
      modifies this
      ensures usn == old(size) + 1 && size == old(size) + bytes
      ensures slots == old(slots) + [Slot(Normal, |data|, Version(me, 0, false, data))]
      ensures log == old(log)[usn := UndoRecord.DeleteRecord(|old(slots)|)]
      ensures Model() == InsertSlot(old(Model()), me, data, bytes)
    {
      var serialized := Version(me, 0, false, data);
      usn := InsertRecord(UndoRecord.DeleteRecord(|slots|), bytes);
      slots := slots + [Slot(Normal, |data|, serialized)];
    }

    /**
     A record is undone only where the page tuple still carries its USN: an update or delete gives
     back what it saved, an insert leaves its item dead.  Otherwise nothing changes, and for an
     update that is the error.
     */
    method PerformUndo(usn: nat) returns (error: Option<string>)
      requires usn in log && log[usn].at < |slots|
      modifies this`slots
      ensures error.Some? <==> log[usn].UpdateRecord? && old(slots)[log[usn].at].tuple.undo != usn
      ensures error.Some? ==> error.value == "can not undo update: tuple was concurrently modified"
      ensures var record := log[usn]; var was := old(slots)[record.at];
        slots == if was.tuple.undo != usn || (record.DeleteRecord? && was.state != Normal) then old(slots)
                 else if record.DeleteRecord? then old(slots)[record.at := Slot(Dead, 0, was.tuple)]
                 else old(slots)[record.at := was.(tuple := record.prior)]
      ensures error == None <==> ApplyUndo(old(Model()), usn).Ok?
      ensures Model() == if error == None then ApplyUndo(old(Model()), usn).value else old(Model())
    {
      var record := log[usn];
      var slot := slots[record.at];
      error := None;
      match record
      case DeleteRecord(at) =>
        if slot.state == Normal && slot.tuple.undo == usn {
          slots := slots[at := Slot(Dead, 0, slot.tuple)];
        }
      case UpdateRecord(at, prior) =>
        if slot.tuple.undo != usn {
          error := Some("can not undo update: tuple was concurrently modified");
        } else {
          slots := slots[at := slot.(tuple := prior)];
        }
      case InsertRecord(at, prior) =>
        if slot.tuple.undo == usn {
          slots := slots[at := slot.(tuple := prior)];
        }
    }

    /**
     UndoAllRecords: newest record first.  Where the transaction is able to roll
     back, no record fails and the page becomes the rollback image.
     */
    method UndoAllRecords(ghost committed: set<nat>, ghost x: nat, usns: seq<nat>) returns (error: Option<string>)
      requires Undoable(slots, log, committed, x, usns)
      requires InsertsUnlinked(slots, log, usns)
      modifies this`slots
      ensures error == None
      ensures (forall u :: u in usns ==> u in log && log[u].at < |old(slots)|)
      ensures slots == Image(old(slots), log, usns)
      ensures forall t :: 0 <= t < |slots| && slots[t].tuple.xid == x ==> slots[t].tuple.undo == 0
    {
      UndoableListed(slots, log, committed, x, usns);
      error := None;
      var i := |usns|;
      assert usns[..i] == usns;
      while i > 0
        invariant error == None && 0 <= i <= |usns| && |slots| == |old(slots)|
        invariant Undoable(slots, log, committed, x, usns[..i])
        invariant forall u :: u in usns ==> u in log && log[u].at < |slots|
        invariant forall t, u :: 0 <= t < |slots| && u in usns && log[u].DeleteRecord? ==> slots[t].tuple.undo != u
        invariant Image(slots, log, usns[..i]) == Image(old(slots), log, usns)
      {
        i := i - 1;
        assert usns[..i + 1][..i] == usns[..i];
        assert usns[i] in usns;
        error := PerformUndo(usns[i]);
        if error != None {
          return;
        }
      }
    }
  }

  // ---- The scan ----------------------------------------------------------

  /** What a reader needs of the page: undo links lead into the log, creators have begun. */
  ghost predicate Readable(h: Heap, history: map<nat, nat>) {
    && LogOk(h.log) && XidsKnown(h.log, history)
    && forall t :: 0 <= t < |h.slots| ==>
         h.slots[t].tuple.xid in history && (h.slots[t].tuple.undo == 0 || h.slots[t].tuple.undo in h.log)
  }

  class HeapTableScan {
    const table: HeapTable
    const me: nat
    const snapshot: Snapshot
    var itemid: nat
    var end: bool

    constructor (table: HeapTable, me: nat, snapshot: Snapshot)
      ensures this.table == table && this.me == me && this.snapshot == snapshot
      ensures itemid == 0 && !end
    {
      this.table, this.me, this.snapshot := table, me, snapshot;
      itemid, end := 0, false;
    }

    /** What the undo chain below the page tuple is to yield: its newest version not answered No decides. */
    ghost predicate FoundBelow(history: map<nat, nat>, header: Version, c: Choice)
      reads table
      requires LogOk(table.log) && (header.undo == 0 || header.undo in table.log)
    {
      var chain := Chain(table.log, header.undo);
      exists i: nat :: FirstAnswered(history, me, snapshot, chain, i) &&
        c == if i == |chain| then Nothing else if IsBusy(history, me, chain[i]) then Blocked else Found(chain[i])
    }

    /** Blocked means a creator was COMMITTING: the code spins and asks again. */
    method FindVisibleTuplePage(history: map<nat, nat>, header: Version) returns (c: Choice)
      requires LogOk(table.log) && XidsKnown(table.log, history)
      requires header.undo == 0 || header.undo in table.log
      ensures c == FindVisible(table.log, history, me, snapshot, header.undo)
      ensures FoundBelow(history, header, c)
    {
      var _ := FindVisibleExactly(table.log, history, me, snapshot, header.undo);
      var usn := header.undo;
      while usn != 0
        invariant usn == 0 || usn in table.log
        invariant FindVisible(table.log, history, me, snapshot, usn)
               == FindVisible(table.log, history, me, snapshot, header.undo)
        decreases usn
      {
        var record := table.log[usn];
        if record.DeleteRecord? {
          return Nothing;
        }
        var tuple := record.prior;
        assert LinkOk(table.log, usn, tuple);
        var visible := IsVisible(history, me, snapshot, tuple);
        if visible == Busy {
          return Blocked;
        } else if visible == Yes {
          return Found(tuple);
        }
        usn := tuple.undo;
      }
      c := Nothing;
    }

    /** c is what the newest version of slot t not answered No makes of the choice there. */
    ghost predicate Decided(history: map<nat, nat>, t: nat, c: Choice)
      reads table
      requires Readable(table.Model(), history) && t < |table.slots|
    {
      exists i: nat :: DecidedBy(history, me, snapshot, table.slots[t].state, VersionsOf(table.Model(), t), i, c)
    }

    lemma {:induction false} ChoiceIsDecided(history: map<nat, nat>, t: nat)
      requires Readable(table.Model(), history) && t < |table.slots|
      ensures Decided(history, t, ChooseNow(table.Model(), history, me, snapshot, t))
    {
      var _ := ChooseNowExactly(table.Model(), history, me, snapshot, t);
    }

    /**
     The next tuple of the page: exactly the slots that hold nothing for the snapshot are
     skipped.  In the slot it stops at, the newest version not answered No decides: the scan
     is held up if its creator is COMMITTING, and returns it otherwise.
     */
    method GetNextTuple(history: map<nat, nat>) returns (c: Choice)
      requires Readable(table.Model(), history)
      modifies this
      ensures old(end) ==> c == Nothing && end && itemid == old(itemid)
      ensures !old(end) ==>
        (c.Found? ==>
          && old(itemid) < itemid <= |table.slots| && !end
          && ChooseNow(table.Model(), history, me, snapshot, itemid - 1) == c
          && (forall t :: old(itemid) <= t < itemid - 1 ==>
            ChooseNow(table.Model(), history, me, snapshot, t) == Nothing))
      ensures !old(end) ==>
        (c == Nothing ==>
          && end
          && (forall t :: old(itemid) <= t < |table.slots| ==>
            ChooseNow(table.Model(), history, me, snapshot, t) == Nothing))
      ensures !old(end) ==>
        (c == Blocked ==>
          && old(itemid) <= itemid < |table.slots| && !end
          && ChooseNow(table.Model(), history, me, snapshot, itemid) == Blocked
          && (forall t :: old(itemid) <= t < itemid ==> ChooseNow(table.Model(), history, me, snapshot, t) == Nothing))
      ensures !old(end) && c != Nothing ==>
        var t := if c == Blocked then itemid else itemid - 1;
        0 <= t < |table.slots| && Decided(history, t, c)
      ensures !old(end) && c == Nothing ==>
        forall t :: old(itemid) <= t < |table.slots| ==> Decided(history, t, Nothing)
    {
      hide Decided, FindVisible, Chain, VersionsOf;
      if end {
        return Nothing;
      }
      c := Nothing;
      var index := itemid;
      while index < |table.slots|
        invariant old(itemid) == itemid <= index && !end
        invariant index <= |table.slots| || index == itemid
        invariant c == Nothing
        invariant forall t :: old(itemid) <= t < index && t < |table.slots| ==>
          ChooseNow(table.Model(), history, me, snapshot, t) == Nothing
      {
        var slot := table.slots[index];
        if slot.state == Normal {
          var header := slot.tuple;
          var visible := IsVisible(history, me, snapshot, header);
          if visible == Busy {
            c := Blocked;
          } else if visible == Yes {
            if !header.deleted {
              c := Found(header);
            }
          } else {
            c := FindVisibleTuplePage(history, header);
          }
          assert c == ChooseNow(table.Model(), history, me, snapshot, index);
          if c != Nothing {
            ChoiceIsDecided(history, index);
            itemid := if c == Blocked then index else index + 1;
            return;
          }
        }
        index := index + 1;
      }
      end := true;
      forall t | old(itemid) <= t < |table.slots| ensures Decided(history, t, Nothing) {
        ChoiceIsDecided(history, t);
      }
    }

    /** The scan is over: by its first clause GetNextTuple returns nothing from now on. */
    method EndScan()
      modifies this
      ensures end && itemid == 0
    {
      end, itemid := true, 0;
    }
  }
}
