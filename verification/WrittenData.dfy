/**
 What is written is read: the data of an update or insert, and the fact of a delete, reach
 every reader that is to see them, over every run.
 */
module WrittenData {
  import opened Wrappers
  import opened Registry
  import opened Snapshots
  import opened HeapVersions
  import opened Database
  import opened DatabaseInvariant
  import opened DatabaseSteps
  import opened DatabaseTheorems
  import opened CommitOrder
  import opened StatementSnapshots

  /**
   A reader is to see what transaction x wrote under a USN: another transaction's if x has
   published a CSN below the snapshot, its own if an earlier statement wrote it.
   */
  predicate IsToSee(history: map<nat, nat>, me: nat, snapshot: Snapshot, x: nat, usn: nat) {
    x in history && if x == me then usn < snapshot.commandId else 5 <= history[x] < snapshot.csn
  }

  predicate SeesVersion(history: map<nat, nat>, me: nat, snapshot: Snapshot, v: Version) {
    IsToSee(history, me, snapshot, v.xid, v.undo)
  }

  lemma {:induction false} ToSeeIsVisible(r: Tables, me: nat, snapshot: Snapshot, v: Version)
    requires Inv(r) && v.xid in r.history
    ensures IsVisible(r.history, me, snapshot, v) == Yes <==> SeesVersion(r.history, me, snapshot, v)
  {
    assert EntryOk(r, v.xid);
  }

  /** The newest version to be seen is what is read, unless the reader has to wait first. */
  lemma {:induction false} NewestSeenIsRead(db: Db, me: nat, snapshot: Snapshot, t: nat, i: nat)
    requires Reachable(db) && t < |db.heap.slots|
    ensures DbInv(db)
    ensures var c := Versions(db.heap, db.reg, t); var read := ReadNow(db, me, snapshot, t);
      i < |c| && SeesVersion(db.reg.history, me, snapshot, c[i])
      && (forall j :: 0 <= j < i ==> !SeesVersion(db.reg.history, me, snapshot, c[j])) ==>
        read == Blocked || read == if c[i].deleted then Nothing else Found(c[i])
  {
    ReachableInv(db);
    HeapOkLog(db.heap, db.reg);
    assert VersionOk(db.heap, db.reg, t, db.heap.slots[t].tuple) && db.heap.slots[t].state == Normal;
    var history := db.reg.history;
    var c := Versions(db.heap, db.reg, t);
    if i < |c| && SeesVersion(history, me, snapshot, c[i])
       && (forall j :: 0 <= j < i ==> !SeesVersion(history, me, snapshot, c[j]))
    {
      var k := ChooseNowExactly(db.heap, history, me, snapshot, t);
      forall j | 0 <= j <= i
        ensures c[j].xid in history
        ensures IsVisible(history, me, snapshot, c[j]) == Yes <==> SeesVersion(history, me, snapshot, c[j])
        ensures IsVisible(history, me, snapshot, c[j]) == Busy ==> IsBusy(history, me, c[j])
        ensures j > 0 ==> !c[j].deleted
      {
        VersionsBegun(db.heap, db.reg, t, j);
        ToSeeIsVisible(db.reg, me, snapshot, c[j]);
      }
      assert ReadNow(db, me, snapshot, t) == ChooseNow(db.heap, history, me, snapshot, t);
      hide DbInv, Reachable, HeapOk, IsVisible, SeesVersion, ChooseNow, ReadNow, VersionsOf, IsBusy;
    }
  }

  // ---- Writes stay ----------------------------------------------------------------------------

  /** A version stays among those of its slot as long as its transaction is not rolling back or aborted. */
  lemma {:induction false} VersionStays(db: Db, turns: seq<Turn>, t: nat, u: Version)
    requires DbInv(db) && CanPlay(db, turns) && t < |db.heap.slots| && u in Versions(db.heap, db.reg, t)
    requires !Doomed(Play(db, turns).reg, u.xid)
    ensures var db' := Play(db, turns);
      DbInv(db') && t < |db'.heap.slots| && u in Versions(db'.heap, db'.reg, t)
    decreases |turns|
  {
    hide DbInv, Take, CanStep, Doomed, Versions;
    if turns != [] {
      var v, s := turns[0].worker, turns[0].step;
      StepKeepsVersion(db, v, s, t, u);
      if Doomed(Take(db, v, s).reg, u.xid) {
        DoomedRun(Take(db, v, s), turns[1..], u.xid);
      } else {
        VersionStays(Take(db, v, s), turns[1..], t, u);
      }
    }
  }

  lemma {:induction false} CommittedIsNotDoomed(db: Db, x: nat)
    requires DbInv(db) && CommittedAt(db.reg, x)
    ensures !Doomed(db.reg, x)
  {
    if x in db.reg.xidToWorker { assert OwnerOk(db.reg, x) && PhaseOk(db.reg, db.reg.xidToWorker[x]); }
  }

  /** A version on the page after w's write is there to be read, wherever it has got to by then. */
  lemma {:induction false} WriteIsRead(db: Db, turns: seq<Turn>, t: nat, u: Version, me: nat, snapshot: Snapshot)
    returns (i: nat)
    requires Reachable(db) && CanPlay(db, turns) && t < |db.heap.slots| && db.heap.slots[t].tuple == u
    requires var db' := Play(db, turns);
      SeesVersion(db'.reg.history, me, snapshot, u) && (u.xid == me ==> !Doomed(db'.reg, u.xid))
    ensures DbInv(Play(db, turns)) && t < |Play(db, turns).heap.slots|
    ensures var db' := Play(db, turns); var c := Versions(db'.heap, db'.reg, t);
      && i < |c| && c[i] == u && (u.deleted ==> i == 0)
      && ((forall j :: 0 <= j < i ==> !SeesVersion(db'.reg.history, me, snapshot, c[j])) ==>
            ReadNow(db', me, snapshot, t) in {Blocked, if u.deleted then Nothing else Found(u)})
  {
    ReachableInv(db);
    ReachableAfter(db, turns);
    ReachableInv(Play(db, turns));
    if u.xid != me { CommittedIsNotDoomed(Play(db, turns), u.xid); }
    assert Versions(db.heap, db.reg, t)[0] == u;
    VersionStays(db, turns, t, u);
    var db' := Play(db, turns);
    i :| i < |Versions(db'.heap, db'.reg, t)| && Versions(db'.heap, db'.reg, t)[i] == u;
    VersionsBegun(db'.heap, db'.reg, t, i);
    NewestSeenIsRead(db', me, snapshot, t, i);
    hide DbInv, Reachable, ReadNow, Versions, Play, CanPlay, SeesVersion, Doomed;
  }

  /**
   An update's data is read: over every run after it, a reader that is to see the update, in
   whatever transaction, finds it among the versions of the slot, and if it is to see none of
   those above, it reads exactly the data, unless it has to wait first.
   */
  lemma {:induction false} UpdateIsRead(db: Db, w: nat, data: Payload, bytes: nat, turns: seq<Turn>,
                                        me: nat, snapshot: Snapshot)
    returns (i: nat)
    requires Reachable(db) && CanStep(db, w, Update(data, bytes)) && CanPlay(Take(db, w, Update(data, bytes)), turns)
    requires var db' := Play(Take(db, w, Update(data, bytes)), turns); var x := db.reg.phases[w].xid;
      IsToSee(db'.reg.history, me, snapshot, x, db.heap.size + 1) && (x == me ==> !Doomed(db'.reg, x))
    ensures var db' := Play(Take(db, w, Update(data, bytes)), turns); var t := db.work[w].act.t;
      var u := Version(db.reg.phases[w].xid, db.heap.size + 1, false, data);
      && DbInv(db') && t < |db'.heap.slots|
      && var c := Versions(db'.heap, db'.reg, t);
         && i < |c| && c[i] == u
         && ((forall j :: 0 <= j < i ==> !SeesVersion(db'.reg.history, me, snapshot, c[j])) ==>
               ReadNow(db', me, snapshot, t) in {Blocked, Found(u)})
  {
    Reaches(db, w, Update(data, bytes));
    i := WriteIsRead(Take(db, w, Update(data, bytes)), turns, db.work[w].act.t,
                     Version(db.reg.phases[w].xid, db.heap.size + 1, false, data), me, snapshot);
  }

  /** So is an insert's, in the slot it added. */
  lemma {:induction false} InsertIsRead(db: Db, w: nat, data: Payload, bytes: nat, turns: seq<Turn>,
                                        me: nat, snapshot: Snapshot)
    returns (i: nat)
    requires Reachable(db) && CanStep(db, w, Insert(data, bytes)) && CanPlay(Take(db, w, Insert(data, bytes)), turns)
    requires var db' := Play(Take(db, w, Insert(data, bytes)), turns); var x := db.reg.phases[w].xid;
      IsToSee(db'.reg.history, me, snapshot, x, 0) && (x == me ==> !Doomed(db'.reg, x))
    ensures var db' := Play(Take(db, w, Insert(data, bytes)), turns); var t := |db.heap.slots|;
      var u := Version(db.reg.phases[w].xid, 0, false, data);
      && DbInv(db') && t < |db'.heap.slots|
      && var c := Versions(db'.heap, db'.reg, t);
         && i < |c| && c[i] == u
         && ((forall j :: 0 <= j < i ==> !SeesVersion(db'.reg.history, me, snapshot, c[j])) ==>
               ReadNow(db', me, snapshot, t) in {Blocked, Found(u)})
  {
    Reaches(db, w, Insert(data, bytes));
    i := WriteIsRead(Take(db, w, Insert(data, bytes)), turns, |db.heap.slots|,
                     Version(db.reg.phases[w].xid, 0, false, data), me, snapshot);
  }

  /** A delete stays on the page for good, and whoever is to see it reads nothing, unless it has to wait first. */
  lemma {:induction false} DeleteIsRead(db: Db, w: nat, bytes: nat, turns: seq<Turn>, me: nat, snapshot: Snapshot)
    requires Reachable(db) && CanStep(db, w, Remove(bytes)) && CanPlay(Take(db, w, Remove(bytes)), turns)
    requires var db' := Play(Take(db, w, Remove(bytes)), turns); var x := db.reg.phases[w].xid;
      IsToSee(db'.reg.history, me, snapshot, x, db.heap.size + 1) && (x == me ==> !Doomed(db'.reg, x))
    ensures var db' := Play(Take(db, w, Remove(bytes)), turns); var t := db.work[w].act.t;
      && DbInv(db') && t < |db.heap.slots| <= |db'.heap.slots|
      && db'.heap.slots[t].tuple
           == Version(db.reg.phases[w].xid, db.heap.size + 1, true, db.heap.slots[t].tuple.data)
      && ReadNow(db', me, snapshot, t) in {Blocked, Nothing}
  {
    Reaches(db, w, Remove(bytes));
    var t := db.work[w].act.t;
    var u := Version(db.reg.phases[w].xid, db.heap.size + 1, true, db.heap.slots[t].tuple.data);
    var i := WriteIsRead(Take(db, w, Remove(bytes)), turns, t, u, me, snapshot);
    MoreSlots(Take(db, w, Remove(bytes)), turns);
  }

  lemma {:induction false} MoreSlots(db: Db, turns: seq<Turn>)
    requires CanPlay(db, turns)
    ensures |db.heap.slots| <= |Play(db, turns).heap.slots|
    decreases |turns|
  {
    if turns != [] { MoreSlots(Take(db, turns[0].worker, turns[0].step), turns[1..]); }
  }

  lemma {:induction false} Reaches(db: Db, w: nat, s: Step)
    requires Reachable(db) && CanStep(db, w, s)
    ensures Reachable(Take(db, w, s))
  {
    var one := [Turn(w, s)];
    hide Take, CanStep;
    assert one[1..] == [] && Play(Take(db, w, s), []) == Take(db, w, s);
    assert CanPlay(db, one) && Play(db, one) == Take(db, w, s);
    ReachableAfter(db, one);
  }
}
