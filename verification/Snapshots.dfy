/**
 What a snapshot sees.  A snapshot is a CSN read from the counter; a reader asks
 the history table for the status of a version's creator and waits out
 COMMITTING.  Over every interleaving the answers for one snapshot never change.
 */
module Snapshots {
  import opened Registry

  // ---- Runs of the registry ---------------------------------------------

  datatype Event = Event(worker: nat, action: Action)

  predicate CanRun(r: Tables, evs: seq<Event>)
    decreases |evs|
  {
    evs == [] ||
    (Enabled(r, evs[0].worker, evs[0].action) &&
     CanRun(Apply(r, evs[0].worker, evs[0].action), evs[1..]))
  }

  function After(r: Tables, evs: seq<Event>): Tables
    requires CanRun(r, evs)
    decreases |evs|
  {
    if evs == [] then r else After(Apply(r, evs[0].worker, evs[0].action), evs[1..])
  }

  lemma {:induction false} RunInv(r: Tables, evs: seq<Event>)
    requires Inv(r) && CanRun(r, evs)
    ensures Inv(After(r, evs)) && Evolves(r, After(r, evs))
    decreases |evs|
  {
    if evs != [] {
      var next := Apply(r, evs[0].worker, evs[0].action);
      StepInv(r, evs[0].worker, evs[0].action);
      RunInv(next, evs[1..]);
      EvolvesTransitive(r, next, After(r, evs));
    }
  }

  lemma {:induction false} EvolvesTransitive(a: Tables, b: Tables, c: Tables)
    requires Evolves(a, b) && Evolves(b, c)
    ensures Evolves(a, c)
  {
    forall x | AssignedCsn(a, x) == 0 && AssignedCsn(c, x) != 0
      ensures a.csn <= AssignedCsn(c, x)
    {
      if AssignedCsn(b, x) != 0 { assert AssignedCsn(c, x) == AssignedCsn(b, x); }
    }
    forall x | x in a.history
      ensures x in c.history && MayBecome(a.history[x], c.history[x])
    {
      assert x in b.history && MayBecome(a.history[x], b.history[x]);
    }
  }

  /** The laws of the tables in every state of every run of any number of workers. */
  lemma {:induction false} RegistryLaws(workers: nat, evs: seq<Event>, x: nat, y: nat)
    requires CanRun(InitialTables(workers), evs)
    ensures var r := After(InitialTables(workers), evs);
      // an XID is registered with a worker exactly while its fate is open,
      // and then that worker's slot holds it
      && (x in r.xidToWorker <==> x in r.history && r.history[x] in {IN_PROGRESS, COMMITTING})
      && (x in r.xidToWorker ==>
            var w := r.xidToWorker[x];
            w < |r.transactions| && r.transactions[w].Some? && r.transactions[w].value == x)
      // published CSNs are distinct and below the counter
      && (x in r.history && IsNormal(r.history[x]) ==> r.history[x] < r.csn)
      && (x in r.history && y in r.history && x != y && IsNormal(r.history[x]) ==>
            r.history[x] != r.history[y])
      // a released transaction latch means a final status
      && (x in r.objects && !r.objects[x].latched ==> x in r.history && IsFinal(r.history[x]))
  {
    InitialInv(workers);
    RunInv(InitialTables(workers), evs);
    var r := After(InitialTables(workers), evs);
    if x in r.xidToWorker {
      assert OwnerOk(r, x) && EntryOk(r, x) && PhaseOk(r, r.xidToWorker[x]);
    }
    if x in r.history { assert EntryOk(r, x); }
    if x in r.history && y in r.history {
      assert x != y && IsNormal(r.history[x]) ==> AssignedCsn(r, x) != AssignedCsn(r, y);
    }
    if x in r.objects { assert ObjectOk(r, x); }
  }

  /** A final status never changes again, and a status only moves forward. */
  lemma {:induction false} StatusOnlyAdvances(workers: nat, before: seq<Event>, more: seq<Event>, x: nat)
    requires CanRun(InitialTables(workers), before)
    requires CanRun(After(InitialTables(workers), before), more)
    requires x in After(InitialTables(workers), before).history
    ensures var r := After(InitialTables(workers), before); var r' := After(r, more);
      && x in r'.history && MayBecome(r.history[x], r'.history[x])
      && (IsFinal(r.history[x]) ==> r'.history[x] == r.history[x])
  {
    InitialInv(workers);
    RunInv(InitialTables(workers), before);
    RunInv(After(InitialTables(workers), before), more);
  }

  // ---- Visibility verdicts ----------------------------------------------

  datatype Answer = Yes | No | Busy

  /** The status branch of tuple_is_visible for another transaction's version. */
  function OthersAnswer(history: map<nat, nat>, snapshot: nat, x: nat): Answer
    requires x in history
  {
    var csn := history[x];
    if csn == COMMITTING then Busy
    else if csn == IN_PROGRESS || csn == ABORTED then No
    else if csn == FROZEN || csn < snapshot then Yes
    else No
  }

  /**
   The answer by the recorded code, whatever the table: frozen (1) is seen by every snapshot,
   2 and 3 by none, 4 has to be waited out, and a CSN is seen by the snapshots above it.
   */
  lemma {:induction false} AnswerByCode(history: map<nat, nat>, snapshot: nat, x: nat)
    requires x in history && history[x] >= 1
    ensures OthersAnswer(history, snapshot, x) ==
      if history[x] == 4 then Busy
      else if history[x] == 1 || 5 <= history[x] < snapshot then Yes
      else No
  {}

  /** The transactions a snapshot sees: those whose CSN is already fixed below it. */
  function Seen(r: Tables, snapshot: nat): set<nat> {
    set x | x in r.history && 0 != AssignedCsn(r, x) < snapshot
  }

  /** Whenever the tables answer at all, they answer membership in Seen. */
  lemma {:induction false} AnswerIsSeen(r: Tables, snapshot: nat, x: nat)
    requires Inv(r) && x in r.history && OthersAnswer(r.history, snapshot, x) != Busy
    ensures OthersAnswer(r.history, snapshot, x) == Yes <==> x in Seen(r, snapshot)
  {
    assert EntryOk(r, x);
    if x in r.xidToWorker {
      assert OwnerOk(r, x) && PhaseOk(r, r.xidToWorker[x]);
    }
  }

  lemma {:induction false} SeenStable(r: Tables, r': Tables, snapshot: nat)
    requires Inv(r) && Inv(r') && Evolves(r, r') && snapshot <= r.csn
    ensures Seen(r', snapshot) == Seen(r, snapshot)
  {
    forall x ensures x in Seen(r', snapshot) <==> x in Seen(r, snapshot) {
      if AssignedCsn(r, x) != 0 {
        assert AssignedCsn(r', x) == AssignedCsn(r, x);
        AssignedIsBegun(r, x);
      } else if AssignedCsn(r', x) != 0 {
        assert r.csn <= AssignedCsn(r', x);
      }
    }
  }

  lemma {:induction false} AssignedIsBegun(r: Tables, x: nat)
    requires Inv(r) && AssignedCsn(r, x) != 0
    ensures x in r.history
  {
    if x in r.xidToWorker { assert OwnerOk(r, x); }
  }

  /**
   In every interleaving, once a snapshot is taken, each answer it gets about
   another transaction is the same: a transaction not yet COMMITTING at that
   moment can only get a CSN at or above the snapshot.
   */
  lemma {:induction false} VerdictNeverChanges(r: Tables, evs: seq<Event>, snapshot: nat, x: nat)
    requires Inv(r) && CanRun(r, evs) && snapshot <= r.csn
    requires x in r.history && OthersAnswer(r.history, snapshot, x) != Busy
    ensures var r' := After(r, evs);
      x in r'.history &&
      OthersAnswer(r'.history, snapshot, x) in {Busy, OthersAnswer(r.history, snapshot, x)}
  {
    var r' := After(r, evs);
    RunInv(r, evs);
    SeenStable(r, r', snapshot);
    AnswerIsSeen(r, snapshot, x);
    if OthersAnswer(r'.history, snapshot, x) != Busy { AnswerIsSeen(r', snapshot, x); }
  }

  /** A transaction begun after the snapshot is never seen by it. */
  lemma {:induction false} LaterTransactionsUnseen(r: Tables, evs: seq<Event>, snapshot: nat, x: nat)
    requires Inv(r) && CanRun(r, evs) && snapshot <= r.csn
    requires x !in r.history && x in After(r, evs).history
    ensures OthersAnswer(After(r, evs).history, snapshot, x) != Yes
  {
    var r' := After(r, evs);
    RunInv(r, evs);
    SeenStable(r, r', snapshot);
    if OthersAnswer(r'.history, snapshot, x) != Busy { AnswerIsSeen(r', snapshot, x); }
  }

  /**
   Commit order: a snapshot sees exactly the committed transactions with smaller
   CSNs, a larger snapshot sees a superset, and a commit that was published
   before the snapshot was read is seen by it for ever after.
   */
  lemma {:induction false} CommitOrderPrefix(r: Tables, evs: seq<Event>, low: nat, high: nat, x: nat)
    requires Inv(r) && CanRun(r, evs) && low <= high
    requires x in r.history && IsNormal(r.history[x])
    ensures x in Seen(r, low) <==> r.history[x] < low
    ensures Seen(r, low) <= Seen(r, high)
    ensures var r' := After(r, evs);
      x in Seen(r', r'.csn) && x in r'.history && OthersAnswer(r'.history, r'.csn, x) == Yes
  {
    RunInv(r, evs);
    var r' := After(r, evs);
    assert MayBecome(r.history[x], r'.history[x]);
    assert EntryOk(r', x);
  }
}
