/** How far a transaction has come, and how it ended, as the tables and its object show it, in every run. */
module TransactionFates {
  import opened Wrappers
  import opened Registry
  import opened Snapshots

  /**
   The code recorded for a worker's transaction at each point of its life: none before it is
   registered, 2 while it runs or rolls back, 4 from the mark until its CSN is published, the
   CSN afterwards, and 3 after an abort.
   */
  lemma {:induction false} CodeOfThePhase(workers: nat, evs: seq<Event>, w: nat)
    requires CanRun(InitialTables(workers), evs) && w < workers
    ensures var r := After(InitialTables(workers), evs);
      && |r.phases| == |r.transactions| == workers
      && match r.phases[w]
         case Idle => r.transactions[w] == None
         case XidTaken(x) => x !in r.history && x !in r.objects && r.transactions[w] == None
         case Installed(x) => x !in r.history && r.transactions[w] == Some(x)
         case Running(x) => x in r.history && r.history[x] == 2 && x in r.xidToWorker && r.xidToWorker[x] == w
         case RollingBack(x) => x in r.history && r.history[x] == 2 && x in r.xidToWorker && r.xidToWorker[x] == w
         case Marked(x) => x in r.history && r.history[x] == 4 && x in r.xidToWorker && r.xidToWorker[x] == w
         case CsnTaken(x, c) => x in r.history && r.history[x] == 4 && 5 <= c < r.csn
         case Published(x, c) => x in r.history && r.history[x] == c >= 5 && x !in r.xidToWorker
         case AbortMarked(x) => x in r.history && r.history[x] == 3 && x !in r.xidToWorker
         case Unlatched(x) => x in r.history && (r.history[x] == 3 || r.history[x] >= 5) && x !in r.xidToWorker
  {
    InitialInv(workers);
    RunInv(InitialTables(workers), evs);
    var r := After(InitialTables(workers), evs);
    assert PhaseOk(r, w);
    if !r.phases[w].Idle? && r.phases[w].xid in r.history { assert EntryOk(r, r.phases[w].xid); }
    hide Inv, CanRun, After;
  }

  // ---- The object others wait on -----------------------------------------------------------

  /**
   Until its latch is released the object runs for the worker that has its XID; then it tells
   how the transaction ended.
   */
  ghost predicate ObjectTells(r: Tables, x: nat)
    requires x in r.objects
  {
    var o := r.objects[x];
    if o.latched then
      o.status == RUNNING && o.worker < |r.phases| && !r.phases[o.worker].Idle? && r.phases[o.worker].xid == x &&
      !r.phases[o.worker].XidTaken? && !r.phases[o.worker].Unlatched?
    else
      x in r.history &&
      (o.status == ABANDONED || o.status == COMMITTED) &&
      (o.status == ABANDONED <==> r.history[x] == ABORTED) &&
      (o.status == COMMITTED ==> IsNormal(r.history[x]) && o.csn == r.history[x])
  }

  ghost predicate AllTell(r: Tables) {
    forall x :: x in r.objects ==> ObjectTells(r, x)
  }

  lemma {:induction false} StepTells(r: Tables, w: nat, a: Action, x: nat)
    requires Inv(r) && Enabled(r, w, a) && x in Apply(r, w, a).objects && (x in r.objects ==> ObjectTells(r, x))
    ensures ObjectTells(Apply(r, w, a), x)
  {
    assert PhaseOk(r, w);
    if x in r.objects && x in r.history { assert EntryOk(r, x); }
    if x in r.objects { assert ObjectOk(r, x); }
    if x in r.objects && r.objects[x].latched && r.objects[x].worker != w {
      OtherObject(r, w, a, x);
    }
    hide Inv;
  }

  /** Another worker's object, still latched, is not touched. */
  lemma {:induction false} OtherObject(r: Tables, w: nat, a: Action, x: nat)
    requires Inv(r) && Enabled(r, w, a) && x in r.objects && ObjectTells(r, x)
    requires r.objects[x].latched && r.objects[x].worker != w
    ensures ObjectTells(Apply(r, w, a), x)
  {
    var v := r.objects[x].worker;
    assert PhaseOk(r, w);
    assert r.phases[w].Idle? || r.phases[w].xid != x;
    hide Inv, PhaseOk;
  }

  lemma {:induction false} RunTells(r: Tables, evs: seq<Event>)
    requires Inv(r) && CanRun(r, evs) && AllTell(r)
    ensures AllTell(After(r, evs))
    decreases |evs|
  {
    if evs != [] {
      var w, a := evs[0].worker, evs[0].action;
      StepInv(r, w, a);
      hide Inv, Apply, Enabled, ObjectTells;
      forall x | x in Apply(r, w, a).objects ensures ObjectTells(Apply(r, w, a), x) { StepTells(r, w, a, x); }
      RunTells(Apply(r, w, a), evs[1..]);
    }
  }

  /**
   The latch of a transaction's object is held exactly until its worker releases it, after the
   end; from then on the object says how the transaction ended, and with which CSN.
   */
  lemma {:induction false} ObjectTellsTheFate(workers: nat, evs: seq<Event>, x: nat)
    requires CanRun(InitialTables(workers), evs) && x in After(InitialTables(workers), evs).objects
    ensures var r := After(InitialTables(workers), evs); var o := r.objects[x];
      && (o.latched ==> o.status == RUNNING && o.worker < |r.phases| && !r.phases[o.worker].Idle? &&
                        r.phases[o.worker].xid == x)
      && (!o.latched ==>
            && x in r.history
            && ((o.status == ABANDONED && r.history[x] == 3) ||
                (o.status == COMMITTED && r.history[x] >= 5 && o.csn == r.history[x])))
  {
    InitialInv(workers);
    RunTells(InitialTables(workers), evs);
    assert ObjectTells(After(InitialTables(workers), evs), x);
  }
}
