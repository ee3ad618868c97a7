/**
 The transaction manager as the object whose fields the critical sections
 update.  Each method is one source function executed by a worker with nobody
 in between; its contract is the list of registry actions it performs, so the
 theorems over interleaved lists of those actions speak about this code.
 */
module Transactions {
  import opened Wrappers
  import opened Registry
  import opened Snapshots

  class TransactionManager {
    var csn: nat
    var xid: nat
    var history: map<nat, nat>
    var xidToWorker: map<nat, nat>
    var transactions: seq<Option<nat>>
    var objects: map<nat, TransactionObject>
    ghost var phases: seq<Phase>  // where each worker's code stands

    ghost function Model(): Tables
      reads this
    {
      Tables(csn, xid, history, xidToWorker, transactions, objects, phases)
    }

    constructor (workers: nat)
      ensures Model() == InitialTables(workers) && Inv(Model())
    {
      csn, xid := MIN_CSN, MIN_XID;
      history, xidToWorker, objects := map[], map[], map[];
      transactions := seq(workers, _ => None);
      phases := seq(workers, _ => Idle);
      new;
      InitialInv(workers);
    }

    /** GetCurrentCSN: what a new snapshot is made of. */
    method GetCurrentCSN() returns (c: nat)
      requires Inv(Model())
      ensures c == csn
      ensures forall x :: x in history && IsNormal(history[x]) ==> history[x] < c
    {
      c := csn;
      assert forall x :: x in history ==> EntryOk(Model(), x);
    }

    /**
     One round of GetTransactionCsn: None means the status is COMMITTING and the
     caller unlocks, spins and asks again.  Asking about an unknown XID inserts it.
     */
    method ProbeTransactionCsn(x: nat) returns (c: Option<nat>)
      modifies this`history
      ensures x in old(history) ==> history == old(history)
      ensures x !in old(history) ==> history == old(history)[x := INVALID] && c == Some(INVALID)
      ensures c == None <==> history[x] == COMMITTING
      ensures c.Some? ==> c.value == history[x]
    {
      if x !in history {
        history := history[x := INVALID];
      }
      var status := history[x];
      c := if status == COMMITTING then None else Some(status);
    }

    method BeginNewTransaction(w: nat) returns (x: nat)
      requires Inv(Model()) && w < |phases| && phases[w] == Idle
      modifies this
      ensures CanRun(old(Model()), Alone(w, [TakeXid, Install, Register]))
      ensures Model() == After(old(Model()), Alone(w, [TakeXid, Install, Register]))
      ensures Inv(Model()) && w < |phases| == |transactions| && phases[w] == Running(x)
      ensures x !in old(history) && x in history && history[x] == IN_PROGRESS && transactions[w] == Some(x)
    {
      hide Inv, After, CanRun;
      BeginAlone(Model(), w);
      x := xid;
      xid := xid + 1;
      phases := phases[w := XidTaken(x)];

      objects := objects[x := TransactionObject(w, true, RUNNING, INVALID)];
      transactions := transactions[w := Some(x)];
      phases := phases[w := Installed(x)];

      xidToWorker := xidToWorker[x := w];
      history := history[x := IN_PROGRESS];
      phases := phases[w := Running(x)];
    }

    /** Err stands for the "transaction table is broken" exception, which cannot happen. */
    method CommitTransaction(w: nat) returns (r: Result<nat>)
      requires Inv(Model()) && w < |phases| && phases[w].Running?
      modifies this
      ensures CanRun(old(Model()), Alone(w, [MarkCommitting, TakeCsn, Publish, ReleaseLatch, Forget]))
      ensures Model() == After(old(Model()), Alone(w, [MarkCommitting, TakeCsn, Publish, ReleaseLatch, Forget]))
      ensures Inv(Model()) && w < |phases| == |transactions| && phases[w] == Idle && transactions[w] == None
      ensures r == Ok(old(csn)) && csn == old(csn) + 1
      ensures var x := old(phases[w].xid); x in history && history[x] == old(csn) && x !in xidToWorker
    {
      hide Inv, After, CanRun;
      CommitAlone(Model(), w);
      var x := transactions[w].value;
      history := history[x := COMMITTING];
      phases := phases[w := Marked(x)];

      var c := csn;
      csn := csn + 1;
      phases := phases[w := CsnTaken(x, c)];

      history := history[x := c];
      if x !in xidToWorker {
        return Err("XidToWorker transaction table is broken - no entry found");
      }
      xidToWorker := xidToWorker - {x};
      phases := phases[w := Published(x, c)];

      objects := objects[x := objects[x].(latched := false, status := COMMITTED, csn := c)];
      phases := phases[w := Unlatched(x)];

      transactions := transactions[w := None];
      phases := phases[w := Idle];
      return Ok(c);
    }

    /** AbortTransaction after the undo records have been applied. */
    method AbortTransaction(w: nat) returns (r: Result<()>)
      requires Inv(Model()) && w < |phases| && phases[w].RollingBack?
      modifies this
      ensures CanRun(old(Model()), Alone(w, [MarkAborted, ReleaseLatch, Forget]))
      ensures Model() == After(old(Model()), Alone(w, [MarkAborted, ReleaseLatch, Forget]))
      ensures Inv(Model()) && w < |phases| == |transactions| && phases[w] == Idle && transactions[w] == None
      ensures r == Ok(()) && csn == old(csn)
      ensures var x := old(phases[w].xid); x in history && history[x] == ABORTED && x !in xidToWorker
    {
      hide Inv, After, CanRun;
      AbortAlone(Model(), w);
      var x := transactions[w].value;
      history := history[x := ABORTED];
      if x !in xidToWorker {
        return Err("XidToWorker tnx table is broken - no transaction entry found");
      }
      xidToWorker := xidToWorker - {x};
      phases := phases[w := AbortMarked(x)];

      objects := objects[x := objects[x].(latched := false, status := ABANDONED)];
      phases := phases[w := Unlatched(x)];

      transactions := transactions[w := None];
      phases := phases[w := Idle];
      return Ok(());
    }
  }

  /** The events of one worker running undisturbed. */
  ghost function Alone(w: nat, actions: seq<Action>): seq<Event> {
    seq(|actions|, i requires 0 <= i < |actions| => Event(w, actions[i]))
  }

  lemma {:induction false} RunAlone3(r: Tables, w: nat, a: Action, b: Action, c: Action)
    requires Inv(r) && Enabled(r, w, a)
    requires Enabled(Apply(r, w, a), w, b)
    requires Enabled(Apply(Apply(r, w, a), w, b), w, c)
    ensures CanRun(r, Alone(w, [a, b, c]))
    ensures After(r, Alone(w, [a, b, c])) == Apply(Apply(Apply(r, w, a), w, b), w, c)
    ensures Inv(After(r, Alone(w, [a, b, c])))
  {
    hide Inv, Apply, Enabled;
    var evs := Alone(w, [a, b, c]);
    var r1 := Apply(r, w, a);
    var r2 := Apply(r1, w, b);
    assert evs[1..] == [Event(w, b), Event(w, c)];
    assert evs[1..][1..] == [Event(w, c)];
    assert [Event(w, c)][1..] == [];
    assert After(Apply(r2, w, c), []) == Apply(r2, w, c);
    assert CanRun(r2, [Event(w, c)]);
    assert After(r2, [Event(w, c)]) == Apply(r2, w, c);
    assert CanRun(r1, evs[1..]) && After(r1, evs[1..]) == Apply(r2, w, c);
    RunInv(r, evs);
  }

  lemma {:induction false} RunAlone5(r: Tables, w: nat, a: Action, b: Action, c: Action, d: Action, e: Action)
    requires Inv(r) && Enabled(r, w, a)
    requires Enabled(Apply(r, w, a), w, b)
    requires Enabled(Apply(Apply(r, w, a), w, b), w, c)
    requires Enabled(Apply(Apply(Apply(r, w, a), w, b), w, c), w, d)
    requires Enabled(Apply(Apply(Apply(Apply(r, w, a), w, b), w, c), w, d), w, e)
    ensures CanRun(r, Alone(w, [a, b, c, d, e]))
    ensures After(r, Alone(w, [a, b, c, d, e])) ==
      Apply(Apply(Apply(Apply(Apply(r, w, a), w, b), w, c), w, d), w, e)
    ensures Inv(After(r, Alone(w, [a, b, c, d, e])))
  {
    hide Inv, Apply, Enabled;
    var evs := Alone(w, [a, b, c, d, e]);
    var r1 := Apply(r, w, a);
    var r2 := Apply(r1, w, b);
    StepInv(r, w, a);
    StepInv(r1, w, b);
    RunAlone3(r2, w, c, d, e);
    assert evs[1..][1..] == Alone(w, [c, d, e]);
    assert CanRun(r1, evs[1..]) && After(r1, evs[1..]) == After(r2, evs[1..][1..]);
    RunInv(r, evs);
  }

  /** What a begin leaves, whatever happened in between its sections. */
  function Begun(r: Tables, w: nat): Tables
    requires w < |r.phases| == |r.transactions|
  {
    var x := r.xid;
    r.(xid := x + 1,
       objects := r.objects[x := TransactionObject(w, true, RUNNING, INVALID)],
       transactions := r.transactions[w := Some(x)],
       xidToWorker := r.xidToWorker[x := w],
       history := r.history[x := IN_PROGRESS],
       phases := r.phases[w := XidTaken(x)][w := Installed(x)][w := Running(x)])
  }

  function Committed(r: Tables, w: nat, x: nat): Tables
    requires w < |r.phases| == |r.transactions| && x in r.objects
  {
    r.(csn := r.csn + 1,
       history := r.history[x := COMMITTING][x := r.csn],
       xidToWorker := r.xidToWorker - {x},
       objects := r.objects[x := r.objects[x].(latched := false, status := COMMITTED, csn := r.csn)],
       transactions := r.transactions[w := None],
       phases := r.phases[w := Marked(x)][w := CsnTaken(x, r.csn)][w := Published(x, r.csn)]
                                [w := Unlatched(x)][w := Idle])
  }

  function Aborted(r: Tables, w: nat, x: nat): Tables
    requires w < |r.phases| == |r.transactions| && x in r.objects
  {
    r.(history := r.history[x := ABORTED],
       xidToWorker := r.xidToWorker - {x},
       objects := r.objects[x := r.objects[x].(latched := false, status := ABANDONED)],
       transactions := r.transactions[w := None],
       phases := r.phases[w := AbortMarked(x)][w := Unlatched(x)][w := Idle])
  }

  lemma {:induction false} BeginSteps(r: Tables, w: nat)
    requires w < |r.phases| == |r.transactions| && r.phases[w] == Idle
    ensures Enabled(r, w, TakeXid) && Enabled(Apply(r, w, TakeXid), w, Install)
    ensures Enabled(Apply(Apply(r, w, TakeXid), w, Install), w, Register)
    ensures Apply(Apply(Apply(r, w, TakeXid), w, Install), w, Register) == Begun(r, w)
  {}

  lemma {:induction false} CommitSteps(r: Tables, w: nat, x: nat)
    requires w < |r.phases| == |r.transactions| && r.phases[w] == Running(x) && x in r.objects
    ensures Enabled(r, w, MarkCommitting) && Enabled(Apply(r, w, MarkCommitting), w, TakeCsn)
    ensures Enabled(Apply(Apply(r, w, MarkCommitting), w, TakeCsn), w, Publish)
    ensures Enabled(Apply(Apply(Apply(r, w, MarkCommitting), w, TakeCsn), w, Publish), w, ReleaseLatch)
    ensures Enabled(Apply(Apply(Apply(Apply(r, w, MarkCommitting), w, TakeCsn), w, Publish), w, ReleaseLatch), w,
                    Forget)
    ensures Apply(Apply(Apply(Apply(Apply(r, w, MarkCommitting), w, TakeCsn), w, Publish), w, ReleaseLatch), w, Forget)
            == Committed(r, w, x)
  {}

  lemma {:induction false} AbortSteps(r: Tables, w: nat, x: nat)
    requires w < |r.phases| == |r.transactions| && r.phases[w] == RollingBack(x) && x in r.objects
    ensures Enabled(r, w, MarkAborted) && Enabled(Apply(r, w, MarkAborted), w, ReleaseLatch)
    ensures Enabled(Apply(Apply(r, w, MarkAborted), w, ReleaseLatch), w, Forget)
    ensures Apply(Apply(Apply(r, w, MarkAborted), w, ReleaseLatch), w, Forget) == Aborted(r, w, x)
  {}

  /** What the invariant says of a worker about to begin, and of one about to end its transaction. */
  lemma {:induction false} Ready(r: Tables, w: nat)
    requires Inv(r) && w < |r.phases|
    ensures |r.phases| == |r.transactions| && r.xid !in r.history
    ensures r.phases[w].Running? || r.phases[w].RollingBack? ==>
      var x := r.phases[w].xid;
      r.transactions[w] == Some(x) && x in r.xidToWorker && x in r.objects && x in r.history
  {
    assert PhaseOk(r, w);
    assert forall x :: x in r.history ==> EntryOk(r, x);
  }

  /** The three sections of a begin, run with nobody in between. */
  lemma {:induction false} BeginAlone(r: Tables, w: nat)
    requires Inv(r) && w < |r.phases| && r.phases[w] == Idle
    ensures |r.phases| == |r.transactions| && r.xid !in r.history
    ensures var evs := Alone(w, [TakeXid, Install, Register]);
      CanRun(r, evs) && Inv(After(r, evs)) && After(r, evs) == Begun(r, w)
  {
    hide *;
    Ready(r, w);
    BeginSteps(r, w);
    RunAlone3(r, w, TakeXid, Install, Register);
  }

  /** The three sections of an abort, run with nobody in between. */
  lemma {:induction false} AbortAlone(r: Tables, w: nat)
    requires Inv(r) && w < |r.phases| && r.phases[w].RollingBack?
    ensures var x := r.phases[w].xid;
      |r.phases| == |r.transactions| && r.transactions[w] == Some(x) && x in r.xidToWorker && x in r.objects &&
        x in r.history
    ensures var evs := Alone(w, [MarkAborted, ReleaseLatch, Forget]);
      CanRun(r, evs) && Inv(After(r, evs)) && After(r, evs) == Aborted(r, w, r.phases[w].xid)
  {
    hide *;
    Ready(r, w);
    AbortSteps(r, w, r.phases[w].xid);
    RunAlone3(r, w, MarkAborted, ReleaseLatch, Forget);
  }

  /** The five sections of a commit, run with nobody in between. */
  lemma {:induction false} CommitAlone(r: Tables, w: nat)
    requires Inv(r) && w < |r.phases| && r.phases[w].Running?
    ensures var x := r.phases[w].xid;
      |r.phases| == |r.transactions| && r.transactions[w] == Some(x) && x in r.xidToWorker && x in r.objects &&
        x in r.history
    ensures var evs := Alone(w, [MarkCommitting, TakeCsn, Publish, ReleaseLatch, Forget]);
      CanRun(r, evs) && Inv(After(r, evs)) && After(r, evs) == Committed(r, w, r.phases[w].xid)
  {
    hide *;
    Ready(r, w);
    CommitSteps(r, w, r.phases[w].xid);
    RunAlone5(r, w, MarkCommitting, TakeCsn, Publish, ReleaseLatch, Forget);
  }
}
