/**
 The shared tables of the transaction manager and the atomic sections of
 begin, commit and abort.  Every Action is one critical section (or one atomic
 instruction) of the code, so a run of the system is a list of
 (worker, action) pairs interleaved in any order.
 */
module Registry {
  import opened Wrappers

  // Commit sequence numbers below MIN_CSN are status codes.
  const INVALID: nat := 0
  const FROZEN: nat := 1
  const IN_PROGRESS: nat := 2
  const ABORTED: nat := 3
  const COMMITTING: nat := 4
  const MIN_CSN: nat := 5
  const MIN_XID: nat := 1

  predicate IsNormal(c: nat) { MIN_CSN <= c }

  predicate IsFinal(c: nat) { c == ABORTED || IsNormal(c) }

  /** How far a worker has come in the life of its transaction. */
  datatype Phase =
    | Idle
    | XidTaken(xid: nat)
    | Installed(xid: nat)
    | Running(xid: nat)
    | RollingBack(xid: nat)
    | Marked(xid: nat)
    | CsnTaken(xid: nat, csn: nat)
    | Published(xid: nat, csn: nat)
    | AbortMarked(xid: nat)
    | Unlatched(xid: nat)

  datatype Status = RUNNING | COMMITTED | ABANDONED

  /** A Transaction object; it outlives its slot because waiters share it. */
  datatype TransactionObject =
    TransactionObject(worker: nat, latched: bool, status: Status, csn: nat)

  datatype Tables = Tables(
    csn: nat,
    xid: nat,
    history: map<nat, nat>,
    xidToWorker: map<nat, nat>,
    transactions: seq<Option<nat>>,
    objects: map<nat, TransactionObject>,
    phases: seq<Phase>)

  datatype Action =
    | TakeXid | Install | Register | StartRollback
    | MarkCommitting | TakeCsn | Publish | MarkAborted
    | ReleaseLatch | Forget

  function InitialTables(workers: nat): Tables {
    Tables(MIN_CSN, MIN_XID, map[], map[],
           seq(workers, _ => None), map[], seq(workers, _ => Idle))
  }

  predicate Enabled(r: Tables, w: nat, a: Action) {
    w < |r.phases| == |r.transactions| &&
    var p := r.phases[w];
    match a
    case TakeXid => p.Idle?
    case Install => p.XidTaken?
    case Register => p.Installed?
    case StartRollback => p.Running?
    case MarkCommitting => p.Running?
    case TakeCsn => p.Marked?
    case Publish => p.CsnTaken?
    case MarkAborted => p.RollingBack?
    case ReleaseLatch => (p.Published? || p.AbortMarked?) && p.xid in r.objects
    case Forget => p.Unlatched?
  }

  function Apply(r: Tables, w: nat, a: Action): Tables
    requires Enabled(r, w, a)
  {
    var p := r.phases[w];
    match a
    case TakeXid =>
      r.(xid := r.xid + 1, phases := r.phases[w := XidTaken(r.xid)])
    case Install =>
      r.(objects := r.objects[p.xid := TransactionObject(w, true, RUNNING, INVALID)],
         transactions := r.transactions[w := Some(p.xid)],
         phases := r.phases[w := Installed(p.xid)])
    case Register =>
      r.(xidToWorker := r.xidToWorker[p.xid := w],
         history := r.history[p.xid := IN_PROGRESS],
         phases := r.phases[w := Running(p.xid)])
    case StartRollback =>
      r.(phases := r.phases[w := RollingBack(p.xid)])
    case MarkCommitting =>
      r.(history := r.history[p.xid := COMMITTING], phases := r.phases[w := Marked(p.xid)])
    case TakeCsn =>
      r.(csn := r.csn + 1, phases := r.phases[w := CsnTaken(p.xid, r.csn)])
    case Publish =>
      r.(history := r.history[p.xid := p.csn],
         xidToWorker := r.xidToWorker - {p.xid},
         phases := r.phases[w := Published(p.xid, p.csn)])
    case MarkAborted =>
      r.(history := r.history[p.xid := ABORTED],
         xidToWorker := r.xidToWorker - {p.xid},
         phases := r.phases[w := AbortMarked(p.xid)])
    case ReleaseLatch =>
      var o := r.objects[p.xid];
      var ended := if p.Published? then o.(latched := false, status := COMMITTED, csn := p.csn)
                   else o.(latched := false, status := ABANDONED);
      r.(objects := r.objects[p.xid := ended], phases := r.phases[w := Unlatched(p.xid)])
    case Forget =>
      r.(transactions := r.transactions[w := None], phases := r.phases[w := Idle])
  }

  /** The CSN fixed for x: published, or taken by its worker and not yet published; 0 if none. */
  function AssignedCsn(r: Tables, x: nat): nat {
    if x in r.history && IsNormal(r.history[x]) then r.history[x]
    else if x in r.xidToWorker && r.xidToWorker[x] < |r.phases| &&
            r.phases[r.xidToWorker[x]].CsnTaken? && r.phases[r.xidToWorker[x]].xid == x
    then r.phases[r.xidToWorker[x]].csn
    else 0
  }

  // ---- The registry invariant -------------------------------------------

  ghost predicate PhaseOk(r: Tables, w: nat)
    requires w < |r.phases| == |r.transactions|
  {
    var p := r.phases[w];
    match p
    case Idle => r.transactions[w] == None
    case XidTaken(x) =>
      MIN_XID <= x < r.xid && r.transactions[w] == None && x !in r.history && x !in r.objects
    case Installed(x) =>
      r.transactions[w] == Some(x) && x !in r.history && Holds(r, w, x)
    case Running(x) => Open(r, w, x, IN_PROGRESS)
    case RollingBack(x) => Open(r, w, x, IN_PROGRESS)
    case Marked(x) => Open(r, w, x, COMMITTING)
    case CsnTaken(x, c) => Open(r, w, x, COMMITTING) && MIN_CSN <= c < r.csn
    case Published(x, c) =>
      r.transactions[w] == Some(x) && Holds(r, w, x) && x in r.history && r.history[x] == c >= MIN_CSN
    case AbortMarked(x) =>
      r.transactions[w] == Some(x) && Holds(r, w, x) && x in r.history && r.history[x] == ABORTED
    case Unlatched(x) =>
      r.transactions[w] == Some(x) && x in r.objects && x in r.history && IsFinal(r.history[x])
  }

  ghost predicate Holds(r: Tables, w: nat, x: nat) {
    x in r.objects && r.objects[x].worker == w && r.objects[x].latched
  }

  ghost predicate Open(r: Tables, w: nat, x: nat, code: nat)
    requires w < |r.transactions|
  {
    && r.transactions[w] == Some(x) && Holds(r, w, x)
    && x in r.xidToWorker && r.xidToWorker[x] == w
    && x in r.history && r.history[x] == code
  }

  ghost predicate EntryOk(r: Tables, x: nat)
    requires x in r.history
  {
    && MIN_XID <= x < r.xid && x in r.objects
    && (r.history[x] in {IN_PROGRESS, ABORTED, COMMITTING} || MIN_CSN <= r.history[x] < r.csn)
    && (x in r.xidToWorker <==> r.history[x] in {IN_PROGRESS, COMMITTING})
  }

  ghost predicate OwnerOk(r: Tables, x: nat)
    requires x in r.xidToWorker
  {
    var w := r.xidToWorker[x];
    x in r.history && w < |r.phases| && !r.phases[w].Idle? && r.phases[w].xid == x
  }

  ghost predicate ObjectOk(r: Tables, x: nat)
    requires x in r.objects
  {
    && MIN_XID <= x < r.xid
    && (!r.objects[x].latched ==> x in r.history && IsFinal(r.history[x]))
  }

  ghost predicate DistinctXids(r: Tables) {
    && (forall w :: 0 <= w < |r.phases| && !r.phases[w].Idle? ==> r.phases[w].xid < r.xid)
    && (forall v, w | 0 <= v < w < |r.phases| && !r.phases[v].Idle? && !r.phases[w].Idle? ::
          r.phases[v].xid != r.phases[w].xid)
  }

  ghost predicate DistinctCsns(r: Tables) {
    forall x, y :: x != y && AssignedCsn(r, x) != 0 ==> AssignedCsn(r, x) != AssignedCsn(r, y)
  }

  ghost predicate Inv(r: Tables) {
    && |r.transactions| == |r.phases| && r.csn >= MIN_CSN && r.xid >= MIN_XID
    && (forall w :: 0 <= w < |r.phases| ==> PhaseOk(r, w))
    && (forall x :: x in r.history ==> EntryOk(r, x))
    && (forall x :: x in r.xidToWorker ==> OwnerOk(r, x))
    && (forall x :: x in r.objects ==> ObjectOk(r, x))
    && DistinctXids(r)
    && DistinctCsns(r)
  }

  // ---- What one step may change -----------------------------------------

  /** The order in which a status may move. */
  predicate MayBecome(c: nat, c': nat) {
    c == c' ||
    (c == IN_PROGRESS && (c' == COMMITTING || c' == ABORTED || IsNormal(c'))) ||
    (c == COMMITTING && IsNormal(c'))
  }

  ghost predicate Evolves(r: Tables, r': Tables) {
    && r.csn <= r'.csn && r.xid <= r'.xid && |r.phases| == |r'.phases|
    && (forall x :: x in r.history ==> x in r'.history && MayBecome(r.history[x], r'.history[x]))
    && (forall x :: AssignedCsn(r, x) != 0 ==> AssignedCsn(r', x) == AssignedCsn(r, x))
    && (forall x :: AssignedCsn(r, x) == 0 && AssignedCsn(r', x) != 0 ==>
          r.csn <= AssignedCsn(r', x))
  }

  lemma {:induction false} InitialInv(workers: nat)
    ensures Inv(InitialTables(workers))
  {}

  lemma {:induction false} AssignedBelowCounter(r: Tables, x: nat)
    requires Inv(r) && AssignedCsn(r, x) != 0
    ensures MIN_CSN <= AssignedCsn(r, x) < r.csn
  {
    if x in r.history && IsNormal(r.history[x]) {
      assert EntryOk(r, x);
    } else {
      assert PhaseOk(r, r.xidToWorker[x]);
    }
  }

  lemma {:induction false} StepOwnPhase(r: Tables, w: nat, a: Action)
    requires Enabled(r, w, a) && PhaseOk(r, w) && r.csn >= MIN_CSN && r.xid >= MIN_XID
    requires (forall x :: x in r.history ==> EntryOk(r, x)) && (forall x :: x in r.objects ==> ObjectOk(r, x))
    ensures w < |Apply(r, w, a).phases| == |Apply(r, w, a).transactions| && PhaseOk(Apply(r, w, a), w)
  {}

  lemma {:induction false} StepOtherPhase(r: Tables, w: nat, a: Action, v: nat)
    requires Enabled(r, w, a) && PhaseOk(r, w) && v < |r.phases| && v != w && PhaseOk(r, v) && DistinctXids(r)
    ensures v < |Apply(r, w, a).phases| == |Apply(r, w, a).transactions| && PhaseOk(Apply(r, w, a), v)
  {}

  lemma {:induction false} StepPhases(r: Tables, w: nat, a: Action)
    requires Inv(r) && Enabled(r, w, a)
    ensures var r' := Apply(r, w, a);
      |r'.phases| == |r'.transactions| && forall v :: 0 <= v < |r'.phases| ==> PhaseOk(r', v)
  {
    assert PhaseOk(r, w);
    assert |Apply(r, w, a).phases| == |r.phases|;
    hide Apply, PhaseOk, EntryOk, ObjectOk, OwnerOk, DistinctXids, DistinctCsns;
    StepOwnPhase(r, w, a);
    forall v | 0 <= v < |r.phases| ensures PhaseOk(Apply(r, w, a), v) {
      if v != w { StepOtherPhase(r, w, a, v); }
    }
  }

  lemma {:induction false} StepEntries(r: Tables, w: nat, a: Action, x: nat)
    requires Inv(r) && Enabled(r, w, a) && x in Apply(r, w, a).history
    ensures EntryOk(Apply(r, w, a), x)
  {
    assert PhaseOk(r, w);
    if x in r.history { assert EntryOk(r, x); }
    if x in r.xidToWorker { assert OwnerOk(r, x); }
  }

  lemma {:induction false} StepOwners(r: Tables, w: nat, a: Action, x: nat)
    requires Inv(r) && Enabled(r, w, a) && x in Apply(r, w, a).xidToWorker
    ensures OwnerOk(Apply(r, w, a), x)
  {
    assert PhaseOk(r, w);
    if x in r.xidToWorker { assert OwnerOk(r, x); }
  }

  lemma {:induction false} StepObjects(r: Tables, w: nat, a: Action)
    requires Inv(r) && Enabled(r, w, a)
    ensures var r' := Apply(r, w, a);
      (forall x :: x in r'.objects ==> ObjectOk(r', x)) && DistinctXids(r')
  {
    var r' := Apply(r, w, a);
    assert PhaseOk(r, w);
    forall x | x in r'.objects ensures ObjectOk(r', x) {
      if x in r.objects { assert ObjectOk(r, x); }
    }
  }

  lemma {:induction false} StepTables(r: Tables, w: nat, a: Action)
    requires Inv(r) && Enabled(r, w, a)
    ensures var r' := Apply(r, w, a);
      && (forall x :: x in r'.history ==> EntryOk(r', x))
      && (forall x :: x in r'.xidToWorker ==> OwnerOk(r', x))
  {
    var r' := Apply(r, w, a);
    forall x | x in r'.history ensures EntryOk(r', x) { StepEntries(r, w, a, x); }
    forall x | x in r'.xidToWorker ensures OwnerOk(r', x) { StepOwners(r, w, a, x); }
  }

  /** No step moves an assigned CSN; a new one is the counter's value. */
  lemma {:induction false} StepAssigned(r: Tables, w: nat, a: Action, x: nat)
    requires Inv(r) && Enabled(r, w, a)
    ensures AssignedCsn(r, x) != 0 ==> AssignedCsn(Apply(r, w, a), x) == AssignedCsn(r, x)
    ensures AssignedCsn(r, x) == 0 && AssignedCsn(Apply(r, w, a), x) != 0 ==>
      a.TakeCsn? && x == r.phases[w].xid && AssignedCsn(Apply(r, w, a), x) == r.csn
  {
    assert PhaseOk(r, w);
    if x in r.history { assert EntryOk(r, x); }
    if x in r.xidToWorker { assert OwnerOk(r, x); assert PhaseOk(r, r.xidToWorker[x]); }
  }

  lemma {:induction false} StepCsns(r: Tables, w: nat, a: Action)
    requires Inv(r) && Enabled(r, w, a)
    ensures DistinctCsns(Apply(r, w, a))
  {
    var r' := Apply(r, w, a);
    forall x, y | x != y && AssignedCsn(r', x) != 0
      ensures AssignedCsn(r', x) != AssignedCsn(r', y)
    {
      StepAssigned(r, w, a, x);
      StepAssigned(r, w, a, y);
      if AssignedCsn(r, x) != 0 { AssignedBelowCounter(r, x); }
      if AssignedCsn(r, y) != 0 { AssignedBelowCounter(r, y); }
    }
  }

  lemma {:induction false} StepInv(r: Tables, w: nat, a: Action)
    requires Inv(r) && Enabled(r, w, a)
    ensures Inv(Apply(r, w, a)) && Evolves(r, Apply(r, w, a))
  {
    StepPhases(r, w, a);
    StepTables(r, w, a);
    StepObjects(r, w, a);
    StepCsns(r, w, a);
    assert PhaseOk(r, w);
    forall x ensures (AssignedCsn(r, x) != 0 ==> AssignedCsn(Apply(r, w, a), x) == AssignedCsn(r, x)) &&
      (AssignedCsn(r, x) == 0 && AssignedCsn(Apply(r, w, a), x) != 0 ==> r.csn <= AssignedCsn(Apply(r, w, a), x))
    {
      StepAssigned(r, w, a, x);
    }
  }

  /** x has aborted, or its worker is rolling it back. */
  ghost predicate Doomed(r: Tables, x: nat) {
    x in r.history &&
    (r.history[x] != ABORTED ==>
      x in r.xidToWorker && r.xidToWorker[x] < |r.phases| && r.phases[r.xidToWorker[x]] == RollingBack(x))
  }

  /** A rollback once begun can end only in an abort. */
  lemma {:induction false} DoomedStays(r: Tables, v: nat, a: Action, x: nat)
    requires Inv(r) && Enabled(r, v, a) && Doomed(r, x)
    ensures var r' := Apply(r, v, a);
      && |r'.phases| == |r.phases| && Doomed(r', x) && !IsNormal(r.history[x])
      && (r'.history[x] != ABORTED ==>
            r.history[x] != ABORTED && r'.xidToWorker[x] == r.xidToWorker[x] && r.xidToWorker[x] != v)
  {
    assert PhaseOk(r, v);
    assert EntryOk(r, x);
    if x in r.xidToWorker { assert OwnerOk(r, x) && PhaseOk(r, r.xidToWorker[x]); }
  }
}
