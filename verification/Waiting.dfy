/**
 Waiting for another transaction: WaitTransactionEnd and the writer's
 wait_tnx_end around it, one shared read at a time.  Any number of registry
 steps by any workers may fall between two moves of the waiter.
 */
module Waiting {
  import opened Wrappers
  import opened Registry
  import opened Snapshots

  /** Program points of WaitTransactionEnd(target). */
  datatype WaitPoint =
    | LookUp                  // read _xidToWorker under the shared mutex
    | Fetch(worker: nat)      // copy _transactions[worker]
    | AwaitLatch              // share-lock the object's latch
    | Returned

  predicate CanWaitStep(r: Tables, target: nat, at: WaitPoint) {
    match at
    case LookUp => true
    case Fetch(w) => w < |r.transactions|
    case AwaitLatch => target in r.objects && !r.objects[target].latched
    case Returned => false
  }

  function WaitStep(r: Tables, target: nat, at: WaitPoint): WaitPoint
    requires CanWaitStep(r, target, at)
  {
    match at
    case LookUp => if target in r.xidToWorker then Fetch(r.xidToWorker[target]) else Returned
    case Fetch(w) =>
      if r.transactions[w] == None then Returned
      else if r.transactions[w].value != target then Returned
      else AwaitLatch
    case AwaitLatch => Returned
  }

  /** Program points of wait_tnx_end(target). */
  datatype EndPoint =
    | Ask                     // first GetTransactionCsn
    | Inside(point: WaitPoint)
    | AskAgain                // second GetTransactionCsn
    | Retry                   // aborted: the writer goes on
    | Conflict                // "tuple was concurrently modified"
    | BadStatus               // "invalid status for transaction"

  function Decide(csn: nat): EndPoint {
    if csn == ABORTED then Retry
    else if csn == FROZEN || IsNormal(csn) then Conflict
    else BadStatus
  }

  predicate CanEndStep(r: Tables, target: nat, at: EndPoint) {
    match at
    case Ask => target in r.history && r.history[target] != COMMITTING
    case Inside(p) => p == Returned || CanWaitStep(r, target, p)
    case AskAgain => target in r.history && r.history[target] != COMMITTING
    case _ => false
  }

  function EndStep(r: Tables, target: nat, at: EndPoint): EndPoint
    requires CanEndStep(r, target, at)
  {
    match at
    case Ask => if r.history[target] == IN_PROGRESS then Inside(LookUp) else Decide(r.history[target])
    case Inside(p) => if p == Returned then AskAgain else Inside(WaitStep(r, target, p))
    case AskAgain => Decide(r.history[target])
  }

  // ---- What the waiter knows at each point ------------------------------

  ghost predicate WaitKnows(r: Tables, target: nat, at: WaitPoint) {
    target in r.history &&
    match at
    case LookUp => true
    case Fetch(w) =>
      w < |r.transactions| &&
      (IsFinal(r.history[target]) || (target in r.xidToWorker && r.xidToWorker[target] == w))
    case AwaitLatch => target in r.objects
    case Returned => IsFinal(r.history[target])
  }

  ghost predicate EndKnows(r: Tables, target: nat, at: EndPoint) {
    target in r.history &&
    match at
    case Ask => true
    case Inside(p) => WaitKnows(r, target, p)
    case AskAgain => IsFinal(r.history[target])
    case Retry => r.history[target] == ABORTED
    case Conflict => IsNormal(r.history[target])
    case BadStatus => false
  }

  /** Steps of other workers cannot falsify what the waiter knows. */
  lemma {:induction false} KnowledgeIsStable(r: Tables, w: nat, a: Action, target: nat, at: EndPoint)
    requires Inv(r) && Enabled(r, w, a) && EndKnows(r, target, at)
    ensures EndKnows(Apply(r, w, a), target, at)
  {
    StepInv(r, w, a);
    var r' := Apply(r, w, a);
    assert MayBecome(r.history[target], r'.history[target]);
    assert EntryOk(r, target) && EntryOk(r', target);
    assert PhaseOk(r, w);
    if target in r.xidToWorker { assert OwnerOk(r, target); }
  }

  lemma {:induction false} WaiterKeepsKnowing(r: Tables, target: nat, at: EndPoint)
    requires Inv(r) && EndKnows(r, target, at) && CanEndStep(r, target, at)
    ensures EndKnows(r, target, EndStep(r, target, at))
  {
    assert EntryOk(r, target);
    if target in r.xidToWorker {
      assert OwnerOk(r, target) && PhaseOk(r, r.xidToWorker[target]);
    }
    if at == Inside(AwaitLatch) { assert ObjectOk(r, target); }
  }

  /**
   What becomes of the writer by the code found: 3 lets it go on, frozen (1) and every CSN stop
   it, no other is expected.
   */
  lemma {:induction false} FateByCode(csn: nat)
    ensures Decide(csn) == if csn == 3 then Retry else if csn == 1 || csn >= 5 then Conflict else BadStatus
  {}

  // ---- Every interleaving -----------------------------------------------

  /** One item of an interleaved run: a registry step, or a move of the waiter. */
  datatype Move = Others(event: Event) | Waiter

  predicate CanInterleave(r: Tables, target: nat, at: EndPoint, moves: seq<Move>)
    decreases |moves|
  {
    moves == [] ||
    match moves[0]
    case Others(e) =>
      Enabled(r, e.worker, e.action) && CanInterleave(Apply(r, e.worker, e.action), target, at, moves[1..])
    case Waiter =>
      CanEndStep(r, target, at) && CanInterleave(r, target, EndStep(r, target, at), moves[1..])
  }

  function Interleave(r: Tables, target: nat, at: EndPoint, moves: seq<Move>): (Tables, EndPoint)
    requires CanInterleave(r, target, at, moves)
    decreases |moves|
  {
    if moves == [] then (r, at)
    else match moves[0]
      case Others(e) => Interleave(Apply(r, e.worker, e.action), target, at, moves[1..])
      case Waiter => Interleave(r, target, EndStep(r, target, at), moves[1..])
  }

  lemma {:induction false} InterleaveKnows(r: Tables, target: nat, at: EndPoint, moves: seq<Move>)
    requires Inv(r) && EndKnows(r, target, at) && CanInterleave(r, target, at, moves)
    ensures var (r', at') := Interleave(r, target, at, moves); Inv(r') && EndKnows(r', target, at')
    decreases |moves|
  {
    if moves != [] {
      match moves[0]
      case Others(e) =>
        StepInv(r, e.worker, e.action);
        KnowledgeIsStable(r, e.worker, e.action, target, at);
        InterleaveKnows(Apply(r, e.worker, e.action), target, at, moves[1..]);
      case Waiter =>
        WaiterKeepsKnowing(r, target, at);
        InterleaveKnows(r, target, EndStep(r, target, at), moves[1..]);
    }
  }

  /**
   WaitTransactionEnd on a begun transaction returns, on all of its exits and
   under every interleaving, only once that transaction's status is final.
   */
  lemma {:induction false} WaitReturnsAfterTheEnd(r: Tables, target: nat, moves: seq<Move>)
    requires Inv(r) && target in r.history
    requires CanInterleave(r, target, Inside(LookUp), moves)
    ensures var (r', at') := Interleave(r, target, Inside(LookUp), moves);
      at' in {Inside(Returned), AskAgain} ==> target in r'.history && IsFinal(r'.history[target])
  {
    InterleaveKnows(r, target, Inside(LookUp), moves);
  }

  /** wait_tnx_end never reaches its invalid-status branch, and its outcome is the target's fate. */
  lemma {:induction false} WaitOutcomeIsTheFate(r: Tables, target: nat, moves: seq<Move>)
    requires Inv(r) && target in r.history && CanInterleave(r, target, Ask, moves)
    ensures var (r', at') := Interleave(r, target, Ask, moves);
      && target in r'.history && at' != BadStatus
      && (at' == Retry ==> r'.history[target] == ABORTED)
      && (at' == Conflict ==> IsNormal(r'.history[target]))
  {
    InterleaveKnows(r, target, Ask, moves);
  }
}
