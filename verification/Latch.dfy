/**
 The latch as a protocol: any number of workers, each at one point of Lock,
 Unlock, queueSelf, dequeueSelf or wakeup; a step is one atomic instruction, one
 semaphore operation, or one access made while holding the list lock.
 */
module Latches {
  import opened LockLists
  import opened LatchWords

  /**
   Program points.  m is the mode asked for, extra the spurious permits in hand
   from Lock's wait loop, more those from dequeueSelf's.
   */
  datatype Point =
    | Outside
    | Attempt(m: LockMode, extra: nat)
    // queueSelf
    | QueueLock(m: LockMode, extra: nat)
    | QueueFlag(m: LockMode, extra: nat)
    | QueueState(m: LockMode, extra: nat)
    | QueueMode(m: LockMode, extra: nat)
    | QueuePush(m: LockMode, extra: nat)
    | QueueUnlock(m: LockMode, extra: nat)
    | Retry(m: LockMode, extra: nat)
    // dequeueSelf, entered with the latch held
    | DequeueLock(m: LockMode, extra: nat)
    | DequeueCheck(m: LockMode, extra: nat)
    | DequeueClear(m: LockMode, extra: nat, wasWaiting: bool)
    | DequeueUnlock(m: LockMode, extra: nat, wasWaiting: bool)
    | DequeueReset(m: LockMode, extra: nat)
    | DequeueFlag(m: LockMode, extra: nat)
    | DequeueAcquire(m: LockMode, extra: nat, more: nat)
    | DequeueLook(m: LockMode, extra: nat, more: nat)
    | DequeueRepay(m: LockMode, extra: nat, more: nat)
    // Lock's wait loop
    | Acquire(m: LockMode, extra: nat)
    | Look(m: LockMode, extra: nat)
    | AllowWakeups(m: LockMode, extra: nat)
    | Repay(m: LockMode, extra: nat)
    | Holding(m: LockMode)
    // wakeup
    | WakeLock
    | WakeScan(rest: seq<nat>, woke: bool, taken: seq<nat>)
    | WakePublish(taken: seq<nat>)
    | WakeNext(taken: seq<nat>)
    | WakeMark(v: nat, taken: seq<nat>)
    | WakeRelease(v: nat, taken: seq<nat>)

  /** A worker: its program point and its WorkerLock record. */
  datatype Worker = Worker(at: Point, state: WorkerLockState, mode: LockMode, permits: nat)

  datatype Latch = Latch(word: Word, waiters: seq<nat>, workers: seq<Worker>)

  function InitialLatch(n: nat): Latch {
    Latch(INITIAL, [], seq(n, _ => Worker(Outside, NotWaiting, Share, 1)))
  }

  function IndexOf(ids: seq<nat>, id: nat): nat
    requires id in ids
    ensures IndexOf(ids, id) < |ids| && ids[IndexOf(ids, id)] == id
  {
    if ids[0] == id then 0 else 1 + IndexOf(ids[1..], id)
  }

  /** The worker can take its next step; mode is used by a worker that starts to lock. */
  predicate CanMove(l: Latch, w: nat) {
    w < |l.workers| &&
    match l.workers[w].at
    case QueueLock(_, _) => !l.word.listLocked
    case DequeueLock(_, _) => !l.word.listLocked
    case WakeLock => !l.word.listLocked
    case DequeueCheck(_, _) => l.workers[w].state.Waiting? ==> w in l.waiters
    case DequeueAcquire(_, _, _) => l.workers[w].permits > 0
    case Acquire(_, _) => l.workers[w].permits > 0
    case WakeScan(rest, woke, _) =>
      rest == [] || (rest[0] < |l.workers| &&
        ((woke && l.workers[rest[0]].mode.Exclusive?) || rest[0] in l.waiters))
    case WakeMark(v, _) => v < |l.workers|
    case WakeRelease(v, _) => v < |l.workers|
    case _ => true
  }

  function At(l: Latch, w: nat, p: Point): Latch
    requires w < |l.workers|
  {
    l.(workers := l.workers[w := l.workers[w].(at := p)])
  }

  function Move(l: Latch, w: nat, mode: LockMode): Latch
    requires CanMove(l, w)
  {
    var me := l.workers[w];
    match me.at
    case Outside => At(l, w, Attempt(mode, 0))
    case Attempt(m, e) =>
      At(l.(word := Attempted(l.word, m)), w, if l.word.count == 0 then Repay(m, e) else QueueLock(m, e))

    case QueueLock(m, e) => At(l.(word := l.word.(listLocked := true)), w, QueueFlag(m, e))
    case QueueFlag(m, e) => At(l.(word := l.word.(hasWaiters := true)), w, QueueState(m, e))
    case QueueState(m, e) =>
      l.(workers := l.workers[w := me.(at := QueueMode(m, e), state := Waiting)])
    case QueueMode(m, e) =>
      l.(workers := l.workers[w := me.(at := QueuePush(m, e), mode := m)])
    case QueuePush(m, e) => At(l.(waiters := l.waiters + [w]), w, QueueUnlock(m, e))
    case QueueUnlock(m, e) => At(l.(word := l.word.(listLocked := false)), w, Retry(m, e))

    case Retry(m, e) =>
      At(l.(word := Attempted(l.word, m)), w, if l.word.count == 0 then DequeueLock(m, e) else Acquire(m, e))

    case DequeueLock(m, e) => At(l.(word := l.word.(listLocked := true)), w, DequeueCheck(m, e))
    case DequeueCheck(m, e) =>
      if me.state.Waiting?
      then At(l.(waiters := Without(l.waiters, IndexOf(l.waiters, w))), w, DequeueClear(m, e, true))
      else At(l, w, DequeueClear(m, e, false))
    case DequeueClear(m, e, was) =>
      At(if l.waiters == [] && l.word.hasWaiters then l.(word := l.word.(hasWaiters := false)) else l,
         w, DequeueUnlock(m, e, was))
    case DequeueUnlock(m, e, was) =>
      At(l.(word := l.word.(listLocked := false)), w, if was then DequeueReset(m, e) else DequeueFlag(m, e))
    case DequeueReset(m, e) =>
      l.(workers := l.workers[w := me.(at := Repay(m, e), state := NotWaiting)])
    case DequeueFlag(m, e) => At(l.(word := l.word.(unlockWaiter := true)), w, DequeueAcquire(m, e, 0))
    case DequeueAcquire(m, e, more) =>
      l.(workers := l.workers[w := me.(at := DequeueLook(m, e, more), permits := me.permits - 1)])
    case DequeueLook(m, e, more) =>
      At(l, w, if me.state.NotWaiting? then DequeueRepay(m, e, more) else DequeueAcquire(m, e, more + 1))
    case DequeueRepay(m, e, more) =>
      l.(workers := l.workers[w := me.(at := Repay(m, e), permits := me.permits + more)])

    case Acquire(m, e) =>
      l.(workers := l.workers[w := me.(at := Look(m, e), permits := me.permits - 1)])
    case Look(m, e) =>
      At(l, w, if me.state.NotWaiting? then AllowWakeups(m, e) else Acquire(m, e + 1))
    case AllowWakeups(m, e) => At(l.(word := l.word.(unlockWaiter := true)), w, Attempt(m, e))
    case Repay(m, e) =>
      l.(workers := l.workers[w := me.(at := Holding(m), permits := me.permits + e)])

    case Holding(m) =>
      At(l.(word := l.word.(count := if l.word.count >= Weight(m) then l.word.count - Weight(m) else 0)),
         w, if MustWake(l.word, m) then WakeLock else Outside)

    case WakeLock => At(l.(word := l.word.(listLocked := true)), w, WakeScan(l.waiters, false, []))
    case WakeScan(rest, woke, taken) =>
      if rest == [] then At(l, w, WakePublish(taken))
      else
        var v := rest[0];
        if woke && l.workers[v].mode.Exclusive? then At(l, w, WakeScan(rest[1..], woke, taken))
        else
          var marked := l.workers[v := l.workers[v].(state := PendingWakeup)];
          At(l.(waiters := Without(l.waiters, IndexOf(l.waiters, v)), workers := marked), w,
             if l.workers[v].mode.Exclusive? then WakePublish(taken + [v])
             else WakeScan(rest[1..], true, taken + [v]))
    case WakePublish(taken) => At(l.(word := Published(l.word, l.waiters == [])), w, WakeNext(taken))
    case WakeNext(taken) =>
      if taken == [] then At(l, w, Outside) else At(l, w, WakeMark(taken[0], taken[1..]))
    case WakeMark(v, taken) =>
      At(l.(workers := l.workers[v := l.workers[v].(state := NotWaiting)]), w, WakeRelease(v, taken))
    case WakeRelease(v, taken) =>
      At(l.(workers := l.workers[v := l.workers[v].(permits := l.workers[v].permits + 1)]), w, WakeNext(taken))
  }

  // ---- Runs -------------------------------------------------------------

  datatype Turn = Turn(worker: nat, mode: LockMode)

  predicate CanRun(l: Latch, turns: seq<Turn>)
    decreases |turns|
  {
    turns == [] ||
    (CanMove(l, turns[0].worker) && CanRun(Move(l, turns[0].worker, turns[0].mode), turns[1..]))
  }

  function Run(l: Latch, turns: seq<Turn>): Latch
    requires CanRun(l, turns)
    decreases |turns|
  {
    if turns == [] then l else Run(Move(l, turns[0].worker, turns[0].mode), turns[1..])
  }
}
