/** What every step of every worker keeps, for any number of workers and any interleaving. */
module LatchInvariant {
  import opened LockLists
  import opened LatchWords
  import opened Latches

  // ---- Sums over the workers ----------------------------------------------

  /** What is being counted over all workers. */
  datatype Measure =
    | LatchHolders               // workers that hold the latch
    | LatchWeight                // what they add to the count field
    | ListHolders                // workers that hold the list lock
    | InPrivateLists(v: nat)     // places of v's node in lists of wakers
    | OwedTo(v: nat)             // releases wakers still have to do for v

  function One(b: bool): nat { if b then 1 else 0 }

  function Times(ids: seq<nat>, v: nat): nat { multiset(ids)[v] }

  predicate HoldsLatch(p: Point) {
    p.DequeueLock? || p.DequeueCheck? || p.DequeueClear? || p.DequeueUnlock? || p.DequeueReset? ||
    p.DequeueFlag? || p.DequeueAcquire? || p.DequeueLook? || p.DequeueRepay? || p.Repay? || p.Holding?
  }

  predicate HoldsList(p: Point) {
    p.QueueFlag? || p.QueueState? || p.QueueMode? || p.QueuePush? || p.QueueUnlock? ||
    p.DequeueCheck? || p.DequeueClear? || p.DequeueUnlock? || p.WakeScan? || p.WakePublish?
  }

  /** The waker's private list; a worker just taken off it to be marked is still in the waker's hands. */
  function PrivateList(p: Point): seq<nat> {
    match p
    case WakeScan(_, _, taken) => taken
    case WakePublish(taken) => taken
    case WakeNext(taken) => taken
    case WakeMark(_, taken) => taken
    case WakeRelease(_, taken) => taken
    case _ => []
  }

  function Value(q: Measure, p: Point): nat {
    match q
    case LatchHolders => One(HoldsLatch(p))
    case LatchWeight => if HoldsLatch(p) then Weight(p.m) else 0
    case ListHolders => One(HoldsList(p))
    case InPrivateLists(v) => Times(PrivateList(p), v) + One(p.WakeMark? && p.v == v)
    case OwedTo(v) => Times(PrivateList(p), v) + One((p.WakeMark? || p.WakeRelease?) && p.v == v)
  }

  function Sum(q: Measure, workers: seq<Worker>): nat {
    if workers == [] then 0 else Value(q, workers[0].at) + Sum(q, workers[1..])
  }

  lemma {:induction false} SumSame(q: Measure, ws: seq<Worker>, ws': seq<Worker>)
    requires |ws| == |ws'| && forall k :: 0 <= k < |ws| ==> ws'[k].at == ws[k].at
    ensures Sum(q, ws') == Sum(q, ws)
  {
    if ws != [] { SumSame(q, ws[1..], ws'[1..]); }
  }

  /** If only w moved, the sum changes by what w's value changed. */
  lemma {:induction false} SumChange(q: Measure, ws: seq<Worker>, ws': seq<Worker>, w: nat)
    requires |ws| == |ws'| && w < |ws|
    requires forall k :: 0 <= k < |ws| && k != w ==> ws'[k].at == ws[k].at
    ensures Value(q, ws[w].at) <= Sum(q, ws)
    ensures Sum(q, ws') == Sum(q, ws) - Value(q, ws[w].at) + Value(q, ws'[w].at)
  {
    if w == 0 {
      SumSame(q, ws[1..], ws'[1..]);
    } else {
      SumChange(q, ws[1..], ws'[1..], w - 1);
    }
  }

  lemma {:induction false} SumCovers(q: Measure, ws: seq<Worker>, v: nat, w: nat)
    requires v < |ws| && w < |ws|
    ensures Value(q, ws[v].at) <= Sum(q, ws)
    ensures v != w ==> Value(q, ws[v].at) + Value(q, ws[w].at) <= Sum(q, ws)
  {
    SumChange(q, ws, ws, v);
    SumChange(q, ws, ws, w);
    if v != 0 && w != 0 {
      SumCovers(q, ws[1..], v - 1, w - 1);
    } else if v != w {
      SumChange(q, ws[1..], ws[1..], if v == 0 then w - 1 else v - 1);
    }
  }

  lemma {:induction false} HoldersWeigh(ws: seq<Worker>)
    ensures Sum(LatchHolders, ws) <= Sum(LatchWeight, ws)
  {
    if ws != [] { HoldersWeigh(ws[1..]); }
  }

  lemma {:induction false} InitialSums(q: Measure, ws: seq<Worker>)
    requires forall k :: 0 <= k < |ws| ==> ws[k].at == Outside
    ensures Sum(q, ws) == 0
  {
    if ws != [] { InitialSums(q, ws[1..]); }
  }

  // ---- The invariant ------------------------------------------------------

  /** Points at which a worker that is WAITING is in the waiters list. */
  predicate Enqueued(p: Point) {
    p.QueueUnlock? || p.Retry? || p.DequeueLock? || p.DequeueCheck? || p.Acquire? || p.Look?
  }

  /** Points at which a worker that was taken for wakeup has yet to consume its wakeup. */
  predicate AwaitsWakeup(p: Point) {
    Enqueued(p) || (p.DequeueClear? && !p.wasWaiting) || (p.DequeueUnlock? && !p.wasWaiting) ||
    p.DequeueFlag? || p.DequeueAcquire? || p.DequeueLook?
  }

  /** Permits taken from the semaphore that the worker still has to account for. */
  function InHand(p: Point): nat {
    match p
    case Look(_, e) => e + 1
    case DequeueLook(_, e, more) => e + more + 1
    case DequeueAcquire(_, e, more) => e + more
    case DequeueRepay(_, e, more) => e + more
    case Outside => 0
    case Holding(_) => 0
    case WakeLock => 0
    case WakeScan(_, _, _) => 0
    case WakePublish(_) => 0
    case WakeNext(_) => 0
    case WakeMark(_, _) => 0
    case WakeRelease(_, _) => 0
    case _ => p.extra
  }

  ghost predicate LocalOk(n: nat, k: Worker) {
    var p := k.at;
    && (Enqueued(p) || p.QueuePush? ==> k.mode == p.m)
    && (forall u :: u in PrivateList(p) ==> u < n)
    && (p.WakeMark? || p.WakeRelease? ==> p.v < n)
    && (if p.QueueMode? || p.QueuePush? || p.QueueUnlock? || p.DequeueReset? then k.state.Waiting?
        else if p.DequeueClear? || p.DequeueUnlock? then (p.wasWaiting <==> k.state.Waiting?)
        else if p.DequeueFlag? || p.DequeueAcquire? || p.DequeueLook? then !k.state.Waiting?
        else Enqueued(p) || k.state.NotWaiting?)
  }

  ghost predicate QueueOk(l: Latch, v: nat)
    requires v < |l.workers|
  {
    Times(l.waiters, v) == One(l.workers[v].state.Waiting? && Enqueued(l.workers[v].at))
  }

  ghost predicate PrivateOk(l: Latch, v: nat)
    requires v < |l.workers|
  {
    Sum(InPrivateLists(v), l.workers) == One(l.workers[v].state.PendingWakeup?)
  }

  ghost predicate PermitsOk(l: Latch, v: nat)
    requires v < |l.workers|
  {
    var k := l.workers[v];
    k.permits + InHand(k.at) + Sum(OwedTo(v), l.workers) == 1 + One(AwaitsWakeup(k.at) && !k.state.Waiting?)
  }

  /** HAS_WAITERS at each point of the worker holding the list lock. */
  ghost predicate FlagsOk(l: Latch, p: Point) {
    var agree := l.word.hasWaiters <==> l.waiters != [];
    match p
    case QueueFlag(_, _) => agree
    case QueueState(_, _) => l.word.hasWaiters
    case QueueMode(_, _) => l.word.hasWaiters
    case QueuePush(_, _) => l.word.hasWaiters
    case QueueUnlock(_, _) => agree
    case DequeueCheck(_, _) => agree
    case DequeueClear(_, _, _) => l.waiters != [] ==> l.word.hasWaiters
    case DequeueUnlock(_, _, _) => agree
    case WakeScan(rest, woke, taken) =>
      && (l.word.hasWaiters <==> l.waiters != [] || taken != [])
      && (woke <==> taken != [])
      && |rest| <= |l.waiters| && rest == l.waiters[|l.waiters| - |rest|..]
    case WakePublish(taken) => l.word.hasWaiters <==> l.waiters != [] || taken != []
    case _ => true
  }

  ghost predicate LatchInv(l: Latch) {
    var n := |l.workers|;
    && l.word.count == Sum(LatchWeight, l.workers)
    && Sum(LatchHolders, l.workers) <= 1
    && Sum(ListHolders, l.workers) == One(l.word.listLocked)
    && (!l.word.listLocked ==> (l.word.hasWaiters <==> l.waiters != []))
    && (forall u :: u in l.waiters ==> u < n)
    && (forall v :: 0 <= v < n ==> LocalOk(n, l.workers[v]))
    && (forall v :: 0 <= v < n ==> QueueOk(l, v))
    && (forall v :: 0 <= v < n ==> PrivateOk(l, v))
    && (forall v :: 0 <= v < n ==> PermitsOk(l, v))
    && (forall v :: 0 <= v < n ==> FlagsOk(l, l.workers[v].at))
  }

  lemma {:induction false} InitialLatchInv(n: nat)
    ensures LatchInv(InitialLatch(n))
  {
    var l := InitialLatch(n);
    InitialSums(LatchWeight, l.workers);
    InitialSums(LatchHolders, l.workers);
    InitialSums(ListHolders, l.workers);
    forall v | 0 <= v < n ensures PrivateOk(l, v) && PermitsOk(l, v) {
      InitialSums(InPrivateLists(v), l.workers);
      InitialSums(OwedTo(v), l.workers);
    }
  }

  // ---- One step at a time --------------------------------------------------

  lemma {:induction false} OnlyMoverMoves(l: Latch, w: nat, mode: LockMode)
    requires CanMove(l, w)
    ensures var l' := Move(l, w, mode);
      |l'.workers| == |l.workers| && forall k :: 0 <= k < |l.workers| && k != w ==> l'.workers[k].at == l.workers[k].at
  {}

  lemma {:induction false} SumMove(q: Measure, l: Latch, w: nat, mode: LockMode)
    requires CanMove(l, w)
    ensures var l' := Move(l, w, mode);
      && |l'.workers| == |l.workers| && Value(q, l.workers[w].at) <= Sum(q, l.workers)
      && Sum(q, l'.workers) == Sum(q, l.workers) - Value(q, l.workers[w].at) + Value(q, l'.workers[w].at)
  {
    OnlyMoverMoves(l, w, mode);
    SumChange(q, l.workers, Move(l, w, mode).workers, w);
  }

  /** Only a successful attempt and an unlock change the count field or who holds the latch. */
  lemma {:induction false} CountMoves(l: Latch, w: nat, mode: LockMode)
    requires CanMove(l, w)
    ensures var l' := Move(l, w, mode);
      |l'.workers| == |l.workers| &&
      var p := l.workers[w].at; var p' := l'.workers[w].at;
      if (p.Attempt? || p.Retry?) && l.word.count == 0 then
        !HoldsLatch(p) && HoldsLatch(p') && p'.m == p.m && l'.word.count == Weight(p.m)
      else if p.Holding? then
        !HoldsLatch(p') && l'.word.count == if l.word.count >= Weight(p.m) then l.word.count - Weight(p.m) else 0
      else
        l'.word.count == l.word.count && (HoldsLatch(p') <==> HoldsLatch(p)) && (HoldsLatch(p) ==> p'.m == p.m)
  {}

  lemma {:induction false} CountStep(l: Latch, w: nat, mode: LockMode)
    requires l.word.count == Sum(LatchWeight, l.workers) && Sum(LatchHolders, l.workers) <= 1
    requires CanMove(l, w)
    ensures var l' := Move(l, w, mode);
      l'.word.count == Sum(LatchWeight, l'.workers) && Sum(LatchHolders, l'.workers) <= 1
  {
    assert w < |l.workers|;
    hide Move, CanMove, HoldsLatch, Sum;
    CountMoves(l, w, mode);
    SumMove(LatchWeight, l, w, mode);
    SumMove(LatchHolders, l, w, mode);
    HoldersWeigh(l.workers);
  }

  /** Only taking and releasing the list lock change its bit or who holds it. */
  lemma {:induction false} ListLockMoves(l: Latch, w: nat, mode: LockMode)
    requires CanMove(l, w)
    ensures var l' := Move(l, w, mode);
      |l'.workers| == |l.workers| &&
      var p := l.workers[w].at; var p' := l'.workers[w].at;
      if p.QueueLock? || p.DequeueLock? || p.WakeLock? then
        !l.word.listLocked && l'.word.listLocked && !HoldsList(p) && HoldsList(p')
      else if p.QueueUnlock? || p.DequeueUnlock? || p.WakePublish? then
        !l'.word.listLocked && HoldsList(p) && !HoldsList(p')
      else
        l'.word.listLocked == l.word.listLocked && (HoldsList(p') <==> HoldsList(p))
  {}

  lemma {:induction false} ListLockStep(l: Latch, w: nat, mode: LockMode)
    requires Sum(ListHolders, l.workers) == One(l.word.listLocked)
    requires CanMove(l, w)
    ensures var l' := Move(l, w, mode); Sum(ListHolders, l'.workers) == One(l'.word.listLocked)
  {
    assert w < |l.workers|;
    hide Move, CanMove, HoldsList, Sum;
    ListLockMoves(l, w, mode);
    SumMove(ListHolders, l, w, mode);
  }

  /** The worker w's step takes or marks, if any. */
  function Victim(p: Point, l: Latch): nat {
    match p
    case WakeScan(rest, woke, _) =>
      if rest == [] || (woke && rest[0] < |l.workers| && l.workers[rest[0]].mode.Exclusive?) then |l.workers|
      else rest[0]
    case WakeMark(v, _) => v
    case _ => |l.workers|
  }

  lemma {:induction false} OneListHolder(l: Latch, v: nat, w: nat)
    requires LatchInv(l) && v < |l.workers| && w < |l.workers| && v != w && HoldsList(l.workers[w].at)
    ensures !HoldsList(l.workers[v].at)
  {
    SumCovers(ListHolders, l.workers, v, w);
  }

  /** A waiter about to be taken is WAITING in the list and not at a point of list work. */
  lemma {:induction false} TakenWaits(l: Latch, w: nat)
    requires LatchInv(l) && CanMove(l, w) && l.workers[w].at.WakeScan? && Victim(l.workers[w].at, l) < |l.workers|
    ensures var v := Victim(l.workers[w].at, l); var k := l.workers[v];
      v != w && v in l.waiters && k.state.Waiting? && Enqueued(k.at) && !HoldsList(k.at)
  {
    var v := Victim(l.workers[w].at, l);
    assert QueueOk(l, v) && LocalOk(|l.workers|, l.workers[w]);
    OneListHolder(l, v, w);
  }

  /** A worker about to be marked is PENDING and still to consume its wakeup. */
  lemma {:induction false} MarkedPends(l: Latch, w: nat)
    requires LatchInv(l) && w < |l.workers| && l.workers[w].at.WakeMark?
    ensures var v := l.workers[w].at.v;
      v < |l.workers| && v != w && l.workers[v].state.PendingWakeup? && AwaitsWakeup(l.workers[v].at)
      && v !in l.workers[w].at.taken
  {
    var v := l.workers[w].at.v;
    assert LocalOk(|l.workers|, l.workers[w]);
    assert LocalOk(|l.workers|, l.workers[v]) && PrivateOk(l, v);
    SumCovers(InPrivateLists(v), l.workers, w, w);
  }

  /** What w's step does to another worker's record. */
  lemma {:induction false} OtherWorker(l: Latch, w: nat, mode: LockMode, v: nat)
    requires CanMove(l, w) && v < |l.workers| && v != w
    ensures var l' := Move(l, w, mode); var p := l.workers[w].at; var k := l.workers[v];
      && |l'.workers| == |l.workers|
      && l'.workers[v] ==
           if p.WakeScan? && Victim(p, l) == v then k.(state := PendingWakeup)
           else if p.WakeMark? && p.v == v then k.(state := NotWaiting)
           else if p.WakeRelease? && p.v == v then k.(permits := k.permits + 1)
           else k
  {}

  /** A scan step keeps the private list or appends its victim. */
  lemma {:induction false} ScanKeepsPrivate(l: Latch, w: nat, mode: LockMode)
    requires CanMove(l, w) && l.workers[w].at.WakeScan? && LocalOk(|l.workers|, l.workers[w])
    requires Victim(l.workers[w].at, l) != w
    ensures var p := l.workers[w].at; var p' := Move(l, w, mode).workers[w].at; var v := Victim(p, l);
      && (p'.WakeScan? || p'.WakePublish?)
      && PrivateList(p') == (if v < |l.workers| then p.taken + [v] else p.taken)
    ensures forall u :: u in PrivateList(Move(l, w, mode).workers[w].at) ==> u < |l.workers|
  {
    assert PrivateList(l.workers[w].at) == l.workers[w].at.taken;
  }

  lemma {:induction false} LockerLocal(l: Latch, w: nat, mode: LockMode)
    requires CanMove(l, w) && LocalOk(|l.workers|, l.workers[w]) && !Wakes(l.workers[w].at)
    ensures LocalOk(|l.workers|, Move(l, w, mode).workers[w])
  {
    hide IndexOf, Without, MustWake, Attempted;
    assert PrivateList(Move(l, w, mode).workers[w].at) == [];
    hide PrivateList;
  }

  lemma {:induction false} WakerLocal(l: Latch, w: nat, mode: LockMode)
    requires CanMove(l, w) && LocalOk(|l.workers|, l.workers[w]) && Wakes(l.workers[w].at)
    requires Victim(l.workers[w].at, l) != w
    ensures LocalOk(|l.workers|, Move(l, w, mode).workers[w])
  {
    var p := l.workers[w].at;
    OwnStep(l, w, mode);
    if p.WakeScan? {
      ScanKeepsPrivate(l, w, mode);
      hide Move;
    } else if !p.WakeLock? {
      WakerPath(l, w, mode);
      hide Move;
      assert PrivateList(p) == p.taken;
      if p.WakeNext? && p.taken != [] {
        assert forall u :: u in p.taken[1..] ==> u in p.taken;
        assert p.taken[0] in PrivateList(p);
      }
      assert PrivateList(NextWake(p)) == (if p.WakeNext? && p.taken != [] then p.taken[1..] else p.taken);
    }
  }

  lemma {:induction false} LocalStepSelf(l: Latch, w: nat, mode: LockMode)
    requires CanMove(l, w) && LocalOk(|l.workers|, l.workers[w]) && Victim(l.workers[w].at, l) != w
    ensures LocalOk(|l.workers|, Move(l, w, mode).workers[w])
  {
    assert w < |l.workers|;
    hide Move, CanMove, Victim, LocalOk;
    if Wakes(l.workers[w].at) { WakerLocal(l, w, mode); } else { LockerLocal(l, w, mode); }
  }

  lemma {:induction false} LocalStep(l: Latch, w: nat, mode: LockMode, v: nat)
    requires LatchInv(l) && CanMove(l, w) && v < |l.workers|
    ensures |Move(l, w, mode).workers| == |l.workers| && LocalOk(|l.workers|, Move(l, w, mode).workers[v])
  {
    hide Move, Sum;
    var p := l.workers[w].at;
    assert LocalOk(|l.workers|, l.workers[v]) && LocalOk(|l.workers|, l.workers[w]);
    if p.WakeScan? && Victim(p, l) < |l.workers| { TakenWaits(l, w); }
    if p.WakeMark? { MarkedPends(l, w); }
    if v == w {
      OnlyMoverMoves(l, w, mode);
      LocalStepSelf(l, w, mode);
    } else {
      OtherWorker(l, w, mode, v);
    }
  }

  // ---- The waiters list ------------------------------------------------------

  lemma {:induction false} WithoutCounts(ids: seq<nat>, k: nat, v: nat)
    requires k < |ids|
    ensures Times(Without(ids, k), v) == Times(ids, v) - One(ids[k] == v)
  {
    assert ids == ids[..k] + [ids[k]] + ids[k + 1..];
  }

  /** Who enters and who leaves the waiters list in a step. */
  lemma {:induction false} WaitersCount(l: Latch, w: nat, mode: LockMode, v: nat)
    requires CanMove(l, w)
    ensures var p := l.workers[w].at;
      && Times(Move(l, w, mode).waiters, v) ==
           Times(l.waiters, v) + One(p.QueuePush? && v == w)
           - One(p.DequeueCheck? && l.workers[w].state.Waiting? && v == w)
           - One(p.WakeScan? && Victim(p, l) < |l.workers| && Victim(p, l) == v)
  {
    var p := l.workers[w].at;
    if p.DequeueCheck? && l.workers[w].state.Waiting? {
      WithoutCounts(l.waiters, IndexOf(l.waiters, w), v);
    } else if p.WakeScan? && Victim(p, l) < |l.workers| {
      WithoutCounts(l.waiters, IndexOf(l.waiters, Victim(p, l)), v);
    }
  }

  /** The mover's new point and state, read off the old ones. */
  lemma {:induction false} OwnStep(l: Latch, w: nat, mode: LockMode)
    requires CanMove(l, w) && Victim(l.workers[w].at, l) != w
    ensures var p := l.workers[w].at; var k := l.workers[w]; var k' := Move(l, w, mode).workers[w];
      && (Enqueued(k'.at) <==> p.QueuePush? || (Enqueued(p) && !p.DequeueCheck? && !(p.Look? && k.state.NotWaiting?)))
      && k'.state == (if p.QueueState? then Waiting else if p.DequeueReset? then NotWaiting else k.state)
  {}

  lemma {:induction false} QueueStep(l: Latch, w: nat, mode: LockMode, v: nat)
    requires LatchInv(l) && CanMove(l, w) && v < |l.workers|
    ensures |Move(l, w, mode).workers| == |l.workers| && QueueOk(Move(l, w, mode), v)
  {
    hide Move, Sum, FlagsOk, PermitsOk, PrivateOk;
    var p := l.workers[w].at;
    assert LocalOk(|l.workers|, l.workers[v]) && QueueOk(l, v);
    OnlyMoverMoves(l, w, mode);
    WaitersCount(l, w, mode, v);
    if p.WakeScan? && Victim(p, l) < |l.workers| { TakenWaits(l, w); }
    if p.WakeMark? { MarkedPends(l, w); }
    if v == w {
      OwnStep(l, w, mode);
    } else {
      OtherWorker(l, w, mode, v);
    }
  }

  // ---- Private lists and permits ---------------------------------------------

  predicate Wakes(p: Point) {
    p.WakeLock? || p.WakeScan? || p.WakePublish? || p.WakeNext? || p.WakeMark? || p.WakeRelease?
  }

  lemma {:induction false} NothingInHand(l: Latch, w: nat, mode: LockMode)
    requires CanMove(l, w) && (!Wakes(l.workers[w].at) || l.workers[w].at.WakeLock?)
    ensures PrivateList(l.workers[w].at) == PrivateList(Move(l, w, mode).workers[w].at) == []
    ensures !Move(l, w, mode).workers[w].at.WakeMark? && !Move(l, w, mode).workers[w].at.WakeRelease?
  {}

  /** Where a waker that is done scanning goes next. */
  function NextWake(p: Point): Point
    requires p.WakePublish? || p.WakeNext? || p.WakeMark? || p.WakeRelease?
  {
    if p.WakePublish? then WakeNext(p.taken)
    else if p.WakeNext? then (if p.taken == [] then Outside else WakeMark(p.taken[0], p.taken[1..]))
    else if p.WakeMark? then WakeRelease(p.v, p.taken)
    else WakeNext(p.taken)
  }

  lemma {:induction false} WakerPath(l: Latch, w: nat, mode: LockMode)
    requires CanMove(l, w) && (var p := l.workers[w].at; p.WakePublish? || p.WakeNext? || p.WakeMark? || p.WakeRelease?)
    ensures |Move(l, w, mode).workers| == |l.workers| && Move(l, w, mode).workers[w].at == NextWake(l.workers[w].at)
  {}

  lemma {:induction false} AppendCounts(ids: seq<nat>, id: nat, v: nat)
    ensures Times(ids + [id], v) == Times(ids, v) + One(id == v)
  {}

  lemma {:induction false} HeadCounts(ids: seq<nat>, v: nat)
    requires ids != []
    ensures Times(ids, v) == Times(ids[1..], v) + One(ids[0] == v)
  {
    assert ids == [ids[0]] + ids[1..];
  }

  /** Going from p to p', a worker's hold on v's node and its debt to v change by these. */
  ghost predicate Handover(p: Point, p': Point, taken: bool, v: nat) {
    && Value(InPrivateLists(v), p') + One(p.WakeMark? && p.v == v) == Value(InPrivateLists(v), p) + One(taken)
    && Value(OwedTo(v), p') + One(p.WakeRelease? && p.v == v) == Value(OwedTo(v), p) + One(taken)
  }

  lemma {:induction false} NextWakeHandsOver(p: Point, v: nat)
    requires p.WakePublish? || p.WakeNext? || p.WakeMark? || p.WakeRelease?
    ensures Handover(p, NextWake(p), false, v)
  {
    var p' := NextWake(p);
    assert PrivateList(p) == p.taken;
    assert PrivateList(p') == (if p.WakeNext? && p.taken != [] then p.taken[1..] else p.taken);
    if p.WakeNext? && p.taken != [] { HeadCounts(p.taken, v); }
    hide PrivateList, Times;
  }

  lemma {:induction false} ScanHandsOver(p: Point, p': Point, id: nat, v: nat)
    requires p.WakeScan? && (p'.WakeScan? || p'.WakePublish?)
    ensures PrivateList(p') == p.taken ==> Handover(p, p', false, v)
    ensures PrivateList(p') == p.taken + [id] ==> Handover(p, p', id == v, v)
  {
    assert PrivateList(p) == p.taken;
    AppendCounts(p.taken, id, v);
    hide Times;
  }

  /** A step changes how v's node is held, or what is owed to v, only by taking, marking or releasing v. */
  lemma {:induction false} PrivateValues(l: Latch, w: nat, mode: LockMode, v: nat)
    requires CanMove(l, w) && LocalOk(|l.workers|, l.workers[w]) && Victim(l.workers[w].at, l) != w
    ensures |Move(l, w, mode).workers| == |l.workers|
    ensures var p := l.workers[w].at;
      Handover(p, Move(l, w, mode).workers[w].at, p.WakeScan? && Victim(p, l) < |l.workers| && Victim(p, l) == v, v)
  {
    assert w < |l.workers|;
    hide Move, CanMove, LocalOk, Victim, Handover;
    var p := l.workers[w].at;
    OnlyMoverMoves(l, w, mode);
    var p' := Move(l, w, mode).workers[w].at;
    if p.WakeScan? {
      ScanKeepsPrivate(l, w, mode);
      ScanHandsOver(p, p', Victim(p, l), v);
    } else if Wakes(p) && !p.WakeLock? {
      WakerPath(l, w, mode);
      NextWakeHandsOver(p, v);
    } else {
      NothingInHand(l, w, mode);
      assert Handover(p, p', false, v) by { IdleHandsOver(p, p', v); }
    }
  }

  lemma {:induction false} IdleHandsOver(p: Point, p': Point, v: nat)
    requires PrivateList(p) == PrivateList(p') == []
    requires !p.WakeMark? && !p.WakeRelease? && !p'.WakeMark? && !p'.WakeRelease?
    ensures Handover(p, p', false, v)
  {}

  lemma {:induction false} PrivateStep(l: Latch, w: nat, mode: LockMode, v: nat)
    requires LatchInv(l) && CanMove(l, w) && v < |l.workers|
    ensures |Move(l, w, mode).workers| == |l.workers| && PrivateOk(Move(l, w, mode), v)
  {
    hide Move, Sum, FlagsOk, PermitsOk, QueueOk, Value;
    var p := l.workers[w].at;
    assert LocalOk(|l.workers|, l.workers[v]) && LocalOk(|l.workers|, l.workers[w]) && PrivateOk(l, v);
    if p.WakeScan? && Victim(p, l) < |l.workers| { TakenWaits(l, w); }
    if p.WakeMark? { MarkedPends(l, w); }
    SumMove(InPrivateLists(v), l, w, mode);
    PrivateValues(l, w, mode, v);
    if v == w {
      OwnStep(l, w, mode);
    } else {
      OtherWorker(l, w, mode, v);
    }
  }

  lemma {:induction false} WakerPermits(l: Latch, w: nat, mode: LockMode)
    requires CanMove(l, w) && Wakes(l.workers[w].at)
    ensures var k := l.workers[w]; var k' := Move(l, w, mode).workers[w];
      && (Wakes(k'.at) || k'.at.Outside?)
      && k'.permits == k.permits + One(k.at.WakeRelease? && k.at.v == w)
  {}

  predicate Dequeues(p: Point) {
    p.DequeueLock? || p.DequeueCheck? || p.DequeueClear? || p.DequeueUnlock? || p.DequeueReset? ||
    p.DequeueFlag? || p.DequeueAcquire? || p.DequeueLook? || p.DequeueRepay?
  }

  ghost predicate PermitsKept(k: Worker, k': Worker) {
    k'.permits + InHand(k'.at) + One(AwaitsWakeup(k.at) && !k.state.Waiting?)
    == k.permits + InHand(k.at) + One(AwaitsWakeup(k'.at) && !k'.state.Waiting?)
  }

  lemma {:induction false} DequeuePermits(l: Latch, w: nat, mode: LockMode)
    requires CanMove(l, w) && Dequeues(l.workers[w].at) && LocalOk(|l.workers|, l.workers[w])
    ensures PermitsKept(l.workers[w], Move(l, w, mode).workers[w])
  {
    hide IndexOf, Without, MustWake, Attempted, PrivateList;
  }

  lemma {:induction false} LockPermits(l: Latch, w: nat, mode: LockMode)
    requires CanMove(l, w) && !Wakes(l.workers[w].at) && !Dequeues(l.workers[w].at)
    requires LocalOk(|l.workers|, l.workers[w])
    ensures PermitsKept(l.workers[w], Move(l, w, mode).workers[w])
  {
    hide IndexOf, Without, MustWake, Attempted, PrivateList;
  }

  /** The mover's permits: taken from the semaphore into the hand, or given back. */
  lemma {:induction false} OwnPermits(l: Latch, w: nat, mode: LockMode)
    requires CanMove(l, w) && LocalOk(|l.workers|, l.workers[w]) && Victim(l.workers[w].at, l) != w
    ensures var k := l.workers[w]; var k' := Move(l, w, mode).workers[w];
      && k'.permits + InHand(k'.at) + One(AwaitsWakeup(k.at) && !k.state.Waiting?)
         == k.permits + InHand(k.at) + One(AwaitsWakeup(k'.at) && !k'.state.Waiting?)
            + One(k.at.WakeRelease? && k.at.v == w)
  {
    assert w < |l.workers|;
    hide Move, CanMove, Victim, LocalOk, Dequeues;
    var k := l.workers[w];
    if Wakes(k.at) {
      WakerPermits(l, w, mode);
    } else if Dequeues(k.at) {
      DequeuePermits(l, w, mode);
    } else {
      LockPermits(l, w, mode);
    }
  }

  lemma {:induction false} PermitsStep(l: Latch, w: nat, mode: LockMode, v: nat)
    requires LatchInv(l) && CanMove(l, w) && v < |l.workers|
    ensures |Move(l, w, mode).workers| == |l.workers| && PermitsOk(Move(l, w, mode), v)
  {
    hide Move, Sum, FlagsOk, PrivateOk, QueueOk, Value, InHand;
    var p := l.workers[w].at;
    assert LocalOk(|l.workers|, l.workers[v]) && LocalOk(|l.workers|, l.workers[w]) && PermitsOk(l, v);
    if p.WakeScan? && Victim(p, l) < |l.workers| { TakenWaits(l, w); }
    if p.WakeMark? { MarkedPends(l, w); }
    SumMove(OwedTo(v), l, w, mode);
    PrivateValues(l, w, mode, v);
    if v == w {
      OwnPermits(l, w, mode);
    } else {
      OtherWorker(l, w, mode, v);
    }
  }

  // ---- The flags --------------------------------------------------------------

  /** Without the list lock a step leaves the waiters list and its flag alone. */
  lemma {:induction false} OnlyHoldersTouchTheList(l: Latch, w: nat, mode: LockMode)
    requires CanMove(l, w) && !HoldsList(l.workers[w].at)
    ensures var l' := Move(l, w, mode);
      l'.waiters == l.waiters && l'.word.hasWaiters == l.word.hasWaiters &&
      (l.word.listLocked ==> !HoldsList(l'.workers[w].at))
  {}

  lemma {:induction false} SingleMeansDistinct(ids: seq<nat>, i: nat, j: nat)
    requires i < j < |ids| && multiset(ids)[ids[i]] <= 1
    ensures ids[i] != ids[j]
  {
    assert ids == ids[..j] + [ids[j]] + ids[j + 1..];
    assert ids[i] in ids[..j];
    assert multiset(ids)[ids[i]] >= 1 + One(ids[j] == ids[i]);
  }

  lemma {:induction false} DistinctWaiters(l: Latch, i: nat, j: nat)
    requires LatchInv(l) && i < j < |l.waiters|
    ensures l.waiters[i] != l.waiters[j]
  {
    assert l.waiters[i] in l.waiters && QueueOk(l, l.waiters[i]);
    SingleMeansDistinct(l.waiters, i, j);
  }

  lemma {:induction false} ScanEffect(l: Latch, w: nat, mode: LockMode)
    requires CanMove(l, w) && l.workers[w].at.WakeScan?
    ensures var l' := Move(l, w, mode); var p := l.workers[w].at;
      && |l'.workers| == |l.workers| && l'.word == l.word
      && (p.rest == [] ==> l'.workers[w].at == WakePublish(p.taken) && l'.waiters == l.waiters)
      && (p.rest != [] && Victim(p, l) == |l.workers| ==>
            p.woke && l'.workers[w].at == WakeScan(p.rest[1..], true, p.taken) && l'.waiters == l.waiters)
      && (p.rest != [] && Victim(p, l) < |l.workers| ==>
            && p.rest[0] in l.waiters && l'.waiters == Without(l.waiters, IndexOf(l.waiters, p.rest[0]))
            && l'.workers[w].at in {WakePublish(p.taken + [p.rest[0]]),
                                    WakeScan(p.rest[1..], true, p.taken + [p.rest[0]])})
  {}

  /** Removing from a list the head of its tail leaves the tail's tail at the end. */
  lemma {:induction false} TailWithout(ids: seq<nat>, rest: seq<nat>, i: nat)
    requires 0 < |rest| <= |ids| && rest == ids[|ids| - |rest|..] && i == |ids| - |rest|
    ensures rest[1..] == Without(ids, i)[|ids| - |rest|..]
  {}

  /** The next waiter of a scan is where the scan is. */
  lemma {:induction false} ScanPosition(l: Latch, w: nat)
    requires LatchInv(l) && w < |l.workers| && l.workers[w].at.WakeScan? && l.workers[w].at.rest != []
    ensures var rest := l.workers[w].at.rest; var k := |l.waiters| - |rest|;
      k >= 0 && rest == l.waiters[k..] && rest[0] in l.waiters && IndexOf(l.waiters, rest[0]) == k
  {
    assert FlagsOk(l, l.workers[w].at);
    var rest: seq<nat> := l.workers[w].at.rest;
    var k := |l.waiters| - |rest|;
    assert rest[0] == l.waiters[k];
    var i := IndexOf(l.waiters, rest[0]);
    if i < k { DistinctWaiters(l, i, k); } else if k < i { DistinctWaiters(l, k, i); }
  }

  /** The rest of a scan stays the tail of the waiters list. */
  lemma {:induction false} ScanSuffix(l: Latch, w: nat, mode: LockMode)
    requires LatchInv(l) && CanMove(l, w) && l.workers[w].at.WakeScan? && l.workers[w].at.rest != []
    ensures var l' := Move(l, w, mode); var rest := l.workers[w].at.rest[1..];
      |rest| <= |l'.waiters| && rest == l'.waiters[|l'.waiters| - |rest|..]
    ensures l.workers[w].at.rest[0] in l.waiters
  {
    ScanPosition(l, w);
    ScanEffect(l, w, mode);
    var rest: seq<nat> := l.workers[w].at.rest;
    hide Move, LatchInv, FlagsOk, IndexOf, CanMove;
    TailWithout(l.waiters, rest, |l.waiters| - |rest|);
  }

  /** HAS_WAITERS as the list holder w leaves it for its own next point. */
  ghost predicate FlagsLeft(l: Latch, l': Latch, w: nat)
    requires w < |l.workers| == |l'.workers|
  {
    && FlagsOk(l', l'.workers[w].at)
    && (HoldsList(l.workers[w].at) && !l'.word.listLocked ==> (l'.word.hasWaiters <==> l'.waiters != []))
  }

  lemma {:induction false} LockerFlags(l: Latch, w: nat, mode: LockMode)
    requires CanMove(l, w) && !Wakes(l.workers[w].at) && FlagsOk(l, l.workers[w].at)
    requires !l.word.listLocked ==> (l.word.hasWaiters <==> l.waiters != [])
    requires HoldsList(l.workers[w].at) ==> l.word.listLocked
    ensures |Move(l, w, mode).workers| == |l.workers| && FlagsLeft(l, Move(l, w, mode), w)
  {
    hide IndexOf, Without, MustWake, Attempted;
    if l.workers[w].at.DequeueCheck? && l.workers[w].state.Waiting? {
      assert l.waiters != [];
    }
  }

  lemma {:induction false} WakerFlags(l: Latch, w: nat, mode: LockMode)
    requires LatchInv(l) && CanMove(l, w) && Wakes(l.workers[w].at) && !l.workers[w].at.WakeScan?
    ensures |Move(l, w, mode).workers| == |l.workers| && FlagsLeft(l, Move(l, w, mode), w)
  {
    hide Sum, PermitsOk, PrivateOk, QueueOk, LocalOk;
    assert FlagsOk(l, l.workers[w].at);
  }

  lemma {:induction false} ScanFlags(l: Latch, w: nat, mode: LockMode)
    requires LatchInv(l) && CanMove(l, w) && l.workers[w].at.WakeScan?
    ensures |Move(l, w, mode).workers| == |l.workers| && FlagsLeft(l, Move(l, w, mode), w)
  {
    assert FlagsOk(l, l.workers[w].at);
    SumCovers(ListHolders, l.workers, w, w);
    assert l.word.listLocked;
    hide LatchInv, Move, CanMove, FlagsOk, FlagsLeft, Sum;
    ScanEffect(l, w, mode);
    if l.workers[w].at.rest != [] { ScanSuffix(l, w, mode); }
    ScanLeaves(l, Move(l, w, mode), w);
  }

  lemma {:induction false} ScanLeaves(l: Latch, l': Latch, w: nat)
    requires w < |l.workers| == |l'.workers| && l'.word == l.word && l.word.listLocked
    requires l.workers[w].at.WakeScan? && FlagsOk(l, l.workers[w].at)
    requires var p := l.workers[w].at;
      || (p.rest == [] && l'.workers[w].at == WakePublish(p.taken) && l'.waiters == l.waiters)
      || (p.rest != [] && p.woke && l'.workers[w].at == WakeScan(p.rest[1..], true, p.taken) && l'.waiters == l.waiters)
      || (p.rest != [] && p.rest[0] in l.waiters
          && |p.rest| - 1 <= |l'.waiters| && p.rest[1..] == l'.waiters[|l'.waiters| - |p.rest| + 1..]
          && l'.workers[w].at in {WakePublish(p.taken + [p.rest[0]]),
                                  WakeScan(p.rest[1..], true, p.taken + [p.rest[0]])})
    ensures FlagsLeft(l, l', w)
  {}

  lemma {:induction false} HolderFlags(l: Latch, w: nat, mode: LockMode)
    requires LatchInv(l) && CanMove(l, w)
    ensures |Move(l, w, mode).workers| == |l.workers| && FlagsLeft(l, Move(l, w, mode), w)
  {
    assert w < |l.workers|;
    hide Move, Sum, PermitsOk, PrivateOk, QueueOk, LocalOk, FlagsOk, CanMove, FlagsLeft;
    if l.workers[w].at.WakeScan? {
      ScanFlags(l, w, mode);
    } else if Wakes(l.workers[w].at) {
      WakerFlags(l, w, mode);
    } else {
      assert FlagsOk(l, l.workers[w].at);
      SumCovers(ListHolders, l.workers, w, w);
      LockerFlags(l, w, mode);
    }
  }

  lemma {:induction false} FlagsStep(l: Latch, w: nat, mode: LockMode, v: nat)
    requires LatchInv(l) && CanMove(l, w) && v < |l.workers|
    ensures var l' := Move(l, w, mode);
      |l'.workers| == |l.workers| && FlagsOk(l', l'.workers[v].at)
  {
    hide Move, Sum, PermitsOk, PrivateOk, QueueOk, LocalOk;
    OnlyMoverMoves(l, w, mode);
    if v == w {
      HolderFlags(l, w, mode);
    } else if HoldsList(l.workers[v].at) {
      OneListHolder(l, w, v);
      OnlyHoldersTouchTheList(l, w, mode);
      assert FlagsOk(l, l.workers[v].at);
    }
  }

  /** No step puts anything but the stepping worker in the waiters list. */
  lemma {:induction false} WaitersShrink(l: Latch, w: nat, mode: LockMode)
    requires CanMove(l, w)
    ensures forall u :: u in Move(l, w, mode).waiters ==> u == w || u in l.waiters
  {}

  lemma {:induction false} UnlockedStep(l: Latch, w: nat, mode: LockMode)
    requires LatchInv(l) && CanMove(l, w)
    ensures var l' := Move(l, w, mode);
      && (!l'.word.listLocked ==> (l'.word.hasWaiters <==> l'.waiters != []))
      && (forall u :: u in l'.waiters ==> u < |l'.workers|)
  {
    assert w < |l.workers|;
    hide Sum, PermitsOk, PrivateOk, QueueOk, LocalOk, FlagsOk, Move, CanMove;
    OnlyMoverMoves(l, w, mode);
    WaitersShrink(l, w, mode);
    if HoldsList(l.workers[w].at) {
      HolderFlags(l, w, mode);
    } else {
      OnlyHoldersTouchTheList(l, w, mode);
    }
  }

  lemma {:induction false} LatchStep(l: Latch, w: nat, mode: LockMode)
    requires LatchInv(l) && CanMove(l, w)
    ensures LatchInv(Move(l, w, mode))
  {
    hide Move, Sum, FlagsOk, PermitsOk, PrivateOk, QueueOk, LocalOk;
    var n := |l.workers|;
    OnlyMoverMoves(l, w, mode);
    CountStep(l, w, mode);
    ListLockStep(l, w, mode);
    UnlockedStep(l, w, mode);
    forall v | 0 <= v < n
      ensures var l' := Move(l, w, mode);
        LocalOk(n, l'.workers[v]) && QueueOk(l', v) && PrivateOk(l', v) && PermitsOk(l', v) &&
          FlagsOk(l', l'.workers[v].at)
    {
      LocalStep(l, w, mode, v);
      QueueStep(l, w, mode, v);
      PrivateStep(l, w, mode, v);
      PermitsStep(l, w, mode, v);
      FlagsStep(l, w, mode, v);
    }
  }

  /** The invariant holds after every run of any number of workers. */
  lemma {:induction false} LatchRunInv(l: Latch, turns: seq<Turn>)
    requires LatchInv(l) && CanRun(l, turns)
    ensures LatchInv(Run(l, turns)) && |Run(l, turns).workers| == |l.workers|
    decreases |turns|
  {
    hide LatchInv, Move, CanMove;
    if turns != [] {
      LatchStep(l, turns[0].worker, turns[0].mode);
      OnlyMoverMoves(l, turns[0].worker, turns[0].mode);
      LatchRunInv(Move(l, turns[0].worker, turns[0].mode), turns[1..]);
    }
  }
}
