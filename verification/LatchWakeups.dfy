/**
 Who wakes whom.  A waiter is sure to be woken as long as somebody is still to free the
 latch, to try for it or to wake waiters.  A wakeup that finds the list empty withdraws the
 permission to wake and hands it to nobody: then a waiter can be left asleep for good.
 */
module LatchWakeups {
  import opened LockLists
  import opened LatchWords
  import opened Latches
  import opened LatchInvariant
  import opened LatchTheorems

  // ---- Taking and freeing the latch ------------------------------------------------------

  /** An attempt takes the latch at once exactly if nobody holds it, in either mode. */
  lemma {:induction false} AttemptTakesTheFreeLatch(l: Latch, w: nat, mode: LockMode)
    requires ReachableLatch(l) && CanMove(l, w) && (l.workers[w].at.Attempt? || l.workers[w].at.Retry?)
    ensures var l' := Move(l, w, mode);
      |l'.workers| == |l.workers| &&
      (HoldsLatch(l'.workers[w].at) <==> forall v :: 0 <= v < |l.workers| ==> !HoldsLatch(l.workers[v].at))
  {
    FreeMeansUnheld(l);
    OnlyMoverMoves(l, w, mode);
    CountMoves(l, w, mode);
    hide ReachableLatch;
  }

  /** An unlock goes on to wake waiters exactly if somebody is queued, or about to be, and waking is permitted. */
  lemma {:induction false} UnlockWakesExactly(l: Latch, w: nat, mode: LockMode)
    requires ReachableLatch(l) && CanMove(l, w) && l.workers[w].at.Holding?
    ensures var l' := Move(l, w, mode);
      && |l'.workers| == |l.workers| && l'.word.count == 0
      && (l'.workers[w].at.WakeLock? <==> l.word.hasWaiters && l.word.unlockWaiter)
      && (!l'.workers[w].at.WakeLock? ==> l'.workers[w].at.Outside?)
      && (l.waiters != [] ==> l.word.hasWaiters)
  {
    ReachableLatchInv(l);
    OnlyMoverMoves(l, w, mode);
    HolderWeighsAll(l, w);
    QueuedIsFlagged(l);
    hide ReachableLatch, LatchInv;
  }

  /** Whoever is queued, HAS_WAITERS is set, also while the list is locked. */
  lemma {:induction false} QueuedIsFlagged(l: Latch)
    requires LatchInv(l)
    ensures l.waiters != [] ==> l.word.hasWaiters
  {
    if l.word.listLocked {
      SomeLister(l.workers);
      var u :| 0 <= u < |l.workers| && HoldsList(l.workers[u].at);
      assert FlagsOk(l, l.workers[u].at);
    }
  }

  lemma {:induction false} SomeLister(ws: seq<Worker>)
    requires Sum(ListHolders, ws) > 0
    ensures exists w :: 0 <= w < |ws| && HoldsList(ws[w].at)
  {
    if !HoldsList(ws[0].at) {
      SomeLister(ws[1..]);
      var w :| 0 <= w < |ws| - 1 && HoldsList(ws[1..][w].at);
      assert HoldsList(ws[w + 1].at);
    }
  }

  /** A queued worker is recorded with the mode it asked for. */
  lemma {:induction false} QueuedMode(l: Latch, v: nat)
    requires ReachableLatch(l) && v < |l.workers| && v in l.waiters
    ensures l.workers[v].state.Waiting? && Enqueued(l.workers[v].at) && l.workers[v].mode == l.workers[v].at.m
  {
    ReachableLatchInv(l);
    assert QueueOk(l, v) && LocalOk(|l.workers|, l.workers[v]);
  }

  // ---- What a waker holds while it has the list ---------------------------------------------

  /** The workers taken so far are still on their way to their semaphore; if none was, nobody was passed over. */
  ghost predicate ScanKeepsAll(l: Latch, w: nat)
    requires w < |l.workers|
  {
    match l.workers[w].at
    case WakeScan(rest, _, taken) =>
      && (forall v :: v in taken ==> v < |l.workers| && Enqueued(l.workers[v].at))
      && (taken == [] ==> |rest| == |l.waiters|)
    case WakePublish(taken) =>
      && (forall v :: v in taken ==> v < |l.workers| && Enqueued(l.workers[v].at))
      && (taken == [] ==> l.waiters == [])
    case _ => true
  }

  ghost predicate ScansOk(l: Latch) {
    forall w :: 0 <= w < |l.workers| ==> ScanKeepsAll(l, w)
  }

  /** Whoever is in a waker's private list is PENDING. */
  lemma {:induction false} TakenPends(l: Latch, w: nat, v: nat)
    requires LatchInv(l) && w < |l.workers| && v in PrivateList(l.workers[w].at)
    ensures v < |l.workers| && l.workers[v].state.PendingWakeup?
  {
    assert LocalOk(|l.workers|, l.workers[w]) && PrivateOk(l, v);
    SumCovers(InPrivateLists(v), l.workers, w, w);
  }

  /** A queued worker that is PENDING stays on its way while somebody else has the list. */
  lemma {:induction false} PendingStaysEnqueued(l: Latch, v: nat, mode: LockMode)
    requires CanMove(l, v) && Enqueued(l.workers[v].at) && l.workers[v].state.PendingWakeup?
    requires !HoldsList(l.workers[v].at) && l.word.listLocked
    ensures |Move(l, v, mode).workers| == |l.workers| && Enqueued(Move(l, v, mode).workers[v].at)
  {}

  lemma {:induction false} OthersScanStays(l: Latch, u: nat, mode: LockMode, w: nat)
    requires LatchInv(l) && CanMove(l, u) && w < |l.workers| && w != u && ScanKeepsAll(l, w)
    ensures w < |Move(l, u, mode).workers| && ScanKeepsAll(Move(l, u, mode), w)
  {
    var l' := Move(l, u, mode);
    OnlyMoverMoves(l, u, mode);
    var p := l.workers[w].at;
    if p.WakeScan? || p.WakePublish? {
      OneListHolder(l, u, w);
      OnlyHoldersTouchTheList(l, u, mode);
      SumCovers(ListHolders, l.workers, w, w);
      forall v | v in p.taken ensures v < |l'.workers| && Enqueued(l'.workers[v].at) {
        TakenPends(l, w, v);
        if v == u { PendingStaysEnqueued(l, u, mode); }
      }
    }
    hide LatchInv, CanMove, Move, Enqueued, HoldsList;
  }

  /** A scan starts with the list lock and goes over the whole list. */
  lemma {:induction false} ScanStarts(l: Latch, w: nat, mode: LockMode)
    requires CanMove(l, w) && !l.workers[w].at.WakeScan?
    ensures var l' := Move(l, w, mode);
      && |l'.workers| == |l.workers| && !l'.workers[w].at.WakePublish?
      && (l'.workers[w].at.WakeScan? ==> l'.workers[w].at == WakeScan(l'.waiters, false, []))
  {}

  /** A step of the scan: one more is taken, or one passed over after another was taken. */
  lemma {:induction false} ScanTakesOn(l: Latch, w: nat, mode: LockMode)
    requires LatchInv(l) && CanMove(l, w) && l.workers[w].at.WakeScan? && ScanKeepsAll(l, w)
    ensures w < |Move(l, w, mode).workers| && ScanKeepsAll(Move(l, w, mode), w)
  {
    var l' := Move(l, w, mode);
    var p := l.workers[w].at;
    assert LocalOk(|l.workers|, l.workers[w]) && FlagsOk(l, p);
    OnlyMoverMoves(l, w, mode);
    if Victim(p, l) < |l.workers| { TakenWaits(l, w); }
    ScanEffect(l, w, mode);
    ScanKeepsPrivate(l, w, mode);
    hide LatchInv, CanMove, Move, Enqueued, Without, IndexOf, FlagsOk, LocalOk;
    var p' := l'.workers[w].at;
    assert p'.WakeScan? || p'.WakePublish?;
    forall v | v in p'.taken ensures v < |l'.workers| && Enqueued(l'.workers[v].at) {
      if v in p.taken { assert Enqueued(l.workers[v].at); }
    }
  }

  lemma {:induction false} OwnScanGoesOn(l: Latch, w: nat, mode: LockMode)
    requires LatchInv(l) && CanMove(l, w) && ScanKeepsAll(l, w)
    ensures w < |Move(l, w, mode).workers| && ScanKeepsAll(Move(l, w, mode), w)
  {
    if l.workers[w].at.WakeScan? {
      ScanTakesOn(l, w, mode);
    } else {
      ScanStarts(l, w, mode);
      hide LatchInv, CanMove, Move;
    }
  }

  // ---- The permission to wake ------------------------------------------------------------------

  /** Taken for wakeup, and still to permit waking again. */
  predicate OwesPermission(k: Worker) {
    || (Enqueued(k.at) && !k.state.Waiting?)
    || (k.at.DequeueClear? && !k.at.wasWaiting) || (k.at.DequeueUnlock? && !k.at.wasWaiting)
    || k.at.DequeueFlag? || k.at.AllowWakeups?
  }

  /** Waking is not permitted, and nobody is on the way to permit it. */
  ghost predicate Muted(l: Latch) {
    !l.word.unlockWaiter && forall v :: 0 <= v < |l.workers| ==> !OwesPermission(l.workers[v])
  }

  /** What w's own step does to the permission, and to what w owes. */
  lemma {:induction false} OwnPermission(l: Latch, w: nat, mode: LockMode)
    requires CanMove(l, w) && LocalOk(|l.workers|, l.workers[w]) && !Wakes(l.workers[w].at)
    ensures var l' := Move(l, w, mode);
      && |l'.workers| == |l.workers|
      && (l.word.unlockWaiter ==> l'.word.unlockWaiter)
      && (OwesPermission(l.workers[w]) ==> OwesPermission(l'.workers[w]) || l'.word.unlockWaiter)
      && (l'.word.unlockWaiter && !l.word.unlockWaiter ==> OwesPermission(l.workers[w]))
  {}

  lemma {:induction false} WakerPermission(l: Latch, w: nat, mode: LockMode)
    requires CanMove(l, w) && Wakes(l.workers[w].at)
    ensures var l' := Move(l, w, mode);
      && |l'.workers| == |l.workers| && !OwesPermission(l.workers[w])
      && l'.word.unlockWaiter == (l.word.unlockWaiter && !l.workers[w].at.WakePublish?)
  {}

  /** Somebody else's step does not relieve v of what it owes. */
  lemma {:induction false} DebtStays(l: Latch, w: nat, mode: LockMode, v: nat)
    requires LatchInv(l) && CanMove(l, w) && v < |l.workers| && v != w && OwesPermission(l.workers[v])
    ensures v < |Move(l, w, mode).workers| && OwesPermission(Move(l, w, mode).workers[v])
  {
    OtherWorker(l, w, mode, v);
    hide Move, CanMove, LatchInv;
  }

  /** The workers a waker has taken when it publishes owe the permission from then on. */
  lemma {:induction false} TakenOwe(l: Latch, w: nat, mode: LockMode)
    requires LatchInv(l) && ScansOk(l) && CanMove(l, w) && l.workers[w].at.WakePublish? && l.workers[w].at.taken != []
    ensures |Move(l, w, mode).workers| == |l.workers|
    ensures var v := l.workers[w].at.taken[0]; v < |l.workers| && v != w && OwesPermission(Move(l, w, mode).workers[v])
  {
    var v := l.workers[w].at.taken[0];
    assert v in PrivateList(l.workers[w].at);
    TakenPends(l, w, v);
    assert ScanKeepsAll(l, w);
    DebtStays(l, w, mode, v);
    OnlyMoverMoves(l, w, mode);
  }

  /** Waking is muted by one thing only: a wakeup that took nobody. */
  lemma {:induction false} MutedOnlyByAnEmptyWakeup(l: Latch, w: nat, mode: LockMode)
    requires LatchInv(l) && ScansOk(l) && CanMove(l, w) && !Muted(l)
    ensures Muted(Move(l, w, mode)) ==> l.workers[w].at == WakePublish([])
  {
    var l' := Move(l, w, mode);
    var p := l.workers[w].at;
    assert LocalOk(|l.workers|, l.workers[w]);
    if Wakes(p) { WakerPermission(l, w, mode); } else { OwnPermission(l, w, mode); }
    if l.word.unlockWaiter {
      if p.WakePublish? && p.taken != [] { TakenOwe(l, w, mode); }
    } else {
      var v :| 0 <= v < |l.workers| && OwesPermission(l.workers[v]);
      if v != w { DebtStays(l, w, mode, v); }
    }
    hide Move, CanMove, LatchInv, ScansOk, OwesPermission;
  }

  // ---- Who looks after the waiters -------------------------------------------------------------

  /**
   A worker that will free the latch, try for it, or wake waiters.  Not so one outside, one
   asleep in the list, or a waker that has nothing left to do but release those it took.
   */
  predicate WillLook(k: Worker) {
    || HoldsLatch(k.at) || k.at.Attempt? || k.at.AllowWakeups?
    || k.at.QueueLock? || k.at.QueueFlag? || k.at.QueueState? || k.at.QueueMode? || k.at.QueuePush?
    || k.at.QueueUnlock? || k.at.Retry?
    || k.at.WakeLock? || k.at.WakeScan? || k.at.WakePublish?
    || (Enqueued(k.at) && !k.state.Waiting?)
  }

  ghost predicate Watched(l: Latch) {
    l.waiters == [] || Muted(l) || exists v :: 0 <= v < |l.workers| && WillLook(l.workers[v])
  }

  lemma {:induction false} DebtorLooks(k: Worker)
    requires OwesPermission(k)
    ensures WillLook(k)
  {}

  /** Where w goes on from a point at which it will look: to another such, or the matter is settled. */
  lemma {:induction false} LookerGoesOn(l: Latch, w: nat, mode: LockMode)
    requires CanMove(l, w) && LocalOk(|l.workers|, l.workers[w]) && WillLook(l.workers[w])
    ensures var l' := Move(l, w, mode); var p := l.workers[w].at;
      |l'.workers| == |l.workers| &&
      (WillLook(l'.workers[w])
       || (p.Holding? && !MustWake(l.word, p.m))
       || (p.Retry? && l.word.count != 0 && l.workers[w].state.Waiting?)
       || p.WakePublish?)
  {}

  lemma {:induction false} OthersLookOn(l: Latch, w: nat, mode: LockMode, v: nat)
    requires LatchInv(l) && CanMove(l, w) && v < |l.workers| && v != w && WillLook(l.workers[v])
    ensures v < |Move(l, w, mode).workers| && WillLook(Move(l, w, mode).workers[v])
  {
    OtherWorker(l, w, mode, v);
    hide Move, CanMove, LatchInv;
  }

  /** The last looker leaves: somebody else looks, or nobody is queued, or waking is muted. */
  lemma {:induction false} LookerLeaves(l: Latch, w: nat, mode: LockMode)
    requires LatchInv(l) && ScansOk(l) && CanMove(l, w) && WillLook(l.workers[w])
    requires !WillLook(Move(l, w, mode).workers[w])
    ensures Watched(Move(l, w, mode))
  {
    var l' := Move(l, w, mode);
    var p := l.workers[w].at;
    assert LocalOk(|l.workers|, l.workers[w]);
    OnlyMoverMoves(l, w, mode);
    LookerGoesOn(l, w, mode);
    if p.WakePublish? {
      if p.taken == [] {
        assert ScanKeepsAll(l, w);
        PublishKeepsWaiters(l, w, mode);
      } else {
        TakenOwe(l, w, mode);
        DebtorLooks(l'.workers[p.taken[0]]);
      }
    } else if p.Retry? {
      SomeHolder(l.workers);
      var u :| 0 <= u < |l.workers| && HoldsLatch(l.workers[u].at);
      OthersLookOn(l, w, mode, u);
    } else {
      HolderWeighsAll(l, w);
      UnlockKeepsWaiters(l, w, mode);
      QueuedIsFlagged(l);
      OwnPermission(l, w, mode);
      if !Muted(l) && l.waiters != [] {
        var v :| 0 <= v < |l.workers| && OwesPermission(l.workers[v]);
        DebtStays(l, w, mode, v);
        DebtorLooks(l'.workers[v]);
      } else if l.waiters != [] {
        MutedStays(l, w, mode);
      }
    }
    hide Move, CanMove, LatchInv, ScansOk, OwesPermission, WillLook, Enqueued, HoldsLatch;
  }

  lemma {:induction false} PublishKeepsWaiters(l: Latch, w: nat, mode: LockMode)
    requires CanMove(l, w) && l.workers[w].at.WakePublish?
    ensures Move(l, w, mode).waiters == l.waiters
  {}

  lemma {:induction false} UnlockKeepsWaiters(l: Latch, w: nat, mode: LockMode)
    requires CanMove(l, w) && l.workers[w].at.Holding?
    ensures var l' := Move(l, w, mode);
      |l'.workers| == |l.workers| && l'.waiters == l.waiters && l'.word.unlockWaiter == l.word.unlockWaiter
      && !OwesPermission(l.workers[w]) && !OwesPermission(l'.workers[w])
      && forall v :: 0 <= v < |l.workers| && v != w ==> l'.workers[v] == l.workers[v]
  {}

  lemma {:induction false} MutedStays(l: Latch, w: nat, mode: LockMode)
    requires CanMove(l, w) && l.workers[w].at.Holding? && Muted(l)
    ensures Muted(Move(l, w, mode))
  {
    UnlockKeepsWaiters(l, w, mode);
    hide Move, CanMove, OwesPermission;
  }

  lemma {:induction false} OnlyPushFillsTheList(l: Latch, w: nat, mode: LockMode)
    requires CanMove(l, w) && l.waiters == []
    ensures Move(l, w, mode).waiters != [] ==> w < |Move(l, w, mode).workers| && WillLook(Move(l, w, mode).workers[w])
  {}

  /** Where waking was muted and is no more, somebody new owes the permission. */
  lemma {:induction false} UnmutedByADebt(l: Latch, w: nat, mode: LockMode)
    requires LatchInv(l) && CanMove(l, w) && Muted(l) && !Muted(Move(l, w, mode))
    ensures var l' := Move(l, w, mode); exists v :: 0 <= v < |l'.workers| && WillLook(l'.workers[v])
  {
    var l' := Move(l, w, mode);
    assert LocalOk(|l.workers|, l.workers[w]);
    if Wakes(l.workers[w].at) { WakerPermission(l, w, mode); } else { OwnPermission(l, w, mode); }
    var v :| 0 <= v < |l'.workers| && OwesPermission(l'.workers[v]);
    DebtorLooks(l'.workers[v]);
    hide Move, CanMove, LatchInv, OwesPermission;
  }

  lemma {:induction false} WatchedStep(l: Latch, w: nat, mode: LockMode)
    requires LatchInv(l) && ScansOk(l) && CanMove(l, w) && Watched(l)
    ensures Watched(Move(l, w, mode))
  {
    var l' := Move(l, w, mode);
    OnlyMoverMoves(l, w, mode);
    hide Move, CanMove, LatchInv, ScansOk, WillLook, OwesPermission;
    if l.waiters == [] {
      OnlyPushFillsTheList(l, w, mode);
    } else if Muted(l) {
      if !Muted(l') { UnmutedByADebt(l, w, mode); }
    } else {
      var v :| 0 <= v < |l.workers| && WillLook(l.workers[v]);
      if v != w {
        OthersLookOn(l, w, mode, v);
      } else if !WillLook(l'.workers[w]) {
        LookerLeaves(l, w, mode);
      }
    }
  }

  // ---- Every run ---------------------------------------------------------------------------------

  lemma {:induction false} RunIsWatched(l: Latch, turns: seq<Turn>)
    requires LatchInv(l) && ScansOk(l) && Watched(l) && CanRun(l, turns)
    ensures var l' := Run(l, turns); LatchInv(l') && ScansOk(l') && Watched(l')
    decreases |turns|
  {
    if turns != [] {
      var w, mode := turns[0].worker, turns[0].mode;
      var l' := Move(l, w, mode);
      LatchStep(l, w, mode);
      WatchedStep(l, w, mode);
      OnlyMoverMoves(l, w, mode);
      hide Move, CanMove, LatchInv, Watched;
      forall v | 0 <= v < |l'.workers| ensures ScanKeepsAll(l', v) {
        assert ScanKeepsAll(l, v);
        if v == w { OwnScanGoesOn(l, w, mode); } else { OthersScanStays(l, w, mode, v); }
      }
      RunIsWatched(l', turns[1..]);
    }
  }

  lemma {:induction false} ReachableIsWatched(l: Latch)
    requires ReachableLatch(l)
    ensures LatchInv(l) && ScansOk(l) && Watched(l)
  {
    var n: nat, turns: seq<Turn> :| CanRun(InitialLatch(n), turns) && l == Run(InitialLatch(n), turns);
    InitialLatchInv(n);
    RunIsWatched(InitialLatch(n), turns);
  }

  /**
   No lost wakeup, in every reachable latch: while somebody is queued, some worker is still to
   free the latch, to try for it or to wake waiters, or else waking is muted.
   */
  lemma {:induction false} NobodyIsForgotten(l: Latch)
    requires ReachableLatch(l) && l.waiters != [] && !Muted(l)
    ensures exists v :: 0 <= v < |l.workers| && WillLook(l.workers[v])
  {
    ReachableIsWatched(l);
    hide ReachableLatch, LatchInv, ScansOk, Muted, WillLook;
  }

  /** A run in which no wakeup finds the list empty. */
  ghost predicate WakesSomebody(l: Latch, turns: seq<Turn>)
    requires CanRun(l, turns)
    decreases |turns|
  {
    turns == [] ||
    (turns[0].worker < |l.workers| && l.workers[turns[0].worker].at != WakePublish([]) &&
     WakesSomebody(Move(l, turns[0].worker, turns[0].mode), turns[1..]))
  }

  lemma {:induction false} RunIsNotMuted(l: Latch, turns: seq<Turn>)
    requires LatchInv(l) && ScansOk(l) && Watched(l) && CanRun(l, turns) && WakesSomebody(l, turns) && !Muted(l)
    ensures !Muted(Run(l, turns))
    decreases |turns|
  {
    if turns != [] {
      var one := [turns[0]];
      var l' := Move(l, turns[0].worker, turns[0].mode);
      assert one[1..] == [] && Run(l', []) == l' && CanRun(l', []);
      RunIsWatched(l, one);
      MutedOnlyByAnEmptyWakeup(l, turns[0].worker, turns[0].mode);
      hide Move, CanMove, LatchInv, ScansOk, Watched, Muted;
      RunIsNotMuted(l', turns[1..]);
    }
  }

  /**
   In every run in which each wakeup takes somebody, nobody queued is ever forgotten, for any
   number of workers.
   */
  lemma {:induction false} NoLostWakeup(n: nat, turns: seq<Turn>)
    requires CanRun(InitialLatch(n), turns) && WakesSomebody(InitialLatch(n), turns)
    ensures var l := Run(InitialLatch(n), turns);
      l.waiters != [] ==> exists v :: 0 <= v < |l.workers| && WillLook(l.workers[v])
  {
    InitialLatchInv(n);
    RunIsWatched(InitialLatch(n), turns);
    RunIsNotMuted(InitialLatch(n), turns);
    hide LatchInv, ScansOk, WillLook, Run, CanRun, WakesSomebody, Muted;
  }

  // ---- Muted for good ------------------------------------------------------------------------------

  /** Nobody is waking, or has yet to lock the list to do so. */
  ghost predicate NoWaker(l: Latch) {
    forall w :: 0 <= w < |l.workers| ==>
      !l.workers[w].at.WakeLock? && !l.workers[w].at.WakeScan? && !l.workers[w].at.WakePublish?
  }

  /** A worker asleep in the list with nobody to release its semaphore. */
  ghost predicate SleepsUnheard(l: Latch, v: nat) {
    && v < |l.workers| && l.workers[v].at.Acquire? && l.workers[v].state.Waiting? && l.workers[v].permits == 0
    && Sum(OwedTo(v), l.workers) == 0
  }

  lemma {:induction false} OwnMuteStep(l: Latch, w: nat, mode: LockMode)
    requires CanMove(l, w) && LocalOk(|l.workers|, l.workers[w]) && !l.word.unlockWaiter
    requires !OwesPermission(l.workers[w])
    requires !l.workers[w].at.WakeLock? && !l.workers[w].at.WakeScan? && !l.workers[w].at.WakePublish?
    requires l.workers[w].at.WakeMark? ==> l.workers[w].at.v != w
    ensures var l' := Move(l, w, mode);
      && |l'.workers| == |l.workers| && !l'.word.unlockWaiter && !OwesPermission(l'.workers[w])
      && !l'.workers[w].at.WakeLock? && !l'.workers[w].at.WakeScan? && !l'.workers[w].at.WakePublish?
  {}

  lemma {:induction false} MuteStep(l: Latch, w: nat, mode: LockMode)
    requires LatchInv(l) && CanMove(l, w) && Muted(l) && NoWaker(l)
    ensures Muted(Move(l, w, mode)) && NoWaker(Move(l, w, mode))
  {
    var l' := Move(l, w, mode);
    assert LocalOk(|l.workers|, l.workers[w]);
    if l.workers[w].at.WakeMark? { MarkedPends(l, w); }
    OwnMuteStep(l, w, mode);
    OnlyMoverMoves(l, w, mode);
    forall v | 0 <= v < |l.workers| && v != w ensures !OwesPermission(l'.workers[v]) {
      OtherWorker(l, w, mode, v);
      if l.workers[w].at.WakeMark? && l.workers[w].at.v == v { assert LocalOk(|l.workers|, l.workers[v]); }
    }
    hide Move, CanMove, LatchInv, OwesPermission;
  }

  lemma {:induction false} SleepStep(l: Latch, w: nat, mode: LockMode, v: nat)
    requires LatchInv(l) && CanMove(l, w) && NoWaker(l) && SleepsUnheard(l, v)
    ensures SleepsUnheard(Move(l, w, mode), v)
  {
    assert v != w;
    OtherWorker(l, w, mode, v);
    SumMove(OwedTo(v), l, w, mode);
    SumCovers(OwedTo(v), l.workers, w, w);
    if l.workers[w].at.WakeMark? { MarkedPends(l, w); }
    NobodyElseOwes(l, w, mode, v);
    hide Move, CanMove, LatchInv, Sum;
  }

  /** Outside a scan no step adds to what is owed. */
  lemma {:induction false} NobodyElseOwes(l: Latch, w: nat, mode: LockMode, v: nat)
    requires CanMove(l, w) && Value(OwedTo(v), l.workers[w].at) == 0 && !l.workers[w].at.WakeScan?
    ensures |Move(l, w, mode).workers| == |l.workers| && Value(OwedTo(v), Move(l, w, mode).workers[w].at) == 0
  {
    if Wakes(l.workers[w].at) && !l.workers[w].at.WakeLock? {
      WakerPath(l, w, mode);
      var p := l.workers[w].at;
      if p.WakeNext? && p.taken != [] { HeadCounts(p.taken, v); }
    } else {
      OnlyMoverMoves(l, w, mode);
      NothingInHand(l, w, mode);
    }
    hide Move, CanMove;
  }

  /**
   Once waking is muted with no wakeup under way it stays so, whatever anybody does: whoever is
   then asleep in the list on an empty semaphore, owed no release, sleeps for ever.
   */
  lemma {:induction false} MutedForGood(l: Latch, turns: seq<Turn>, v: nat)
    requires LatchInv(l) && Muted(l) && NoWaker(l) && SleepsUnheard(l, v) && CanRun(l, turns)
    ensures var l' := Run(l, turns); Muted(l') && SleepsUnheard(l', v) && !CanMove(l', v)
    decreases |turns|
  {
    if turns != [] {
      var w, mode := turns[0].worker, turns[0].mode;
      LatchStep(l, w, mode);
      MuteStep(l, w, mode);
      SleepStep(l, w, mode, v);
      hide Move, CanMove, LatchInv, Muted, SleepsUnheard, NoWaker;
      MutedForGood(Move(l, w, mode), turns[1..], v);
    }
  }
}
