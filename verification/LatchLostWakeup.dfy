/**
 A lost wakeup.  A worker unlocks and goes to wake the one that is queued; that one takes the
 latch meanwhile and leaves the list, the wakeup finds it empty, and waking stays forbidden.
 Then the next worker to queue is never woken.
 */
module LatchLostWakeup {
  import opened LockLists
  import opened LatchWords
  import opened Latches
  import opened LatchInvariant
  import opened LatchTheorems
  import opened LatchWakeups

  function Two(word: Word, waiters: seq<nat>, k0: Worker, k1: Worker): Latch {
    Latch(word, waiters, [k0, k1])
  }

  /** An idle worker's record, at p and in state s. */
  function At(p: Point, s: WorkerLockState): Worker { IDLE.(at := p, state := s) }

  const FREE: Word := Word(0, false, true, true)

  /** Worker 1 is in the list and about to try again when worker 0 unlocks and sees the list. */
  lemma {:induction false} OneRetriesWhileZeroWakes()
    ensures ReachableLatch(Two(FREE, [1], At(WakeLock, NotWaiting), At(Retry(Share, 0), Waiting)))
  {
    hide ReachableLatch;
    SecondLocksTheList();
    var free := QUEUED.(listLocked := false);
    Reaches(Contended(QUEUED, [], QueueState(Share, 0), NotWaiting), 1,
            Contended(QUEUED, [], QueueMode(Share, 0), Waiting));
    Reaches(Contended(QUEUED, [], QueueMode(Share, 0), Waiting), 1,
            Contended(QUEUED, [], QueuePush(Share, 0), Waiting));
    Reaches(Contended(QUEUED, [], QueuePush(Share, 0), Waiting), 1,
            Contended(QUEUED, [1], QueueUnlock(Share, 0), Waiting));
    Reaches(Contended(QUEUED, [1], QueueUnlock(Share, 0), Waiting), 1, Contended(free, [1], Retry(Share, 0), Waiting));
    Reaches(Contended(free, [1], Retry(Share, 0), Waiting), 0,
            Two(FREE, [1], At(WakeLock, NotWaiting), At(Retry(Share, 0), Waiting)));
  }

  /** Worker 1 takes the latch and locks the list to leave it. */
  lemma {:induction false} OneTakesTheLatch()
    ensures ReachableLatch(Two(Word(1, true, true, true), [1], At(WakeLock, NotWaiting),
                               At(DequeueCheck(Share, 0), Waiting)))
  {
    hide ReachableLatch;
    OneRetriesWhileZeroWakes();
    var k := At(WakeLock, NotWaiting);
    var held := Word(1, false, true, true);
    var locked := Word(1, true, true, true);
    Reaches(Two(FREE, [1], k, At(Retry(Share, 0), Waiting)), 1, Two(held, [1], k, At(DequeueLock(Share, 0), Waiting)));
    Reaches(Two(held, [1], k, At(DequeueLock(Share, 0), Waiting)), 1,
            Two(locked, [1], k, At(DequeueCheck(Share, 0), Waiting)));
  }

  lemma {:induction false} OneDequeues()
    ensures ReachableLatch(Two(Word(1, true, true, true), [], At(WakeLock, NotWaiting),
                               At(DequeueClear(Share, 0, true), Waiting)))
  {
    hide ReachableLatch;
    OneTakesTheLatch();
    var one: seq<nat> := [1];
    assert IndexOf(one, 1) == 0 && Without(one, 0) == [];
    Reaches(Two(Word(1, true, true, true), [1], At(WakeLock, NotWaiting), At(DequeueCheck(Share, 0), Waiting)), 1,
            Two(Word(1, true, true, true), [], At(WakeLock, NotWaiting), At(DequeueClear(Share, 0, true), Waiting)));
  }

  /** It is alone, so it takes HAS_WAITERS back, and holds the latch. */
  lemma {:induction false} OneLeavesTheList()
    ensures ReachableLatch(Two(HELD, [], At(WakeLock, NotWaiting), At(Holding(Share), NotWaiting)))
  {
    hide ReachableLatch;
    OneDequeues();
    var k := At(WakeLock, NotWaiting);
    var locked := Word(1, true, true, true);
    var cleared := HELD.(listLocked := true);
    Reaches(Two(locked, [], k, At(DequeueClear(Share, 0, true), Waiting)), 1,
            Two(cleared, [], k, At(DequeueUnlock(Share, 0, true), Waiting)));
    Reaches(Two(cleared, [], k, At(DequeueUnlock(Share, 0, true), Waiting)), 1,
            Two(HELD, [], k, At(DequeueReset(Share, 0), Waiting)));
    Reaches(Two(HELD, [], k, At(DequeueReset(Share, 0), Waiting)), 1,
            Two(HELD, [], k, At(Repay(Share, 0), NotWaiting)));
    Reaches(Two(HELD, [], k, At(Repay(Share, 0), NotWaiting)), 1, Two(HELD, [], k, At(Holding(Share), NotWaiting)));
  }

  const MUTE: Word := Word(1, false, false, false)

  /** Worker 0's wakeup finds nobody. */
  lemma {:induction false} ZeroFindsNobody()
    ensures ReachableLatch(Two(HELD.(listLocked := true), [], At(WakePublish([]), NotWaiting),
                               At(Holding(Share), NotWaiting)))
  {
    hide ReachableLatch;
    OneLeavesTheList();
    var k := At(Holding(Share), NotWaiting);
    var locked := HELD.(listLocked := true);
    Reaches(Two(HELD, [], At(WakeLock, NotWaiting), k), 0, Two(locked, [], At(WakeScan([], false, []), NotWaiting), k));
    Reaches(Two(locked, [], At(WakeScan([], false, []), NotWaiting), k), 0,
            Two(locked, [], At(WakePublish([]), NotWaiting), k));
  }

  /** It withdraws the permission to wake. */
  lemma {:induction false} ZeroMutes()
    ensures ReachableLatch(Two(MUTE, [], IDLE, At(Holding(Share), NotWaiting)))
  {
    hide ReachableLatch;
    ZeroFindsNobody();
    var k := At(Holding(Share), NotWaiting);
    Reaches(Two(HELD.(listLocked := true), [], At(WakePublish([]), NotWaiting), k), 0,
            Two(MUTE, [], At(WakeNext([]), NotWaiting), k));
    Reaches(Two(MUTE, [], At(WakeNext([]), NotWaiting), k), 0, Two(MUTE, [], IDLE, k));
  }

  /** Worker 0 wants the latch back and locks the list. */
  lemma {:induction false} ZeroLocksTheList()
    ensures ReachableLatch(Two(MUTE.(listLocked := true, hasWaiters := true), [], At(QueueState(Share, 0), NotWaiting),
                               At(Holding(Share), NotWaiting)))
  {
    hide ReachableLatch;
    ZeroMutes();
    var k := At(Holding(Share), NotWaiting);
    var locked := MUTE.(listLocked := true);
    var flagged := MUTE.(listLocked := true, hasWaiters := true);
    Reaches(Two(MUTE, [], IDLE, k), 0, Two(MUTE, [], At(Attempt(Share, 0), NotWaiting), k));
    Reaches(Two(MUTE, [], At(Attempt(Share, 0), NotWaiting), k), 0,
            Two(MUTE, [], At(QueueLock(Share, 0), NotWaiting), k));
    Reaches(Two(MUTE, [], At(QueueLock(Share, 0), NotWaiting), k), 0,
            Two(locked, [], At(QueueFlag(Share, 0), NotWaiting), k));
    Reaches(Two(locked, [], At(QueueFlag(Share, 0), NotWaiting), k), 0,
            Two(flagged, [], At(QueueState(Share, 0), NotWaiting), k));
  }

  /** It queues itself. */
  lemma {:induction false} ZeroQueues()
    ensures ReachableLatch(Two(MUTE.(listLocked := true, hasWaiters := true), [0], At(QueueUnlock(Share, 0), Waiting),
                               At(Holding(Share), NotWaiting)))
  {
    hide ReachableLatch;
    ZeroLocksTheList();
    var k := At(Holding(Share), NotWaiting);
    var flagged := MUTE.(listLocked := true, hasWaiters := true);
    Reaches(Two(flagged, [], At(QueueState(Share, 0), NotWaiting), k), 0,
            Two(flagged, [], At(QueueMode(Share, 0), Waiting), k));
    Reaches(Two(flagged, [], At(QueueMode(Share, 0), Waiting), k), 0,
            Two(flagged, [], At(QueuePush(Share, 0), Waiting), k));
    assert [] + [0] == [0];
    Reaches(Two(flagged, [], At(QueuePush(Share, 0), Waiting), k), 0,
            Two(flagged, [0], At(QueueUnlock(Share, 0), Waiting), k));
  }

  /**
   The latch is free and nobody is at it but worker 0, which is queued and asleep on an empty
   semaphore; waking is muted, so whatever runs later, it sleeps for ever.
   */
  lemma {:induction false} WakeupIsLost(turns: seq<Turn>) returns (l: Latch)
    ensures ReachableLatch(l) && |l.workers| == 2 && l.word.count == 0 && l.waiters == [0]
    ensures l.workers[0].at == Acquire(Share, 1) && l.workers[0].permits == 0
    ensures l.workers[1] == IDLE
    ensures Muted(l) && forall v :: 0 <= v < 2 ==> !WillLook(l.workers[v])
    ensures CanRun(l, turns) ==> SleepsUnheard(Run(l, turns), 0) && !CanMove(Run(l, turns), 0)
  {
    hide ReachableLatch;
    ZeroQueues();
    var k := At(Holding(Share), NotWaiting);
    var flagged := MUTE.(listLocked := true, hasWaiters := true);
    var mute := MUTE.(hasWaiters := true);
    var asleep := Worker(Acquire(Share, 1), Waiting, Share, 0);
    Reaches(Two(flagged, [0], At(QueueUnlock(Share, 0), Waiting), k), 0,
            Two(mute, [0], At(Retry(Share, 0), Waiting), k));
    Reaches(Two(mute, [0], At(Retry(Share, 0), Waiting), k), 0, Two(mute, [0], At(Acquire(Share, 0), Waiting), k));
    Reaches(Two(mute, [0], At(Acquire(Share, 0), Waiting), k), 0,
            Two(mute, [0], asleep.(at := Look(Share, 0)), k));
    Reaches(Two(mute, [0], asleep.(at := Look(Share, 0)), k), 0, Two(mute, [0], asleep, k));
    l := Two(mute.(count := 0), [0], asleep, IDLE);
    Reaches(Two(mute, [0], asleep, k), 1, l);
    ReachableLatchInv(l);
    NothingOwed(l);
    hide Move, LatchInv;
    if CanRun(l, turns) { MutedForGood(l, turns, 0); }
  }

  lemma {:induction false} NothingOwed(l: Latch)
    requires |l.workers| == 2 && l.workers[0].at == Acquire(Share, 1) && l.workers[1].at == Outside
    ensures Sum(OwedTo(0), l.workers) == 0
  {
    var rest := l.workers[1..];
    assert rest[0].at == Outside && rest[1..] == [];
    assert Sum(OwedTo(0), rest) == Value(OwedTo(0), Outside) + Sum(OwedTo(0), []);
    assert Times([], 0) == 0;
  }
}
