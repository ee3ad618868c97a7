/**
 A run of two latches and three workers in which a release owed by a waker of one latch
 arrives while its worker sleeps in the queue of the other, and lets it through there.
 */
module LatchFamilyRuns {
  import opened LockLists
  import opened LatchWords
  import opened Latches
  import opened LatchTheorems
  import opened LatchFamilies
  import opened LatchFamilyTheorems

  // ---- Building runs -------------------------------------------------------------------

  lemma {:induction false} PerformAppends(m: Family, deeds: seq<Deed>, d: Deed)
    requires CanPerform(m, deeds) && CanAct(Perform(m, deeds), d.latch, d.worker)
    ensures CanPerform(m, deeds + [d])
    ensures Perform(m, deeds + [d]) == Act(Perform(m, deeds), d.latch, d.worker, d.mode)
    decreases |deeds|
  {
    hide CanAct, Act;
    if deeds == [] {
      assert (deeds + [d])[1..] == [];
    } else {
      PerformAppends(Act(m, deeds[0].latch, deeds[0].worker, deeds[0].mode), deeds[1..], d);
      assert (deeds + [d])[1..] == deeds[1..] + [d];
    }
  }

  lemma {:induction false} FamilyReaches(m: Family, i: nat, w: nat)
    requires ReachableFamily(m) && CanAct(m, i, w)
    ensures ReachableFamily(Act(m, i, w, Share))
  {
    hide CanAct, Act, CanPerform, Perform;
    var latches: nat, n: nat, deeds :|
      CanPerform(InitialFamily(latches, n), deeds) && Perform(InitialFamily(latches, n), deeds) == m;
    PerformAppends(InitialFamily(latches, n), deeds, Deed(i, w, Share));
  }

  /** The family with latch i's word and list, and w's record, replaced. */
  function With(m: Family, i: nat, w: nat, lock: Lock, k: Worker): Family
    requires Wellformed(m) && i < |m.locks| && w < |m.threads|
  {
    Family(m.locks[i := lock], m.threads[w := WithRecord(m.threads[w], i, k)])
  }

  lemma {:induction false} WithTwice(m: Family, i: nat, w: nat, lock: Lock, k: Worker, lock': Lock, k': Worker)
    requires Wellformed(m) && i < |m.locks| && w < |m.threads|
    ensures Wellformed(With(m, i, w, lock, k))
    ensures With(With(m, i, w, lock, k), i, w, lock', k') == With(m, i, w, lock', k')
  {
    assert m.threads[w].at[i := k.at][i := k'.at] == m.threads[w].at[i := k'.at];
  }

  /** A step of w alone, from any record k of w in latch i to k'. */
  lemma {:induction false} Does(m: Family, i: nat, w: nat, lock: Lock, k: Worker, lock': Lock, k': Worker)
    requires InsideAtMost(m, i, w) && ReachableFamily(With(m, i, w, lock, k))
    requires CanMove(View(With(m, i, w, lock, k), i), w)
    requires Move(View(With(m, i, w, lock, k), i), w, Share)
          == Latch(lock'.word, lock'.waiters, View(With(m, i, w, lock, k), i).workers[w := k'])
    ensures ReachableFamily(With(m, i, w, lock', k'))
  {
    var m0, m1 := With(m, i, w, lock, k), With(m, i, w, lock', k');
    WithTwice(m, i, w, lock, k, lock', k');
    assert CanAct(m0, i, w);
    FamilyReaches(m0, i, w);
    var m' := Act(m0, i, w, Share);
    hide ReachableFamily, Move, CanMove;
    forall v | 0 <= v < |m.threads| ensures m'.threads[v] == m1.threads[v] {
      assert m0.threads[v].at[i := m0.threads[v].at[i]] == m0.threads[v].at;
    }
    assert m'.threads == m1.threads;
  }

  lemma {:induction false} WithItself(m: Family, i: nat, w: nat)
    requires Wellformed(m) && i < |m.locks| && w < |m.threads|
    ensures With(m, i, w, m.locks[i], RecordIn(m.threads[w], i)) == m
  {
    assert m.threads[w].at[i := m.threads[w].at[i]] == m.threads[w].at;
    assert m.threads[w := m.threads[w]] == m.threads;
    assert m.locks[i := m.locks[i]] == m.locks;
  }

  /** Nobody is in the way of w at latch i. */
  lemma {:induction false} LocksFree(m: Family, i: nat, w: nat, k: Worker)
    requires ReachableFamily(m) && InsideAtMost(m, i, w)
    requires m.locks[i] == Lock(INITIAL, []) && k == RecordIn(m.threads[w], i) && k.at == Outside
    ensures ReachableFamily(With(m, i, w, Lock(HELD, []), k.(at := Holding(Share))))
  {
    WithItself(m, i, w);
    hide ReachableFamily;
    Does(m, i, w, Lock(INITIAL, []), k, Lock(INITIAL, []), k.(at := Attempt(Share, 0)));
    Does(m, i, w, Lock(INITIAL, []), k.(at := Attempt(Share, 0)), Lock(HELD, []), k.(at := Repay(Share, 0)));
    Does(m, i, w, Lock(HELD, []), k.(at := Repay(Share, 0)), Lock(HELD, []), k.(at := Holding(Share)));
  }

  /** Somebody holds latch i: w goes for the list lock. */
  lemma {:induction false} LocksTheList(m: Family, i: nat, w: nat, k: Worker)
    requires ReachableFamily(m) && InsideAtMost(m, i, w)
    requires m.locks[i] == Lock(HELD, []) && k == RecordIn(m.threads[w], i) && k.at == Outside && k.mode == Share
    ensures ReachableFamily(With(m, i, w, Lock(QUEUED, []), k.(at := QueueState(Share, 0))))
  {
    WithItself(m, i, w);
    hide ReachableFamily;
    var held := Lock(HELD, []);
    Does(m, i, w, held, k, held, k.(at := Attempt(Share, 0)));
    Does(m, i, w, held, k.(at := Attempt(Share, 0)), held, k.(at := QueueLock(Share, 0)));
    Does(m, i, w, held, k.(at := QueueLock(Share, 0)),
         Lock(HELD.(listLocked := true), []), k.(at := QueueFlag(Share, 0)));
    Does(m, i, w, Lock(HELD.(listLocked := true), []), k.(at := QueueFlag(Share, 0)),
         Lock(QUEUED, []), k.(at := QueueState(Share, 0)));
  }

  /** It queues itself. */
  lemma {:induction false} QueuesItself(m: Family, i: nat, w: nat, k: Worker)
    requires ReachableFamily(m) && InsideAtMost(m, i, w)
    requires m.locks[i] == Lock(HELD, []) && k == RecordIn(m.threads[w], i) && k.at == Outside && k.mode == Share
    ensures ReachableFamily(With(m, i, w, Lock(QUEUED, [w]), k.(at := QueueUnlock(Share, 0), state := Waiting)))
  {
    LocksTheList(m, i, w, k);
    hide ReachableFamily;
    var queued := Lock(QUEUED, []);
    var k' := k.(state := Waiting);
    Does(m, i, w, queued, k.(at := QueueState(Share, 0)), queued, k'.(at := QueueMode(Share, 0)));
    Does(m, i, w, queued, k'.(at := QueueMode(Share, 0)), queued, k'.(at := QueuePush(Share, 0)));
    Does(m, i, w, queued, k'.(at := QueuePush(Share, 0)), Lock(QUEUED, [w]), k'.(at := QueueUnlock(Share, 0)));
  }

  /** It goes to its semaphore. */
  lemma {:induction false} Queues(m: Family, i: nat, w: nat, k: Worker)
    requires ReachableFamily(m) && InsideAtMost(m, i, w)
    requires m.locks[i] == Lock(HELD, []) && k == RecordIn(m.threads[w], i) && k.at == Outside && k.mode == Share
    ensures ReachableFamily(With(m, i, w, Lock(QUEUED.(listLocked := false), [w]),
                                 k.(at := Acquire(Share, 0), state := Waiting)))
  {
    QueuesItself(m, i, w, k);
    hide ReachableFamily;
    var k' := k.(state := Waiting);
    var free := Lock(QUEUED.(listLocked := false), [w]);
    Does(m, i, w, Lock(QUEUED, [w]), k'.(at := QueueUnlock(Share, 0)), free, k'.(at := Retry(Share, 0)));
    Does(m, i, w, free, k'.(at := Retry(Share, 0)), free, k'.(at := Acquire(Share, 0)));
  }

  // ---- The late release ------------------------------------------------------------------

  const FREE: Thread := Thread([Outside, Outside], NotWaiting, Share, 1)

  /** Worker 0 at p in latch 0, worker 2 at q in latch 1, and worker 1. */
  function Scene(lock0: Lock, lock1: Lock, p: Point, t1: Thread, q: Point): Family {
    Family([lock0, lock1], [FREE.(at := [p, Outside]), t1, FREE.(at := [Outside, q])])
  }

  lemma {:induction false} Pair(a: Point, b: Point, c: Point)
    ensures [a, b][0 := c] == [c, b] && [a, b][1 := c] == [a, c] && [a, b][0 := a] == [a, b] == [a, b][1 := b]
  {}

  lemma {:induction false} SameFamily(m: Family, m': Family)
    requires |m.locks| == |m'.locks| && |m.threads| == |m'.threads|
    requires forall i :: 0 <= i < |m.locks| ==> m.locks[i] == m'.locks[i]
    requires forall v :: 0 <= v < |m.threads| ==> m.threads[v] == m'.threads[v]
    ensures m == m'
  {
    assert m.locks == m'.locks && m.threads == m'.threads;
  }

  lemma {:induction false} NobodyHolds()
    ensures ReachableFamily(Scene(Lock(INITIAL, []), Lock(INITIAL, []), Outside, FREE, Outside))
  {
    var m := InitialFamily(2, 3);
    var deeds: seq<Deed> := [];
    assert CanPerform(m, deeds) && Perform(m, deeds) == m;
    assert seq(2, _ => Outside) == [Outside, Outside];
    hide ReachableFamily;
    SameFamily(m, Scene(Lock(INITIAL, []), Lock(INITIAL, []), Outside, FREE, Outside));
  }

  lemma {:induction false} OneIsHeld()
    ensures ReachableFamily(Scene(Lock(HELD, []), Lock(INITIAL, []), Holding(Share), FREE, Outside))
  {
    NobodyHolds();
    hide ReachableFamily;
    var m := Scene(Lock(INITIAL, []), Lock(INITIAL, []), Outside, FREE, Outside);
    LocksFree(m, 0, 0, IDLE);
    Pair(Outside, Outside, Holding(Share));
    SameFamily(With(m, 0, 0, Lock(HELD, []), IDLE.(at := Holding(Share))),
               Scene(Lock(HELD, []), Lock(INITIAL, []), Holding(Share), FREE, Outside));
  }

  /** Worker 0 holds latch 0, worker 2 holds latch 1. */
  lemma {:induction false} TwoHold()
    ensures ReachableFamily(Scene(Lock(HELD, []), Lock(HELD, []), Holding(Share), FREE, Holding(Share)))
  {
    OneIsHeld();
    hide ReachableFamily;
    var m := Scene(Lock(HELD, []), Lock(INITIAL, []), Holding(Share), FREE, Outside);
    LocksFree(m, 1, 2, IDLE);
    Pair(Outside, Outside, Holding(Share));
    SameFamily(With(m, 1, 2, Lock(HELD, []), IDLE.(at := Holding(Share))),
               Scene(Lock(HELD, []), Lock(HELD, []), Holding(Share), FREE, Holding(Share)));
  }

  /** Worker 1 queues on latch 0 and takes its permit before it is woken. */
  lemma {:induction false} OneLooks()
    ensures ReachableFamily(Scene(Lock(QUEUED.(listLocked := false), [1]), Lock(HELD, []), Holding(Share),
                                  Thread([Look(Share, 0), Outside], Waiting, Share, 0), Holding(Share)))
  {
    TwoHold();
    hide ReachableFamily;
    var held := Lock(HELD, []);
    var queued := Lock(QUEUED.(listLocked := false), [1]);
    var m := Scene(held, held, Holding(Share), FREE, Holding(Share));
    Queues(m, 0, 1, IDLE);
    var k := IDLE.(at := Acquire(Share, 0), state := Waiting);
    var k' := Worker(Look(Share, 0), Waiting, Share, 0);
    Does(m, 0, 1, queued, k, queued, k');
    Pair(Outside, Outside, Look(Share, 0));
    SameFamily(With(m, 0, 1, queued, k'),
               Scene(queued, held, Holding(Share), Thread([Look(Share, 0), Outside], Waiting, Share, 0),
                     Holding(Share)));
  }

  /** A step of worker 0 in latch 0, which may change worker 1's record. */
  lemma {:induction false} Wakes(lock: Lock, p: Point, t: Thread, lock': Lock, p': Point, k: Worker)
    requires |t.at| == 2 && ReachableFamily(Scene(lock, Lock(HELD, []), p, t, Holding(Share)))
    requires var l := View(Scene(lock, Lock(HELD, []), p, t, Holding(Share)), 0);
      && CanMove(l, 0)
      && Move(l, 0, Share) == Latch(lock'.word, lock'.waiters, [IDLE.(at := p'), k, l.workers[2]])
    ensures ReachableFamily(Scene(lock', Lock(HELD, []), p', WithRecord(t, 0, k), Holding(Share)))
  {
    var m := Scene(lock, Lock(HELD, []), p, t, Holding(Share));
    assert CanAct(m, 0, 0);
    FamilyReaches(m, 0, 0);
    hide ReachableFamily, Move, CanMove;
    var m', m1 := Act(m, 0, 0, Share), Scene(lock', Lock(HELD, []), p', WithRecord(t, 0, k), Holding(Share));
    Pair(p, Outside, p');
    Pair(Outside, Holding(Share), Outside);
    SameFamily(m', m1);
  }

  const LOOKING: Thread := Thread([Look(Share, 0), Outside], Waiting, Share, 0)

  /** Worker 0 unlocks and locks the list. */
  lemma {:induction false} ZeroScans()
    ensures ReachableFamily(Scene(Lock(Word(0, true, true, true), [1]), Lock(HELD, []), WakeScan([1], false, []),
                                  LOOKING, Holding(Share)))
  {
    OneLooks();
    hide ReachableFamily;
    var k := RecordIn(LOOKING, 0);
    var free := Lock(Word(0, false, true, true), [1]);
    Pair(Look(Share, 0), Outside, Outside);
    Wakes(Lock(QUEUED.(listLocked := false), [1]), Holding(Share), LOOKING, free, WakeLock, k);
    Wakes(free, WakeLock, LOOKING, Lock(Word(0, true, true, true), [1]), WakeScan([1], false, []), k);
  }

  /** It takes worker 1 off the list. */
  lemma {:induction false} ZeroTakes()
    ensures ReachableFamily(Scene(Lock(Word(0, true, true, true), []), Lock(HELD, []), WakeScan([], true, [1]),
                                  LOOKING.(state := PendingWakeup), Holding(Share)))
  {
    ZeroScans();
    hide ReachableFamily;
    var one: seq<nat> := [1];
    assert one[1..] == [] && [] + one == one && IndexOf(one, 1) == 0 && Without(one, 0) == [];
    var locked := Word(0, true, true, true);
    Pair(Look(Share, 0), Outside, Outside);
    Wakes(Lock(locked, [1]), WakeScan([1], false, []), LOOKING, Lock(locked, []), WakeScan([], true, [1]),
          RecordIn(LOOKING, 0).(state := PendingWakeup));
  }

  /** It publishes and marks worker 1; it has yet to release its semaphore. */
  lemma {:induction false} ZeroMarks()
    ensures ReachableFamily(Scene(Lock(Word(0, false, false, false), []), Lock(HELD, []), WakeRelease(1, []),
                                  LOOKING.(state := NotWaiting), Holding(Share)))
  {
    ZeroTakes();
    hide ReachableFamily;
    var t := LOOKING.(state := PendingWakeup);
    var k := RecordIn(t, 0);
    var locked, done := Lock(Word(0, true, true, true), []), Lock(Word(0, false, false, false), []);
    Pair(Look(Share, 0), Outside, Outside);
    var one: seq<nat> := [1];
    assert one[1..] == [];
    Wakes(locked, WakeScan([], true, [1]), t, locked, WakePublish([1]), k);
    Wakes(locked, WakePublish([1]), t, done, WakeNext([1]), k);
    Wakes(done, WakeNext([1]), t, done, WakeMark(1, []), k);
    Wakes(done, WakeMark(1, []), t, done, WakeRelease(1, []), k.(state := NotWaiting));
  }

  /** Worker 1, marked, takes latch 0. */
  lemma {:induction false} OneHolds()
    ensures ReachableFamily(Scene(Lock(HELD, []), Lock(HELD, []), WakeRelease(1, []),
                                  Thread([Holding(Share), Outside], NotWaiting, Share, 0), Holding(Share)))
  {
    ZeroMarks();
    hide ReachableFamily;
    var t := LOOKING.(state := NotWaiting);
    var m := Scene(Lock(Word(0, false, false, false), []), Lock(HELD, []), WakeRelease(1, []), t, Holding(Share));
    var k := RecordIn(t, 0);
    var done, free := m.locks[0], Lock(INITIAL, []);
    WithItself(m, 0, 1);
    Does(m, 0, 1, done, k, done, k.(at := AllowWakeups(Share, 0)));
    Does(m, 0, 1, done, k.(at := AllowWakeups(Share, 0)), free, k.(at := Attempt(Share, 0)));
    Does(m, 0, 1, free, k.(at := Attempt(Share, 0)), Lock(HELD, []), k.(at := Repay(Share, 0)));
    Does(m, 0, 1, Lock(HELD, []), k.(at := Repay(Share, 0)), Lock(HELD, []), k.(at := Holding(Share)));
    Pair(Look(Share, 0), Outside, Holding(Share));
    SameFamily(With(m, 0, 1, Lock(HELD, []), k.(at := Holding(Share))),
               Scene(Lock(HELD, []), Lock(HELD, []), WakeRelease(1, []),
                     Thread([Holding(Share), Outside], NotWaiting, Share, 0), Holding(Share)));
  }

  /**
   The late release.  Worker 1 holds latch 0, which worker 0 woke it for, and sleeps in
   the queue of latch 1 on an empty semaphore.  Now worker 0 does the release it still
   owes, and worker 1 can go on in latch 1, where nobody has woken it.
   */
  lemma {:induction false} LateRelease() returns (m: Family)
    ensures ReachableFamily(m) && InsideAtMost(m, 1, 1) && m.threads[1].at[0] == Holding(Share)
    ensures m.threads[1].at[1] == Acquire(Share, 0) && m.threads[1].permits == 0 && m.locks[1].waiters == [1]
    ensures m.threads[0].at[0] == WakeRelease(1, []) && CanAct(m, 0, 0) && !CanAct(m, 1, 1)
    ensures var m' := Act(m, 0, 0, Share);
      CanAct(m', 1, 1) && m'.threads[1].state.Waiting? && m'.locks[1].waiters == [1]
  {
    OneHolds();
    hide ReachableFamily;
    var held := Lock(HELD, []);
    var t := Thread([Holding(Share), Outside], NotWaiting, Share, 0);
    var m0 := Scene(held, held, WakeRelease(1, []), t, Holding(Share));
    Queues(m0, 1, 1, RecordIn(t, 1));
    m := With(m0, 1, 1, Lock(QUEUED.(listLocked := false), [1]),
              RecordIn(t, 1).(at := Acquire(Share, 0), state := Waiting));
  }
}
