/** What the latch guarantees in every run, for any number of workers. */
module LatchTheorems {
  import opened LockLists
  import opened LatchWords
  import opened Latches
  import opened LatchInvariant

  /** Latches that some run of some number of workers reaches. */
  ghost predicate ReachableLatch(l: Latch) {
    exists n: nat, turns: seq<Turn> :: CanRun(InitialLatch(n), turns) && l == Run(InitialLatch(n), turns)
  }

  lemma {:induction false} ReachableLatchInv(l: Latch)
    requires ReachableLatch(l)
    ensures LatchInv(l)
  {
    hide LatchInv, CanRun, Run, InitialLatch;
    var n: nat, turns: seq<Turn> :| CanRun(InitialLatch(n), turns) && l == Run(InitialLatch(n), turns);
    InitialLatchInv(n);
    LatchRunInv(InitialLatch(n), turns);
  }

  // ---- Exclusion -----------------------------------------------------------

  /** How many workers hold the latch in the mode. */
  function Holders(ws: seq<Worker>, mode: LockMode): nat {
    if ws == [] then 0
    else One(HoldsLatch(ws[0].at) && ws[0].at.m == mode) + Holders(ws[1..], mode)
  }

  lemma {:induction false} HoldersByMode(ws: seq<Worker>)
    ensures Sum(LatchWeight, ws) == X * Holders(ws, Exclusive) + Holders(ws, Share)
    ensures Sum(LatchHolders, ws) == Holders(ws, Exclusive) + Holders(ws, Share)
  {
    if ws != [] { HoldersByMode(ws[1..]); }
  }

  /**
   The count field is 2^28 for each exclusive holder plus one for each share
   holder.  A share request also waits for a zero count, so even two share holders
   never coexist.
   */
  lemma {:induction false} Exclusion(l: Latch)
    requires ReachableLatch(l)
    ensures l.word.count == X * Holders(l.workers, Exclusive) + Holders(l.workers, Share)
    ensures Holders(l.workers, Exclusive) + Holders(l.workers, Share) <= 1
    ensures forall v, w :: 0 <= v < w < |l.workers| ==> !(HoldsLatch(l.workers[v].at) && HoldsLatch(l.workers[w].at))
  {
    ReachableLatchInv(l);
    HoldersByMode(l.workers);
    forall v, w | 0 <= v < w < |l.workers|
      ensures !(HoldsLatch(l.workers[v].at) && HoldsLatch(l.workers[w].at))
    {
      SumCovers(LatchHolders, l.workers, v, w);
    }
  }

  /** The bit word: any word that decodes to the latch's has no carry out of its count into the flags. */
  lemma {:induction false} BitsOfTheHolder(l: Latch, b: bv32, w: nat)
    requires ReachableLatch(l) && Decode(b) == l.word
    requires w < |l.workers| && HoldsLatch(l.workers[w].at)
    ensures b & LOCK_COUNT_MASK == WeightBits(l.workers[w].at.m)
    ensures Decode(ReleasedBits(b, l.workers[w].at.m)) == l.word.(count := 0)
  {
    hide ReleasedBits;
    ReachableLatchInv(l);
    SumCovers(LatchWeight, l.workers, w, w);
    HolderWeighsAll(l, w);
    ReleaseAgrees(b, l.workers[w].at.m);
    CountBits(b, l.workers[w].at.m);
  }

  lemma {:induction false} CountBits(b: bv32, mode: LockMode)
    requires Decode(b).count == Weight(mode)
    ensures b & LOCK_COUNT_MASK == WeightBits(mode)
  {}

  lemma {:induction false} HeldByOne(ws: seq<Worker>, w: nat)
    requires w < |ws| && HoldsLatch(ws[w].at) && Sum(LatchHolders, ws) <= 1
    ensures Sum(LatchWeight, ws) == Weight(ws[w].at.m)
  {
    if w == 0 {
      NobodyWeighsNothing(ws[1..]);
    } else {
      SumCovers(LatchHolders, ws, 0, w);
      HeldByOne(ws[1..], w - 1);
    }
  }

  lemma {:induction false} NobodyWeighsNothing(ws: seq<Worker>)
    requires Sum(LatchHolders, ws) == 0
    ensures Sum(LatchWeight, ws) == 0
  {
    if ws != [] { NobodyWeighsNothing(ws[1..]); }
  }

  lemma {:induction false} HolderWeighsAll(l: Latch, w: nat)
    requires LatchInv(l) && w < |l.workers| && HoldsLatch(l.workers[w].at)
    ensures l.word.count == Weight(l.workers[w].at.m)
  {
    HeldByOne(l.workers, w);
  }

  /** The count is zero exactly when nobody holds the latch: a free latch can be taken at once. */
  lemma {:induction false} FreeMeansUnheld(l: Latch)
    requires ReachableLatch(l)
    ensures l.word.count == 0 <==> forall w :: 0 <= w < |l.workers| ==> !HoldsLatch(l.workers[w].at)
  {
    ReachableLatchInv(l);
    if l.word.count == 0 {
      forall w | 0 <= w < |l.workers| ensures !HoldsLatch(l.workers[w].at) {
        if HoldsLatch(l.workers[w].at) { HolderWeighsAll(l, w); }
      }
    } else {
      HoldersByMode(l.workers);
      SomeHolder(l.workers);
    }
  }

  lemma {:induction false} SomeHolder(ws: seq<Worker>)
    requires Sum(LatchWeight, ws) > 0
    ensures exists w :: 0 <= w < |ws| && HoldsLatch(ws[w].at)
  {
    if HoldsLatch(ws[0].at) {
    } else {
      SomeHolder(ws[1..]);
      var w :| 0 <= w < |ws| - 1 && HoldsLatch(ws[1..][w].at);
      assert HoldsLatch(ws[w + 1].at);
    }
  }

  /**
   The bit of an exclusive holder is set exactly while somebody holds the latch exclusively.  So
   what Unlock asserts of the word after its subtraction, in a load of its own, fails exactly
   if another worker has taken the latch exclusively meanwhile.
   */
  lemma {:induction false} ExclusiveBitMeansHeld(l: Latch)
    requires ReachableLatch(l)
    ensures l.word.count >= X <==>
      exists w :: 0 <= w < |l.workers| && HoldsLatch(l.workers[w].at) && l.workers[w].at.m.Exclusive?
  {
    ReachableLatchInv(l);
    if l.word.count > 0 {
      SomeHolder(l.workers);
      var w :| 0 <= w < |l.workers| && HoldsLatch(l.workers[w].at);
      HolderWeighsAll(l, w);
    }
    forall w | 0 <= w < |l.workers| && HoldsLatch(l.workers[w].at) ensures l.word.count == Weight(l.workers[w].at.m) {
      HolderWeighsAll(l, w);
    }
    hide ReachableLatch, LatchInv, Sum;
  }

  // ---- Flags -----------------------------------------------------------------

  /** At most one worker holds the list lock, and HAS_WAITERS tells the truth whenever it is free. */
  lemma {:induction false} FlagAgreement(l: Latch)
    requires ReachableLatch(l)
    ensures !l.word.listLocked ==> (l.word.hasWaiters <==> l.waiters != [])
    ensures forall v, w :: 0 <= v < w < |l.workers| ==> !(HoldsList(l.workers[v].at) && HoldsList(l.workers[w].at))
    ensures forall w :: 0 <= w < |l.workers| && HoldsList(l.workers[w].at) ==> l.word.listLocked
  {
    ReachableLatchInv(l);
    forall w | 0 <= w < |l.workers| ensures HoldsList(l.workers[w].at) ==> l.word.listLocked {
      SumCovers(ListHolders, l.workers, w, w);
    }
    forall v, w | 0 <= v < w < |l.workers|
      ensures !(HoldsList(l.workers[v].at) && HoldsList(l.workers[w].at))
    {
      SumCovers(ListHolders, l.workers, v, w);
    }
  }

  // ---- Nodes -----------------------------------------------------------------

  /**
   A worker's node is in at most one place among the waiters list and the lists of
   all wakers; a worker marked NotWaiting is in none, so it finds its node
   unlinked when it queues again.
   */
  lemma {:induction false} NodeOwnership(l: Latch, v: nat)
    requires ReachableLatch(l) && v < |l.workers|
    ensures Times(l.waiters, v) + Sum(InPrivateLists(v), l.workers) <= 1
    ensures l.workers[v].state.NotWaiting? ==> v !in l.waiters && Sum(InPrivateLists(v), l.workers) == 0
    ensures l.workers[v].at.QueuePush? ==> v !in l.waiters && Sum(InPrivateLists(v), l.workers) == 0
  {
    ReachableLatchInv(l);
    assert QueueOk(l, v) && PrivateOk(l, v) && LocalOk(|l.workers|, l.workers[v]);
  }

  /** Two wakers never have the same worker in their private lists. */
  lemma {:induction false} WakersAreDisjoint(l: Latch, v: nat, w: nat, id: nat)
    requires ReachableLatch(l) && v < w < |l.workers| && id < |l.workers|
    ensures !(id in PrivateList(l.workers[v].at) && id in PrivateList(l.workers[w].at))
    ensures id in PrivateList(l.workers[v].at) ==> id !in l.waiters
  {
    NodeOwnership(l, id);
    SumCovers(InPrivateLists(id), l.workers, v, w);
  }

  // ---- Permits ----------------------------------------------------------------

  /**
   Permits are conserved: those in the semaphore, those a worker has taken out and
   not yet put back, and the releases wakers still owe it make one, plus one from
   the moment it is taken for wakeup until it consumes that wakeup.
   */
  lemma {:induction false} PermitConservation(l: Latch, v: nat)
    requires ReachableLatch(l) && v < |l.workers|
    ensures var k := l.workers[v];
      k.permits + InHand(k.at) + Sum(OwedTo(v), l.workers) == 1 + One(AwaitsWakeup(k.at) && !k.state.Waiting?)
    ensures l.workers[v].at.Outside? || l.workers[v].at.Holding? ==>
      l.workers[v].permits + Sum(OwedTo(v), l.workers) == 1
    ensures l.workers[v].permits <= 2
  {
    ReachableLatchInv(l);
    assert PermitsOk(l, v);
  }

  /**
   A semaphore holds two permits exactly for a worker taken for wakeup that has
   not yet acquired anything, once every release owed to it has been done.
   Everywhere else the value is at most one, as a binary semaphore needs.
   */
  lemma {:induction false} TwoPermitsExactly(l: Latch, v: nat)
    requires ReachableLatch(l) && v < |l.workers|
    ensures var k := l.workers[v];
      k.permits == 2 <==>
        AwaitsWakeup(k.at) && !k.state.Waiting? && InHand(k.at) == 0 && Sum(OwedTo(v), l.workers) == 0
  {
    hide InHand, AwaitsWakeup, Sum;
    PermitConservation(l, v);
  }

  // ---- Assertions and blocking --------------------------------------------------

  /** The assertions of wait_list_unlock, of wakeup and of an exclusive Unlock. */
  lemma {:induction false} AssertionsHold(l: Latch, w: nat)
    requires ReachableLatch(l) && w < |l.workers|
    ensures var p := l.workers[w].at;
      && (p.QueueUnlock? || p.DequeueUnlock? ==> l.word.listLocked)
      && (p.WakeScan? && Victim(p, l) < |l.workers| ==> l.workers[Victim(p, l)].state.Waiting?)
      && (p.WakePublish? && p.taken != [] ==> l.word.hasWaiters)
      && (p.Holding? && p.m.Exclusive? ==> l.word.count == X)
  {
    ReachableLatchInv(l);
    var p := l.workers[w].at;
    SumCovers(ListHolders, l.workers, w, w);
    assert FlagsOk(l, p) && LocalOk(|l.workers|, l.workers[w]);
    if p.WakeScan? && Victim(p, l) < |l.workers| { ScanReady(l, w); TakenWaits(l, w); }
    if p.Holding? { HolderWeighsAll(l, w); }
  }

  /** A scanning waker always finds the next waiter where the list says it is. */
  lemma {:induction false} ScanReady(l: Latch, w: nat)
    requires LatchInv(l) && w < |l.workers| && l.workers[w].at.WakeScan?
    ensures CanMove(l, w)
  {
    var p := l.workers[w].at;
    assert FlagsOk(l, p);
    if p.rest != [] {
      assert p.rest[0] == l.waiters[|l.waiters| - |p.rest|];
      assert p.rest[0] in l.waiters;
    }
  }

  /** A worker is only ever held up by the list lock or by an empty semaphore. */
  lemma {:induction false} OnlyLocksBlock(l: Latch, w: nat)
    requires ReachableLatch(l) && w < |l.workers|
    ensures var p := l.workers[w].at;
      CanMove(l, w) <==>
        !((p.QueueLock? || p.DequeueLock? || p.WakeLock?) && l.word.listLocked) &&
        !((p.Acquire? || p.DequeueAcquire?) && l.workers[w].permits == 0)
  {
    ReachableLatchInv(l);
    var p := l.workers[w].at;
    assert LocalOk(|l.workers|, l.workers[w]) && QueueOk(l, w);
    if p.WakeScan? { ScanReady(l, w); }
  }

  /** A worker that waits with no permit left is queued, or a waker still owes it the release. */
  lemma {:induction false} SleepersAreOwed(l: Latch, w: nat)
    requires ReachableLatch(l) && w < |l.workers|
    requires (l.workers[w].at.Acquire? || l.workers[w].at.DequeueAcquire?) && l.workers[w].permits == 0
    ensures w in l.waiters || (InHand(l.workers[w].at) + Sum(OwedTo(w), l.workers) == 2)
    ensures w !in l.waiters && InHand(l.workers[w].at) <= 1 ==> Sum(OwedTo(w), l.workers) >= 1
  {
    ReachableLatchInv(l);
    assert LocalOk(|l.workers|, l.workers[w]) && QueueOk(l, w) && PermitsOk(l, w);
  }

  // ---- A whole scan -----------------------------------------------------------

  function Modes(l: Latch): (r: seq<LockMode>)
    ensures |r| == |l.workers| && forall k :: 0 <= k < |r| ==> r[k] == l.workers[k].mode
  {
    seq(|l.workers|, k requires 0 <= k < |l.workers| => l.workers[k].mode)
  }

  /** w is scanning, or has just scanned, the list ids of waiters with these modes. */
  ghost predicate ScanOf(l: Latch, w: nat, ids: seq<nat>, modes: seq<LockMode>) {
    && w < |l.workers| && Modes(l) == modes
    && match l.workers[w].at
       case WakeScan(rest, woke, taken) =>
         && |rest| <= |l.waiters| && rest == l.waiters[|l.waiters| - |rest|..]
         && taken + Taken(rest, modes, woke) == Taken(ids, modes, false)
         && l.waiters[..|l.waiters| - |rest|] + Left(rest, modes, woke) == Left(ids, modes, false)
       case WakePublish(taken) => taken == Taken(ids, modes, false) && l.waiters == Left(ids, modes, false)
       case _ => false
  }

  lemma {:induction false} ScanBegins(l: Latch, w: nat, mode: LockMode)
    requires LatchInv(l) && CanMove(l, w) && l.workers[w].at.WakeLock?
    ensures ScanOf(Move(l, w, mode), w, l.waiters, Modes(l))
  {
    assert l.waiters[|l.waiters| - |l.waiters|..] == l.waiters;
    assert [] + Taken(l.waiters, Modes(l), false) == Taken(l.waiters, Modes(l), false);
    assert l.waiters[..0] + Left(l.waiters, Modes(l), false) == Left(l.waiters, Modes(l), false);
  }

  lemma {:induction false} ScanFrame(l: Latch, l': Latch, w: nat, ids: seq<nat>, modes: seq<LockMode>)
    requires ScanOf(l, w, ids, modes) && w < |l'.workers| && l'.workers[w].at == l.workers[w].at
    requires l'.waiters == l.waiters && Modes(l') == Modes(l)
    ensures ScanOf(l', w, ids, modes)
  {
    hide Modes, Taken, Left;
  }

  /** Nobody else can change the waiters list or a mode while w holds the list lock. */
  lemma {:induction false} OthersKeepTheScan(l: Latch, w: nat, u: nat, mode: LockMode, ids: seq<nat>,
                                             modes: seq<LockMode>)
    requires LatchInv(l) && ScanOf(l, w, ids, modes) && CanMove(l, u) && u != w
    ensures ScanOf(Move(l, u, mode), w, ids, modes)
  {
    assert w < |l.workers| && u < |l.workers| && HoldsList(l.workers[w].at);
    assert !HoldsList(l.workers[u].at) by { OneListHolder(l, u, w); }
    assert !l.workers[u].at.QueueMode?;
    hide *;
    OnlyHoldersTouchTheList(l, u, mode);
    OnlyMoverMoves(l, u, mode);
    ModesStay(l, u, mode);
    ScanFrame(l, Move(l, u, mode), w, ids, modes);
  }

  lemma {:induction false} ModeStays(l: Latch, u: nat, mode: LockMode, k: nat)
    requires CanMove(l, u) && !l.workers[u].at.QueueMode? && k < |l.workers|
    ensures |Move(l, u, mode).workers| == |l.workers| && Move(l, u, mode).workers[k].mode == l.workers[k].mode
  {}

  lemma {:induction false} ModesStay(l: Latch, u: nat, mode: LockMode)
    requires CanMove(l, u) && !l.workers[u].at.QueueMode?
    ensures |Move(l, u, mode).workers| == |l.workers| && Modes(Move(l, u, mode)) == Modes(l)
  {
    hide Move, CanMove;
    OnlyMoverMoves(l, u, mode);
    forall k | 0 <= k < |l.workers|
      ensures Move(l, u, mode).workers[k].mode == l.workers[k].mode
    {
      ModeStays(l, u, mode, k);
    }
  }

  /** What one step of the loop does to the plan: rest[0] goes to taken or stays behind. */
  lemma {:induction false} PlanStep(taken: seq<nat>, behind: seq<nat>, rest: seq<nat>, modes: seq<LockMode>, woke: bool)
    requires rest != []
    ensures woke && ModeOf(modes, rest[0]).Exclusive? ==>
      && taken + Taken(rest[1..], modes, true) == taken + Taken(rest, modes, woke)
      && (behind + [rest[0]]) + Left(rest[1..], modes, true) == behind + Left(rest, modes, woke)
    ensures !woke && ModeOf(modes, rest[0]).Exclusive? ==>
      taken + [rest[0]] == taken + Taken(rest, modes, woke) && behind + rest[1..] == behind + Left(rest, modes, woke)
    ensures ModeOf(modes, rest[0]).Share? ==>
      && (taken + [rest[0]]) + Taken(rest[1..], modes, true) == taken + Taken(rest, modes, woke)
      && behind + Left(rest[1..], modes, true) == behind + Left(rest, modes, woke)
  {
    assert (behind + [rest[0]]) + Left(rest[1..], modes, true) == behind + ([rest[0]] + Left(rest[1..], modes, true));
    assert (taken + [rest[0]]) + Taken(rest[1..], modes, true) == taken + ([rest[0]] + Taken(rest[1..], modes, true));
  }

  lemma {:induction false} EmptyPlan(taken: seq<nat>, behind: seq<nat>, modes: seq<LockMode>, woke: bool)
    ensures taken + Taken([], modes, woke) == taken && behind + Left([], modes, woke) == behind
  {}

  /** The waker's next point, by the mode of the waiter it looks at. */
  function ScanNext(p: Point, mode: LockMode): Point
    requires p.WakeScan? && p.rest != []
  {
    if p.woke && mode.Exclusive? then WakeScan(p.rest[1..], true, p.taken)
    else if mode.Exclusive? then WakePublish(p.taken + [p.rest[0]])
    else WakeScan(p.rest[1..], true, p.taken + [p.rest[0]])
  }

  lemma {:induction false} ScanPoints(l: Latch, w: nat, mode: LockMode)
    requires CanMove(l, w) && l.workers[w].at.WakeScan? && l.workers[w].at.rest != []
    ensures var p := l.workers[w].at; var l' := Move(l, w, mode);
      && p.rest[0] < |l.workers| == |l'.workers|
      && l'.workers[w].at == ScanNext(p, l.workers[p.rest[0]].mode)
  {}

  /** The waiters already passed over, before and after a step. */
  lemma {:induction false} ScanWaiters(l: Latch, w: nat, mode: LockMode)
    requires LatchInv(l) && CanMove(l, w) && l.workers[w].at.WakeScan? && l.workers[w].at.rest != []
    ensures var p := l.workers[w].at; var l' := Move(l, w, mode); var k := |l.waiters| - |p.rest|;
      && k >= 0 && |p.rest| - 1 <= |l'.waiters| && p.rest[0] < |l.workers|
      && l'.waiters[..|l'.waiters| - |p.rest| + 1] ==
           (if p.woke && l.workers[p.rest[0]].mode.Exclusive? then l.waiters[..k] + [p.rest[0]] else l.waiters[..k])
  {
    ScanPosition(l, w);
    ScanEffect(l, w, mode);
    var rest: seq<nat> := l.workers[w].at.rest;
    var k := |l.waiters| - |rest|;
    hide Move, LatchInv, IndexOf, CanMove;
    assert l.waiters[..k + 1] == l.waiters[..k] + [rest[0]];
    assert Without(l.waiters, k)[..k] == l.waiters[..k];
  }

  /** One step of the scan, seen from outside: the next waiter was passed over or moved to the private list. */
  ghost predicate ScanAdvanced(l: Latch, l': Latch, w: nat) {
    && w < |l.workers| == |l'.workers| && l.workers[w].at.WakeScan? && Modes(l') == Modes(l)
    && var p := l.workers[w].at;
       if p.rest == [] then l'.waiters == l.waiters && l'.workers[w].at == WakePublish(p.taken)
       else
         var k := |l.waiters| - |p.rest|;
         var k' := |l'.waiters| - |p.rest| + 1;
         && k >= 0 && k' >= 0 && p.rest[0] < |l.workers| && p.rest[1..] == l'.waiters[k'..]
         && l'.waiters[..k'] ==
              (if p.woke && l.workers[p.rest[0]].mode.Exclusive? then l.waiters[..k] + [p.rest[0]] else l.waiters[..k])
         && l'.workers[w].at == ScanNext(p, l.workers[p.rest[0]].mode)
  }

  lemma {:induction false} ScanAdvances(l: Latch, w: nat, mode: LockMode)
    requires LatchInv(l) && CanMove(l, w) && l.workers[w].at.WakeScan?
    ensures ScanAdvanced(l, Move(l, w, mode), w)
  {
    assert w < |l.workers|;
    hide LatchInv, CanMove, Move, ScanNext, Modes, Victim;
    ModesStay(l, w, mode);
    if l.workers[w].at.rest == [] {
      ScanEffect(l, w, mode);
    } else {
      ScanSuffix(l, w, mode);
      ScanWaiters(l, w, mode);
      ScanPoints(l, w, mode);
    }
  }

  /** The waker's own step carries out the plan. */
  lemma {:induction false} ScanGoesOn(l: Latch, w: nat, mode: LockMode, ids: seq<nat>, modes: seq<LockMode>)
    requires LatchInv(l) && ScanOf(l, w, ids, modes) && CanMove(l, w) && l.workers[w].at.WakeScan?
    ensures ScanOf(Move(l, w, mode), w, ids, modes)
  {
    assert w < |l.workers|;
    hide *;
    ScanAdvances(l, w, mode);
    PlanFollowed(l, Move(l, w, mode), w, ids, modes);
  }

  lemma {:induction false} PlanFollowed(l: Latch, l': Latch, w: nat, ids: seq<nat>, modes: seq<LockMode>)
    requires ScanOf(l, w, ids, modes) && ScanAdvanced(l, l', w)
    ensures ScanOf(l', w, ids, modes)
  {
    var p := l.workers[w].at;
    if p.rest == [] {
      EmptyPlan(p.taken, l.waiters, modes, p.woke);
      assert l.waiters[..|l.waiters|] == l.waiters;
    } else {
      var k' := |l'.waiters| - |p.rest| + 1;
      assert ModeOf(modes, p.rest[0]) == l.workers[p.rest[0]].mode;
      PlanStep(p.taken, l.waiters[..|l.waiters| - |p.rest|], p.rest, modes, p.woke);
      hide Left, Taken, Modes;
      assert l'.waiters == l'.waiters[..k'] + l'.waiters[k'..];
    }
  }

  /** In the run w does not leave the scan it is in. */
  ghost predicate KeepsScanning(l: Latch, w: nat, turns: seq<Turn>)
    requires CanRun(l, turns)
    decreases |turns|
  {
    turns == [] ||
    (w < |l.workers| && (turns[0].worker == w ==> l.workers[w].at.WakeScan?) &&
     KeepsScanning(Move(l, turns[0].worker, turns[0].mode), w, turns[1..]))
  }

  /**
   Whatever the other workers do meanwhile, a waker that locked the list when it
   held ids publishes exactly what the sequential loop would: the head if it is
   exclusive, otherwise all share waiters, the rest staying queued in order.
   */
  lemma {:induction false} WakeupTakesItsPlan(l: Latch, w: nat, turns: seq<Turn>, ids: seq<nat>, modes: seq<LockMode>)
    requires LatchInv(l) && ScanOf(l, w, ids, modes) && CanRun(l, turns) && KeepsScanning(l, w, turns)
    ensures ScanOf(Run(l, turns), w, ids, modes)
    decreases |turns|
  {
    hide LatchInv, ScanOf, CanMove, Move;
    if turns != [] {
      var u, mode := turns[0].worker, turns[0].mode;
      LatchStep(l, u, mode);
      if u == w { ScanGoesOn(l, w, mode, ids, modes); } else { OthersKeepTheScan(l, w, u, mode, ids, modes); }
      WakeupTakesItsPlan(Move(l, u, mode), w, turns[1..], ids, modes);
    }
  }

  /** From the moment a waker locks the list until it publishes. */
  lemma {:induction false} WakeupIsAtomic(l: Latch, w: nat, turns: seq<Turn>, mode: LockMode)
    requires ReachableLatch(l) && w < |l.workers| && l.workers[w].at.WakeLock? && CanMove(l, w)
    requires CanRun(Move(l, w, mode), turns) && KeepsScanning(Move(l, w, mode), w, turns)
    ensures var l' := Run(Move(l, w, mode), turns);
      && w < |l'.workers|
      && (l'.workers[w].at.WakePublish? ==>
            && l'.workers[w].at.taken == Taken(l.waiters, Modes(l), false)
            && l'.waiters == Left(l.waiters, Modes(l), false))
  {
    ReachableLatchInv(l);
    ScanBegins(l, w, mode);
    LatchStep(l, w, mode);
    WakeupTakesItsPlan(Move(l, w, mode), w, turns, l.waiters, Modes(l));
    hide LatchInv, Run, Move, CanRun;
  }

  // ---- The semaphore ------------------------------------------------------------

  lemma {:induction false} RunAppends(l: Latch, turns: seq<Turn>, t: Turn)
    requires CanRun(l, turns) && CanMove(Run(l, turns), t.worker)
    ensures CanRun(l, turns + [t]) && Run(l, turns + [t]) == Move(Run(l, turns), t.worker, t.mode)
    decreases |turns|
  {
    hide Move, CanMove;
    if turns == [] {
      assert (turns + [t])[1..] == [];
    } else {
      RunAppends(Move(l, turns[0].worker, turns[0].mode), turns[1..], t);
      assert (turns + [t])[1..] == turns[1..] + [t];
    }
  }

  lemma {:induction false} Reaches(l: Latch, w: nat, l': Latch)
    requires ReachableLatch(l) && CanMove(l, w) && Move(l, w, Share) == l'
    ensures ReachableLatch(l')
  {
    hide Move, CanMove, CanRun, Run;
    var n: nat, turns: seq<Turn> :| CanRun(InitialLatch(n), turns) && l == Run(InitialLatch(n), turns);
    RunAppends(InitialLatch(n), turns, Turn(w, Share));
  }

  const IDLE: Worker := Worker(Outside, NotWaiting, Share, 1)
  const HELD: Word := Word(1, false, true, false)
  const QUEUED: Word := Word(1, true, true, true)

  /** Two workers, the first holding the latch, the second at p with its record in state s. */
  function Contended(word: Word, waiters: seq<nat>, p: Point, s: WorkerLockState): Latch {
    Latch(word, waiters, [IDLE.(at := Holding(Share)), IDLE.(at := p, state := s)])
  }

  lemma {:induction false} FirstLocks()
    ensures ReachableLatch(Contended(HELD, [], Outside, NotWaiting))
  {
    var l := InitialLatch(2);
    assert ReachableLatch(l) by {
      var none: seq<Turn> := [];
      assert CanRun(InitialLatch(2), none) && l == Run(InitialLatch(2), none);
    }
    assert l == Latch(INITIAL, [], [IDLE, IDLE]);
    hide ReachableLatch;
    Reaches(l, 0, Latch(INITIAL, [], [IDLE.(at := Attempt(Share, 0)), IDLE]));
    Reaches(Latch(INITIAL, [], [IDLE.(at := Attempt(Share, 0)), IDLE]), 0,
            Latch(HELD, [], [IDLE.(at := Repay(Share, 0)), IDLE]));
    Reaches(Latch(HELD, [], [IDLE.(at := Repay(Share, 0)), IDLE]), 0, Contended(HELD, [], Outside, NotWaiting));
  }

  lemma {:induction false} SecondLocksTheList()
    ensures ReachableLatch(Contended(QUEUED, [], QueueState(Share, 0), NotWaiting))
  {
    hide ReachableLatch;
    FirstLocks();
    var flag := HELD.(listLocked := true);
    Reaches(Contended(HELD, [], Outside, NotWaiting), 1, Contended(HELD, [], Attempt(Share, 0), NotWaiting));
    Reaches(Contended(HELD, [], Attempt(Share, 0), NotWaiting), 1,
            Contended(HELD, [], QueueLock(Share, 0), NotWaiting));
    Reaches(Contended(HELD, [], QueueLock(Share, 0), NotWaiting), 1,
            Contended(flag, [], QueueFlag(Share, 0), NotWaiting));
    Reaches(Contended(flag, [], QueueFlag(Share, 0), NotWaiting), 1,
            Contended(QUEUED, [], QueueState(Share, 0), NotWaiting));
  }

  lemma {:induction false} SecondWaits()
    ensures ReachableLatch(Contended(QUEUED.(listLocked := false), [1], Acquire(Share, 0), Waiting))
  {
    hide ReachableLatch;
    SecondLocksTheList();
    var free := QUEUED.(listLocked := false);
    Reaches(Contended(QUEUED, [], QueueState(Share, 0), NotWaiting), 1,
            Contended(QUEUED, [], QueueMode(Share, 0), Waiting));
    Reaches(Contended(QUEUED, [], QueueMode(Share, 0), Waiting), 1,
            Contended(QUEUED, [], QueuePush(Share, 0), Waiting));
    Reaches(Contended(QUEUED, [], QueuePush(Share, 0), Waiting), 1,
            Contended(QUEUED, [1], QueueUnlock(Share, 0), Waiting));
    Reaches(Contended(QUEUED, [1], QueueUnlock(Share, 0), Waiting), 1, Contended(free, [1], Retry(Share, 0), Waiting));
    Reaches(Contended(free, [1], Retry(Share, 0), Waiting), 1, Contended(free, [1], Acquire(Share, 0), Waiting));
  }

  /** The same two workers once the first unlocks: it is at p, the second still to acquire its semaphore. */
  function Waking(word: Word, waiters: seq<nat>, p: Point, s: WorkerLockState, permits: nat): Latch {
    Latch(word, waiters, [IDLE.(at := p), Worker(Acquire(Share, 0), s, Share, permits)])
  }

  lemma {:induction false} FirstTakes()
    ensures var l := Waking(Word(0, true, true, true), [1], WakeScan([1], false, []), Waiting, 1);
      CanMove(l, 0) &&
      Move(l, 0, Share) == Waking(Word(0, true, true, true), [], WakeScan([], true, [1]), PendingWakeup, 1)
  {
    var one: seq<nat> := [1];
    assert one[1..] == [] && [] + one == one;
    assert IndexOf(one, 1) == 0 && Without(one, 0) == [];
  }

  lemma {:induction false} FirstScans()
    ensures ReachableLatch(Waking(Word(0, true, true, true), [], WakePublish([1]), PendingWakeup, 1))
  {
    hide ReachableLatch;
    SecondWaits();
    var free := Word(0, false, true, true);
    var locked := Word(0, true, true, true);
    Reaches(Contended(QUEUED.(listLocked := false), [1], Acquire(Share, 0), Waiting), 0,
            Waking(free, [1], WakeLock, Waiting, 1));
    Reaches(Waking(free, [1], WakeLock, Waiting, 1), 0, Waking(locked, [1], WakeScan([1], false, []), Waiting, 1));
    FirstTakes();
    Reaches(Waking(locked, [1], WakeScan([1], false, []), Waiting, 1), 0,
            Waking(locked, [], WakeScan([], true, [1]), PendingWakeup, 1));
    Reaches(Waking(locked, [], WakeScan([], true, [1]), PendingWakeup, 1), 0,
            Waking(locked, [], WakePublish([1]), PendingWakeup, 1));
  }

  /**
   A waker can release a semaphore that still holds its initial permit: the value
   two is reachable, one more than the binary_semaphore of the source can hold.
   */
  lemma {:induction false} SemaphoreCanReachTwo()
    ensures exists l, v :: ReachableLatch(l) && 0 <= v < |l.workers| && l.workers[v].permits == 2
  {
    hide ReachableLatch;
    FirstScans();
    var done := Word(0, false, false, false);
    var one: seq<nat> := [1];
    assert one[1..] == [];
    Reaches(Waking(Word(0, true, true, true), [], WakePublish([1]), PendingWakeup, 1), 0,
            Waking(done, [], WakeNext([1]), PendingWakeup, 1));
    Reaches(Waking(done, [], WakeNext([1]), PendingWakeup, 1), 0, Waking(done, [], WakeMark(1, []), PendingWakeup, 1));
    Reaches(Waking(done, [], WakeMark(1, []), PendingWakeup, 1), 0,
            Waking(done, [], WakeRelease(1, []), NotWaiting, 1));
    Reaches(Waking(done, [], WakeRelease(1, []), NotWaiting, 1), 0, Waking(done, [], WakeNext([]), NotWaiting, 2));
    assert Waking(done, [], WakeNext([]), NotWaiting, 2).workers[1].permits == 2;
  }
}
