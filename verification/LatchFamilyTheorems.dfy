/** What holds of any number of latches that share their workers' records, in every run. */
module LatchFamilyTheorems {
  import opened LockLists
  import opened LatchWords
  import opened Latches
  import opened LatchInvariant
  import opened LatchTheorems
  import opened LatchFamilies

  /** w is inside no latch but i, if any. */
  predicate InsideAtMost(m: Family, i: nat, w: nat) {
    Wellformed(m) && i < |m.locks| && w < |m.threads| &&
    forall j :: 0 <= j < |m.locks| && j != i ==> !Busy(m.threads[w].at[j])
  }

  /** A worker is inside one latch at a time. */
  lemma {:induction false} OneLatchAtATime(m: Family, i: nat, w: nat)
    requires ReachableFamily(m) && w < |m.threads|
    ensures Wellformed(m)
    ensures i < |m.locks| && Busy(m.threads[w].at[i]) ==> InsideAtMost(m, i, w)
    ensures i < |m.locks| && !InsideAtMost(m, i, w) ==> !Busy(m.threads[w].at[i])
  {
    var gs := ReachableSplits(m);
    assert OneAtATime(m.threads[w]);
    hide ReachableFamily;
  }

  /** Seen from one latch, its own run and the family have the workers at the same points. */
  lemma {:induction false} SameSums(m: Family, gs: seq<Latch>, i: nat, q: Measure)
    requires Splits(m, gs) && i < |gs|
    ensures LatchInv(gs[i]) && |gs[i].workers| == |m.threads|
    ensures Sum(q, View(m, i).workers) == Sum(q, gs[i].workers)
  {
    assert Mirrors(m, i, gs[i]);
    ReachableLatchInv(gs[i]);
    forall v | 0 <= v < |m.threads| ensures View(m, i).workers[v].at == gs[i].workers[v].at {
      assert MirrorsWorker(m.threads[v], i, gs[i].workers[v]);
    }
    SumSame(q, gs[i].workers, View(m, i).workers);
  }

  /** Each latch excludes as it does alone, though a worker may hold several. */
  lemma {:induction false} FamilyExclusion(m: Family, i: nat, v: nat, w: nat)
    requires ReachableFamily(m) && i < |m.locks| && v < w < |m.threads|
    ensures Wellformed(m)
    ensures !(HoldsLatch(m.threads[v].at[i]) && HoldsLatch(m.threads[w].at[i]))
    ensures !(HoldsList(m.threads[v].at[i]) && HoldsList(m.threads[w].at[i]))
    ensures m.locks[i].word.count == Sum(LatchWeight, View(m, i).workers)
    ensures !m.locks[i].word.listLocked ==> (m.locks[i].word.hasWaiters <==> m.locks[i].waiters != [])
  {
    var gs := ReachableSplits(m);
    SameSums(m, gs, i, LatchWeight);
    assert Mirrors(m, i, gs[i]);
    assert MirrorsWorker(m.threads[v], i, gs[i].workers[v]) && MirrorsWorker(m.threads[w], i, gs[i].workers[w]);
    Exclusion(gs[i]);
    FlagAgreement(gs[i]);
    hide ReachableFamily, ReachableLatch;
  }

  // ---- Nodes -------------------------------------------------------------------------------

  /** How often v's node is in latch i's waiters list or a private list of one of its wakers. */
  function PlacesIn(m: Family, i: nat, v: nat): nat
    requires Wellformed(m) && i < |m.locks|
  {
    Times(m.locks[i].waiters, v) + Sum(InPrivateLists(v), View(m, i).workers)
  }

  /**
   A worker's one node is in at most one list of all latches, of the latch it is inside, and in
   none if it is NotWaiting.
   */
  lemma {:induction false} OneNodeManyLatches(m: Family, v: nat, i: nat)
    requires ReachableFamily(m) && v < |m.threads| && i < |m.locks|
    ensures Wellformed(m)
    ensures PlacesIn(m, i, v) <= 1
    ensures PlacesIn(m, i, v) == 1 ==> InsideAtMost(m, i, v) && !m.threads[v].state.NotWaiting?
    ensures PlacesIn(m, i, v) == 1 ==> forall j :: 0 <= j < |m.locks| && j != i ==> PlacesIn(m, j, v) == 0
  {
    var gs := ReachableSplits(m);
    forall j | 0 <= j < |m.locks|
      ensures PlacesIn(m, j, v) <= 1
      ensures PlacesIn(m, j, v) == 1 ==> Busy(m.threads[v].at[j]) && !m.threads[v].state.NotWaiting?
    {
      PlacedIsBusy(m, gs, j, v);
    }
    OneLatchAtATime(m, i, v);
    hide ReachableFamily, PlacesIn;
  }

  lemma {:induction false} PlacedIsBusy(m: Family, gs: seq<Latch>, i: nat, v: nat)
    requires Splits(m, gs) && i < |gs| && v < |m.threads|
    ensures PlacesIn(m, i, v) <= 1
    ensures PlacesIn(m, i, v) == 1 ==> Busy(m.threads[v].at[i]) && !m.threads[v].state.NotWaiting?
  {
    SameSums(m, gs, i, InPrivateLists(v));
    var g := gs[i];
    assert Mirrors(m, i, g) && MirrorsWorker(m.threads[v], i, g.workers[v]);
    assert QueueOk(g, v) && PrivateOk(g, v) && LocalOk(|g.workers|, g.workers[v]);
    hide ReachableLatch, LatchInv;
  }

  // ---- Permits -----------------------------------------------------------------------------

  /** Releases owed to v by wakers of the first k latches. */
  function OwedBy(m: Family, v: nat, k: nat): nat
    requires Wellformed(m) && k <= |m.locks|
  {
    if k == 0 then 0 else OwedBy(m, v, k - 1) + Sum(OwedTo(v), View(m, k - 1).workers)
  }

  /** What latch j has added to v's semaphore, releases still owed included: something only if v is inside it. */
  ghost predicate OwedInLatch(m: Family, g: Latch, v: nat, i: nat, j: nat)
    requires InsideAtMost(m, i, v) && j < |m.locks|
  {
    var t := m.threads[v];
    v < |g.workers| &&
    g.workers[v].permits - 1 + Sum(OwedTo(v), View(m, j).workers) ==
      if i == j then One(AwaitsWakeup(t.at[i]) && !t.state.Waiting?) - InHand(t.at[i]) else 0
  }

  lemma {:induction false} LatchOwes(m: Family, gs: seq<Latch>, v: nat, i: nat, j: nat)
    requires Splits(m, gs) && InsideAtMost(m, i, v) && j < |gs|
    ensures OwedInLatch(m, gs[j], v, i, j)
  {
    SameSums(m, gs, j, OwedTo(v));
    var g := gs[j];
    assert Mirrors(m, j, g) && MirrorsWorker(m.threads[v], j, g.workers[v]);
    assert PermitsOk(g, v);
    hide Sum, LatchInv, ReachableLatch, Mirrors, OneAtATime;
  }

  lemma {:induction false} BalanceOwed(m: Family, gs: seq<Latch>, v: nat, i: nat, k: nat)
    requires InsideAtMost(m, i, v) && k <= |gs| == |m.locks|
    requires forall j :: 0 <= j < |gs| ==> OwedInLatch(m, gs[j], v, i, j)
    ensures forall j :: 0 <= j < k ==> v < |gs[j].workers|
    ensures var t := m.threads[v];
      Balance(gs[..k], v) + OwedBy(m, v, k) ==
        if i < k then One(AwaitsWakeup(t.at[i]) && !t.state.Waiting?) - InHand(t.at[i]) else 0
    decreases k
  {
    if k > 0 {
      BalanceOwed(m, gs, v, i, k - 1);
      assert OwedInLatch(m, gs[k - 1], v, i, k - 1);
      assert gs[..k] == gs[..k - 1] + [gs[k - 1]];
      BalanceAppend(gs[..k - 1], gs[k - 1], v);
      hide Sum, AwaitsWakeup, InHand, View;
    }
  }

  lemma {:induction false} BalanceAppend(gs: seq<Latch>, g: Latch, v: nat)
    requires v < |g.workers| && forall j :: 0 <= j < |gs| ==> v < |gs[j].workers|
    ensures forall j :: 0 <= j < |gs + [g]| ==> v < |(gs + [g])[j].workers|
    ensures Balance(gs + [g], v) == Balance(gs, v) + g.workers[v].permits - 1
  {
    if gs == [] {
      assert gs + [g] == [g];
    } else {
      assert (gs + [g])[1..] == gs[1..] + [g];
      BalanceAppend(gs[1..], g, v);
    }
  }

  /**
   Permits are conserved across all latches: the semaphore, what its worker has in hand
   in the latch it is inside, and the releases owed to it by wakers of every latch make
   one, plus one for a wakeup it has not yet consumed.
   */
  lemma {:induction false} PermitsAddUp(m: Family, i: nat, v: nat)
    requires ReachableFamily(m) && InsideAtMost(m, i, v)
    ensures var t := m.threads[v];
      t.permits + InHand(t.at[i]) + OwedBy(m, v, |m.locks|) == 1 + One(AwaitsWakeup(t.at[i]) && !t.state.Waiting?)
    ensures m.threads[v].permits <= 2
    ensures m.threads[v].permits == 2 <==>
      AwaitsWakeup(m.threads[v].at[i]) && !m.threads[v].state.Waiting? && InHand(m.threads[v].at[i]) == 0
      && OwedBy(m, v, |m.locks|) == 0
  {
    var gs := ReachableSplits(m);
    forall j | 0 <= j < |gs| ensures OwedInLatch(m, gs[j], v, i, j) { LatchOwes(m, gs, v, i, j); }
    BalanceOwed(m, gs, v, i, |m.locks|);
    assert gs[..|m.locks|] == gs;
    hide ReachableFamily, Mirrors, OneAtATime, InHand, AwaitsWakeup;
  }

  // ---- Blocking ----------------------------------------------------------------------------

  /** Sharing the record adds no way to be held up: still only a taken list lock or an empty semaphore. */
  lemma {:induction false} FamilyBlocks(m: Family, i: nat, w: nat)
    requires ReachableFamily(m) && InsideAtMost(m, i, w)
    ensures var p := m.threads[w].at[i];
      CanAct(m, i, w) <==>
        !((p.QueueLock? || p.DequeueLock? || p.WakeLock?) && m.locks[i].word.listLocked) &&
        !((p.Acquire? || p.DequeueAcquire?) && m.threads[w].permits == 0)
  {
    var gs := ReachableSplits(m);
    var g := gs[i];
    assert Mirrors(m, i, g) && MirrorsWorker(m.threads[w], i, g.workers[w]) && OneAtATime(m.threads[w]);
    ReachableLatchInv(g);
    OnlyLocksBlock(g, w);
    var p := g.workers[w].at;
    if !Busy(p) { FreeIsNotWaiting(g, w); }
    if p.WakeScan? && p.rest != [] { ScannedModesAgree(m, i, g, w); }
    PermitsCover(m, gs, i, w);
    hide ReachableFamily, ReachableLatch, LatchInv, Splits, Mirrors, OneAtATime;
    if CanMove(g, w) && ((p.Acquire? || p.DequeueAcquire?) ==> m.threads[w].permits > 0) {
      LikeLatchMoves(View(m, i), g, w);
    }
  }

  /**
   A worker asleep in latch i on an empty semaphore is queued there, or is owed a release by a
   waker of some latch.
   */
  lemma {:induction false} FamilySleepersAreOwed(m: Family, i: nat, w: nat)
    requires ReachableFamily(m) && InsideAtMost(m, i, w)
    requires (m.threads[w].at[i].Acquire? || m.threads[w].at[i].DequeueAcquire?) && m.threads[w].permits == 0
    ensures w in m.locks[i].waiters || InHand(m.threads[w].at[i]) + OwedBy(m, w, |m.locks|) == 2
  {
    var gs := ReachableSplits(m);
    var g := gs[i];
    PermitsAddUp(m, i, w);
    assert Mirrors(m, i, g) && MirrorsWorker(m.threads[w], i, g.workers[w]);
    ReachableLatchInv(g);
    assert QueueOk(g, w) && LocalOk(|g.workers|, g.workers[w]);
    hide ReachableFamily, ReachableLatch, LatchInv, Sum, OwedBy;
  }
}
