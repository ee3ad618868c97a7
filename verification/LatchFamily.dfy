/**
 Any number of latches that share one WorkerLock record per worker: its state, its
 mode, its node and its semaphore.  A worker may hold several latches, but is inside
 Lock, Unlock or wakeup of one at a time.  A release owed to it by a waker of one latch
 can arrive while it queues on another.
 */
module LatchFamilies {
  import opened LockLists
  import opened LatchWords
  import opened Latches
  import opened LatchInvariant
  import opened LatchTheorems

  datatype Lock = Lock(word: Word, waiters: seq<nat>)

  /** A worker: its program point in each latch, and its one WorkerLock record. */
  datatype Thread = Thread(at: seq<Point>, state: WorkerLockState, mode: LockMode, permits: nat)

  datatype Family = Family(locks: seq<Lock>, threads: seq<Thread>)

  function InitialFamily(latches: nat, n: nat): Family {
    Family(seq(latches, _ => Lock(INITIAL, [])),
           seq(n, _ => Thread(seq(latches, _ => Outside), NotWaiting, Share, 1)))
  }

  predicate Wellformed(m: Family) {
    forall v :: 0 <= v < |m.threads| ==> |m.threads[v].at| == |m.locks|
  }

  /** Inside Lock, Unlock or wakeup. */
  predicate Busy(p: Point) { !p.Outside? && !p.Holding? }

  /** Latch i as its code finds it: its word, its list, and everybody's shared record. */
  function View(m: Family, i: nat): (l: Latch)
    requires Wellformed(m) && i < |m.locks|
    ensures l.word == m.locks[i].word && l.waiters == m.locks[i].waiters && |l.workers| == |m.threads|
    ensures forall v :: 0 <= v < |m.threads| ==>
      l.workers[v] == Worker(m.threads[v].at[i], m.threads[v].state, m.threads[v].mode, m.threads[v].permits)
  {
    Latch(m.locks[i].word, m.locks[i].waiters,
          seq(|m.threads|, v requires 0 <= v < |m.threads| =>
            Worker(m.threads[v].at[i], m.threads[v].state, m.threads[v].mode, m.threads[v].permits)))
  }

  /** The family after latch i and the shared records have become those of l. */
  function Put(m: Family, i: nat, l: Latch): (m': Family)
    requires Wellformed(m) && i < |m.locks| && |l.workers| == |m.threads|
    ensures Wellformed(m') && m'.locks == m.locks[i := Lock(l.word, l.waiters)] && |m'.threads| == |m.threads|
    ensures forall v :: 0 <= v < |m.threads| ==>
      m'.threads[v] == Thread(m.threads[v].at[i := l.workers[v].at], l.workers[v].state, l.workers[v].mode,
                              l.workers[v].permits)
  {
    Family(m.locks[i := Lock(l.word, l.waiters)],
           seq(|m.threads|, v requires 0 <= v < |m.threads| =>
             Thread(m.threads[v].at[i := l.workers[v].at], l.workers[v].state, l.workers[v].mode,
                    l.workers[v].permits)))
  }

  /** w can take its next step in latch i: it is inside no other latch, and the step itself is possible. */
  predicate CanAct(m: Family, i: nat, w: nat) {
    && Wellformed(m) && i < |m.locks| && w < |m.threads|
    && (forall j :: 0 <= j < |m.locks| && j != i ==> !Busy(m.threads[w].at[j]))
    && CanMove(View(m, i), w)
  }

  function Act(m: Family, i: nat, w: nat, mode: LockMode): Family
    requires CanAct(m, i, w)
  {
    MoveKeepsSize(View(m, i), w, mode);
    Put(m, i, Move(View(m, i), w, mode))
  }

  lemma {:induction false} MoveKeepsSize(l: Latch, w: nat, mode: LockMode)
    requires CanMove(l, w)
    ensures |Move(l, w, mode).workers| == |l.workers|
  {}

  datatype Deed = Deed(latch: nat, worker: nat, mode: LockMode)

  predicate CanPerform(m: Family, deeds: seq<Deed>)
    decreases |deeds|
  {
    deeds == [] ||
    (CanAct(m, deeds[0].latch, deeds[0].worker) &&
     CanPerform(Act(m, deeds[0].latch, deeds[0].worker, deeds[0].mode), deeds[1..]))
  }

  function Perform(m: Family, deeds: seq<Deed>): Family
    requires CanPerform(m, deeds)
    decreases |deeds|
  {
    if deeds == [] then m
    else Perform(Act(m, deeds[0].latch, deeds[0].worker, deeds[0].mode), deeds[1..])
  }

  // ---- Each latch by itself -------------------------------------------------------------

  /** What each latch's own history adds to or takes from v's semaphore, over the latches gs. */
  ghost function Balance(gs: seq<Latch>, v: nat): int
    requires forall i :: 0 <= i < |gs| ==> v < |gs[i].workers|
  {
    if gs == [] then 0 else gs[0].workers[v].permits - 1 + Balance(gs[1..], v)
  }

  /** Latch g, run by itself, is latch i of the family: only the record of a worker busy in it need agree. */
  ghost predicate Mirrors(m: Family, i: nat, g: Latch)
    requires Wellformed(m) && i < |m.locks|
  {
    && ReachableLatch(g) && g.word == m.locks[i].word && g.waiters == m.locks[i].waiters
    && |g.workers| == |m.threads|
    && forall v :: 0 <= v < |m.threads| ==> MirrorsWorker(m.threads[v], i, g.workers[v])
  }

  ghost predicate MirrorsWorker(t: Thread, i: nat, k: Worker)
    requires i < |t.at|
  {
    && k.at == t.at[i] && (Busy(k.at) ==> k.state == t.state)
    && (Enqueued(k.at) || k.at.QueuePush? ==> k.mode == t.mode)
  }

  /** At most one latch at a time, and no trace in the record of a worker inside none. */
  ghost predicate OneAtATime(t: Thread) {
    && (forall i, j :: 0 <= i < j < |t.at| ==> !(Busy(t.at[i]) && Busy(t.at[j])))
    && ((forall i :: 0 <= i < |t.at| ==> !Busy(t.at[i])) ==> t.state.NotWaiting?)
  }

  /** The family is its latches run by themselves, but for the permits, which add up. */
  ghost predicate Splits(m: Family, gs: seq<Latch>) {
    && Wellformed(m) && |gs| == |m.locks|
    && (forall i :: 0 <= i < |gs| ==> Mirrors(m, i, gs[i]))
    && (forall v :: 0 <= v < |m.threads| ==> OneAtATime(m.threads[v]) && m.threads[v].permits == 1 + Balance(gs, v))
  }

  lemma {:induction false} BalanceChange(gs: seq<Latch>, i: nat, g: Latch, v: nat)
    requires i < |gs| && v < |g.workers| && forall j :: 0 <= j < |gs| ==> v < |gs[j].workers|
    ensures Balance(gs[i := g], v) == Balance(gs, v) + g.workers[v].permits - gs[i].workers[v].permits
  {
    if i == 0 {
      assert gs[i := g][1..] == gs[1..];
    } else {
      assert gs[i := g][1..] == gs[1..][i - 1 := g];
      BalanceChange(gs[1..], i - 1, g, v);
    }
  }

  /** A latch a worker is not inside adds nothing to its semaphore. */
  lemma {:induction false} BalanceBound(gs: seq<Latch>, i: nat, v: nat)
    requires i < |gs| && forall j :: 0 <= j < |gs| ==> v < |gs[j].workers|
    requires forall j :: 0 <= j < |gs| && j != i ==> gs[j].workers[v].permits <= 1
    ensures 1 + Balance(gs, v) <= gs[i].workers[v].permits
  {
    if i == 0 {
      BalanceNegative(gs[1..], v);
    } else {
      BalanceBound(gs[1..], i - 1, v);
    }
  }

  lemma {:induction false} BalanceNegative(gs: seq<Latch>, v: nat)
    requires forall j :: 0 <= j < |gs| ==> v < |gs[j].workers| && gs[j].workers[v].permits <= 1
    ensures Balance(gs, v) <= 0
  {
    if gs != [] { BalanceNegative(gs[1..], v); }
  }

  // ---- One step ---------------------------------------------------------------------------

  /** Two latches alike but for their workers' records, where w's step cannot tell the records apart. */
  ghost predicate Alike(l: Latch, g: Latch, w: nat) {
    && l.word == g.word && l.waiters == g.waiters && w < |l.workers| == |g.workers|
    && (forall v :: 0 <= v < |l.workers| ==> l.workers[v].at == g.workers[v].at)
    && l.workers[w].state == g.workers[w].state
    && (var p := l.workers[w].at;
        p.WakeScan? && p.rest != [] && p.rest[0] < |l.workers| ==>
          l.workers[p.rest[0]].mode == g.workers[p.rest[0]].mode)
  }

  lemma {:induction false} AlikeMoveWord(l: Latch, g: Latch, w: nat, mode: LockMode)
    requires Alike(l, g, w) && CanMove(l, w) && CanMove(g, w)
    ensures Move(l, w, mode).word == Move(g, w, mode).word && Move(l, w, mode).waiters == Move(g, w, mode).waiters
  {}

  lemma {:induction false} AlikeMovePoint(l: Latch, g: Latch, w: nat, mode: LockMode)
    requires Alike(l, g, w) && CanMove(l, w) && CanMove(g, w)
    ensures |Move(l, w, mode).workers| == |l.workers| == |Move(g, w, mode).workers|
    ensures Move(l, w, mode).workers[w].at == Move(g, w, mode).workers[w].at
  {}

  lemma {:induction false} AlikeMoveAlike(l: Latch, g: Latch, w: nat, mode: LockMode)
    requires Alike(l, g, w) && CanMove(l, w) && CanMove(g, w)
    ensures var l' := Move(l, w, mode); var g' := Move(g, w, mode);
      && l'.word == g'.word && l'.waiters == g'.waiters && |l'.workers| == |l.workers| == |g'.workers|
      && (forall v :: 0 <= v < |l.workers| ==> l'.workers[v].at == g'.workers[v].at)
  {
    hide Move, CanMove;
    AlikeMoveWord(l, g, w, mode);
    AlikeMovePoint(l, g, w, mode);
    OnlyMoverMoves(l, w, mode);
    OnlyMoverMoves(g, w, mode);
  }

  /** A worker's record in two latches moves alike: the permits by as much, state and mode to the same or not at all. */
  ghost predicate MovesAlike(k: Worker, k': Worker, g: Worker, g': Worker) {
    && k'.permits - k.permits == g'.permits - g.permits
    && (k'.state == g'.state || (k'.state == k.state && g'.state == g.state))
    && (k'.mode == g'.mode || (k'.mode == k.mode && g'.mode == g.mode))
  }

  lemma {:induction false} AlikeMoveOwn(l: Latch, g: Latch, w: nat, mode: LockMode)
    requires Alike(l, g, w) && CanMove(l, w) && CanMove(g, w) && !l.workers[w].at.WakeScan?
    requires !(l.workers[w].at.WakeMark? || l.workers[w].at.WakeRelease?)
    ensures |Move(l, w, mode).workers| == |l.workers| == |Move(g, w, mode).workers|
    ensures MovesAlike(l.workers[w], Move(l, w, mode).workers[w], g.workers[w], Move(g, w, mode).workers[w])
  {}

  lemma {:induction false} AlikeMoveWaker(l: Latch, g: Latch, w: nat, mode: LockMode)
    requires Alike(l, g, w) && CanMove(l, w) && CanMove(g, w)
    requires l.workers[w].at.WakeScan? || l.workers[w].at.WakeMark? || l.workers[w].at.WakeRelease?
    ensures |Move(l, w, mode).workers| == |l.workers| == |Move(g, w, mode).workers|
    ensures MovesAlike(l.workers[w], Move(l, w, mode).workers[w], g.workers[w], Move(g, w, mode).workers[w])
  {}

  lemma {:induction false} AlikeMoveRecords(l: Latch, g: Latch, w: nat, mode: LockMode, v: nat)
    requires Alike(l, g, w) && CanMove(l, w) && CanMove(g, w) && v < |l.workers|
    ensures |Move(l, w, mode).workers| == |l.workers| == |Move(g, w, mode).workers|
    ensures MovesAlike(l.workers[v], Move(l, w, mode).workers[v], g.workers[v], Move(g, w, mode).workers[v])
  {
    if v != w {
      OtherWorker(l, w, mode, v);
      OtherWorker(g, w, mode, v);
      hide Move, CanMove;
    } else if l.workers[w].at.WakeScan? || l.workers[w].at.WakeMark? || l.workers[w].at.WakeRelease? {
      AlikeMoveWaker(l, g, w, mode);
    } else {
      AlikeMoveOwn(l, g, w, mode);
    }
  }

  /** With the same word, list and state, only the semaphore can hold up a worker in one latch and not in the other. */
  lemma {:induction false} LikeLatchMoves(l: Latch, g: Latch, w: nat)
    requires CanMove(g, w) && l.word == g.word && l.waiters == g.waiters && |l.workers| == |g.workers|
    requires l.workers[w].at == g.workers[w].at && l.workers[w].state == g.workers[w].state
    requires l.workers[w].at.WakeScan? && l.workers[w].at.rest != [] ==> l.workers[w].at.rest[0] in l.waiters
    requires l.workers[w].at.Acquire? || l.workers[w].at.DequeueAcquire? ==> l.workers[w].permits > 0
    ensures CanMove(l, w)
  {}

  /** w's step cannot tell the family's latch from the latch by itself. */
  lemma {:induction false} SplitAlike(m: Family, gs: seq<Latch>, i: nat, w: nat)
    requires Splits(m, gs) && CanAct(m, i, w)
    ensures LatchInv(gs[i]) && Alike(View(m, i), gs[i], w)
  {
    var g := gs[i];
    assert Mirrors(m, i, g) && OneAtATime(m.threads[w]);
    ReachableLatchInv(g);
    assert MirrorsWorker(m.threads[w], i, g.workers[w]);
    if !Busy(g.workers[w].at) { FreeIsNotWaiting(g, w); }
    if g.workers[w].at.WakeScan? && g.workers[w].at.rest != [] { ScannedModesAgree(m, i, g, w); }
    forall v | 0 <= v < |m.threads| ensures View(m, i).workers[v].at == g.workers[v].at {
      assert MirrorsWorker(m.threads[v], i, g.workers[v]);
    }
    hide ReachableLatch, LatchInv, CanMove;
  }

  lemma {:induction false} FreeIsNotWaiting(g: Latch, w: nat)
    requires LatchInv(g) && w < |g.workers| && !Busy(g.workers[w].at)
    ensures g.workers[w].state.NotWaiting?
  {
    assert LocalOk(|g.workers|, g.workers[w]);
  }

  /** Whatever the family's latch can do, the latch by itself can. */
  lemma {:induction false} SplitCanMove(m: Family, gs: seq<Latch>, i: nat, w: nat)
    requires Splits(m, gs) && CanAct(m, i, w)
    ensures LatchInv(gs[i]) && Alike(View(m, i), gs[i], w) && CanMove(gs[i], w)
  {
    SplitAlike(m, gs, i, w);
    var l, g := View(m, i), gs[i];
    var p := g.workers[w].at;
    if p.WakeScan? && p.rest != [] {
      assert Mirrors(m, i, g);
      ScannedModesAgree(m, i, g, w);
    }
    if p.Acquire? || p.DequeueAcquire? {
      PermitsCover(m, gs, i, w);
      assert l.workers[w].permits > 0;
    }
    hide ReachableLatch, LatchInv, Splits, Mirrors, CanMove;
    LikeLatchMoves(g, l, w);
  }

  lemma {:induction false} ScannedModesAgree(m: Family, i: nat, g: Latch, w: nat)
    requires Wellformed(m) && i < |m.locks| && Mirrors(m, i, g) && LatchInv(g)
    requires w < |g.workers| && g.workers[w].at.WakeScan? && g.workers[w].at.rest != []
    ensures var v := g.workers[w].at.rest[0];
      v < |g.workers| && g.workers[v].mode == m.threads[v].mode && v in g.waiters
  {
    var p := g.workers[w].at;
    assert FlagsOk(g, p);
    assert p.rest[0] == g.waiters[|g.waiters| - |p.rest|];
    var v := p.rest[0];
    assert v in g.waiters;
    assert QueueOk(g, v) && MirrorsWorker(m.threads[v], i, g.workers[v]);
  }

  /** A permit in the semaphore is one the latch by itself has, since the other latches add none. */
  lemma {:induction false} PermitsCover(m: Family, gs: seq<Latch>, i: nat, w: nat)
    requires Splits(m, gs) && i < |gs| && w < |m.threads|
    requires forall j :: 0 <= j < |gs| && j != i ==> !Busy(m.threads[w].at[j])
    ensures w < |gs[i].workers| && m.threads[w].permits <= gs[i].workers[w].permits
  {
    forall j | 0 <= j < |gs| ensures w < |gs[j].workers| && (j != i ==> gs[j].workers[w].permits <= 1) {
      assert Mirrors(m, j, gs[j]);
      ReachableLatchInv(gs[j]);
      assert PermitsOk(gs[j], w) && MirrorsWorker(m.threads[w], j, gs[j].workers[w]);
    }
    BalanceBound(gs, i, w);
  }

  lemma {:induction false} LatchReaches(l: Latch, w: nat, mode: LockMode)
    requires ReachableLatch(l) && CanMove(l, w)
    ensures ReachableLatch(Move(l, w, mode))
  {
    hide Move, CanMove, CanRun, Run;
    var n: nat, turns: seq<Turn> :| CanRun(InitialLatch(n), turns) && l == Run(InitialLatch(n), turns);
    RunAppends(InitialLatch(n), turns, Turn(w, mode));
  }

  /** Whoever else's state a step changes is inside the latch. */
  lemma {:induction false} ChangedIsBusy(l: Latch, g: Latch, w: nat, mode: LockMode, v: nat)
    requires LatchInv(g) && Alike(l, g, w) && CanMove(l, w) && CanMove(g, w) && v < |l.workers| && v != w
    ensures |Move(l, w, mode).workers| == |l.workers|
    ensures Move(l, w, mode).workers[v].state != l.workers[v].state ==> Busy(l.workers[v].at)
    ensures Move(l, w, mode).workers[v].mode == l.workers[v].mode
  {
    OtherWorker(l, w, mode, v);
    var p := g.workers[w].at;
    assert Victim(p, l) == Victim(p, g);
    if p.WakeScan? && Victim(p, g) == v { TakenWaits(g, w); }
    if p.WakeMark? && p.v == v { MarkedPends(g, w); }
    hide Move, CanMove, LatchInv;
  }

  /** A worker's mode is set on its way into the list. */
  lemma {:induction false} QueueSetsMode(l: Latch, w: nat, mode: LockMode)
    requires CanMove(l, w)
    ensures |Move(l, w, mode).workers| == |l.workers|
    ensures var p := l.workers[w].at; var k' := Move(l, w, mode).workers[w];
      && (Enqueued(k'.at) || k'.at.QueuePush? ==> Enqueued(p) || p.QueuePush? || p.QueueMode?)
      && (p.QueueMode? ==> k'.mode == p.m)
  {}

  function RecordIn(t: Thread, i: nat): Worker
    requires i < |t.at|
  {
    Worker(t.at[i], t.state, t.mode, t.permits)
  }

  function WithRecord(t: Thread, i: nat, k: Worker): Thread
    requires i < |t.at|
  {
    Thread(t.at[i := k.at], k.state, k.mode, k.permits)
  }

  /** A record that moves alike still agrees, whether its owner moved or not. */
  lemma {:induction false} RecordMirrors(t: Thread, i: nat, k: Worker, g: Worker, g': Worker)
    requires i < |t.at| && MirrorsWorker(t, i, g) && MovesAlike(RecordIn(t, i), k, g, g') && k.at == g'.at
    requires g'.at == g.at ||
      (t.state == g.state && (Enqueued(k.at) || k.at.QueuePush? ==>
        Enqueued(g.at) || g.at.QueuePush? || k.mode == g'.mode))
    ensures MirrorsWorker(WithRecord(t, i, k), i, g')
  {}

  lemma {:induction false} MovedWorkerMirrors(m: Family, gs: seq<Latch>, i: nat, w: nat, mode: LockMode, v: nat)
    requires Splits(m, gs) && CanAct(m, i, w) && CanMove(gs[i], w) && v < |m.threads|
    ensures |Move(gs[i], w, mode).workers| == |m.threads|
    ensures MirrorsWorker(Act(m, i, w, mode).threads[v], i, Move(gs[i], w, mode).workers[v])
  {
    var l, g := View(m, i), gs[i];
    SplitCanMove(m, gs, i, w);
    assert Mirrors(m, i, g);
    assert MirrorsWorker(m.threads[v], i, g.workers[v]);
    assert Alike(l, g, w) && l.workers[v] == RecordIn(m.threads[v], i);
    MoveKeepsSize(l, w, mode);
    hide Move, CanMove, ReachableLatch, LatchInv, MirrorsWorker, Splits, Mirrors, MovesAlike;
    AlikeMoveAlike(l, g, w, mode);
    AlikeMoveRecords(l, g, w, mode, v);
    if v == w {
      QueueSetsMode(l, w, mode);
      QueueSetsMode(g, w, mode);
    } else {
      OnlyMoverMoves(g, w, mode);
    }
    RecordMirrors(m.threads[v], i, Move(l, w, mode).workers[v], g.workers[v], Move(g, w, mode).workers[v]);
  }

  /** The latch that moved still is the family's latch i. */
  lemma {:induction false} MovedMirrors(m: Family, gs: seq<Latch>, i: nat, w: nat, mode: LockMode)
    requires Splits(m, gs) && CanAct(m, i, w) && CanMove(gs[i], w)
    ensures Mirrors(Act(m, i, w, mode), i, Move(gs[i], w, mode))
  {
    var l, g := View(m, i), gs[i];
    SplitCanMove(m, gs, i, w);
    assert Mirrors(m, i, g);
    MoveKeepsSize(l, w, mode);
    hide Move, CanMove, ReachableLatch, LatchInv, MirrorsWorker, Splits, Alike;
    LatchReaches(g, w, mode);
    AlikeMoveAlike(l, g, w, mode);
    forall v | 0 <= v < |m.threads|
      ensures MirrorsWorker(Act(m, i, w, mode).threads[v], i, Move(g, w, mode).workers[v])
    {
      MovedWorkerMirrors(m, gs, i, w, mode, v);
    }
  }

  /** The other latches still are theirs: nobody inside one of them was touched. */
  lemma {:induction false} OthersMirror(m: Family, gs: seq<Latch>, i: nat, w: nat, mode: LockMode, j: nat)
    requires Splits(m, gs) && CanAct(m, i, w) && CanMove(gs[i], w) && j < |gs| && j != i
    ensures Mirrors(Act(m, i, w, mode), j, gs[j])
  {
    assert Mirrors(m, j, gs[j]);
    MoveKeepsSize(View(m, i), w, mode);
    var m' := Act(m, i, w, mode);
    assert m'.locks[j] == m.locks[j];
    hide Move, CanMove, ReachableLatch, MirrorsWorker, Splits, CanAct;
    forall v | 0 <= v < |m'.threads| ensures MirrorsWorker(m'.threads[v], j, gs[j].workers[v]) {
      OthersMirrorWorker(m, gs, i, w, mode, j, v);
    }
  }

  /** A step in latch i leaves alone the state and mode of a worker outside it. */
  lemma {:induction false} OutsidersKept(m: Family, gs: seq<Latch>, i: nat, w: nat, mode: LockMode, v: nat)
    requires Splits(m, gs) && CanAct(m, i, w) && CanMove(gs[i], w) && v < |m.threads| && v != w
    requires !Busy(m.threads[v].at[i])
    ensures var t' := Act(m, i, w, mode).threads[v];
      t'.state == m.threads[v].state && t'.mode == m.threads[v].mode
  {
    var l := View(m, i);
    SplitCanMove(m, gs, i, w);
    MoveKeepsSize(l, w, mode);
    hide Move, CanMove, LatchInv, Splits, Alike;
    ChangedIsBusy(l, gs[i], w, mode, v);
  }

  lemma {:induction false} OtherPointsStay(m: Family, i: nat, w: nat, mode: LockMode, j: nat, v: nat)
    requires CanAct(m, i, w) && j < |m.locks| && j != i && v < |m.threads|
    ensures var m' := Act(m, i, w, mode);
      |m'.threads| == |m.threads| && |m'.threads[v].at| == |m.locks| && m'.threads[v].at[j] == m.threads[v].at[j]
  {
    MoveKeepsSize(View(m, i), w, mode);
    hide Move, CanMove;
  }

  lemma {:induction false} OthersMirrorWorker(m: Family, gs: seq<Latch>, i: nat, w: nat, mode: LockMode, j: nat, v: nat)
    requires Splits(m, gs) && CanAct(m, i, w) && CanMove(gs[i], w) && j < |gs| && j != i && v < |m.threads|
    ensures |Act(m, i, w, mode).threads| == |m.threads| && j < |Act(m, i, w, mode).threads[v].at|
    ensures v < |gs[j].workers| && MirrorsWorker(Act(m, i, w, mode).threads[v], j, gs[j].workers[v])
  {
    assert Mirrors(m, j, gs[j]);
    assert MirrorsWorker(m.threads[v], j, gs[j].workers[v]) && OneAtATime(m.threads[v]);
    var t := m.threads[v];
    assert j < |m.locks| == |t.at| && v < |gs[j].workers|;
    assert Busy(t.at[j]) ==> v != w && !Busy(t.at[i]);
    hide Act, Splits, Mirrors, CanAct, OneAtATime, CanMove;
    OtherPointsStay(m, i, w, mode, j, v);
    if Busy(t.at[j]) { OutsidersKept(m, gs, i, w, mode, v); }
  }

  lemma {:induction false} StaysOneAtATime(m: Family, gs: seq<Latch>, i: nat, w: nat, mode: LockMode, v: nat)
    requires Splits(m, gs) && CanAct(m, i, w) && CanMove(gs[i], w) && v < |m.threads|
    ensures OneAtATime(Act(m, i, w, mode).threads[v])
  {
    var l, g := View(m, i), gs[i];
    SplitCanMove(m, gs, i, w);
    MoveKeepsSize(l, w, mode);
    assert OneAtATime(m.threads[v]);
    if v == w {
      MoverLeavesNoTrace(m, gs, i, w, mode);
      hide Move, CanMove, LatchInv, Splits, Alike;
    } else {
      hide Move, CanMove, LatchInv, Splits, Alike;
      OnlyMoverMoves(l, w, mode);
      ChangedIsBusy(l, g, w, mode, v);
      assert Act(m, i, w, mode).threads[v].at == m.threads[v].at;
    }
  }

  /** A worker that leaves the latch is NotWaiting. */
  lemma {:induction false} MoverLeavesNoTrace(m: Family, gs: seq<Latch>, i: nat, w: nat, mode: LockMode)
    requires Splits(m, gs) && CanAct(m, i, w) && CanMove(gs[i], w)
    ensures var t := Act(m, i, w, mode).threads[w]; !Busy(t.at[i]) ==> t.state.NotWaiting?
  {
    var l, g := View(m, i), gs[i];
    SplitCanMove(m, gs, i, w);
    MoveKeepsSize(l, w, mode);
    assert l.workers[w].state == g.workers[w].state;
    hide Move, CanMove, LatchInv, Splits, Alike, Busy;
    LatchStep(g, w, mode);
    AlikeMoveAlike(l, g, w, mode);
    AlikeMoveRecords(l, g, w, mode, w);
    var g' := Move(g, w, mode);
    if !Busy(g'.workers[w].at) { FreeIsNotWaiting(g', w); }
  }

  lemma {:induction false} SplitStep(m: Family, gs: seq<Latch>, i: nat, w: nat, mode: LockMode)
    requires Splits(m, gs) && CanAct(m, i, w)
    ensures CanMove(gs[i], w) && Splits(Act(m, i, w, mode), gs[i := Move(gs[i], w, mode)])
  {
    SplitCanMove(m, gs, i, w);
    var l, g := View(m, i), gs[i];
    var m', g' := Act(m, i, w, mode), Move(g, w, mode);
    var gs' := gs[i := g'];
    hide Move, CanMove, LatchInv, Mirrors, OneAtATime, CanAct;
    MovedMirrors(m, gs, i, w, mode);
    forall j | 0 <= j < |gs'| ensures Mirrors(m', j, gs'[j]) {
      if j != i { OthersMirror(m, gs, i, w, mode, j); }
    }
    forall v | 0 <= v < |m'.threads| ensures OneAtATime(m'.threads[v]) {
      StaysOneAtATime(m, gs, i, w, mode, v);
    }
    SameSizes(m, gs);
    MoveKeepsSize(l, w, mode);
    forall v | 0 <= v < |m'.threads| ensures v < |g'.workers| && m'.threads[v].permits == 1 + Balance(gs', v) {
      AlikeMoveRecords(l, g, w, mode, v);
      BalanceChange(gs, i, g', v);
    }
  }

  lemma {:induction false} SameSizes(m: Family, gs: seq<Latch>)
    requires Splits(m, gs)
    ensures forall i :: 0 <= i < |gs| ==> |gs[i].workers| == |m.threads|
  {
    forall i | 0 <= i < |gs| ensures |gs[i].workers| == |m.threads| { assert Mirrors(m, i, gs[i]); }
  }

  // ---- Every run ---------------------------------------------------------------------------

  lemma {:induction false} InitialSplits(latches: nat, n: nat)
    ensures Splits(InitialFamily(latches, n), seq(latches, _ => InitialLatch(n)))
  {
    var m := InitialFamily(latches, n);
    var gs := seq(latches, _ => InitialLatch(n));
    forall i | 0 <= i < latches ensures Mirrors(m, i, gs[i]) {
      var none: seq<Turn> := [];
      assert CanRun(InitialLatch(n), none) && gs[i] == Run(InitialLatch(n), none);
    }
    forall v | 0 <= v < n ensures Balance(gs, v) == 0 { BalancedAtFirst(gs, v); }
  }

  lemma {:induction false} BalancedAtFirst(gs: seq<Latch>, v: nat)
    requires forall j :: 0 <= j < |gs| ==> v < |gs[j].workers| && gs[j].workers[v].permits == 1
    ensures Balance(gs, v) == 0
  {
    if gs != [] { BalancedAtFirst(gs[1..], v); }
  }

  /** Every run of the family splits into a run of each latch. */
  lemma {:induction false} RunSplits(m: Family, gs: seq<Latch>, deeds: seq<Deed>) returns (gs': seq<Latch>)
    requires Splits(m, gs) && CanPerform(m, deeds)
    ensures Splits(Perform(m, deeds), gs')
    decreases |deeds|
  {
    hide Splits, CanAct, Act, CanMove, Move;
    if deeds == [] {
      gs' := gs;
    } else {
      var i, w, mode := deeds[0].latch, deeds[0].worker, deeds[0].mode;
      assert i < |gs| by { LatchesCount(m, gs, i, w); }
      SplitStep(m, gs, i, w, mode);
      gs' := RunSplits(Act(m, i, w, mode), gs[i := Move(gs[i], w, mode)], deeds[1..]);
    }
  }

  lemma {:induction false} LatchesCount(m: Family, gs: seq<Latch>, i: nat, w: nat)
    requires Splits(m, gs) && CanAct(m, i, w)
    ensures i < |gs|
  {}

  ghost predicate ReachableFamily(m: Family) {
    exists latches: nat, n: nat, deeds ::
      CanPerform(InitialFamily(latches, n), deeds) && Perform(InitialFamily(latches, n), deeds) == m
  }

  lemma {:induction false} ReachableSplits(m: Family) returns (gs: seq<Latch>)
    requires ReachableFamily(m)
    ensures Splits(m, gs)
  {
    hide Splits, CanPerform, Perform;
    var latches: nat, n: nat, deeds :|
      CanPerform(InitialFamily(latches, n), deeds) && Perform(InitialFamily(latches, n), deeds) == m;
    InitialSplits(latches, n);
    gs := RunSplits(InitialFamily(latches, n), seq(latches, _ => InitialLatch(n)), deeds);
  }
}
