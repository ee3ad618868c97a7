/**
 The latch's lists as the code keeps them: one node per worker, a head and a tail
 for the waiters and for each waker's private list, all wakers writing the same
 nodes.  In every run the pointers hold exactly the lists of the protocol.
 */
module LatchPointers {
  import opened LockLists
  import opened LatchWords
  import opened Latches
  import opened LatchInvariant

  /** own[w] is the list that worker w builds while it wakes others. */
  datatype Pointers = Pointers(nodes: seq<LockListNode>, waiters: Ends, own: seq<Ends>)

  function InitialPointers(n: nat): Pointers {
    Pointers(seq(n, _ => UNLINKED), EMPTY, seq(n, _ => EMPTY))
  }

  predicate Pushable(ps: Pointers, ends: Ends, id: nat) {
    id < |ps.nodes| && (ends.tail == NOBODY || 0 <= ends.tail < |ps.nodes|)
  }

  function PushWaiter(ps: Pointers, id: nat): Pointers
    requires Pushable(ps, ps.waiters, id)
  {
    var (nodes, ends) := AfterPush(ps.nodes, ps.waiters, id);
    Pointers(nodes, ends, ps.own)
  }

  function DeleteWaiter(ps: Pointers, id: nat): Pointers
    requires Deletable(ps.nodes, id)
  {
    var (nodes, ends) := AfterDelete(ps.nodes, ps.waiters, id);
    Pointers(nodes, ends, ps.own)
  }

  function PushOwn(ps: Pointers, w: nat, id: nat): Pointers
    requires w < |ps.own| && Pushable(ps, ps.own[w], id)
  {
    var (nodes, ends) := AfterPush(ps.nodes, ps.own[w], id);
    Pointers(nodes, ps.waiters, ps.own[w := ends])
  }

  function DeleteOwn(ps: Pointers, w: nat, id: nat): Pointers
    requires w < |ps.own| && Deletable(ps.nodes, id)
  {
    var (nodes, ends) := AfterDelete(ps.nodes, ps.own[w], id);
    Pointers(nodes, ps.waiters, ps.own[w := ends])
  }

  // ---- Pointers and the lists they hold ------------------------------------------

  /** The pointers hold these disjoint lists; a node in none of them is unlinked. */
  ghost predicate Tidy(ps: Pointers, waiting: seq<nat>, private: seq<seq<nat>>) {
    && |ps.nodes| <= |ps.own| == |private|
    && Linked(ps.nodes, ps.waiters, waiting)
    && (forall w :: 0 <= w < |private| ==> Linked(ps.nodes, ps.own[w], private[w]))
    && (forall w, v :: 0 <= w < |private| && v in private[w] ==> v !in waiting)
    && (forall u, w, v :: 0 <= u < |private| && 0 <= w < |private| && u != w && v in private[u] ==> v !in private[w])
    && (forall v :: 0 <= v < |ps.nodes| && v !in waiting && NotIn(v, private) ==> ps.nodes[v] == UNLINKED)
  }

  ghost predicate NotIn(v: nat, private: seq<seq<nat>>) {
    forall w :: 0 <= w < |private| ==> v !in private[w]
  }

  lemma {:induction false} TidyPushWaiter(ps: Pointers, waiting: seq<nat>, private: seq<seq<nat>>, id: nat)
    requires Tidy(ps, waiting, private) && id < |ps.nodes| && id !in waiting && NotIn(id, private)
    ensures Pushable(ps, ps.waiters, id) && Tidy(PushWaiter(ps, id), waiting + [id], private)
  {
    hide Linked, AfterPush;
    PushTailLinks(ps.nodes, ps.waiters, waiting, id);
    var ps' := PushWaiter(ps, id);
    forall w | 0 <= w < |private| ensures Linked(ps'.nodes, ps'.own[w], private[w]) {
      PushKeepsOthers(ps.nodes, ps.waiters, waiting, id, ps.own[w], private[w]);
    }
  }

  lemma {:induction false} TidyDeleteWaiter(ps: Pointers, waiting: seq<nat>, private: seq<seq<nat>>, k: nat)
    requires Tidy(ps, waiting, private) && k < |waiting|
    ensures Deletable(ps.nodes, waiting[k]) && Tidy(DeleteWaiter(ps, waiting[k]), Without(waiting, k), private)
    ensures waiting[k] < |ps.nodes| && waiting[k] !in Without(waiting, k) && NotIn(waiting[k], private)
  {
    hide Linked, AfterDelete, Deletable, Without;
    DeleteUnlinks(ps.nodes, ps.waiters, waiting, k);
    WithoutKeeps(ps.nodes, ps.waiters, waiting, k);
    var id := waiting[k];
    assert id in waiting;
    LinkedEnds(ps.nodes, ps.waiters, waiting);
    var ps' := DeleteWaiter(ps, id);
    forall w | 0 <= w < |private| ensures Linked(ps'.nodes, ps'.own[w], private[w]) {
      DeleteKeepsOthers(ps.nodes, ps.waiters, waiting, k, ps.own[w], private[w]);
    }
    OthersStay(waiting, k);
  }

  lemma {:induction false} OthersStay(ids: seq<nat>, k: nat)
    requires k < |ids|
    ensures forall v :: v in ids && v != ids[k] ==> v in Without(ids, k)
  {
    forall v | v in ids && v != ids[k] ensures v in Without(ids, k) {
      var i :| 0 <= i < |ids| && ids[i] == v;
      assert Without(ids, k)[if i < k then i else i - 1] == v;
    }
  }

  lemma {:induction false} TidyPushOwn(ps: Pointers, waiting: seq<nat>, private: seq<seq<nat>>, w: nat, id: nat)
    requires Tidy(ps, waiting, private) && w < |private| && id < |ps.nodes| && id !in waiting && NotIn(id, private)
    ensures Pushable(ps, ps.own[w], id)
    ensures Tidy(PushOwn(ps, w, id), waiting, private[w := private[w] + [id]])
  {
    hide Linked, AfterPush;
    PushTailLinks(ps.nodes, ps.own[w], private[w], id);
    PushKeepsOthers(ps.nodes, ps.own[w], private[w], id, ps.waiters, waiting);
    var ps' := PushOwn(ps, w, id);
    var private' := private[w := private[w] + [id]];
    forall u | 0 <= u < |private| ensures Linked(ps'.nodes, ps'.own[u], private'[u]) {
      if u != w { PushKeepsOthers(ps.nodes, ps.own[w], private[w], id, ps.own[u], private[u]); }
    }
    forall v | 0 <= v < |ps.nodes| && v !in waiting && NotIn(v, private') ensures ps'.nodes[v] == UNLINKED {
      assert v !in private'[w];
      forall u | 0 <= u < |private| ensures v !in private[u] { assert v !in private'[u]; }
    }
  }

  lemma {:induction false} TidyPopOwn(ps: Pointers, waiting: seq<nat>, private: seq<seq<nat>>, w: nat)
    requires Tidy(ps, waiting, private) && w < |private| && private[w] != []
    ensures Deletable(ps.nodes, private[w][0])
    ensures Tidy(DeleteOwn(ps, w, private[w][0]), waiting, private[w := private[w][1..]])
  {
    hide Linked, AfterDelete, Deletable;
    var own: seq<nat> := private[w];
    var id := own[0];
    assert Without(own, 0) == own[1..];
    DeleteUnlinks(ps.nodes, ps.own[w], own, 0);
    DeleteKeepsOthers(ps.nodes, ps.own[w], own, 0, ps.waiters, waiting);
    var ps' := DeleteOwn(ps, w, id);
    var private' := private[w := own[1..]];
    forall u | 0 <= u < |private| ensures Linked(ps'.nodes, ps'.own[u], private'[u]) {
      if u != w { DeleteKeepsOthers(ps.nodes, ps.own[w], own, 0, ps.own[u], private[u]); }
    }
    forall v | 0 <= v < |ps.nodes| && v !in waiting && NotIn(v, private') ensures ps'.nodes[v] == UNLINKED {
      forall u | 0 <= u < |private| && u != w ensures v !in private[u] { assert v !in private'[u]; }
      assert v !in own[1..] by { assert v !in private'[w]; }
      if v != id { assert v !in own; }
    }
  }

  // ---- The pointers along a run ------------------------------------------------------

  /** w's scan moves the waiter it looks at to w's own list. */
  predicate Takes(l: Latch, w: nat)
    requires w < |l.workers|
  {
    l.workers[w].at.WakeScan? && Victim(l.workers[w].at, l) < |l.workers|
  }

  /** The pointers w's step follows lead to nodes of the table. */
  predicate CanPoint(ps: Pointers, l: Latch, w: nat)
    requires CanMove(l, w)
  {
    var p := l.workers[w].at;
    && (p.QueuePush? ==> Pushable(ps, ps.waiters, w))
    && (p.DequeueCheck? && l.workers[w].state.Waiting? ==> Deletable(ps.nodes, w))
    && (Takes(l, w) ==> Deletable(ps.nodes, p.rest[0]) && w < |ps.own|
                        && Pushable(DeleteWaiter(ps, p.rest[0]), ps.own[w], p.rest[0]))
    && (p.WakeNext? && p.taken != [] ==> w < |ps.own| && ps.own[w].head >= 0 && Deletable(ps.nodes, ps.own[w].head))
  }

  /** The list operations of w's step; a waker deletes the head of its own list. */
  function Repoint(ps: Pointers, l: Latch, w: nat): Pointers
    requires CanMove(l, w) && CanPoint(ps, l, w)
  {
    var p := l.workers[w].at;
    if p.QueuePush? then PushWaiter(ps, w)
    else if p.DequeueCheck? && l.workers[w].state.Waiting? then DeleteWaiter(ps, w)
    else if Takes(l, w) then PushOwn(DeleteWaiter(ps, p.rest[0]), w, p.rest[0])
    else if p.WakeNext? && p.taken != [] then DeleteOwn(ps, w, ps.own[w].head)
    else ps
  }

  function PrivateLists(l: Latch): (r: seq<seq<nat>>)
    ensures |r| == |l.workers| && forall w :: 0 <= w < |r| ==> r[w] == PrivateList(l.workers[w].at)
  {
    seq(|l.workers|, w requires 0 <= w < |l.workers| => PrivateList(l.workers[w].at))
  }

  /** The lists of the protocol before and after a step of w. */
  ghost predicate ListsChange(l: Latch, l': Latch, w: nat)
    requires w < |l.workers| == |l'.workers|
  {
    var p := l.workers[w].at;
    var own := PrivateList(p);
    var own' := PrivateList(l'.workers[w].at);
    if p.QueuePush? then l'.waiters == l.waiters + [w] && own' == own
    else if p.DequeueCheck? && l.workers[w].state.Waiting? then
      w in l.waiters && l'.waiters == Without(l.waiters, IndexOf(l.waiters, w)) && own' == own
    else if Takes(l, w) then
      p.rest != [] && p.rest[0] == Victim(p, l) && p.rest[0] in l.waiters && own' == own + [p.rest[0]] &&
      l'.waiters == Without(l.waiters, IndexOf(l.waiters, p.rest[0]))
    else if p.WakeNext? && p.taken != [] then l'.waiters == l.waiters && own == p.taken && own' == own[1..]
    else l'.waiters == l.waiters && own' == own
  }

  lemma {:induction false} ListsMove(l: Latch, w: nat, mode: LockMode)
    requires CanMove(l, w) && LocalOk(|l.workers|, l.workers[w]) && Victim(l.workers[w].at, l) != w
    ensures |Move(l, w, mode).workers| == |l.workers| && ListsChange(l, Move(l, w, mode), w)
  {
    var p := l.workers[w].at;
    OnlyMoverMoves(l, w, mode);
    if p.WakeScan? {
      ScanEffect(l, w, mode);
      ScanKeepsPrivate(l, w, mode);
    } else if Wakes(p) && !p.WakeLock? {
      WakerPath(l, w, mode);
      WaitersStay(l, w, mode);
    } else {
      NothingInHand(l, w, mode);
      WaitersStay(l, w, mode);
    }
    hide Move;
  }

  lemma {:induction false} WaitersStay(l: Latch, w: nat, mode: LockMode)
    requires CanMove(l, w)
    ensures var p := l.workers[w].at; var l' := Move(l, w, mode);
      && (p.QueuePush? ==> l'.waiters == l.waiters + [w])
      && (p.DequeueCheck? && l.workers[w].state.Waiting? ==>
            w in l.waiters && l'.waiters == Without(l.waiters, IndexOf(l.waiters, w)))
      && (!p.QueuePush? && !p.WakeScan? && !(p.DequeueCheck? && l.workers[w].state.Waiting?) ==>
        l'.waiters == l.waiters)
  {}

  lemma {:induction false} PrivateListsMove(l: Latch, w: nat, mode: LockMode)
    requires CanMove(l, w)
    ensures |Move(l, w, mode).workers| == |l.workers|
    ensures PrivateLists(Move(l, w, mode)) == PrivateLists(l)[w := PrivateList(Move(l, w, mode).workers[w].at)]
  {
    OnlyMoverMoves(l, w, mode);
    hide Move, PrivateList;
  }

  /** A worker about to queue itself is in no list. */
  lemma {:induction false} QueuesUnlinked(l: Latch, w: nat)
    requires LatchInv(l) && w < |l.workers| && l.workers[w].at.QueuePush?
    ensures w !in l.waiters && NotIn(w, PrivateLists(l))
  {
    assert QueueOk(l, w) && PrivateOk(l, w) && LocalOk(|l.workers|, l.workers[w]);
    forall u | 0 <= u < |l.workers| ensures w !in PrivateList(l.workers[u].at) {
      SumCovers(InPrivateLists(w), l.workers, u, u);
    }
  }

  lemma {:induction false} TidySize(ps: Pointers, waiting: seq<nat>, private: seq<seq<nat>>)
    requires Tidy(ps, waiting, private)
    ensures |ps.nodes| <= |ps.own| == |private|
  {}

  /** The head of a waker's own list is the worker it takes off next. */
  lemma {:induction false} OwnHead(ps: Pointers, waiting: seq<nat>, private: seq<seq<nat>>, w: nat)
    requires w < |private| && Tidy(ps, waiting, private)
    ensures w < |ps.own| && ps.own[w].head == if private[w] == [] then NOBODY else private[w][0]
  {
    LinkedEnds(ps.nodes, ps.own[w], private[w]);
  }

  /** private holds the lists of all wakers, among them w's own. */
  ghost predicate Holds(ps: Pointers, l: Latch, private: seq<seq<nat>>, w: nat) {
    && w < |l.workers| && w < |private| && w < |ps.nodes| && Tidy(ps, l.waiters, private)
    && private[w] == PrivateList(l.workers[w].at)
  }

  lemma {:induction false} FollowPush(ps: Pointers, l: Latch, private: seq<seq<nat>>, w: nat)
    requires CanMove(l, w) && l.workers[w].at.QueuePush? && Holds(ps, l, private, w)
    requires w !in l.waiters && NotIn(w, private)
    ensures CanPoint(ps, l, w) && Tidy(Repoint(ps, l, w), l.waiters + [w], private)
  {
    hide Tidy, PushWaiter;
    TidyPushWaiter(ps, l.waiters, private, w);
  }

  lemma {:induction false} FollowDelete(ps: Pointers, l: Latch, private: seq<seq<nat>>, w: nat)
    requires CanMove(l, w) && l.workers[w].at.DequeueCheck? && l.workers[w].state.Waiting?
    requires Holds(ps, l, private, w) && w in l.waiters
    ensures CanPoint(ps, l, w)
    ensures Tidy(Repoint(ps, l, w), Without(l.waiters, IndexOf(l.waiters, w)), private)
  {
    hide Tidy, DeleteWaiter;
    TidyDeleteWaiter(ps, l.waiters, private, IndexOf(l.waiters, w));
  }

  lemma {:induction false} FollowTake(ps: Pointers, l: Latch, private: seq<seq<nat>>, w: nat)
    requires CanMove(l, w) && Takes(l, w) && Holds(ps, l, private, w) && l.workers[w].at.rest[0] in l.waiters
    ensures CanPoint(ps, l, w)
    ensures var v := l.workers[w].at.rest[0];
      Tidy(Repoint(ps, l, w), Without(l.waiters, IndexOf(l.waiters, v)), private[w := private[w] + [v]])
  {
    var v := l.workers[w].at.rest[0];
    var k := IndexOf(l.waiters, v);
    hide Tidy, DeleteWaiter, PushOwn, Deletable, Pushable;
    TidyDeleteWaiter(ps, l.waiters, private, k);
    TidySize(ps, l.waiters, private);
    TidySize(DeleteWaiter(ps, v), Without(l.waiters, k), private);
    TidyPushOwn(DeleteWaiter(ps, v), Without(l.waiters, k), private, w, v);
  }

  lemma {:induction false} FollowPop(ps: Pointers, l: Latch, private: seq<seq<nat>>, w: nat)
    requires CanMove(l, w) && l.workers[w].at.WakeNext? && l.workers[w].at.taken != [] && Holds(ps, l, private, w)
    ensures CanPoint(ps, l, w)
    ensures Tidy(Repoint(ps, l, w), l.waiters, private[w := private[w][1..]])
  {
    OwnHead(ps, l.waiters, private, w);
    hide Tidy, DeleteOwn;
    TidyPopOwn(ps, l.waiters, private, w);
  }

  lemma {:induction false} PointersFollow(ps: Pointers, l: Latch, w: nat, mode: LockMode)
    requires LatchInv(l) && CanMove(l, w) && Tidy(ps, l.waiters, PrivateLists(l)) && |ps.nodes| == |l.workers|
    ensures CanPoint(ps, l, w) && |Repoint(ps, l, w).nodes| == |ps.nodes|
    ensures Tidy(Repoint(ps, l, w), Move(l, w, mode).waiters, PrivateLists(Move(l, w, mode)))
  {
    var p := l.workers[w].at;
    assert LocalOk(|l.workers|, l.workers[w]);
    if Takes(l, w) { TakenWaits(l, w); }
    if p.WakeMark? { MarkedPends(l, w); }
    if p.QueuePush? { QueuesUnlinked(l, w); }
    ListsMove(l, w, mode);
    PrivateListsMove(l, w, mode);
    hide *;
    assert w < |l.workers| by { MoverExists(l, w); }
    Follow(ps, l, Move(l, w, mode), PrivateLists(l), w);
  }

  lemma {:induction false} MoverExists(l: Latch, w: nat)
    requires CanMove(l, w)
    ensures w < |l.workers|
  {}

  /** The list operations of a step carry the pointers from l's lists to those of l'. */
  lemma {:induction false} Follow(ps: Pointers, l: Latch, l': Latch, private: seq<seq<nat>>, w: nat)
    requires CanMove(l, w) && w < |private| && w < |ps.nodes| && Tidy(ps, l.waiters, private)
    requires |l'.workers| == |l.workers| && private[w] == PrivateList(l.workers[w].at)
    requires l.workers[w].at.QueuePush? ==> w !in l.waiters && NotIn(w, private)
    requires ListsChange(l, l', w)
    ensures CanPoint(ps, l, w) && |Repoint(ps, l, w).nodes| == |ps.nodes|
    ensures Tidy(Repoint(ps, l, w), l'.waiters, private[w := PrivateList(l'.workers[w].at)])
  {
    var p := l.workers[w].at;
    assert private[w := private[w]] == private;
    if p.QueuePush? {
      FollowPush(ps, l, private, w);
    } else if p.DequeueCheck? && l.workers[w].state.Waiting? {
      FollowDelete(ps, l, private, w);
    } else if Takes(l, w) {
      FollowTake(ps, l, private, w);
    } else if p.WakeNext? && p.taken != [] {
      FollowPop(ps, l, private, w);
    }
    RepointKeepsSize(ps, l, w);
    hide Tidy, Repoint, CanMove, Victim;
  }

  lemma {:induction false} RepointKeepsSize(ps: Pointers, l: Latch, w: nat)
    requires CanMove(l, w) && CanPoint(ps, l, w)
    ensures |Repoint(ps, l, w).nodes| == |ps.nodes| && |Repoint(ps, l, w).own| == |ps.own|
    ensures forall v :: 0 <= v < |ps.own| && v != w ==> Repoint(ps, l, w).own[v] == ps.own[v]
  {}

  /** Every pointer the run follows leads to a node. */
  ghost predicate PointsWell(ps: Pointers, l: Latch, turns: seq<Turn>)
    requires CanRun(l, turns)
    decreases |turns|
  {
    turns == [] ||
    (CanPoint(ps, l, turns[0].worker) &&
     PointsWell(Repoint(ps, l, turns[0].worker), Move(l, turns[0].worker, turns[0].mode), turns[1..]))
  }

  ghost function RunPointers(ps: Pointers, l: Latch, turns: seq<Turn>): Pointers
    requires CanRun(l, turns) && PointsWell(ps, l, turns)
    decreases |turns|
  {
    if turns == [] then ps
    else RunPointers(Repoint(ps, l, turns[0].worker), Move(l, turns[0].worker, turns[0].mode), turns[1..])
  }

  /**
   For any number of workers and any interleaving, the shared nodes hold the waiters
   list and every waker's private list, doubly linked, in order and disjoint.
   */
  lemma {:induction false} PointersHoldTheLists(ps: Pointers, l: Latch, turns: seq<Turn>)
    requires LatchInv(l) && Tidy(ps, l.waiters, PrivateLists(l)) && |ps.nodes| == |l.workers| && CanRun(l, turns)
    ensures PointsWell(ps, l, turns) && |RunPointers(ps, l, turns).nodes| == |ps.nodes|
    ensures Tidy(RunPointers(ps, l, turns), Run(l, turns).waiters, PrivateLists(Run(l, turns)))
    decreases |turns|
  {
    hide LatchInv, Tidy, Move, CanMove, Repoint, CanPoint, PrivateLists;
    if turns != [] {
      var w, mode := turns[0].worker, turns[0].mode;
      PointersFollow(ps, l, w, mode);
      LatchStep(l, w, mode);
      OnlyMoverMoves(l, w, mode);
      PointersHoldTheLists(Repoint(ps, l, w), Move(l, w, mode), turns[1..]);
    }
  }

  lemma {:induction false} InitialTidy(n: nat)
    ensures var l := InitialLatch(n); Tidy(InitialPointers(n), l.waiters, PrivateLists(l))
  {
    var l := InitialLatch(n);
    assert forall w :: 0 <= w < n ==> PrivateLists(l)[w] == [];
  }

  /** A worker that others see as NotWaiting has its node out of every list: it may queue again at once. */
  lemma {:induction false} NotWaitingIsUnlinked(n: nat, turns: seq<Turn>, v: nat)
    requires CanRun(InitialLatch(n), turns) && v < n
    ensures PointsWell(InitialPointers(n), InitialLatch(n), turns)
    ensures var l := Run(InitialLatch(n), turns); var ps := RunPointers(InitialPointers(n), InitialLatch(n), turns);
      && |l.workers| == |ps.nodes| == n
      && (l.workers[v].state.NotWaiting? ==> ps.nodes[v] == UNLINKED)
  {
    hide CanRun, Run, PointsWell, RunPointers, LatchInv;
    InitialTidy(n);
    InitialLatchInv(n);
    PointersHoldTheLists(InitialPointers(n), InitialLatch(n), turns);
    LatchRunInv(InitialLatch(n), turns);
    var l := Run(InitialLatch(n), turns);
    if l.workers[v].state.NotWaiting? { NotWaitingInNoList(l, v); }
  }

  lemma {:induction false} NotWaitingInNoList(l: Latch, v: nat)
    requires LatchInv(l) && v < |l.workers| && l.workers[v].state.NotWaiting?
    ensures v !in l.waiters && NotIn(v, PrivateLists(l))
  {
    assert QueueOk(l, v) && PrivateOk(l, v);
    forall u | 0 <= u < |l.workers| ensures v !in PrivateList(l.workers[u].at) {
      SumCovers(InPrivateLists(v), l.workers, u, u);
    }
  }

  /** The iterator's next id, read before the current node is deleted, is the next waiter of the scan. */
  lemma {:induction false} ScanReadsNext(ps: Pointers, l: Latch, w: nat)
    requires LatchInv(l) && Tidy(ps, l.waiters, PrivateLists(l))
    requires w < |l.workers| && l.workers[w].at.WakeScan? && l.workers[w].at.rest != []
    ensures var rest := l.workers[w].at.rest;
      rest[0] < |ps.nodes| && ps.nodes[rest[0]].next == if |rest| == 1 then NOBODY else rest[1]
  {
    ScanPosition(l, w);
    NeighboursInRange(ps.nodes, ps.waiters, l.waiters, IndexOf(l.waiters, l.workers[w].at.rest[0]));
  }
}
