/**
 The lists of any number of latches on the workers' shared nodes: a head and a tail per
 latch, one private list per worker while it wakes others, and one node per worker for
 all of them.
 */
module LatchFamilyPointers {
  import opened LockLists
  import opened Latches
  import opened LatchInvariant
  import opened LatchTheorems
  import opened LatchPointers
  import opened LatchFamilies
  import opened LatchFamilyTheorems

  datatype FamilyPointers = FamilyPointers(nodes: seq<LockListNode>, heads: seq<Ends>, own: seq<Ends>)

  function InitialFamilyPointers(latches: nat, n: nat): FamilyPointers {
    FamilyPointers(seq(n, _ => UNLINKED), seq(latches, _ => EMPTY), seq(n, _ => EMPTY))
  }

  /** The private list of a worker, in whichever latch it wakes. */
  function ListOf(at: seq<Point>): seq<nat> {
    if at == [] then []
    else if PrivateList(at[0]) != [] then PrivateList(at[0])
    else ListOf(at[1..])
  }

  lemma {:induction false} ListOfInside(at: seq<Point>, i: nat)
    requires i < |at| && forall j :: 0 <= j < |at| && j != i ==> !Busy(at[j])
    ensures ListOf(at) == PrivateList(at[i])
  {
    if i > 0 {
      assert !Busy(at[0]);
      ListOfInside(at[1..], i - 1);
    } else if PrivateList(at[0]) == [] {
      ListOfNobody(at[1..]);
    }
  }

  lemma {:induction false} ListOfNobody(at: seq<Point>)
    requires forall j :: 0 <= j < |at| ==> !Busy(at[j])
    ensures ListOf(at) == []
  {
    if at != [] {
      assert !Busy(at[0]);
      ListOfNobody(at[1..]);
    }
  }

  /** All lists of the family: the waiters of each latch, then the private list of each worker. */
  function Waiting(m: Family): (r: seq<seq<nat>>)
    ensures |r| == |m.locks| && forall i :: 0 <= i < |r| ==> r[i] == m.locks[i].waiters
  {
    seq(|m.locks|, i requires 0 <= i < |m.locks| => m.locks[i].waiters)
  }

  function Private(m: Family): (r: seq<seq<nat>>)
    ensures |r| == |m.threads| && forall v :: 0 <= v < |r| ==> r[v] == ListOf(m.threads[v].at)
  {
    seq(|m.threads|, v requires 0 <= v < |m.threads| => ListOf(m.threads[v].at))
  }

  /** The nodes hold these lists, pairwise disjoint; a node in none of them is unlinked. */
  ghost predicate AllTidy(nodes: seq<LockListNode>, ends: seq<Ends>, lists: seq<seq<nat>>) {
    && |ends| == |lists|
    && (forall i :: 0 <= i < |lists| ==> Linked(nodes, ends[i], lists[i]))
    && (forall i, j, v :: 0 <= i < |lists| && 0 <= j < |lists| && i != j && v in lists[i] ==> v !in lists[j])
    && (forall v :: 0 <= v < |nodes| && NotIn(v, lists) ==> nodes[v] == UNLINKED)
  }

  ghost predicate FamilyTidy(fp: FamilyPointers, m: Family) {
    && |fp.nodes| == |fp.own| == |m.threads| && |fp.heads| == |m.locks|
    && AllTidy(fp.nodes, fp.heads + fp.own, Waiting(m) + Private(m))
  }

  /** Latch i's own list, and everybody else's: the private lists, then the other latches' waiters. */
  function PointersAt(fp: FamilyPointers, i: nat): Pointers
    requires i < |fp.heads|
  {
    Pointers(fp.nodes, fp.heads[i], fp.own + fp.heads[i := EMPTY])
  }

  function OthersAt(m: Family, i: nat): seq<seq<nat>>
    requires i < |m.locks|
  {
    Private(m) + Waiting(m)[i := []]
  }

  /** The list operations of w's step in latch i. */
  predicate FamilyCanPoint(fp: FamilyPointers, m: Family, i: nat, w: nat)
    requires CanAct(m, i, w)
  {
    |fp.heads| == |m.locks| && |fp.own| == |m.threads| && CanPoint(PointersAt(fp, i), View(m, i), w)
  }

  function FamilyRepoint(fp: FamilyPointers, m: Family, i: nat, w: nat): FamilyPointers
    requires CanAct(m, i, w) && FamilyCanPoint(fp, m, i, w)
  {
    var ps := Repoint(PointersAt(fp, i), View(m, i), w);
    RepointKeepsSize(PointersAt(fp, i), View(m, i), w);
    FamilyPointers(ps.nodes, fp.heads[i := ps.waiters], ps.own[..|fp.own|])
  }

  lemma {:induction false} EmptyIsLinked(nodes: seq<LockListNode>)
    ensures Linked(nodes, EMPTY, [])
  {}

  /** The same lists in the other order: heads a, ends b, of which heads[i] is set aside. */
  lemma {:induction false} SetAside(nodes: seq<LockListNode>, heads: seq<Ends>, own: seq<Ends>,
                                    waiting: seq<seq<nat>>, private: seq<seq<nat>>, i: nat)
    requires AllTidy(nodes, heads + own, waiting + private) && |heads| == |waiting| && |nodes| <= |own| + |heads| &&
      i < |heads|
    ensures Tidy(Pointers(nodes, heads[i], own + heads[i := EMPTY]), waiting[i], private + waiting[i := []])
  {
    var ends, lists := heads + own, waiting + private;
    var ends', lists' := own + heads[i := EMPTY], private + waiting[i := []];
    var n, k := |own|, |heads|;
    EmptyIsLinked(nodes);
    hide Linked;
    forall j | 0 <= j < |lists'| ensures Linked(nodes, ends'[j], lists'[j]) {
      assert j < n ==> Linked(nodes, ends[k + j], lists[k + j]);
      assert j >= n && j != n + i ==> Linked(nodes, ends[j - n], lists[j - n]);
    }
    forall j, v | 0 <= j < |lists'| && v in lists'[j] ensures v !in waiting[i] {
      assert lists[i] == waiting[i] && lists'[j] == lists[if j < n then k + j else j - n];
    }
    forall j, j', v | 0 <= j < |lists'| && 0 <= j' < |lists'| && j != j' && v in lists'[j] ensures v !in lists'[j'] {
      assert lists'[j] == lists[if j < n then k + j else j - n];
      assert j' != n + i ==> lists'[j'] == lists[if j' < n then k + j' else j' - n];
    }
    forall v | 0 <= v < |nodes| && v !in waiting[i] && NotIn(v, lists') ensures nodes[v] == UNLINKED {
      forall j | 0 <= j < |lists| ensures v !in lists[j] {
        assert j != i ==> lists[j] == lists'[if j < k then n + j else j - k];
      }
      assert NotIn(v, lists);
    }
    assert Linked(nodes, ends[i], lists[i]);
  }

  lemma {:induction false} PutBackLinked(nodes: seq<LockListNode>, heads: seq<Ends>, own: seq<Ends>,
                                         waiting: seq<seq<nat>>, private: seq<seq<nat>>, i: nat, j: nat)
    requires |heads| == |waiting| && |own| == |private| && i < |heads| && j < |heads + own|
    requires Tidy(Pointers(nodes, heads[i], own + heads[i := EMPTY]), waiting[i], private + waiting[i := []])
    ensures Linked(nodes, (heads + own)[j], (waiting + private)[j])
  {
    var n, k := |own|, |heads|;
    hide Linked;
    if j != i {
      var j' := if j < k then n + j else j - k;
      assert Linked(nodes, (own + heads[i := EMPTY])[j'], (private + waiting[i := []])[j']);
    }
  }

  lemma {:induction false} PutBack(nodes: seq<LockListNode>, heads: seq<Ends>, own: seq<Ends>,
                                   waiting: seq<seq<nat>>, private: seq<seq<nat>>, i: nat)
    requires |heads| == |waiting| && |own| == |private| && i < |heads|
    requires Tidy(Pointers(nodes, heads[i], own + heads[i := EMPTY]), waiting[i], private + waiting[i := []])
    ensures AllTidy(nodes, heads + own, waiting + private)
  {
    var lists, lists' := waiting + private, private + waiting[i := []];
    var n, k := |own|, |heads|;
    hide Linked;
    forall j | 0 <= j < |lists| ensures Linked(nodes, (heads + own)[j], lists[j]) {
      PutBackLinked(nodes, heads, own, waiting, private, i, j);
    }
    forall j, j', v | 0 <= j < |lists| && 0 <= j' < |lists| && j != j' && v in lists[j] ensures v !in lists[j'] {
      assert j != i ==> lists[j] == lists'[if j < k then n + j else j - k];
      assert j' != i ==> lists[j'] == lists'[if j' < k then n + j' else j' - k];
    }
    forall v | 0 <= v < |nodes| && NotIn(v, lists) ensures nodes[v] == UNLINKED {
      assert v !in lists[i];
      forall j | 0 <= j < |lists'| ensures v !in lists'[j] {
        assert j != n + i ==> lists'[j] == lists[if j < n then k + j else j - n];
      }
      assert NotIn(v, lists');
    }
  }

  // ---- One step ----------------------------------------------------------------------------

  lemma {:induction false} InListOf(at: seq<Point>, v: nat)
    requires v in ListOf(at)
    ensures exists j :: 0 <= j < |at| && v in PrivateList(at[j])
  {
    if PrivateList(at[0]) == [] {
      InListOf(at[1..], v);
      var j :| 0 <= j < |at| - 1 && v in PrivateList(at[1..][j]);
      assert v in PrivateList(at[j + 1]);
    }
  }

  /** A worker with no place in any latch is in no list of the family. */
  lemma {:induction false} PlacelessIsNowhere(m: Family, v: nat)
    requires Wellformed(m) && forall j :: 0 <= j < |m.locks| ==> PlacesIn(m, j, v) == 0
    ensures NotIn(v, Waiting(m)) && NotIn(v, Private(m))
  {
    forall j | 0 <= j < |m.locks| ensures v !in Waiting(m)[j] {
      assert PlacesIn(m, j, v) == 0;
    }
    forall u | 0 <= u < |m.threads| ensures v !in Private(m)[u] {
      if v in ListOf(m.threads[u].at) {
        InListOf(m.threads[u].at, v);
        var j :| 0 <= j < |m.locks| && v in PrivateList(m.threads[u].at[j]);
        assert PlacesIn(m, j, v) == 0;
        SumCovers(InPrivateLists(v), View(m, j).workers, u, u);
      }
    }
  }

  /** A worker about to queue itself, in whatever latch, is in no list of any. */
  lemma {:induction false} QueuesNowhere(m: Family, gs: seq<Latch>, i: nat, w: nat)
    requires Splits(m, gs) && i < |gs| && w < |m.threads| && m.threads[w].at[i].QueuePush?
    ensures NotIn(w, Waiting(m)) && NotIn(w, Private(m))
  {
    forall j | 0 <= j < |m.locks| ensures PlacesIn(m, j, w) == 0 {
      PlacedIsBusy(m, gs, j, w);
      assert OneAtATime(m.threads[w]);
      if j == i {
        SameSums(m, gs, i, InPrivateLists(w));
        assert Mirrors(m, i, gs[i]) && MirrorsWorker(m.threads[w], i, gs[i].workers[w]);
        NodeOwnership(gs[i], w);
      }
    }
    hide Splits, PlacesIn;
    PlacelessIsNowhere(m, w);
  }

  /** The lists of latch i change as they do when it runs by itself. */
  lemma {:induction false} ViewListsMove(m: Family, gs: seq<Latch>, i: nat, w: nat, mode: LockMode)
    requires Splits(m, gs) && CanAct(m, i, w)
    ensures var l := View(m, i); var l' := Move(l, w, mode); |l'.workers| == |l.workers| && ListsChange(l, l', w)
  {
    var l, g := View(m, i), gs[i];
    SplitCanMove(m, gs, i, w);
    assert Mirrors(m, i, g) && MirrorsWorker(m.threads[w], i, g.workers[w]);
    assert LocalOk(|g.workers|, g.workers[w]);
    assert LocalOk(|l.workers|, l.workers[w]);
    var p := l.workers[w].at;
    assert Victim(p, l) == Victim(p, g);
    if Takes(g, w) { TakenWaits(g, w); }
    if p.WakeMark? { MarkedPends(g, w); }
    hide LatchInv, Move, Splits, Mirrors, ReachableLatch;
    ListsMove(l, w, mode);
  }

  /** The family's lists before and after. */
  lemma {:induction false} FamilyListsMove(m: Family, i: nat, w: nat, mode: LockMode)
    requires CanAct(m, i, w)
    ensures var l := View(m, i); var l' := Move(l, w, mode); var m' := Act(m, i, w, mode);
      && w < |l'.workers| && |m'.locks| == |m.locks| && |m'.threads| == |m.threads|
      && Private(m)[w] == PrivateList(l.workers[w].at)
      && Waiting(m') == Waiting(m)[i := l'.waiters]
      && Private(m') == Private(m)[w := PrivateList(l'.workers[w].at)]
  {
    var l := View(m, i);
    MoveKeepsSize(l, w, mode);
    OnlyMoverMoves(l, w, mode);
    hide Move, CanMove, PrivateList;
    var m' := Act(m, i, w, mode);
    ListOfInside(m.threads[w].at, i);
    ListOfInside(m'.threads[w].at, i);
    forall v | 0 <= v < |m.threads| && v != w ensures m'.threads[v].at == m.threads[v].at {}
    assert Waiting(m') == Waiting(m)[i := Move(l, w, mode).waiters];
  }

  lemma {:induction false} TailStays<T>(a: seq<T>, b: seq<T>, c: seq<T>, w: nat)
    requires |c| == |a + b| && w < |a| && forall v :: 0 <= v < |c| && v != w ==> c[v] == (a + b)[v]
    ensures c == c[..|a|] + b
  {}

  lemma {:induction false} UpdateFirst<T>(a: seq<T>, b: seq<T>, w: nat, x: T)
    requires w < |a|
    ensures (a + b)[w := x] == a[w := x] + b
  {}

  /** The list operations of w's step in a latch l, the i-th, carry all lists along. */
  lemma {:induction false} AllFollow(fp: FamilyPointers, l: Latch, l': Latch, i: nat, w: nat,
                                     waiting: seq<seq<nat>>, private: seq<seq<nat>>)
    requires AllTidy(fp.nodes, fp.heads + fp.own, waiting + private)
    requires |fp.nodes| == |fp.own| == |private| && |fp.heads| == |waiting| && i < |waiting| && w < |private|
    requires CanMove(l, w) && |l'.workers| == |l.workers| && ListsChange(l, l', w)
    requires waiting[i] == l.waiters && private[w] == PrivateList(l.workers[w].at)
    requires l.workers[w].at.QueuePush? ==> NotIn(w, waiting) && NotIn(w, private)
    ensures CanPoint(PointersAt(fp, i), l, w)
    ensures var ps' := Repoint(PointersAt(fp, i), l, w);
      && |ps'.nodes| == |fp.nodes| && |ps'.own| >= |fp.own|
      && AllTidy(ps'.nodes, fp.heads[i := ps'.waiters] + ps'.own[..|fp.own|],
                 waiting[i := l'.waiters] + private[w := PrivateList(l'.workers[w].at)])
  {
    var ps := PointersAt(fp, i);
    var others := private + waiting[i := []];
    SetAside(fp.nodes, fp.heads, fp.own, waiting, private, i);
    hide AllTidy, Tidy, CanMove, ListsChange, PrivateList, Repoint, CanPoint;
    assert others[w] == private[w];
    assert l.workers[w].at.QueuePush? ==> w !in l.waiters && NotIn(w, others);
    Follow(ps, l, l', others, w);
    RepointKeepsSize(ps, l, w);
    var ps' := Repoint(ps, l, w);
    var heads', own' := fp.heads[i := ps'.waiters], ps'.own[..|fp.own|];
    var waiting', private' := waiting[i := l'.waiters], private[w := PrivateList(l'.workers[w].at)];
    TailStays(fp.own, fp.heads[i := EMPTY], ps'.own, w);
    UpdateFirst(private, waiting[i := []], w, private'[w]);
    assert heads'[i := EMPTY] == fp.heads[i := EMPTY] && waiting'[i := []] == waiting[i := []];
    PutBack(ps'.nodes, heads', own', waiting', private', i);
  }

  lemma {:induction false} FamilyFollows(fp: FamilyPointers, m: Family, gs: seq<Latch>, i: nat, w: nat, mode: LockMode)
    requires Splits(m, gs) && CanAct(m, i, w) && FamilyTidy(fp, m)
    ensures FamilyCanPoint(fp, m, i, w)
    ensures FamilyTidy(FamilyRepoint(fp, m, i, w), Act(m, i, w, mode))
  {
    var l := View(m, i);
    var l' := Move(l, w, mode);
    ViewListsMove(m, gs, i, w, mode);
    FamilyListsMove(m, i, w, mode);
    if l.workers[w].at.QueuePush? { QueuesNowhere(m, gs, i, w); }
    assert CanMove(l, w);
    hide Move, CanMove, Splits, AllTidy, PrivateList, ListsChange, Repoint, CanPoint, CanAct, NotIn;
    AllFollow(fp, l, l', i, w, Waiting(m), Private(m));
  }

  // ---- Every run ---------------------------------------------------------------------------

  ghost predicate FamilyPointsWell(fp: FamilyPointers, m: Family, deeds: seq<Deed>)
    requires CanPerform(m, deeds)
    decreases |deeds|
  {
    deeds == [] ||
    (FamilyCanPoint(fp, m, deeds[0].latch, deeds[0].worker) &&
     FamilyPointsWell(FamilyRepoint(fp, m, deeds[0].latch, deeds[0].worker),
                      Act(m, deeds[0].latch, deeds[0].worker, deeds[0].mode), deeds[1..]))
  }

  ghost function PerformPointers(fp: FamilyPointers, m: Family, deeds: seq<Deed>): FamilyPointers
    requires CanPerform(m, deeds) && FamilyPointsWell(fp, m, deeds)
    decreases |deeds|
  {
    if deeds == [] then fp
    else PerformPointers(FamilyRepoint(fp, m, deeds[0].latch, deeds[0].worker),
                         Act(m, deeds[0].latch, deeds[0].worker, deeds[0].mode), deeds[1..])
  }

  lemma {:induction false} RunFollows(fp: FamilyPointers, m: Family, gs: seq<Latch>, deeds: seq<Deed>)
    requires Splits(m, gs) && FamilyTidy(fp, m) && CanPerform(m, deeds)
    ensures FamilyPointsWell(fp, m, deeds)
    ensures FamilyTidy(PerformPointers(fp, m, deeds), Perform(m, deeds))
    decreases |deeds|
  {
    hide Splits, FamilyTidy, CanAct, Act, FamilyCanPoint, FamilyRepoint, CanMove, Move;
    if deeds != [] {
      var i, w, mode := deeds[0].latch, deeds[0].worker, deeds[0].mode;
      LatchesCount(m, gs, i, w);
      FamilyFollows(fp, m, gs, i, w, mode);
      SplitStep(m, gs, i, w, mode);
      RunFollows(FamilyRepoint(fp, m, i, w), Act(m, i, w, mode), gs[i := Move(gs[i], w, mode)], deeds[1..]);
    }
  }

  lemma {:induction false} InitiallyTidy(latches: nat, n: nat)
    ensures FamilyTidy(InitialFamilyPointers(latches, n), InitialFamily(latches, n))
  {
    var m := InitialFamily(latches, n);
    forall v | 0 <= v < n ensures Private(m)[v] == [] { ListOfNobody(m.threads[v].at); }
    assert forall i :: 0 <= i < latches ==> Waiting(m)[i] == [];
  }

  /**
   For any number of latches and workers and any interleaving, the one node of each worker
   is enough: the nodes hold every latch's waiters and every waker's private list, doubly
   linked, in order and disjoint, and the node of a worker that is NotWaiting is unlinked.
   */
  lemma {:induction false} SharedNodesHoldAllLists(latches: nat, n: nat, deeds: seq<Deed>)
    requires CanPerform(InitialFamily(latches, n), deeds)
    ensures FamilyPointsWell(InitialFamilyPointers(latches, n), InitialFamily(latches, n), deeds)
    ensures var m := Perform(InitialFamily(latches, n), deeds);
      var fp := PerformPointers(InitialFamilyPointers(latches, n), InitialFamily(latches, n), deeds);
      && FamilyTidy(fp, m)
      && forall v :: 0 <= v < |m.threads| && m.threads[v].state.NotWaiting? ==> fp.nodes[v] == UNLINKED
  {
    var m0, fp0 := InitialFamily(latches, n), InitialFamilyPointers(latches, n);
    InitialSplits(latches, n);
    InitiallyTidy(latches, n);
    hide Splits, CanPerform, Perform, FamilyPointsWell, PerformPointers, AllTidy;
    RunFollows(fp0, m0, seq(latches, _ => InitialLatch(n)), deeds);
    var m, fp := Perform(m0, deeds), PerformPointers(fp0, m0, deeds);
    var gs := RunSplits(m0, seq(latches, _ => InitialLatch(n)), deeds);
    forall v | 0 <= v < |m.threads| && m.threads[v].state.NotWaiting? ensures fp.nodes[v] == UNLINKED {
      NotWaitingNowhere(m, gs, v);
      NowhereIsUnlinked(fp.nodes, fp.heads + fp.own, Waiting(m), Private(m), v);
    }
  }

  lemma {:induction false} NotWaitingNowhere(m: Family, gs: seq<Latch>, v: nat)
    requires Splits(m, gs) && v < |m.threads| && m.threads[v].state.NotWaiting?
    ensures NotIn(v, Waiting(m)) && NotIn(v, Private(m))
  {
    forall j | 0 <= j < |m.locks| ensures PlacesIn(m, j, v) == 0 { PlacedIsBusy(m, gs, j, v); }
    PlacelessIsNowhere(m, v);
  }

  lemma {:induction false} NowhereIsUnlinked(nodes: seq<LockListNode>, ends: seq<Ends>,
                                             waiting: seq<seq<nat>>, private: seq<seq<nat>>, v: nat)
    requires AllTidy(nodes, ends, waiting + private) && NotIn(v, waiting) && NotIn(v, private) && v < |nodes|
    ensures nodes[v] == UNLINKED
  {
    assert NotIn(v, waiting + private);
  }
}
