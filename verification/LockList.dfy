/**
 The intrusive wait list of a latch.  A worker owns one node, kept in a table
 shared by all lists; a list is just a head and a tail.
 */
module LockLists {

  const NOBODY: int := -1

  datatype LockListNode = LockListNode(next: int, prev: int)

  const UNLINKED: LockListNode := LockListNode(NOBODY, NOBODY)

  datatype Ends = Ends(head: int, tail: int)

  const EMPTY: Ends := Ends(NOBODY, NOBODY)

  datatype LockMode = Share | Exclusive

  datatype WorkerLockState = NotWaiting | Waiting | PendingWakeup

  /** The nodes between the two ends are doubly linked in the order of ids. */
  ghost predicate Linked(nodes: seq<LockListNode>, ends: Ends, ids: seq<nat>) {
    && (forall i :: 0 <= i < |ids| ==> ids[i] < |nodes|)
    && (forall i, j :: 0 <= i < j < |ids| ==> ids[i] != ids[j])
    && ends == (if ids == [] then EMPTY else Ends(ids[0], ids[|ids| - 1]))
    && (forall i {:trigger NodeAt(ids, i)} :: 0 <= i < |ids| ==> nodes[ids[i]] == NodeAt(ids, i))
  }

  /** What the node of the i-th listed worker has to hold. */
  function NodeAt(ids: seq<nat>, i: nat): LockListNode
    requires i < |ids|
  {
    LockListNode(if i == |ids| - 1 then NOBODY else ids[i + 1], if i == 0 then NOBODY else ids[i - 1])
  }

  /** PushTail, assignment by assignment. */
  function AfterPush(nodes: seq<LockListNode>, ends: Ends, id: nat): (seq<LockListNode>, Ends)
    requires id < |nodes| && (ends.tail == NOBODY || 0 <= ends.tail < |nodes|)
  {
    if ends.tail == NOBODY then
      (nodes[id := UNLINKED], Ends(id, id))
    else
      var own := nodes[id := LockListNode(NOBODY, ends.tail)];
      (own[ends.tail := own[ends.tail].(next := id)], ends.(tail := id))
  }

  predicate Deletable(nodes: seq<LockListNode>, id: nat) {
    id < |nodes| &&
    (nodes[id].prev == NOBODY || 0 <= nodes[id].prev < |nodes|) &&
    (nodes[id].next == NOBODY || 0 <= nodes[id].next < |nodes|)
  }

  /** Delete, assignment by assignment. */
  function AfterDelete(nodes: seq<LockListNode>, ends: Ends, id: nat): (seq<LockListNode>, Ends)
    requires Deletable(nodes, id)
  {
    var node := nodes[id];
    var front: (seq<LockListNode>, Ends) := if node.prev == NOBODY then (nodes, ends.(head := node.next))
                 else (nodes[node.prev := nodes[node.prev].(next := node.next)], ends);
    var back: (seq<LockListNode>, Ends) := if node.next == NOBODY then (front.0, front.1.(tail := node.prev))
                else (front.0[node.next := front.0[node.next].(prev := node.prev)], front.1);
    (back.0[id := UNLINKED], back.1)
  }

  function Without(ids: seq<nat>, k: nat): seq<nat>
    requires k < |ids|
  {
    ids[..k] + ids[k + 1..]
  }

  lemma {:induction false} TailInRange(nodes: seq<LockListNode>, ends: Ends, ids: seq<nat>)
    requires Linked(nodes, ends, ids)
    ensures ends.tail == NOBODY || 0 <= ends.tail < |nodes|
    ensures ends.tail == if ids == [] then NOBODY else ids[|ids| - 1]
  {}

  /** What a push leaves in the node of the i-th worker of the longer list. */
  lemma {:induction false} PushNode(nodes: seq<LockListNode>, ends: Ends, ids: seq<nat>, id: nat, i: nat)
    requires Linked(nodes, ends, ids) && id < |nodes| && id !in ids && i <= |ids|
    ensures ends.tail == NOBODY || 0 <= ends.tail < |nodes|
    ensures var all := ids + [id]; var nodes' := AfterPush(nodes, ends, id).0;
      |nodes'| == |nodes| && all[i] < |nodes| && nodes'[all[i]] == NodeAt(all, i)
  {
    TailInRange(nodes, ends, ids);
    if i < |ids| {
      assert nodes[ids[i]] == NodeAt(ids, i) && ids[i] in ids;
    }
    assert ids != [] ==> ids[|ids| - 1] in ids;
  }

  /** Pushing an unlisted worker appends it; only its node and the old tail's change. */
  lemma {:induction false} PushTailLinks(nodes: seq<LockListNode>, ends: Ends, ids: seq<nat>, id: nat)
    requires Linked(nodes, ends, ids) && id < |nodes| && id !in ids
    ensures ends.tail == NOBODY || 0 <= ends.tail < |nodes|
    ensures var (nodes', ends') := AfterPush(nodes, ends, id);
      && |nodes'| == |nodes| && Linked(nodes', ends', ids + [id])
      && forall k :: 0 <= k < |nodes| && k != id && k !in ids ==> nodes'[k] == nodes[k]
  {
    TailInRange(nodes, ends, ids);
    assert ids != [] ==> ids[|ids| - 1] in ids;
    forall i | 0 <= i <= |ids|
      ensures (ids + [id])[i] < |nodes| && AfterPush(nodes, ends, id).0[(ids + [id])[i]] == NodeAt(ids + [id], i)
    {
      PushNode(nodes, ends, ids, id, i);
    }
    hide NodeAt;
  }

  lemma {:induction false} NeighboursInRange(nodes: seq<LockListNode>, ends: Ends, ids: seq<nat>, k: nat)
    requires Linked(nodes, ends, ids) && k < |ids|
    ensures Deletable(nodes, ids[k]) && nodes[ids[k]] == NodeAt(ids, k)
  {
    assert nodes[ids[k]] == NodeAt(ids, k);
    assert k > 0 ==> ids[k - 1] < |nodes|;
    assert k + 1 < |ids| ==> ids[k + 1] < |nodes|;
  }

  /** Delete node by node, whatever list the node is in. */
  lemma {:induction false} DeleteEffect(nodes: seq<LockListNode>, ends: Ends, id: nat, j: nat)
    requires Deletable(nodes, id) && j < |nodes|
    ensures var nodes' := AfterDelete(nodes, ends, id).0;
      && |nodes'| == |nodes|
      && nodes'[j] == if j == id then UNLINKED else LockListNode(
           if j == nodes[id].prev then nodes[id].next else nodes[j].next,
           if j == nodes[id].next then nodes[id].prev else nodes[j].prev)
  {}

  /** The only nodes Delete changes are the deleted one and its two neighbours. */
  lemma {:induction false} DeleteTouchesNeighbours(nodes: seq<LockListNode>, ends: Ends, ids: seq<nat>, k: nat, j: nat)
    requires Linked(nodes, ends, ids) && k < |ids| && j < |ids| && j != k
    ensures Deletable(nodes, ids[k]) && ids[j] < |nodes|
    ensures var nodes' := AfterDelete(nodes, ends, ids[k]).0;
      && |nodes'| == |nodes|
      && nodes'[ids[j]] == LockListNode(
           if j + 1 == k then NodeAt(ids, k).next else NodeAt(ids, j).next,
           if j == k + 1 then NodeAt(ids, k).prev else NodeAt(ids, j).prev)
  {
    NeighboursInRange(nodes, ends, ids, k);
    NeighboursInRange(nodes, ends, ids, j);
    DeleteEffect(nodes, ends, ids[k], ids[j]);
    assert k > 0 && j != k - 1 ==> ids[k - 1] != ids[j];
    assert k + 1 < |ids| && j != k + 1 ==> ids[k + 1] != ids[j];
  }

  lemma {:induction false} DeleteEnds(nodes: seq<LockListNode>, ends: Ends, ids: seq<nat>, k: nat)
    requires Linked(nodes, ends, ids) && k < |ids|
    ensures Deletable(nodes, ids[k])
    ensures AfterDelete(nodes, ends, ids[k]).1 ==
      if |ids| == 1 then EMPTY else Ends(Without(ids, k)[0], Without(ids, k)[|ids| - 2])
  {
    NeighboursInRange(nodes, ends, ids, k);
  }

  lemma {:induction false} DeleteSparesOthers(nodes: seq<LockListNode>, ends: Ends, ids: seq<nat>, k: nat, j: nat)
    requires Linked(nodes, ends, ids) && k < |ids| && j < |nodes|
    ensures Deletable(nodes, ids[k])
    ensures AfterDelete(nodes, ends, ids[k]).0[ids[k]] == UNLINKED
    ensures j !in ids ==> AfterDelete(nodes, ends, ids[k]).0[j] == nodes[j]
  {
    NeighboursInRange(nodes, ends, ids, k);
    DeleteEffect(nodes, ends, ids[k], j);
    DeleteEffect(nodes, ends, ids[k], ids[k]);
    assert k > 0 ==> ids[k - 1] in ids;
    assert k + 1 < |ids| ==> ids[k + 1] in ids;
  }

  lemma {:induction false} RemainingLinks(nodes: seq<LockListNode>, ends: Ends, ids: seq<nat>, k: nat, i: nat)
    requires Linked(nodes, ends, ids) && k < |ids| && i < |ids| - 1
    ensures Deletable(nodes, ids[k])
    ensures var nodes' := AfterDelete(nodes, ends, ids[k]).0; var left := Without(ids, k);
      left[i] < |nodes'| && nodes'[left[i]] == NodeAt(left, i)
  {
    hide AfterDelete, Linked;
    DeleteTouchesNeighbours(nodes, ends, ids, k, if i < k then i else i + 1);
  }

  lemma {:induction false} DeleteLinks(nodes: seq<LockListNode>, ends: Ends, ids: seq<nat>, k: nat)
    requires Linked(nodes, ends, ids) && k < |ids|
    ensures Deletable(nodes, ids[k])
    ensures var (nodes', ends') := AfterDelete(nodes, ends, ids[k]); Linked(nodes', ends', Without(ids, k))
  {
    DeleteEnds(nodes, ends, ids, k);
    WithoutDistinct(ids, k);
    var (nodes', ends') := AfterDelete(nodes, ends, ids[k]);
    var left: seq<nat> := Without(ids, k);
    forall i | 0 <= i < |left| ensures left[i] < |nodes'| && nodes'[left[i]] == NodeAt(left, i) {
      RemainingLinks(nodes, ends, ids, k, i);
    }
    assert left == [] <==> |ids| == 1;
    hide AfterDelete, NodeAt, Deletable, Without;
  }

  /** Deleting a listed worker removes exactly it and unlinks its node. */
  lemma {:induction false} DeleteUnlinks(nodes: seq<LockListNode>, ends: Ends, ids: seq<nat>, k: nat)
    requires Linked(nodes, ends, ids) && k < |ids|
    ensures Deletable(nodes, ids[k])
    ensures var (nodes', ends') := AfterDelete(nodes, ends, ids[k]);
      && |nodes'| == |nodes| && Linked(nodes', ends', Without(ids, k))
      && nodes'[ids[k]] == UNLINKED
      && forall j :: 0 <= j < |nodes| && j !in ids ==> nodes'[j] == nodes[j]
  {
    hide Linked, Without;
    DeleteLinks(nodes, ends, ids, k);
    assert |AfterDelete(nodes, ends, ids[k]).0| == |nodes|;
    hide AfterDelete, Deletable;
    forall j | 0 <= j < |nodes|
      ensures var nodes' := AfterDelete(nodes, ends, ids[k]).0;
        nodes'[ids[k]] == UNLINKED && (j !in ids ==> nodes'[j] == nodes[j])
    {
      DeleteSparesOthers(nodes, ends, ids, k, j);
    }
    DeleteAsserts(nodes, ends, ids, k);
    DeleteSparesOthers(nodes, ends, ids, k, ids[k]);
  }

  /** The two assertions of Delete: a node with no neighbour on one side is at that end. */
  lemma {:induction false} DeleteAsserts(nodes: seq<LockListNode>, ends: Ends, ids: seq<nat>, k: nat)
    requires Linked(nodes, ends, ids) && k < |ids|
    ensures ids[k] < |nodes|
    ensures nodes[ids[k]].prev == NOBODY ==> ends.head == ids[k]
    ensures nodes[ids[k]].next == NOBODY ==> ends.tail == ids[k]
  {
    assert nodes[ids[k]] == NodeAt(ids, k);
    hide Linked;
  }

  lemma {:induction false} WithoutDistinct(ids: seq<nat>, k: nat)
    requires k < |ids| && forall i, j :: 0 <= i < j < |ids| ==> ids[i] != ids[j]
    ensures var left := Without(ids, k); forall i, j :: 0 <= i < j < |left| ==> left[i] != left[j]
  {}

  /** A list whose nodes did not change is still the same list. */
  lemma {:induction false} LinkedFrame(nodes: seq<LockListNode>, nodes': seq<LockListNode>, ends: Ends, ids: seq<nat>)
    requires Linked(nodes, ends, ids) && |nodes'| == |nodes|
    requires forall i :: 0 <= i < |ids| ==> nodes'[ids[i]] == nodes[ids[i]]
    ensures Linked(nodes', ends, ids)
  {}

  /** Deleting from one list leaves a list over other nodes linked. */
  lemma {:induction false} DeleteKeepsOthers(nodes: seq<LockListNode>, ends: Ends, ids: seq<nat>, k: nat,
                                             others: Ends, taken: seq<nat>)
    requires Linked(nodes, ends, ids) && Linked(nodes, others, taken) && k < |ids|
    requires forall v :: v in taken ==> v !in ids
    ensures Deletable(nodes, ids[k])
    ensures Linked(AfterDelete(nodes, ends, ids[k]).0, others, taken)
  {
    DeleteUnlinks(nodes, ends, ids, k);
    var nodes' := AfterDelete(nodes, ends, ids[k]).0;
    forall i | 0 <= i < |taken| ensures nodes'[taken[i]] == nodes[taken[i]] {
      assert taken[i] in taken;
    }
    LinkedFrame(nodes, nodes', others, taken);
  }

  /** Pushing to one list leaves a list over other nodes linked. */
  lemma {:induction false} PushKeepsOthers(nodes: seq<LockListNode>, ends: Ends, ids: seq<nat>, id: nat,
                                           others: Ends, rest: seq<nat>)
    requires Linked(nodes, ends, ids) && Linked(nodes, others, rest) && id < |nodes| && id !in ids && id !in rest
    requires forall v :: v in rest ==> v !in ids
    ensures ends.tail == NOBODY || 0 <= ends.tail < |nodes|
    ensures Linked(AfterPush(nodes, ends, id).0, others, rest)
  {
    PushTailLinks(nodes, ends, ids, id);
    var nodes' := AfterPush(nodes, ends, id).0;
    forall i | 0 <= i < |rest| ensures nodes'[rest[i]] == nodes[rest[i]] {
      assert rest[i] in rest;
    }
    LinkedFrame(nodes, nodes', others, rest);
  }

  // ---- Which waiters a wakeup takes --------------------------------------

  function ModeOf(modes: seq<LockMode>, id: nat): LockMode {
    if id < |modes| then modes[id] else Share
  }

  /** The loop of wakeup over the ids still to visit: the ids it takes. */
  function Taken(ids: seq<nat>, modes: seq<LockMode>, woke: bool): seq<nat>
  {
    if ids == [] then []
    else if woke && ModeOf(modes, ids[0]).Exclusive? then Taken(ids[1..], modes, woke)
    else if ModeOf(modes, ids[0]).Exclusive? then [ids[0]]
    else [ids[0]] + Taken(ids[1..], modes, true)
  }

  /** The ids it leaves in the list. */
  function Left(ids: seq<nat>, modes: seq<LockMode>, woke: bool): seq<nat>
  {
    if ids == [] then []
    else if woke && ModeOf(modes, ids[0]).Exclusive? then [ids[0]] + Left(ids[1..], modes, woke)
    else if ModeOf(modes, ids[0]).Exclusive? then ids[1..]
    else Left(ids[1..], modes, true)
  }

  /** The waiters of one mode, in order. */
  function OfMode(ids: seq<nat>, modes: seq<LockMode>, mode: LockMode): seq<nat>
  {
    if ids == [] then []
    else if ModeOf(modes, ids[0]) == mode then [ids[0]] + OfMode(ids[1..], modes, mode)
    else OfMode(ids[1..], modes, mode)
  }

  lemma {:induction false} AfterFirstOnlySharers(ids: seq<nat>, modes: seq<LockMode>)
    ensures Taken(ids, modes, true) == OfMode(ids, modes, Share)
    ensures Left(ids, modes, true) == OfMode(ids, modes, Exclusive)
  {
    if ids != [] { AfterFirstOnlySharers(ids[1..], modes); }
  }

  /**
   A wakeup takes exactly the head if it is exclusive and otherwise exactly all
   share waiters; both the taken and the remaining ids keep their order.
   */
  lemma {:induction false} WakeupTakesHeadOrAllSharers(ids: seq<nat>, modes: seq<LockMode>)
    requires ids != []
    ensures ModeOf(modes, ids[0]).Exclusive? ==>
      Taken(ids, modes, false) == [ids[0]] && Left(ids, modes, false) == ids[1..]
    ensures ModeOf(modes, ids[0]).Share? ==>
      Taken(ids, modes, false) == OfMode(ids, modes, Share) && Left(ids, modes, false) == OfMode(ids, modes, Exclusive)
  {
    AfterFirstOnlySharers(ids[1..], modes);
  }

  // ---- In place ----------------------------------------------------------

  /** The per-worker locking records of the LockManager. */
  class LockTable {
    var nodes: seq<LockListNode>
    var states: seq<WorkerLockState>
    var modes: seq<LockMode>

    constructor (workers: nat)
      ensures |nodes| == |states| == |modes| == workers
      ensures forall k :: 0 <= k < workers ==> nodes[k] == UNLINKED && states[k] == NotWaiting
    {
      nodes := seq(workers, _ => UNLINKED);
      states := seq(workers, _ => NotWaiting);
      modes := seq(workers, _ => Share);
    }
  }

  class LockListHead {
    var head: int
    var tail: int

    constructor ()
      ensures View() == EMPTY
    {
      head, tail := NOBODY, NOBODY;
    }

    ghost function View(): Ends
      reads this
    {
      Ends(head, tail)
    }

    /** The head alone tells whether anybody is listed. */
    method IsEmpty(table: LockTable) returns (b: bool)
      ensures forall ids :: Linked(table.nodes, View(), ids) ==> (b <==> ids == [])
    {
      b := head == NOBODY;
    }

    method PushTail(table: LockTable, id: nat)
      requires id < |table.nodes| && (tail == NOBODY || 0 <= tail < |table.nodes|)
      modifies this, table`nodes
      ensures |table.nodes| == |old(table.nodes)|
      ensures (table.nodes, View()) == AfterPush(old(table.nodes), old(View()), id)
      ensures forall ids :: Linked(old(table.nodes), old(View()), ids) && id !in ids ==>
        Linked(table.nodes, View(), ids + [id])
    {
      forall ids: seq<nat> | Linked(table.nodes, View(), ids) && id !in ids
        ensures var (nodes', ends') := AfterPush(table.nodes, View(), id); Linked(nodes', ends', ids + [id])
      {
        PushTailLinks(table.nodes, View(), ids, id);
      }
      hide Linked;
      if tail == NOBODY {
        table.nodes := table.nodes[id := UNLINKED];
        head, tail := id, id;
      } else {
        table.nodes := table.nodes[id := LockListNode(NOBODY, tail)];
        table.nodes := table.nodes[tail := table.nodes[tail].(next := id)];
        tail := id;
      }
    }

    method Delete(table: LockTable, id: nat)
      requires Deletable(table.nodes, id)
      modifies this, table`nodes
      ensures |table.nodes| == |old(table.nodes)|
      ensures (table.nodes, View()) == AfterDelete(old(table.nodes), old(View()), id)
      ensures table.nodes[id] == UNLINKED
      ensures forall ids, k: nat :: Linked(old(table.nodes), old(View()), ids) && k < |ids| && ids[k] == id ==>
        Linked(table.nodes, View(), Without(ids, k))
    {
      forall ids: seq<nat>, k: nat | Linked(table.nodes, View(), ids) && k < |ids| && ids[k] == id
        ensures var (nodes', ends') := AfterDelete(table.nodes, View(), id); Linked(nodes', ends', Without(ids, k))
      {
        DeleteUnlinks(table.nodes, View(), ids, k);
      }
      hide Linked, Without;
      var node := table.nodes[id];
      if node.prev == NOBODY {
        head := node.next;
      } else {
        table.nodes := table.nodes[node.prev := table.nodes[node.prev].(next := node.next)];
      }
      if node.next == NOBODY {
        tail := node.prev;
      } else {
        table.nodes := table.nodes[node.next := table.nodes[node.next].(prev := node.prev)];
      }
      table.nodes := table.nodes[id := UNLINKED];
    }
  }

  lemma {:induction false} WithoutKeeps(nodes: seq<LockListNode>, ends: Ends, ids: seq<nat>, k: nat)
    requires Linked(nodes, ends, ids) && k < |ids|
    ensures forall v :: v in Without(ids, k) ==> v in ids && v != ids[k]
  {
    var left := Without(ids, k);
    forall i | 0 <= i < |left| ensures left[i] in ids && left[i] != ids[k] {
      assert left[i] == ids[if i < k then i else i + 1];
    }
  }

  lemma {:induction false} LinkedEnds(nodes: seq<LockListNode>, ends: Ends, ids: seq<nat>)
    requires Linked(nodes, ends, ids)
    ensures ends == (if ids == [] then EMPTY else Ends(ids[0], ids[|ids| - 1]))
    ensures forall v :: v in ids ==> v < |nodes|
    ensures ends.tail == NOBODY || 0 <= ends.tail < |nodes|
  {}

  /** Moving a listed worker from one list to the tail of another. */
  lemma {:induction false} MoveLinks(nodes: seq<LockListNode>, from: Ends, to: Ends, ids: seq<nat>, k: nat,
                                     taken: seq<nat>)
    requires Linked(nodes, from, ids) && Linked(nodes, to, taken) && k < |ids|
    requires forall v :: v in taken ==> v !in ids
    ensures Deletable(nodes, ids[k])
    ensures to.tail == NOBODY || 0 <= to.tail < |AfterDelete(nodes, from, ids[k]).0|
    ensures var (mid, from') := AfterDelete(nodes, from, ids[k]); var (nodes', to') := AfterPush(mid, to, ids[k]);
      && |nodes'| == |nodes| && Linked(nodes', from', Without(ids, k)) && Linked(nodes', to', taken + [ids[k]])
      && forall j :: 0 <= j < |nodes| && j !in ids && j !in taken ==> nodes'[j] == nodes[j]
  {
    hide Linked;
    var id := ids[k];
    assert id in ids;
    WithoutKeeps(nodes, from, ids, k);
    DeleteUnlinks(nodes, from, ids, k);
    DeleteKeepsOthers(nodes, from, ids, k, to, taken);
    var (mid, from') := AfterDelete(nodes, from, id);
    PushTailLinks(mid, to, taken, id);
    PushKeepsOthers(mid, to, taken, id, from', Without(ids, k));
  }

  /** The states once each of the ids is marked as about to be woken. */
  function MarkAll(states: seq<WorkerLockState>, ids: seq<nat>): (r: seq<WorkerLockState>)
    ensures |r| == |states|
    ensures forall k :: 0 <= k < |states| ==> r[k] == if k in ids then PendingWakeup else states[k]
  {
    if ids == [] then states
    else
      var last := ids[|ids| - 1];
      var r := MarkAll(states, ids[..|ids| - 1]);
      if last < |r| then r[last := PendingWakeup] else r
  }

  /** The state of wakeup's loop: ids were queued, some are skipped, some taken, the rest not yet visited. */
  ghost predicate Scanning(before: seq<LockListNode>, nodes: seq<LockListNode>, from: Ends, to: Ends,
                           modes: seq<LockMode>, ids: seq<nat>,
                           skipped: seq<nat>, taken: seq<nat>, rest: seq<nat>, woke: bool)
  {
    && |nodes| == |before| && (forall k :: 0 <= k < |nodes| && k !in ids ==> nodes[k] == before[k])
    && Linked(nodes, from, skipped + rest) && Linked(nodes, to, taken)
    && (forall v :: v in taken ==> v !in skipped + rest)
    && (forall v :: v in skipped + rest || v in taken ==> v in ids)
    && taken + Taken(rest, modes, woke) == Taken(ids, modes, false)
    && skipped + Left(rest, modes, woke) == Left(ids, modes, false)
  }

  lemma {:induction false} ScanStarts(nodes: seq<LockListNode>, from: Ends, modes: seq<LockMode>, ids: seq<nat>)
    requires Linked(nodes, from, ids)
    ensures Scanning(nodes, nodes, from, EMPTY, modes, ids, [], [], ids, false)
    ensures from.head == if ids == [] then NOBODY else ids[0]
    ensures ids != [] ==> ids[0] < |nodes| && nodes[ids[0]].next == NodeAt(ids, 0).next
  {
    assert [] + ids == ids;
  }

  lemma {:induction false} ScanSkips(before: seq<LockListNode>, nodes: seq<LockListNode>, from: Ends, to: Ends,
                                     modes: seq<LockMode>, ids: seq<nat>,
                  skipped: seq<nat>, taken: seq<nat>, rest: seq<nat>)
    requires Scanning(before, nodes, from, to, modes, ids, skipped, taken, rest, true)
    requires rest != [] && ModeOf(modes, rest[0]).Exclusive?
    ensures Scanning(before, nodes, from, to, modes, ids, skipped + [rest[0]], taken, rest[1..], true)
  {
    hide Linked;
    assert skipped + rest == (skipped + [rest[0]]) + rest[1..];
    assert skipped + ([rest[0]] + Left(rest[1..], modes, true)) == (skipped + [rest[0]]) + Left(rest[1..], modes, true);
  }

  lemma {:induction false} ScanTakes(before: seq<LockListNode>, nodes: seq<LockListNode>, from: Ends, to: Ends,
                                     modes: seq<LockMode>, ids: seq<nat>,
                  skipped: seq<nat>, taken: seq<nat>, rest: seq<nat>, woke: bool)
    requires Scanning(before, nodes, from, to, modes, ids, skipped, taken, rest, woke)
    requires rest != [] && !(woke && ModeOf(modes, rest[0]).Exclusive?)
    ensures Deletable(nodes, rest[0]) && rest[0] in ids
    ensures to.tail == NOBODY || 0 <= to.tail < |nodes|
    ensures var (mid, from') := AfterDelete(nodes, from, rest[0]); var (nodes', to') := AfterPush(mid, to, rest[0]);
      && |nodes'| == |nodes|
      && (forall j :: 0 <= j < |nodes| && j !in ids ==> nodes'[j] == before[j])
      && if ModeOf(modes, rest[0]).Share?
         then Scanning(before, nodes', from', to', modes, ids, skipped, taken + [rest[0]], rest[1..], true)
         else Linked(nodes', from', Left(ids, modes, false)) && Linked(nodes', to', Taken(ids, modes, false)) &&
              taken + [rest[0]] == Taken(ids, modes, false)
  {
    hide Linked, AfterDelete, AfterPush, Deletable;
    var all: seq<nat> := skipped + rest;
    assert all[|skipped|] == rest[0] && rest[0] in all;
    assert Without(all, |skipped|) == skipped + rest[1..];
    LinkedEnds(nodes, to, taken);
    WithoutKeeps(nodes, from, all, |skipped|);
    MoveLinks(nodes, from, to, all, |skipped|, taken);
    assert (taken + [rest[0]]) + Taken(rest[1..], modes, true) == taken + ([rest[0]] + Taken(rest[1..], modes, true));
  }

  /** Reading the next id before the current node is deleted makes the iterator delete-safe. */
  lemma {:induction false} ScanAdvances(before: seq<LockListNode>, nodes: seq<LockListNode>, from: Ends, to: Ends,
                                        modes: seq<LockMode>, ids: seq<nat>,
                     skipped: seq<nat>, taken: seq<nat>, rest: seq<nat>, woke: bool)
    requires Scanning(before, nodes, from, to, modes, ids, skipped, taken, rest, woke) && rest != []
    ensures rest[0] < |nodes| && nodes[rest[0]].next == NodeAt(rest, 0).next
  {
    NeighboursInRange(nodes, from, skipped + rest, |skipped|);
  }

  /**
   The list part of wakeup: walk the waiters with the delete-safe iterator, moving
   the taken nodes to the private list.  Any third list over other nodes is intact.
   */
  method TakeWaiters(table: LockTable, waiters: LockListHead, wakeup: LockListHead, ghost ids: seq<nat>)
    requires waiters != wakeup && |table.nodes| == |table.states| == |table.modes|
    requires Linked(table.nodes, waiters.View(), ids) && wakeup.View() == EMPTY
    modifies waiters, wakeup, table`nodes, table`states
    ensures |table.nodes| == |table.states| == |table.modes| == |old(table.nodes)|
    ensures Linked(table.nodes, waiters.View(), Left(ids, table.modes, false))
    ensures Linked(table.nodes, wakeup.View(), Taken(ids, table.modes, false))
    ensures forall k :: 0 <= k < |table.nodes| && k !in ids ==> table.nodes[k] == old(table.nodes[k])
    ensures table.states == MarkAll(old(table.states), Taken(ids, table.modes, false))
  {
    hide Linked, Scanning, AfterDelete, AfterPush, Deletable, Taken, Left;
    ghost var modes := table.modes;
    ghost var start := table.nodes;
    ghost var skipped: seq<nat> := [];
    ghost var taken: seq<nat> := [];
    ghost var rest: seq<nat> := ids;
    ScanStarts(table.nodes, waiters.View(), modes, ids);
    var woke := false;
    var current := waiters.head;
    var next := if current == NOBODY then NOBODY else table.nodes[current].next;
    while current != NOBODY
      invariant |table.nodes| == |table.states| == |table.modes| == |old(table.nodes)| && table.modes == modes
      invariant Scanning(start, table.nodes, waiters.View(), wakeup.View(), modes, ids, skipped, taken, rest, woke)
      invariant current == if rest == [] then NOBODY else rest[0]
      invariant rest != [] ==> rest[0] < |table.nodes| && next == NodeAt(rest, 0).next
      invariant table.states == MarkAll(old(table.states), taken)
      decreases |rest|
    {
      var id := current;
      if woke && table.modes[id].Exclusive? {
        ScanSkips(start, table.nodes, waiters.View(), wakeup.View(), modes, ids, skipped, taken, rest);
        skipped := skipped + [id];
      } else {
        ScanTakes(start, table.nodes, waiters.View(), wakeup.View(), modes, ids, skipped, taken, rest, woke);
        waiters.Delete(table, id);
        wakeup.PushTail(table, id);
        assert (taken + [id])[..|taken|] == taken;
        taken := taken + [id];
        woke := true;
        table.states := table.states[id := PendingWakeup];
        if table.modes[id].Exclusive? {
          return;
        }
      }
      rest := rest[1..];
      current := next;
      if current != NOBODY {
        ScanAdvances(start, table.nodes, waiters.View(), wakeup.View(), modes, ids, skipped, taken, rest, woke);
        next := table.nodes[current].next;
      }
    }
    ScanEnds(start, table.nodes, waiters.View(), wakeup.View(), modes, ids, skipped, taken, woke);
  }

  lemma {:induction false} ScanEnds(before: seq<LockListNode>, nodes: seq<LockListNode>, from: Ends, to: Ends,
                                    modes: seq<LockMode>, ids: seq<nat>,
                 skipped: seq<nat>, taken: seq<nat>, woke: bool)
    requires Scanning(before, nodes, from, to, modes, ids, skipped, taken, [], woke)
    ensures Linked(nodes, from, Left(ids, modes, false)) && Linked(nodes, to, Taken(ids, modes, false))
    ensures taken == Taken(ids, modes, false)
    ensures forall k :: 0 <= k < |nodes| && k !in ids ==> nodes[k] == before[k]
  {
    assert taken + [] == taken && skipped + [] == skipped;
  }
}
