/**
 Tuple versions of one heap page and their undo log: which version a snapshot
 picks for a slot, how an update or delete pushes a version, and how undo pops it.
 */
module HeapVersions {
  import opened Wrappers
  import opened Registry
  import opened Snapshots

  type Payload = seq<bv8>

  /** A tuple with its header; undo is the USN of the record that saved its predecessor, 0 if none. */
  datatype Version = Version(xid: nat, undo: nat, deleted: bool, data: Payload)

  datatype ItemState = Normal | Dead

  /** An item of the page: its state, the bytes reserved for it, and the tuple stored there. */
  datatype Slot = Slot(state: ItemState, length: nat, tuple: Version)

  datatype UndoRecord =
    | DeleteRecord(at: nat)                  // undoes an insert
    | UpdateRecord(at: nat, prior: Version)    // undoes an in-place update
    | InsertRecord(at: nat, prior: Version)    // undoes a delete

  /** size is the end of the undo file: the next record gets USN size + 1. */
  datatype Heap = Heap(slots: seq<Slot>, log: map<nat, UndoRecord>, size: nat)

  datatype Snapshot = Snapshot(csn: nat, commandId: nat)

  ghost predicate LogOk(log: map<nat, UndoRecord>) {
    forall u :: u in log ==> 0 < u && (!log[u].DeleteRecord? ==> LinkOk(log, u, log[u].prior))
  }

  /** A saved version is older than the record that saved it. */
  ghost predicate LinkOk(log: map<nat, UndoRecord>, u: nat, v: Version) {
    v.undo < u && (v.undo == 0 || v.undo in log)
  }

  // ---- Choosing a version -----------------------------------------------

  datatype Choice = Blocked | Nothing | Found(version: Version)

  /** tuple_is_visible: own versions by command id, others by commit status. */
  function IsVisible(history: map<nat, nat>, me: nat, snapshot: Snapshot, v: Version): Answer
    requires v.xid == me || v.xid in history
  {
    if v.xid == me then (if snapshot.commandId <= v.undo then No else Yes)
    else OthersAnswer(history, snapshot.csn, v.xid)
  }

  /** Every creator named by a stored version has begun. */
  ghost predicate XidsKnown(log: map<nat, UndoRecord>, history: map<nat, nat>) {
    forall u :: u in log && !log[u].DeleteRecord? ==> log[u].prior.xid in history
  }

  /** find_visible_tuple_page: follow the undo chain to the first visible version. */
  ghost function FindVisible(log: map<nat, UndoRecord>, history: map<nat, nat>,
                       me: nat, snapshot: Snapshot, usn: nat): Choice
    requires LogOk(log) && XidsKnown(log, history) && (usn == 0 || usn in log)
    decreases usn
  {
    if usn == 0 then Nothing
    else match log[usn]
      case DeleteRecord(_) => Nothing
      case UpdateRecord(_, prior) => Examine(log, history, me, snapshot, usn, prior)
      case InsertRecord(_, prior) => Examine(log, history, me, snapshot, usn, prior)
  }

  ghost function Examine(log: map<nat, UndoRecord>, history: map<nat, nat>,
                   me: nat, snapshot: Snapshot, usn: nat, v: Version): Choice
    requires LogOk(log) && XidsKnown(log, history) && v.xid in history && LinkOk(log, usn, v)
    decreases usn, 0
  {
    match IsVisible(history, me, snapshot, v)
    case Busy => Blocked
    case Yes => Found(v)
    case No => FindVisible(log, history, me, snapshot, v.undo)
  }

  /** The choice GetNextTuple makes for one slot. */
  ghost function ChooseNow(h: Heap, history: map<nat, nat>, me: nat, snapshot: Snapshot, t: nat): Choice
    requires LogOk(h.log) && XidsKnown(h.log, history) && t < |h.slots|
    requires h.slots[t].tuple.xid in history
    requires h.slots[t].tuple.undo == 0 || h.slots[t].tuple.undo in h.log
  {
    var page := h.slots[t].tuple;
    if h.slots[t].state != Normal then Nothing
    else match IsVisible(history, me, snapshot, page)
      case Busy => Blocked
      case Yes => if page.deleted then Nothing else Found(page)
      case No => FindVisible(h.log, history, me, snapshot, page.undo)
  }

  // ---- The same choice once every verdict is settled ---------------------

  predicate InView(seen: set<nat>, me: nat, commandId: nat, v: Version) {
    if v.xid == me then v.undo < commandId else v.xid in seen
  }

  ghost function Walk(log: map<nat, UndoRecord>, seen: set<nat>, me: nat, commandId: nat, usn: nat): Option<Version>
    requires LogOk(log) && (usn == 0 || usn in log)
    decreases usn
  {
    if usn == 0 || log[usn].DeleteRecord? then None
    else From(log, seen, me, commandId, usn, log[usn].prior)
  }

  ghost function From(log: map<nat, UndoRecord>, seen: set<nat>, me: nat, commandId: nat,
                      usn: nat, v: Version): Option<Version>
    requires LogOk(log) && LinkOk(log, usn, v)
    decreases usn, 0
  {
    if InView(seen, me, commandId, v) then Some(v)
    else Walk(log, seen, me, commandId, v.undo)
  }

  ghost function Choose(h: Heap, seen: set<nat>, me: nat, commandId: nat, t: nat): Option<Version>
    requires LogOk(h.log)
    requires t < |h.slots| ==> h.slots[t].tuple.undo == 0 || h.slots[t].tuple.undo in h.log
  {
    if t >= |h.slots| || h.slots[t].state != Normal then None
    else
      var page := h.slots[t].tuple;
      if InView(seen, me, commandId, page) then (if page.deleted then None else Some(page))
      else Walk(h.log, seen, me, commandId, page.undo)
  }

  lemma {:induction false} VisibleIsInView(r: Tables, me: nat, snapshot: Snapshot, v: Version)
    requires Inv(r) && v.xid in r.history && IsVisible(r.history, me, snapshot, v) != Busy
    ensures IsVisible(r.history, me, snapshot, v) == Yes <==>
            InView(Seen(r, snapshot.csn), me, snapshot.commandId, v)
  {
    if v.xid != me { AnswerIsSeen(r, snapshot.csn, v.xid); }
  }

  lemma {:induction false} FindVisibleIsWalk(r: Tables, log: map<nat, UndoRecord>, me: nat, snapshot: Snapshot,
                                             usn: nat)
    requires Inv(r) && LogOk(log) && XidsKnown(log, r.history) && (usn == 0 || usn in log)
    requires FindVisible(log, r.history, me, snapshot, usn) != Blocked
    ensures var w := Walk(log, Seen(r, snapshot.csn), me, snapshot.commandId, usn);
      FindVisible(log, r.history, me, snapshot, usn) == if w == None then Nothing else Found(w.value)
    decreases usn
  {
    if usn != 0 && !log[usn].DeleteRecord? {
      var prior := log[usn].prior;
      assert LinkOk(log, usn, prior);
      VisibleIsInView(r, me, snapshot, prior);
      if IsVisible(r.history, me, snapshot, prior) == No {
        FindVisibleIsWalk(r, log, me, snapshot, prior.undo);
      }
    }
  }

  /** When no creator is COMMITTING the answer read from the tables is the settled one. */
  lemma {:induction false} ChooseNowIsChoose(r: Tables, h: Heap, me: nat, snapshot: Snapshot, t: nat)
    requires Inv(r) && LogOk(h.log) && XidsKnown(h.log, r.history) && t < |h.slots|
    requires h.slots[t].tuple.xid in r.history
    requires h.slots[t].tuple.undo == 0 || h.slots[t].tuple.undo in h.log
    requires ChooseNow(h, r.history, me, snapshot, t) != Blocked
    ensures var c := Choose(h, Seen(r, snapshot.csn), me, snapshot.commandId, t);
      ChooseNow(h, r.history, me, snapshot, t) == if c == None then Nothing else Found(c.value)
  {
    if h.slots[t].state == Normal {
      VisibleIsInView(r, me, snapshot, h.slots[t].tuple);
      if IsVisible(r.history, me, snapshot, h.slots[t].tuple) == No {
        FindVisibleIsWalk(r, h.log, me, snapshot, h.slots[t].tuple.undo);
      }
    }
  }

  /** The versions reachable from a USN, newest first. */
  ghost function Chain(log: map<nat, UndoRecord>, usn: nat): seq<Version>
    requires LogOk(log) && (usn == 0 || usn in log)
    decreases usn
  {
    if usn == 0 || log[usn].DeleteRecord? then []
    else
      assert LinkOk(log, usn, log[usn].prior);
      [log[usn].prior] + Chain(log, log[usn].prior.undo)
  }

  /** The walk returns the newest visible version of the slot's history, or none if none is visible. */
  lemma {:induction false} WalkFindsNewest(log: map<nat, UndoRecord>, seen: set<nat>, me: nat, commandId: nat, usn: nat)
    returns (k: nat)
    requires LogOk(log) && (usn == 0 || usn in log)
    ensures var chain := Chain(log, usn); var w := Walk(log, seen, me, commandId, usn);
      && k <= |chain|
      && (forall i :: 0 <= i < k ==> !InView(seen, me, commandId, chain[i]))
      && w == (if k < |chain| then Some(chain[k]) else None)
      && (k < |chain| ==> InView(seen, me, commandId, chain[k]))
    decreases usn
  {
    k := 0;
    if usn != 0 && !log[usn].DeleteRecord? {
      var prior := log[usn].prior;
      assert LinkOk(log, usn, prior);
      if !InView(seen, me, commandId, prior) {
        var k' := WalkFindsNewest(log, seen, me, commandId, prior.undo);
        k := k' + 1;
      }
    }
  }

  /** USNs strictly fall along a chain, so every walk ends. */
  lemma {:induction false} ChainFalls(log: map<nat, UndoRecord>, usn: nat, i: nat)
    requires LogOk(log) && (usn == 0 || usn in log) && i < |Chain(log, usn)|
    ensures Chain(log, usn)[i].undo < usn
    ensures i > 0 ==> Chain(log, usn)[i].undo < Chain(log, usn)[i - 1].undo
    ensures |Chain(log, usn)| <= usn
    decreases usn
  {
    var prior := log[usn].prior;
    assert LinkOk(log, usn, prior);
    var rest := Chain(log, prior.undo);
    if rest != [] { ChainFalls(log, prior.undo, if i > 0 then i - 1 else 0); }
    if i > 1 { ChainFalls(log, prior.undo, i - 1); }
  }

  /** What lies below an element of a chain is the chain of its own undo link. */
  lemma {:induction false} ChainTail(log: map<nat, UndoRecord>, usn: nat, i: nat)
    requires LogOk(log) && (usn == 0 || usn in log) && i < |Chain(log, usn)|
    ensures var p := Chain(log, usn)[i];
      (p.undo == 0 || p.undo in log) && Chain(log, usn)[i + 1..] == Chain(log, p.undo)
    decreases usn
  {
    var prior := log[usn].prior;
    assert LinkOk(log, usn, prior);
    if i > 0 { ChainTail(log, prior.undo, i - 1); }
  }

  /** Appending to the log does not change a chain. */
  lemma {:induction false} ChainExtends(log: map<nat, UndoRecord>, log': map<nat, UndoRecord>, usn: nat)
    requires LogOk(log) && LogOk(log') && (usn == 0 || usn in log)
    requires forall u :: u in log ==> u in log' && log'[u] == log[u]
    ensures Chain(log', usn) == Chain(log, usn)
    decreases usn
  {
    if usn != 0 && !log[usn].DeleteRecord? {
      assert LinkOk(log, usn, log[usn].prior);
      ChainExtends(log, log', log[usn].prior.undo);
    }
  }

  /** All versions of slot t, newest first: the page tuple and then what its undo records saved. */
  ghost function VersionsOf(h: Heap, t: nat): seq<Version>
    requires LogOk(h.log) && t < |h.slots| && (h.slots[t].tuple.undo == 0 || h.slots[t].tuple.undo in h.log)
  {
    [h.slots[t].tuple] + Chain(h.log, h.slots[t].tuple.undo)
  }

  /** No two versions of a slot have the same USN: it falls from newer to older. */
  lemma {:induction false} VersionsFall(h: Heap, t: nat, i: nat, j: nat)
    requires LogOk(h.log) && t < |h.slots| && (h.slots[t].tuple.undo == 0 || h.slots[t].tuple.undo in h.log)
    requires i < j < |VersionsOf(h, t)|
    ensures VersionsOf(h, t)[j].undo < VersionsOf(h, t)[i].undo
  {
    var page := h.slots[t].tuple;
    var c := VersionsOf(h, t);
    ChainFalls(h.log, page.undo, j - 1);
    if i > 0 {
      ChainTail(h.log, page.undo, i - 1);
      assert c[j] == Chain(h.log, c[i].undo)[j - i - 1];
      ChainFalls(h.log, c[i].undo, j - i - 1);
    }
  }

  /**
   What a snapshot picks for a slot is the newest version in view.  Only on the page is a
   deleted version recognised as such.
   */
  lemma {:induction false} ChoiceIsNewestInView(h: Heap, seen: set<nat>, me: nat, commandId: nat, t: nat)
    returns (i: nat)
    requires LogOk(h.log) && t < |h.slots| && (h.slots[t].tuple.undo == 0 || h.slots[t].tuple.undo in h.log)
    requires h.slots[t].state == Normal
    ensures var c := VersionsOf(h, t);
      && i <= |c|
      && (forall j :: 0 <= j < i ==> !InView(seen, me, commandId, c[j]))
      && (i < |c| ==> InView(seen, me, commandId, c[i]))
      && Choose(h, seen, me, commandId, t) == if i == |c| || (i == 0 && c[0].deleted) then None else Some(c[i])
  {
    var page := h.slots[t].tuple;
    if InView(seen, me, commandId, page) {
      i := 0;
    } else {
      var k := WalkFindsNewest(h.log, seen, me, commandId, page.undo);
      i := k + 1;
      var c := VersionsOf(h, t);
      forall j | 0 <= j < i ensures !InView(seen, me, commandId, c[j]) {
        if j > 0 { assert c[j] == Chain(h.log, page.undo)[j - 1]; }
      }
    }
  }

  // ---- The choice read from the tables, exactly ------------------------------------------

  /** i is the newest of the versions c that the tables do not answer No for, or |c| if there is none. */
  ghost predicate FirstAnswered(history: map<nat, nat>, me: nat, snapshot: Snapshot, c: seq<Version>, i: nat) {
    && i <= |c| && (forall j :: 0 <= j < |c| ==> c[j].xid in history)
    && (forall j :: 0 <= j < i ==> IsVisible(history, me, snapshot, c[j]) == No)
    && (i < |c| ==> IsVisible(history, me, snapshot, c[i]) != No)
  }

  /** The version's creator is another transaction, COMMITTING. */
  predicate IsBusy(history: map<nat, nat>, me: nat, v: Version) {
    v.xid != me && v.xid in history && history[v.xid] == COMMITTING
  }

  /** The answer c for a slot in this state whose versions are vs: decided by version i. */
  ghost predicate DecidedBy(history: map<nat, nat>, me: nat, snapshot: Snapshot, state: ItemState, vs: seq<Version>,
                            i: nat, c: Choice)
  {
    && FirstAnswered(history, me, snapshot, vs, i)
    && c == (if state != Normal || i == |vs| then Nothing
             else if IsBusy(history, me, vs[i]) then Blocked
             else if i == 0 && vs[0].deleted then Nothing
             else Found(vs[i]))
  }

  /**
   The walk goes on past every version answered No.  It is held up at the first one that is
   not, if its creator is COMMITTING, and returns that one otherwise.
   */
  lemma {:induction false} FindVisibleExactly(log: map<nat, UndoRecord>, history: map<nat, nat>, me: nat,
                                              snapshot: Snapshot, usn: nat)
    returns (i: nat)
    requires LogOk(log) && XidsKnown(log, history) && (usn == 0 || usn in log)
    ensures var c := Chain(log, usn);
      && FirstAnswered(history, me, snapshot, c, i)
      && FindVisible(log, history, me, snapshot, usn) ==
           (if i == |c| then Nothing else if IsBusy(history, me, c[i]) then Blocked else Found(c[i]))
    decreases usn
  {
    i := 0;
    if usn != 0 && !log[usn].DeleteRecord? {
      var prior := log[usn].prior;
      assert LinkOk(log, usn, prior);
      var k := FindVisibleExactly(log, history, me, snapshot, prior.undo);
      if IsVisible(history, me, snapshot, prior) == No { i := k + 1; }
    }
  }

  /** Two first answered versions are the same one. */
  lemma {:induction false} FirstIsUnique(history: map<nat, nat>, me: nat, snapshot: Snapshot, c: seq<Version>,
                                         i: nat, j: nat)
    requires FirstAnswered(history, me, snapshot, c, i) && FirstAnswered(history, me, snapshot, c, j)
    ensures i == j
  {}

  /**
   The choice for a slot, for every log and history: of its versions the newest one not
   answered No decides.  The scan is held up if and only if its creator is COMMITTING.
   */
  lemma {:induction false} ChooseNowExactly(h: Heap, history: map<nat, nat>, me: nat, snapshot: Snapshot, t: nat)
    returns (i: nat)
    requires LogOk(h.log) && XidsKnown(h.log, history) && t < |h.slots| && h.slots[t].tuple.xid in history
    requires h.slots[t].tuple.undo == 0 || h.slots[t].tuple.undo in h.log
    ensures DecidedBy(history, me, snapshot, h.slots[t].state, VersionsOf(h, t), i,
                      ChooseNow(h, history, me, snapshot, t))
  {
    var page := h.slots[t].tuple;
    var c := VersionsOf(h, t);
    var k := FindVisibleExactly(h.log, history, me, snapshot, page.undo);
    if IsVisible(history, me, snapshot, page) == No {
      i := k + 1;
      forall j | 0 <= j < |c| ensures j > 0 ==> c[j] == Chain(h.log, page.undo)[j - 1] {}
    } else {
      i := 0;
      forall j | 0 <= j < |c| ensures c[j].xid in history {
        if j > 0 { assert c[j] == Chain(h.log, page.undo)[j - 1]; }
      }
    }
  }

  /** A choice is held up if and only if the newest version not answered No has a COMMITTING creator. */
  lemma {:induction false} BlockedExactly(h: Heap, history: map<nat, nat>, me: nat, snapshot: Snapshot, t: nat, i: nat)
    requires LogOk(h.log) && XidsKnown(h.log, history) && t < |h.slots| && h.slots[t].tuple.xid in history
    requires h.slots[t].tuple.undo == 0 || h.slots[t].tuple.undo in h.log
    ensures var c := VersionsOf(h, t);
      FirstAnswered(history, me, snapshot, c, i) ==>
        (ChooseNow(h, history, me, snapshot, t) == Blocked <==>
          h.slots[t].state == Normal && i < |c| && IsBusy(history, me, c[i]))
  {
    var k := ChooseNowExactly(h, history, me, snapshot, t);
    if FirstAnswered(history, me, snapshot, VersionsOf(h, t), i) {
      FirstIsUnique(history, me, snapshot, VersionsOf(h, t), i, k);
    }
  }

  // ---- Writing and undoing ----------------------------------------------

  /** UndoLog::InsertUndoRecord: the record gets the USN just past the end of the log. */
  function Append(h: Heap, record: UndoRecord, bytes: nat): Heap {
    h.(log := h.log[h.size + 1 := record], size := h.size + bytes)
  }

  /** The in-place branch of UpdateTuple, after the guard; the scanned tuple is what undo saves. */
  function UpdateSlot(h: Heap, me: nat, t: nat, scanned: Version, data: Payload, bytes: nat): Heap
    requires t < |h.slots|
  {
    var logged := Append(h, UpdateRecord(t, scanned), bytes);
    logged.(slots := h.slots[t := h.slots[t].(tuple := Version(me, h.size + 1, false, data))])
  }

  /** DeleteTuple, after the guard: only the header is replaced. */
  function DeleteSlot(h: Heap, me: nat, t: nat, bytes: nat): Heap
    requires t < |h.slots|
  {
    var page := h.slots[t].tuple;
    var logged := Append(h, InsertRecord(t, page), bytes);
    logged.(slots := h.slots[t := h.slots[t].(tuple := Version(me, h.size + 1, true, page.data))])
  }

  /** InsertTuple: the bytes stored on the page were serialized before the USN was known, so undo is 0. */
  function InsertSlot(h: Heap, me: nat, data: Payload, bytes: nat): Heap {
    var logged := Append(h, DeleteRecord(|h.slots|), bytes);
    logged.(slots := h.slots + [Slot(Normal, |data|, Version(me, 0, false, data))])
  }

  /** UndoApplierVisitor for the record at usn. */
  function ApplyUndo(h: Heap, usn: nat): Result<Heap>
    requires usn in h.log && h.log[usn].at < |h.slots|
  {
    var record := h.log[usn];
    var slot := h.slots[record.at];
    match record
    case DeleteRecord(at) =>
      if slot.state != Normal || slot.tuple.undo != usn then Ok(h)
      else Ok(h.(slots := h.slots[at := Slot(Dead, 0, slot.tuple)]))
    case UpdateRecord(at, prior) =>
      if slot.tuple.undo != usn then Err("can not undo update: tuple was concurrently modified")
      else Ok(h.(slots := h.slots[at := slot.(tuple := prior)]))
    case InsertRecord(at, prior) =>
      if slot.tuple.undo != usn then Ok(h)
      else Ok(h.(slots := h.slots[at := slot.(tuple := prior)]))
  }

  /** Appending to the log does not change what a walk finds. */
  lemma {:induction false} WalkExtends(log: map<nat, UndoRecord>, log': map<nat, UndoRecord>,
                                       seen: set<nat>, me: nat, commandId: nat, usn: nat)
    requires LogOk(log) && LogOk(log') && (usn == 0 || usn in log)
    requires forall u :: u in log ==> u in log' && log'[u] == log[u]
    ensures Walk(log', seen, me, commandId, usn) == Walk(log, seen, me, commandId, usn)
    decreases usn
  {
    if usn != 0 && !log[usn].DeleteRecord? {
      assert LinkOk(log, usn, log[usn].prior);
      WalkExtends(log, log', seen, me, commandId, log[usn].prior.undo);
    }
  }

  /**
   A version of an unseen transaction is transparent: putting it on top of the
   page tuple, or taking it off again, changes nothing for the snapshot.
   */
  lemma {:induction false} UnseenIsTransparent(h: Heap, h': Heap, seen: set<nat>, me: nat, commandId: nat, t: nat,
                                               top: Version)
    requires LogOk(h.log) && LogOk(h'.log) && t < |h.slots|
    requires forall u :: u in h.log ==> u in h'.log && h'.log[u] == h.log[u]
    requires h.slots[t].tuple.undo == 0 || h.slots[t].tuple.undo in h.log
    requires h'.slots == h.slots[t := h.slots[t].(tuple := top)]
    requires top.xid != me && top.xid !in seen && !h.slots[t].tuple.deleted
    requires top.undo in h'.log && !h'.log[top.undo].DeleteRecord? && h'.log[top.undo].prior == h.slots[t].tuple
    ensures Choose(h', seen, me, commandId, t) == Choose(h, seen, me, commandId, t)
  {
    var page := h.slots[t].tuple;
    assert LinkOk(h'.log, top.undo, page);
    WalkExtends(h.log, h'.log, seen, me, commandId, page.undo);
    assert Walk(h'.log, seen, me, commandId, top.undo) == From(h'.log, seen, me, commandId, top.undo, page);
    assert h'.slots[t].tuple == top;
  }

  // ---- Rolling a transaction back ----------------------------------------

  /**
   Undoing the listed records of transaction x from the last to the first meets
   each slot exactly as the write left it, and leaves nothing of x on the page
   but inserts whose tuple carries no USN.
   */
  ghost predicate Undoable(slots: seq<Slot>, log: map<nat, UndoRecord>, committed: set<nat>, x: nat, usns: seq<nat>)
    decreases |usns|
  {
    if usns == [] then
      forall t :: 0 <= t < |slots| && slots[t].tuple.xid == x ==> slots[t].tuple.undo == 0
    else
      var u := usns[|usns| - 1];
      var rest := usns[..|usns| - 1];
      u in log && log[u].at < |slots| &&
      if log[u].DeleteRecord? then
        Undoable(slots, log, committed, x, rest)
      else
        var at := log[u].at;
        var prior := log[u].prior;
        && slots[at].tuple.xid == x && slots[at].tuple.undo == u
        && (prior.xid == x || prior.xid in committed)
        && Undoable(slots[at := slots[at].(tuple := prior)], log, committed, x, rest)
  }

  /** The page as it will be once the listed records are undone. */
  ghost function Image(slots: seq<Slot>, log: map<nat, UndoRecord>, usns: seq<nat>): seq<Slot>
    requires forall u :: u in usns ==> u in log && log[u].at < |slots|
    ensures |Image(slots, log, usns)| == |slots|
    decreases |usns|
  {
    if usns == [] then slots
    else
      var u := usns[|usns| - 1];
      var rest := usns[..|usns| - 1];
      if log[u].DeleteRecord? then Image(slots, log, rest)
      else Image(slots[log[u].at := slots[log[u].at].(tuple := log[u].prior)], log, rest)
  }

  lemma {:induction false} UndoableListed(slots: seq<Slot>, log: map<nat, UndoRecord>, committed: set<nat>, x: nat,
                                          usns: seq<nat>)
    requires Undoable(slots, log, committed, x, usns)
    ensures forall u :: u in usns ==> u in log && log[u].at < |slots|
    decreases |usns|
  {
    if usns != [] {
      var u := usns[|usns| - 1];
      var rest := usns[..|usns| - 1];
      assert usns == rest + [u];
      if log[u].DeleteRecord? {
        UndoableListed(slots, log, committed, x, rest);
      } else {
        UndoableListed(slots[log[u].at := slots[log[u].at].(tuple := log[u].prior)], log, committed, x, rest);
      }
    }
  }

  /** Longer logs and more commits keep a rollback possible, with the same result. */
  lemma {:induction false} UndoableExtends(slots: seq<Slot>, log: map<nat, UndoRecord>, log': map<nat, UndoRecord>,
                                           committed: set<nat>, committed': set<nat>, x: nat, usns: seq<nat>)
    requires Undoable(slots, log, committed, x, usns) && committed <= committed'
    requires forall u :: u in log ==> u in log' && log'[u] == log[u]
    ensures Undoable(slots, log', committed', x, usns)
    ensures (forall u :: u in usns ==> u in log && log[u].at < |slots|)
    ensures Image(slots, log', usns) == Image(slots, log, usns)
    decreases |usns|
  {
    UndoableListed(slots, log, committed, x, usns);
    if usns != [] {
      var u := usns[|usns| - 1];
      var rest := usns[..|usns| - 1];
      if log[u].DeleteRecord? {
        UndoableExtends(slots, log, log', committed, committed', x, rest);
      } else {
        UndoableExtends(slots[log[u].at := slots[log[u].at].(tuple := log[u].prior)],
                        log, log', committed, committed', x, rest);
      }
    }
  }

  /** Another transaction's write to a slot that is not x's commutes with rolling x back. */
  lemma {:induction false} UndoableFrame(slots: seq<Slot>, log: map<nat, UndoRecord>, committed: set<nat>,
                                         x: nat, usns: seq<nat>, t: nat, tuple: Version)
    requires Undoable(slots, log, committed, x, usns)
    requires t < |slots| && slots[t].tuple.xid != x && tuple.xid != x
    ensures Undoable(slots[t := slots[t].(tuple := tuple)], log, committed, x, usns)
    ensures (forall u :: u in usns ==> u in log && log[u].at < |slots|)
    ensures Image(slots[t := slots[t].(tuple := tuple)], log, usns)
         == Image(slots, log, usns)[t := Image(slots, log, usns)[t].(tuple := tuple)]
    decreases |usns|
  {
    UndoableListed(slots, log, committed, x, usns);
    var slots' := slots[t := slots[t].(tuple := tuple)];
    if usns != [] {
      var u := usns[|usns| - 1];
      var rest := usns[..|usns| - 1];
      if log[u].DeleteRecord? {
        UndoableFrame(slots, log, committed, x, rest, t, tuple);
      } else {
        var at := log[u].at;
        var popped := slots[at := slots[at].(tuple := log[u].prior)];
        UndoableFrame(popped, log, committed, x, rest, t, tuple);
        assert popped[t := popped[t].(tuple := tuple)] == slots'[at := slots'[at].(tuple := log[u].prior)];
      }
    }
  }

  /** A newly inserted slot, of x or of another transaction, does not disturb rolling x back. */
  lemma {:induction false} UndoableGrows(slots: seq<Slot>, log: map<nat, UndoRecord>, committed: set<nat>,
                                         x: nat, usns: seq<nat>, slot: Slot)
    requires Undoable(slots, log, committed, x, usns) && slot.tuple.undo == 0
    ensures Undoable(slots + [slot], log, committed, x, usns)
    ensures (forall u :: u in usns ==> u in log && log[u].at < |slots|)
    ensures Image(slots + [slot], log, usns) == Image(slots, log, usns) + [slot]
    decreases |usns|
  {
    UndoableListed(slots, log, committed, x, usns);
    if usns != [] {
      var u := usns[|usns| - 1];
      var rest := usns[..|usns| - 1];
      if log[u].DeleteRecord? {
        UndoableGrows(slots, log, committed, x, rest, slot);
      } else {
        var at := log[u].at;
        var popped := slots[at := slots[at].(tuple := log[u].prior)];
        UndoableGrows(popped, log, committed, x, rest, slot);
        assert popped + [slot] == (slots + [slot])[at := (slots + [slot])[at].(tuple := log[u].prior)];
      }
    }
  }

  /** One more record on top of those already undoable. */
  lemma {:induction false} UndoableCons(slots: seq<Slot>, log: map<nat, UndoRecord>, committed: set<nat>, x: nat,
                                        usns: seq<nat>, u: nat)
    requires u in log && !log[u].DeleteRecord? && log[u].at < |slots|
    requires slots[log[u].at].tuple.xid == x && slots[log[u].at].tuple.undo == u
    requires log[u].prior.xid == x || log[u].prior.xid in committed
    requires Undoable(slots[log[u].at := slots[log[u].at].(tuple := log[u].prior)], log, committed, x, usns)
    requires forall v :: v in usns ==> v in log && log[v].at < |slots|
    ensures Undoable(slots, log, committed, x, usns + [u])
    ensures forall v :: v in usns + [u] ==> v in log && log[v].at < |slots|
    ensures Image(slots, log, usns + [u])
         == Image(slots[log[u].at := slots[log[u].at].(tuple := log[u].prior)], log, usns)
  {
    assert (usns + [u])[..|usns|] == usns;
  }

  /** Pushing a version records exactly what is needed to pop it. */
  lemma {:induction false} UndoablePush(h: Heap, h': Heap, committed: set<nat>, x: nat, usns: seq<nat>, t: nat)
    requires Undoable(h.slots, h.log, committed, x, usns) && t < |h.slots|
    requires h.size + 1 !in h.log && h'.log.Keys == h.log.Keys + {h.size + 1}
    requires forall u :: u in h.log ==> h'.log[u] == h.log[u]
    requires var r := h'.log[h.size + 1]; !r.DeleteRecord? && r.at == t && r.prior == h.slots[t].tuple
    requires |h'.slots| == |h.slots| && h'.slots == h.slots[t := h.slots[t].(tuple := h'.slots[t].tuple)]
    requires h'.slots[t].tuple.xid == x && h'.slots[t].tuple.undo == h.size + 1
    requires h.slots[t].tuple.xid == x || h.slots[t].tuple.xid in committed
    ensures Undoable(h'.slots, h'.log, committed, x, usns + [h.size + 1])
    ensures (forall u :: u in usns ==> u in h.log && h.log[u].at < |h.slots|)
    ensures (forall u :: u in usns + [h.size + 1] ==> u in h'.log && h'.log[u].at < |h'.slots|)
    ensures Image(h'.slots, h'.log, usns + [h.size + 1]) == Image(h.slots, h.log, usns)
  {
    hide Undoable, Image;
    UndoableExtends(h.slots, h.log, h'.log, committed, committed, x, usns);
    assert h'.slots[t := h'.slots[t].(tuple := h.slots[t].tuple)] == h.slots;
    UndoableCons(h'.slots, h'.log, committed, x, usns, h.size + 1);
  }

  /** An update followed by undoing its record restores the page exactly. */
  lemma {:induction false} UndoRestoresUpdate(h: Heap, me: nat, t: nat, data: Payload, bytes: nat)
    requires t < |h.slots|
    ensures var h' := UpdateSlot(h, me, t, h.slots[t].tuple, data, bytes);
      ApplyUndo(h', h.size + 1) == Ok(h'.(slots := h.slots))
  {
    var h' := UpdateSlot(h, me, t, h.slots[t].tuple, data, bytes);
    assert h'.slots[t := h'.slots[t].(tuple := h.slots[t].tuple)] == h.slots;
  }

  lemma {:induction false} UndoRestoresDelete(h: Heap, me: nat, t: nat, bytes: nat)
    requires t < |h.slots|
    ensures var h' := DeleteSlot(h, me, t, bytes);
      ApplyUndo(h', h.size + 1) == Ok(h'.(slots := h.slots))
  {
    var h' := DeleteSlot(h, me, t, bytes);
    assert h'.slots[t := h'.slots[t].(tuple := h.slots[t].tuple)] == h.slots;
  }
}
