/**
 The 32-bit word of a latch: 29 low bits count the holders (an exclusive holder
 counts 2^28) and three flags sit above them.  Every atomic instruction of the
 latch is given on the bits and on the decoded fields, and the two agree.
 */
module LatchWords {
  import opened LockLists

  const LIST_LOCKED: bv32 := 0x2000_0000
  const UNLOCK_WAITER: bv32 := 0x4000_0000
  const HAS_WAITERS: bv32 := 0x8000_0000
  const EXCLUSIVE_LOCK_VALUE: bv32 := 0x1000_0000
  const SHARED_LOCK_VALUE: bv32 := 1
  const LOCK_COUNT_MASK: bv32 := 0x1FFF_FFFF

  const X: nat := 0x1000_0000

  /** The fields of the word. */
  datatype Word = Word(count: nat, listLocked: bool, unlockWaiter: bool, hasWaiters: bool)

  function Decode(b: bv32): Word {
    Word((b & LOCK_COUNT_MASK) as nat, b & LIST_LOCKED != 0, b & UNLOCK_WAITER != 0, b & HAS_WAITERS != 0)
  }

  function Weight(mode: LockMode): nat {
    match mode case Exclusive => X case Share => 1
  }

  function WeightBits(mode: LockMode): bv32 {
    match mode case Exclusive => EXCLUSIVE_LOCK_VALUE case Share => SHARED_LOCK_VALUE
  }

  // ---- The instructions on the fields ------------------------------------

  const INITIAL: Word := Word(0, false, true, false)

  function Attempted(w: Word, mode: LockMode): Word {
    if w.count == 0 then w.(count := Weight(mode)) else w
  }

  function Published(w: Word, empty: bool): Word {
    w.(unlockWaiter := false, listLocked := false, hasWaiters := w.hasWaiters && !empty)
  }

  /** Whether an unlock that read the old word goes on to wake waiters. */
  predicate MustWake(w: Word, mode: LockMode) {
    w.hasWaiters && w.unlockWaiter && (mode.Exclusive? || w.count == 1)
  }

  // ---- The instructions on the bits ---------------------------------------

  function ListLockedBits(b: bv32): bv32 { b | LIST_LOCKED }

  function ListUnlockedBits(b: bv32): bv32 { b & !LIST_LOCKED }

  function ReleasedBits(b: bv32, mode: LockMode): bv32 { b - WeightBits(mode) }

  function AttemptedBits(b: bv32, mode: LockMode): bv32 {
    if IsFree(b) then b + WeightBits(mode) else b
  }

  function PublishedBits(b: bv32, empty: bool): bv32 {
    var d := b & !UNLOCK_WAITER;
    var e := if empty then d & !HAS_WAITERS else d;
    e & !LIST_LOCKED
  }

  predicate MustWakeBits(b: bv32, mode: LockMode) {
    b & (HAS_WAITERS | UNLOCK_WAITER) == HAS_WAITERS | UNLOCK_WAITER &&
    (mode.Exclusive? || b & LOCK_COUNT_MASK == 1)
  }

  lemma {:induction false} InitialAgrees()
    ensures Decode(UNLOCK_WAITER) == INITIAL
  {}

  /**
   Which bit is which: 29 and up are the list lock, the permission to wake and the waiters;
   an exclusive holder counts 2 to the 28, a share holder one.
   */
  lemma {:induction false} WordLayout()
    ensures Decode(0) == Word(0, false, false, false) && Decode(0x2000_0000) == Word(0, true, false, false)
    ensures Decode(0x4000_0000) == Word(0, false, true, false) && Decode(0x8000_0000) == Word(0, false, false, true)
    ensures Decode(0x1000_0000) == Word(0x1000_0000, false, false, false) && Decode(1) == Word(1, false, false, false)
    ensures Decode(0x1FFF_FFFF).count == 0x1FFF_FFFF
    ensures Weight(Exclusive) == 0x1000_0000 && WeightBits(Exclusive) == 0x1000_0000
    ensures Weight(Share) == 1 && WeightBits(Share) == 1
  {}

  /** Two words with the same masked parts decode alike. */
  lemma {:induction false} SameFields(b: bv32, c: bv32, l: bool, u: bool, h: bool)
    requires c & LOCK_COUNT_MASK == b & LOCK_COUNT_MASK
    requires (c & LIST_LOCKED != 0) == l && (c & UNLOCK_WAITER != 0) == u && (c & HAS_WAITERS != 0) == h
    ensures Decode(c) == Word(Decode(b).count, l, u, h)
  {}

  // Setting or clearing one flag leaves the count and the other flags alone.

  lemma {:induction false} SetListLocked(b: bv32)
    ensures Decode(ListLockedBits(b)) == Decode(b).(listLocked := true)
  {
    var c := b | LIST_LOCKED;
    assert c & LOCK_COUNT_MASK == b & LOCK_COUNT_MASK;
    assert c & LIST_LOCKED == LIST_LOCKED;
    assert c & UNLOCK_WAITER == b & UNLOCK_WAITER;
    assert c & HAS_WAITERS == b & HAS_WAITERS;
    SameFields(b, c, true, Decode(b).unlockWaiter, Decode(b).hasWaiters);
  }

  lemma {:induction false} ClearListLocked(b: bv32)
    ensures Decode(ListUnlockedBits(b)) == Decode(b).(listLocked := false)
  {
    var c := b & !LIST_LOCKED;
    assert c & LOCK_COUNT_MASK == b & LOCK_COUNT_MASK;
    assert c & LIST_LOCKED == 0;
    assert c & UNLOCK_WAITER == b & UNLOCK_WAITER;
    assert c & HAS_WAITERS == b & HAS_WAITERS;
    SameFields(b, c, false, Decode(b).unlockWaiter, Decode(b).hasWaiters);
  }

  lemma {:induction false} SetHasWaiters(b: bv32)
    ensures Decode(b | HAS_WAITERS) == Decode(b).(hasWaiters := true)
  {
    var c := b | HAS_WAITERS;
    assert c & LOCK_COUNT_MASK == b & LOCK_COUNT_MASK;
    assert c & HAS_WAITERS == HAS_WAITERS;
    assert c & UNLOCK_WAITER == b & UNLOCK_WAITER;
    assert c & LIST_LOCKED == b & LIST_LOCKED;
    SameFields(b, c, Decode(b).listLocked, Decode(b).unlockWaiter, true);
  }

  lemma {:induction false} ClearHasWaiters(b: bv32)
    ensures Decode(b & !HAS_WAITERS) == Decode(b).(hasWaiters := false)
  {
    var c := b & !HAS_WAITERS;
    assert c & LOCK_COUNT_MASK == b & LOCK_COUNT_MASK;
    assert c & HAS_WAITERS == 0;
    assert c & UNLOCK_WAITER == b & UNLOCK_WAITER;
    assert c & LIST_LOCKED == b & LIST_LOCKED;
    SameFields(b, c, Decode(b).listLocked, Decode(b).unlockWaiter, false);
  }

  lemma {:induction false} SetUnlockWaiter(b: bv32)
    ensures Decode(b | UNLOCK_WAITER) == Decode(b).(unlockWaiter := true)
  {
    var c := b | UNLOCK_WAITER;
    assert c & LOCK_COUNT_MASK == b & LOCK_COUNT_MASK;
    assert c & UNLOCK_WAITER == UNLOCK_WAITER;
    assert c & LIST_LOCKED == b & LIST_LOCKED;
    assert c & HAS_WAITERS == b & HAS_WAITERS;
    SameFields(b, c, Decode(b).listLocked, true, Decode(b).hasWaiters);
  }

  /** Taking the latch adds to the count and disturbs no flag. */
  lemma {:induction false} AttemptAgrees(b: bv32, mode: LockMode)
    ensures Decode(AttemptedBits(b, mode)) == Attempted(Decode(b), mode)
  {
    CountIsZero(b);
    if b & LOCK_COUNT_MASK == 0 {
      var c := b + WeightBits(mode);
      assert c & LOCK_COUNT_MASK == WeightBits(mode);
      assert c & LIST_LOCKED == b & LIST_LOCKED && c & UNLOCK_WAITER == b & UNLOCK_WAITER &&
        c & HAS_WAITERS == b & HAS_WAITERS;
    }
  }

  predicate IsFree(b: bv32) { b & LOCK_COUNT_MASK == 0 }

  predicate IsListLocked(b: bv32) { b & LIST_LOCKED != 0 }

  lemma {:induction false} CountIsZero(b: bv32)
    ensures IsFree(b) <==> Decode(b).count == 0
  {}

  lemma {:induction false} ListLockedIsRead(b: bv32)
    ensures IsListLocked(b) <==> Decode(b).listLocked
  {}

  /** Releasing it gives the count back and disturbs no flag. */
  lemma {:induction false} ReleaseAgrees(b: bv32, mode: LockMode)
    requires Decode(b).count == Weight(mode)
    ensures Decode(ReleasedBits(b, mode)) == Decode(b).(count := 0)
    ensures MustWakeBits(b, mode) <==> MustWake(Decode(b), mode)
  {
    var count := b & LOCK_COUNT_MASK;
    assert count == WeightBits(mode);
    var c := b - WeightBits(mode);
    assert c & LOCK_COUNT_MASK == 0;
    assert c & LIST_LOCKED == b & LIST_LOCKED && c & UNLOCK_WAITER == b & UNLOCK_WAITER &&
      c & HAS_WAITERS == b & HAS_WAITERS;
  }

  lemma {:induction false} PublishAgrees(b: bv32, empty: bool)
    ensures Decode(PublishedBits(b, empty)) == Published(Decode(b), empty)
  {
    var c := PublishedBits(b, empty);
    assert c & LOCK_COUNT_MASK == b & LOCK_COUNT_MASK;
    assert c & LIST_LOCKED == 0 && c & UNLOCK_WAITER == 0;
    assert c & HAS_WAITERS == if empty then 0 else b & HAS_WAITERS;
    SameFields(b, c, false, false, Decode(b).hasWaiters && !empty);
  }

  // ---- The word in place -------------------------------------------------

  /**
   The atomic word.  Other workers write to it too: others lists what they leave in
   it, one value before each of this worker's next compare-and-swaps.
   */
  class LatchState {
    var state: bv32
    var others: seq<bv32>

    /** The word that the k-th next compare-and-swap will find. */
    ghost function Found(k: nat): bv32
      requires k <= |others|
      reads this
    {
      if k == 0 then state else others[k - 1]
    }

    constructor (others: seq<bv32>)
      ensures Decode(state) == INITIAL && this.others == others
    {
      state := UNLOCK_WAITER;
      this.others := others;
    }

    method CompareExchange(expected: bv32, desired: bv32) returns (ok: bool, seen: bv32)
      modifies this
      ensures others == if old(others) == [] then [] else old(others)[1..]
      ensures seen == if old(others) == [] then old(state) else old(others)[0]
      ensures ok == (seen == expected)
      ensures state == if ok then desired else seen
    {
      if others != [] {
        state, others := others[0], others[1..];
      }
      seen := state;
      ok := state == expected;
      if ok { state := desired; }
    }

    /**
     However often the others get in between, the attempt takes effect in one
     instant: on the word seen, which the last compare-and-swap found.
     */
    method AttemptLock(mode: LockMode) returns (locked: bool, ghost rounds: nat, ghost seen: bv32)
      modifies this
      ensures rounds <= |old(others)| && others == old(others)[rounds..]
      ensures seen == old(Found(rounds))
      ensures locked <==> Decode(seen).count == 0
      ensures Decode(state) == Attempted(Decode(seen), mode)
    {
      hide AttemptedBits, IsFree, Decode, Attempted;
      var previous := state;
      var done := false;
      locked := false;
      seen := state;
      rounds := 0;
      while !done
        invariant rounds <= |old(others)| && others == old(others)[rounds..]
        invariant seen == old(Found(rounds))
        invariant !done ==> previous == seen == state
        invariant done ==> locked == IsFree(seen) && state == AttemptedBits(seen, mode)
        decreases |others|, !done
      {
        locked := IsFree(previous);
        var desired := AttemptedBits(previous, mode);
        var expected := previous;
        if others != [] { rounds := rounds + 1; }
        done, previous := CompareExchange(expected, desired);
        seen := previous;
      }
      AttemptAgrees(seen, mode);
      CountIsZero(seen);
    }

    /** One fetch_or of wait_list_lock; a caller that did not get the list lock spins. */
    method TryListLock() returns (got: bool)
      modifies this
      ensures got <==> !Decode(old(state)).listLocked
      ensures Decode(state) == Decode(old(state)).(listLocked := true)
    {
      hide *;
      SetListLocked(state);
      ListLockedIsRead(state);
      var previous := state;
      state := ListLockedBits(state);
      got := !IsListLocked(previous);
    }

    method ListUnlock()
      modifies this
      ensures Decode(state) == Decode(old(state)).(listLocked := false)
    {
      hide *;
      ClearListLocked(state);
      state := ListUnlockedBits(state);
    }

    /** wakeup's last act on the word: drop three flags in one instant, however often the others get in between. */
    method Publish(empty: bool) returns (ghost rounds: nat, ghost seen: bv32)
      modifies this
      ensures rounds <= |old(others)| && others == old(others)[rounds..]
      ensures seen == old(Found(rounds))
      ensures Decode(state) == Published(Decode(seen), empty)
    {
      hide PublishedBits, Decode, Published;
      var previous := state;
      var done := false;
      seen := state;
      rounds := 0;
      while !done
        invariant rounds <= |old(others)| && others == old(others)[rounds..]
        invariant seen == old(Found(rounds))
        invariant !done ==> previous == seen == state
        invariant done ==> state == PublishedBits(seen, empty)
        decreases |others|, !done
      {
        var desired := PublishedBits(previous, empty);
        var expected := previous;
        if others != [] { rounds := rounds + 1; }
        done, previous := CompareExchange(expected, desired);
        seen := previous;
      }
      PublishAgrees(seen, empty);
    }

    /** The subtraction of Unlock, and its decision to call wakeup. */
    method Release(mode: LockMode) returns (wake: bool)
      requires Decode(state).count == Weight(mode)
      modifies this
      ensures wake <==> MustWake(Decode(old(state)), mode)
      ensures Decode(state) == Decode(old(state)).(count := 0)
    {
      hide *;
      ReleaseAgrees(state, mode);
      var previous := state;
      state := ReleasedBits(state, mode);
      wake := MustWakeBits(previous, mode);
    }
  }
}
