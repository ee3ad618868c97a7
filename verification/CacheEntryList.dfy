/** The intrusive lists of cache entries, most recently used first. */
module CacheEntryLists {

  class CacheEntry {
    var prev: CacheEntry?
    var next: CacheEntry?

    constructor ()
      ensures IsRouge()
    {
      prev, next := null, null;
    }

    predicate IsRouge()
      reads this
    {
      prev == null && next == null
    }
  }

  function Without<T>(s: seq<T>, k: nat): seq<T>
    requires k < |s|
  {
    s[..k] + s[k + 1..]
  }

  /** The entry k places from the head, or null off either end. */
  function EntryAt(entries: seq<CacheEntry>, k: int): CacheEntry? {
    if 0 <= k < |entries| then entries[k] else null
  }

  predicate Distinct(entries: seq<CacheEntry>) {
    forall i, j :: 0 <= i < j < |entries| ==> entries[i] != entries[j]
  }

  /** The i-th entry points to its neighbours in the sequence. */
  predicate PointsAt(entries: seq<CacheEntry>, i: nat)
    requires i < |entries|
    reads entries
  {
    entries[i].prev == EntryAt(entries, i - 1) && entries[i].next == EntryAt(entries, i + 1)
  }

  /** prev and next of the entries follow the sequence, so they are mutually inverse. */
  ghost predicate Linked(entries: seq<CacheEntry>)
    reads entries
  {
    Distinct(entries) && forall i :: 0 <= i < |entries| ==> PointsAt(entries, i)
  }

  /** The i-th entry points past entry k. */
  predicate PointsPast(entries: seq<CacheEntry>, k: nat, i: nat)
    requires i < |entries|
    reads entries
  {
    && entries[i].prev == EntryAt(entries, if i == k + 1 then k - 1 else i - 1)
    && entries[i].next == EntryAt(entries, if i + 1 == k then k + 1 else i + 1)
  }

  /** What is left of the links once entry k is taken out. */
  ghost predicate Bypassed(entries: seq<CacheEntry>, k: nat)
    requires k < |entries|
    reads entries
  {
    forall i :: 0 <= i < |entries| && i != k ==> PointsPast(entries, k, i)
  }

  lemma {:induction false} RestAt(entries: seq<CacheEntry>, k: nat, j: int)
    requires k < |entries|
    ensures EntryAt(Without(entries, k), j) == EntryAt(entries, if j < k then j else j + 1)
  {}

  lemma {:induction false} DistinctRest(entries: seq<CacheEntry>, k: nat)
    requires k < |entries| && Distinct(entries)
    ensures Distinct(Without(entries, k)) && entries[k] !in Without(entries, k)
  {}

  lemma {:induction false} PastIsRest(entries: seq<CacheEntry>, k: nat, i: nat)
    requires k < |entries| && i < |entries| - 1 && PointsPast(entries, k, if i < k then i else i + 1)
    ensures |Without(entries, k)| == |entries| - 1 && PointsAt(Without(entries, k), i)
  {
    RestAt(entries, k, i - 1);
    RestAt(entries, k, i);
    RestAt(entries, k, i + 1);
    assert |Without(entries, k)| == |entries| - 1;
    hide Without;
  }

  lemma {:induction false} BypassedIsLinked(entries: seq<CacheEntry>, k: nat)
    requires k < |entries| && Distinct(entries) && Bypassed(entries, k)
    ensures Linked(Without(entries, k)) && entries[k] !in Without(entries, k)
  {
    DistinctRest(entries, k);
    hide Distinct, PointsAt, PointsPast;
    forall i | 0 <= i < |entries| - 1
      ensures |Without(entries, k)| == |entries| - 1 && PointsAt(Without(entries, k), i)
    {
      PastIsRest(entries, k, i);
    }
  }

  lemma {:induction false} ConsAt(entry: CacheEntry, entries: seq<CacheEntry>, j: int)
    ensures EntryAt([entry] + entries, j) == if j == 0 then entry else EntryAt(entries, j - 1)
  {}

  function IndexOf(entries: seq<CacheEntry>, entry: CacheEntry): (k: nat)
    requires entry in entries
    ensures k < |entries| && entries[k] == entry
  {
    if entries[0] == entry then 0 else 1 + IndexOf(entries[1..], entry)
  }

  class CacheEntryList {
    var head: CacheEntry?
    var tail: CacheEntry?
    var size: nat
    ghost var entries: seq<CacheEntry>

    ghost predicate Valid()
      reads this, entries
    {
      size == |entries| && head == EntryAt(entries, 0) && tail == EntryAt(entries, |entries| - 1) && Linked(entries)
    }

    constructor ()
      ensures Valid() && entries == []
    {
      head, tail, size, entries := null, null, 0, [];
    }

    /** Cons. */
    method InsertMRU(entry: CacheEntry)
      requires Valid() && entry.IsRouge() && entry !in entries
      modifies this, entries, entry
      ensures Valid() && entries == [entry] + old(entries)
    {
      if size == 0 {
        head, tail := entry, entry;
      } else {
        head.prev := entry;
        entry.next := head;
        head := entry;
      }
      size := size + 1;
      entries := [entry] + entries;
      forall i | 0 <= i < |entries| ensures PointsAt(entries, i) {
        assert i > 0 ==> old(PointsAt(entries, i - 1));
        ConsAt(entry, old(entries), i - 1);
        ConsAt(entry, old(entries), i);
        ConsAt(entry, old(entries), i + 1);
      }
      ConsAt(entry, old(entries), 0);
      ConsAt(entry, old(entries), |entries| - 1);
    }

    /** Delete: the others keep their order, and the entry is left in no list. */
    method RemoveEntry(entry: CacheEntry)
      requires Valid() && entry in entries
      modifies this, entries
      ensures Valid() && entries == Without(old(entries), IndexOf(old(entries), entry))
      ensures entry.IsRouge() && entry !in entries
    {
      ghost var was := entries;
      ghost var k: nat := IndexOf(entries, entry);
      assert PointsAt(was, k);
      if size == 1 {
        assert entry.IsRouge() && head == tail == entry;
        head, tail := null, null;
      } else {
        assert !entry.IsRouge();
        assert entry.next == null ==> tail == entry;
        assert entry.prev == null ==> head == entry;
        Bypass(entry, was, k);
        if head == entry {
          head := entry.next;
        } else if tail == entry {
          tail := entry.prev;
        }
      }
      RestAt(was, k, 0);
      RestAt(was, k, |was| - 2);
      assert Bypassed(was, k);
      label Bypassing:
      entry.prev, entry.next := null, null;
      size := size - 1;
      entries := Without(was, k);
      forall i | 0 <= i < |was| && i != k ensures PointsPast(was, k, i) {
        assert was[i] != entry && old@Bypassing(PointsPast(was, k, i));
      }
      BypassedIsLinked(was, k);
    }

    /** The two assignments that lead the neighbours past the entry. */
    method Bypass(entry: CacheEntry, ghost was: seq<CacheEntry>, ghost k: nat)
      requires Linked(was) && k < |was| && entry == was[k]
      modifies was
      ensures Bypassed(was, k) && PointsAt(was, k)
    {
      assert PointsAt(was, k);
      assert k > 0 ==> PointsAt(was, k - 1);
      assert k + 1 < |was| ==> PointsAt(was, k + 1);
      var prev := entry.prev;
      var next := entry.next;
      if prev != null {
        prev.next := entry.next;
      }
      if next != null {
        next.prev := entry.prev;
      }
      forall i | 0 <= i < |was| && i != k ensures PointsPast(was, k, i) {
        assert old(PointsAt(was, i));
      }
    }

    /** Move to front. */
    method MoveMRU(entry: CacheEntry)
      requires Valid() && entry in entries
      modifies this, entries
      ensures Valid() && entries == [entry] + Without(old(entries), IndexOf(old(entries), entry))
    {
      hide Linked;
      if size == 1 {
        assert entry == entries[0];
        assert entry.IsRouge() by { Alone(entries); }
        return;
      }
      assert !entry.IsRouge() by { Accompanied(entries, IndexOf(entries, entry)); }
      RemoveEntry(entry);
      InsertMRU(entry);
    }

    /**
     The branch of a cache hit for an entry of T1: it leaves one list for the front of another
     that shares no entry with it.
     */
    method Promote(other: CacheEntryList, entry: CacheEntry)
      requires Valid() && other.Valid() && other != this && entry in entries
      requires forall e :: e in entries ==> e !in other.entries
      modifies this, entries, other, other.entries
      ensures Valid() && other.Valid()
      ensures entries == Without(old(entries), IndexOf(old(entries), entry))
      ensures other.entries == [entry] + old(other.entries)
      ensures forall e :: e in entries ==> e !in other.entries
    {
      RemoveEntry(entry);
      KeptElements(old(entries), IndexOf(old(entries), entry));
      forall i | 0 <= i < |other.entries| ensures PointsAt(other.entries, i) {
        assert old(PointsAt(other.entries, i));
        assert other.entries[i] in other.entries;
      }
      label Removed:
      other.InsertMRU(entry);
      forall i | 0 <= i < |entries| ensures PointsAt(entries, i) {
        assert old@Removed(PointsAt(entries, i));
        assert entries[i] in entries;
      }
    }
  }

  lemma {:induction false} KeptElements<T>(s: seq<T>, k: nat)
    requires k < |s|
    ensures forall e :: e in Without(s, k) ==> e in s
  {}

  lemma {:induction false} Alone(entries: seq<CacheEntry>)
    requires |entries| == 1 && Linked(entries)
    ensures entries[0].IsRouge()
  {
    assert PointsAt(entries, 0);
  }

  lemma {:induction false} Accompanied(entries: seq<CacheEntry>, k: nat)
    requires k < |entries| && |entries| > 1 && Linked(entries)
    ensures !entries[k].IsRouge()
  {
    assert PointsAt(entries, k);
  }

  /** IsRouge tells a listed entry from an unlisted one except when it is alone in its list. */
  lemma {:induction false} RougeInAList(entries: seq<CacheEntry>, k: nat)
    requires k < |entries| && Linked(entries)
    ensures entries[k].IsRouge() <==> |entries| == 1
  {
    if |entries| == 1 { Alone(entries); } else { Accompanied(entries, k); }
  }
}
