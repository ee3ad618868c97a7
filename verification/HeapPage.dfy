/**
 A slotted heap page as bytes: a 12-byte header, item ids growing up from it, tuples
 growing down from the end.  Integers are little endian; an item id is a 32-bit word
 holding its flags in 2 bits, its offset in 15 and its length in 15.
 */
module HeapPages {
  import opened Bytes

  const PAGE_SIZE: nat := 8192
  const HEADER_SIZE: nat := 12
  const SIZEOF_HEADER: nat := 16   // with the padding at its end
  const ITEM_SIZE: nat := 4
  const LOWER_AT: nat := 8
  const UPPER_AT: nat := 10
  const NORMAL: nat := 1

  // ---- Fields --------------------------------------------------------------------

  function Slice(page: seq<bv8>, at: nat, n: nat): (r: seq<bv8>)
    requires at + n <= |page|
    ensures |r| == n
  {
    page[at..at + n]
  }

  /** The page after a memcpy of the bytes. */
  function Put(page: seq<bv8>, at: nat, bytes: seq<bv8>): (r: seq<bv8>)
    requires at + |bytes| <= |page|
    ensures |r| == |page|
    decreases |bytes|
  {
    if bytes == [] then page else Put(page[at := bytes[0]], at + 1, bytes[1..])
  }

  lemma {:induction false} PutAt(page: seq<bv8>, at: nat, bytes: seq<bv8>, k: nat)
    requires at + |bytes| <= |page| && k < |page|
    ensures Put(page, at, bytes)[k] == if at <= k < at + |bytes| then bytes[k - at] else page[k]
    decreases |bytes|
  {
    if bytes != [] { PutAt(page[at := bytes[0]], at + 1, bytes[1..], k); }
  }

  lemma {:induction false} PutIsRead(page: seq<bv8>, at: nat, bytes: seq<bv8>)
    requires at + |bytes| <= |page|
    ensures Slice(Put(page, at, bytes), at, |bytes|) == bytes
  {
    forall k | 0 <= k < |bytes| ensures Put(page, at, bytes)[at + k] == bytes[k] {
      PutAt(page, at, bytes, at + k);
    }
  }

  lemma {:induction false} PutElsewhere(page: seq<bv8>, at: nat, bytes: seq<bv8>, from: nat, n: nat)
    requires at + |bytes| <= |page| && from + n <= |page|
    requires from + n <= at || at + |bytes| <= from
    ensures Slice(Put(page, at, bytes), from, n) == Slice(page, from, n)
  {
    forall k | from <= k < from + n ensures Put(page, at, bytes)[k] == page[k] {
      PutAt(page, at, bytes, k);
    }
  }

  function Lower(page: seq<bv8>): nat
    requires |page| == PAGE_SIZE
  {
    FromLittleEndian(Slice(page, LOWER_AT, 2))
  }

  function Upper(page: seq<bv8>): nat
    requires |page| == PAGE_SIZE
  {
    FromLittleEndian(Slice(page, UPPER_AT, 2))
  }

  datatype ItemId = ItemId(flags: nat, offset: nat, length: nat)

  function ItemWord(item: ItemId): nat { item.flags + 4 * item.offset + 0x2_0000 * item.length }

  function ItemRead(word: nat): ItemId { ItemId(word % 4, word / 4 % 0x8000, word / 0x2_0000 % 0x8000) }

  lemma {:induction false} ItemRoundTrip(item: ItemId)
    requires item.flags < 4 && item.offset < 0x8000 && item.length < 0x8000
    ensures ItemWord(item) < 0x1_0000_0000 && ItemRead(ItemWord(item)) == item
  {}

  function ItemAt(page: seq<bv8>, i: nat): ItemId
    requires |page| == PAGE_SIZE && HEADER_SIZE + ITEM_SIZE * i + ITEM_SIZE <= PAGE_SIZE
  {
    ItemRead(FromLittleEndian(Slice(page, HEADER_SIZE + ITEM_SIZE * i, ITEM_SIZE)))
  }

  /** How many item ids end at lower. */
  function Slots(lower: nat): (n: nat)
    requires lower >= HEADER_SIZE
    ensures HEADER_SIZE + ITEM_SIZE * n <= lower
    ensures lower % 4 == 0 ==> HEADER_SIZE + ITEM_SIZE * n == lower
  {
    (lower - HEADER_SIZE) / ITEM_SIZE
  }

  function ItemsCount(page: seq<bv8>): nat
    requires |page| == PAGE_SIZE && Lower(page) >= HEADER_SIZE
  {
    Slots(Lower(page))
  }

  /** The free space as the code computes it: zero is its smallest meaningful value. */
  function FreeSpace(page: seq<bv8>): int
    requires |page| == PAGE_SIZE
  {
    Upper(page) - Lower(page)
  }

  function MaxAlign(n: nat): nat { (n + 7) / 8 * 8 }

  // ---- A good page ------------------------------------------------------------------

  predicate BoundsOk(page: seq<bv8>) {
    |page| == PAGE_SIZE && HEADER_SIZE <= Lower(page) <= Upper(page) <= PAGE_SIZE && Lower(page) % 4 == 0 &&
      Upper(page) % 8 == 0
  }

  /** A tuple lies between upper and the end of the page, and GetTuple's assertions hold of it. */
  predicate ItemOk(page: seq<bv8>, i: nat)
    requires BoundsOk(page) && i < ItemsCount(page)
  {
    var item := ItemAt(page, i);
    item.flags == NORMAL && SIZEOF_HEADER < item.offset < PAGE_SIZE &&
    Upper(page) <= item.offset && item.offset + item.length <= PAGE_SIZE
  }

  ghost predicate PageOk(page: seq<bv8>) {
    && BoundsOk(page)
    && (forall i :: 0 <= i < ItemsCount(page) ==> ItemOk(page, i))
    && (forall i, j :: 0 <= i < j < ItemsCount(page) ==>
      ItemAt(page, j).offset + ItemAt(page, j).length <= ItemAt(page, i).offset)
  }

  function TupleAt(page: seq<bv8>, i: nat): seq<bv8>
    requires BoundsOk(page) && i < ItemsCount(page) && ItemOk(page, i)
  {
    Slice(page, ItemAt(page, i).offset, ItemAt(page, i).length)
  }

  /** The tuples of the page, each read through its item id. */
  ghost function Tuples(page: seq<bv8>): (r: seq<seq<bv8>>)
    requires PageOk(page)
    ensures |r| == ItemsCount(page)
    ensures forall i :: 0 <= i < |r| ==> r[i] == TupleAt(page, i)
  {
    seq(ItemsCount(page), i requires 0 <= i < ItemsCount(page) => TupleAt(page, i))
  }

  // ---- Init and insert ----------------------------------------------------------------

  function Init(page: seq<bv8>): (r: seq<bv8>)
    requires |page| == PAGE_SIZE
    ensures |r| == PAGE_SIZE
  {
    Put(Put(Put(page, 0, LittleEndian(0, 8)), LOWER_AT, LittleEndian(HEADER_SIZE, 2)), UPPER_AT,
        LittleEndian(PAGE_SIZE, 2))
  }

  lemma {:induction false} U16(page: seq<bv8>, at: nat, n: nat)
    requires at + 2 <= |page| && n < 0x1_0000
    ensures FromLittleEndian(Slice(Put(page, at, LittleEndian(n, 2)), at, 2)) == n
  {
    LimitsOfWidths();
    LittleEndianReads(n, 2);
    PutIsRead(page, at, LittleEndian(n, 2));
  }

  lemma {:induction false} InitBounds(page: seq<bv8>)
    requires |page| == PAGE_SIZE
    ensures Lower(Init(page)) == HEADER_SIZE && Upper(Init(page)) == PAGE_SIZE
  {
    var p1 := Put(page, 0, LittleEndian(0, 8));
    var p2 := Put(p1, LOWER_AT, LittleEndian(HEADER_SIZE, 2));
    hide LittleEndian, FromLittleEndian, Slice, Put;
    U16(p1, LOWER_AT, HEADER_SIZE);
    U16(p2, UPPER_AT, PAGE_SIZE);
    PutElsewhere(p2, UPPER_AT, LittleEndian(PAGE_SIZE, 2), LOWER_AT, 2);
  }

  /** An initialised page is good and empty. */
  lemma {:induction false} InitOk(page: seq<bv8>)
    requires |page| == PAGE_SIZE
    ensures PageOk(Init(page)) && Tuples(Init(page)) == [] && FreeSpace(Init(page)) == PAGE_SIZE - HEADER_SIZE
  {
    hide Init, Lower, Upper;
    InitBounds(page);
  }

  /** The test of InsertTuple: it asks for the tuple's size, not for its size after padding. */
  predicate TestPasses(page: seq<bv8>, size: nat)
    requires |page| == PAGE_SIZE
  {
    FreeSpace(page) >= size + ITEM_SIZE
  }

  /** Enough room for the padded tuple and its item id. */
  predicate Fits(page: seq<bv8>, size: nat)
    requires |page| == PAGE_SIZE
  {
    FreeSpace(page) >= MaxAlign(size) + ITEM_SIZE
  }

  /** upper less the padded size, as a uint16. */
  function Down(upper: nat, size: nat): (r: nat)
    requires upper < 0x1_0000
    ensures r < 0x1_0000
    ensures upper % 8 == 0 && size + ITEM_SIZE + HEADER_SIZE <= upper ==>
      r == upper - MaxAlign(size) && SIZEOF_HEADER <= r && r + size <= upper
  {
    (upper - MaxAlign(size)) % 0x1_0000
  }

  function NewOffset(page: seq<bv8>, size: nat): (r: nat)
    requires BoundsOk(page) && TestPasses(page, size)
    ensures r == Upper(page) - MaxAlign(size) && SIZEOF_HEADER <= r && r + size <= PAGE_SIZE
  {
    Down(Upper(page), size)
  }

  /** The writes of InsertTuple, in order. */
  function AfterInsert(page: seq<bv8>, tuple: seq<bv8>, lsn: nat): (r: seq<bv8>)
    requires BoundsOk(page) && TestPasses(page, |tuple|)
    ensures |r| == PAGE_SIZE
  {
    var offset := NewOffset(page, |tuple|);
    var p1 := Put(page, 0, LittleEndian(lsn, 8));
    var p2 := Put(p1, HEADER_SIZE + ITEM_SIZE * ItemsCount(page),
                  LittleEndian(ItemWord(ItemId(NORMAL, offset, |tuple|)), ITEM_SIZE));
    var p3 := Put(p2, offset, tuple);
    var p4 := Put(p3, LOWER_AT, LittleEndian(Lower(page) + ITEM_SIZE, 2));
    Put(p4, UPPER_AT, LittleEndian(offset, 2))
  }

  /** Lower and upper after an insert: the item id and the padded tuple are taken off the free space. */
  lemma {:induction false} InsertMovesBounds(page: seq<bv8>, tuple: seq<bv8>, lsn: nat)
    requires BoundsOk(page) && TestPasses(page, |tuple|)
    ensures var page' := AfterInsert(page, tuple, lsn);
      Lower(page') == Lower(page) + ITEM_SIZE && Upper(page') == Upper(page) - MaxAlign(|tuple|)
  {
    hide LittleEndian, FromLittleEndian, Slice, Put;
    var offset := NewOffset(page, |tuple|);
    var p1 := Put(page, 0, LittleEndian(lsn, 8));
    var p2 := Put(p1, HEADER_SIZE + ITEM_SIZE * ItemsCount(page),
                  LittleEndian(ItemWord(ItemId(NORMAL, offset, |tuple|)), ITEM_SIZE));
    var p3 := Put(p2, offset, tuple);
    var p4 := Put(p3, LOWER_AT, LittleEndian(Lower(page) + ITEM_SIZE, 2));
    U16(p3, LOWER_AT, Lower(page) + ITEM_SIZE);
    U16(p4, UPPER_AT, offset);
    PutElsewhere(p4, UPPER_AT, LittleEndian(offset, 2), LOWER_AT, 2);
  }

  /** An insert leaves every byte range it does not write. */
  lemma {:induction false} InsertFrame(page: seq<bv8>, tuple: seq<bv8>, lsn: nat, from: nat, n: nat)
    requires BoundsOk(page) && TestPasses(page, |tuple|) && HEADER_SIZE <= from && from + n <= PAGE_SIZE
    requires from + n <= Lower(page) || Lower(page) + ITEM_SIZE <= from
    requires from + n <= NewOffset(page, |tuple|) || NewOffset(page, |tuple|) + |tuple| <= from
    ensures Slice(AfterInsert(page, tuple, lsn), from, n) == Slice(page, from, n)
  {
    hide LittleEndian, FromLittleEndian, Slice, Put;
    var offset := NewOffset(page, |tuple|);
    var itemAt := HEADER_SIZE + ITEM_SIZE * ItemsCount(page);
    var item := LittleEndian(ItemWord(ItemId(NORMAL, offset, |tuple|)), ITEM_SIZE);
    var p1 := Put(page, 0, LittleEndian(lsn, 8));
    var p2 := Put(p1, itemAt, item);
    var p3 := Put(p2, offset, tuple);
    var p4 := Put(p3, LOWER_AT, LittleEndian(Lower(page) + ITEM_SIZE, 2));
    assert itemAt == Lower(page);
    PutElsewhere(page, 0, LittleEndian(lsn, 8), from, n);
    PutElsewhere(p1, itemAt, item, from, n);
    PutElsewhere(p2, offset, tuple, from, n);
    PutElsewhere(p3, LOWER_AT, LittleEndian(Lower(page) + ITEM_SIZE, 2), from, n);
    PutElsewhere(p4, UPPER_AT, LittleEndian(offset, 2), from, n);
  }

  /** With room for the padded tuple, the item id and the tuple are read back. */
  lemma {:induction false} InsertIsRead(page: seq<bv8>, tuple: seq<bv8>, lsn: nat)
    requires BoundsOk(page) && Fits(page, |tuple|)
    ensures var page' := AfterInsert(page, tuple, lsn); var offset := NewOffset(page, |tuple|);
      && Slice(page', offset, |tuple|) == tuple
      && ItemAt(page', ItemsCount(page)) == ItemId(NORMAL, offset, |tuple|)
  {
    hide LittleEndian, FromLittleEndian, Slice, Put, ItemWord, ItemRead, Limit;
    var offset := NewOffset(page, |tuple|);
    var itemAt := HEADER_SIZE + ITEM_SIZE * ItemsCount(page);
    var word := ItemWord(ItemId(NORMAL, offset, |tuple|));
    ItemRoundTrip(ItemId(NORMAL, offset, |tuple|));
    LimitsOfWidths();
    LittleEndianReads(word, ITEM_SIZE);
    var item := LittleEndian(word, ITEM_SIZE);
    var p1 := Put(page, 0, LittleEndian(lsn, 8));
    var p2 := Put(p1, itemAt, item);
    var p3 := Put(p2, offset, tuple);
    var lower := LittleEndian(Lower(page) + ITEM_SIZE, 2);
    var p4 := Put(p3, LOWER_AT, lower);
    assert itemAt == Lower(page);
    PutIsRead(p1, itemAt, item);
    PutElsewhere(p2, offset, tuple, itemAt, ITEM_SIZE);
    PutElsewhere(p3, LOWER_AT, lower, itemAt, ITEM_SIZE);
    PutElsewhere(p4, UPPER_AT, LittleEndian(offset, 2), itemAt, ITEM_SIZE);
    PutIsRead(p2, offset, tuple);
    PutElsewhere(p3, LOWER_AT, lower, offset, |tuple|);
    PutElsewhere(p4, UPPER_AT, LittleEndian(offset, 2), offset, |tuple|);
  }

  // ---- Layout --------------------------------------------------------------------------------

  lemma {:induction false} TwoBytesRead(b: seq<bv8>)
    requires |b| == 2
    ensures FromLittleEndian(b) == FromByte(b[0]) + 0x100 * FromByte(b[1])
  {
    hide FromByte;
    var b1 := b[1..];
    assert b1[0] == b[1] && b1[1..] == [];
    assert FromLittleEndian(b1) == FromByte(b[1]) + 256 * FromLittleEndian([]);
  }

  lemma {:induction false} FourBytesRead(b: seq<bv8>)
    requires |b| == 4
    ensures FromLittleEndian(b)
         == FromByte(b[0]) + 0x100 * FromByte(b[1]) + 0x1_0000 * FromByte(b[2]) + 0x100_0000 * FromByte(b[3])
  {
    hide FromByte;
    var b1 := b[1..];
    var b2 := b1[1..];
    assert b1[0] == b[1] && b2[0] == b[2] && b2[1] == b[3];
    assert FromLittleEndian(b) == FromByte(b[0]) + 256 * FromLittleEndian(b1);
    assert FromLittleEndian(b1) == FromByte(b[1]) + 256 * FromLittleEndian(b2);
    TwoBytesRead(b2);
  }

  /**
   Where a page keeps what: lower in bytes 8 and 9, upper in 10 and 11, item id i in the four
   bytes from 12 + 4 * i on, lowest first: two bits of flags, 15 of offset, 15 of length.
   */
  lemma {:induction false} PageLayout(page: seq<bv8>, i: nat)
    requires |page| == 8192 && 12 + 4 * i + 4 <= 8192
    ensures Lower(page) == FromByte(page[8]) + 0x100 * FromByte(page[9])
    ensures Upper(page) == FromByte(page[10]) + 0x100 * FromByte(page[11])
    ensures var at := 12 + 4 * i;
      var word := FromByte(page[at]) + 0x100 * FromByte(page[at + 1]) + 0x1_0000 * FromByte(page[at + 2])
        + 0x100_0000 * FromByte(page[at + 3]);
      ItemAt(page, i) == ItemId(word % 4, word / 4 % 0x8000, word / 0x2_0000 % 0x8000)
  {
    hide FromByte, FromLittleEndian;
    TwoBytesRead(Slice(page, 8, 2));
    TwoBytesRead(Slice(page, 10, 2));
    FourBytesRead(Slice(page, 12 + 4 * i, 4));
  }

  /** Sizes are rounded up to a multiple of eight, and no further than the next. */
  lemma {:induction false} RoundsUp(n: nat)
    ensures MaxAlign(n) % 8 == 0 && n <= MaxAlign(n) < n + 8
  {}

  /**
   The bytes an insert leaves: the LSN in the first eight, lowest first; a Normal (1) item id
   for the tuple, at the end of the item ids; and the tuple, its padded size below upper.
   */
  lemma {:induction false} InsertLayout(page: seq<bv8>, tuple: seq<bv8>, lsn: nat, i: nat)
    requires BoundsOk(page) && Fits(page, |tuple|) && i < 8
    ensures var page' := AfterInsert(page, tuple, lsn); var offset := Upper(page) - MaxAlign(|tuple|);
      && FromByte(page'[i]) == lsn / Limit(i) % 256
      && ItemAt(page', (Lower(page) - 12) / 4) == ItemId(1, offset, |tuple|)
      && offset >= 0 && offset + |tuple| <= Upper(page) && page'[offset..offset + |tuple|] == tuple
  {
    InsertIsRead(page, tuple, lsn);
    InsertWritesLsn(page, tuple, lsn);
    LittleEndianPlace(lsn, 8, i);
    var page' := AfterInsert(page, tuple, lsn);
    RoundsUp(|tuple|);
    hide AfterInsert, LittleEndian, FromByte, FromLittleEndian, Limit, Lower, Upper, ItemAt;
    assert page'[i] == Slice(page', 0, 8)[i];
  }

  lemma {:induction false} InsertWritesLsn(page: seq<bv8>, tuple: seq<bv8>, lsn: nat)
    requires BoundsOk(page) && Fits(page, |tuple|)
    ensures Slice(AfterInsert(page, tuple, lsn), 0, 8) == LittleEndian(lsn, 8)
  {
    hide LittleEndian, FromLittleEndian, Slice, Put;
    var offset := NewOffset(page, |tuple|);
    var itemAt := HEADER_SIZE + ITEM_SIZE * ItemsCount(page);
    var item := LittleEndian(ItemWord(ItemId(NORMAL, offset, |tuple|)), ITEM_SIZE);
    var p1 := Put(page, 0, LittleEndian(lsn, 8));
    var p2 := Put(p1, itemAt, item);
    var p3 := Put(p2, offset, tuple);
    var lower := LittleEndian(Lower(page) + ITEM_SIZE, 2);
    var p4 := Put(p3, LOWER_AT, lower);
    PutIsRead(page, 0, LittleEndian(lsn, 8));
    PutElsewhere(p1, itemAt, item, 0, 8);
    PutElsewhere(p2, offset, tuple, 0, 8);
    PutElsewhere(p3, LOWER_AT, lower, 0, 8);
    PutElsewhere(p4, UPPER_AT, LittleEndian(offset, 2), 0, 8);
  }

  // ---- What an insert keeps -------------------------------------------------------------

  lemma {:induction false} EarlierItemStays(page: seq<bv8>, tuple: seq<bv8>, lsn: nat, i: nat)
    requires BoundsOk(page) && Fits(page, |tuple|) && i < ItemsCount(page)
    ensures ItemAt(AfterInsert(page, tuple, lsn), i) == ItemAt(page, i)
  {
    hide AfterInsert, Slice, FromLittleEndian;
    InsertFrame(page, tuple, lsn, HEADER_SIZE + ITEM_SIZE * i, ITEM_SIZE);
  }

  lemma {:induction false} EarlierBytesStay(page: seq<bv8>, tuple: seq<bv8>, lsn: nat, from: nat, n: nat)
    requires BoundsOk(page) && Fits(page, |tuple|) && Upper(page) <= from && from + n <= PAGE_SIZE
    ensures Slice(AfterInsert(page, tuple, lsn), from, n) == Slice(page, from, n)
  {
    hide AfterInsert, Slice, FromLittleEndian;
    InsertFrame(page, tuple, lsn, from, n);
  }

  /**
   GetTuple's assertions on the new offset.  They fail only for a first tuple that
   fills the page to its last byte, and for an empty one.
   */
  predicate OffsetAsserted(page: seq<bv8>, size: nat)
    requires BoundsOk(page) && TestPasses(page, size)
  {
    SIZEOF_HEADER < NewOffset(page, size) < PAGE_SIZE
  }

  lemma {:induction false} InsertBoundsOk(page: seq<bv8>, tuple: seq<bv8>, lsn: nat)
    requires BoundsOk(page) && Fits(page, |tuple|)
    ensures var page' := AfterInsert(page, tuple, lsn);
      BoundsOk(page') && ItemsCount(page') == ItemsCount(page) + 1 && Upper(page') == NewOffset(page, |tuple|)
      && FreeSpace(page') == FreeSpace(page) - MaxAlign(|tuple|) - ITEM_SIZE
  {
    hide AfterInsert, Lower, Upper;
    InsertMovesBounds(page, tuple, lsn);
  }

  lemma {:induction false} EarlierTupleStays(page: seq<bv8>, tuple: seq<bv8>, lsn: nat, i: nat)
    requires PageOk(page) && Fits(page, |tuple|) && i < ItemsCount(page)
    requires var page' := AfterInsert(page, tuple, lsn);
      BoundsOk(page') && ItemsCount(page') == ItemsCount(page) + 1 && Upper(page') <= Upper(page)
    ensures var page' := AfterInsert(page, tuple, lsn);
      ItemOk(page, i) && ItemOk(page', i) && ItemAt(page', i) == ItemAt(page, i) &&
        TupleAt(page', i) == TupleAt(page, i)
  {
    hide AfterInsert, Lower, Upper, Slice, FromLittleEndian, Fits, ItemAt;
    assert ItemOk(page, i);
    EarlierItemStays(page, tuple, lsn, i);
    EarlierBytesStay(page, tuple, lsn, ItemAt(page, i).offset, ItemAt(page, i).length);
  }

  lemma {:induction false} NewTupleIsLast(page: seq<bv8>, tuple: seq<bv8>, lsn: nat)
    requires BoundsOk(page) && Fits(page, |tuple|) && OffsetAsserted(page, |tuple|)
    requires var page' := AfterInsert(page, tuple, lsn);
      BoundsOk(page') && ItemsCount(page') == ItemsCount(page) + 1 && Upper(page') == NewOffset(page, |tuple|)
    ensures var page' := AfterInsert(page, tuple, lsn); var n := ItemsCount(page);
      && ItemOk(page', n) && TupleAt(page', n) == tuple
      && ItemAt(page', n).offset + ItemAt(page', n).length <= Upper(page)
  {
    hide AfterInsert, Lower, Upper, Slice, FromLittleEndian, ItemAt;
    InsertIsRead(page, tuple, lsn);
  }

  /**
   An insert that fits with its padding keeps the page good, appends exactly the
   tuple, and takes the padded size and one item id off the free space.
   */
  lemma {:induction false} InsertKeepsPage(page: seq<bv8>, tuple: seq<bv8>, lsn: nat)
    requires PageOk(page) && Fits(page, |tuple|) && OffsetAsserted(page, |tuple|)
    ensures var page' := AfterInsert(page, tuple, lsn);
      && PageOk(page') && Tuples(page') == Tuples(page) + [tuple]
      && FreeSpace(page') == FreeSpace(page) - MaxAlign(|tuple|) - ITEM_SIZE
  {
    var page' := AfterInsert(page, tuple, lsn);
    var n := ItemsCount(page);
    hide AfterInsert, Lower, Upper, Slice, FromLittleEndian, Fits, ItemAt, TupleAt, NewOffset, OffsetAsserted;
    InsertBoundsOk(page, tuple, lsn);
    NewTupleIsLast(page, tuple, lsn);
    forall i | 0 <= i < n + 1
      ensures ItemOk(page', i) && TupleAt(page', i) == (Tuples(page) + [tuple])[i]
    {
      if i < n { EarlierTupleStays(page, tuple, lsn, i); }
    }
    forall i, j | 0 <= i < j < n + 1
      ensures ItemAt(page', j).offset + ItemAt(page', j).length <= ItemAt(page', i).offset
    {
      EarlierTupleStays(page, tuple, lsn, i);
      if j < n { EarlierTupleStays(page, tuple, lsn, j); }
    }
  }

  /**
   The code's test passes without room for the padding exactly when this breaks the
   page: with the test passed, the page stays good if and only if the padded size and an
   item id fit and GetTuple's assertions on the new offset hold, between 16 and 8192.
   */
  lemma {:induction false} TestMissesPadding(page: seq<bv8>, tuple: seq<bv8>, lsn: nat)
    requires PageOk(page) && TestPasses(page, |tuple|)
    ensures PageOk(AfterInsert(page, tuple, lsn)) <==>
      && Upper(page) - Lower(page) >= MaxAlign(|tuple|) + 4
      && 16 < Upper(page) - MaxAlign(|tuple|) < 8192
  {
    var page' := AfterInsert(page, tuple, lsn);
    if Fits(page, |tuple|) {
      if OffsetAsserted(page, |tuple|) {
        InsertKeepsPage(page, tuple, lsn);
      } else {
        InsertIsRead(page, tuple, lsn);
        InsertBoundsOk(page, tuple, lsn);
        assert !ItemOk(page', ItemsCount(page));
      }
    } else {
      hide AfterInsert, Lower, Upper;
      InsertMovesBounds(page, tuple, lsn);
    }
  }

  // ---- Runs of inserts -------------------------------------------------------------------

  datatype Insert = Insert(tuple: seq<bv8>, lsn: nat)

  predicate CanInsert(page: seq<bv8>, size: nat) {
    BoundsOk(page) && TestPasses(page, size) && Fits(page, size) && OffsetAsserted(page, size)
  }

  ghost predicate AllFit(page: seq<bv8>, inserts: seq<Insert>)
    decreases |inserts|
  {
    inserts == [] ||
    (CanInsert(page, |inserts[0].tuple|) && AllFit(AfterInsert(page, inserts[0].tuple, inserts[0].lsn), inserts[1..]))
  }

  ghost function AfterInserts(page: seq<bv8>, inserts: seq<Insert>): seq<bv8>
    requires AllFit(page, inserts)
    decreases |inserts|
  {
    if inserts == [] then page
    else AfterInserts(AfterInsert(page, inserts[0].tuple, inserts[0].lsn), inserts[1..])
  }

  function TuplesOf(inserts: seq<Insert>): (r: seq<seq<bv8>>)
    ensures |r| == |inserts|
  {
    if inserts == [] then [] else [inserts[0].tuple] + TuplesOf(inserts[1..])
  }

  /** The space the inserts need. */
  function Needed(inserts: seq<Insert>): nat {
    if inserts == [] then 0 else MaxAlign(|inserts[0].tuple|) + ITEM_SIZE + Needed(inserts[1..])
  }

  /** A tuple that is not empty and does not fill a fresh page to its last byte. */
  predicate Ordinary(tuple: seq<bv8>) {
    |tuple| > 0 && MaxAlign(|tuple|) < PAGE_SIZE - SIZEOF_HEADER
  }

  predicate Started(page: seq<bv8>)
    requires BoundsOk(page)
  {
    Lower(page) == HEADER_SIZE ==> Upper(page) == PAGE_SIZE
  }

  /**
   Any sequence of inserts whose padded sizes and item ids fit in the free space
   succeeds; the page stays good, and holds the old tuples followed by exactly the
   new ones, each readable through its item id.
   */
  lemma {:induction false} InsertsKeepPage(page: seq<bv8>, inserts: seq<Insert>)
    requires PageOk(page) && Started(page) && Needed(inserts) <= FreeSpace(page)
    requires forall k :: 0 <= k < |inserts| ==> Ordinary(inserts[k].tuple)
    ensures AllFit(page, inserts)
    ensures var page' := AfterInserts(page, inserts);
      PageOk(page') && Tuples(page') == Tuples(page) + TuplesOf(inserts) &&
        FreeSpace(page') == FreeSpace(page) - Needed(inserts)
    decreases |inserts|
  {
    hide AfterInsert, Lower, Upper, PageOk;
    if inserts == [] {
      assert Tuples(page) + [] == Tuples(page);
    } else {
      var tuple, lsn := inserts[0].tuple, inserts[0].lsn;
      GoodPage(page);
      OrdinaryCanInsert(page, tuple);
      InsertKeepsPage(page, tuple, lsn);
      InsertBoundsOk(page, tuple, lsn);
      InsertMovesBounds(page, tuple, lsn);
      var next := AfterInsert(page, tuple, lsn);
      InsertsKeepPage(next, inserts[1..]);
      assert (Tuples(page) + [tuple]) + TuplesOf(inserts[1..]) == Tuples(page) + ([tuple] + TuplesOf(inserts[1..]));
    }
  }

  lemma {:induction false} GoodPage(page: seq<bv8>)
    requires PageOk(page)
    ensures BoundsOk(page)
  {}

  lemma {:induction false} OrdinaryCanInsert(page: seq<bv8>, tuple: seq<bv8>)
    requires BoundsOk(page) && Started(page) && Ordinary(tuple) && Fits(page, |tuple|)
    ensures CanInsert(page, |tuple|)
  {
    hide Lower, Upper;
  }

  /** The same from a new page. */
  lemma {:induction false} FreshPageHoldsInserts(page: seq<bv8>, inserts: seq<Insert>)
    requires |page| == PAGE_SIZE && Needed(inserts) <= PAGE_SIZE - HEADER_SIZE
    requires forall k :: 0 <= k < |inserts| ==> Ordinary(inserts[k].tuple)
    ensures AllFit(Init(page), inserts)
    ensures PageOk(AfterInserts(Init(page), inserts)) && Tuples(AfterInserts(Init(page), inserts)) == TuplesOf(inserts)
  {
    hide Init, Lower, Upper, PageOk;
    InitOk(page);
    InitBounds(page);
    InsertsKeepPage(Init(page), inserts);
    assert [] + TuplesOf(inserts) == TuplesOf(inserts);
  }

  function Zeros(n: nat): (r: seq<bv8>)
    ensures |r| == n
  {
    seq(n, _ => 0)
  }

  /** Tuples of 24, 24 and 8088 bytes. */
  function ThreeInserts(): seq<Insert> {
    [Insert(Zeros(24), 1), Insert(Zeros(24), 2), Insert(Zeros(8088), 3)]
  }

  lemma {:induction false} ThreeNeed()
    ensures Needed(ThreeInserts()) == 8148 && |ThreeInserts()| == 3
    ensures forall k :: 0 <= k < 3 ==> Ordinary(ThreeInserts()[k].tuple)
  {
    var inserts := ThreeInserts();
    assert inserts[1..] == [Insert(Zeros(24), 2), Insert(Zeros(8088), 3)];
    assert inserts[1..][1..] == [Insert(Zeros(8088), 3)];
    assert inserts[1..][1..][1..] == [];
    hide Zeros;
  }

  /**
   The missing padding bites: after tuples of 24, 24 and 8088 bytes the 28 bytes of a
   fourth pass the test, but its padded size does not fit and the page is spoiled.
   */
  lemma {:induction false} PaddingCounterexample(page: seq<bv8>)
    requires |page| == PAGE_SIZE
    ensures AllFit(Init(page), ThreeInserts())
    ensures var full := AfterInserts(Init(page), ThreeInserts());
      PageOk(full) && TestPasses(full, 28) && !PageOk(AfterInsert(full, Zeros(28), 4))
  {
    hide AllFit, AfterInserts, Init, Lower, Upper, AfterInsert, PageOk, ThreeInserts, Needed, Ordinary, Zeros;
    ThreeNeed();
    InitOk(page);
    InitBounds(page);
    InsertsKeepPage(Init(page), ThreeInserts());
    var full := AfterInserts(Init(page), ThreeInserts());
    GoodPage(full);
    TestMissesPadding(full, Zeros(28), 4);
  }

  // ---- In place ------------------------------------------------------------------------------

  /** memcpy to the page. */
  method Store(buffer: array<bv8>, at: nat, bytes: seq<bv8>)
    requires at + |bytes| <= buffer.Length
    modifies buffer
    ensures buffer[..] == Put(old(buffer[..]), at, bytes)
  {
    ghost var before := buffer[..];
    for i := 0 to |bytes|
      invariant Put(buffer[..], at + i, bytes[i..]) == Put(before, at, bytes)
    {
      ghost var page := buffer[..];
      buffer[at + i] := bytes[i];
      assert buffer[..] == page[at + i := bytes[i]];
      assert bytes[i..][1..] == bytes[i + 1..];
    }
  }

  class HeapPage {
    const buffer: array<bv8>

    constructor (page: array<bv8>)
      requires page.Length == PAGE_SIZE
      ensures buffer == page
    {
      buffer := page;
    }

    method InitPage()
      requires buffer.Length == PAGE_SIZE
      modifies buffer
      ensures buffer[..] == Init(old(buffer[..]))
      ensures PageOk(buffer[..]) && Tuples(buffer[..]) == []
    {
      InitOk(buffer[..]);
      hide Put, LittleEndian, PageOk;
      Store(buffer, 0, LittleEndian(0, 8));
      Store(buffer, LOWER_AT, LittleEndian(HEADER_SIZE, 2));
      Store(buffer, UPPER_AT, LittleEndian(PAGE_SIZE, 2));
    }

    /** InsertTuple on a page it has locked; not inserted means the caller looks for another page. */
    method InsertTuple(tuple: seq<bv8>, lsn: nat) returns (inserted: bool)
      requires buffer.Length == PAGE_SIZE && BoundsOk(buffer[..])
      modifies buffer
      ensures inserted <==> Upper(old(buffer[..])) - Lower(old(buffer[..])) >= |tuple| + 4
      ensures !inserted ==> buffer[..] == old(buffer[..])
      ensures inserted ==> buffer[..] == AfterInsert(old(buffer[..]), tuple, lsn)
      ensures PageOk(old(buffer[..])) && CanInsert(old(buffer[..]), |tuple|) ==>
        inserted && PageOk(buffer[..]) && Tuples(buffer[..]) == Tuples(old(buffer[..])) + [tuple]
    {
      hide Put, LittleEndian, FromLittleEndian, Slice, PageOk;
      var page := buffer[..];
      if FreeSpace(page) < |tuple| + ITEM_SIZE {
        return false;
      }
      if PageOk(page) && CanInsert(page, |tuple|) { InsertKeepsPage(page, tuple, lsn); }
      var offset := NewOffset(page, |tuple|);
      Store(buffer, 0, LittleEndian(lsn, 8));
      Store(buffer, HEADER_SIZE + ITEM_SIZE * ItemsCount(page),
            LittleEndian(ItemWord(ItemId(NORMAL, offset, |tuple|)), ITEM_SIZE));
      Store(buffer, offset, tuple);
      Store(buffer, LOWER_AT, LittleEndian(Lower(page) + ITEM_SIZE, 2));
      Store(buffer, UPPER_AT, LittleEndian(offset, 2));
      inserted := true;
    }

    /** GetTuple, and the bytes the item id says the tuple has. */
    method GetTuple(i: nat) returns (tuple: seq<bv8>)
      requires buffer.Length == PAGE_SIZE && PageOk(buffer[..]) && i < ItemsCount(buffer[..])
      ensures tuple == Tuples(buffer[..])[i]
    {
      var page := buffer[..];
      assert ItemOk(page, i);
      var item := ItemAt(page, i);
      assert item.flags == NORMAL && SIZEOF_HEADER < item.offset < PAGE_SIZE;
      tuple := Slice(page, item.offset, item.length);
    }
  }
}
