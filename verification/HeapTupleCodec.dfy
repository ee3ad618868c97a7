/** Heap tuples as they lie on a page: a 24-byte header and the serialized tuple. */
module HeapTupleCodec {
  import opened Wrappers
  import opened Bytes
  import opened TupleCodec

  const DELETED: nat := 1
  const HAS_NULLS: nat := 2
  const HEADER_SIZE: nat := 24

  /** xid and flags are 64 bits, undo is a signed 64-bit number. */
  datatype HeapPageTupleHeader = HeapPageTupleHeader(xid: nat, undo: int, flags: nat)

  datatype HeapPageTuple = HeapPageTuple(header: HeapPageTupleHeader, values: seq<Datum>, isnull: seq<bool>)

  predicate HeaderFits(h: HeapPageTupleHeader) {
    h.xid < Limit(8) && FitsSigned(h.undo, 8) && h.flags < Limit(8)
  }

  function HeaderBytes(h: HeapPageTupleHeader): (r: seq<bv8>)
    ensures |r| == HEADER_SIZE
  {
    LittleEndian(h.xid, 8) + LittleEndian(Pattern(h.undo, 8), 8) + LittleEndian(h.flags, 8)
  }

  function HeaderRead(bytes: seq<bv8>): HeapPageTupleHeader
    requires |bytes| >= HEADER_SIZE
  {
    HeapPageTupleHeader(FromLittleEndian(bytes[..8]), Signed(FromLittleEndian(bytes[8..16]), 8),
                        FromLittleEndian(bytes[16..24]))
  }

  predicate HasNulls(flags: nat) { flags / HAS_NULLS % 2 == 1 }

  /** The scan's test of the page tuple. */
  predicate IsDeleted(flags: nat) { flags / DELETED % 2 == 1 }

  /** The flags stored: whatever the header held is replaced. */
  function StoredFlags(hasNulls: bool): nat { if hasNulls then HAS_NULLS else 0 }

  function Serialize(t: HeapPageTuple, attrs: seq<AttributeDescriptor>): Result<seq<bv8>>
    requires Matches(attrs, t.values, t.isnull)
  {
    match TupleCodec.Encode(attrs, t.values, t.isnull)
    case Err(m) => Err(m)
    case Ok(info) => Ok(HeaderBytes(t.header.(flags := StoredFlags(info.hasNulls))) + info.tuple)
  }

  function Deserialize(bytes: seq<bv8>, attrs: seq<AttributeDescriptor>): Result<HeapPageTuple> {
    if |bytes| < HEADER_SIZE then Err("past the end")
    else
      var header := HeaderRead(bytes);
      match TupleCodec.Decode(attrs, bytes[HEADER_SIZE..], HasNulls(header.flags))
      case Err(m) => Err(m)
      case Ok(t) => Ok(HeapPageTuple(header, t.values, t.isNull))
  }

  lemma {:induction false} HeaderRoundTrip(h: HeapPageTupleHeader, rest: seq<bv8>)
    requires HeaderFits(h)
    ensures HeaderRead(HeaderBytes(h) + rest) == h
  {
    var bytes := HeaderBytes(h) + rest;
    LittleEndianReads(h.xid, 8);
    LittleEndianReads(Pattern(h.undo, 8), 8);
    LittleEndianReads(h.flags, 8);
    CutFits(h.undo, 8);
    hide LittleEndian, FromLittleEndian, Limit;
    assert bytes[..8] == LittleEndian(h.xid, 8);
    assert bytes[8..16] == LittleEndian(Pattern(h.undo, 8), 8);
    assert bytes[16..24] == LittleEndian(h.flags, 8);
  }

  /**
   A heap tuple comes back with its XID, its undo pointer, its NULLs and its values.
   Its flags do not: only the NULLs bit is kept, and it is set exactly when
   some attribute is NULL, so a Deleted flag is lost.
   */
  lemma {:induction false} HeapTupleRoundTrip(t: HeapPageTuple, attrs: seq<AttributeDescriptor>)
    requires Matches(attrs, t.values, t.isnull) && Encodable(attrs, t.isnull, |attrs|) && HeaderFits(t.header)
    ensures var bytes := Serialize(t, attrs);
      bytes.Ok? &&
      var got := Deserialize(bytes.value, attrs);
      && got.Ok? && got.value.isnull == t.isnull && AllStored(attrs, t.values, t.isnull, got.value.values)
      && got.value.header == t.header.(flags := if true in t.isnull then 2 else 0)
  {
    hide TupleCodec.Encode, TupleCodec.Decode, AllStored, HeaderBytes, HeaderRead, HeaderFits;
    TupleRoundTrip(attrs, t.values, t.isnull);
    var info := TupleCodec.Encode(attrs, t.values, t.isnull).value;
    StoredFlagsFit(t.header, info.hasNulls);
    HeaderRoundTrip(t.header.(flags := StoredFlags(info.hasNulls)), info.tuple);
    var bytes := HeaderBytes(t.header.(flags := StoredFlags(info.hasNulls))) + info.tuple;
    assert bytes[HEADER_SIZE..] == info.tuple;
  }

  lemma {:induction false} StoredFlagsFit(h: HeapPageTupleHeader, hasNulls: bool)
    requires HeaderFits(h)
    ensures HeaderFits(h.(flags := StoredFlags(hasNulls))) && HasNulls(StoredFlags(hasNulls)) == hasNulls
  {
    LimitsOfWidths();
  }

  /** The bytes a heap tuple takes, before padding. */
  lemma {:induction false} SizeOnPage(t: HeapPageTuple, attrs: seq<AttributeDescriptor>)
    requires Matches(attrs, t.values, t.isnull) && Encodable(attrs, t.isnull, |attrs|)
    ensures Serialize(t, attrs).Ok? &&
      |Serialize(t, attrs).value| ==
        HEADER_SIZE + DataSize(attrs, t.values, t.isnull, |attrs|)
        + (if true in t.isnull then (|attrs| + 7) / 8 else 0)
  {
    DataSizeExact(attrs, t.values, t.isnull, |attrs|);
  }

  // ---- Layout --------------------------------------------------------------------------

  lemma {:induction false} HeaderLayout(h: HeapPageTupleHeader, i: nat)
    requires i < 8
    ensures var bytes := HeaderBytes(h);
      && FromByte(bytes[i]) == h.xid / Limit(i) % 256
      && FromByte(bytes[8 + i]) == Pattern(h.undo, 8) / Limit(i) % 256
      && FromByte(bytes[16 + i]) == h.flags / Limit(i) % 256
  {
    hide LittleEndian, FromByte, Limit;
    LittleEndianPlace(h.xid, 8, i);
    LittleEndianPlace(Pattern(h.undo, 8), 8, i);
    LittleEndianPlace(h.flags, 8, i);
  }

  /**
   The bytes of a heap tuple: XID and undo pointer, eight bytes each, lowest first; a flags
   word that is 2 if some attribute is NULL and 0 otherwise, whatever the header held; and the
   tuple.  So the bit of value 1, by which the scan knows a deleted tuple, is never stored.
   */
  lemma {:induction false} HeapTupleLayout(t: HeapPageTuple, attrs: seq<AttributeDescriptor>, i: nat)
    requires Matches(attrs, t.values, t.isnull) && Encodable(attrs, t.isnull, |attrs|) && i < 8
    ensures Serialize(t, attrs).Ok? && TupleCodec.Encode(attrs, t.values, t.isnull).Ok?
    ensures var bytes := Serialize(t, attrs).value;
      && |bytes| >= 24 && bytes[24..] == TupleCodec.Encode(attrs, t.values, t.isnull).value.tuple
      && FromByte(bytes[i]) == t.header.xid / Limit(i) % 256
      && FromByte(bytes[8 + i]) == Pattern(t.header.undo, 8) / Limit(i) % 256
      && FromByte(bytes[16]) == (if true in t.isnull then 2 else 0)
      && (i > 0 ==> FromByte(bytes[16 + i]) == 0)
      && !IsDeleted(HeaderRead(bytes).flags)
  {
    hide TupleCodec.Encode, HeaderBytes, FromByte, HeaderRead, Pattern, Limit;
    EncodesWithFlag(attrs, t.values, t.isnull);
    var info := TupleCodec.Encode(attrs, t.values, t.isnull).value;
    var h := t.header.(flags := StoredFlags(info.hasNulls));
    HeaderLayout(h, i);
    HeaderLayout(h, 0);
    SmallFlags(h.flags, i);
    FlagsRead(h, info.tuple);
    assert (HeaderBytes(h) + info.tuple)[24..] == info.tuple;
  }

  lemma {:induction false} EncodesWithFlag(attrs: seq<AttributeDescriptor>, values: seq<Datum>, isnull: seq<bool>)
    requires Matches(attrs, values, isnull) && Encodable(attrs, isnull, |attrs|)
    ensures var info := TupleCodec.Encode(attrs, values, isnull); info.Ok? && (info.value.hasNulls <==> true in isnull)
  {}

  lemma {:induction false} SmallFlags(flags: nat, i: nat)
    requires flags < 256
    ensures flags / Limit(0) % 256 == flags && (i > 0 ==> flags / Limit(i) % 256 == 0)
  {
    if i > 0 {
      assert Limit(i) == 256 * Limit(i - 1) && Limit(i) >= 256;
      QuotientIs(flags, Limit(i), 0, flags);
    }
  }

  lemma {:induction false} FlagsRead(h: HeapPageTupleHeader, rest: seq<bv8>)
    requires h.flags < 256
    ensures HeaderRead(HeaderBytes(h) + rest).flags == h.flags
  {
    LimitsOfWidths();
    LittleEndianReads(h.flags, 8);
    hide LittleEndian, FromLittleEndian, Limit, Pattern, Signed;
    assert (HeaderBytes(h) + rest)[16..24] == LittleEndian(h.flags, 8);
  }

  /**
   The two flags of a header are read from different bits of byte 16, so neither test is
   disturbed by the other flag: 1 for a deleted tuple, 2 for one with NULLs.
   */
  lemma {:induction false} FlagsAreSeparate(bytes: seq<bv8>)
    requires |bytes| >= HEADER_SIZE
    ensures IsDeleted(HeaderRead(bytes).flags) <==> bytes[16] & 1 != 0
    ensures HasNulls(HeaderRead(bytes).flags) <==> bytes[16] & 2 != 0
  {
    var flags := HeaderRead(bytes).flags;
    var high := LowBitsOfFlags(bytes[16..24]);
    assert bytes[16..24][0] == bytes[16];
    LowTwo(BitValue(bytes[16] & 1 != 0), BitValue(bytes[16] & 2 != 0), high);
    hide FromLittleEndian, FromByte, Signed;
    assert flags == FromLittleEndian(bytes[16..24]);
  }

  /** The flags word is the two low bits of its first byte, and four times something. */
  lemma {:induction false} LowBitsOfFlags(word: seq<bv8>) returns (high: nat)
    requires |word| == 8
    ensures FromLittleEndian(word) == BitValue(word[0] & 1 != 0) + 2 * BitValue(word[0] & 2 != 0) + 4 * high
  {
    var h := LowBitsOfByte(word[0]);
    hide FromByte;
    assert FromLittleEndian(word) == FromByte(word[0]) + 256 * FromLittleEndian(word[1..]);
    high := h + 64 * FromLittleEndian(word[1..]);
    hide FromLittleEndian;
  }

  lemma {:induction false} LowBitsOfByte(b: bv8) returns (high: nat)
    ensures FromByte(b) == BitValue(b & 1 != 0) + 2 * BitValue(b & 2 != 0) + 4 * high
  {
    high := BitValue(b & 0x04 != 0) + 2 * BitValue(b & 0x08 != 0) + 4 * BitValue(b & 0x10 != 0) +
      8 * BitValue(b & 0x20 != 0) + 16 * BitValue(b & 0x40 != 0) + 32 * BitValue(b & 0x80 != 0);
  }

  lemma {:induction false} LowTwo(low: nat, next: nat, high: nat)
    requires low < 2 && next < 2
    ensures (low + 2 * next + 4 * high) % 2 == low && (low + 2 * next + 4 * high) / 2 % 2 == next
  {}
}
