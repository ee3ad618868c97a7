/** Tuples as bytes: an optional NULL bitmap, then the attributes that are not NULL, one after another. */
module TupleCodec {
  import opened Wrappers
  import opened Bytes
  import opened NullBitmaps

  /** length is an int16; a by-reference attribute with a positive length is fixed in size, any other is variable. */
  datatype AttributeDescriptor = AttributeDescriptor(length: int, byVal: bool)

  /** A datum is a scalar or points into memory, of which the bytes from there on are given. */
  datatype Datum = Scalar(v: int) | Pointer(memory: seq<bv8>)

  const EMPTY_DATUM: Datum := Scalar(0)

  const LENGTH_FIELD: nat := 4

  predicate KnownWidth(length: int) { length in {1, 2, 4, 8} }

  /** The length field of variable data. */
  function VarLength(memory: seq<bv8>): nat
    requires |memory| >= LENGTH_FIELD
  {
    FromLittleEndian(memory[..LENGTH_FIELD])
  }

  /** What the serializer asserts or dereferences without a check. */
  predicate WellTyped(a: AttributeDescriptor, d: Datum) {
    if a.byVal then a.length > 0 && d.Scalar?
    else if a.length > 0 then d.Pointer? && |d.memory| >= a.length
    else d.Pointer? && |d.memory| >= LENGTH_FIELD && 0 < VarLength(d.memory) < 0x8000_0000 &&
         |d.memory| >= LENGTH_FIELD + VarLength(d.memory)
  }

  /** The size pass, for one attribute. */
  function AttrSize(a: AttributeDescriptor, d: Datum): nat
    requires WellTyped(a, d)
  {
    if a.byVal || a.length > 0 then a.length else LENGTH_FIELD + VarLength(d.memory)
  }

  function AttrBytes(a: AttributeDescriptor, d: Datum): seq<bv8>
    requires WellTyped(a, d) && (a.byVal ==> KnownWidth(a.length))
  {
    if a.byVal then LittleEndian(Pattern(d.v, a.length), a.length)
    else if a.length > 0 then d.memory[..a.length]
    else d.memory[..LENGTH_FIELD + VarLength(d.memory)]
  }

  // ---- What is written ------------------------------------------------------

  predicate Matches(attrs: seq<AttributeDescriptor>, values: seq<Datum>, isnull: seq<bool>) {
    && |attrs| == |values| == |isnull|
    && forall k :: 0 <= k < |attrs| && !isnull[k] ==> WellTyped(attrs[k], values[k])
  }

  /** All by-value attributes present among the first n have a width the serializer knows. */
  predicate Encodable(attrs: seq<AttributeDescriptor>, isnull: seq<bool>, n: nat)
    requires |attrs| == |isnull| && n <= |attrs|
  {
    forall k :: 0 <= k < n && !isnull[k] && attrs[k].byVal ==> KnownWidth(attrs[k].length)
  }

  function DataSize(attrs: seq<AttributeDescriptor>, values: seq<Datum>, isnull: seq<bool>, n: nat): nat
    requires Matches(attrs, values, isnull) && n <= |attrs|
  {
    if n == 0 then 0
    else DataSize(attrs, values, isnull, n - 1) + if isnull[n - 1] then 0 else AttrSize(attrs[n - 1], values[n - 1])
  }

  function DataBytes(attrs: seq<AttributeDescriptor>, values: seq<Datum>, isnull: seq<bool>, n: nat): seq<bv8>
    requires Matches(attrs, values, isnull) && n <= |attrs| && Encodable(attrs, isnull, n)
  {
    if n == 0 then []
    else DataBytes(attrs, values, isnull, n - 1) + if isnull[n - 1] then [] else AttrBytes(attrs[n - 1], values[n - 1])
  }

  datatype SerializedTupleInfo = SerializedTupleInfo(tuple: seq<bv8>, hasNulls: bool)

  function Encode(attrs: seq<AttributeDescriptor>, values: seq<Datum>, isnull: seq<bool>): Result<SerializedTupleInfo>
    requires Matches(attrs, values, isnull)
  {
    if !Encodable(attrs, isnull, |attrs|) then Err("invalid by val attr length")
    else
      var data := DataBytes(attrs, values, isnull, |attrs|);
      if true in isnull then Ok(SerializedTupleInfo(Bitmap(isnull) + data, true))
      else Ok(SerializedTupleInfo(data, false))
  }

  /** The size pass is exact: it counts the bytes the write pass writes. */
  lemma {:induction false} DataSizeExact(attrs: seq<AttributeDescriptor>, values: seq<Datum>, isnull: seq<bool>, n: nat)
    requires Matches(attrs, values, isnull) && n <= |attrs| && Encodable(attrs, isnull, n)
    ensures |DataBytes(attrs, values, isnull, n)| == DataSize(attrs, values, isnull, n)
  {
    if n > 0 { DataSizeExact(attrs, values, isnull, n - 1); }
  }

  // ---- What is read -----------------------------------------------------------

  /**
   One attribute at the cursor: its datum and its length.  A pointer is into the
   bytes read.  Reading past the end, which the code does not check, is an error here.
   */
  function ExtractAttrDatum(cursor: seq<bv8>, a: AttributeDescriptor): (r: Result<(Datum, nat)>)
    ensures r.Ok? ==> r.value.1 <= |cursor|
  {
    if a.byVal then
      if !KnownWidth(a.length) then Err("unknown type length")
      else if |cursor| < a.length then Err("past the end")
      else Ok((Scalar(Signed(FromLittleEndian(cursor[..a.length]), a.length)), a.length))
    else if a.length > 0 then
      if |cursor| < a.length then Err("past the end") else Ok((Pointer(cursor), a.length))
    else if |cursor| < LENGTH_FIELD then Err("past the end")
    else if VarLength(cursor) >= 0x8000_0000 || |cursor| < LENGTH_FIELD + VarLength(cursor) then Err("past the end")
    else Ok((Pointer(cursor), LENGTH_FIELD + VarLength(cursor)))
  }

  /** The values of the first n attributes and the bytes they took. */
  function Parsed(attrs: seq<AttributeDescriptor>, isnull: seq<bool>, data: seq<bv8>,
                  n: nat): (r: Result<(seq<Datum>, nat)>)
    requires |attrs| == |isnull| && n <= |attrs|
    ensures r.Ok? ==> |r.value.0| == n && r.value.1 <= |data|
  {
    if n == 0 then Ok(([], 0))
    else
      match Parsed(attrs, isnull, data, n - 1)
      case Err(m) => Err(m)
      case Ok((values, cursor)) =>
        if isnull[n - 1] then Ok((values + [EMPTY_DATUM], cursor))
        else
          match ExtractAttrDatum(data[cursor..], attrs[n - 1])
          case Err(m) => Err(m)
          case Ok((value, length)) => Ok((values + [value], cursor + length))
  }

  datatype DeserializedTuple = DeserializedTuple(values: seq<Datum>, isNull: seq<bool>)

  function NullsRead(bytes: seq<bv8>, n: nat, hasnulls: bool): (r: seq<bool>)
    requires hasnulls ==> BitmapSize(n) <= |bytes|
    ensures |r| == n
  {
    seq(n, i requires 0 <= i < n => hasnulls && !BitIsSet(bytes, i))
  }

  function Decode(attrs: seq<AttributeDescriptor>, bytes: seq<bv8>, hasnulls: bool): Result<DeserializedTuple> {
    var skip := if hasnulls then BitmapSize(|attrs|) else 0;
    if |bytes| < skip then Err("past the end")
    else
      var isnull := NullsRead(bytes, |attrs|, hasnulls);
      match Parsed(attrs, isnull, bytes[skip..], |attrs|)
      case Err(m) => Err(m)
      case Ok((values, _)) => Ok(DeserializedTuple(values, isnull))
  }

  // ---- Round trip ----------------------------------------------------------------

  /** Two data the attribute cannot tell apart once stored: equal cut values, or equal bytes in its extent. */
  predicate SameStored(a: AttributeDescriptor, written: Datum, got: Datum)
    requires WellTyped(a, written)
  {
    if a.byVal then got == Scalar(CutTo(written.v, a.length))
    else
      got.Pointer? && |got.memory| >= AttrSize(a, written) &&
      got.memory[..AttrSize(a, written)] == written.memory[..AttrSize(a, written)]
  }

  /** Every attribute that is not NULL comes back as it was stored, every other as the scalar 0. */
  predicate AllStored(attrs: seq<AttributeDescriptor>, values: seq<Datum>, isnull: seq<bool>, got: seq<Datum>)
    requires Matches(attrs, values, isnull)
  {
    |got| == |values| &&
    forall k :: 0 <= k < |attrs| ==> if isnull[k] then got[k] == Scalar(0) else SameStored(attrs[k], values[k], got[k])
  }

  /** Reading an attribute where it was written gives it back, whatever follows it. */
  lemma {:induction false} ExtractReads(a: AttributeDescriptor, d: Datum, cursor: seq<bv8>)
    requires WellTyped(a, d) && (a.byVal ==> KnownWidth(a.length)) && AttrBytes(a, d) <= cursor
    ensures var r := ExtractAttrDatum(cursor, a);
      r.Ok? && r.value.1 == AttrSize(a, d) && SameStored(a, d, r.value.0)
  {
    var size := AttrSize(a, d);
    assert |AttrBytes(a, d)| == size && cursor[..size] == AttrBytes(a, d);
    if a.byVal {
      LittleEndianReads(Pattern(d.v, a.length), a.length);
    } else if a.length <= 0 {
      assert cursor[..LENGTH_FIELD] == cursor[..size][..LENGTH_FIELD];
      assert d.memory[..size][..LENGTH_FIELD] == d.memory[..LENGTH_FIELD];
      hide FromLittleEndian;
    }
  }

  /**
   Whatever the bytes, an attribute is read from them exactly when its width is known and they
   are long enough, and what is read is what serializing it writes.
   */
  lemma {:induction false} ExtractExactly(a: AttributeDescriptor, cursor: seq<bv8>)
    ensures var r := ExtractAttrDatum(cursor, a);
      && (r.Ok? <==>
            if a.byVal then KnownWidth(a.length) && |cursor| >= a.length
            else if a.length > 0 then |cursor| >= a.length
            else |cursor| >= 4 && VarLength(cursor) < 0x8000_0000 && |cursor| >= 4 + VarLength(cursor))
      && (r.Ok? ==>
            var (d, n) := r.value;
            && (WellTyped(a, d) <==> a.byVal || a.length > 0 || VarLength(cursor) > 0)
            && (WellTyped(a, d) ==> n == AttrSize(a, d) && AttrBytes(a, d) == cursor[..n]))
  {
    if a.byVal && KnownWidth(a.length) && |cursor| >= a.length {
      var bytes := cursor[..a.length];
      BelowLimit(bytes);
      PatternOfSigned(FromLittleEndian(bytes), a.length);
      LittleEndianWrites(bytes);
    }
    hide FromLittleEndian, LittleEndian, Limit, Pattern, Signed;
  }

  lemma {:induction false} BelowLimit(bytes: seq<bv8>)
    ensures FromLittleEndian(bytes) < Limit(|bytes|)
  {
    if bytes != [] {
      hide FromByte;
      BelowLimit(bytes[1..]);
    }
  }

  lemma {:induction false} PrefixSplits(before: seq<bv8>, own: seq<bv8>, data: seq<bv8>)
    requires before + own <= data
    ensures before <= data && own <= data[|before|..]
  {
    assert data[..|before|] == (before + own)[..|before|] == before;
    assert data[|before|..][..|own|] == data[..|before| + |own|][|before|..] == own;
  }

  lemma {:induction false} ParsedReads(attrs: seq<AttributeDescriptor>, values: seq<Datum>, isnull: seq<bool>,
                                       data: seq<bv8>, n: nat)
    requires Matches(attrs, values, isnull) && n <= |attrs| && Encodable(attrs, isnull, n)
    requires DataBytes(attrs, values, isnull, n) <= data
    ensures var r := Parsed(attrs, isnull, data, n);
      r.Ok? && r.value.1 == |DataBytes(attrs, values, isnull, n)|
      && forall k :: 0 <= k < n ==>
           if isnull[k] then r.value.0[k] == Scalar(0) else SameStored(attrs[k], values[k], r.value.0[k])
  {
    if n > 0 {
      hide SameStored, ExtractAttrDatum, AttrBytes, WellTyped, AttrSize;
      var before := DataBytes(attrs, values, isnull, n - 1);
      var all := DataBytes(attrs, values, isnull, n);
      PrefixSplits(before, all[|before|..], data);
      ParsedReads(attrs, values, isnull, data, n - 1);
      if !isnull[n - 1] {
        var own := AttrBytes(attrs[n - 1], values[n - 1]);
        assert all == before + own;
        PrefixSplits(before, own, data);
        ExtractReads(attrs[n - 1], values[n - 1], data[|before|..]);
        AttrSizeExact(attrs[n - 1], values[n - 1]);
      }
      var got := Parsed(attrs, isnull, data, n - 1).value.0;
      var r := Parsed(attrs, isnull, data, n);
      assert r.Ok? && |r.value.0| == n && r.value.0[..n - 1] == got;
      forall k | 0 <= k < n
        ensures if isnull[k] then r.value.0[k] == Scalar(0) else SameStored(attrs[k], values[k], r.value.0[k])
      {
        if k < n - 1 { assert r.value.0[k] == got[k]; }
      }
    }
  }

  lemma {:induction false} AttrSizeExact(a: AttributeDescriptor, d: Datum)
    requires WellTyped(a, d) && (a.byVal ==> KnownWidth(a.length))
    ensures |AttrBytes(a, d)| == AttrSize(a, d)
  {}

  /**
   Deserializing a serialized tuple gives back its NULLs and, for each attribute that is not
   NULL, its stored value.
   */
  lemma {:induction false} TupleRoundTrip(attrs: seq<AttributeDescriptor>, values: seq<Datum>, isnull: seq<bool>)
    requires Matches(attrs, values, isnull) && Encodable(attrs, isnull, |attrs|)
    ensures var info := Encode(attrs, values, isnull);
      info.Ok? && (info.value.hasNulls <==> true in isnull) &&
      var got := Decode(attrs, info.value.tuple, info.value.hasNulls);
      got.Ok? && got.value.isNull == isnull && AllStored(attrs, values, isnull, got.value.values)
  {
    var info := Encode(attrs, values, isnull).value;
    var data := DataBytes(attrs, values, isnull, |attrs|);
    var skip := if info.hasNulls then BitmapSize(|attrs|) else 0;
    assert info.tuple[skip..] == data;
    forall i | 0 <= i < |attrs|
      ensures NullsRead(info.tuple, |attrs|, info.hasNulls)[i] == isnull[i]
    {
      if info.hasNulls {
        BitmapReads(isnull, i);
        assert info.tuple[i / 8] == Bitmap(isnull)[i / 8];
      } else {
        assert isnull[i] in isnull;
      }
    }
    assert NullsRead(info.tuple, |attrs|, info.hasNulls) == isnull;
    ParsedReads(attrs, values, isnull, data, |attrs|);
  }

  /** A by-value attribute comes back unchanged exactly when its value fits its width. */
  lemma {:induction false} ByValueExact(a: AttributeDescriptor, d: Datum)
    requires WellTyped(a, d) && a.byVal && KnownWidth(a.length)
    ensures SameStored(a, d, d) <==> FitsSigned(d.v, a.length)
  {
    CutFits(d.v, a.length);
  }

  // ---- Layout -----------------------------------------------------------------------

  lemma {:induction false} BytesOfEarlier(attrs: seq<AttributeDescriptor>, values: seq<Datum>, isnull: seq<bool>,
                                          k: nat,
                                          n: nat)
    requires Matches(attrs, values, isnull) && k < n <= |attrs| && Encodable(attrs, isnull, n) && !isnull[k]
    ensures var at := DataSize(attrs, values, isnull, k); var size := AttrSize(attrs[k], values[k]);
      var data := DataBytes(attrs, values, isnull, n);
      at + size <= |data| && data[at..at + size] == AttrBytes(attrs[k], values[k])
    decreases n
  {
    hide AttrBytes, AttrSize, WellTyped;
    var at, size := DataSize(attrs, values, isnull, k), AttrSize(attrs[k], values[k]);
    DataSizeExact(attrs, values, isnull, n - 1);
    AttrSizeExact(attrs[k], values[k]);
    var before := DataBytes(attrs, values, isnull, n - 1);
    var data := DataBytes(attrs, values, isnull, n);
    if k < n - 1 {
      BytesOfEarlier(attrs, values, isnull, k, n - 1);
      assert data[at..at + size] == before[at..at + size];
    }
  }

  /**
   The layout of a tuple: a bitmap of a bit an attribute if any is NULL, then the attributes
   that are not, in order and with nothing between them, each at the sum of the earlier sizes.
   */
  lemma {:induction false} TupleLayout(attrs: seq<AttributeDescriptor>, values: seq<Datum>, isnull: seq<bool>, k: nat)
    requires Matches(attrs, values, isnull) && Encodable(attrs, isnull, |attrs|) && k < |attrs|
    ensures Encode(attrs, values, isnull).Ok?
    ensures var bytes := Encode(attrs, values, isnull).value.tuple;
      var skip := if true in isnull then (|attrs| + 7) / 8 else 0;
      && |bytes| == skip + DataSize(attrs, values, isnull, |attrs|)
      && (true in isnull ==> k / 8 < skip && (bytes[k / 8] & ((1 as bv8) << (k % 8)) != 0 <==> !isnull[k]))
      && (!isnull[k] ==>
            var at := skip + DataSize(attrs, values, isnull, k); var size := AttrSize(attrs[k], values[k]);
            at + size <= |bytes| && bytes[at..at + size] == AttrBytes(attrs[k], values[k]))
  {
    hide AttrBytes, AttrSize, WellTyped, Bitmap, DataBytes, DataSize;
    DataSizeExact(attrs, values, isnull, |attrs|);
    var data := DataBytes(attrs, values, isnull, |attrs|);
    var head := if true in isnull then Bitmap(isnull) else [];
    BitmapLayout(isnull, k);
    assert Encode(attrs, values, isnull).value.tuple == head + data;
    hide Encode;
    if !isnull[k] {
      BytesOfEarlier(attrs, values, isnull, k, |attrs|);
      SliceAfter(head, data, DataSize(attrs, values, isnull, k), AttrSize(attrs[k], values[k]));
    }
  }

  lemma {:induction false} SliceAfter(head: seq<bv8>, data: seq<bv8>, at: nat, size: nat)
    requires at + size <= |data|
    ensures (head + data)[|head| + at..|head| + at + size] == data[at..at + size]
  {}

  /** A number of four bytes, lowest first. */
  function FourBytes(b: seq<bv8>): nat
    requires |b| >= 4
  {
    FromByte(b[0]) + 0x100 * FromByte(b[1]) + 0x1_0000 * FromByte(b[2]) + 0x100_0000 * FromByte(b[3])
  }

  /**
   The bytes of an attribute.  A scalar takes its width, byte i being of weight 256 to the i;
   an attribute of fixed length that many bytes; any other is a length of four bytes, lowest
   first, that does not count itself, and that many bytes.
   */
  lemma {:induction false} AttrLayout(a: AttributeDescriptor, d: Datum, i: nat)
    requires WellTyped(a, d) && (a.byVal ==> KnownWidth(a.length))
    ensures |AttrBytes(a, d)| == if a.byVal || a.length > 0 then a.length else 4 + FourBytes(d.memory)
    ensures a.byVal && i < a.length ==> FromByte(AttrBytes(a, d)[i]) == Pattern(d.v, a.length) / Limit(i) % 256
    ensures !a.byVal && i < |AttrBytes(a, d)| ==> i < |d.memory| && AttrBytes(a, d)[i] == d.memory[i]
  {
    AttrSizeExact(a, d);
    if a.byVal {
      if i < a.length { LittleEndianPlace(Pattern(d.v, a.length), a.length, i); }
    } else if a.length <= 0 {
      FourBytesRead(d.memory[..LENGTH_FIELD]);
    }
    hide FromLittleEndian, LittleEndian, FromByte, Limit;
  }

  lemma {:induction false} FourBytesRead(b: seq<bv8>)
    requires |b| == 4
    ensures FromLittleEndian(b) == FourBytes(b)
  {
    hide FromByte;
    var b1 := b[1..];
    var b2 := b1[1..];
    var b3 := b2[1..];
    assert b1[0] == b[1] && b2[0] == b[2] && b3[0] == b[3] && b3[1..] == [];
    assert FromLittleEndian(b3) == FromByte(b[3]) + 256 * FromLittleEndian([]);
    assert FromLittleEndian(b2) == FromByte(b[2]) + 256 * FromLittleEndian(b3);
    assert FromLittleEndian(b1) == FromByte(b[1]) + 256 * FromLittleEndian(b2);
    assert FromLittleEndian(b) == FromByte(b[0]) + 256 * FromLittleEndian(b1);
  }

  // ---- In place -------------------------------------------------------------------

  /** memcpy of the bytes to the buffer at the cursor. */
  method Store(buffer: array<bv8>, cursor: nat, bytes: seq<bv8>)
    requires cursor + |bytes| <= buffer.Length
    modifies buffer
    ensures buffer[..] == old(buffer[..cursor]) + bytes + old(buffer[cursor + |bytes|..])
  {
    for i := 0 to |bytes|
      invariant forall j :: 0 <= j < i ==> buffer[cursor + j] == bytes[j]
      invariant forall j :: 0 <= j < buffer.Length && !(cursor <= j < cursor + i) ==> buffer[j] == old(buffer[j])
    {
      buffer[cursor + i] := bytes[i];
    }
    assert buffer[..] == buffer[..cursor] + buffer[cursor..cursor + |bytes|] + buffer[cursor + |bytes|..];
  }

  lemma {:induction false} StoredPrefix(before: seq<bv8>, bytes: seq<bv8>, cursor: nat, after: seq<bv8>)
    requires cursor + |bytes| <= |before| && after == before[..cursor] + bytes + before[cursor + |bytes|..]
    ensures after[..cursor + |bytes|] == before[..cursor] + bytes
  {}

  /** The first pass. */
  method TupleSize(attrs: seq<AttributeDescriptor>, values: seq<Datum>, isnull: seq<bool>)
    returns (size: nat, hasnulls: bool)
    requires Matches(attrs, values, isnull)
    ensures hasnulls <==> true in isnull
    ensures size == DataSize(attrs, values, isnull, |attrs|) + if hasnulls then BitmapSize(|attrs|) else 0
  {
    size, hasnulls := 0, false;
    for idx := 0 to |attrs|
      invariant hasnulls <==> true in isnull[..idx]
      invariant size == DataSize(attrs, values, isnull, idx)
    {
      if isnull[idx] {
        hasnulls := true;
      } else if attrs[idx].byVal {
        size := size + attrs[idx].length;
      } else if attrs[idx].length > 0 {
        size := size + attrs[idx].length;
      } else {
        size := size + LENGTH_FIELD + VarLength(values[idx].memory);
      }
    }
    assert isnull[..|attrs|] == isnull;
    if hasnulls {
      size := size + BitmapSize(|attrs|);
    }
  }

  /** The length field and then the data it counts. */
  method WriteVariable(buffer: array<bv8>, cursor: nat, memory: seq<bv8>) returns (next: nat)
    requires |memory| >= LENGTH_FIELD && |memory| >= LENGTH_FIELD + VarLength(memory)
    requires cursor + LENGTH_FIELD + VarLength(memory) <= buffer.Length
    modifies buffer
    ensures next == cursor + LENGTH_FIELD + VarLength(memory)
    ensures buffer[..next] == old(buffer[..cursor]) + memory[..LENGTH_FIELD + VarLength(memory)]
  {
    VariableBytes(memory);
    hide FromLittleEndian, LittleEndian;
    ghost var before := buffer[..];
    var length := VarLength(memory);
    Store(buffer, cursor, LittleEndian(length, LENGTH_FIELD));
    next := cursor + LENGTH_FIELD;
    ghost var middle := buffer[..];
    StoredPrefix(before, LittleEndian(length, LENGTH_FIELD), cursor, middle);
    Store(buffer, next, memory[LENGTH_FIELD..LENGTH_FIELD + length]);
    StoredPrefix(middle, memory[LENGTH_FIELD..LENGTH_FIELD + length], next, buffer[..]);
    next := next + length;
    AppendedBytes(before[..cursor], LittleEndian(length, LENGTH_FIELD), memory[LENGTH_FIELD..LENGTH_FIELD + length]);
  }

  /** The write pass, for one attribute; not ok is the exception. */
  method WriteAttr(buffer: array<bv8>, cursor: nat, a: AttributeDescriptor, d: Datum) returns (ok: bool, next: nat)
    requires WellTyped(a, d) && cursor + AttrSize(a, d) <= buffer.Length
    modifies buffer
    ensures ok <==> (a.byVal ==> KnownWidth(a.length))
    ensures ok ==> next == cursor + AttrSize(a, d) && buffer[..next] == old(buffer[..cursor]) + AttrBytes(a, d)
  {
    hide FromLittleEndian, LittleEndian, Pattern;
    ok, next := true, cursor;
    ghost var before := buffer[..];
    if a.byVal {
      if a.length !in {1, 2, 4, 8} {
        return false, cursor;
      }
      Store(buffer, cursor, LittleEndian(Pattern(d.v, a.length), a.length));
      next := cursor + a.length;
      StoredPrefix(before, LittleEndian(Pattern(d.v, a.length), a.length), cursor, buffer[..]);
    } else if a.length > 0 {
      Store(buffer, cursor, d.memory[..a.length]);
      next := cursor + a.length;
      StoredPrefix(before, d.memory[..a.length], cursor, buffer[..]);
    } else {
      next := WriteVariable(buffer, cursor, d.memory);
    }
  }

  /** Both passes over a tuple of fewer than 65535 attributes (an attribute number is 16 bits wide). */
  method Serialize(attrs: seq<AttributeDescriptor>, values: seq<Datum>, isnull: seq<bool>)
    returns (r: Result<SerializedTupleInfo>)
    requires |attrs| < 0xFFFF && Matches(attrs, values, isnull)
    ensures r == Encode(attrs, values, isnull)
  {
    hide AttrSize, AttrBytes, WellTyped, Bitmap;
    var size, hasnulls := TupleSize(attrs, values, isnull);
    var buffer := new bv8[size];
    var cursor := 0;
    ghost var head: seq<bv8> := [];
    if hasnulls {
      WriteBitmap(buffer, isnull);
      cursor := BitmapSize(|attrs|);
      head := Bitmap(isnull);
    }
    for idx := 0 to |attrs|
      invariant Encodable(attrs, isnull, idx)
      invariant cursor == |head| + DataSize(attrs, values, isnull, idx) <= size
      invariant buffer[..cursor] == head + DataBytes(attrs, values, isnull, idx)
    {
      DataSizeGrows(attrs, values, isnull, idx + 1, |attrs|);
      if !isnull[idx] {
        var ok: bool;
        ok, cursor := WriteAttr(buffer, cursor, attrs[idx], values[idx]);
        if !ok {
          return Err("invalid by val attr length");
        }
        AppendedBytes(head, DataBytes(attrs, values, isnull, idx), AttrBytes(attrs[idx], values[idx]));
      }
    }
    DataSizeExact(attrs, values, isnull, |attrs|);
    assert buffer[..] == buffer[..cursor];
    assert [] + DataBytes(attrs, values, isnull, |attrs|) == DataBytes(attrs, values, isnull, |attrs|);
    r := Ok(SerializedTupleInfo(buffer[..], hasnulls));
  }

  lemma {:induction false} AppendedBytes(a: seq<bv8>, b: seq<bv8>, c: seq<bv8>)
    ensures (a + b) + c == a + (b + c)
  {}

  lemma {:induction false} VariableBytes(memory: seq<bv8>)
    requires |memory| >= LENGTH_FIELD && |memory| >= LENGTH_FIELD + VarLength(memory)
    ensures var n := VarLength(memory);
      LittleEndian(n, LENGTH_FIELD) + memory[LENGTH_FIELD..LENGTH_FIELD + n] == memory[..LENGTH_FIELD + n]
  {
    LittleEndianWrites(memory[..LENGTH_FIELD]);
  }

  lemma {:induction false} DataSizeGrows(attrs: seq<AttributeDescriptor>, values: seq<Datum>, isnull: seq<bool>,
                                         m: nat, n: nat)
    requires Matches(attrs, values, isnull) && m <= n <= |attrs|
    ensures DataSize(attrs, values, isnull, m) <= DataSize(attrs, values, isnull, n)
  {
    if m < n { DataSizeGrows(attrs, values, isnull, m, n - 1); }
  }

  method ReadNulls(bytes: seq<bv8>, n: nat) returns (isnull: seq<bool>)
    requires BitmapSize(n) <= |bytes|
    ensures isnull == NullsRead(bytes, n, true)
  {
    hide Meets, Mask;
    isnull := [];
    for idx := 0 to n
      invariant |isnull| == idx
      invariant forall k :: 0 <= k < idx ==> isnull[k] == NullsRead(bytes, n, true)[k]
    {
      isnull := isnull + [!Meets(bytes[idx / 8], Mask(idx % 8))];
    }
  }

  /** The value loop of Deserialize, from the byte after the bitmap. */
  method ReadValues(attrs: seq<AttributeDescriptor>, isnull: seq<bool>, data: seq<bv8>) returns (r: Result<seq<Datum>>)
    requires |attrs| == |isnull|
    ensures r == match Parsed(attrs, isnull, data, |attrs|) case Err(m) => Err(m) case Ok((values, _)) => Ok(values)
  {
    hide ExtractAttrDatum;
    var values: seq<Datum> := [];
    var cursor := 0;
    for idx := 0 to |attrs|
      invariant cursor <= |data|
      invariant Parsed(attrs, isnull, data, idx) == Ok((values, cursor))
    {
      if isnull[idx] {
        values := values + [EMPTY_DATUM];
      } else {
        var extracted := ExtractAttrDatum(data[cursor..], attrs[idx]);
        if extracted.Err? {
          ParsedFails(attrs, isnull, data, idx + 1, |attrs|);
          return Err(extracted.message);
        }
        values := values + [extracted.value.0];
        cursor := cursor + extracted.value.1;
      }
    }
    r := Ok(values);
  }

  method Deserialize(attrs: seq<AttributeDescriptor>, bytes: seq<bv8>, hasnulls: bool)
    returns (r: Result<DeserializedTuple>)
    requires |attrs| < 0xFFFF
    ensures r == Decode(attrs, bytes, hasnulls)
  {
    hide Parsed;
    var cursor := 0;
    var isnull: seq<bool>;
    if hasnulls {
      if |bytes| < BitmapSize(|attrs|) { return Err("past the end"); }
      isnull := ReadNulls(bytes, |attrs|);
      cursor := BitmapSize(|attrs|);
    } else {
      isnull := seq(|attrs|, _ => false);
      assert isnull == NullsRead(bytes, |attrs|, false);
    }
    var values := ReadValues(attrs, isnull, bytes[cursor..]);
    r := match values case Err(m) => Err(m) case Ok(vs) => Ok(DeserializedTuple(vs, isnull));
  }

  lemma {:induction false} ParsedFails(attrs: seq<AttributeDescriptor>, isnull: seq<bool>, data: seq<bv8>, m: nat,
                                       n: nat)
    requires |attrs| == |isnull| && m <= n <= |attrs| && Parsed(attrs, isnull, data, m).Err?
    ensures Parsed(attrs, isnull, data, n) == Parsed(attrs, isnull, data, m)
  {
    if m < n { ParsedFails(attrs, isnull, data, m, n - 1); }
  }
}
