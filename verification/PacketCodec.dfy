/**
 The wire format: a type byte, a big-endian length that counts itself and the
 payload, and the payload of one of five packet kinds.
 */
module PacketCodec {
  import opened Wrappers
  import opened Bytes

  type Text = seq<bv8>

  datatype Packet =
    | Query(query: Text)
    | CommandComplete(tag: Text, rows: int)
    | TupleDescription(names: seq<Text>)
    | DataRow(values: seq<Option<Text>>)
    | ErrorResponse(message: Text)

  const UINT32: nat := 0x1_0000_0000
  const NULL_LENGTH: nat := 0xFFFF_FFFF
  const HEADER_SIZE: nat := 5

  function TypeByte(p: Packet): nat {
    match p
    case Query(_) => 'Q' as nat
    case CommandComplete(_, _) => 'C' as nat
    case TupleDescription(_) => 'T' as nat
    case DataRow(_) => 'D' as nat
    case ErrorResponse(_) => 'E' as nat
  }

  // ---- Writing --------------------------------------------------------------------

  function Uint32Bytes(n: nat): (r: seq<bv8>)
    ensures |r| == 4
  {
    BigEndian(n % UINT32, 4)
  }

  function TextBytes(s: Text): seq<bv8> { Uint32Bytes(|s|) + s }

  function NamesBytes(names: seq<Text>): seq<bv8> {
    if names == [] then [] else NamesBytes(names[..|names| - 1]) + TextBytes(names[|names| - 1])
  }

  function ValueBytes(v: Option<Text>): seq<bv8> {
    match v case None => Uint32Bytes(NULL_LENGTH) case Some(s) => TextBytes(s)
  }

  function ValuesBytes(values: seq<Option<Text>>): seq<bv8> {
    if values == [] then [] else ValuesBytes(values[..|values| - 1]) + ValueBytes(values[|values| - 1])
  }

  function PayloadBytes(p: Packet): seq<bv8> {
    match p
    case Query(query) => TextBytes(query)
    case CommandComplete(tag, rows) => TextBytes(tag) + BigEndian(Pattern(rows, 8), 8)
    case TupleDescription(names) => Uint32Bytes(|names|) + NamesBytes(names)
    case DataRow(values) => Uint32Bytes(|values|) + ValuesBytes(values)
    case ErrorResponse(message) => TextBytes(message)
  }

  function PacketBytes(p: Packet): seq<bv8> {
    [ToByte(TypeByte(p))] + Uint32Bytes(|PayloadBytes(p)| + 4) + PayloadBytes(p)
  }

  // The size pass, which runs before anything is written.

  function TextSize(s: Text): nat { 4 + |s| }

  function NamesSize(names: seq<Text>): nat {
    if names == [] then 0 else NamesSize(names[..|names| - 1]) + TextSize(names[|names| - 1])
  }

  function ValueSize(v: Option<Text>): nat {
    match v case None => 4 case Some(s) => 4 + |s|
  }

  function ValuesSize(values: seq<Option<Text>>): nat {
    if values == [] then 0 else ValuesSize(values[..|values| - 1]) + ValueSize(values[|values| - 1])
  }

  function PayloadSize(p: Packet): nat {
    match p
    case Query(query) => TextSize(query)
    case CommandComplete(tag, _) => TextSize(tag) + 8
    case TupleDescription(names) => 4 + NamesSize(names)
    case DataRow(values) => 4 + ValuesSize(values)
    case ErrorResponse(message) => TextSize(message)
  }

  lemma {:induction false} NamesSizeExact(names: seq<Text>)
    ensures |NamesBytes(names)| == NamesSize(names)
    ensures NamesSize(names) >= 4 * |names|
  {
    if names != [] { NamesSizeExact(names[..|names| - 1]); }
  }

  lemma {:induction false} ValuesSizeExact(values: seq<Option<Text>>)
    ensures |ValuesBytes(values)| == ValuesSize(values)
    ensures ValuesSize(values) >= 4 * |values|
  {
    if values != [] { ValuesSizeExact(values[..|values| - 1]); }
  }

  /** For every packet the size pass counts exactly the bytes that are written. */
  lemma {:induction false} PayloadSizeExact(p: Packet)
    ensures |PayloadBytes(p)| == PayloadSize(p)
    ensures |PacketBytes(p)| == HEADER_SIZE + PayloadSize(p)
  {
    hide BigEndian, ToByte;
    match p {
      case TupleDescription(names) => NamesSizeExact(names);
      case DataRow(values) => ValuesSizeExact(values);
      case _ =>
    }
  }

  // ---- Reading ----------------------------------------------------------------------

  const PAST_BORDERS := "could not read past buffer borders"

  function TakeUint32(b: seq<bv8>): Result<(nat, seq<bv8>)> {
    if |b| < 4 then Err(PAST_BORDERS) else Ok((FromBigEndian(b[..4]), b[4..]))
  }

  function TakeInt64(b: seq<bv8>): Result<(int, seq<bv8>)> {
    if |b| < 8 then Err(PAST_BORDERS) else Ok((Signed(FromBigEndian(b[..8]), 8), b[8..]))
  }

  function TakeBuffer(b: seq<bv8>, n: nat): Result<(Text, seq<bv8>)> {
    if |b| < n then Err(PAST_BORDERS) else Ok((b[..n], b[n..]))
  }

  function TakeText(b: seq<bv8>): Result<(Text, seq<bv8>)> {
    match TakeUint32(b)
    case Err(m) => Err(m)
    case Ok((n, rest)) => TakeBuffer(rest, n)
  }

  function TakeValue(b: seq<bv8>): Result<(Option<Text>, seq<bv8>)> {
    match TakeUint32(b)
    case Err(m) => Err(m)
    case Ok((n, rest)) =>
      if n == NULL_LENGTH then Ok((None, rest))
      else
        match TakeBuffer(rest, n)
        case Err(m) => Err(m)
        case Ok((s, rest')) => Ok((Some(s), rest'))
  }

  function TakeNames(b: seq<bv8>, n: nat): Result<(seq<Text>, seq<bv8>)> {
    if n == 0 then Ok(([], b))
    else
      match TakeNames(b, n - 1)
      case Err(m) => Err(m)
      case Ok((names, rest)) =>
        match TakeText(rest)
        case Err(m) => Err(m)
        case Ok((name, rest')) => Ok((names + [name], rest'))
  }

  function TakeValues(b: seq<bv8>, n: nat): Result<(seq<Option<Text>>, seq<bv8>)> {
    if n == 0 then Ok(([], b))
    else
      match TakeValues(b, n - 1)
      case Err(m) => Err(m)
      case Ok((values, rest)) =>
        match TakeValue(rest)
        case Err(m) => Err(m)
        case Ok((value, rest')) => Ok((values + [value], rest'))
  }

  predicate KnownType(type_: nat) {
    type_ in {'Q' as nat, 'C' as nat, 'T' as nat, 'D' as nat, 'E' as nat}
  }

  /** A payload of a known type; bytes left over are ignored. */
  function ParsePayload(type_: nat, b: seq<bv8>): Result<Packet>
    requires KnownType(type_)
  {
    if type_ == 'Q' as nat then
      match TakeText(b) case Err(m) => Err(m) case Ok((s, _)) => Ok(Query(s))
    else if type_ == 'E' as nat then
      match TakeText(b) case Err(m) => Err(m) case Ok((s, _)) => Ok(ErrorResponse(s))
    else if type_ == 'C' as nat then
      match TakeText(b)
      case Err(m) => Err(m)
      case Ok((tag, rest)) =>
        match TakeInt64(rest) case Err(m) => Err(m) case Ok((rows, _)) => Ok(CommandComplete(tag, rows))
    else
      match TakeUint32(b)
      case Err(m) => Err(m)
      case Ok((n, rest)) =>
        if type_ == 'T' as nat then
          match TakeNames(rest, n) case Err(m) => Err(m) case Ok((names, _)) => Ok(TupleDescription(names))
        else
          match TakeValues(rest, n) case Err(m) => Err(m) case Ok((values, _)) => Ok(DataRow(values))
  }

  /** What ReceivePacket makes of the bytes a connection delivers before it closes. */
  datatype Received = Closed | Failed(message: string) | Got(packet: Packet, rest: seq<bv8>)

  function Receive(stream: seq<bv8>): (r: Received)
    ensures r.Got? ==> |r.rest| < |stream|
  {
    if stream == [] then Closed
    else if !KnownType(FromByte(stream[0])) then Failed("Unknown packet type")
    else if |stream| < HEADER_SIZE then Failed("could not recv")
    else
      var length := FromBigEndian(stream[1..HEADER_SIZE]);
      if length < 4 then Failed("invalid length field value in packet")
      else if |stream| < 1 + length then Failed("could not recv")
      else
        match ParsePayload(FromByte(stream[0]), stream[HEADER_SIZE..1 + length])
        case Err(m) => Failed(m)
        case Ok(p) => Got(p, stream[1 + length..])
  }

  /** ReceivePacket until the connection is closed. */
  function ReceiveAll(stream: seq<bv8>): Result<seq<Packet>>
    decreases |stream|
  {
    match Receive(stream)
    case Closed => Ok([])
    case Failed(m) => Err(m)
    case Got(p, rest) =>
      match ReceiveAll(rest) case Err(m) => Err(m) case Ok(ps) => Ok([p] + ps)
  }

  // ---- Round trip ------------------------------------------------------------------------

  /** Within the 32-bit limit of the length field, and a row count of 64 bits. */
  predicate Sendable(p: Packet) {
    PayloadSize(p) + 4 < UINT32 && (p.CommandComplete? ==> FitsSigned(p.rows, 8))
  }

  lemma {:induction false} Uint32IsRead(n: nat)
    requires n < UINT32
    ensures FromBigEndian(Uint32Bytes(n)) == n
  {
    hide BigEndian, FromBigEndian, Limit;
    LimitsOfWidths();
    BigEndianReads(n, 4);
  }

  lemma {:induction false} Uint32Reads(n: nat, tail: seq<bv8>)
    requires n < UINT32
    ensures TakeUint32(Uint32Bytes(n) + tail) == Ok((n, tail))
  {
    hide BigEndian, FromBigEndian;
    Uint32IsRead(n);
    assert (Uint32Bytes(n) + tail)[..4] == Uint32Bytes(n);
    assert (Uint32Bytes(n) + tail)[4..] == tail;
  }

  lemma {:induction false} TextReads(s: Text, tail: seq<bv8>)
    requires |s| < UINT32
    ensures TakeText(TextBytes(s) + tail) == Ok((s, tail))
  {
    hide BigEndian, FromBigEndian;
    assert TextBytes(s) + tail == Uint32Bytes(|s|) + (s + tail);
    Uint32Reads(|s|, s + tail);
    assert (s + tail)[..|s|] == s && (s + tail)[|s|..] == tail;
  }

  lemma {:induction false} ValueReads(v: Option<Text>, tail: seq<bv8>)
    requires v.Some? ==> |v.value| < NULL_LENGTH
    ensures TakeValue(ValueBytes(v) + tail) == Ok((v, tail))
  {
    hide BigEndian, FromBigEndian;
    match v {
      case None => Uint32Reads(NULL_LENGTH, tail);
      case Some(s) =>
        assert ValueBytes(v) + tail == Uint32Bytes(|s|) + (s + tail);
        Uint32Reads(|s|, s + tail);
        assert (s + tail)[..|s|] == s && (s + tail)[|s|..] == tail;
    }
  }

  lemma {:induction false} Int64Reads(v: int, tail: seq<bv8>)
    requires FitsSigned(v, 8)
    ensures TakeInt64(BigEndian(Pattern(v, 8), 8) + tail) == Ok((v, tail))
  {
    BigEndianReads(Pattern(v, 8), 8);
    CutFits(v, 8);
    var b := BigEndian(Pattern(v, 8), 8);
    hide BigEndian, FromBigEndian, Limit;
    assert (b + tail)[..8] == b && (b + tail)[8..] == tail;
  }

  lemma {:induction false} NamesRead(names: seq<Text>, tail: seq<bv8>)
    requires NamesSize(names) < UINT32
    ensures TakeNames(NamesBytes(names) + tail, |names|) == Ok((names, tail))
    decreases |names|
  {
    hide TakeText, TextBytes;
    if names == [] {
      assert NamesBytes(names) + tail == tail;
    } else {
      var n := |names| - 1;
      var front, last := names[..n], names[n];
      assert NamesBytes(names) + tail == NamesBytes(front) + (TextBytes(last) + tail);
      NamesRead(front, TextBytes(last) + tail);
      TextReads(last, tail);
      assert front + [last] == names;
    }
  }

  lemma {:induction false} ValuesRead(values: seq<Option<Text>>, tail: seq<bv8>)
    requires ValuesSize(values) + 4 < UINT32
    ensures TakeValues(ValuesBytes(values) + tail, |values|) == Ok((values, tail))
    decreases |values|
  {
    hide TakeValue, ValueBytes;
    if values == [] {
      assert ValuesBytes(values) + tail == tail;
    } else {
      var n := |values| - 1;
      var front, last := values[..n], values[n];
      assert ValuesBytes(values) + tail == ValuesBytes(front) + (ValueBytes(last) + tail);
      ValuesRead(front, ValueBytes(last) + tail);
      ValueReads(last, tail);
      assert front + [last] == values;
    }
  }

  lemma {:induction false} PayloadReads(p: Packet)
    requires Sendable(p)
    ensures KnownType(TypeByte(p)) && ParsePayload(TypeByte(p), PayloadBytes(p)) == Ok(p)
  {
    hide TakeText, TakeUint32, TakeInt64, TextBytes, Uint32Bytes, BigEndian, FitsSigned;
    match p {
      case Query(s) =>
        TextReads(s, []);
        assert TextBytes(s) + [] == TextBytes(s);
      case ErrorResponse(s) =>
        TextReads(s, []);
        assert TextBytes(s) + [] == TextBytes(s);
      case CommandComplete(tag, rows) =>
        var b := BigEndian(Pattern(rows, 8), 8);
        TextReads(tag, b);
        Int64Reads(rows, []);
        assert b + [] == b;
      case TupleDescription(names) =>
        NamesSizeExact(names);
        Uint32Reads(|names|, NamesBytes(names));
        NamesRead(names, []);
        assert NamesBytes(names) + [] == NamesBytes(names);
      case DataRow(values) =>
        ValuesSizeExact(values);
        Uint32Reads(|values|, ValuesBytes(values));
        ValuesRead(values, []);
        assert ValuesBytes(values) + [] == ValuesBytes(values);
    }
  }

  lemma {:induction false} FrameSplits(kind: bv8, length: seq<bv8>, payload: seq<bv8>, tail: seq<bv8>)
    requires |length| == 4
    ensures var stream := [kind] + length + payload + tail; var end := HEADER_SIZE + |payload|;
      stream[0] == kind && stream[1..HEADER_SIZE] == length && stream[HEADER_SIZE..end] == payload &&
        stream[end..] == tail
  {}

  /** One packet at the head of a stream is received as it was sent, and the rest is left. */
  lemma {:induction false} PacketReads(p: Packet, tail: seq<bv8>)
    requires Sendable(p)
    ensures Receive(PacketBytes(p) + tail) == Got(p, tail)
  {
    hide PayloadBytes, ParsePayload, ToByte, FromByte, BigEndian, FromBigEndian, PayloadSize, Uint32Bytes;
    PayloadSizeExact(p);
    PayloadReads(p);
    ByteIsItself(TypeByte(p));
    Uint32IsRead(|PayloadBytes(p)| + 4);
    FrameSplits(ToByte(TypeByte(p)), Uint32Bytes(|PayloadBytes(p)| + 4), PayloadBytes(p), tail);
  }

  function Stream(packets: seq<Packet>): seq<bv8> {
    if packets == [] then [] else PacketBytes(packets[0]) + Stream(packets[1..])
  }

  /** For any list of packets within the limit, receiving their concatenated encodings gives back the list. */
  lemma {:induction false} StreamRoundTrip(packets: seq<Packet>)
    requires forall k :: 0 <= k < |packets| ==> Sendable(packets[k])
    ensures ReceiveAll(Stream(packets)) == Ok(packets)
  {
    hide PacketBytes, Receive, Sendable;
    if packets == [] {
      assert Receive([]).Closed? by { NothingIsClosed(); }
    } else {
      PacketReads(packets[0], Stream(packets[1..]));
      StreamRoundTrip(packets[1..]);
      assert packets == [packets[0]] + packets[1..];
    }
  }

  lemma {:induction false} NothingIsClosed()
    ensures Receive([]).Closed?
  {}

  // ---- The wire ------------------------------------------------------------------------------

  /** A number of four bytes at a place, highest first. */
  function FourAt(b: seq<bv8>, at: nat): nat
    requires at + 4 <= |b|
  {
    0x100_0000 * FromByte(b[at]) + 0x1_0000 * FromByte(b[at + 1]) + 0x100 * FromByte(b[at + 2]) + FromByte(b[at + 3])
  }

  lemma {:induction false} FourAreRead(b: seq<bv8>)
    requires |b| == 4
    ensures FromBigEndian(b) == FourAt(b, 0)
  {
    hide FromByte;
    var b3 := b[..3];
    var b2 := b3[..2];
    var b1 := b2[..1];
    assert b3[2] == b[2] && b2[1] == b[1] && b1[0] == b[0] && b1[..0] == [];
    assert FromBigEndian(b1) == 256 * FromBigEndian([]) + FromByte(b[0]);
    assert FromBigEndian(b2) == 256 * FromBigEndian(b1) + FromByte(b[1]);
    assert FromBigEndian(b3) == 256 * FromBigEndian(b2) + FromByte(b[2]);
    assert FromBigEndian(b) == 256 * FromBigEndian(b3) + FromByte(b[3]);
  }

  lemma {:induction false} Uint32Layout(n: nat, tail: seq<bv8>)
    requires n < 0x1_0000_0000
    ensures FourAt(Uint32Bytes(n) + tail, 0) == n
  {
    LimitsOfWidths();
    hide FromByte, BigEndian, FromBigEndian, Limit;
    BigEndianReads(n, 4);
    FourAreRead(Uint32Bytes(n));
  }

  /**
   A packet on the wire: 'Q', 'C', 'T', 'D' or 'E'; the payload's length plus four in four
   bytes, highest first; the payload.
   */
  lemma {:induction false} PacketLayout(p: Packet)
    requires Sendable(p)
    ensures var bytes := PacketBytes(p); var payload := PayloadBytes(p);
      && |bytes| == 5 + |payload| && bytes[5..] == payload && FourAt(bytes, 1) == |payload| + 4
      && FromByte(bytes[0]) ==
           match p
           case Query(_) => 0x51
           case CommandComplete(_, _) => 0x43
           case TupleDescription(_) => 0x54
           case DataRow(_) => 0x44
           case ErrorResponse(_) => 0x45
  {
    hide FromByte, ToByte, BigEndian, PayloadBytes, PayloadSize;
    PayloadSizeExact(p);
    ByteIsItself(TypeByte(p));
    var length := Uint32Bytes(|PayloadBytes(p)| + 4);
    Uint32Layout(|PayloadBytes(p)| + 4, []);
    assert length + [] == length;
    assert PacketBytes(p)[1..5] == length && PacketBytes(p)[5..] == PayloadBytes(p);
  }

  /** A string is its length in four bytes and its characters; a NULL is four bytes of ones and nothing else. */
  lemma {:induction false} TextLayout(s: Text)
    requires |s| < 0x1_0000_0000
    ensures |TextBytes(s)| == 4 + |s| && FourAt(TextBytes(s), 0) == |s| && TextBytes(s)[4..] == s
    ensures |ValueBytes(None)| == 4 && FourAt(ValueBytes(None), 0) == 0xFFFF_FFFF && ValueBytes(Some(s)) == TextBytes(s)
  {
    hide BigEndian, FourAt;
    Uint32Layout(|s|, s);
    Uint32Layout(0xFFFF_FFFF, []);
    assert Uint32Bytes(0xFFFF_FFFF) + [] == Uint32Bytes(0xFFFF_FFFF);
  }

  /** The payloads: the row count takes eight bytes, highest first; names and values follow their number, in order. */
  lemma {:induction false} PayloadLayout(p: Packet, i: nat)
    requires Sendable(p) && i < 8
    ensures var b := PayloadBytes(p);
      match p
      case Query(query) => b == TextBytes(query)
      case ErrorResponse(message) => b == TextBytes(message)
      case CommandComplete(tag, rows) =>
        && |b| == 12 + |tag| && b[..4 + |tag|] == TextBytes(tag)
        && FromByte(b[|b| - 1 - i]) == Pattern(rows, 8) / Limit(i) % 256
      case TupleDescription(names) => |b| >= 4 && FourAt(b, 0) == |names| && b[4..] == NamesBytes(names)
      case DataRow(values) => |b| >= 4 && FourAt(b, 0) == |values| && b[4..] == ValuesBytes(values)
  {
    hide BigEndian, FromByte, FourAt, Limit, Pattern, TextBytes, NamesBytes, ValuesBytes;
    match p {
      case CommandComplete(tag, rows) =>
        TextSized(tag);
        BigEndianPlace(Pattern(rows, 8), 8, i);
      case TupleDescription(names) =>
        NamesSizeExact(names);
        Uint32Layout(|names|, NamesBytes(names));
      case DataRow(values) =>
        ValuesSizeExact(values);
        Uint32Layout(|values|, ValuesBytes(values));
      case _ =>
    }
  }

  lemma {:induction false} TextSized(s: Text)
    ensures |TextBytes(s)| == 4 + |s|
  {}

  // ---- Nothing else is received -----------------------------------------------------------------

  lemma {:induction false} Uint32IsWritten(word: seq<bv8>)
    requires |word| == 4
    ensures FromBigEndian(word) < 0x1_0000_0000 && Uint32Bytes(FromBigEndian(word)) == word
  {
    hide FromBigEndian, BigEndian, Limit, FromByte;
    LimitsOfWidths();
    BigBelowLimit(word);
    BigEndianWrites(word);
  }

  lemma {:induction false} TakenUint32(b: seq<bv8>)
    ensures TakeUint32(b).Ok? <==> |b| >= 4
    ensures TakeUint32(b).Err? ==> TakeUint32(b) == Err("could not read past buffer borders")
    ensures TakeUint32(b).Ok? ==>
      var (n, rest) := TakeUint32(b).value;
      n < 0x1_0000_0000 && n == FourAt(b, 0) && b == Uint32Bytes(n) + rest
  {
    hide FromBigEndian, BigEndian, FromByte, Uint32Bytes;
    if |b| >= 4 {
      Uint32IsWritten(b[..4]);
      FourAreRead(b[..4]);
      assert b == b[..4] + b[4..];
    }
  }

  lemma {:induction false} BigBelowLimit(bytes: seq<bv8>)
    ensures FromBigEndian(bytes) < Limit(|bytes|)
    decreases |bytes|
  {
    if bytes != [] {
      hide FromByte;
      BigBelowLimit(bytes[..|bytes| - 1]);
    }
  }

  /**
   A string read is a string that was written there, and one is read exactly if the bytes its
   length calls for are there.
   */
  lemma {:induction false} TakenText(b: seq<bv8>)
    ensures TakeText(b).Ok? <==> |b| >= 4 && |b| >= 4 + FourAt(b, 0)
    ensures TakeText(b).Err? ==> TakeText(b) == Err("could not read past buffer borders")
    ensures TakeText(b).Ok? ==>
      var (s, rest) := TakeText(b).value; |s| < 0x1_0000_0000 && b == TextBytes(s) + rest
  {
    TakenUint32(b);
    hide FromBigEndian, BigEndian, FourAt, TakeUint32;
    if TakeText(b).Ok? {
      var (n, rest) := TakeUint32(b).value;
      var (s, rest') := TakeText(b).value;
      assert rest == s + rest';
      assert Uint32Bytes(n) + (s + rest') == (Uint32Bytes(n) + s) + rest';
    }
  }

  lemma {:induction false} TakenValue(b: seq<bv8>)
    ensures TakeValue(b).Err? ==> TakeValue(b) == Err("could not read past buffer borders")
    ensures TakeValue(b).Ok? ==>
      var (v, rest) := TakeValue(b).value; (v.Some? ==> |v.value| < NULL_LENGTH) && b == ValueBytes(v) + rest
  {
    TakenUint32(b);
    hide FromBigEndian, BigEndian, FourAt, TakeUint32;
    if TakeValue(b).Ok? && TakeValue(b).value.0.Some? {
      var (n, rest) := TakeUint32(b).value;
      var (v, rest') := TakeValue(b).value;
      assert rest == v.value + rest';
      assert Uint32Bytes(n) + (v.value + rest') == (Uint32Bytes(n) + v.value) + rest';
    }
  }

  lemma {:induction false} TakenInt64(b: seq<bv8>)
    ensures TakeInt64(b).Ok? <==> |b| >= 8
    ensures TakeInt64(b).Err? ==> TakeInt64(b) == Err("could not read past buffer borders")
    ensures TakeInt64(b).Ok? ==>
      var (v, rest) := TakeInt64(b).value; FitsSigned(v, 8) && b == BigEndian(Pattern(v, 8), 8) + rest
  {
    if |b| >= 8 {
      BigBelowLimit(b[..8]);
      BigEndianWrites(b[..8]);
      PatternOfSigned(FromBigEndian(b[..8]), 8);
    }
    hide FromBigEndian, BigEndian, Limit, Pattern, Signed, FitsSigned;
    assert |b| >= 8 ==> b == b[..8] + b[8..];
  }

  lemma {:induction false} TakenNames(b: seq<bv8>, n: nat)
    ensures TakeNames(b, n).Err? ==> TakeNames(b, n) == Err("could not read past buffer borders")
    ensures TakeNames(b, n).Ok? ==>
      var (names, rest) := TakeNames(b, n).value; |names| == n && b == NamesBytes(names) + rest
  {
    hide TakeText, TextBytes;
    if n > 0 {
      TakenNames(b, n - 1);
      if TakeNames(b, n - 1).Ok? {
        var (names, rest) := TakeNames(b, n - 1).value;
        TakenText(rest);
        if TakeText(rest).Ok? {
          var (name, rest') := TakeText(rest).value;
          assert (names + [name])[..n - 1] == names;
          assert NamesBytes(names) + (TextBytes(name) + rest') == (NamesBytes(names) + TextBytes(name)) + rest';
        }
      }
    } else {
      assert b == [] + b;
    }
  }

  lemma {:induction false} TakenValues(b: seq<bv8>, n: nat)
    ensures TakeValues(b, n).Err? ==> TakeValues(b, n) == Err("could not read past buffer borders")
    ensures TakeValues(b, n).Ok? ==>
      var (values, rest) := TakeValues(b, n).value; |values| == n && b == ValuesBytes(values) + rest
  {
    hide TakeValue, ValueBytes;
    if n > 0 {
      TakenValues(b, n - 1);
      if TakeValues(b, n - 1).Ok? {
        var (values, rest) := TakeValues(b, n - 1).value;
        TakenValue(rest);
        if TakeValue(rest).Ok? {
          var (value, rest') := TakeValue(rest).value;
          assert (values + [value])[..n - 1] == values;
          assert ValuesBytes(values) + (ValueBytes(value) + rest') == (ValuesBytes(values) + ValueBytes(value)) + rest';
        }
      }
    } else {
      assert b == [] + b;
    }
  }

  /**
   A payload that is parsed starts with exactly what serializing the result writes; only what
   follows it is ignored.  The one error is that of reading past the end.
   */
  lemma {:induction false} ParsedIsWritten(kind: nat, b: seq<bv8>)
    requires KnownType(kind)
    ensures var r := ParsePayload(kind, b);
      && (r.Ok? ==> TypeByte(r.value) == kind && PayloadBytes(r.value) <= b)
      && (r.Err? ==> r == Err("could not read past buffer borders"))
  {
    hide TakeText, TakeUint32, TakeInt64, TakeNames, TakeValues, TextBytes, NamesBytes, ValuesBytes, Uint32Bytes,
      BigEndian;
    TakenText(b);
    TakenUint32(b);
    if TakeText(b).Ok? {
      var (s, rest) := TakeText(b).value;
      TakenInt64(rest);
      if TakeInt64(rest).Ok? {
        var (v, rest') := TakeInt64(rest).value;
        Joined(TextBytes(s), BigEndian(Pattern(v, 8), 8), rest');
      }
    }
    if TakeUint32(b).Ok? {
      var (n, rest) := TakeUint32(b).value;
      TakenNames(rest, n);
      TakenValues(rest, n);
      if TakeNames(rest, n).Ok? {
        var (names, rest') := TakeNames(rest, n).value;
        Joined(Uint32Bytes(n), NamesBytes(names), rest');
      }
      if TakeValues(rest, n).Ok? {
        var (values, rest') := TakeValues(rest, n).value;
        Joined(Uint32Bytes(n), ValuesBytes(values), rest');
      }
    }
  }

  lemma {:induction false} Joined(a: seq<bv8>, b: seq<bv8>, c: seq<bv8>)
    ensures a + (b + c) == (a + b) + c && a + b <= a + (b + c)
  {}

  /**
   ReceivePacket, for any bytes.  It says the connection is closed exactly when there are none.
   It gives a packet exactly when they begin with one: its type, a length of at least four, and
   as many bytes, which start with exactly what serializing the packet writes and may go on
   with bytes that are ignored.  Otherwise it fails, and the message tells at what.
   */
  lemma {:induction false} ReceivedIsSent(stream: seq<bv8>) returns (junk: seq<bv8>)
    ensures var r := Receive(stream);
      && (r.Closed? <==> stream == [])
      && (r == Failed("Unknown packet type") <==>
            stream != [] && FromByte(stream[0]) !in {0x51, 0x43, 0x54, 0x44, 0x45})
      && (r == Failed("invalid length field value in packet") <==>
            |stream| >= 5 && FromByte(stream[0]) in {0x51, 0x43, 0x54, 0x44, 0x45} && FourAt(stream, 1) < 4)
      && (r == Failed("could not recv") <==>
            stream != [] && FromByte(stream[0]) in {0x51, 0x43, 0x54, 0x44, 0x45} &&
            (|stream| < 5 || (FourAt(stream, 1) >= 4 && |stream| < 1 + FourAt(stream, 1))))
      && (r.Got? ==>
            && FromByte(stream[0]) == TypeByte(r.packet) && |stream| >= 5
            && FourAt(stream, 1) == 4 + |PayloadBytes(r.packet)| + |junk|
            && stream[5..] == PayloadBytes(r.packet) + junk + r.rest)
      && (r.Failed? && r.message !in {"Unknown packet type", "invalid length field value in packet",
                                      "could not recv"} ==>
            r.message == "could not read past buffer borders")
  {
    junk := [];
    hide FromByte, FromBigEndian, FourAt, PayloadBytes, ParsePayload;
    if |stream| >= 5 {
      FourAreRead(stream[1..5]);
      FourMoved(stream);
      var length := FromBigEndian(stream[1..5]);
      if KnownType(FromByte(stream[0])) && 4 <= length && |stream| >= 1 + length {
        var payload := stream[5..1 + length];
        ParsedIsWritten(FromByte(stream[0]), payload);
        if Receive(stream).Got? {
          var p := Receive(stream).packet;
          junk := payload[|PayloadBytes(p)|..];
          assert payload == PayloadBytes(p) + junk;
          assert stream[5..] == payload + stream[1 + length..];
        }
      }
    }
  }

  lemma {:induction false} FourMoved(stream: seq<bv8>)
    requires |stream| >= 5
    ensures FourAt(stream[1..5], 0) == FourAt(stream, 1)
  {
    hide FromByte;
  }
}
