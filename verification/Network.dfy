/** The bounded writer and reader, the packet serializers and the connection, in place. */
module Network {
  import opened Wrappers
  import opened Bytes
  import opened PacketCodec

  /** Writes big-endian values into a buffer; not ok is the exception for writing past its borders. */
  class NetworkWriter {
    const buffer: array<bv8>
    var pos: nat

    ghost predicate Valid()
      reads this
    {
      pos <= buffer.Length
    }

    ghost function Written(): seq<bv8>
      requires Valid()
      reads this, buffer
    {
      buffer[..pos]
    }

    constructor (buffer: array<bv8>)
      ensures Valid() && this.buffer == buffer && pos == 0
    {
      this.buffer := buffer;
      pos := 0;
    }

    method WriteBuffer(bytes: seq<bv8>) returns (ok: bool)
      requires Valid()
      modifies this`pos, buffer
      ensures Valid() && (ok <==> old(pos) + |bytes| <= buffer.Length)
      ensures Written() == if ok then old(Written()) + bytes else old(Written())
    {
      if buffer.Length < pos + |bytes| {
        return false;
      }
      for i := 0 to |bytes|
        invariant pos == old(pos)
        invariant forall j :: 0 <= j < i ==> buffer[pos + j] == bytes[j]
        invariant forall j :: 0 <= j < pos ==> buffer[j] == old(buffer[j])
      {
        buffer[pos + i] := bytes[i];
      }
      pos := pos + |bytes|;
      assert buffer[..pos] == old(buffer[..pos]) + bytes;
      ok := true;
    }

    method WriteUint8(value: nat) returns (ok: bool)
      requires Valid() && value < 256
      modifies this`pos, buffer
      ensures Valid() && (ok <==> old(pos) + 1 <= buffer.Length)
      ensures Written() == if ok then old(Written()) + [ToByte(value)] else old(Written())
    {
      ok := WriteBuffer([ToByte(value)]);
    }

    /** The value is cut to 32 bits by the caller's static_cast. */
    method WriteUint32(value: nat) returns (ok: bool)
      requires Valid()
      modifies this`pos, buffer
      ensures Valid() && (ok <==> old(pos) + 4 <= buffer.Length)
      ensures Written() == if ok then old(Written()) + Uint32Bytes(value) else old(Written())
    {
      ok := WriteBuffer(Uint32Bytes(value));
    }

    method WriteInt64(value: int) returns (ok: bool)
      requires Valid()
      modifies this`pos, buffer
      ensures Valid() && (ok <==> old(pos) + 8 <= buffer.Length)
      ensures Written() == if ok then old(Written()) + BigEndian(Pattern(value, 8), 8) else old(Written())
    {
      ok := WriteBuffer(BigEndian(Pattern(value, 8), 8));
    }

    method WriteString(s: Text) returns (ok: bool)
      requires Valid()
      modifies this`pos, buffer
      ensures Valid() && (ok <==> old(pos) + TextSize(s) <= buffer.Length)
      ensures ok ==> Written() == old(Written()) + TextBytes(s)
      ensures !ok ==> old(Written()) <= Written()
    {
      hide BigEndian, Uint32Bytes;
      ok := WriteUint32(|s|);
      if ok {
        ok := WriteBuffer(s);
        assert ok ==> Written() == old(Written()) + (Uint32Bytes(|s|) + s);
      }
    }
  }

  // ---- Serializers -----------------------------------------------------------------

  /** The size pass. */
  method CalculatePayloadSize(p: Packet) returns (size: nat)
    ensures size == PayloadSize(p)
  {
    match p {
      case Query(query) => size := 4 + |query|;
      case ErrorResponse(message) => size := 4 + |message|;
      case CommandComplete(tag, _) => size := 4 + |tag| + 8;
      case TupleDescription(names) =>
        size := 4;
        for i := 0 to |names|
          invariant size == 4 + NamesSize(names[..i])
        {
          assert names[..i + 1][..i] == names[..i];
          size := size + 4 + |names[i]|;
        }
        assert names[..|names|] == names;
      case DataRow(values) =>
        size := 4;
        for i := 0 to |values|
          invariant size == 4 + ValuesSize(values[..i])
        {
          assert values[..i + 1][..i] == values[..i];
          if values[i].Some? {
            size := size + 4 + |values[i].value|;
          } else {
            size := size + 4;
          }
        }
        assert values[..|values|] == values;
    }
  }

  lemma {:induction false} NamesPrefixFits(names: seq<Text>, i: nat)
    requires i <= |names|
    ensures NamesSize(names[..i]) <= NamesSize(names)
    decreases |names|
  {
    if i < |names| {
      assert names[..|names| - 1][..i] == names[..i];
      NamesPrefixFits(names[..|names| - 1], i);
    } else {
      assert names[..i] == names;
    }
  }

  lemma {:induction false} ValuesPrefixFits(values: seq<Option<Text>>, i: nat)
    requires i <= |values|
    ensures ValuesSize(values[..i]) <= ValuesSize(values)
    decreases |values|
  {
    if i < |values| {
      assert values[..|values| - 1][..i] == values[..i];
      ValuesPrefixFits(values[..|values| - 1], i);
    } else {
      assert values[..i] == values;
    }
  }

  method WriteNames(writer: NetworkWriter, names: seq<Text>) returns (ok: bool)
    requires writer.Valid()
    modifies writer`pos, writer.buffer
    ensures writer.Valid() && (old(writer.pos) + NamesSize(names) <= writer.buffer.Length ==> ok)
    ensures ok ==> writer.Written() == old(writer.Written()) + NamesBytes(names)
  {
    hide TextBytes;
    ghost var before := writer.Written();
    for i := 0 to |names|
      invariant writer.Valid() && writer.Written() == before + NamesBytes(names[..i])
    {
      NamesPrefixFits(names, i + 1);
      assert names[..i + 1][..i] == names[..i];
      NamesSizeExact(names[..i]);
      ok := writer.WriteString(names[i]);
      if !ok {
        return;
      }
      assert writer.Written() == before + (NamesBytes(names[..i]) + TextBytes(names[i]));
    }
    assert names[..|names|] == names;
    ok := true;
  }

  method WriteValues(writer: NetworkWriter, values: seq<Option<Text>>) returns (ok: bool)
    requires writer.Valid()
    modifies writer`pos, writer.buffer
    ensures writer.Valid() && (old(writer.pos) + ValuesSize(values) <= writer.buffer.Length ==> ok)
    ensures ok ==> writer.Written() == old(writer.Written()) + ValuesBytes(values)
  {
    hide TextBytes, Uint32Bytes;
    ghost var before := writer.Written();
    for i := 0 to |values|
      invariant writer.Valid() && writer.Written() == before + ValuesBytes(values[..i])
    {
      ValuesPrefixFits(values, i + 1);
      assert values[..i + 1][..i] == values[..i];
      ValuesSizeExact(values[..i]);
      if values[i].None? {
        ok := writer.WriteUint32(NULL_LENGTH);
      } else {
        ok := writer.WriteString(values[i].value);
      }
      if !ok {
        return;
      }
      assert writer.Written() == before + (ValuesBytes(values[..i]) + ValueBytes(values[i]));
    }
    assert values[..|values|] == values;
    ok := true;
  }

  /** No value has the length that stands for NULL, as the serializer asserts. */
  predicate NoFalseNull(p: Packet) {
    p.DataRow? ==> forall k :: 0 <= k < |p.values| && p.values[k].Some? ==> |p.values[k].value| % UINT32 != NULL_LENGTH
  }

  /** The payload part of a Visit. */
  method WritePayload(writer: NetworkWriter, p: Packet) returns (ok: bool)
    requires writer.Valid() && writer.pos + PayloadSize(p) <= writer.buffer.Length
    modifies writer`pos, writer.buffer
    ensures ok && writer.Valid() && writer.Written() == old(writer.Written()) + PayloadBytes(p)
  {
    hide TextBytes, Uint32Bytes, BigEndian, NamesBytes, ValuesBytes;
    ghost var before := writer.Written();
    match p {
      case Query(query) => ok := writer.WriteString(query);
      case ErrorResponse(message) => ok := writer.WriteString(message);
      case CommandComplete(tag, rows) =>
        ok := writer.WriteString(tag);
        TextIsSized(tag);
        ok := writer.WriteInt64(rows);
        assert writer.Written() == before + (TextBytes(tag) + BigEndian(Pattern(rows, 8), 8));
      case TupleDescription(names) =>
        ok := writer.WriteUint32(|names|);
        ok := WriteNames(writer, names);
        assert writer.Written() == before + (Uint32Bytes(|names|) + NamesBytes(names));
      case DataRow(values) =>
        ok := writer.WriteUint32(|values|);
        ok := WriteValues(writer, values);
        assert writer.Written() == before + (Uint32Bytes(|values|) + ValuesBytes(values));
    }
  }

  lemma {:induction false} TextIsSized(s: Text)
    ensures |TextBytes(s)| == TextSize(s)
  {}

  lemma {:induction false} TypeIsAByte(p: Packet)
    ensures TypeByte(p) < 256
  {}

  /** A packet of any size is serialized in full: the writer's bounds check never fires. */
  method Serialize(p: Packet) returns (r: Result<seq<bv8>>)
    requires NoFalseNull(p)
    ensures r == Ok(PacketBytes(p))
  {
    hide TextBytes, Uint32Bytes, BigEndian, PayloadBytes, PayloadSize, TypeByte, ToByte;
    var size := CalculatePayloadSize(p);
    PayloadSizeExact(p);
    assert TypeByte(p) < 256 by { TypeIsAByte(p); }
    var buffer := new bv8[size + HEADER_SIZE];
    var writer := new NetworkWriter(buffer);
    var ok := writer.WriteUint8(TypeByte(p));
    ok := writer.WriteUint32(size + 4);
    ok := WritePayload(writer, p);
    assert writer.Written() == [ToByte(TypeByte(p))] + Uint32Bytes(size + 4) + PayloadBytes(p);
    assert |writer.Written()| == size + HEADER_SIZE;
    assert buffer[..writer.pos] == buffer[..];
    r := Ok(buffer[..]);
  }

  // ---- Reading --------------------------------------------------------------------------

  class NetworkReader {
    const buffer: array<bv8>
    var pos: nat

    ghost predicate Valid()
      reads this
    {
      pos <= buffer.Length
    }

    ghost function Rest(): seq<bv8>
      requires Valid()
      reads this, buffer
    {
      buffer[pos..]
    }

    constructor (buffer: array<bv8>)
      ensures Valid() && this.buffer == buffer && Rest() == buffer[..]
    {
      this.buffer := buffer;
      pos := 0;
    }

    method ReadBuffer(n: nat) returns (r: Result<seq<bv8>>)
      requires Valid()
      modifies this`pos
      ensures Valid()
      ensures match r
        case Ok(b) => TakeBuffer(old(Rest()), n) == Ok((b, Rest()))
        case Err(m) => TakeBuffer(old(Rest()), n) == Err(m)
    {
      if buffer.Length < pos + n {
        return Err(PAST_BORDERS);
      }
      assert buffer[pos..][..n] == buffer[pos..pos + n] && buffer[pos..][n..] == buffer[pos + n..];
      r := Ok(buffer[pos..pos + n]);
      pos := pos + n;
    }

    method ReadUint32() returns (r: Result<nat>)
      requires Valid()
      modifies this`pos
      ensures Valid()
      ensures match r
        case Ok(n) => TakeUint32(old(Rest())) == Ok((n, Rest()))
        case Err(m) => TakeUint32(old(Rest())) == Err(m)
    {
      hide FromBigEndian;
      var b := ReadBuffer(4);
      r := match b case Ok(bytes) => Ok(FromBigEndian(bytes)) case Err(m) => Err(m);
    }

    method ReadInt64() returns (r: Result<int>)
      requires Valid()
      modifies this`pos
      ensures Valid()
      ensures match r
        case Ok(n) => TakeInt64(old(Rest())) == Ok((n, Rest()))
        case Err(m) => TakeInt64(old(Rest())) == Err(m)
    {
      hide FromBigEndian, Signed;
      var b := ReadBuffer(8);
      r := match b case Ok(bytes) => Ok(Signed(FromBigEndian(bytes), 8)) case Err(m) => Err(m);
    }

    method ReadString() returns (r: Result<Text>)
      requires Valid()
      modifies this`pos
      ensures Valid()
      ensures match r
        case Ok(s) => TakeText(old(Rest())) == Ok((s, Rest()))
        case Err(m) => TakeText(old(Rest())) == Err(m)
    {
      hide TakeUint32, TakeBuffer;
      var n := ReadUint32();
      if n.Err? {
        return Err(n.message);
      }
      r := ReadBuffer(n.value);
    }
  }

  lemma {:induction false} TakeNamesFails(b: seq<bv8>, m: nat, n: nat)
    requires m <= n && TakeNames(b, m).Err?
    ensures TakeNames(b, n) == TakeNames(b, m)
  {
    if m < n { TakeNamesFails(b, m, n - 1); }
  }

  lemma {:induction false} TakeValuesFails(b: seq<bv8>, m: nat, n: nat)
    requires m <= n && TakeValues(b, m).Err?
    ensures TakeValues(b, n) == TakeValues(b, m)
  {
    if m < n { TakeValuesFails(b, m, n - 1); }
  }

  method ReadNames(reader: NetworkReader, n: nat) returns (r: Result<seq<Text>>)
    requires reader.Valid()
    modifies reader`pos
    ensures reader.Valid()
    ensures match r
            case Ok(names) => TakeNames(old(reader.Rest()), n) == Ok((names, reader.Rest()))
            case Err(m) => TakeNames(old(reader.Rest()), n) == Err(m)
  {
    hide TakeText;
    ghost var start := reader.Rest();
    var names: seq<Text> := [];
    for i := 0 to n
      invariant reader.Valid() && TakeNames(start, i) == Ok((names, reader.Rest()))
    {
      var name := reader.ReadString();
      if name.Err? {
        TakeNamesFails(start, i + 1, n);
        return Err(name.message);
      }
      names := names + [name.value];
    }
    r := Ok(names);
  }

  method ReadValue(reader: NetworkReader) returns (r: Result<Option<Text>>)
    requires reader.Valid()
    modifies reader`pos
    ensures reader.Valid()
    ensures match r
            case Ok(v) => TakeValue(old(reader.Rest())) == Ok((v, reader.Rest()))
            case Err(m) => TakeValue(old(reader.Rest())) == Err(m)
  {
    hide TakeUint32, TakeBuffer;
    var length := reader.ReadUint32();
    if length.Err? {
      return Err(length.message);
    }
    if length.value == NULL_LENGTH {
      return Ok(None);
    }
    var s := reader.ReadBuffer(length.value);
    r := match s case Ok(text) => Ok(Some(text)) case Err(m) => Err(m);
  }

  method ReadValues(reader: NetworkReader, n: nat) returns (r: Result<seq<Option<Text>>>)
    requires reader.Valid()
    modifies reader`pos
    ensures reader.Valid()
    ensures match r
            case Ok(values) => TakeValues(old(reader.Rest()), n) == Ok((values, reader.Rest()))
            case Err(m) => TakeValues(old(reader.Rest()), n) == Err(m)
  {
    hide TakeValue;
    ghost var start := reader.Rest();
    var values: seq<Option<Text>> := [];
    for i := 0 to n
      invariant reader.Valid() && TakeValues(start, i) == Ok((values, reader.Rest()))
    {
      var value := ReadValue(reader);
      if value.Err? {
        TakeValuesFails(start, i + 1, n);
        return Err(value.message);
      }
      values := values + [value.value];
    }
    r := Ok(values);
  }

  /** The five Deserialize functions, chosen by the type byte. */
  method Deserialize(kind: nat, buffer: array<bv8>) returns (r: Result<Packet>)
    requires KnownType(kind)
    ensures r == ParsePayload(kind, buffer[..])
  {
    hide TakeText, TakeUint32, TakeInt64, TakeNames, TakeValues;
    var reader := new NetworkReader(buffer);
    if kind == 'Q' as nat || kind == 'E' as nat {
      var s := reader.ReadString();
      if s.Err? {
        return Err(s.message);
      }
      return Ok(if kind == 'Q' as nat then Query(s.value) else ErrorResponse(s.value));
    } else if kind == 'C' as nat {
      var tag := reader.ReadString();
      if tag.Err? {
        return Err(tag.message);
      }
      var rows := reader.ReadInt64();
      if rows.Err? {
        return Err(rows.message);
      }
      return Ok(CommandComplete(tag.value, rows.value));
    }
    var n := reader.ReadUint32();
    if n.Err? {
      return Err(n.message);
    }
    if kind == 'T' as nat {
      var names := ReadNames(reader, n.value);
      r := match names case Ok(ns) => Ok(TupleDescription(ns)) case Err(m) => Err(m);
    } else {
      var values := ReadValues(reader, n.value);
      r := match values case Ok(vs) => Ok(DataRow(vs)) case Err(m) => Err(m);
    }
  }

  // ---- The connection ----------------------------------------------------------------------

  /** A socket: the bytes the peer will still deliver before it closes, and those sent to it. */
  class MimiClient {
    var incoming: seq<bv8>
    var outgoing: seq<bv8>

    constructor (incoming: seq<bv8>)
      ensures this.incoming == incoming && outgoing == []
    {
      this.incoming := incoming;
      outgoing := [];
    }

    /** recv: some bytes, as many as it likes up to the limit; none only when the peer has closed. */
    method Recv(limit: nat) returns (bytes: seq<bv8>)
      requires limit > 0
      modifies this`incoming
      ensures bytes + incoming == old(incoming) && |bytes| <= limit
      ensures bytes == [] ==> old(incoming) == []
    {
      if incoming == [] {
        return [];
      }
      var n :| 1 <= n <= limit && n <= |incoming|;
      bytes := incoming[..n];
      incoming := incoming[n..];
    }

    /** Exactly length bytes however recv cuts them up, or the exception. */
    method RecvBuffer(length: nat) returns (r: Result<seq<bv8>>)
      modifies this`incoming
      ensures r.Ok? <==> |old(incoming)| >= length
      ensures r.Ok? ==> r.value == old(incoming)[..length] && incoming == old(incoming)[length..]
      ensures r.Err? ==> r.message == "could not recv"
    {
      var buffer: seq<bv8> := [];
      while |buffer| < length
        invariant |buffer| <= length && buffer + incoming == old(incoming)
        decreases length - |buffer|
      {
        ghost var before := buffer;
        var bytes := Recv(length - |buffer|);
        buffer := buffer + bytes;
        assert before + (bytes + incoming) == buffer + incoming;
        if bytes == [] {
          return Err("could not recv");
        }
      }
      assert old(incoming)[..length] == buffer;
      r := Ok(buffer);
    }

    method ReceivePacket() returns (r: Result<Option<Packet>>)
      modifies this`incoming
      ensures match Receive(old(incoming))
              case Closed => r == Ok(None)
              case Failed(m) => r == Err(m)
              case Got(p, rest) => r == Ok(Some(p)) && incoming == rest
    {
      hide FromByte, FromBigEndian, ParsePayload;
      ghost var stream := incoming;
      var first := RecvBuffer(1);
      if first.Err? {
        return Ok(None);
      }
      var kind := FromByte(first.value[0]);
      if !KnownType(kind) {
        return Err("Unknown packet type");
      }
      var header := RecvBuffer(4);
      if header.Err? {
        return Err(header.message);
      }
      assert header.value == stream[1..HEADER_SIZE];
      var length := FromBigEndian(header.value);
      if length < 4 {
        return Err("invalid length field value in packet");
      }
      var payload := RecvBuffer(length - 4);
      if payload.Err? {
        return Err(payload.message);
      }
      assert payload.value == stream[HEADER_SIZE..1 + length] && incoming == stream[1 + length..];
      var bytes := payload.value;
      var buffer := new bv8[|bytes|](i requires 0 <= i < |bytes| => bytes[i]);
      assert buffer[..] == payload.value;
      var packet := Deserialize(kind, buffer);
      r := match packet case Ok(p) => Ok(Some(p)) case Err(m) => Err(m);
    }

    /** send: takes some of the bytes, or fails. */
    method Send(bytes: seq<bv8>) returns (sent: nat, ok: bool)
      requires bytes != []
      modifies this`outgoing
      ensures ok ==> 1 <= sent <= |bytes| && outgoing == old(outgoing) + bytes[..sent]
      ensures !ok ==> outgoing == old(outgoing)
    {
      ok := *;
      sent := 0;
      if ok {
        sent :| 1 <= sent <= |bytes|;
        outgoing := outgoing + bytes[..sent];
      }
    }

    /** All bytes in order however send cuts them up, or a prefix and the exception. */
    method SendBuffer(bytes: seq<bv8>) returns (ok: bool)
      modifies this`outgoing
      ensures ok ==> outgoing == old(outgoing) + bytes
      ensures old(outgoing) <= outgoing <= old(outgoing) + bytes
    {
      var cursor := 0;
      while cursor < |bytes|
        invariant cursor <= |bytes| && outgoing == old(outgoing) + bytes[..cursor]
        decreases |bytes| - cursor
      {
        var sent: nat;
        sent, ok := Send(bytes[cursor..]);
        if !ok {
          return;
        }
        assert bytes[..cursor] + bytes[cursor..][..sent] == bytes[..cursor + sent];
        cursor := cursor + sent;
      }
      assert bytes[..cursor] == bytes;
      ok := true;
    }

    method SendPacket(p: Packet) returns (ok: bool)
      requires NoFalseNull(p)
      modifies this`outgoing
      ensures ok ==> outgoing == old(outgoing) + PacketBytes(p)
      ensures old(outgoing) <= outgoing <= old(outgoing) + PacketBytes(p)
    {
      PayloadSizeExact(p);
      hide PacketBytes;
      var buffer := Serialize(p);
      assert |buffer.value| > 1;
      ok := SendBuffer(buffer.value);
    }
  }
}
