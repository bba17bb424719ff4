/** How `send` (internal/minecraft/client.go:125-192) lays out an outgoing packet: each
    value by its Go type, then the frame `VarInt(length) ++ VarInt(id) ++ payload`. */
module Packet {
  import opened Base
  import VarInt
  import Fields

  /** The Go values `send` accepts.  `Other` is a value of any type the type switch does
      not list.  The float32, float64 and nbt.Tag cases are not part of this model. */
  datatype Value =
    | Str(s: seq<byte>)          // string
    | Strs(ss: seq<seq<byte>>)   // []string
    | Bytes(b: seq<byte>)        // []byte
    | Int64(i64: int64)          // int64
    | Int32(i32: int32)          // int32
    | Int(n: nat)                // int (a negative one would never terminate writeVarInt)
    | Id(u: Uuid)                // uuid.UUID
    | Bool(flag: bool)           // bool
    | Other                      // any other type

  /** Each string of a []string, length-prefixed, in order. */
  function EncodeStrings(ss: seq<seq<byte>>): seq<byte>
    decreases |ss|
  {
    if ss == [] then []
    else EncodeStrings(ss[..|ss| - 1]) + VarInt.Encode(|ss[|ss| - 1]|) + ss[|ss| - 1]
  }

  /** The bytes one value contributes to the payload (client.go:129-187). */
  function EncodeValue(v: Value): Result<seq<byte>>
  {
    match v
    case Str(s) => Ok(VarInt.Encode(|s|) + s)
    case Strs(ss) => Ok(VarInt.Encode(|ss|) + EncodeStrings(ss))
    case Bytes(b) => Ok(VarInt.Encode(|b|) + b)
    case Int64(n) => Ok(BigEndian(Unsigned(n, Two64), 8))
    case Int32(n) => Ok(BigEndian(Unsigned(n, Two32), 4))
    case Int(n) => Ok(VarInt.Encode(n))
    case Id(u) => Ok(u)
    case Bool(b) => Ok(if b then [1] else [0])
    case Other => Err(UnknownType)
  }

  /** The payload of a list of values: "Got an unknown type" exactly when one of them has
      a type `send` does not handle; otherwise the encodings in order. */
  function EncodePayload(vs: seq<Value>): (r: Result<seq<byte>>)
    ensures r.Err? <==> Other in vs
    ensures r.Err? ==> r.error == UnknownType
    decreases |vs|
  {
    if vs == [] then Ok([])
    else
      var init := vs[..|vs| - 1];
      assert vs == init + [vs[|vs| - 1]];
      match EncodePayload(init)
      case Err(e) => Err(e)
      case Ok(p) =>
        match EncodeValue(vs[|vs| - 1])
        case Err(e) => Err(e)
        case Ok(b) => Ok(p + b)
  }

  /** Appending a value to the list appends its encoding to the payload. */
  lemma EncodePayloadSnoc(vs: seq<Value>, v: Value)
    requires Other !in vs && v != Other
    ensures EncodePayload(vs + [v]) == Ok(EncodePayload(vs).value + EncodeValue(v).value)
  {
    assert (vs + [v])[..|vs|] == vs;
  }

  /** The body of the type switch of `send` (client.go:129-187) for one value. */
  method WriteValue(v: Value) returns (r: Result<seq<byte>>)
    ensures r == EncodeValue(v)
  {
    match v
    case Str(s) =>
      var length := VarInt.WriteVarInt(|s|);
      return Ok(length + s);
    case Strs(ss) =>
      var payload := VarInt.WriteVarInt(|ss|);
      ghost var start := payload;
      for j := 0 to |ss|
        invariant payload == start + EncodeStrings(ss[..j])
      {
        assert ss[..j + 1][..j] == ss[..j];
        var length := VarInt.WriteVarInt(|ss[j]|);
        payload := payload + length + ss[j];
      }
      assert ss[..|ss|] == ss;
      return Ok(payload);
    case Bytes(b) =>
      var length := VarInt.WriteVarInt(|b|);
      return Ok(length + b);
    case Int64(n) =>
      return Ok(BigEndian(Unsigned(n, Two64), 8));
    case Int32(n) =>
      return Ok(BigEndian(Unsigned(n, Two32), 4));
    case Int(n) =>
      var bytes := VarInt.WriteVarInt(n);
      return Ok(bytes);
    case Id(u) =>
      return Ok(u);
    case Bool(b) =>
      return Ok(if b then [1] else [0]);
    case Other =>
      return Err(UnknownType);
  }

  /** The loop of `send` over its values (client.go:126-189). */
  method WritePayload(contents: seq<Value>) returns (r: Result<seq<byte>>)
    ensures r == EncodePayload(contents)
  {
    var payload: seq<byte> := [];
    for i := 0 to |contents|
      invariant EncodePayload(contents[..i]) == Ok(payload)
    {
      assert contents[..i + 1] == contents[..i] + [contents[i]];
      var bytes := WriteValue(contents[i]);
      if bytes.Err? {
        assert contents[i] in contents;
        return bytes;
      }
      EncodePayloadSnoc(contents[..i], contents[i]);
      payload := payload + bytes.value;
    }
    assert contents[..|contents|] == contents;
    return Ok(payload);
  }

  /** client.go:191-192: the id and payload, prefixed by their combined length. */
  function Frame(id: nat, payload: seq<byte>): seq<byte>
  {
    var body := VarInt.Encode(id) + payload;
    VarInt.Encode(|body|) + body
  }

  // ---------------------------------------------------------------------------
  // Each encoding read back by the decoder the server uses for it

  /** What the server's decoder for a value reads back from the bytes `send` writes for
      it: strings and byte slices through bytesFactory, ints through intFactory, uuids
      through uuidFactory (which also skips the byte after them). */
  function DecoderFor(v: Value): Fields.Factory
  {
    if v.Int? then Fields.IntField else if v.Id? then Fields.UuidField else Fields.BytesField
  }

  lemma ValueReadBack(v: Value, rest: seq<byte>)
    requires (v.Str? && |v.s| < VarInt.Two35) || (v.Bytes? && |v.b| < VarInt.Two35)
      || (v.Int? && v.n < VarInt.Two35) || v.Id?
    ensures EncodeValue(v).Ok?
    ensures Fields.Run(DecoderFor(v), EncodeValue(v).value + rest)
      == Ok(Fields.Decoded(
           if v.Id? && rest != [] then rest[1..] else rest,
           match v
           case Str(s) => Fields.BytesVal(s)
           case Bytes(b) => Fields.BytesVal(b)
           case Int(n) => Fields.IntVal(n)
           case Id(u) => Fields.UuidVal(u)))
  {
    match v
    case Str(s) => Fields.LengthPrefixedOfEncode(s, rest, true);
    case Bytes(b) => Fields.LengthPrefixedOfEncode(b, rest, true);
    case Int(n) => Fields.IntFactoryOfEncode(n, rest);
    case Id(u) => Fields.UuidFactoryOf(u, rest);
  }

  /** A []string starts with its count as a VarInt, followed by each string length-prefixed. */
  lemma StringsReadBack(ss: seq<seq<byte>>, rest: seq<byte>)
    requires |ss| < VarInt.Two35
    ensures EncodeValue(Strs(ss)).Ok?
    ensures Fields.IntFactory(EncodeValue(Strs(ss)).value + rest)
      == Ok(Fields.Decoded(EncodeStrings(ss) + rest, Fields.IntVal(|ss|)))
  {
    Fields.IntFactoryOfEncode(|ss|, EncodeStrings(ss) + rest);
    assert VarInt.Encode(|ss|) + EncodeStrings(ss) + rest == VarInt.Encode(|ss|) + (EncodeStrings(ss) + rest);
  }

  /** An int64 travels as 8 big-endian bytes of its two's complement; reading them as an
      unsigned number and converting to int64 gives it back. */
  lemma Int64ReadBack(n: int64)
    ensures |EncodeValue(Int64(n)).value| == 8
    ensures Signed64(FromBigEndian(EncodeValue(Int64(n)).value)) == n
  {
    assert Pow256(8) == Two64;
    FromBigEndianOfBigEndian(Unsigned(n, Two64), 8);
  }

  /** An int32 travels as 4 big-endian bytes of its two's complement. */
  lemma Int32ReadBack(n: int32)
    ensures |EncodeValue(Int32(n)).value| == 4
    ensures var u := FromBigEndian(EncodeValue(Int32(n)).value);
      (if u < Two32 / 2 then u else u - Two32) == n
  {
    assert Pow256(4) == Two32;
    FromBigEndianOfBigEndian(Unsigned(n, Two32), 4);
  }

  /** The 8 bytes of a big-endian int64 come back unchanged when read and re-sent, which
      is how the ping reply echoes its request (protocol.go:64-66). */
  lemma Int64Echo(d: seq<byte>)
    requires |d| == 8
    ensures EncodeValue(Int64(Signed64(FromBigEndian(d)))) == Ok(d)
  {
    assert Pow256(8) == Two64;
    BigEndianOfFromBigEndian(d);
  }

  /** A bool is the single byte 1 or 0. */
  lemma BoolByte(b: bool)
    ensures |EncodeValue(Bool(b)).value| == 1
    ensures (EncodeValue(Bool(b)).value[0] == 1) == b
  {
  }

  // ---------------------------------------------------------------------------
  // The frame

  /** The frame's length prefix counts exactly the id and payload bytes that follow it:
      reading a VarInt off the frame gives that count and leaves the id's VarInt, the
      payload and whatever follows the frame. */
  lemma FrameReadBack(id: nat, payload: seq<byte>, rest: seq<byte>)
    requires |VarInt.Encode(id)| + |payload| < VarInt.Two35
    ensures Fields.IntFactory(Frame(id, payload) + rest)
      == Ok(Fields.Decoded(VarInt.Encode(id) + payload + rest, Fields.IntVal(|VarInt.Encode(id)| + |payload|)))
  {
    var body := VarInt.Encode(id) + payload;
    Regroup(VarInt.Encode(|body|), body, rest);
    Fields.IntFactoryOfEncode(|body|, body + rest);
  }
}
