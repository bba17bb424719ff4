/** The field decoders of internal/minecraft/utils.go and `readFromBuffer`, which threads
    a payload through an ordered list of named decoders. */
module Fields {
  import opened Base
  import VarInt

  /** A decoded value, as Go's `any` holds it.  Both intFactory and ushortFactory produce
      a Go `int`; bytesFactory produces a `[]byte` except on the path that swallows an
      error, where it produces the Go string "". */
  datatype Field = IntVal(n: int) | BytesVal(b: seq<byte>) | StringVal(s: seq<byte>) | UuidVal(u: Uuid)

  /** The five factories of utils.go:61-98. */
  datatype Factory = IntField | BytesField | StringField | UuidField | UShortField

  /** utils.go:56-59. */
  datatype FactoryPair = FactoryPair(name: string, factory: Factory)

  /** A factory's successful result: the remaining buffer and the value. */
  datatype Decoded = Decoded(rest: seq<byte>, value: Field)

  /** intFactory (utils.go:71-74): a VarInt; the remainder starts after its `sz + 1` bytes. */
  function IntFactory(buffer: seq<byte>): Result<Decoded>
  {
    match VarInt.Decode(buffer)
    case Ok(d) => Ok(Decoded(buffer[d.last + 1..], IntVal(d.value)))
    case Err(e) => Err(e)
  }

  /** The shared body of bytesFactory and stringFactory (utils.go:76-94): a VarInt length,
      then that many bytes.  A "VarInt is too big" error is swallowed: the result is an
      empty remainder, the string "" and no error.  Slicing past the end is a panic. */
  function LengthPrefixed(buffer: seq<byte>, asBytes: bool): Result<Decoded>
  {
    match VarInt.Decode(buffer)
    case Err(e) => if e == TooBig then Ok(Decoded([], StringVal([]))) else Err(e)
    case Ok(d) =>
      var start := d.last + 1;
      if start + d.value > |buffer| then Err(Panic)
      else
        var ret := buffer[start..start + d.value];
        Ok(Decoded(buffer[start + d.value..], if asBytes then BytesVal(ret) else StringVal(ret)))
  }

  /** bytesFactory (utils.go:76-84). */
  function BytesFactory(buffer: seq<byte>): Result<Decoded>
  {
    LengthPrefixed(buffer, true)
  }

  /** stringFactory (utils.go:86-94). */
  function StringFactory(buffer: seq<byte>): Result<Decoded>
  {
    LengthPrefixed(buffer, false)
  }

  /** uuidFactory (utils.go:61-69): the first 16 bytes; the remainder is empty when exactly
      16 bytes are left, and otherwise starts at index 17, so byte 16 is skipped. */
  function UuidFactory(buffer: seq<byte>): Result<Decoded>
  {
    if |buffer| < 16 then Err(Panic)
    else if |buffer| == 16 then Ok(Decoded([], UuidVal(buffer[0..16])))
    else Ok(Decoded(buffer[17..], UuidVal(buffer[0..16])))
  }

  /** ushortFactory (utils.go:96-98): two bytes, big-endian. */
  function UShortFactory(buffer: seq<byte>): Result<Decoded>
  {
    if |buffer| < 2 then Err(Panic)
    else Ok(Decoded(buffer[2..], IntVal(buffer[0] as int * 256 + buffer[1] as int)))
  }

  function Run(f: Factory, buffer: seq<byte>): (r: Result<Decoded>)
    ensures r.Err? ==> DecoderError(r.error)
  {
    VarInt.GroupsErrors(buffer, 5);
    match f
    case IntField => IntFactory(buffer)
    case BytesField => BytesFactory(buffer)
    case StringField => StringFactory(buffer)
    case UuidField => UuidFactory(buffer)
    case UShortField => UShortFactory(buffer)
  }

  /** The rest of readFromBuffer from some point on: `results` filled so far, `buffer` left. */
  function Thread(buffer: seq<byte>, results: map<string, Field>, pairs: seq<FactoryPair>): (r: Result<map<string, Field>>)
    ensures r.Err? ==> DecoderError(r.error)
    decreases |pairs|
  {
    if pairs == [] then Ok(results)
    else match Run(pairs[0].factory, buffer)
      case Err(e) => Err(e)
      case Ok(d) => Thread(d.rest, results[pairs[0].name := d.value], pairs[1..])
  }

  /** The result of readFromBuffer: a name-to-value map, or the first decoder error (the
      source then returns an empty map with it). */
  function ReadFields(buffer: seq<byte>, pairs: seq<FactoryPair>): (r: Result<map<string, Field>>)
    ensures r.Err? ==> DecoderError(r.error)
  {
    Thread(buffer, map[], pairs)
  }

  /** readFromBuffer (utils.go:100-114), over the ordered list of pairs its callers pass. */
  method ReadFromBuffer(buffer: seq<byte>, pairs: seq<FactoryPair>) returns (r: Result<map<string, Field>>)
    ensures r == ReadFields(buffer, pairs)
  {
    var results: map<string, Field> := map[];
    var buf := buffer;
    for i := 0 to |pairs|
      invariant Thread(buf, results, pairs[i..]) == ReadFields(buffer, pairs)
    {
      assert pairs[i..][1..] == pairs[i + 1..];
      var step := Run(pairs[i].factory, buf);
      if step.Err? {
        return Err(step.error);
      }
      results := results[pairs[i].name := step.value.value];
      buf := step.value.rest;
    }
    return Ok(results);
  }

  // ---------------------------------------------------------------------------
  // The wire form of each field, as a client writes it

  /** `v` is a value factory `f` can produce and a client can write for it. */
  predicate Fits(f: Factory, v: Field)
  {
    match f
    case IntField => v.IntVal? && 0 <= v.n < VarInt.Two35
    case BytesField => v.BytesVal? && |v.b| < VarInt.Two35
    case StringField => v.StringVal? && |v.s| < VarInt.Two35
    case UuidField => v.UuidVal?
    case UShortField => v.IntVal? && 0 <= v.n < 0x1_0000
  }

  /** The bytes that carry `v` for factory `f`. */
  function Wire(f: Factory, v: Field): seq<byte>
    requires Fits(f, v)
  {
    match f
    case IntField => VarInt.Encode(v.n)
    case BytesField => VarInt.Encode(|v.b|) + v.b
    case StringField => VarInt.Encode(|v.s|) + v.s
    case UuidField => v.u
    case UShortField => BigEndian(v.n, 2)
  }

  /** intFactory reads back a VarInt and leaves exactly what follows it. */
  lemma IntFactoryOfEncode(n: nat, rest: seq<byte>)
    requires n < VarInt.Two35
    ensures IntFactory(VarInt.Encode(n) + rest) == Ok(Decoded(rest, IntVal(n)))
  {
    VarInt.DecodeEncode(n, rest);
    assert (VarInt.Encode(n) + rest)[|VarInt.Encode(n)|..] == rest;
  }

  lemma TakeBytes(buf: seq<byte>, last: nat, n: nat, asBytes: bool)
    requires VarInt.Decode(buf) == Ok(VarInt.Decoded(n, last)) && last + 1 + n <= |buf|
    ensures LengthPrefixed(buf, asBytes)
      == Ok(Decoded(buf[last + 1 + n..], if asBytes then BytesVal(buf[last + 1..last + 1 + n]) else StringVal(buf[last + 1..last + 1 + n])))
  {
  }

  /** bytesFactory and stringFactory read back exactly the `|b|` bytes after the length
      prefix and leave what follows them. */
  lemma LengthPrefixedOfEncode(b: seq<byte>, rest: seq<byte>, asBytes: bool)
    requires |b| < VarInt.Two35
    ensures LengthPrefixed(VarInt.Encode(|b|) + b + rest, asBytes)
      == Ok(Decoded(rest, if asBytes then BytesVal(b) else StringVal(b)))
  {
    var e := VarInt.Encode(|b|);
    var tail := b + rest;
    var buf := e + tail;
    Regroup(e, b, rest);
    VarInt.DecodeEncode(|b|, tail);
    assert buf[|e|..] == tail;
    assert tail[..|b|] == b && tail[|b|..] == rest;
    assert buf[|e|..|e| + |b|] == b;
    assert buf[|e| + |b|..] == rest;
    TakeBytes(buf, |e| - 1, |b|, asBytes);
  }

  /** What bytesFactory consumes on success: the VarInt prefix, then exactly as many bytes
      as it declares; the remainder is everything after those. */
  lemma BytesFactoryConsumes(buffer: seq<byte>)
    requires BytesFactory(buffer).Ok? && BytesFactory(buffer).value.value.BytesVal?
    ensures VarInt.Decode(buffer).Ok?
    ensures var d := VarInt.Decode(buffer).value;
      var r := BytesFactory(buffer).value;
      |r.value.b| == d.value && buffer == buffer[..d.last + 1] + r.value.b + r.rest
  {
    var d := VarInt.Decode(buffer).value;
    var start := d.last + 1;
    assert buffer == buffer[..start] + buffer[start..start + d.value] + buffer[start + d.value..];
  }

  /** bytesFactory's quirk: a length prefix that is "too big" is not reported; the factory
      returns an empty remainder, the string "" and no error. */
  lemma BytesFactorySwallowsTooBig(buffer: seq<byte>)
    requires VarInt.Decode(buffer) == Err(TooBig)
    ensures BytesFactory(buffer) == Ok(Decoded([], StringVal([])))
  {
  }

  /** bytesFactory panics exactly when the prefix runs off the buffer or declares more
      bytes than remain after it. */
  lemma BytesFactoryPanics(buffer: seq<byte>)
    ensures BytesFactory(buffer) == Err(Panic) <==>
      VarInt.Decode(buffer) == Err(Panic)
      || (VarInt.Decode(buffer).Ok? &&
          VarInt.Decode(buffer).value.last + 1 + VarInt.Decode(buffer).value.value > |buffer|)
  {
  }

  /** ushortFactory reads back a big-endian 16-bit number. */
  lemma UShortFactoryOfBigEndian(n: nat, rest: seq<byte>)
    requires n < 0x1_0000
    ensures UShortFactory(BigEndian(n, 2) + rest) == Ok(Decoded(rest, IntVal(n)))
  {
    var buf := BigEndian(n, 2) + rest;
    assert buf[0] == n / 256 % 256 && buf[1] == n % 256;
    assert buf[2..] == rest;
  }

  /** uuidFactory reads back the 16 raw bytes, and drops the byte right after them. */
  lemma UuidFactoryOf(u: Uuid, rest: seq<byte>)
    ensures UuidFactory(u + rest) == Ok(Decoded(if rest == [] then [] else rest[1..], UuidVal(u)))
  {
    assert (u + rest)[0..16] == u;
    if rest != [] {
      assert (u + rest)[17..] == rest[1..];
    }
  }

  /** Each factory reads back the wire form of a value it can produce; only uuidFactory
      loses a byte of what follows. */
  lemma RunOfWire(f: Factory, v: Field, rest: seq<byte>)
    requires Fits(f, v)
    ensures Run(f, Wire(f, v) + rest) == Ok(Decoded(if f == UuidField && rest != [] then rest[1..] else rest, v))
  {
    match f
    case IntField => IntFactoryOfEncode(v.n, rest);
    case BytesField => LengthPrefixedOfEncode(v.b, rest, true);
    case StringField => LengthPrefixedOfEncode(v.s, rest, false);
    case UuidField => UuidFactoryOf(v.u, rest);
    case UShortField => UShortFactoryOfBigEndian(v.n, rest);
  }

  // ---------------------------------------------------------------------------
  // readFromBuffer over encoded payloads

  /** Each value fits its pair's factory. */
  predicate AllFit(pairs: seq<FactoryPair>, vals: seq<Field>)
    decreases |pairs|
  {
    |pairs| == |vals| && (pairs == [] || (Fits(pairs[0].factory, vals[0]) && AllFit(pairs[1..], vals[1..])))
  }

  /** The wire form of a list of values, one per pair. */
  function Concat(pairs: seq<FactoryPair>, vals: seq<Field>): seq<byte>
    requires AllFit(pairs, vals)
    decreases |pairs|
  {
    if pairs == [] then []
    else Wire(pairs[0].factory, vals[0]) + Concat(pairs[1..], vals[1..])
  }

  /** `results` extended with each pair's name bound to its value, left to right, so that a
      later pair with the same name wins. */
  function Collect(results: map<string, Field>, pairs: seq<FactoryPair>, vals: seq<Field>): map<string, Field>
    requires |pairs| == |vals|
    decreases |pairs|
  {
    if pairs == [] then results
    else Collect(results[pairs[0].name := vals[0]], pairs[1..], vals[1..])
  }

  /** No pair uses uuidFactory. */
  predicate NoUuid(pairs: seq<FactoryPair>)
    decreases |pairs|
  {
    pairs == [] || (pairs[0].factory != UuidField && NoUuid(pairs[1..]))
  }

  /** readFromBuffer threads the buffer: after decoding the wire form of the first pairs it
      goes on with exactly the bytes after them, their values recorded. */
  lemma {:induction false} ThreadOfWire(
    p1: seq<FactoryPair>, v1: seq<Field>, p2: seq<FactoryPair>, rest: seq<byte>, results: map<string, Field>)
    requires AllFit(p1, v1)
    requires NoUuid(p1)
    ensures Thread(Concat(p1, v1) + rest, results, p1 + p2) == Thread(rest, Collect(results, p1, v1), p2)
    decreases |p1|
  {
    if p1 != [] {
      var tail := Concat(p1[1..], v1[1..]) + rest;
      assert Concat(p1, v1) + rest == Wire(p1[0].factory, v1[0]) + tail;
      RunOfWire(p1[0].factory, v1[0], tail);
      assert (p1 + p2)[1..] == p1[1..] + p2;
      ThreadOfWire(p1[1..], v1[1..], p2, rest, results[p1[0].name := v1[0]]);
    } else {
      assert p1 + p2 == p2;
      assert Concat(p1, v1) + rest == rest;
    }
  }

  /** Round trip: the wire form of a list of fields decodes to each name bound to its value,
      whatever follows, provided a uuid field (which skips a byte) can only come last. */
  lemma ReadFieldsOfWire(pairs: seq<FactoryPair>, vals: seq<Field>, rest: seq<byte>)
    requires AllFit(pairs, vals)
    requires pairs != [] ==> NoUuid(pairs[..|pairs| - 1])
    ensures ReadFields(Concat(pairs, vals) + rest, pairs) == Ok(Collect(map[], pairs, vals))
  {
    ThreadOfWireAll(pairs, vals, rest, map[]);
  }

  lemma {:induction false} ThreadOfWireAll(
    pairs: seq<FactoryPair>, vals: seq<Field>, rest: seq<byte>, results: map<string, Field>)
    requires AllFit(pairs, vals)
    requires pairs != [] ==> NoUuid(pairs[..|pairs| - 1])
    ensures Thread(Concat(pairs, vals) + rest, results, pairs) == Ok(Collect(results, pairs, vals))
    decreases |pairs|
  {
    if pairs != [] {
      var tail := Concat(pairs[1..], vals[1..]) + rest;
      assert Concat(pairs, vals) + rest == Wire(pairs[0].factory, vals[0]) + tail;
      RunOfWire(pairs[0].factory, vals[0], tail);
      var next := results[pairs[0].name := vals[0]];
      if |pairs| == 1 {
        assert pairs[1..] == [] && vals[1..] == [];
      } else {
        assert pairs[0] == pairs[..|pairs| - 1][0];
        assert pairs[1..][..|pairs| - 2] == pairs[1..|pairs| - 1];
        ThreadOfWireAll(pairs[1..], vals[1..], rest, next);
      }
    }
  }

  /** The first failing decoder aborts the rest: its error is readFromBuffer's result,
      whatever the later pairs are. */
  lemma ReadFieldsStopsAtFirstError(p1: seq<FactoryPair>, v1: seq<Field>, p2: seq<FactoryPair>, rest: seq<byte>)
    requires AllFit(p1, v1)
    requires NoUuid(p1)
    requires p2 != [] && Run(p2[0].factory, rest).Err?
    ensures ReadFields(Concat(p1, v1) + rest, p1 + p2) == Err(Run(p2[0].factory, rest).error)
  {
    ThreadOfWire(p1, v1, p2, rest, map[]);
  }
}
