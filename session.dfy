/** One connection's client object (internal/minecraft/client.go): its socket, its
    protocol state, the player's identity, and the stream ciphers that are switched on after
    the key exchange.  `Conn` is a snapshot of everything the connection's behaviour depends
    on; the functions here give the effect of each of the client's operations on it, and
    the methods of `Client` are proved to have exactly that effect. */
module Session {
  import opened Base
  import VarInt
  import Cipher
  import Packet

  /** The protocol phases (protocol.go:14-21).  A connection's phase is an arbitrary int:
      the handshake stores whatever intent the client sent. */
  const Handshaking: int := 0
  const Status: int := 1
  const Login: int := 2
  const Config: int := 3

  /** What the connection is given from outside: RSA-PKCS#1 v1.5 decryption with its
      private key (None when it fails), the DER form of its public key (None when
      marshalling fails), AES, and the JSON document the status request answers with. */
  datatype Externals = Externals(
    rsaDecrypt: seq<byte> -> Option<seq<byte>>,
    publicKeyDer: Option<seq<byte>>,
    aes: Cipher.BlockFn,
    statusJson: seq<byte>)

  /** userInfo (client.go:61-65); `cfg` is always the zero configuration and is left out. */
  datatype Info = Info(name: seq<byte>, uuid: Uuid)

  /** A snapshot of a connection: the client's fields and the socket's. */
  datatype Conn = Conn(
    state: int,
    teleport: int,
    info: Info,
    rng: seq<byte>,
    enc: Option<Cipher.Stream>,
    dec: Option<Cipher.Stream>,
    input: seq<byte>,          // what the peer sent that the server has not read yet
    written: seq<seq<byte>>,   // every Write on the socket, in order
    closed: bool)

  /** The snapshot after an operation, and what the operation returned. */
  datatype After<T> = After(conn: Conn, result: T)

  /** What readVarInt returns on success: the value and the number of bytes it read. */
  datatype VarIntRead = VarIntRead(value: nat, length: nat)

  /** A connection as newClient leaves it (client.go:98-108). */
  function Opened(rng: seq<byte>, input: seq<byte>, written: seq<seq<byte>>, closed: bool): Conn
  {
    Conn(Handshaking, 0, Info([], ZeroUuid), rng, None, None, input, written, closed)
  }

  /** The bytes the server sees for `bytes` from the wire: decrypted once `dec` is on. */
  function Plain(aes: Cipher.BlockFn, dec: Option<Cipher.Stream>, bytes: seq<byte>): (r: seq<byte>)
    ensures |r| == |bytes|
  {
    if dec.None? then bytes else Cipher.Decrypt(aes, dec.value, bytes).data
  }

  /** The decrypter after `bytes` went through it. */
  function Advance(aes: Cipher.BlockFn, dec: Option<Cipher.Stream>, bytes: seq<byte>): (r: Option<Cipher.Stream>)
    ensures r.Some? == dec.Some?
  {
    if dec.None? then None else Some(Cipher.Decrypt(aes, dec.value, bytes).next)
  }

  /** Reading in two pieces sees the same bytes and leaves the same decrypter as reading
      in one. */
  lemma PlainSplit(aes: Cipher.BlockFn, dec: Option<Cipher.Stream>, a: seq<byte>, b: seq<byte>)
    ensures Plain(aes, dec, a + b) == Plain(aes, dec, a) + Plain(aes, Advance(aes, dec, a), b)
    ensures Advance(aes, dec, a + b) == Advance(aes, Advance(aes, dec, a), b)
  {
    if dec.Some? {
      Cipher.DecryptSplit(aes, dec.value, a, b);
    }
  }

  /** The first `n` input bytes taken off the connection and through its decrypter. */
  function Consumed(x: Externals, c: Conn, n: nat): (r: Conn)
    requires n <= |c.input|
    ensures |r.input| == |c.input| - n
  {
    c.(input := c.input[n..], dec := Advance(x.aes, c.dec, c.input[..n]))
  }

  // ---------------------------------------------------------------------------
  // The effect of each operation

  /** A zero-filled buffer, as `make([]byte, n)` returns. */
  function Zeros(n: nat): (r: seq<byte>)
    ensures |r| == n && forall i :: 0 <= i < n ==> r[i] == 0
  {
    if n == 0 then [] else [0] + Zeros(n - 1)
  }

  /** read(length) (client.go:209-229).  Zero bytes are never read from the socket; a
      negative length makes `make` panic; with nothing left the reader reports an error.
      Otherwise one read fills as much of the buffer as the peer has sent, the rest of the
      buffer stays zero, and the whole buffer goes through the decrypter when it is on. */
  function Reading(x: Externals, c: Conn, length: int): (r: After<Result<seq<byte>>>)
    ensures r.conn == c.(input := r.conn.input, dec := r.conn.dec) && |r.conn.input| <= |c.input|
    ensures r.result.Ok? ==> |r.result.value| == length
  {
    if length == 0 then After(c, Ok([]))
    else if length < 0 then After(c, Err(Panic))
    else if c.input == [] then After(c, Err(EndOfStream))
    else
      var n := if length < |c.input| then length else |c.input|;
      var buff := c.input[..n] + Zeros(length - n);
      After(c.(input := c.input[n..], dec := Advance(x.aes, c.dec, buff)), Ok(Plain(x.aes, c.dec, buff)))
  }

  /** readVarInt (client.go:231-258): the VarInt at the front of what the server sees.
      It reads byte by byte, so it consumes the VarInt's bytes on success, five bytes when
      all five have the continuation bit ("VarInt is too big"), and everything that is
      left when the input ends inside the VarInt. */
  function ReadingVarInt(x: Externals, c: Conn): (r: After<Result<VarIntRead>>)
    ensures r.conn == c.(input := r.conn.input, dec := r.conn.dec) && |r.conn.input| <= |c.input|
    ensures r.result.Ok? ==> 1 <= r.result.value.length <= 5 && |r.conn.input| == |c.input| - r.result.value.length
  {
    var plain := Plain(x.aes, c.dec, c.input);
    match VarInt.Decode(plain)
    case Ok(d) => After(Consumed(x, c, d.last + 1), Ok(VarIntRead(d.value, d.last + 1)))
    case Err(TooBig) => After(Consumed(x, c, 5), Err(TooBig))
    case Err(_) => After(Consumed(x, c, |c.input|), Err(EndOfStream))
  }

  /** A packet as the loop of handle reads it: its id and the rest of its frame. */
  datatype Received = Received(id: nat, data: seq<byte>)

  /** The three reads of one turn of handle (socket.go:50-66): the frame's length, the
      packet id, then `length - sz` more bytes, where `sz` is the number of bytes the id
      took.  The first error ends the turn. */
  function Receiving(x: Externals, c: Conn): (r: After<Result<Received>>)
    ensures r.conn == c.(input := r.conn.input, dec := r.conn.dec) && |r.conn.input| <= |c.input|
    ensures r.result.Ok? ==> |r.conn.input| < |c.input|
  {
    var length := ReadingVarInt(x, c);
    if length.result.Err? then After(length.conn, Err(length.result.error))
    else
      var id := ReadingVarInt(x, length.conn);
      if id.result.Err? then After(id.conn, Err(id.result.error))
      else
        var data := Reading(x, id.conn, length.result.value.value - id.result.value.length);
        if data.result.Err? then After(data.conn, Err(data.result.error))
        else After(data.conn, Ok(Received(id.result.value.value, data.result.value)))
  }

  /** send(protocol, contents...) (client.go:125-203): nothing is written when a value has
      an unknown type; otherwise one frame is written, through the encrypter when it is on.
      Write errors are ignored by the source and Write always succeeds here. */
  function Sending(x: Externals, c: Conn, protocol: nat, contents: seq<Packet.Value>): (r: After<Option<Error>>)
    ensures r.result.Some? <==> Packet.Other in contents
    ensures r.result.Some? ==> r.conn == c
    ensures r.result.None? ==>
      |r.conn.written| == |c.written| + 1 && r.conn.written[..|c.written|] == c.written
      && r.conn == c.(written := r.conn.written, enc := r.conn.enc)
      && r.conn.enc.Some? == c.enc.Some?
  {
    match Packet.EncodePayload(contents)
    case Err(e) => After(c, Some(e))
    case Ok(payload) =>
      var final := Packet.Frame(protocol, payload);
      if c.enc.None? then After(c.(written := c.written + [final]), None)
      else
        var o := Cipher.Encrypt(x.aes, c.enc.value, final);
        After(c.(enc := Some(o.next), written := c.written + [o.data]), None)
  }

  /** register(name, id) (client.go:260-275): the identity is replaced. */
  function Registering(c: Conn, name: seq<byte>, id: Uuid): Conn
  {
    c.(info := Info(name, id))
  }

  /** registerSecret(key) (client.go:286-295): AES refuses keys that are not 16, 24 or 32
      bytes long and nothing changes; otherwise both directions switch to CFB-8 with the
      key as key and IV. */
  function RegisteringSecret(c: Conn, key: seq<byte>): (r: After<Option<Error>>)
    ensures r.result.None? <==> Cipher.KeyAccepted(key)
    ensures r.result.Some? ==> r == After(c, Some(KeySizeInvalid))
    ensures r.result.None? ==>
      r.conn == c.(enc := Some(Cipher.NewStream(key)), dec := Some(Cipher.NewStream(key)))
  {
    if Cipher.KeyAccepted(key) then
      After(c.(enc := Some(Cipher.NewStream(key)), dec := Some(Cipher.NewStream(key))), None)
    else After(c, Some(KeySizeInvalid))
  }

  // ---------------------------------------------------------------------------
  // What the operations promise

  /** A read that the input can satisfy returns exactly the next `length` bytes the server
      sees and consumes them. */
  lemma ReadingExact(x: Externals, c: Conn, length: nat)
    requires 1 <= length <= |c.input|
    ensures Reading(x, c, length) == After(Consumed(x, c, length), Ok(Plain(x.aes, c.dec, c.input)[..length]))
  {
    var i := c.input;
    assert i[..length] + Zeros(0) == i[..length];
    assert i == i[..length] + i[length..];
    PlainSplit(x.aes, c.dec, i[..length], i[length..]);
  }

  /** A read beyond the end of a plaintext input returns what is left, padded with zeros,
      and no error. */
  lemma ReadingShort(x: Externals, c: Conn, length: nat)
    requires c.dec.None? && 0 < |c.input| < length
    ensures Reading(x, c, length).result == Ok(c.input + Zeros(length - |c.input|))
    ensures Reading(x, c, length).conn.input == []
  {
    assert c.input[..|c.input|] == c.input;
  }

  /** readVarInt on the encoding of a number reads it back and consumes exactly its bytes. */
  lemma {:induction false} ReadingVarIntOfEncode(x: Externals, c: Conn, v: nat)
    requires v < VarInt.Two35
    requires StartsWith(x, c, VarInt.Encode(v))
    ensures ReadingVarInt(x, c)
      == After(Consumed(x, c, |VarInt.Encode(v)|), Ok(VarIntRead(v, |VarInt.Encode(v)|)))
  {
    var plain := Plain(x.aes, c.dec, c.input);
    var e := VarInt.Encode(v);
    assert plain == e + plain[|e|..];
    VarInt.DecodeEncode(v, plain[|e|..]);
  }

  /** The input's decrypted form starts with `front`. */
  predicate StartsWith(x: Externals, c: Conn, front: seq<byte>)
  {
    |front| <= |c.input| && Plain(x.aes, c.dec, c.input)[..|front|] == front
  }

  /** Whatever the input starts with, it starts with every prefix of it. */
  lemma StartsWithPrefix(x: Externals, c: Conn, p: seq<byte>, q: seq<byte>)
    requires StartsWith(x, c, p + q)
    ensures StartsWith(x, c, p)
  {
    var plain := Plain(x.aes, c.dec, c.input);
    assert plain[..|p|] == plain[..|p + q|][..|p|];
  }

  /** Once `p` has been consumed, the input starts with what followed `p`. */
  lemma StartsWithRest(x: Externals, c: Conn, p: seq<byte>, q: seq<byte>)
    requires StartsWith(x, c, p + q)
    ensures StartsWith(x, Consumed(x, c, |p|), q)
  {
    var plain := Plain(x.aes, c.dec, c.input);
    ConsumedPlain(x, c, |p|);
    assert plain[|p|..][..|q|] == plain[..|p + q|][|p|..];
  }

  /** A read of as many bytes as the input is known to start with returns them. */
  lemma ReadingStart(x: Externals, c: Conn, data: seq<byte>)
    requires StartsWith(x, c, data)
    ensures Reading(x, c, |data|) == After(Consumed(x, c, |data|), Ok(data))
  {
    if data == [] {
      assert c.input[..0] == [] && c.input[0..] == c.input;
    } else {
      ReadingExact(x, c, |data|);
    }
  }

  /** Consuming `a` and then `b` bytes is consuming `a + b`. */
  lemma ConsumedTwice(x: Externals, c: Conn, a: nat, b: nat, ab: nat)
    requires ab == a + b <= |c.input|
    ensures Consumed(x, Consumed(x, c, a), b) == Consumed(x, c, ab)
  {
    var i := c.input;
    assert i[..a + b] == i[..a] + i[a..][..b];
    PlainSplit(x.aes, c.dec, i[..a], i[a..][..b]);
  }

  /** What the server sees after consuming `a` bytes is the rest of what it saw. */
  lemma ConsumedPlain(x: Externals, c: Conn, a: nat)
    requires a <= |c.input|
    ensures Plain(x.aes, Consumed(x, c, a).dec, Consumed(x, c, a).input) == Plain(x.aes, c.dec, c.input)[a..]
  {
    var i := c.input;
    assert i == i[..a] + i[a..];
    PlainSplit(x.aes, c.dec, i[..a], i[a..]);
  }

  /** A turn on input whose decrypted form starts with the frame of `id` and `payload`
      reads exactly that frame, and gets back that id and payload. */
  lemma ReceivingFrame(x: Externals, c: Conn, id: nat, payload: seq<byte>)
    requires id < VarInt.Two35 && |VarInt.Encode(id)| + |payload| < VarInt.Two35
    requires StartsWith(x, c, Packet.Frame(id, payload))
    ensures Receiving(x, c) == After(Consumed(x, c, |Packet.Frame(id, payload)|), Ok(Received(id, payload)))
  {
    var e := VarInt.Encode(id);
    var body := e + payload;
    var a := VarInt.Encode(|body|);
    assert Packet.Frame(id, payload) == a + body;
    StartsWithPrefix(x, c, a, body);
    ReadingVarIntOfEncode(x, c, |body|);
    var c1 := Consumed(x, c, |a|);
    StartsWithRest(x, c, a, body);
    StartsWithPrefix(x, c1, e, payload);
    ReadingVarIntOfEncode(x, c1, id);
    var c2 := Consumed(x, c1, |e|);
    StartsWithRest(x, c1, e, payload);
    ReadingStart(x, c2, payload);
    assert |body| - |e| == |payload|;
    ConsumedTwice(x, c1, |e|, |payload|, |body|);
    ConsumedTwice(x, c, |a|, |body|, |Packet.Frame(id, payload)|);
    assert ReadingVarInt(x, c) == After(c1, Ok(VarIntRead(|body|, |a|)));
    assert ReadingVarInt(x, c1) == After(c2, Ok(VarIntRead(id, |e|)));
  }

  /** The bytes a peer sends for a frame when its encrypter, if any, is in the state of the
      server's decrypter. */
  function Sealed(aes: Cipher.BlockFn, dec: Option<Cipher.Stream>, frame: seq<byte>): (r: seq<byte>)
    ensures |r| == |frame|
  {
    if dec.None? then frame else Cipher.Encrypt(aes, dec.value, frame).data
  }

  /** Where the peer's encrypter is after sealing a frame. */
  function Unsealed(aes: Cipher.BlockFn, dec: Option<Cipher.Stream>, frame: seq<byte>): (r: Option<Cipher.Stream>)
    ensures r.Some? == dec.Some?
  {
    if dec.None? then None else Some(Cipher.Encrypt(aes, dec.value, frame).next)
  }

  /** A frame sealed in lock-step with the server's decrypter is received as its id and
      payload; it is consumed exactly, and the decrypter ends where the peer's encrypter
      did. */
  lemma ReceivingSealed(x: Externals, c: Conn, id: nat, payload: seq<byte>, rest: seq<byte>)
    requires id < VarInt.Two35 && |VarInt.Encode(id)| + |payload| < VarInt.Two35
    requires c.input == Sealed(x.aes, c.dec, Packet.Frame(id, payload)) + rest
    ensures Receiving(x, c)
      == After(c.(input := rest, dec := Unsealed(x.aes, c.dec, Packet.Frame(id, payload))), Ok(Received(id, payload)))
  {
    var f := Packet.Frame(id, payload);
    var sealed := Sealed(x.aes, c.dec, f);
    assert c.input[..|f|] == sealed && c.input[|f|..] == rest;
    PlainSplit(x.aes, c.dec, sealed, rest);
    if c.dec.Some? {
      Cipher.DecryptEncrypt(x.aes, c.dec.value, f);
    }
    ReceivingFrame(x, c, id, payload);
  }

  /** Round trip from `send` to the loop of handle: the bytes one connection writes for a
      packet, read by a connection whose decrypter is in the state of the writer's
      encrypter (both off, or both on in lock-step), are received as the same packet id
      and payload, and leave the reader's decrypter where the writer's encrypter is. */
  lemma SentIsReceived(x: Externals, c: Conn, d: Conn, protocol: nat, contents: seq<Packet.Value>, rest: seq<byte>)
    requires Packet.Other !in contents
    requires protocol < VarInt.Two35
    requires |VarInt.Encode(protocol)| + |Packet.EncodePayload(contents).value| < VarInt.Two35
    requires d.dec == c.enc
    requires d.input == Sending(x, c, protocol, contents).conn.written[|c.written|] + rest
    ensures Receiving(x, d) == After(d.(input := rest, dec := Sending(x, c, protocol, contents).conn.enc),
                                     Ok(Received(protocol, Packet.EncodePayload(contents).value)))
  {
    ReceivingSealed(x, d, protocol, Packet.EncodePayload(contents).value, rest);
  }

  /** A frame the server sends goes out as a frame of the payload, or, once encryption is
      on, as bytes from which a peer decrypting in lock-step recovers that frame and ends
      in the encrypter's new state (CFB-8 stays synchronised in both directions). */
  lemma SendingFrame(x: Externals, c: Conn, protocol: nat, contents: seq<Packet.Value>)
    requires Packet.Other !in contents
    ensures var r := Sending(x, c, protocol, contents).conn;
      var frame := Packet.Frame(protocol, Packet.EncodePayload(contents).value);
      var out := r.written[|c.written|];
      |out| == |frame|
      && (c.enc.None? ==> out == frame)
      && (c.enc.Some? ==>
            Cipher.Decrypt(x.aes, c.enc.value, out).data == frame
            && Some(Cipher.Decrypt(x.aes, c.enc.value, out).next) == r.enc)
  {
    if c.enc.Some? {
      Cipher.DecryptEncrypt(x.aes, c.enc.value, Packet.Frame(protocol, Packet.EncodePayload(contents).value));
    }
  }

  // ---------------------------------------------------------------------------
  // The socket

  /** The peer's end of the connection, as the server uses it: a byte stream to read from,
      the writes made on it, and whether it was closed. */
  class Socket {
    var input: seq<byte>
    var written: seq<seq<byte>>
    var closed: bool

    constructor (input: seq<byte>)
      ensures this.input == input && written == [] && !closed
    {
      this.input := input;
      written := [];
      closed := false;
    }

    /** One read through bufio.Reader: up to `n` bytes, fewer when the peer has not sent
        more; none at all stands for the reader's error at the end of the stream. */
    method Receive(n: nat) returns (chunk: seq<byte>)
      modifies this
      ensures chunk == old(input)[..if n < |old(input)| then n else |old(input)|]
      ensures input == old(input)[|chunk|..]
      ensures written == old(written) && closed == old(closed)
    {
      var k := if n < |input| then n else |input|;
      chunk := input[..k];
      input := input[k..];
    }

    method Write(b: seq<byte>)
      modifies this
      ensures written == old(written) + [b]
      ensures input == old(input) && closed == old(closed)
    {
      written := written + [b];
    }

    method Close()
      modifies this
      ensures closed
      ensures input == old(input) && written == old(written)
    {
      closed := true;
    }
  }

  // ---------------------------------------------------------------------------
  // The client

  class Client {
    var state: int
    var teleport: int
    var info: Info
    var enc: Option<Cipher.Stream>
    var dec: Option<Cipher.Stream>
    const ext: Externals
    const rng: seq<byte>
    const socket: Socket

    /** The connection as the specification functions see it. */
    function Abs(): Conn
      reads this, socket
    {
      Conn(state, teleport, info, rng, enc, dec, socket.input, socket.written, socket.closed)
    }

    /** newClient (client.go:81-109) when key generation succeeds: `rng` is the 64 random
        bytes it draws. */
    constructor (socket: Socket, ext: Externals, rng: seq<byte>)
      requires |rng| == 64
      ensures this.socket == socket && this.ext == ext
      ensures Abs() == Opened(rng, socket.input, socket.written, socket.closed)
    {
      this.socket := socket;
      this.ext := ext;
      this.rng := rng;
      state := Handshaking;
      teleport := 0;
      info := Info([], ZeroUuid);
      enc := None;
      dec := None;
    }

    /** teleportId (client.go:120-123): the next teleport id, counting from 1. */
    method TeleportId() returns (r: int)
      modifies this
      ensures r == old(teleport) + 1
      ensures Abs() == old(Abs()).(teleport := r)
    {
      teleport := teleport + 1;
      return teleport;
    }

    /** send (client.go:125-203). */
    method Send(protocol: nat, contents: seq<Packet.Value>) returns (err: Option<Error>)
      modifies this, socket
      ensures After(Abs(), err) == Sending(ext, old(Abs()), protocol, contents)
    {
      var encoded := Packet.WritePayload(contents);
      if encoded.Err? {
        return Some(encoded.error);
      }
      var payload := encoded.value;
      var prot := VarInt.WriteVarInt(protocol);
      var payloadWithProt := prot + payload;
      var length := VarInt.WriteVarInt(|payloadWithProt|);
      var final := length + payloadWithProt;
      if enc.None? {
        socket.Write(final);
      } else {
        var o := Cipher.Encrypt(ext.aes, enc.value, final);
        enc := Some(o.next);
        socket.Write(o.data);
      }
      return None;
    }

    /** close (client.go:205-207). */
    method Close()
      modifies socket
      ensures Abs() == old(Abs()).(closed := true)
    {
      socket.Close();
    }

    /** read (client.go:209-229). */
    method Read(length: int) returns (r: Result<seq<byte>>)
      modifies this, socket
      ensures After(Abs(), r) == Reading(ext, old(Abs()), length)
    {
      if length == 0 {
        return Ok([]);
      }
      if length < 0 {
        return Err(Panic);
      }
      var got := socket.Receive(length);
      if got == [] {
        return Err(EndOfStream);
      }
      var buff := got + Zeros(length - |got|);
      if dec.Some? {
        var o := Cipher.Decrypt(ext.aes, dec.value, buff);
        dec := Some(o.next);
        return Ok(o.data);
      }
      return Ok(buff);
    }

    /** readVarInt (client.go:231-258): one read of one byte per turn. */
    method ReadVarInt() returns (r: Result<VarIntRead>)
      modifies this, socket
      ensures After(Abs(), r) == ReadingVarInt(ext, old(Abs()))
    {
      var value: nat := 0;
      var pos: nat := 0;
      var length: nat := 0;
      ghost var c0 := Abs();
      ghost var plain := Plain(ext.aes, c0.dec, c0.input);
      while true
        invariant length <= 4 && length <= |c0.input| && pos == 7 * length
        invariant Abs() == Consumed(ext, c0, length)
        invariant VarInt.Decode(plain)
          == VarInt.Accumulated(VarInt.Groups(plain[length..], 5 - length), value, pos, length)
        decreases 5 - length
      {
        ghost var k := length;
        ReadStep(ext, c0, k);
        var currentByte := Read(1);
        length := length + 1;
        if currentByte.Err? {
          VarIntTurn(ext, c0, k, value, pos);
          return Err(currentByte.error);
        }
        var b := currentByte.value[0];
        ghost var before := value;
        value := VarInt.Merge(value, b, pos);
        if !VarInt.Continues(b) {
          VarIntTurn(ext, c0, k, before, pos);
          break;
        }
        pos := pos + 7;
        if pos >= 32 {
          VarIntTurn(ext, c0, k, before, pos - 7);
          return Err(TooBig);
        }
        VarIntGoesOn(ext, c0, k, before, pos - 7);
      }
      return Ok(VarIntRead(value, length));
    }

    /** The three reads of one turn of handle (socket.go:50-66). */
    method ReadPacket() returns (r: Result<Received>)
      modifies this, socket
      ensures After(Abs(), r) == Receiving(ext, old(Abs()))
    {
      var length := ReadVarInt();
      if length.Err? {
        return Err(length.error);
      }
      var id := ReadVarInt();
      if id.Err? {
        return Err(id.error);
      }
      var data := Read(length.value.value - id.value.length);
      if data.Err? {
        return Err(data.error);
      }
      return Ok(Received(id.value.value, data.value));
    }

    /** register (client.go:260-275); the logger it installs is not part of this model. */
    method Register(name: seq<byte>, id: Uuid)
      modifies this
      ensures Abs() == Registering(old(Abs()), name, id)
    {
      info := Info(name, id);
    }

    /** registerSecret (client.go:286-295). */
    method RegisterSecret(key: seq<byte>) returns (err: Option<Error>)
      modifies this
      ensures After(Abs(), err) == RegisteringSecret(old(Abs()), key)
    {
      if !Cipher.KeyAccepted(key) {
        return Some(KeySizeInvalid);
      }
      dec := Some(Cipher.NewStream(key));
      enc := Some(Cipher.NewStream(key));
      return None;
    }
  }

  /** One turn of the loop of readVarInt, after `k` bytes, that ends the call: it ends
      with the result `ReadingVarInt` gives. */
  lemma VarIntTurn(x: Externals, c: Conn, k: nat, value: nat, pos: nat)
    requires k <= 4 && k <= |c.input| && pos == 7 * k
    requires var plain := Plain(x.aes, c.dec, c.input);
      VarInt.Decode(plain) == VarInt.Accumulated(VarInt.Groups(plain[k..], 5 - k), value, pos, k)
    ensures k == |c.input| ==> ReadingVarInt(x, c) == After(Consumed(x, c, k), Err(EndOfStream))
    ensures k < |c.input| ==>
      var plain := Plain(x.aes, c.dec, c.input);
      var merged := VarInt.Merge(value, plain[k], pos);
      && (!VarInt.Continues(plain[k]) ==>
            ReadingVarInt(x, c) == After(Consumed(x, c, k + 1), Ok(VarIntRead(merged, k + 1))))
      && (VarInt.Continues(plain[k]) && k == 4 ==>
            ReadingVarInt(x, c) == After(Consumed(x, c, 5), Err(TooBig)))
  {
    var plain := Plain(x.aes, c.dec, c.input);
    VarInt.DecodeProperties(plain);
    if k < |c.input| {
      VarInt.AccumulateStep(plain[k..], 5 - k, value, pos, k);
      assert plain[k..][1..] == plain[k + 1..];
    }
  }

  /** One turn of the loop of readVarInt, after `k` bytes, that goes on: one more group
      is merged into the value. */
  lemma VarIntGoesOn(x: Externals, c: Conn, k: nat, value: nat, pos: nat)
    requires k < 4 && k < |c.input| && pos == 7 * k
    requires var plain := Plain(x.aes, c.dec, c.input);
      VarInt.Decode(plain) == VarInt.Accumulated(VarInt.Groups(plain[k..], 5 - k), value, pos, k)
    requires VarInt.Continues(Plain(x.aes, c.dec, c.input)[k])
    ensures var plain := Plain(x.aes, c.dec, c.input);
      VarInt.Decode(plain)
      == VarInt.Accumulated(VarInt.Groups(plain[k + 1..], 4 - k), VarInt.Merge(value, plain[k], pos), pos + 7, k + 1)
  {
    var plain := Plain(x.aes, c.dec, c.input);
    VarInt.AccumulateStep(plain[k..], 5 - k, value, pos, k);
    assert plain[k..][1..] == plain[k + 1..];
  }

  /** One turn of readVarInt: after `k` bytes were consumed, reading one more gives the
      k-th byte the server sees, or the reader's error when the input is used up. */
  lemma ReadStep(x: Externals, c: Conn, k: nat)
    requires k <= |c.input|
    ensures Reading(x, Consumed(x, c, k), 1)
      == if k < |c.input| then After(Consumed(x, c, k + 1), Ok([Plain(x.aes, c.dec, c.input)[k]]))
         else After(Consumed(x, c, k), Err(EndOfStream))
  {
    if k < |c.input| {
      ConsumedTwice(x, c, k, 1, k + 1);
      ConsumedPlain(x, c, k);
      ReadingExact(x, Consumed(x, c, k), 1);
      var plain := Plain(x.aes, c.dec, c.input);
      assert plain[k..][..1] == [plain[k]];
    }
  }
}
