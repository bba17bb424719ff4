/** The loop that serves one connection (internal/minecraft/socket.go:40-74): read a
    frame's length and packet id as VarInts, read the rest of the frame, route it, and
    stop at the first error, closing the socket on the way out. */
module Connection {
  import opened Base
  import VarInt
  import Cipher
  import Packet
  import opened Session
  import Protocol

  /** What a turn of the loop never undoes: earlier writes stay as they were, the phase
      never goes back, and the random challenge, the teleport counter and whether the
      socket is closed do not change. */
  predicate Kept(c: Conn, d: Conn)
  {
    && |c.written| <= |d.written| && d.written[..|c.written|] == c.written
    && d.state >= c.state
    && d.rng == c.rng && d.teleport == c.teleport && d.closed == c.closed
  }

  /** One turn of the loop of handle (socket.go:49-73): `true` when the loop goes on. */
  function Step(x: Externals, c: Conn): (r: After<bool>)
    ensures Kept(c, r.conn)
    ensures |r.conn.input| <= |c.input|
    ensures r.result ==> |r.conn.input| < |c.input|
  {
    var received := Receiving(x, c);
    if received.result.Err? then After(received.conn, false)
    else
      var routed := Protocol.Route(x, received.conn, received.result.value.id, received.result.value.data);
      After(routed.conn, routed.result.None?)
  }

  /** The whole loop: turns until one fails.  Each turn that goes on reads at least the two
      VarInts, so the loop ends once the peer's bytes run out. */
  function Run(x: Externals, c: Conn): (r: Conn)
    ensures Kept(c, r)
    decreases |c.input|
  {
    var s := Step(x, c);
    if s.result then Run(x, s.conn) else s.conn
  }

  /** The body of the loop of handle (socket.go:49-73). */
  method Turn(c: Client) returns (go: bool)
    modifies c, c.socket
    ensures After(c.Abs(), go) == Step(c.ext, old(c.Abs()))
  {
    var received := c.ReadPacket();
    if received.Err? {
      return false;
    }
    var err := Protocol.Router(c, received.value.id, received.value.data);
    return err.None?;
  }

  /** handle (socket.go:40-74).  `keys` is None when newClient fails (RSA key generation
      is a foreign call): then the socket is left as it is, not even closed.  Otherwise
      `rng` stands for the 64 random bytes newClient draws, and the loop runs until its
      first error, after which the deferred close runs. */
  method Handle(socket: Socket, keys: Option<Externals>, rng: seq<byte>)
    requires |rng| == 64
    modifies socket
    ensures keys.None? ==>
      socket.input == old(socket.input) && socket.written == old(socket.written) && socket.closed == old(socket.closed)
    ensures keys.Some? ==>
      var r := Run(keys.value, Opened(rng, old(socket.input), old(socket.written), old(socket.closed)));
      socket.input == r.input && socket.written == r.written && socket.closed
  {
    if keys.None? {
      return;
    }
    var c := new Client(socket, keys.value, rng);
    ghost var x := keys.value;
    ghost var goal := Run(x, c.Abs());
    while true
      invariant c.socket == socket && c.ext == x
      invariant Run(x, c.Abs()) == goal
      decreases |socket.input|
    {
      var go := Turn(c);
      if !go {
        break;
      }
    }
    c.Close();
  }

  // ---------------------------------------------------------------------------
  // What the loop promises

  /** Round trip through the wire: a frame a peer sends, in plaintext or through a CFB-8
      encrypter in lock-step with the server's decrypter, is read back as that packet id
      and payload and routed, and afterwards the two ciphers are again in the same state. */
  lemma FrameReceived(x: Externals, c: Conn, id: nat, payload: seq<byte>, rest: seq<byte>)
    requires id < VarInt.Two35 && |VarInt.Encode(id)| + |payload| < VarInt.Two35
    requires c.input == Sealed(x.aes, c.dec, Packet.Frame(id, payload)) + rest
    ensures var f := Packet.Frame(id, payload);
      var routed := Protocol.Route(x, c.(input := rest, dec := Unsealed(x.aes, c.dec, f)), id, payload);
      Step(x, c) == After(routed.conn, routed.result.None?)
  {
    ReceivingSealed(x, c, id, payload, rest);
  }

  /** With nothing left to read the loop stops at once and changes nothing. */
  lemma RunAtEnd(x: Externals, c: Conn)
    requires c.input == []
    ensures Run(x, c) == c
  {
    assert Consumed(x, c, 0) == c by {
      assert c.input[..0] == [] && c.input[0..] == c.input;
    }
    VarInt.DecodeProperties([]);
  }

  /** A frame the server handles without error is one turn of the loop, which then goes
      on with the rest of the input. */
  lemma RunFrame(x: Externals, c: Conn, id: nat, payload: seq<byte>, rest: seq<byte>, next: Conn)
    requires id < VarInt.Two35 && |VarInt.Encode(id)| + |payload| < VarInt.Two35
    requires c.input == Sealed(x.aes, c.dec, Packet.Frame(id, payload)) + rest
    requires Protocol.Route(x, c.(input := rest, dec := Unsealed(x.aes, c.dec, Packet.Frame(id, payload))), id, payload)
      == After(next, None)
    ensures Run(x, c) == Run(x, next)
  {
    FrameReceived(x, c, id, payload, rest);
  }

  /** A frame the server refuses is the last one it handles: the session ends in the state
      the failed handler left, and whatever the peer sent after that frame stays unread. */
  lemma RunStopsAtError(x: Externals, c: Conn, id: nat, payload: seq<byte>, rest: seq<byte>, next: Conn, e: Error)
    requires id < VarInt.Two35 && |VarInt.Encode(id)| + |payload| < VarInt.Two35
    requires c.input == Sealed(x.aes, c.dec, Packet.Frame(id, payload)) + rest
    requires Protocol.Route(x, c.(input := rest, dec := Unsealed(x.aes, c.dec, Packet.Frame(id, payload))), id, payload)
      == After(next, Some(e))
    ensures Run(x, c) == next && next.input == rest
  {
    FrameReceived(x, c, id, payload, rest);
  }

  /** A handshake frame with intent 1 moves a fresh connection to Status. */
  lemma HandshakeTurn(x: Externals, c: Conn, protocol: nat, host: seq<byte>, port: nat, rest: seq<byte>)
    requires c.state == Handshaking && c.dec.None?
    requires protocol < VarInt.Two35 && |host| < VarInt.Two35 && port < 0x1_0000
    requires |Protocol.IntentionWire(protocol, host, port, 1)| < VarInt.Two35 - 1
    requires c.input == Packet.Frame(0, Protocol.IntentionWire(protocol, host, port, 1)) + rest
    ensures Run(x, c) == Run(x, c.(input := rest, state := Status))
  {
    var wire := Protocol.IntentionWire(protocol, host, port, 1);
    assert VarInt.Encode(0) == [0];
    assert wire + [] == wire;
    Protocol.IntentionSetsPhase(x, c.(input := rest), protocol, host, port, 1, []);
    RunFrame(x, c, 0, wire, rest, c.(input := rest, state := Status));
  }

  /** A status request in the Status phase is answered with the status document. */
  lemma StatusTurn(x: Externals, c: Conn, rest: seq<byte>)
    requires c.state == Status && c.dec.None? && c.enc.None?
    requires c.input == Packet.Frame(0, []) + rest
    ensures Run(x, c) == Run(x, c.(input := rest,
      written := c.written + [Packet.Frame(0, Packet.EncodePayload([Packet.Bytes(x.statusJson)]).value)]))
  {
    assert VarInt.Encode(0) == [0];
    var next := c.(input := rest,
      written := c.written + [Packet.Frame(0, Packet.EncodePayload([Packet.Bytes(x.statusJson)]).value)]);
    assert Protocol.Route(x, c.(input := rest), 0, []) == After(next, None);
    RunFrame(x, c, 0, [], rest, next);
  }

  /** A ping in the Status phase is answered with its own eight bytes. */
  lemma PingTurn(x: Externals, c: Conn, stamp: seq<byte>, rest: seq<byte>)
    requires c.state == Status && c.dec.None? && c.enc.None? && |stamp| == 8
    requires c.input == Packet.Frame(1, stamp) + rest
    ensures Run(x, c) == Run(x, c.(input := rest, written := c.written + [Packet.Frame(1, stamp)]))
  {
    assert VarInt.Encode(1) == [1];
    assert stamp[..8] == stamp;
    Protocol.PingEchoes(x, c.(input := rest), stamp);
    RunFrame(x, c, 1, stamp, rest, c.(input := rest, written := c.written + [Packet.Frame(1, stamp)]));
  }

  /** In the Status phase, a status request followed by a ping is answered with the
      status document and the ping's eight bytes, and the loop then stops at the end of
      the input. */
  lemma StatusExchange(x: Externals, c: Conn, stamp: seq<byte>)
    requires c.state == Status && c.dec.None? && c.enc.None? && |stamp| == 8
    requires c.input == Packet.Frame(0, []) + Packet.Frame(1, stamp)
    ensures var reply := Packet.Frame(0, Packet.EncodePayload([Packet.Bytes(x.statusJson)]).value);
      Run(x, c) == c.(input := [], written := c.written + [reply, Packet.Frame(1, stamp)])
  {
    var ping := Packet.Frame(1, stamp);
    StatusTurn(x, c, ping);
    var reply := Packet.Frame(0, Packet.EncodePayload([Packet.Bytes(x.statusJson)]).value);
    var c1 := c.(input := ping, written := c.written + [reply]);
    assert ping + [] == ping;
    PingTurn(x, c1, stamp, []);
    AppendTwo(c.written, reply, ping);
    RunAtEnd(x, c.(input := [], written := c.written + [reply, ping]));
  }

  /** A server list ping from start to end: the handshake with intent 1, the status
      request and a ping are answered with the status document and the ping's own eight
      bytes, and the session then stops at the end of the input in the Status phase. */
  lemma StatusPing(x: Externals, rng: seq<byte>, protocol: nat, host: seq<byte>, port: nat, stamp: seq<byte>)
    requires protocol < VarInt.Two35 && |host| < VarInt.Two35 && port < 0x1_0000 && |stamp| == 8
    requires |Protocol.IntentionWire(protocol, host, port, 1)| < VarInt.Two35 - 1
    ensures var hello := Packet.Frame(0, Protocol.IntentionWire(protocol, host, port, 1));
      var reply := Packet.Frame(0, Packet.EncodePayload([Packet.Bytes(x.statusJson)]).value);
      Run(x, Opened(rng, hello + Packet.Frame(0, []) + Packet.Frame(1, stamp), [], false))
      == Opened(rng, [], [reply, Packet.Frame(1, stamp)], false).(state := Status)
  {
    var hello := Packet.Frame(0, Protocol.IntentionWire(protocol, host, port, 1));
    var rest := Packet.Frame(0, []) + Packet.Frame(1, stamp);
    var c0 := Opened(rng, hello + Packet.Frame(0, []) + Packet.Frame(1, stamp), [], false);
    Regroup(hello, Packet.Frame(0, []), Packet.Frame(1, stamp));
    HandshakeTurn(x, c0, protocol, host, port, rest);
    StatusExchange(x, c0.(input := rest, state := Status), stamp);
    assert [] + [Packet.Frame(0, Packet.EncodePayload([Packet.Bytes(x.statusJson)]).value), Packet.Frame(1, stamp)]
      == [Packet.Frame(0, Packet.EncodePayload([Packet.Bytes(x.statusJson)]).value), Packet.Frame(1, stamp)];
  }
}
