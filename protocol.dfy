/** The packet handlers and the router (internal/minecraft/protocol.go): for each phase
    and packet id, what a packet's payload does to the connection.  Each handler is
    given as a function on `Session.Conn`, and the methods below are proved to have
    exactly that effect on a `Session.Client`. */
module Protocol {
  import opened Base
  import opened Fields
  import VarInt
  import Packet
  import opened Session

  // ---------------------------------------------------------------------------
  // The router's debug line

  /** The resource names of protocol.go:28-33, by packet id and then by phase. */
  const ResourceNames: seq<seq<string>> := [
    ["intention", "status_request", "hello", "??"],
    ["??", "ping_request", "key", "??"],
    ["??", "??", "??", "custom_payload"],
    ["??", "??", "login_acknowledged", "??"]
  ]

  /** State.string (protocol.go:23-25): indexing the four names panics for any other phase. */
  function StateName(state: int): (r: Result<string>)
    ensures r.Ok? <==> 0 <= state < 4
  {
    if 0 <= state < 4 then Ok(["Handshaking", "Status", "Login", "Config"][state]) else Err(Panic)
  }

  /** resName as written (protocol.go:27-40): the guard `id > len(res)` lets id 4 through
      to `res[4]`, which panics. */
  function ResNameAsWritten(state: int, id: nat): Result<string>
  {
    if id > |ResourceNames| then Ok("??")
    else if id < |ResourceNames| && 0 <= state < 4 then Ok(ResourceNames[id][state])
    else Err(Panic)
  }

  /** resName as evidently intended: every id outside the table is "??". */
  function ResName(state: int, id: nat): Result<string>
  {
    if id >= |ResourceNames| then Ok("??")
    else if 0 <= state < 4 then Ok(ResourceNames[id][state])
    else Err(Panic)
  }

  /** A packet with id 4 makes resName panic in every phase, although the guard is meant
      to answer "??" for ids the table does not have. */
  lemma ResNameAsWrittenPanicsOnFour(state: int)
    ensures ResNameAsWritten(state, 4) == Err(Panic)
  {
  }

  /** The corrected resName never panics in a phase the table knows, agrees with the
      source on every other id, and names every id beyond the table "??". */
  lemma ResNameCorrected(state: int, id: nat)
    ensures 0 <= state < 4 ==> ResName(state, id).Ok?
    ensures id != 4 ==> ResName(state, id) == ResNameAsWritten(state, id)
    ensures id >= 4 ==> ResName(state, id) == Ok("??")
  {
  }

  // ---------------------------------------------------------------------------
  // The payloads

  const IntentionFields: seq<FactoryPair> := [
    FactoryPair("protocol", IntField), FactoryPair("host", BytesField),
    FactoryPair("port", UShortField), FactoryPair("intent", IntField)]
  const HelloFields: seq<FactoryPair> := [FactoryPair("username", BytesField), FactoryPair("uuid", UuidField)]
  const KeyFields: seq<FactoryPair> := [FactoryPair("secret", BytesField), FactoryPair("token", BytesField)]
  const CustomPayloadFields: seq<FactoryPair> := [FactoryPair("channel", BytesField), FactoryPair("data", BytesField)]

  /** The type assertions `m[k].(int)`, `m[k].([]byte)`, `m[k].(uuid.UUID)`: each panics
      unless the key is bound to a value of that type. */
  predicate IsInt(m: map<string, Field>, k: string) { k in m && m[k].IntVal? }
  predicate IsBytes(m: map<string, Field>, k: string) { k in m && m[k].BytesVal? }
  predicate IsUuid(m: map<string, Field>, k: string) { k in m && m[k].UuidVal? }

  /** What no handler touches: the unread input, whether the socket is closed, the random
      challenge and the teleport counter.  At most one packet is written; a handler that
      fails writes nothing and leaves the phase and both ciphers as they were; a cipher
      that is on stays on. */
  predicate Orderly(c: Conn, r: After<Option<Error>>)
  {
    && r.conn.input == c.input && r.conn.closed == c.closed
    && r.conn.rng == c.rng && r.conn.teleport == c.teleport
    && |c.written| <= |r.conn.written| <= |c.written| + 1
    && r.conn.written[..|c.written|] == c.written
    && (c.enc.Some? ==> r.conn.enc.Some?) && (c.dec.Some? ==> r.conn.dec.Some?)
    && (r.result.Some? ==>
          r.conn.written == c.written && r.conn.state == c.state
          && r.conn.enc == c.enc && r.conn.dec == c.dec)
  }

  /** The router's own refusals, which no handler returns. */
  predicate Refusal(e: Error)
  {
    e.StateNotHandled? || e.UnknownProtocol?
  }

  /** The reply of a handler: `send` is called and its result ignored. */
  function Replied(x: Externals, c: Conn, protocol: nat, contents: seq<Packet.Value>): (r: After<Option<Error>>)
    requires Packet.Other !in contents
    ensures Orderly(c, r) && r.result.None?
    ensures r.conn.state == c.state && r.conn.info == c.info && r.conn.dec == c.dec
  {
    After(Sending(x, c, protocol, contents).conn, None)
  }

  // ---------------------------------------------------------------------------
  // The handlers

  /** intention (protocol.go:116-138): the phase becomes the client's intent, whatever
      number it is. */
  function Intention(c: Conn, data: seq<byte>): (r: After<Option<Error>>)
    ensures Orderly(c, r)
    ensures r.result.Some? ==> !Refusal(r.result.value)
    ensures r.result.None? ==> r.conn == c.(state := r.conn.state) && r.conn.state >= 0
  {
    match ReadFields(data, IntentionFields)
    case Err(e) => After(c, Some(e))
    case Ok(m) =>
      if !IsInt(m, "protocol") || !IsBytes(m, "host") || !IsInt(m, "port") || !IsInt(m, "intent")
      then After(c, Some(Panic))
      else After(c.(state := m["intent"].n), None)
  }

  /** status_request (protocol.go:140-167): the status document as one byte string. */
  function StatusRequest(x: Externals, c: Conn): (r: After<Option<Error>>)
    ensures Orderly(c, r) && r.result.None? && r.conn.state == c.state
  {
    Replied(x, c, 0x00, [Packet.Bytes(x.statusJson)])
  }

  /** hello (protocol.go:169-193): the player's name and uuid are registered, then the
      encryption request goes out: an empty server id, the public key and the random
      verify token, and `true`. */
  function Hello(x: Externals, c: Conn, data: seq<byte>): (r: After<Option<Error>>)
    ensures Orderly(c, r) && r.conn.state == c.state
    ensures r.result.Some? ==> !Refusal(r.result.value)
  {
    match ReadFields(data, HelloFields)
    case Err(e) => After(c, Some(e))
    case Ok(m) =>
      if !IsBytes(m, "username") || !IsUuid(m, "uuid") then After(c, Some(Panic))
      else
        var c1 := Registering(c, m["username"].b, m["uuid"].u);
        match x.publicKeyDer
        case None => After(c1, Some(KeyMarshalFailed))
        case Some(key) =>
          Replied(x, c1, 0x01, [Packet.Str([]), Packet.Bytes(key), Packet.Bytes(c.rng), Packet.Bool(true)])
  }

  /** ping_request (protocol.go:61-66): the first eight bytes as a big-endian int64, sent
      back.  Fewer than eight bytes make binary.BigEndian.Uint64 panic. */
  function Ping(x: Externals, c: Conn, data: seq<byte>): (r: After<Option<Error>>)
    ensures Orderly(c, r) && r.conn.state == c.state
    ensures r.result.Some? ==> !Refusal(r.result.value)
  {
    if |data| < 8 then After(c, Some(Panic))
    else Replied(x, c, 0x01, [Packet.Int64(Signed64(FromBigEndian(data[..8])))])
  }

  /** key (protocol.go:68-105): the token must decrypt to the verify token; then the
      secret is decrypted and switches both ciphers on, and the login success goes out
      already encrypted. */
  function Key(x: Externals, c: Conn, data: seq<byte>): (r: After<Option<Error>>)
    ensures Orderly(c, r) && r.conn.state == c.state
    ensures r.result.Some? ==> !Refusal(r.result.value)
  {
    match ReadFields(data, KeyFields)
    case Err(e) => After(c, Some(e))
    case Ok(m) =>
      if !IsBytes(m, "secret") || !IsBytes(m, "token") then After(c, Some(Panic))
      else match x.rsaDecrypt(m["token"].b)
        case None => After(c, Some(DecryptFailed))
        case Some(plain) =>
          if plain != c.rng then After(c, Some(TokenMismatch))
          else match x.rsaDecrypt(m["secret"].b)
            case None => After(c, Some(DecryptFailed))
            case Some(secretKey) =>
              var k := RegisteringSecret(c, secretKey);
              if k.result.Some? then k
              else Replied(x, k.conn, 0x02, [Packet.Id(c.info.uuid), Packet.Str(c.info.name), Packet.Bytes([])])
  }

  /** custom_payload (protocol.go:204-216): the channel and data are only logged. */
  function CustomPayload(c: Conn, data: seq<byte>): (r: After<Option<Error>>)
    ensures Orderly(c, r)
    ensures r.result.Some? ==> !Refusal(r.result.value)
    ensures r.conn == c
  {
    match ReadFields(data, CustomPayloadFields)
    case Err(e) => After(c, Some(e))
    case Ok(m) =>
      if !IsBytes(m, "channel") || !IsBytes(m, "data") then After(c, Some(Panic))
      else After(c, None)
  }

  /** login_acknowledged (protocol.go:227-229). */
  function LoginAcknowledged(c: Conn): (r: After<Option<Error>>)
    ensures Orderly(c, r)
  {
    After(c.(state := Config), None)
  }

  function NotHandled(c: Conn): (r: After<Option<Error>>)
    ensures Orderly(c, r)
  {
    After(c, Some(StateNotHandled(c.state)))
  }

  /** protocol0 (protocol.go:114-200). */
  function OnId0(x: Externals, c: Conn, data: seq<byte>): (r: After<Option<Error>>)
    ensures Orderly(c, r)
  {
    if c.state == Handshaking then Intention(c, data)
    else if c.state == Status then StatusRequest(x, c)
    else if c.state == Login then Hello(x, c, data)
    else NotHandled(c)
  }

  /** protocol1 (protocol.go:59-112). */
  function OnId1(x: Externals, c: Conn, data: seq<byte>): (r: After<Option<Error>>)
    ensures Orderly(c, r)
  {
    if c.state == Status then Ping(x, c, data)
    else if c.state == Login then Key(x, c, data)
    else NotHandled(c)
  }

  /** protocol2 (protocol.go:202-223). */
  function OnId2(c: Conn, data: seq<byte>): (r: After<Option<Error>>)
    ensures Orderly(c, r)
  {
    if c.state == Config then CustomPayload(c, data) else NotHandled(c)
  }

  /** protocol3 (protocol.go:225-234). */
  function OnId3(c: Conn): (r: After<Option<Error>>)
    ensures Orderly(c, r)
  {
    if c.state == Login then LoginAcknowledged(c) else NotHandled(c)
  }

  /** router (protocol.go:42-57).  The debug line is built before the switch, so a phase
      outside the four known ones panics for every packet; the id is then dispatched. */
  function Route(x: Externals, c: Conn, id: nat, data: seq<byte>): (r: After<Option<Error>>)
    ensures Orderly(c, r)
    ensures r.conn.state != c.state ==> (id == 0 && c.state == Handshaking) || (id == 3 && c.state == Login)
    ensures r.conn.state >= c.state
  {
    if StateName(c.state).Err? || ResName(c.state, id).Err? then After(c, Some(Panic))
    else if id == 0 then OnId0(x, c, data)
    else if id == 1 then OnId1(x, c, data)
    else if id == 2 then OnId2(c, data)
    else if id == 3 then OnId3(c)
    else After(c, Some(UnknownProtocol(id)))
  }

  // ---------------------------------------------------------------------------
  // The methods

  /** router (protocol.go:42-57); the log line itself is not part of this model. */
  method Router(c: Client, id: nat, data: seq<byte>) returns (err: Option<Error>)
    modifies c, c.socket
    ensures After(c.Abs(), err) == Route(c.ext, old(c.Abs()), id, data)
  {
    var stateName := StateName(c.state);
    var resName := ResName(c.state, id);
    if stateName.Err? || resName.Err? {
      return Some(Panic);
    }
    if id == 0 {
      err := Protocol0(c, data);
    } else if id == 1 {
      err := Protocol1(c, data);
    } else if id == 2 {
      err := Protocol2(c, data);
    } else if id == 3 {
      err := Protocol3(c);
    } else {
      err := Some(UnknownProtocol(id));
    }
  }

  /** protocol0 (protocol.go:114-200). */
  method Protocol0(c: Client, data: seq<byte>) returns (err: Option<Error>)
    modifies c, c.socket
    ensures After(c.Abs(), err) == OnId0(c.ext, old(c.Abs()), data)
  {
    if c.state == Handshaking {
      var m := ReadFromBuffer(data, IntentionFields);
      if m.Err? {
        return Some(m.error);
      }
      var fields := m.value;
      if !IsInt(fields, "protocol") || !IsBytes(fields, "host") || !IsInt(fields, "port") || !IsInt(fields, "intent") {
        return Some(Panic);
      }
      c.state := fields["intent"].n;
      return None;
    } else if c.state == Status {
      var _ := c.Send(0x00, [Packet.Bytes(c.ext.statusJson)]);
      return None;
    } else if c.state == Login {
      var m := ReadFromBuffer(data, HelloFields);
      if m.Err? {
        return Some(m.error);
      }
      var fields := m.value;
      if !IsBytes(fields, "username") || !IsUuid(fields, "uuid") {
        return Some(Panic);
      }
      c.Register(fields["username"].b, fields["uuid"].u);
      var key := c.ext.publicKeyDer;
      if key.None? {
        return Some(KeyMarshalFailed);
      }
      var _ := c.Send(0x01, [Packet.Str([]), Packet.Bytes(key.value), Packet.Bytes(c.rng), Packet.Bool(true)]);
      return None;
    }
    return Some(StateNotHandled(c.state));
  }

  /** protocol1 (protocol.go:59-112). */
  method Protocol1(c: Client, data: seq<byte>) returns (err: Option<Error>)
    modifies c, c.socket
    ensures After(c.Abs(), err) == OnId1(c.ext, old(c.Abs()), data)
  {
    if c.state == Status {
      if |data| < 8 {
        return Some(Panic);
      }
      var timestamp := Signed64(FromBigEndian(data[..8]));
      var _ := c.Send(0x01, [Packet.Int64(timestamp)]);
      return None;
    } else if c.state == Login {
      var m := ReadFromBuffer(data, KeyFields);
      if m.Err? {
        return Some(m.error);
      }
      var fields := m.value;
      if !IsBytes(fields, "secret") || !IsBytes(fields, "token") {
        return Some(Panic);
      }
      var secret := fields["secret"].b;
      var token := fields["token"].b;
      var plain := c.ext.rsaDecrypt(token);
      if plain.None? {
        return Some(DecryptFailed);
      }
      if plain.value != c.rng {
        return Some(TokenMismatch);
      }
      var secretKey := c.ext.rsaDecrypt(secret);
      if secretKey.None? {
        return Some(DecryptFailed);
      }
      err := c.RegisterSecret(secretKey.value);
      if err.Some? {
        return err;
      }
      var _ := c.Send(0x02, [Packet.Id(c.info.uuid), Packet.Str(c.info.name), Packet.Bytes([])]);
      return None;
    }
    return Some(StateNotHandled(c.state));
  }

  /** protocol2 (protocol.go:202-223). */
  method Protocol2(c: Client, data: seq<byte>) returns (err: Option<Error>)
    modifies c, c.socket
    ensures After(c.Abs(), err) == OnId2(old(c.Abs()), data)
  {
    if c.state == Config {
      var m := ReadFromBuffer(data, CustomPayloadFields);
      if m.Err? {
        return Some(m.error);
      }
      if !IsBytes(m.value, "channel") || !IsBytes(m.value, "data") {
        return Some(Panic);
      }
      return None;
    }
    return Some(StateNotHandled(c.state));
  }

  /** protocol3 (protocol.go:225-234). */
  method Protocol3(c: Client) returns (err: Option<Error>)
    modifies c, c.socket
    ensures After(c.Abs(), err) == OnId3(old(c.Abs()))
  {
    if c.state == Login {
      c.state := Config;
      return None;
    }
    return Some(StateNotHandled(c.state));
  }

  // ---------------------------------------------------------------------------
  // What the handlers promise

  /** The (phase, id) pairs the handlers serve. */
  predicate Handled(state: int, id: nat)
  {
    || (id == 0 && (state == Handshaking || state == Status || state == Login))
    || (id == 1 && (state == Status || state == Login))
    || (id == 2 && state == Config)
    || (id == 3 && state == Login)
  }

  /** The dispatch serves exactly the pairs the resource-name table names. */
  lemma HandledMatchesNames(state: int, id: nat)
    requires 0 <= state < 4 && id < 4
    ensures Handled(state, id) <==> ResourceNames[id][state] != "??"
  {
  }

  /** The routing table: in a phase outside the four known ones every packet panics; an id
      beyond 3 is an unknown protocol; a known id in a phase that does not serve it is
      "state not handled".  None of these changes anything. */
  lemma RouteRefuses(x: Externals, c: Conn, id: nat, data: seq<byte>)
    ensures !(0 <= c.state < 4) ==> Route(x, c, id, data) == After(c, Some(Panic))
    ensures 0 <= c.state < 4 && id >= 4 ==> Route(x, c, id, data) == After(c, Some(UnknownProtocol(id)))
    ensures 0 <= c.state < 4 && id < 4 && !Handled(c.state, id) ==>
      Route(x, c, id, data) == After(c, Some(StateNotHandled(c.state)))
  {
    ResNameCorrected(c.state, id);
  }

  /** The other half of the routing table: a pair that is served reaches its handler, so it
      is never refused as an unknown protocol or an unhandled state. */
  lemma RouteServes(x: Externals, c: Conn, id: nat, data: seq<byte>)
    requires 0 <= c.state < 4 && Handled(c.state, id)
    ensures var r := Route(x, c, id, data).result;
      r.Some? ==> !Refusal(r.value)
  {
    ResNameCorrected(c.state, id);
  }

  /** The wire form of an intention packet's payload. */
  function IntentionWire(protocol: nat, host: seq<byte>, port: nat, intent: nat): seq<byte>
    requires protocol < VarInt.Two35 && |host| < VarInt.Two35 && port < 0x1_0000 && intent < VarInt.Two35
  {
    Concat(IntentionFields, [IntVal(protocol), BytesVal(host), IntVal(port), IntVal(intent)])
  }

  /** The intention fields read back from their wire form. */
  lemma IntentionRead(protocol: nat, host: seq<byte>, port: nat, intent: nat, rest: seq<byte>)
    requires protocol < VarInt.Two35 && |host| < VarInt.Two35 && port < 0x1_0000 && intent < VarInt.Two35
    ensures var m := ReadFields(IntentionWire(protocol, host, port, intent) + rest, IntentionFields);
      && m.Ok? && IsInt(m.value, "protocol") && IsBytes(m.value, "host") && IsInt(m.value, "port")
      && IsInt(m.value, "intent") && m.value["intent"].n == intent
      && m.value["protocol"].n == protocol && m.value["host"].b == host && m.value["port"].n == port
  {
    var vals := [IntVal(protocol), BytesVal(host), IntVal(port), IntVal(intent)];
    assert NoUuid(IntentionFields[..3]) by {
      var p := IntentionFields[..3];
      assert p[1..][1..][1..] == [];
      assert NoUuid(p[1..][1..]);
      assert NoUuid(p[1..]);
    }
    ReadFieldsOfWire(IntentionFields, vals, rest);
    var m := Collect(map[], IntentionFields, vals);
    assert m == map["protocol" := IntVal(protocol), "host" := BytesVal(host), "port" := IntVal(port), "intent" := IntVal(intent)];
  }

  /** The handshake moves to whatever phase the client asks for, and does nothing else:
      intent 1 leads to Status, 2 to Login, and any other number is stored as it is. */
  lemma IntentionSetsPhase(x: Externals, c: Conn, protocol: nat, host: seq<byte>, port: nat, intent: nat, rest: seq<byte>)
    requires c.state == Handshaking
    requires protocol < VarInt.Two35 && |host| < VarInt.Two35 && port < 0x1_0000 && intent < VarInt.Two35
    ensures Route(x, c, 0, IntentionWire(protocol, host, port, intent) + rest) == After(c.(state := intent), None)
  {
    IntentionRead(protocol, host, port, intent, rest);
  }

  /** A phase outside the four known ones, which a handshake with any other intent
      leaves behind, makes every later packet panic. */
  lemma StrayIntentIsFatal(x: Externals, c: Conn, protocol: nat, host: seq<byte>, port: nat, intent: nat,
                            rest: seq<byte>, id: nat, data: seq<byte>)
    requires c.state == Handshaking
    requires protocol < VarInt.Two35 && |host| < VarInt.Two35 && port < 0x1_0000 && 4 <= intent < VarInt.Two35
    ensures var c1 := Route(x, c, 0, IntentionWire(protocol, host, port, intent) + rest).conn;
      Route(x, c1, id, data) == After(c1, Some(Panic))
  {
    IntentionSetsPhase(x, c, protocol, host, port, intent, rest);
  }

  /** The encryption request hello sends. */
  function EncryptionRequest(x: Externals, rng: seq<byte>): seq<Packet.Value>
    requires x.publicKeyDer.Some?
  {
    [Packet.Str([]), Packet.Bytes(x.publicKeyDer.value), Packet.Bytes(rng), Packet.Bool(true)]
  }

  /** hello records the name and uuid, replacing any identity an earlier hello recorded,
      and answers in plaintext with the encryption request. */
  lemma HelloRequestsEncryption(x: Externals, c: Conn, name: seq<byte>, id: Uuid, rest: seq<byte>)
    requires c.state == Login && c.enc.None? && |name| < VarInt.Two35 && x.publicKeyDer.Some?
    ensures var r := Route(x, c, 0, Concat(HelloFields, [BytesVal(name), UuidVal(id)]) + rest);
      r.result.None?
      && r.conn == c.(info := Info(name, id), written := c.written + [Packet.Frame(0x01, Packet.EncodePayload(EncryptionRequest(x, c.rng)).value)])
  {
    ReadFieldsOfWire(HelloFields, [BytesVal(name), UuidVal(id)], rest);
  }

  /** Without a public key to send, hello still records the identity but fails. */
  lemma HelloWithoutKeyFails(x: Externals, c: Conn, name: seq<byte>, id: Uuid, rest: seq<byte>)
    requires c.state == Login && |name| < VarInt.Two35 && x.publicKeyDer.None?
    ensures Route(x, c, 0, Concat(HelloFields, [BytesVal(name), UuidVal(id)]) + rest)
      == After(c.(info := Info(name, id)), Some(KeyMarshalFailed))
  {
    ReadFieldsOfWire(HelloFields, [BytesVal(name), UuidVal(id)], rest);
  }

  /** The ping reply carries the request's first eight bytes unchanged. */
  lemma PingEchoes(x: Externals, c: Conn, data: seq<byte>)
    requires c.state == Status && c.enc.None? && |data| >= 8
    ensures Route(x, c, 1, data) == After(c.(written := c.written + [Packet.Frame(0x01, data[..8])]), None)
  {
    var v := Packet.Int64(Signed64(FromBigEndian(data[..8])));
    Packet.Int64Echo(data[..8]);
    assert [] + [v] == [v];
    Packet.EncodePayloadSnoc([], v);
    assert [] + data[..8] == data[..8];
    assert Packet.EncodePayload([v]) == Ok(data[..8]);
    assert Route(x, c, 1, data) == Ping(x, c, data);
  }

  /** The wire form of a key packet's payload. */
  function KeyWire(secret: seq<byte>, token: seq<byte>): seq<byte>
    requires |secret| < VarInt.Two35 && |token| < VarInt.Two35
  {
    Concat(KeyFields, [BytesVal(secret), BytesVal(token)])
  }

  /** The key fields read back from their wire form. */
  lemma KeyRead(secret: seq<byte>, token: seq<byte>, rest: seq<byte>)
    requires |secret| < VarInt.Two35 && |token| < VarInt.Two35
    ensures var m := ReadFields(KeyWire(secret, token) + rest, KeyFields);
      && m.Ok? && IsBytes(m.value, "secret") && IsBytes(m.value, "token")
      && m.value["secret"].b == secret && m.value["token"].b == token
  {
    ReadFieldsOfWire(KeyFields, [BytesVal(secret), BytesVal(token)], rest);
  }

  /** The login success key sends. */
  function LoginSuccess(info: Info): seq<Packet.Value>
  {
    [Packet.Id(info.uuid), Packet.Str(info.name), Packet.Bytes([])]
  }

  /** A key packet whose token decrypts to the verify token and whose secret is an AES
      key switches both directions to CFB-8 under that key, and the login success it
      sends is already encrypted: a client that switched on the same key decrypts it to
      the frame, and its decrypter ends where the server's encrypter did. */
  lemma KeyExchangeSucceeds(x: Externals, c: Conn, secret: seq<byte>, token: seq<byte>, key: seq<byte>, rest: seq<byte>)
    requires c.state == Login && |secret| < VarInt.Two35 && |token| < VarInt.Two35
    requires x.rsaDecrypt(token) == Some(c.rng) && x.rsaDecrypt(secret) == Some(key)
    requires Cipher.KeyAccepted(key)
    ensures var r := Route(x, c, 1, KeyWire(secret, token) + rest);
      && r.result.None?
      && r.conn.dec == Some(Cipher.NewStream(key))
      && |r.conn.written| == |c.written| + 1
      && var out := Cipher.Decrypt(x.aes, Cipher.NewStream(key), r.conn.written[|c.written|]);
      && out.data == Packet.Frame(0x02, Packet.EncodePayload(LoginSuccess(c.info)).value)
      && r.conn.enc == Some(out.next)
      && r.conn == c.(enc := r.conn.enc, dec := r.conn.dec, written := r.conn.written)
  {
    KeyRead(secret, token, rest);
    assert Route(x, c, 1, KeyWire(secret, token) + rest) == Key(x, c, KeyWire(secret, token) + rest);
    var k := RegisteringSecret(c, key);
    SendingFrame(x, k.conn, 0x02, LoginSuccess(c.info));
  }

  /** A token that does not decrypt to the verify token is refused: nothing is written and
      no cipher is switched on. */
  lemma WrongTokenRefused(x: Externals, c: Conn, secret: seq<byte>, token: seq<byte>, rest: seq<byte>)
    requires c.state == Login && |secret| < VarInt.Two35 && |token| < VarInt.Two35
    requires x.rsaDecrypt(token).Some? && x.rsaDecrypt(token).value != c.rng
    ensures Route(x, c, 1, KeyWire(secret, token) + rest) == After(c, Some(TokenMismatch))
  {
    KeyRead(secret, token, rest);
  }

  /** login_acknowledged moves Login to Config whether or not the key exchange took
      place. */
  lemma AcknowledgedWithoutKey(x: Externals, c: Conn, data: seq<byte>)
    requires c.state == Login
    ensures Route(x, c, 3, data) == After(c.(state := Config), None)
  {
  }

  /** bytesFactory's swallowed "VarInt is too big" never goes unnoticed: the next decoder
      then meets an empty buffer and panics, so a hello, key or custom_payload packet whose
      first length prefix is overlong ends the session and changes nothing. */
  lemma OverlongPrefixPanics(x: Externals, c: Conn, id: nat, data: seq<byte>)
    requires VarInt.Decode(data) == Err(TooBig)
    requires (id == 0 && c.state == Login) || (id == 1 && c.state == Login) || (id == 2 && c.state == Config)
    ensures Route(x, c, id, data) == After(c, Some(Panic))
  {
    VarInt.DecodeProperties([]);
  }
}
