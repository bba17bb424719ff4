# Minecraft server protocol engine, in Dafny

This project models the protocol engine of a small Minecraft Java Edition server written
in Go (package `internal/minecraft`). It covers four parts:

- the VarInt codec and the field decoders (`utils.go`);
- the client object: the outgoing packet serialiser `send`, the stream readers `read` and
  `readVarInt`, and the small mutators `teleportId`, `register` and `registerSecret`
  (`client.go`);
- the router and the four per-id handlers, which dispatch on the connection's phase
  (`protocol.go`);
- the frame loop `handle` of one connection (`socket.go`).

Modules follow the program's structure:

- `Base`: bytes, `Option`/`Result`, errors, XOR and big-endian helpers.
- `VarInt`: `readVarIntFromBuff`, `writeVarInt`.
- `Fields`: the factories and `readFromBuffer`.
- `Packet`: the body of `send`.
- `Cipher`: CFB-8 over an abstract AES block function.
- `Session`: a snapshot `Conn` of a connection, one specification function per client
  operation, and the classes `Socket` and `Client`.
- `Protocol`: one function per handler, and the methods `Router`, `Protocol0`…`Protocol3`.
- `Connection`: `Step`, `Run` and the method `Handle`.

Each imperative operation is a method proved equal to a specification function of the
old state, for example `After(Abs(), r) == ReadingVarInt(ext, old(Abs()))`. Lemmas then
state the properties: round trips, bounds, error cases and end-to-end exchanges.

A Go runtime panic (an out-of-range index or slice, `make` with a negative length, a
failed type assertion) becomes the error `Panic`. Such a panic ends the session, and every
handler's contract covers that path.

Foreign calls become parameters, carried in `Session.Externals`:

- RSA PKCS#1 v1.5 decryption with the server's private key;
- the DER form of its public key;
- the first output byte of AES for a key and block;
- the status JSON document.

The 64 random bytes `newClient` draws are the parameter `rng`. `Connection.Handle` and the
`Session.Client` constructor require it to be 64 bytes long.

Behaviour worth knowing, all of it as the code has it:

- The handshake stores whatever intent the client sends as the new phase. Nothing limits
  it to 1 (Status) or 2 (Login). A phase outside 0..3 then makes every later packet panic
  in `State.string` (`Protocol.StrayIntentIsFatal`).
- A second `hello` replaces the recorded identity (client.go:270-274).
- `login_acknowledged` moves Login to Config even when no key exchange took place
  (`Protocol.AcknowledgedWithoutKey`).
- The Config phase handles only `custom_payload` (id 2). `client_information`,
  `select_known_packs`, `finish_configuration` and the Play phase do not exist in the code.
- `readFromBuffer` is declared over a Go map, whose iteration order is random. Every
  caller passes an ordered list of `factoryPair`, and the model uses that ordered list.
- `handle` calls `newClient(socket)` with one argument, but `newClient` is declared with
  two, `(socket, id)`. The `id` field plays no part in the logic and is left out.

## Model

| member | source | states |
|---|---|---|
| VarInt.Segment | internal/minecraft/utils.go:22 | the data bits of a byte are at most 0x7F |
| VarInt.Groups | internal/minecraft/utils.go:19-34 | on success the index of the last byte read is below the byte budget and inside the buffer, and that byte has the continuation bit clear |
| VarInt.GroupsErrors | internal/minecraft/utils.go:14-37 | the only errors the decoder returns are "VarInt is too big" and the index panic |
| VarInt.Decode | internal/minecraft/utils.go:14-37 | definition only: readVarIntFromBuff is the group decoder with a five-byte budget; its properties are in VarInt.DecodeProperties and VarInt.DecodeEncode |
| VarInt.AccumulateStep | internal/minecraft/utils.go:22-29 | one turn of the loop: a terminating byte ends the decode with the merged value, and a continuing one leaves the rest of the decode to the remaining bytes with the value merged and the position advanced by 7 |
| VarInt.ReadVarIntFromBuff | internal/minecraft/utils.go:14-38 | the loop returns exactly `Decode(buff)`: the value and the index of its last byte, "too big", or the index panic |
| VarInt.GroupsOk | internal/minecraft/utils.go:19-36 | a successful decode ends at a byte without the continuation bit, every earlier byte has it, the value fits in 7 bits per byte read, and only those bytes decide the result |
| VarInt.GroupsTooBig | internal/minecraft/utils.go:28-33 | the decode fails with "too big" exactly when all bytes of the budget carry the continuation bit |
| VarInt.GroupsPanic | internal/minecraft/utils.go:19-20 | the decode runs off the buffer exactly when it is shorter than the budget and no byte of it terminates the VarInt |
| VarInt.DecodeProperties | internal/minecraft/utils.go:14-38 | on success at most five bytes are read, the returned index is that of the terminating byte and the value is below 2^35; "VarInt is too big" exactly when the first five bytes all continue; a panic exactly when the buffer is shorter than that and never terminates |
| VarInt.DecodeIgnoresTrailing | internal/minecraft/utils.go:14-38 | the bytes after the terminating one are never inspected |
| VarInt.PrefixDecides | internal/minecraft/utils.go:14-38 | once a prefix decodes, appending bytes does not change the result |
| VarInt.Encode | internal/minecraft/utils.go:40-52 | the encoding is never empty |
| VarInt.WriteVarInt | internal/minecraft/utils.go:40-52 | the loop produces exactly `Encode(v)` |
| VarInt.EncodeShape | internal/minecraft/utils.go:43-50 | every byte but the last carries 0x80, the last does not, and the first byte carries the lowest 7-bit group |
| VarInt.EncodeGroups | internal/minecraft/utils.go:43-50 | byte i of the encoding carries the i-th 7-bit group of the value, `v / 2^(7i) % 128`, least significant first |
| VarInt.EncodeLengthBound | internal/minecraft/utils.go:43-51 | the encoding has at most k bytes exactly when the value is below 2^(7k) |
| VarInt.EncodeLength | internal/minecraft/utils.go:43-51 | for values below 2^32 the encoding takes one to five bytes, and one byte exactly when the value is below 128 |
| VarInt.GroupsOfEncode | internal/minecraft/utils.go:14-52 | decoding an encoding, with any budget it fits, gives back the value and the index of its last byte |
| VarInt.DecodeEncode | internal/minecraft/utils.go:14-52 | round trip: `readVarIntFromBuff(writeVarInt(v) ++ rest)` returns v and `len - 1`, whatever `rest` is |
| Fields.IntFactory | internal/minecraft/utils.go:71-74 | definition only: a VarInt, with the rest starting after its bytes; properties in Fields.IntFactoryOfEncode |
| Fields.LengthPrefixed | internal/minecraft/utils.go:76-94 | definition only: a VarInt length and that many bytes, a swallowed "too big" and the slice panic; properties in Fields.LengthPrefixedOfEncode, Fields.BytesFactoryConsumes, Fields.BytesFactorySwallowsTooBig and Fields.BytesFactoryPanics |
| Fields.BytesFactory | internal/minecraft/utils.go:76-84 | definition only: the length-prefixed read giving a byte slice |
| Fields.StringFactory | internal/minecraft/utils.go:86-94 | definition only: the length-prefixed read giving a string |
| Fields.UuidFactory | internal/minecraft/utils.go:61-69 | definition only: 16 bytes, then the skip of byte 16; properties in Fields.UuidFactoryOf |
| Fields.UShortFactory | internal/minecraft/utils.go:96-98 | definition only: two bytes, big-endian; properties in Fields.UShortFactoryOfBigEndian |
| Fields.Run | internal/minecraft/utils.go:61-98 | every factory fails only with "VarInt is too big" or a panic |
| Fields.Thread | internal/minecraft/utils.go:103-111 | the loop of readFromBuffer from some pair on fails only with "VarInt is too big" or a panic; its round trip is in Fields.ThreadOfWire |
| Fields.ReadFromBuffer | internal/minecraft/utils.go:100-114 | the loop returns exactly `ReadFields`: each name bound to its decoder's value, or the first decoder's error |
| Fields.IntFactoryOfEncode | internal/minecraft/utils.go:71-74 | intFactory reads back a written VarInt and leaves exactly what follows it |
| Fields.TakeBytes | internal/minecraft/utils.go:82-83 | after a decoded length prefix, the value is the next `length` bytes and the remainder starts after them |
| Fields.LengthPrefixedOfEncode | internal/minecraft/utils.go:76-94 | bytesFactory and stringFactory read back a length-prefixed byte string and leave what follows |
| Fields.BytesFactoryConsumes | internal/minecraft/utils.go:76-84 | on success the buffer is the prefix, then exactly `length` value bytes, then the remainder |
| Fields.BytesFactorySwallowsTooBig | internal/minecraft/utils.go:77-80 | an overlong length prefix is not reported: empty remainder, the string "" and no error |
| Fields.BytesFactoryPanics | internal/minecraft/utils.go:76-84 | bytesFactory panics exactly when the prefix runs off the buffer or declares more bytes than remain |
| Fields.UShortFactoryOfBigEndian | internal/minecraft/utils.go:96-98 | two big-endian bytes are read back as their 16-bit value and the rest is left |
| Fields.UuidFactoryOf | internal/minecraft/utils.go:61-69 | the first 16 bytes are the uuid, and the byte right after them is skipped |
| Fields.RunOfWire | internal/minecraft/utils.go:61-98 | each factory reads back the wire form of any value it can produce; only uuidFactory loses a following byte |
| Fields.ReadFields | internal/minecraft/utils.go:100-114 | the only errors `readFromBuffer` passes on are "VarInt is too big" and a panic |
| Fields.ThreadOfWire | internal/minecraft/utils.go:103-111 | after decoding the wire form of the first pairs, the loop goes on with exactly the bytes after them and their values recorded |
| Fields.ThreadOfWireAll | internal/minecraft/utils.go:100-114 | a whole encoded field list decodes to each name bound to its value, when only the last field may be a uuid |
| Fields.ReadFieldsOfWire | internal/minecraft/utils.go:100-114 | round trip of a field list through `readFromBuffer`, whatever follows it |
| Fields.ReadFieldsStopsAtFirstError | internal/minecraft/utils.go:104-107 | the first failing decoder's error is the result, whatever the later pairs are |
| Packet.EncodeStrings | internal/minecraft/client.go:139-144 | definition only: each string of a []string length-prefixed, in order; properties in Packet.WriteValue and Packet.StringsReadBack |
| Packet.EncodeValue | internal/minecraft/client.go:129-187 | definition only: the bytes of one value by its Go type; properties in Packet.WriteValue, Packet.ValueReadBack and the Int64, Int32 and Bool lemmas |
| Packet.EncodePayload | internal/minecraft/client.go:126-189 | the payload fails exactly when a value of an unlisted type occurs, and then with "Got an unknown type" |
| Packet.EncodePayloadSnoc | internal/minecraft/client.go:128-189 | appending a value appends its encoding to the payload |
| Packet.WriteValue | internal/minecraft/client.go:129-187 | one turn of the type switch, including the count-prefixed `[]string` loop, produces `EncodeValue(v)` |
| Packet.WritePayload | internal/minecraft/client.go:126-189 | the loop over the values produces `EncodePayload`, stopping at the first unknown type |
| Packet.ValueReadBack | internal/minecraft/client.go:130-169 | strings and byte slices come back through bytesFactory, ints through intFactory, and uuids through uuidFactory |
| Packet.StringsReadBack | internal/minecraft/client.go:135-144 | a `[]string` starts with its count as a VarInt, followed by each string length-prefixed |
| Packet.Int64ReadBack | internal/minecraft/client.go:157-160 | an int64 is 8 big-endian bytes of its two's complement, which read back to it |
| Packet.Int32ReadBack | internal/minecraft/client.go:161-164 | an int32 is 4 big-endian bytes of its two's complement, which read back to it |
| Packet.Int64Echo | internal/minecraft/client.go:157-160 | 8 bytes read as a big-endian int64 and written again are the same 8 bytes |
| Packet.BoolByte | internal/minecraft/client.go:170-175 | a bool is the single byte 1 or 0 |
| Packet.Frame | internal/minecraft/client.go:191-192 | definition only: VarInt(length) ++ VarInt(id) ++ payload; properties in Packet.FrameReadBack and Session.ReceivingFrame |
| Packet.FrameReadBack | internal/minecraft/client.go:191-192 | the frame's length prefix is the count of the id and payload bytes that follow it |
| Cipher.NewStream | internal/minecraft/client.go:292-293 | definition only: a CFB-8 stream whose IV is the key itself; used by Session.RegisteringSecret |
| Cipher.KeyAccepted | internal/minecraft/client.go:287-290 | definition only: aes.NewCipher accepts keys of 16, 24 or 32 bytes; used by Session.RegisteringSecret |
| Cipher.Feed | internal/minecraft/client.go:292-293 | the CFB-8 feedback keeps the key and the register's length |
| Cipher.Encrypt | internal/minecraft/client.go:197-198 | the ciphertext is as long as the plaintext |
| Cipher.Decrypt | internal/minecraft/client.go:222-223 | the plaintext is as long as the ciphertext |
| Cipher.DecryptEncrypt | internal/minecraft/client.go:292-293 | a decrypter in the state of the encrypter recovers the plaintext and ends in the encrypter's new state, whatever the block cipher |
| Cipher.DecryptSplit | internal/minecraft/client.go:222-223 | decrypting in two pieces is decrypting in one |
| Cipher.EncryptSplit | internal/minecraft/client.go:197-198 | encrypting in two pieces is encrypting in one |
| Session.Opened | internal/minecraft/client.go:98-108 | definition only: Handshaking, teleport 0, an empty identity and no ciphers; the constructor of Session.Client is proved to produce it |
| Session.Registering | internal/minecraft/client.go:270-274 | definition only: the identity replaced by the name and uuid; Session.Client.Register is proved to produce it |
| Session.Plain | internal/minecraft/client.go:221-228 | the bytes the server sees are as many as it read |
| Session.Advance | internal/minecraft/client.go:221-223 | the decrypter stays on once it is on and stays off otherwise |
| Session.PlainSplit | internal/minecraft/client.go:221-223 | reading in two pieces sees the same bytes and leaves the same decrypter as reading in one |
| Session.Consumed | internal/minecraft/client.go:214-223 | consuming n bytes shortens the unread input by n |
| Session.ConsumedTwice | internal/minecraft/client.go:209-229 | consuming a bytes and then b bytes is consuming a + b |
| Session.ConsumedPlain | internal/minecraft/client.go:209-229 | what the server sees after consuming a bytes is the rest of what it saw |
| Session.Zeros | internal/minecraft/client.go:214 | `make` fills the buffer with zeros |
| Session.Reading | internal/minecraft/client.go:209-229 | read changes only the unread input and the decrypter, never grows the input, and returns exactly `length` bytes on success |
| Session.ReadingExact | internal/minecraft/client.go:209-229 | a read the input can satisfy returns the next `length` bytes the server sees and consumes them |
| Session.ReadingShort | internal/minecraft/client.go:214-228 | a plaintext read beyond the end returns what is left padded with zeros, and no error |
| Session.ReadingStart | internal/minecraft/client.go:209-229 | reading as many bytes as the input starts with returns them, `read(0)` included |
| Session.ReadingVarInt | internal/minecraft/client.go:231-258 | readVarInt changes only the input and the decrypter, and on success reports 1 to 5 bytes, exactly as many as it consumed |
| Session.ReadingVarIntOfEncode | internal/minecraft/client.go:231-258 | readVarInt on a written VarInt returns its value and its byte count and consumes exactly those bytes |
| Session.Receiving | internal/minecraft/socket.go:50-66 | a turn's three reads change only the input and the decrypter, and a successful turn consumes at least one byte |
| Session.ReceivingFrame | internal/minecraft/socket.go:50-62 | on input that starts with a frame, the turn reads the length, then the id of `sz` bytes, then exactly `length - sz` payload bytes, gets back that id and payload, and consumes exactly the frame |
| Session.ReceivingSealed | internal/minecraft/socket.go:50-62 | a frame sealed in lock-step with the server's decrypter is received as its id and payload, and the decrypter ends where the peer's encrypter did |
| Session.SentIsReceived | internal/minecraft/client.go:191-200 | round trip: the bytes `send` writes, read by a connection whose decrypter matches the writer's encrypter, are received as the same id and payload, and the two cipher states stay equal |
| Session.Sending | internal/minecraft/client.go:125-203 | send fails exactly on an unknown type, and then changes nothing; otherwise it appends exactly one write and changes only the writes and the encrypter |
| Session.SendingFrame | internal/minecraft/client.go:191-200 | the write is as long as the frame; without a cipher it is the frame itself; with one it decrypts in lock-step to the frame, and the encrypter ends where that decrypter does |
| Session.RegisteringSecret | internal/minecraft/client.go:286-295 | a key of 16, 24 or 32 bytes switches both directions to CFB-8 with the key as IV; any other key is refused and changes nothing |
| Session.Socket.Receive | internal/minecraft/client.go:215 | one read returns up to n of the bytes the peer sent, in order, and removes them from the stream |
| Session.Socket.Write | internal/minecraft/client.go:195-199 | a write is appended to the socket's writes |
| Session.Socket.Close | internal/minecraft/client.go:205-207 | the socket is closed, and nothing else changes |
| Session.Client.constructor | internal/minecraft/client.go:98-108 | a new client is in Handshaking, with teleport 0, an empty identity and no ciphers |
| Session.Client.TeleportId | internal/minecraft/client.go:120-123 | the counter goes up by one and the new value is returned, so the first call returns 1 and later ones increase |
| Session.Client.Send | internal/minecraft/client.go:125-203 | the client's new state and writes are exactly those `Sending` gives |
| Session.Client.Close | internal/minecraft/client.go:205-207 | the only change is that the socket is closed |
| Session.Client.Read | internal/minecraft/client.go:209-229 | the result and the new state are exactly those `Reading` gives |
| Session.Client.ReadVarInt | internal/minecraft/client.go:231-258 | the byte-by-byte loop has exactly the effect and the result of `ReadingVarInt` |
| Session.Client.ReadPacket | internal/minecraft/socket.go:50-66 | the three reads of a turn have exactly the effect and the result of `Receiving` |
| Session.Client.Register | internal/minecraft/client.go:270-274 | the identity is replaced by the new name and uuid, and nothing else changes |
| Session.Client.RegisterSecret | internal/minecraft/client.go:286-295 | the result and the new ciphers are exactly those `RegisteringSecret` gives |
| Session.VarIntTurn | internal/minecraft/client.go:237-255 | a loop turn that ends the call (end of input, a terminating byte, the fifth continuing byte) ends with the result `ReadingVarInt` specifies |
| Session.VarIntGoesOn | internal/minecraft/client.go:244-250 | a continuing byte leaves the rest of the decode to the remaining bytes, with the group merged in |
| Session.ReadStep | internal/minecraft/client.go:237-242 | `read(1)` after k bytes returns the k-th byte the server sees, or the end-of-stream error |
| Protocol.StateName | internal/minecraft/protocol.go:23-25 | naming a phase panics exactly when it is outside 0..3 |
| Protocol.ResNameAsWritten | internal/minecraft/protocol.go:27-40 | definition only: resName with the guard `id > len(res)` as written; Protocol.ResNameAsWrittenPanicsOnFour shows the id-4 panic |
| Protocol.ResName | internal/minecraft/protocol.go:27-40 | definition only: resName with the guard `id >= len(res)`; Protocol.ResNameCorrected relates it to the code as written |
| Protocol.ResNameCorrected | internal/minecraft/protocol.go:27-40 | the corrected resName never fails in a known phase, agrees with the source on every id but 4, and names every id beyond the table "??" |
| Protocol.Replied | internal/minecraft/protocol.go:193 | a handler's reply writes at most one packet, keeps the phase, identity and decrypter, and ignores send's result |
| Protocol.Intention | internal/minecraft/protocol.go:116-138 | on success only the phase changes, to a non-negative number; a failure writes nothing and keeps the phase and the ciphers |
| Protocol.StatusRequest | internal/minecraft/protocol.go:140-167 | the status request always succeeds, keeps the phase and writes at most one packet |
| Protocol.Hello | internal/minecraft/protocol.go:169-193 | hello keeps the phase, and on failure writes nothing and leaves the ciphers alone |
| Protocol.Ping | internal/minecraft/protocol.go:61-66 | the ping keeps the phase and writes at most one packet, none on failure |
| Protocol.Key | internal/minecraft/protocol.go:68-105 | the key exchange keeps the phase; on any failure it writes nothing and switches no cipher on |
| Protocol.CustomPayload | internal/minecraft/protocol.go:204-216 | custom_payload changes nothing |
| Protocol.LoginAcknowledged | internal/minecraft/protocol.go:227-229 | login_acknowledged is `Orderly`: it keeps the input, the earlier writes, the verify token and the teleport counter, and a cipher that is on stays on; the move to Config is in Protocol.AcknowledgedWithoutKey |
| Protocol.NotHandled | internal/minecraft/protocol.go:195-196 | the default branch is `Orderly`: it keeps the input, the earlier writes, the verify token and the teleport counter; that it is the "State not handled" error with nothing changed is in Protocol.RouteRefuses |
| Protocol.OnId0 | internal/minecraft/protocol.go:114-200 | protocol0 keeps the unread input, the verify token and the teleport counter, appends at most one write, never switches a cipher off, and on failure writes nothing and keeps the phase and the ciphers |
| Protocol.OnId1 | internal/minecraft/protocol.go:59-112 | protocol1 gives the same guarantees as protocol0 |
| Protocol.OnId2 | internal/minecraft/protocol.go:202-223 | protocol2 gives the same guarantees as protocol0 |
| Protocol.OnId3 | internal/minecraft/protocol.go:225-234 | protocol3 gives the same guarantees as protocol0 |
| Protocol.Route | internal/minecraft/protocol.go:42-57 | only intention in Handshaking and login_acknowledged in Login change the phase, which never goes back; the router writes at most one packet and nothing on failure |
| Protocol.Router | internal/minecraft/protocol.go:42-57 | the client's new state and the error are exactly those `Route` gives |
| Protocol.Protocol0 | internal/minecraft/protocol.go:114-200 | the effect and the error are exactly those of `OnId0` |
| Protocol.Protocol1 | internal/minecraft/protocol.go:59-112 | the effect and the error are exactly those of `OnId1` |
| Protocol.Protocol2 | internal/minecraft/protocol.go:202-223 | the effect and the error are exactly those of `OnId2` |
| Protocol.Protocol3 | internal/minecraft/protocol.go:225-234 | the effect and the error are exactly those of `OnId3` |
| Protocol.Handled | internal/minecraft/protocol.go:59-234 | definition only: the (phase, id) pairs the four protocol switches serve; properties in Protocol.HandledMatchesNames, Protocol.RouteRefuses and Protocol.RouteServes |
| Protocol.HandledMatchesNames | internal/minecraft/protocol.go:28-33 | the (phase, id) pairs the handlers serve are exactly those the resource-name table names |
| Protocol.RouteRefuses | internal/minecraft/protocol.go:42-57 | an unknown phase panics, an id beyond 3 is "Unknown protcol", and a served id in the wrong phase is "State not handled"; none of these changes anything |
| Protocol.RouteServes | internal/minecraft/protocol.go:42-57 | a served (phase, id) pair always reaches its handler, so it is never refused as "Unknown protcol" or "State not handled" |
| Protocol.IntentionRead | internal/minecraft/protocol.go:121-134 | the four intention fields decode, in order, from their wire form, each to the value written and of the type the handler asserts |
| Protocol.IntentionSetsPhase | internal/minecraft/protocol.go:121-136 | the handshake sets the phase to the raw intent and changes nothing else |
| Protocol.StrayIntentIsFatal | internal/minecraft/protocol.go:136 | after an intent of 4 or more, every packet panics |
| Protocol.HelloRequestsEncryption | internal/minecraft/protocol.go:171-193 | hello records (name, uuid), replacing any earlier identity, and replies with id 1: an empty string, the DER key, the verify token and true |
| Protocol.HelloWithoutKeyFails | internal/minecraft/protocol.go:183-188 | without a public key, hello records the identity but fails and sends nothing |
| Protocol.PingEchoes | internal/minecraft/protocol.go:64-66 | the ping reply, id 1, carries the request's first 8 bytes unchanged |
| Protocol.KeyRead | internal/minecraft/protocol.go:71-81 | the secret and the token decode from their wire form |
| Protocol.KeyExchangeSucceeds | internal/minecraft/protocol.go:83-105 | a matching token and an acceptable secret switch both ciphers on under the secret; the login success (uuid, name, empty list) is the first encrypted packet and decrypts in lock-step to its frame |
| Protocol.WrongTokenRefused | internal/minecraft/protocol.go:83-90 | a token that does not decrypt to the verify token is "Token doesn't match"; nothing is sent and no cipher is switched on |
| Protocol.AcknowledgedWithoutKey | internal/minecraft/protocol.go:227-229 | login_acknowledged moves Login to Config whether or not the keys were exchanged |
| Protocol.OverlongPrefixPanics | internal/minecraft/utils.go:76-80 | the swallowed "too big" error leaves the next decoder an empty buffer, so hello, key and custom_payload panic and change nothing |
| Connection.Step | internal/minecraft/socket.go:49-73 | a turn keeps earlier writes, never lowers the phase, and when the loop goes on it has consumed input |
| Connection.Run | internal/minecraft/socket.go:49-73 | the whole loop keeps earlier writes and never lowers the phase; it terminates because every turn that goes on consumes input |
| Connection.Turn | internal/minecraft/socket.go:50-72 | one iteration has exactly the effect of `Step` and goes on exactly when no read and no handler failed |
| Connection.Handle | internal/minecraft/socket.go:40-74 | when client creation fails the socket is untouched; otherwise the socket ends as `Run` says and is closed |
| Connection.FrameReceived | internal/minecraft/socket.go:50-68 | a frame sent in plaintext or in cipher lock-step is routed as exactly its id and payload, with the rest of the input left for the next turn |
| Connection.RunAtEnd | internal/minecraft/socket.go:50-54 | with no input left the loop stops at once and changes nothing |
| Connection.RunFrame | internal/minecraft/socket.go:49-73 | a frame handled without error is one turn, after which the loop goes on with the rest of the input in the new state |
| Connection.RunStopsAtError | internal/minecraft/socket.go:68-72 | a refused frame is the last one handled; whatever follows it stays unread |
| Connection.HandshakeTurn | internal/minecraft/socket.go:49-73 | a handshake frame with intent 1 moves a fresh connection to Status and the loop goes on |
| Connection.StatusTurn | internal/minecraft/socket.go:49-73 | a status request frame is answered with the status document and the loop goes on |
| Connection.PingTurn | internal/minecraft/socket.go:49-73 | a ping frame is answered with its own 8 bytes and the loop goes on |
| Connection.StatusExchange | internal/minecraft/socket.go:49-73 | in Status, a status request and then a ping are answered in order, and the loop stops at the end of the input |
| Connection.StatusPing | internal/minecraft/socket.go:40-74 | a whole server-list ping (handshake, status request, ping) leaves exactly the two replies written, in order, with the session in Status |

## Left out

- Logging: every slog/charmbracelet call, and the loggers `newClient` and `register`
  install. `State.string` is kept as written, because it can panic. `resName` is kept
  only in its corrected form; its as-written id-4 panic is under "## Findings".
- RSA key generation (client.go:90), PKCS#1 v1.5 decryption (RFC 8017 section 7.2.2) and
  x509 DER marshalling: foreign library calls, which are parameters of the model.
- AES itself: the model is given its first output byte for a key and a register. CFB-8
  (NIST SP 800-38A section 6.3) is modelled over it.
- Session.RegisteringSecret: the package `internal/cfb8` that `registerSecret` calls
  (client.go:292-293) is not part of this model. It is assumed to accept an IV of any
  length and to feed back over a register of that length, so 24- and 32-byte secrets give
  a 24- or 32-byte register. Only 16-byte secrets match standard CFB-8, whose IV is one
  16-byte block; what the package does with a longer IV is not modelled.
- `rand.Read` of the 64-byte verify token: it is the parameter `rng`.
- The status JSON built with encoding/json (protocol.go:143-165 and schemas.go): it is an
  opaque byte string sent with id 0x00. A failing `json.Marshal` is not modelled.
- The `float32`, `float64` and `nbt.Tag` branches of `send`: floating point and an
  external library.
- `New` and `Serve` (socket.go:14-38): the TCP accept loop that runs one goroutine per
  connection. cmd/minecraft/main.go is not part of this model.
- A Go panic ends the whole process. The model ends only the session, with `Panic`.
- Session.Sending: the errors of `socket.Write` are ignored by the source, and every write
  succeeds in the model.
- Session.Reading: `bufio.Reader.Read` may return fewer bytes than asked even while more
  are on the way. The model hands over all the bytes the peer has sent, up to the buffer
  size, in one read. When the peer has sent fewer, the rest of the buffer stays zero, as
  in the source. How TCP splits the stream is not modelled.
- Session.Reading: an allocation too large for memory (a huge frame length) is not modelled.
- VarInt.WriteVarInt: takes a `nat`. In the source a negative `int` never terminates,
  because `>>=` keeps the sign bit. `Packet.Value.Int` carries a `nat` for the same reason.
- VarInt.DecodeEncode: the round trip is stated for values below 2^35. Five 7-bit groups
  are all `readVarIntFromBuff` can return, and they cover Go's 32-bit range.
- The fields `id`, `logger`, `reader` and `key` of `client`, and the `cfg` part of
  `userInfo`: they play no part in the logic. `userConfig` has no parser.
- `newClient`'s failure: `handle` is given no AES and RSA functions (`keys` is None).
  The socket is then left as it is and is not closed, as in the source, whose deferred
  close is registered after the check.
- Protocol.Route: the debug line's text is not modelled. Its `State.string` lookup is
  (it panics outside the four phases), and so is its `resName` lookup in the corrected
  form, whose failure branch is never taken once `State.string` has passed; the id-4
  panic of the code as written is under "## Findings".

## Findings

| source | as written | input that shows it | evidently intended | confidence | as-written member | corrected member |
|---|---|---|---|---|---|---|
| internal/minecraft/protocol.go:35 | `if id > len(res)` lets `id == 4` through to `res[4]`, an index panic; `router` evaluates `resName` for every packet before dispatch | any packet with id 4 in a known phase | `id >= len(res)`, so the id gets the answer "??" and the router's "Unknown protcol 4" error | not executed | Protocol.ResNameAsWrittenPanicsOnFour | Protocol.ResNameCorrected |

The router in this model (`Protocol.Route`) uses the corrected lookup. So a packet with
id 4, like any id beyond 3, fails with `UnknownProtocol` rather than `Panic`.
