/** The stream ciphers a session switches on after the key exchange (client.go:286-295):
    AES in 8-bit cipher feedback mode (CFB-8, NIST SP 800-38A section 6.3) with the shared
    secret as both key and initialisation vector.  AES itself is a foreign call and stays
    abstract: the model is given, as a function, the first byte of the block cipher's
    output for a key and an input block.  The cfb8 package is not part of this model: the
    register here is as long as the IV, which is standard CFB-8 only for a 16-byte secret. */
module Cipher {
  import opened Base

  /** The first byte of AES_key(block). */
  type BlockFn = (seq<byte>, seq<byte>) -> byte

  /** A CFB-8 stream: the key and the shift register (initially the IV). */
  datatype Stream = Stream(key: seq<byte>, register: seq<byte>)

  /** The result of running bytes through a stream: the advanced stream and the output. */
  datatype Out = Out(next: Stream, data: seq<byte>)

  /** cfb8.NewEncrypter / NewDecrypter(block, key): the IV is the key itself. */
  function NewStream(key: seq<byte>): Stream
  {
    Stream(key, key)
  }

  /** aes.NewCipher accepts keys of 16, 24 or 32 bytes and refuses every other length. */
  predicate KeyAccepted(key: seq<byte>)
  {
    |key| == 16 || |key| == 24 || |key| == 32
  }

  /** Feedback: the register is shifted by one byte and the ciphertext byte enters it. */
  function Feed(s: Stream, c: byte): (r: Stream)
    ensures r.key == s.key && |r.register| == |s.register|
  {
    if s.register == [] then s else Stream(s.key, s.register[1..] + [c])
  }

  /** Encrypting: each plaintext byte is masked with the keystream byte, and the resulting
      ciphertext byte is fed back. */
  function Encrypt(aes: BlockFn, s: Stream, plain: seq<byte>): (r: Out)
    ensures |r.data| == |plain|
    decreases |plain|
  {
    if plain == [] then Out(s, [])
    else
      var c := Xor(plain[0], aes(s.key, s.register));
      var tail := Encrypt(aes, Feed(s, c), plain[1..]);
      Out(tail.next, [c] + tail.data)
  }

  /** Decrypting: each ciphertext byte is unmasked with the keystream byte and is itself
      fed back. */
  function Decrypt(aes: BlockFn, s: Stream, cipher: seq<byte>): (r: Out)
    ensures |r.data| == |cipher|
    decreases |cipher|
  {
    if cipher == [] then Out(s, [])
    else
      var p := Xor(cipher[0], aes(s.key, s.register));
      var tail := Decrypt(aes, Feed(s, cipher[0]), cipher[1..]);
      Out(tail.next, [p] + tail.data)
  }

  /** A decrypter in the same state as the encrypter recovers the plaintext and ends in
      the same state, whatever the block cipher: the two ends stay in lock-step. */
  lemma {:induction false} DecryptEncrypt(aes: BlockFn, s: Stream, plain: seq<byte>)
    ensures Decrypt(aes, s, Encrypt(aes, s, plain).data).next == Encrypt(aes, s, plain).next
    ensures Decrypt(aes, s, Encrypt(aes, s, plain).data).data == plain
    decreases |plain|
  {
    if plain != [] {
      var k := aes(s.key, s.register);
      var c := Xor(plain[0], k);
      XorCancel(plain[0], k);
      var e := Encrypt(aes, s, plain);
      assert e.data[0] == c && e.data[1..] == Encrypt(aes, Feed(s, c), plain[1..]).data;
      DecryptEncrypt(aes, Feed(s, c), plain[1..]);
    }
  }

  /** Decryption works byte by byte: decrypting `a + b` is decrypting `a`, then `b` from the
      stream `a` left behind.  So reading a frame in pieces decrypts it as one. */
  lemma {:induction false} DecryptSplit(aes: BlockFn, s: Stream, a: seq<byte>, b: seq<byte>)
    ensures Decrypt(aes, s, a + b)
      == Out(Decrypt(aes, Decrypt(aes, s, a).next, b).next,
             Decrypt(aes, s, a).data + Decrypt(aes, Decrypt(aes, s, a).next, b).data)
    decreases |a|
  {
    if a == [] {
      assert a + b == b;
    } else {
      assert (a + b)[0] == a[0] && (a + b)[1..] == a[1..] + b;
      var s1 := Feed(s, a[0]);
      DecryptSplit(aes, s1, a[1..], b);
      var mid := Decrypt(aes, s1, a[1..]);
      Regroup([Xor(a[0], aes(s.key, s.register))], mid.data, Decrypt(aes, mid.next, b).data);
    }
  }

  /** Encryption works byte by byte too. */
  lemma {:induction false} EncryptSplit(aes: BlockFn, s: Stream, a: seq<byte>, b: seq<byte>)
    ensures Encrypt(aes, s, a + b)
      == Out(Encrypt(aes, Encrypt(aes, s, a).next, b).next,
             Encrypt(aes, s, a).data + Encrypt(aes, Encrypt(aes, s, a).next, b).data)
    decreases |a|
  {
    if a == [] {
      assert a + b == b;
    } else {
      assert (a + b)[0] == a[0] && (a + b)[1..] == a[1..] + b;
      var c := Xor(a[0], aes(s.key, s.register));
      var s1 := Feed(s, c);
      EncryptSplit(aes, s1, a[1..], b);
      var mid := Encrypt(aes, s1, a[1..]);
      Regroup([c], mid.data, Encrypt(aes, mid.next, b).data);
    }
  }
}
