/** Shared vocabulary: bytes, UUIDs, Go's fixed-width integers, the errors the
    protocol engine can end a connection with, and big-endian byte layouts. */
module Base {

  /** One octet on the wire. */
  type byte = b: int | 0 <= b < 256

  /** A 128-bit identifier, kept as its 16 raw bytes (google/uuid's array form). */
  type Uuid = s: seq<byte> | |s| == 16 witness [0, 0, 0, 0, 0, 0, 0, 0, 0, 0, 0, 0, 0, 0, 0, 0]

  const ZeroUuid: Uuid := [0, 0, 0, 0, 0, 0, 0, 0, 0, 0, 0, 0, 0, 0, 0, 0]

  const Two32: int := 0x1_0000_0000
  const Two64: int := 0x1_0000_0000_0000_0000

  /** Go's int32 and int64. */
  type int32 = n: int | -0x8000_0000 <= n < 0x8000_0000
  type int64 = n: int | -0x8000_0000_0000_0000 <= n < 0x8000_0000_0000_0000

  datatype Option<T> = None | Some(value: T)

  /** Every way a packet can end the session.  `Panic` stands for a Go runtime panic
      (index or slice bound out of range, `make` with a negative length, a failed
      type assertion): where the source has no bounds check the model returns it. */
  datatype Error =
    | TooBig                    // "VarInt is too big"
    | Panic                     // a Go runtime panic
    | EndOfStream               // the socket reader reported an error
    | UnknownType               // "Got an unknown type"
    | UnknownProtocol(id: int)  // "Unknown protcol %d"
    | StateNotHandled(state: int) // "State not handled %v"
    | TokenMismatch             // "Token doesn't match"
    | DecryptFailed             // RSA decryption of the secret or the token failed
    | KeyMarshalFailed          // DER marshalling of the public key failed
    | KeySizeInvalid            // aes.NewCipher refused the shared secret

  datatype Result<T> = Ok(value: T) | Err(error: Error)

  /** The only errors a field decoder reports: "VarInt is too big" and a panic. */
  predicate DecoderError(e: Error)
  {
    e == TooBig || e == Panic
  }

  /** Concatenation regrouped (a helper for the solver). */
  lemma Regroup<T>(a: seq<T>, b: seq<T>, c: seq<T>)
    ensures a + b + c == a + (b + c)
  {
  }

  /** Appending two elements one at a time appends both. */
  lemma AppendTwo<T>(s: seq<T>, a: T, b: T)
    ensures s + [a] + [b] == s + [a, b]
  {
  }

  /** Where the three parts of `a + (b + c)` sit in a sequence that starts with it. */
  lemma Pieces<T>(s: seq<T>, a: seq<T>, b: seq<T>, c: seq<T>)
    requires |a| + |b| + |c| <= |s| && s[..|a| + |b| + |c|] == a + (b + c)
    ensures s[0..|a|] == a && s[|a|..|a| + |b|] == b && s[|a| + |b|..|a| + |b| + |c|] == c
  {
    var n := |a| + |b| + |c|;
    assert s[0..|a|] == s[..n][0..|a|];
    assert s[|a|..|a| + |b|] == s[..n][|a|..|a| + |b|];
    assert s[|a| + |b|..n] == s[..n][|a| + |b|..n];
  }

  function Pow2(k: nat): (r: nat)
    ensures r > 0
  {
    if k == 0 then 1 else 2 * Pow2(k - 1)
  }

  /** Exclusive or of two bits. */
  function XorBit(p: nat, q: nat): (r: nat)
    requires p < 2 && q < 2
    ensures r < 2
  {
    if p == q then 0 else 1
  }

  /** Bitwise exclusive or of the low `k` bits of `a` and `b`. */
  function XorBits(a: nat, b: nat, k: nat): (r: nat)
    ensures r < Pow2(k)
  {
    if k == 0 then 0 else XorBit(a % 2, b % 2) + 2 * XorBits(a / 2, b / 2, k - 1)
  }

  /** The low bit and the rest of `bit + 2 * t` are `bit` and `t`. */
  lemma XorBitsOfHalves(bit: nat, t: nat, b: nat, k: nat)
    requires bit < 2 && k > 0
    ensures XorBits(bit + 2 * t, b, k) == XorBit(bit, b % 2) + 2 * XorBits(t, b / 2, k - 1)
  {
    assert (bit + 2 * t) % 2 == bit && (bit + 2 * t) / 2 == t;
  }

  lemma HalfBound(a: nat, k: nat)
    requires k > 0 && a < Pow2(k)
    ensures a / 2 < Pow2(k - 1)
  {
    var p := Pow2(k - 1);
    assert Pow2(k) == 2 * p;
  }

  lemma {:induction false} XorBitsCancel(a: nat, b: nat, k: nat)
    requires a < Pow2(k)
    ensures XorBits(XorBits(a, b, k), b, k) == a
  {
    if k > 0 {
      var a0, a1, b0 := a % 2, a / 2, b % 2;
      var bit := XorBit(a0, b0);
      var t := XorBits(a1, b / 2, k - 1);
      assert XorBits(a, b, k) == bit + 2 * t;
      XorBitsOfHalves(bit, t, b, k);
      HalfBound(a, k);
      XorBitsCancel(a1, b / 2, k - 1);
      assert XorBit(bit, b0) == a0;
      assert a == a0 + 2 * a1;
    }
  }

  /** Exclusive or of two bytes. */
  function Xor(a: byte, b: byte): byte
  {
    assert Pow2(ByteBits) == 256;
    XorBits(a, b, ByteBits)
  }

  /** The width of a byte. */
  const ByteBits: nat := 8

  /** Masking twice with the same keystream byte gives the byte back. */
  lemma XorCancel(a: byte, b: byte)
    ensures Xor(Xor(a, b), b) == a
  {
    assert Pow2(ByteBits) == 256;
    XorBitsCancel(a, b, ByteBits);
  }

  function Pow256(w: nat): (r: nat)
    ensures r > 0
  {
    if w == 0 then 1 else 256 * Pow256(w - 1)
  }

  /** The low `width` bytes of `n`, most significant first (encoding/binary.BigEndian). */
  function BigEndian(n: nat, width: nat): (r: seq<byte>)
    ensures |r| == width
  {
    if width == 0 then [] else BigEndian(n / 256, width - 1) + [n % 256]
  }

  /** The unsigned number whose big-endian bytes are `s`. */
  function FromBigEndian(s: seq<byte>): (r: nat)
    ensures r < Pow256(|s|)
  {
    if s == [] then 0 else FromBigEndian(s[..|s| - 1]) * 256 + s[|s| - 1]
  }

  /** Reading back what BigEndian wrote gives the number, when it fits in `width` bytes. */
  lemma {:induction false} FromBigEndianOfBigEndian(n: nat, width: nat)
    requires n < Pow256(width)
    ensures FromBigEndian(BigEndian(n, width)) == n
  {
    if width > 0 {
      var s := BigEndian(n, width);
      assert s[..|s| - 1] == BigEndian(n / 256, width - 1);
      FromBigEndianOfBigEndian(n / 256, width - 1);
    }
  }

  /** Writing back what FromBigEndian read gives the same bytes. */
  lemma {:induction false} BigEndianOfFromBigEndian(s: seq<byte>)
    ensures BigEndian(FromBigEndian(s), |s|) == s
  {
    if s != [] {
      var init := s[..|s| - 1];
      var n := FromBigEndian(s);
      assert n / 256 == FromBigEndian(init) && n % 256 == s[|s| - 1];
      BigEndianOfFromBigEndian(init);
      assert s == init + [s[|s| - 1]];
    }
  }

  /** Two's complement: the unsigned bit pattern of a signed value (Go's uint32(v), uint64(v)). */
  function Unsigned(n: int, modulus: nat): (r: nat)
    requires modulus > 0
    ensures r < modulus
  {
    n % modulus
  }

  /** The signed value of a 64-bit pattern (Go's int64(u)). */
  function Signed64(u: nat): (r: int64)
    requires u < Two64
    ensures Unsigned(r, Two64) == u
  {
    if u < Two64 / 2 then u else u - Two64
  }
}
