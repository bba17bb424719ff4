/** The VarInt codec of internal/minecraft/utils.go: seven data bits per byte, least
    significant group first, the top bit (0x80) set on every byte but the last.  This is
    the unsigned LEB128 layout of DWARF 4, section 7.6, read back at most five bytes long. */
module VarInt {
  import opened Base

  const SegmentBits: nat := 0x7F
  const ContinueBit: nat := 0x80

  /** `b & SEGMENT_BITS`: the seven data bits of a byte. */
  function Segment(b: byte): (r: nat)
    ensures r <= SegmentBits
  {
    b % 128
  }

  /** `b & CONTINUE_BIT != 0`: more groups follow. */
  predicate Continues(b: byte)
  {
    b >= ContinueBit
  }

  /** The bytes writeVarInt emits for `v`. */
  function Encode(v: nat): (r: seq<byte>)
    ensures |r| >= 1
  {
    if v < 128 then [v] else [v % 128 + ContinueBit] + Encode(v / 128)
  }

  /** What readVarIntFromBuff returns on success: the value and the index of the last
      byte it read (one less than the number of bytes consumed). */
  datatype Decoded = Decoded(value: nat, last: nat)

  /** Decoding the groups at the front of `s` when at most `budget` more bytes may be read. */
  function Groups(s: seq<byte>, budget: nat): (r: Result<Decoded>)
    requires budget >= 1
    ensures r.Ok? ==> r.value.last < budget && r.value.last < |s| && !Continues(s[r.value.last])
    decreases budget
  {
    if |s| == 0 then Err(Panic)
    else if !Continues(s[0]) then Ok(Decoded(s[0], 0))
    else if budget == 1 then Err(TooBig)
    else match Groups(s[1..], budget - 1)
      case Ok(d) => Ok(Decoded(Segment(s[0]) + 128 * d.value, d.last + 1))
      case Err(e) => Err(e)
  }

  /** The result of readVarIntFromBuff(buf).  Reading past the end of `buf` is an index
      panic in the source (utils.go:20). */
  function Decode(buf: seq<byte>): Result<Decoded>
  {
    Groups(buf, 5)
  }

  /** The decoder fails only with "VarInt is too big" or the index panic. */
  lemma {:induction false} GroupsErrors(s: seq<byte>, budget: nat)
    requires budget >= 1
    ensures Groups(s, budget).Err? ==> DecoderError(Groups(s, budget).error)
    decreases budget
  {
    if |s| > 0 && Continues(s[0]) && budget > 1 {
      GroupsErrors(s[1..], budget - 1);
    }
  }

  /** `Groups` seen from the loop of readVarIntFromBuff, `value` and `pos` already accumulated. */
  function Accumulated(r: Result<Decoded>, value: nat, pos: nat, idx: nat): Result<Decoded>
  {
    match r
    case Ok(d) => Ok(Decoded(value + Pow2(pos) * d.value, d.last + idx))
    case Err(e) => Err(e)
  }

  /** `value |= (int(b) & SEGMENT_BITS) << pos`: the bits at `pos` and above are still
      clear when a group is merged, so the or is an addition. */
  function Merge(value: nat, b: byte, pos: nat): nat
  {
    value + Segment(b) * Pow2(pos)
  }

  lemma Pow2Seven(pos: nat)
    ensures Pow2(pos + 7) == 128 * Pow2(pos)
  {
    assert Pow2(pos + 7) == 2 * Pow2(pos + 6) == 4 * Pow2(pos + 5) == 8 * Pow2(pos + 4);
    assert Pow2(pos + 4) == 2 * Pow2(pos + 3) == 4 * Pow2(pos + 2) == 8 * Pow2(pos + 1);
  }

  /** Euclidean division has one quotient: any `q` with `a == d * q + r` and `r < d`. */
  lemma DivUnique(a: nat, d: nat, q: nat, r: nat)
    requires d > 0 && a == d * q + r && r < d
    ensures a / d == q
  {
    var q0 := a / d;
    assert a == d * q0 + a % d;
    MulStep(d, q0, q);
    MulStep(d, q, q0);
  }

  lemma MulStep(d: nat, k: nat, m: nat)
    ensures k < m ==> d * k + d <= d * m
  {
    if k < m {
      var j: nat := m - k - 1;
      assert m == k + 1 + j;
      assert d * m == d * k + d + d * j;
    }
  }

  /** Dropping one 7-bit group and then `p` more is dividing by `128 * p`. */
  lemma DivDiv(a: nat, p: nat)
    requires p > 0
    ensures a / (128 * p) == a / 128 / p
  {
    var q := a / 128 / p;
    var r := a / 128 % p;
    var s := a % 128;
    assert a / 128 == p * q + r;
    assert a == 128 * (p * q + r) + s;
    assert 128 * (p * q + r) == (128 * p) * q + 128 * r;
    assert 128 * r + s < 128 * p;
    DivUnique(a, 128 * p, q, 128 * r + s);
  }

  /** The `i`-th group of `v` is the `(i - 1)`-th group of `v / 128`. */
  lemma GroupShift(v: nat, i: nat)
    requires i > 0
    ensures v / Pow2(7 * i) == v / 128 / Pow2(7 * (i - 1))
  {
    var p := Pow2(7 * (i - 1));
    Pow2Seven(7 * (i - 1));
    assert 7 * (i - 1) + 7 == 7 * i;
    DivDiv(v, p);
  }

  /** One turn of the loop of readVarIntFromBuff keeps `Accumulated` unchanged. */
  lemma AccumulateStep(s: seq<byte>, budget: nat, value: nat, pos: nat, idx: nat)
    requires |s| > 0 && budget >= 1
    ensures !Continues(s[0]) ==>
      Accumulated(Groups(s, budget), value, pos, idx) == Ok(Decoded(Merge(value, s[0], pos), idx))
    ensures Continues(s[0]) && budget > 1 ==>
      Accumulated(Groups(s, budget), value, pos, idx)
      == Accumulated(Groups(s[1..], budget - 1), Merge(value, s[0], pos), pos + 7, idx + 1)
  {
    if Continues(s[0]) && budget > 1 {
      Pow2Seven(pos);
      match Groups(s[1..], budget - 1)
      case Ok(d) =>
        var p := Pow2(pos);
        assert p * (Segment(s[0]) + 128 * d.value) == Segment(s[0]) * p + (128 * p) * d.value;
      case Err(_) =>
    }
  }

  /** readVarIntFromBuff (utils.go:14-38): the loop, proved to compute `Decode`. */
  method ReadVarIntFromBuff(buff: seq<byte>) returns (r: Result<Decoded>)
    ensures r == Decode(buff)
  {
    var value: nat := 0;
    var pos: nat := 0;
    var idx: nat := 0;
    while true
      invariant idx <= 4 && idx <= |buff| && pos == 7 * idx
      invariant Decode(buff) == Accumulated(Groups(buff[idx..], 5 - idx), value, pos, idx)
      decreases 5 - idx
    {
      if idx >= |buff| {
        return Err(Panic);
      }
      var currentByte := buff[idx];
      AccumulateStep(buff[idx..], 5 - idx, value, pos, idx);
      value := Merge(value, currentByte, pos);
      if !Continues(currentByte) {
        break;
      }
      assert buff[idx..][1..] == buff[idx + 1..];
      pos := pos + 7;
      idx := idx + 1;
      if pos >= 32 {
        return Err(TooBig);
      }
    }
    return Ok(Decoded(value, idx));
  }

  /** writeVarInt (utils.go:40-52): the loop, proved to compute `Encode`.  The source's
      argument is a signed int; a negative one never terminates (`>>=` keeps the sign), so
      the model takes a `nat`. */
  method WriteVarInt(v: nat) returns (bytes: seq<byte>)
    ensures bytes == Encode(v)
  {
    bytes := [];
    var value: nat := v;
    while true
      invariant bytes + Encode(value) == Encode(v)
      decreases value
    {
      if value < 128 {
        bytes := bytes + [value];
        return;
      }
      bytes := bytes + [value % 128 + ContinueBit];
      value := value / 128;
    }
  }

  // ---------------------------------------------------------------------------
  // Properties of the encoder

  /** Every byte but the last carries the continuation bit, the last one does not, and the
      first byte's data bits are the lowest 7-bit group of `v`. */
  lemma {:induction false} EncodeShape(v: nat)
    ensures !Continues(Encode(v)[|Encode(v)| - 1])
    ensures forall i :: 0 <= i < |Encode(v)| - 1 ==> Continues(Encode(v)[i])
    ensures Segment(Encode(v)[0]) == v % 128
  {
    if v >= 128 {
      EncodeShape(v / 128);
      var e := Encode(v);
      assert e == [v % 128 + ContinueBit] + Encode(v / 128);
      forall i | 0 <= i < |e| - 1 ensures Continues(e[i]) {
        if i > 0 {
          assert e[i] == Encode(v / 128)[i - 1];
        }
      }
    }
  }

  /** Byte `i` of the encoding carries the `i`-th 7-bit group of `v`, least significant
      first. */
  lemma {:induction false} EncodeGroups(v: nat)
    ensures forall i :: 0 <= i < |Encode(v)| ==> Segment(Encode(v)[i]) == v / Pow2(7 * i) % 128
  {
    if v >= 128 {
      EncodeGroups(v / 128);
      var e := Encode(v);
      assert e == [v % 128 + ContinueBit] + Encode(v / 128);
      var t := Encode(v / 128);
      forall i | 0 <= i < |e| ensures Segment(e[i]) == v / Pow2(7 * i) % 128 {
        if i > 0 {
          assert e[i] == t[i - 1];
          assert Segment(t[i - 1]) == v / 128 / Pow2(7 * (i - 1)) % 128;
          GroupShift(v, i);
        } else {
          assert Pow2(0) == 1;
        }
      }
    }
  }

  /** The encoding is at most `k` bytes long exactly when `v` fits in `7k` bits. */
  lemma {:induction false} EncodeLengthBound(v: nat, k: nat)
    requires k >= 1
    ensures |Encode(v)| <= k <==> v < Pow2(7 * k)
  {
    Pow2Seven(7 * (k - 1));
    assert Pow2(7) == 128 by { Pow2Seven(0); }
    if v >= 128 && k > 1 {
      EncodeLengthBound(v / 128, k - 1);
    } else if v < 128 {
      Pow2Monotone(7, 7 * k);
    }
  }

  lemma {:induction false} Pow2Monotone(a: nat, b: nat)
    requires a <= b
    ensures Pow2(a) <= Pow2(b)
  {
    if a < b {
      Pow2Monotone(a, b - 1);
    }
  }

  const Two35: nat := 0x8_0000_0000

  lemma Pow2Of35()
    ensures Pow2(35) == Two35 && Pow2(28) == 0x1000_0000 && Pow2(7) == 128
  {
    Pow2Seven(0);
    Pow2Seven(7);
    Pow2Seven(14);
    Pow2Seven(21);
    Pow2Seven(28);
  }

  /** For values of Go's 32-bit range the encoding takes one to five bytes, and one byte
      exactly for values below 128. */
  lemma EncodeLength(v: nat)
    requires v < Two32
    ensures 1 <= |Encode(v)| <= 5
    ensures |Encode(v)| == 1 <==> v < 128
  {
    Pow2Of35();
    EncodeLengthBound(v, 5);
    EncodeLengthBound(v, 1);
  }

  // ---------------------------------------------------------------------------
  // Properties of the decoder

  /** Decoding runs the groups of an encoding back together and stops at its last byte. */
  lemma {:induction false} GroupsOfEncode(v: nat, rest: seq<byte>, budget: nat)
    requires budget >= 1 && |Encode(v)| <= budget
    ensures Groups(Encode(v) + rest, budget) == Ok(Decoded(v, |Encode(v)| - 1))
  {
    var s := Encode(v) + rest;
    if v >= 128 {
      assert s[1..] == Encode(v / 128) + rest;
      GroupsOfEncode(v / 128, rest, budget - 1);
    }
  }

  /** Round trip: readVarIntFromBuff gives back the value writeVarInt encoded, with the
      index of the encoding's last byte, whatever follows it. */
  lemma DecodeEncode(v: nat, rest: seq<byte>)
    requires v < Two35
    ensures Decode(Encode(v) + rest) == Ok(Decoded(v, |Encode(v)| - 1))
  {
    Pow2Of35();
    EncodeLengthBound(v, 5);
    GroupsOfEncode(v, rest, 5);
  }

  /** A successful decode reads bytes `0..last` only: the last one ends the VarInt, all
      earlier ones continue it, and at most five are read; the value fits in 35 bits. */
  lemma {:induction false} GroupsOk(s: seq<byte>, budget: nat)
    requires budget >= 1 && Groups(s, budget).Ok?
    ensures var d := Groups(s, budget).value;
      d.last < budget && d.last < |s| && !Continues(s[d.last])
      && (forall j :: 0 <= j < d.last ==> Continues(s[j]))
      && d.value < Pow2(7 * (d.last + 1))
      && Groups(s[..d.last + 1], budget) == Groups(s, budget)
  {
    if Continues(s[0]) {
      GroupsOk(s[1..], budget - 1);
      var d := Groups(s[1..], budget - 1).value;
      Pow2Seven(7 * (d.last + 1));
      assert s[..d.last + 2][1..] == s[1..][..d.last + 1];
      forall j | 0 <= j < d.last + 1 ensures Continues(s[j]) {
        if j > 0 { assert s[j] == s[1..][j - 1]; }
      }
    } else {
      assert Pow2(7) == 128 by { Pow2Of35(); }
    }
  }

  /** The decoder fails with TooBig exactly when the first five bytes all continue. */
  lemma {:induction false} GroupsTooBig(s: seq<byte>, budget: nat)
    requires budget >= 1
    ensures Groups(s, budget) == Err(TooBig)
      <==> |s| >= budget && forall j :: 0 <= j < budget ==> Continues(s[j])
  {
    if |s| > 0 && Continues(s[0]) && budget > 1 {
      GroupsTooBig(s[1..], budget - 1);
      if |s| >= budget && forall j :: 0 <= j < budget ==> Continues(s[j]) {
        assert forall j :: 0 <= j < budget - 1 ==> Continues(s[1..][j]) by {
          forall j | 0 <= j < budget - 1 ensures Continues(s[1..][j]) {
            assert s[1..][j] == s[j + 1];
          }
        }
      }
      if |s[1..]| >= budget - 1 && forall j :: 0 <= j < budget - 1 ==> Continues(s[1..][j]) {
        forall j | 0 <= j < budget ensures Continues(s[j]) {
          if j > 0 { assert s[j] == s[1..][j - 1]; }
        }
      }
    }
  }

  /** The decoder runs off the end of the buffer (the source's index panic) exactly when
      fewer than five bytes remain and none of them ends the VarInt. */
  lemma {:induction false} GroupsPanic(s: seq<byte>, budget: nat)
    requires budget >= 1
    ensures Groups(s, budget) == Err(Panic)
      <==> |s| < budget && forall j :: 0 <= j < |s| ==> Continues(s[j])
  {
    if |s| > 0 && Continues(s[0]) && budget > 1 {
      GroupsPanic(s[1..], budget - 1);
      if |s| < budget && forall j :: 0 <= j < |s| ==> Continues(s[j]) {
        assert forall j :: 0 <= j < |s[1..]| ==> Continues(s[1..][j]) by {
          forall j | 0 <= j < |s[1..]| ensures Continues(s[1..][j]) {
            assert s[1..][j] == s[j + 1];
          }
        }
      }
      if |s[1..]| < budget - 1 && forall j :: 0 <= j < |s[1..]| ==> Continues(s[1..][j]) {
        forall j | 0 <= j < |s| ensures Continues(s[j]) {
          if j > 0 { assert s[j] == s[1..][j - 1]; }
        }
      }
    } else if |s| > 0 && !Continues(s[0]) {
      assert !(forall j :: 0 <= j < |s| ==> Continues(s[j]));
    }
  }

  /** readVarIntFromBuff: on success the returned index is that of the terminating byte,
      every earlier byte continues, at most five bytes are read and nothing after the
      terminator is inspected; it reports "VarInt is too big" exactly when the first five
      bytes all continue, and runs off the buffer exactly when it is shorter than that
      and never terminates. */
  lemma DecodeProperties(buf: seq<byte>)
    ensures Decode(buf).Ok? ==>
      var d := Decode(buf).value;
      d.last <= 4 && d.last < |buf| && !Continues(buf[d.last])
      && (forall j :: 0 <= j < d.last ==> Continues(buf[j]))
      && d.value < Two35
    ensures Decode(buf) == Err(TooBig) <==> |buf| >= 5 && forall j :: 0 <= j < 5 ==> Continues(buf[j])
    ensures Decode(buf) == Err(Panic) <==> |buf| < 5 && forall j :: 0 <= j < |buf| ==> Continues(buf[j])
  {
    GroupsTooBig(buf, 5);
    GroupsPanic(buf, 5);
    if Decode(buf).Ok? {
      GroupsOk(buf, 5);
      var d := Decode(buf).value;
      Pow2Monotone(7 * (d.last + 1), 35);
      Pow2Of35();
    }
  }

  /** Trailing bytes are never inspected: the bytes up to the terminator decide the result. */
  lemma DecodeIgnoresTrailing(buf: seq<byte>, rest: seq<byte>)
    requires Decode(buf).Ok?
    ensures Decode(buf[..Decode(buf).value.last + 1] + rest) == Decode(buf)
  {
    GroupsOk(buf, 5);
    PrefixDecides(buf[..Decode(buf).value.last + 1], rest, 5);
  }

  /** Once the bytes read so far decide the result, what follows them does not matter. */
  lemma {:induction false} PrefixDecides(p: seq<byte>, rest: seq<byte>, budget: nat)
    requires budget >= 1 && Groups(p, budget).Ok?
    ensures Groups(p + rest, budget) == Groups(p, budget)
  {
    if Continues(p[0]) {
      assert (p + rest)[1..] == p[1..] + rest;
      PrefixDecides(p[1..], rest, budget - 1);
    }
  }
}
