// Big-endian integer codecs (package bytes): a 64-bit integer as its eight
// bytes, most significant first, through its two's-complement uint64.
module GoBytes {
  import opened Base

  /** The big-endian value of a byte sequence. */
  function BigEndian(b: seq<byte>): nat
  {
    if b == [] then 0 else BigEndian(b[..|b| - 1]) * 256 + b[|b| - 1]
  }

  /** The l-byte big-endian representation of u (the low l bytes of u). */
  function BigEndianBytes(u: nat, l: nat): (b: seq<byte>)
    ensures |b| == l
  {
    if l == 0 then [] else BigEndianBytes(u / 256, l - 1) + [u % 256]
  }

  lemma {:induction false} BigEndianBound(b: seq<byte>)
    ensures BigEndian(b) < Pow(256, |b|)
  {
    if b != [] {
      var p := b[..|b| - 1];
      BigEndianBound(p);
      MulLe(256, BigEndian(p), Pow(256, |p|) - 1);
    }
  }

  /** Reading the l-byte representation of a value below 256^l gives the value back. */
  lemma {:induction false} BigEndianRoundTrip(u: nat, l: nat)
    requires u < Pow(256, l)
    ensures BigEndian(BigEndianBytes(u, l)) == u
  {
    if l > 0 {
      var b := BigEndianBytes(u, l);
      assert b[..l - 1] == BigEndianBytes(u / 256, l - 1);
      BigEndianRoundTrip(u / 256, l - 1);
    }
  }

  /** Writing the big-endian value of l bytes gives the bytes back. */
  lemma {:induction false} BigEndianBytesOf(b: seq<byte>)
    ensures BigEndianBytes(BigEndian(b), |b|) == b
  {
    if b != [] {
      var p := b[..|b| - 1];
      BigEndianBytesOf(p);
      assert b == p + [b[|b| - 1]];
    }
  }

  /** Byte i of the representation is (u >> 8(l-1-i)) & 0xff. */
  lemma {:induction false} BigEndianByteAt(u: nat, l: nat, i: nat)
    requires i < l
    ensures BigEndianBytes(u, l)[i] == (u / Pow2(8 * (l - 1 - i))) % 256
  {
    Pow2Groups(8, l - 1 - i);
    assert Pow2(8) == 256;
    if i < l - 1 {
      BigEndianByteAt(u / 256, l - 1, i);
      Pow2Groups(8, l - 2 - i);
      DivDiv(u, 256, Pow(256, l - 2 - i));
    }
  }

  // ----- the loops shared by the int64 and int32 codecs -----

  /** Fills l bytes with (u >> 8(l-1-i)) & 0xff. */
  method PutBigEndian(u: nat, l: nat) returns (b: seq<byte>)
    ensures b == BigEndianBytes(u, l)
  {
    // make([]byte, l): the fresh slice is not shared before it is returned.
    b := seq(l, _ => 0);
    for i := 0 to l
      invariant |b| == l
      invariant forall k :: 0 <= k < i ==> b[k] == BigEndianBytes(u, l)[k]
    {
      BigEndianByteAt(u, l, i);
      b := b[i := (u / Pow2(8 * (l - i - 1))) % 256];
    }
  }

  /** ORs byte i, shifted left by 8(l-1-i), into an accumulator. */
  method GetBigEndian(b: seq<byte>) returns (u: nat)
    ensures u == BigEndian(b)
  {
    var l := |b|;
    u := 0;
    for i := 0 to l
      invariant u == BigEndian(b[..i]) * Pow2(8 * (l - i))
    {
      // u |= b[i] << 8(l-1-i): the byte lands on bits that u leaves clear,
      // and below bit 8l, so the OR is an addition that cannot overflow.
      Accumulate(b, i);
      u := u + b[i] * Pow2(8 * (l - i - 1));
    }
    assert b[..l] == b;
  }

  lemma Accumulate(b: seq<byte>, i: nat)
    requires i < |b|
    ensures BigEndian(b[..i]) * Pow2(8 * (|b| - i)) + b[i] * Pow2(8 * (|b| - i - 1))
         == BigEndian(b[..i + 1]) * Pow2(8 * (|b| - i - 1))
  {
    var p := Pow2(8 * (|b| - i - 1));
    assert b[..i + 1][..i] == b[..i];
    Pow2Add(8 * (|b| - i - 1), 8);
    assert Pow2(8) == 256;
    assert Pow2(8 * (|b| - i)) == p * 256;
    Regroup(BigEndian(b[..i]), b[i], p);
  }

  lemma Regroup(v: nat, c: nat, p: nat)
    ensures v * (p * 256) + c * p == (v * 256 + c) * p
  {
  }

  // ----- package bytes -----

  /** Int64ToBytes: the eight big-endian bytes of uint64(s). */
  method Int64ToBytes(s: i64) returns (b: seq<byte>)
    ensures |b| == 8 && b == BigEndianBytes(U64OfI64(s), 8)
  {
    b := PutBigEndian(U64OfI64(s), 8);
  }

  /** What BytesToInt64 returns: an error unless b has exactly 8 bytes. */
  function Int64Of(b: seq<byte>): Result<i64>
  {
    if |b| != 8 then Err(Failure("bad length"))
    else
      BigEndianBound(b);
      assert Pow(256, 8) == TWO_64;
      Ok(I64OfU64(BigEndian(b)))
  }

  /** BytesToInt64: the int64 whose two's-complement bytes are b. */
  method BytesToInt64(b: seq<byte>) returns (r: Result<i64>)
    ensures r == Int64Of(b)
  {
    if |b| != 8 {
      return Err(Failure("bad length"));
    }
    var u := GetBigEndian(b);
    BigEndianBound(b);
    assert Pow(256, 8) == TWO_64;
    r := Ok(I64OfU64(u));
  }

  /** BytesToInt64(Int64ToBytes(s)) == (s, nil), negative values included. */
  lemma Int64RoundTrip(s: i64)
    ensures Int64Of(BigEndianBytes(U64OfI64(s), 8)) == Ok(s)
  {
    assert Pow(256, 8) == TWO_64;
    BigEndianRoundTrip(U64OfI64(s), 8);
    I64RoundTrip(s, 0);
  }

  /** Every 8-byte sequence is the encoding of the int64 it decodes to. */
  lemma Int64Onto(b: seq<byte>)
    requires |b| == 8
    ensures Int64Of(b).Ok? && BigEndianBytes(U64OfI64(Int64Of(b).value), 8) == b
  {
    BigEndianBound(b);
    assert Pow(256, 8) == TWO_64;
    I64RoundTrip(0, BigEndian(b));
    BigEndianBytesOf(b);
  }
}
