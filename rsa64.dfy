// RSA keys as text (package rsa64): the fields of a key are written in
// base64, separated by ',', and the whole is followed by one check
// character. The integer codecs are the big-endian loops of package bytes
// again, for int64 and for int32.
module Rsa64 {
  import opened Base
  import B = GoBytes

  // ----- int64 / int32 byte codecs -----

  method Int64ToBytes(s: i64) returns (b: seq<byte>)
    ensures |b| == 8 && b == B.BigEndianBytes(U64OfI64(s), 8)
  {
    b := B.PutBigEndian(U64OfI64(s), 8);
  }

  method BytesToInt64(b: seq<byte>) returns (r: Result<i64>)
    ensures r == B.Int64Of(b)
  {
    r := B.BytesToInt64(b);
  }

  method Int32ToBytes(s: i32) returns (b: seq<byte>)
    ensures |b| == 4 && b == B.BigEndianBytes(U32OfI32(s), 4)
  {
    b := B.PutBigEndian(U32OfI32(s), 4);
  }

  /** What bytesToInt32 returns: an error unless b has exactly 4 bytes. */
  function Int32Of(b: seq<byte>): Result<i32>
  {
    if |b| != 4 then Err(Failure("bad length"))
    else
      B.BigEndianBound(b);
      assert Pow(256, 4) == TWO_32;
      Ok(I32OfU32(B.BigEndian(b)))
  }

  method BytesToInt32(b: seq<byte>) returns (r: Result<i32>)
    ensures r == Int32Of(b)
  {
    if |b| != 4 {
      return Err(Failure("bad length"));
    }
    var u := B.GetBigEndian(b);
    B.BigEndianBound(b);
    assert Pow(256, 4) == TWO_32;
    r := Ok(I32OfU32(u));
  }

  /** bytesToInt32(int32ToBytes(s)) == (s, nil), negative values included. */
  lemma Int32RoundTrip(s: i32)
    ensures Int32Of(B.BigEndianBytes(U32OfI32(s), 4)) == Ok(s)
  {
    assert Pow(256, 4) == TWO_32;
    B.BigEndianRoundTrip(U32OfI32(s), 4);
    I32RoundTrip(s, 0);
  }

  /** The length check: any other length than 4 (int32) or 8 (int64) is an error. */
  lemma WrongLength(b: seq<byte>)
    ensures Int32Of(b).Err? <==> |b| != 4
    ensures B.Int64Of(b).Err? <==> |b| != 8
  {
  }

  // ----- the delimiter -----

  const COMMA: byte := 44   // ','

  /** firstComma: the least index of ',' in b, or -1. */
  method FirstComma(b: seq<byte>) returns (k: int)
    ensures -1 <= k < |b|
    ensures k >= 0 ==> b[k] == COMMA && forall j :: 0 <= j < k ==> b[j] != COMMA
    ensures k == -1 ==> forall j :: 0 <= j < |b| ==> b[j] != COMMA
    ensures k == IndexIn(b, COMMA)
  {
    IndexInSpec(b, COMMA);
    for i := 0 to |b|
      invariant forall j :: 0 <= j < i ==> b[j] != COMMA
    {
      if b[i] == COMMA {
        return i;
      }
    }
    return -1;
  }

  // ----- the check character -----

  /** The ASCII codes of n consecutive characters starting at code `from`. */
  function Run(from: nat, n: nat): (r: seq<byte>)
    requires from + n <= 256
    ensures |r| == n && forall i :: 0 <= i < n ==> r[i] == from + i
  {
    seq(n, i requires 0 <= i < n => from + i)
  }

  /** alphaCRC: "a".."z", then "A".."Z", then "0".."9" (62 characters). */
  const AlphaCRC: seq<byte> := Run(97, 26) + Run(65, 26) + Run(48, 10)

  /** The sum of the byte values of p. */
  function ByteSum(p: seq<byte>): nat
  {
    if p == [] then 0 else ByteSum(p[..|p| - 1]) + p[|p| - 1]
  }

  /** p followed by the check character appendCRC computes for it. */
  function WithCRC(p: seq<byte>): seq<byte>
  {
    p + [AlphaCRC[ByteSum(p) % 62]]
  }

  /** What verifyCRC accepts: the last byte is the check character of the others. */
  predicate CrcValid(s: seq<byte>)
  {
    |s| >= 1 && IndexIn(AlphaCRC, s[|s| - 1]) == ByteSum(s[..|s| - 1]) % 62
  }

  lemma AlphaCRCDistinct()
    ensures |AlphaCRC| == 62
    ensures forall i, j :: 0 <= i < j < 62 ==> AlphaCRC[i] != AlphaCRC[j]
  {
  }

  lemma CrcIndex(k: nat)
    requires k < 62
    ensures IndexIn(AlphaCRC, AlphaCRC[k]) == k
  {
    AlphaCRCDistinct();
    IndexInSpec(AlphaCRC, AlphaCRC[k]);
  }

  /** verifyCRC accepts exactly the byte strings that appendCRC produces; never the empty one. */
  lemma CrcValidIff(s: seq<byte>)
    ensures CrcValid(s) <==> |s| >= 1 && s == WithCRC(s[..|s| - 1])
  {
    if |s| >= 1 {
      var d := s[..|s| - 1];
      assert s == d + [s[|s| - 1]];
      var c := ByteSum(d) % 62;
      if CrcValid(s) {
        IndexInSpec(AlphaCRC, s[|s| - 1]);
      }
      if s == WithCRC(d) {
        CrcIndex(c);
      }
    }
  }

  lemma WithCRCValid(p: seq<byte>)
    ensures CrcValid(WithCRC(p))
  {
    var s := WithCRC(p);
    assert s[..|s| - 1] == p;
    CrcValidIff(s);
  }

  /** appendCRC: writes the check character of p[0..dlen) at p[dlen] and touches nothing else. */
  method AppendCRC(p: array<byte>, dlen: nat)
    requires dlen < p.Length
    modifies p
    ensures p[..dlen + 1] == WithCRC(old(p[..dlen]))
    ensures forall i :: 0 <= i < p.Length && i != dlen ==> p[i] == old(p[i])
  {
    var crc: nat := 0;
    for i := 0 to dlen
      invariant p[..] == old(p[..])
      invariant crc == ByteSum(p[..i]) % 62
    {
      CrcStep(p[..i], p[i], crc);
      assert p[..i + 1] == p[..i] + [p[i]];
      crc := (crc + p[i]) % 62;
    }
    AlphaCRCDistinct();
    p[dlen] := AlphaCRC[crc];
    assert p[..dlen + 1] == old(p[..dlen]) + [AlphaCRC[crc]];
  }

  lemma CrcStep(p: seq<byte>, b: byte, crc: nat)
    requires crc == ByteSum(p) % 62
    ensures (crc + b) % 62 == ByteSum(p + [b]) % 62
  {
    assert (p + [b])[..|p|] == p;
    ModSum(62, ByteSum(p), b);
    assert b % 62 + crc == crc + b % 62;
    ModSum(62, crc, b);
  }

  /** verifyCRC: recomputes the check character of all but the last byte. */
  method VerifyCRC(s: seq<byte>) returns (ok: bool)
    ensures ok == CrcValid(s)
  {
    if |s| < 1 {
      return false;
    }
    var crc: nat := 0;
    for i := 0 to |s| - 1
      invariant crc == ByteSum(s[..i]) % 62
    {
      CrcStep(s[..i], s[i], crc);
      assert s[..i + 1] == s[..i] + [s[i]];
      crc := (crc + s[i]) % 62;
    }
    // strings.Index(alphaCRC, string(s[len(s)-1])): a byte of 128 or more
    // becomes a two-byte string, which alphaCRC does not contain either.
    var index := IndexIn(AlphaCRC, s[|s| - 1]);
    ok := index == crc;
  }

  // ----- the key texts -----

  /** An RSA public key: the modulus N (a big.Int) and the exponent E (an int). */
  datatype PubKey = PubKey(n: nat, e: i32)

  /** An RSA private key: the public part and the exponent D and primes P, Q. */
  datatype PrivKey = PrivKey(n: nat, e: i32, d: nat, p: nat, q: nat)

  /** The byte count of a base64 (StdEncoding) encoding of n bytes. */
  function EncodedLen(n: nat): nat
  {
    (n + 2) / 3 * 4
  }

  /**
   * What the key codecs rely on of base64.StdEncoding: decoding inverts
   * encoding, the output has EncodedLen bytes, and contains no ','.
   */
  ghost predicate Base64(enc: seq<byte> -> seq<byte>, dec: seq<byte> -> Result<seq<byte>>)
  {
    && (forall x :: dec(enc(x)) == Ok(x))
    && (forall x :: |enc(x)| == EncodedLen(|x|))
    && (forall x :: COMMA !in enc(x))
  }

  /** big.Int.Bytes(): the big-endian bytes of n without leading zeros. */
  function NatBytes(n: nat): seq<byte>
  {
    if n == 0 then [] else NatBytes(n / 256) + [n % 256]
  }

  /** big.Int.SetBytes reads NatBytes back. */
  lemma {:induction false} NatBytesValue(n: nat)
    ensures B.BigEndian(NatBytes(n)) == n
  {
    if n != 0 {
      var b := NatBytes(n);
      assert b[..|b| - 1] == NatBytes(n / 256);
      NatBytesValue(n / 256);
    }
  }

  /** int64ToBytes(int64(E)). */
  function ExponentBytes(e: i32): seq<byte>
  {
    B.BigEndianBytes(U64OfI64(e), 8)
  }

  /** int(e64) on the 32-bit int: the low 32 bits, as a signed value. */
  function IntOfInt64(x: i64): i32
  {
    I32OfU32(U64OfI64(x) % TWO_32)
  }

  /** PubToBase64: enc(N) ',' enc(E) and the check character; "" for a nil key. */
  function PubText(pk: Option<PubKey>, enc: seq<byte> -> seq<byte>): (s: seq<byte>)
    ensures s == [] <==> pk.None?
    ensures pk.Some? ==> CrcValid(s)
  {
    match pk
    case None => []
    case Some(k) =>
      var body := enc(NatBytes(k.n)) + [COMMA] + enc(ExponentBytes(k.e));
      WithCRCValid(body);
      WithCRC(body)
  }

  /** PrivToBase64: enc(N) ',' enc(E) ',' enc(D) ',' enc(P) ',' enc(Q) and the check character. */
  function PrivText(pk: Option<PrivKey>, enc: seq<byte> -> seq<byte>): (s: seq<byte>)
    ensures s == [] <==> pk.None?
    ensures pk.Some? ==> CrcValid(s)
  {
    match pk
    case None => []
    case Some(k) =>
      var body := enc(NatBytes(k.n)) + [COMMA] + enc(ExponentBytes(k.e)) + [COMMA]
        + enc(NatBytes(k.d)) + [COMMA] + enc(NatBytes(k.p)) + [COMMA] + enc(NatBytes(k.q));
      WithCRCValid(body);
      WithCRC(body)
  }

  /**
   * One delimited field: the bytes decoded from src up to the first ','
   * and what follows that ','.
   */
  function Field(src: seq<byte>, dec: seq<byte> -> Result<seq<byte>>): Result<(seq<byte>, seq<byte>)>
  {
    var k := IndexIn(src, COMMA);
    if k < 0 then Err(Failure("missing delimiter"))
    else
      var b :- dec(src[..k]);
      Ok((b, src[k + 1..]))
  }

  /** The exponent field: 8 bytes read as an int64 and narrowed to int. */
  function Exponent(b: seq<byte>): Result<i32>
  {
    var e64 :- B.Int64Of(b);
    Ok(IntOfInt64(e64))
  }

  /**
   * Base64ToPub as a result: Ok(None) is Go's (nil, nil), returned for an
   * empty string or a failed check character; Err is a non-nil error.
   */
  function PubOf(s: seq<byte>, dec: seq<byte> -> Result<seq<byte>>): (r: Result<Option<PubKey>>)
    ensures r.Err? || r.value.Some? ==> CrcValid(s)
  {
    if |s| == 0 || !CrcValid(s) then Ok(None)
    else
      var src := s[..|s| - 1];
      var fn :- Field(src, dec);
      var be :- dec(fn.1);
      var e :- Exponent(be);
      Ok(Some(PubKey(B.BigEndian(fn.0), e)))
  }

  /** Base64ToPriv as a result, with the same conventions as PubOf. */
  function PrivOf(s: seq<byte>, dec: seq<byte> -> Result<seq<byte>>): (r: Result<Option<PrivKey>>)
    ensures r.Err? || r.value.Some? ==> CrcValid(s)
  {
    if |s| == 0 || !CrcValid(s) then Ok(None)
    else
      var src := s[..|s| - 1];
      var fn :- Field(src, dec);
      var fe :- Field(fn.1, dec);
      var e :- Exponent(fe.0);
      var fd :- Field(fe.1, dec);
      var fp :- Field(fd.1, dec);
      var bq :- dec(fp.1);
      Ok(Some(PrivKey(B.BigEndian(fn.0), e, B.BigEndian(fd.0), B.BigEndian(fp.0), B.BigEndian(bq))))
  }

  // ----- properties of the key texts -----

  /** A field written as enc(x) ',' rest reads back as x, leaving rest. */
  lemma FieldOf(x: seq<byte>, rest: seq<byte>, enc: seq<byte> -> seq<byte>, dec: seq<byte> -> Result<seq<byte>>)
    requires Base64(enc, dec)
    ensures Field(enc(x) + [COMMA] + rest, dec) == Ok((x, rest))
  {
    var e := enc(x);
    var src := e + [COMMA] + rest;
    assert COMMA !in e;
    IndexInSpec(src, COMMA);
    assert src[|e|] == COMMA;
    assert forall j :: 0 <= j < |e| ==> src[j] == e[j];
    assert IndexIn(src, COMMA) == |e|;
    assert src[..|e|] == e;
    assert src[|e| + 1..] == rest;
  }

  /** The exponent survives int64ToBytes, bytesToInt64 and the narrowing to int. */
  lemma ExponentOf(e: i32)
    ensures Exponent(ExponentBytes(e)) == Ok(e)
  {
    B.Int64RoundTrip(e);
  }

  lemma StripCRC(body: seq<byte>)
    ensures |WithCRC(body)| >= 1 && CrcValid(WithCRC(body))
    ensures WithCRC(body)[..|WithCRC(body)| - 1] == body
  {
    WithCRCValid(body);
    assert WithCRC(body)[..|body|] == body;
  }

  /** Base64ToPub(PubToBase64(pk)) == (pk, nil). */
  lemma PubRoundTrip(k: PubKey, enc: seq<byte> -> seq<byte>, dec: seq<byte> -> Result<seq<byte>>)
    requires Base64(enc, dec)
    ensures PubOf(PubText(Some(k), enc), dec) == Ok(Some(k))
  {
    var bn, be := NatBytes(k.n), ExponentBytes(k.e);
    var body := enc(bn) + [COMMA] + enc(be);
    StripCRC(body);
    FieldOf(bn, enc(be), enc, dec);
    NatBytesValue(k.n);
    ExponentOf(k.e);
  }

  /** Base64ToPriv(PrivToBase64(pk)) == (pk, nil). */
  lemma PrivRoundTrip(k: PrivKey, enc: seq<byte> -> seq<byte>, dec: seq<byte> -> Result<seq<byte>>)
    requires Base64(enc, dec)
    ensures PrivOf(PrivText(Some(k), enc), dec) == Ok(Some(k))
  {
    var bn, be, bd, bp, bq := NatBytes(k.n), ExponentBytes(k.e), NatBytes(k.d), NatBytes(k.p), NatBytes(k.q);
    var r4 := enc(bq);
    var r3 := enc(bp) + [COMMA] + r4;
    var r2 := enc(bd) + [COMMA] + r3;
    var r1 := enc(be) + [COMMA] + r2;
    var body := enc(bn) + [COMMA] + r1;
    assert body == enc(bn) + [COMMA] + enc(be) + [COMMA] + enc(bd) + [COMMA] + enc(bp) + [COMMA] + enc(bq);
    StripCRC(body);
    FieldOf(bn, r1, enc, dec);
    FieldOf(be, r2, enc, dec);
    FieldOf(bd, r3, enc, dec);
    FieldOf(bp, r4, enc, dec);
    NatBytesValue(k.n);
    NatBytesValue(k.d);
    NatBytesValue(k.p);
    NatBytesValue(k.q);
    ExponentOf(k.e);
  }

  /**
   * The empty string and a failed check character give (nil, nil), not an
   * error; a checked text without ',' is the "missing delimiter" error.
   */
  lemma PubErrors(s: seq<byte>, dec: seq<byte> -> Result<seq<byte>>)
    ensures |s| == 0 || !CrcValid(s) ==> PubOf(s, dec) == Ok(None) && PrivOf(s, dec) == Ok(None)
    ensures CrcValid(s) && COMMA !in s[..|s| - 1] ==>
      PubOf(s, dec) == Err(Failure("missing delimiter")) && PrivOf(s, dec) == Err(Failure("missing delimiter"))
  {
    if CrcValid(s) && COMMA !in s[..|s| - 1] {
      IndexInSpec(s[..|s| - 1], COMMA);
    }
  }
}
