// The 64-bit Id of a public signature key (idkey.go in package sys): the
// SHA-256 hash of the key's rsa64 text, folded to 8 bytes by XOR and read
// big-endian.
module IdKey {
  import opened Base
  import R = Rsa64
  import B = GoBytes

  /**
   * The primitives the Id is computed with, as parameters: base64 (RFC
   * 4648 section 4) for the rsa64 text, and SHA-256.
   */
  datatype Hashing = Hashing(base64: seq<byte> -> seq<byte>, sha256: seq<byte> -> seq<byte>)

  /** SHA-256 always yields 32 bytes. */
  ghost predicate Sha256Width(hs: Hashing)
  {
    forall b :: |hs.sha256(b)| == 32
  }

  /** Bitwise exclusive or of two naturals, lowest bit first. */
  function Xor(a: nat, b: nat): nat
    decreases a + b
  {
    if a == 0 && b == 0 then 0 else 2 * Xor(a / 2, b / 2) + (a % 2 + b % 2) % 2
  }

  lemma {:induction false} XorBound(a: nat, b: nat, k: nat)
    requires a < Pow2(k) && b < Pow2(k)
    ensures Xor(a, b) < Pow2(k)
    decreases a + b
  {
    if !(a == 0 && b == 0) {
      XorBound(a / 2, b / 2, k - 1);
    }
  }

  /** The XOR of two bytes is a byte. */
  function XorByte(a: byte, b: byte): byte
  {
    XorBound(a, b, 8);
    assert Pow2(8) == 256;
    Xor(a, b)
  }

  lemma {:induction false} XorZero(b: nat)
    ensures Xor(0, b) == b
    decreases b
  {
    if b != 0 {
      XorZero(b / 2);
    }
  }

  lemma {:induction false} XorCommutes(a: nat, b: nat)
    ensures Xor(a, b) == Xor(b, a)
    decreases a + b
  {
    if !(a == 0 && b == 0) {
      XorCommutes(a / 2, b / 2);
    }
  }

  /** XOR with a is its own inverse. */
  lemma {:induction false} XorTwice(a: nat, b: nat)
    ensures Xor(a, Xor(a, b)) == b
    decreases a + b
  {
    if a == 0 {
      XorZero(b);
      XorZero(Xor(a, b));
    } else {
      var a2, b2 := a / 2, b / 2;
      var c2, bit := Xor(a2, b2), (a % 2 + b % 2) % 2;
      var c := Xor(a, b);
      assert c == 2 * c2 + bit;
      XorTwice(a2, b2);
      HalfBit(c, c2, bit);
      assert (a % 2 + bit) % 2 == b % 2;
      assert Xor(a, c) == 2 * b2 + b % 2;
    }
  }

  lemma HalfBit(c: nat, c2: nat, bit: nat)
    requires bit < 2 && c == 2 * c2 + bit
    ensures c / 2 == c2 && c % 2 == bit
  {
    DivOfMod(2, c, c2, bit);
  }

  /** XOR with a fixed value is one-to-one, in either argument. */
  lemma XorCancel(a: nat, b: nat, c: nat)
    ensures Xor(a, b) == Xor(a, c) <==> b == c
    ensures Xor(b, a) == Xor(c, a) <==> b == c
  {
    XorTwice(a, b);
    XorTwice(a, c);
    XorCommutes(a, b);
    XorCommutes(a, c);
  }

  /** The hash the Id is taken from: SHA-256 of PubToBase64(pk). */
  function Digest(pk: R.PubKey, hs: Hashing): seq<byte>
  {
    hs.sha256(R.PubText(Some(pk), hs.base64))
  }

  /** Byte j of the folded hash: h[j] ^ h[8+j] ^ h[16+j] ^ h[24+j]. */
  function Folded(h: seq<byte>): (f: seq<byte>)
    requires |h| == 32
    ensures |f| == 8
  {
    seq(8, j requires 0 <= j < 8 => XorByte(XorByte(XorByte(h[j], h[8 + j]), h[16 + j]), h[24 + j]))
  }

  /** The Id of a 32-byte hash: the big-endian value of its fold. */
  function IdOfHash(h: seq<byte>): u64
    requires |h| == 32
  {
    B.BigEndianBound(Folded(h));
    assert Pow(256, 8) == TWO_64;
    B.BigEndian(Folded(h))
  }

  /** What IdForKey returns for pk. */
  function KeyId(pk: R.PubKey, hs: Hashing): u64
    requires |Digest(pk, hs)| == 32
  {
    IdOfHash(Digest(pk, hs))
  }

  /** Byte j after the first i - 1 rounds of the fold loop (1 <= i <= 4). */
  function FoldAt(h: seq<byte>, j: nat, i: nat): byte
    requires |h| == 32 && j < 8 && 1 <= i <= 4
  {
    if i == 1 then h[j] else XorByte(FoldAt(h, j, i - 1), h[8 * (i - 1) + j])
  }

  lemma FoldAtFour(h: seq<byte>, j: nat)
    requires |h| == 32 && j < 8
    ensures FoldAt(h, j, 4) == Folded(h)[j]
  {
    assert FoldAt(h, j, 2) == XorByte(h[j], h[8 + j]);
    assert FoldAt(h, j, 3) == XorByte(FoldAt(h, j, 2), h[16 + j]);
  }

  /** IdForKey: hashes the key's text, XOR-folds the hash in place and reads the first 8 bytes. */
  method IdForKey(pk: R.PubKey, hs: Hashing) returns (id: u64)
    requires |Digest(pk, hs)| == 32
    ensures id == KeyId(pk, hs)
  {
    var d := Digest(pk, hs);
    var h := new byte[32](k => if 0 <= k < |d| then d[k] else 0);
    assert h[..] == d;
    Fold(h);
    var r := B.BytesToInt64(h[..8]);
    match r {
      case Ok(v) =>
        B.BigEndianBound(h[..8]);
        assert Pow(256, 8) == TWO_64;
        I64RoundTrip(0, B.BigEndian(h[..8]));
        id := U64OfI64(v);
      case Err(_) =>
        assert false;
    }
  }

  /** The fold loop: h[j] ^= h[8i+j] for i = 1, 2, 3 and j = 0 .. 7. */
  method Fold(h: array<byte>)
    requires h.Length == 32
    modifies h
    ensures h[..8] == Folded(old(h[..])) && h[8..] == old(h[8..])
  {
    ghost var d := h[..];
    for i := 1 to 4
      invariant h[8..] == d[8..]
      invariant forall j :: 0 <= j < 8 ==> h[j] == FoldAt(d, j, i)
    {
      for j := 0 to 8
        invariant h[8..] == d[8..]
        invariant forall k :: 0 <= k < j ==> h[k] == FoldAt(d, k, i + 1)
        invariant forall k :: j <= k < 8 ==> h[k] == FoldAt(d, k, i)
      {
        assert h[8 * i + j] == d[8 * i + j];
        assert FoldAt(d, j, i + 1) == XorByte(FoldAt(d, j, i), d[8 * i + j]);
        h[j] := XorByte(h[j], h[8 * i + j]);
      }
    }
    forall j | 0 <= j < 8
      ensures h[j] == Folded(d)[j]
    {
      FoldAtFour(d, j);
    }
  }

  /** VerifyKeyAndId: the Id belongs to the key. */
  method VerifyKeyAndId(id: u64, pk: R.PubKey, hs: Hashing) returns (ok: bool)
    requires |Digest(pk, hs)| == 32
    ensures ok <==> id == KeyId(pk, hs)
  {
    var k := IdForKey(pk, hs);
    return id == k;
  }

  /** Every byte of the hash matters: changing any one byte changes the Id. */
  lemma IdOfHashSensitive(h: seq<byte>, k: nat, b: byte)
    requires |h| == 32 && k < 32 && b != h[k]
    ensures IdOfHash(h[k := b]) != IdOfHash(h)
  {
    var h' := h[k := b];
    var j := k % 8;
    FoldedDiffers(h, k, b);
    B.BigEndianBytesOf(Folded(h));
    B.BigEndianBytesOf(Folded(h'));
  }

  lemma FoldedDiffers(h: seq<byte>, k: nat, b: byte)
    requires |h| == 32 && k < 32 && b != h[k]
    ensures Folded(h[k := b])[k % 8] != Folded(h)[k % 8]
  {
    var h', j := h[k := b], k % 8;
    var x0, x1, x2, x3 := h[j], h[8 + j], h[16 + j], h[24 + j];
    var y0, y1, y2, y3 := h'[j], h'[8 + j], h'[16 + j], h'[24 + j];
    XorFour(x0, x1, x2, x3, y0, y1, y2, y3);
  }

  /** Four bytes XORed together change when exactly one of them changes. */
  lemma XorFour(x0: byte, x1: byte, x2: byte, x3: byte, y0: byte, y1: byte, y2: byte, y3: byte)
    requires (x0 != y0 && x1 == y1 && x2 == y2 && x3 == y3) || (x0 == y0 && x1 != y1 && x2 == y2 && x3 == y3)
          || (x0 == y0 && x1 == y1 && x2 != y2 && x3 == y3) || (x0 == y0 && x1 == y1 && x2 == y2 && x3 != y3)
    ensures XorByte(XorByte(XorByte(x0, x1), x2), x3) != XorByte(XorByte(XorByte(y0, y1), y2), y3)
  {
    var a01, b01 := XorByte(x0, x1), XorByte(y0, y1);
    XorCancel(x1, x0, y0);
    XorCancel(x0, x1, y1);
    var a, b := XorByte(a01, x2), XorByte(b01, y2);
    XorCancel(x2, a01, b01);
    XorCancel(a01, x2, y2);
    XorCancel(x3, a, b);
    XorCancel(a, x3, y3);
  }
}
