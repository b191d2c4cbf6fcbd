// Protocol Buffers base-128 varints (package varint): a uint64 is written
// as little-endian groups of 7 bits, one group per byte, with the high bit
// set on every byte except the last.
module Varint {
  import opened Base

  /** The encoding of x, lowest group first. */
  function Encoding(x: nat): (bs: seq<byte>)
    ensures |bs| >= 1
  {
    if x <= 127 then [x] else [128 + x % 128] + Encoding(x / 128)
  }

  /** The number the 7-bit groups of bs denote, lowest group first. */
  function Weight(bs: seq<byte>): nat
  {
    if bs == [] then 0 else bs[0] % 128 + 128 * Weight(bs[1..])
  }

  /** The position of the first byte with a clear high bit, if any. */
  function FirstClear(buf: seq<byte>): (r: Option<nat>)
    ensures r.Some? ==> r.value < |buf| && buf[r.value] < 128
    ensures r.Some? ==> forall i :: 0 <= i < r.value ==> buf[i] >= 128
    ensures r.None? ==> forall i :: 0 <= i < |buf| ==> buf[i] >= 128
  {
    if buf == [] then None
    else if buf[0] < 128 then Some(0)
    else match FirstClear(buf[1..])
      case None => None
      case Some(t) => Some(t + 1)
  }

  /**
   * What DecodeVarint returns: the value of the bytes up to and including
   * the first terminating byte, reduced to 64 bits, and the number of bytes
   * read; (0, 0) when no byte terminates the varint.
   */
  function Decode(buf: seq<byte>): (u64, nat)
  {
    match FirstClear(buf)
    case None => (0, 0)
    case Some(t) => (Weight(buf[..t + 1]) % TWO_64, t + 1)
  }

  /** Go's x << s on uint64: the bits shifted past bit 63 are lost. */
  function Shl(v: nat, s: nat): u64
  {
    (v * Pow2(s)) % TWO_64
  }

  // ----- properties of the encoding -----

  /**
   * Every byte of an encoding except the last has the high bit set and the
   * last has it clear; a value below 128 is exactly one byte, itself.
   */
  lemma {:induction false} EncodingShape(x: nat)
    ensures forall i :: 0 <= i < |Encoding(x)| - 1 ==> Encoding(x)[i] >= 128
    ensures Encoding(x)[|Encoding(x)| - 1] < 128
    ensures x <= 127 <==> |Encoding(x)| == 1
    ensures x <= 127 ==> Encoding(x)[0] == x
  {
    if x > 127 {
      EncodingShape(x / 128);
      var t := Encoding(x / 128);
      assert Encoding(x) == [128 + x % 128] + t;
      assert forall i :: 1 <= i < |Encoding(x)| ==> Encoding(x)[i] == t[i - 1];
    }
  }

  /** Byte n of the encoding carries bits 7n .. 7n+6 of x. */
  lemma {:induction false} EncodingGroups(x: nat, n: nat)
    requires n < |Encoding(x)|
    ensures Encoding(x)[n] % 128 == (x / Pow(128, n)) % 128
  {
    if n > 0 {
      EncodingGroups(x / 128, n - 1);
      DivDiv(x, 128, Pow(128, n - 1));
    }
  }

  /** A value below 128^k takes at most k bytes. */
  lemma {:induction false} EncodingBound(x: nat, k: nat)
    requires k >= 1 && x < Pow(128, k)
    ensures |Encoding(x)| <= k
  {
    if x > 127 {
      EncodingBound(x / 128, k - 1);
    }
  }

  /** A uint64 encodes in 1 to 10 bytes. */
  lemma EncodingLength(x: u64)
    ensures 1 <= |Encoding(x)| <= 10
  {
    assert Pow(128, 10) == 0x40_0000_0000_0000_0000;
    EncodingBound(x, 10);
  }

  lemma {:induction false} WeightOfEncoding(x: nat)
    ensures Weight(Encoding(x)) == x
  {
    if x > 127 {
      WeightOfEncoding(x / 128);
      assert Encoding(x)[1..] == Encoding(x / 128);
    }
  }

  /**
   * DecodeVarint(EncodeVarint(x)) returns x and the length of the encoding,
   * whatever bytes follow it in the buffer.
   */
  lemma DecodeEncoding(x: u64, rest: seq<byte>)
    ensures Decode(Encoding(x) + rest) == (x, |Encoding(x)|)
  {
    var e := Encoding(x);
    TerminatedAt(x, rest);
    assert (e + rest)[..|e|] == e;
    WeightOfEncoding(x);
  }

  lemma TerminatedAt(x: nat, rest: seq<byte>)
    ensures FirstClear(Encoding(x) + rest) == Some(|Encoding(x)| - 1)
  {
    var e := Encoding(x);
    EncodingShape(x);
    assert forall i :: 0 <= i < |e| ==> (e + rest)[i] == e[i];
  }

  /** A buffer that ends before a terminating byte decodes to (0, 0). */
  lemma Truncated(buf: seq<byte>)
    requires forall i :: 0 <= i < |buf| ==> buf[i] >= 128
    ensures Decode(buf) == (0, 0)
  {
  }

  /** Decoding stops at the first terminating byte and ignores what follows. */
  lemma IgnoresRest(buf: seq<byte>, rest: seq<byte>)
    requires Decode(buf).1 > 0
    ensures Decode(buf[..Decode(buf).1] + rest) == Decode(buf)
  {
    var t := FirstClear(buf).value;
    var b := buf[..t + 1] + rest;
    assert forall i :: 0 <= i <= t ==> b[i] == buf[i];
    assert FirstClear(b) == Some(t);
    assert b[..t + 1] == buf[..t + 1];
  }

  // ----- the two operations as the source writes them -----

  /** EncodeVarint: fills a 16-byte buffer from the left while x > 127. */
  method EncodeVarint(x: u64) returns (bs: seq<byte>)
    ensures bs == Encoding(x)
  {
    // Go's [16]byte is a value: the buffer is a sequence updated in place.
    var buf: seq<byte> := seq(16, _ => 0);
    var n := 0;
    var v: nat := x;
    EncodingLength(x);
    assert buf[..0] + Encoding(v) == Encoding(x);
    while v > 127
      invariant |buf| == 16 && n + |Encoding(v)| <= 10
      invariant buf[..n] + Encoding(v) == Encoding(x)
    {
      var d := v % 128;
      EncodeStep(buf, n, v, d);
      buf := buf[n := 0x80 + d];
      v := v / 128;
      n := n + 1;
    }
    buf := buf[n := v];
    n := n + 1;
    bs := buf[..n];
  }

  lemma EncodeStep(buf: seq<byte>, n: nat, v: nat, d: nat)
    requires n < |buf| && v > 127 && d == v % 128
    ensures buf[n := 128 + d][..n + 1] + Encoding(v / 128) == buf[..n] + Encoding(v)
  {
    assert buf[n := 128 + d][..n + 1] == buf[..n] + [128 + d];
  }

  /** DecodeVarint: accumulates 7-bit groups until a byte with a clear high bit. */
  method DecodeVarint(buf: seq<byte>) returns (x: u64, n: nat)
    ensures (x, n) == Decode(buf)
  {
    x, n := 0, 0;
    var shift: nat := 0;
    while true
      invariant n <= |buf| && shift == 7 * n
      invariant forall i :: 0 <= i < n ==> buf[i] >= 128
      invariant x == Weight(buf[..n]) % TWO_64
      decreases |buf| - n
    {
      if n >= |buf| {
        return 0, 0;
      }
      var b := buf[n];
      GroupStep(buf[..n], b, x);
      assert buf[..n + 1] == buf[..n] + [b];
      n := n + 1;
      // x |= (b & 0x7F) << shift: the group lands on bits that x leaves clear,
      // so the OR is an addition.
      x := (x + Shl(b % 128, shift)) % TWO_64;
      if b < 0x80 {
        break;
      }
      shift := shift + 7;
    }
    assert FirstClear(buf) == Some(n - 1);
  }

  lemma GroupStep(bs: seq<byte>, b: byte, x: u64)
    requires x == Weight(bs) % TWO_64
    ensures (x + Shl(b % 128, 7 * |bs|)) % TWO_64 == Weight(bs + [b]) % TWO_64
  {
    WeightSnocPow2(bs, b);
    AddMod(TWO_64, Weight(bs), Weight(bs + [b]), b % 128, Pow2(7 * |bs|), x);
  }

  lemma WeightSnocPow2(bs: seq<byte>, b: byte)
    ensures Weight(bs + [b]) == Weight(bs) + (b % 128) * Pow2(7 * |bs|)
  {
    WeightSnoc(bs, b);
    Pow2Groups(7, |bs|);
    assert Pow2(7) == 128;
  }

  lemma AddMod(m: nat, w: nat, w': nat, c: nat, p: nat, x: nat)
    requires m > 0 && x == w % m && w' == w + c * p
    ensures (x + (c * p) % m) % m == w' % m
  {
    ModSum(m, w, c * p);
  }

  lemma {:induction false} WeightSnoc(bs: seq<byte>, b: byte)
    ensures Weight(bs + [b]) == Weight(bs) + (b % 128) * Pow(128, |bs|)
  {
    if bs != [] {
      var t := bs[1..];
      assert (bs + [b])[1..] == t + [b];
      WeightSnoc(t, b);
      Regroup(bs[0] % 128, Weight(t), b % 128, Pow(128, |t|));
    }
  }

  lemma Regroup(d: nat, w: nat, c: nat, p: nat)
    ensures d + 128 * (w + c * p) == (d + 128 * w) + c * (128 * p)
  {
  }
}
