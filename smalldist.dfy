// A histogram over a fixed number of buckets (SmallDist in package math):
// a sample at or past the last bucket counts in the last bucket.
module SmallDist {
  /** The sum of the bucket counts. */
  function Total(s: seq<int>): int
  {
    if s == [] then 0 else Total(s[..|s| - 1]) + s[|s| - 1]
  }

  /** The bucket Add(i) counts in, with n buckets. */
  function Bucket(n: nat, i: nat): (b: nat)
    requires n > 0
    ensures b < n
    ensures i < n ==> b == i
  {
    if i >= n then n - 1 else i
  }

  /** Adding one to a bucket adds one to the total. */
  lemma {:induction false} TotalBump(s: seq<int>, b: nat)
    requires b < |s|
    ensures Total(s[b := s[b] + 1]) == Total(s) + 1
  {
    var t := s[b := s[b] + 1];
    var k := |s| - 1;
    if b < k {
      assert t[..k] == s[..k][b := s[b] + 1];
      TotalBump(s[..k], b);
    } else {
      assert t[..k] == s[..k];
    }
  }

  lemma {:induction false} TotalZeros(n: nat)
    ensures Total(seq(n, _ => 0)) == 0
  {
    if n > 0 {
      assert seq(n, _ => 0)[..n - 1] == seq(n - 1, _ => 0);
      TotalZeros(n - 1);
    }
  }

  class SmallDist {
    var samples: array<int>

    /** Init(n): n buckets, all zero. */
    constructor Init(n: nat)
      ensures samples.Length == n && fresh(samples)
      ensures forall k :: 0 <= k < n ==> samples[k] == 0
      ensures Total(samples[..]) == 0
    {
      var a := new int[n](_ => 0);
      assert a[..] == seq(n, _ => 0);
      TotalZeros(n);
      samples := a;
    }

    function Len(): nat
      reads this
    {
      samples.Length
    }

    /** Add(i): counts one sample in bucket i, or in the last bucket when i is past it. */
    method Add(i: nat)
      requires samples.Length > 0
      modifies samples
      ensures samples[..] == old(samples[..])[Bucket(samples.Length, i) := old(samples[Bucket(samples.Length, i)]) + 1]
      ensures Total(samples[..]) == Total(old(samples[..])) + 1
    {
      TotalBump(samples[..], Bucket(samples.Length, i));
      if i >= samples.Length {
        samples[samples.Length - 1] := samples[samples.Length - 1] + 1;
      } else {
        samples[i] := samples[i] + 1;
      }
    }

    /** Int64Array: the bucket array itself, not a copy. */
    method Int64Array() returns (r: array<int>)
      ensures r == samples
    {
      return samples;
    }
  }
}
