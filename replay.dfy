// A reader that remembers what it reads, up to a fixed capacity, and after
// one Rewind serves the remembered bytes again before reading on (package
// replay).
module Replay {
  import opened Base

  /**
   * The underlying io.Reader: the bytes it has still to deliver, then the
   * error it returns once they are exhausted (EOF for a buffer).
   */
  datatype Source = Source(data: seq<byte>, end: Error)

  /** One Read of at most k bytes: the bytes, the error, and the reader after it. */
  function SourceRead(s: Source, k: nat): (r: (seq<byte>, Option<Error>, Source))
    ensures r.1.None? ==> |r.0| <= k && s.data == r.0 + r.2.data && (k > 0 ==> |r.0| > 0)
    ensures r.1.Some? ==> r.0 == [] && r.1 == Some(s.end) && r.2 == s
    ensures r.2.end == s.end
  {
    if k == 0 then ([], None, s)
    else if s.data == [] then ([], Some(s.end), s)
    else
      var n := Min(k, |s.data|);
      assert s.data == s.data[..n] + s.data[n..];
      (s.data[..n], None, Source(s.data[n..], s.end))
  }

  class ReplayReader {
    var under: Source
    /** The remembered bytes; while playing, the capacity left is capacity - |mem|. */
    var mem: seq<byte>
    const capacity: nat
    var err: Option<Error>
    var re: bool
    /** Everything returned in play mode, in order. */
    ghost var Played: seq<byte>
    /** Everything returned from memory since Rewind, in order. */
    ghost var Replayed: seq<byte>

    /** While playing the memory is what was played; after Rewind, what is left of it. */
    ghost predicate Valid()
      reads this
    {
      (!re ==> mem == Played && |mem| <= capacity && Replayed == []) &&
      (re ==> Replayed + mem == Played)
    }

    /** NewReader(r, l0). */
    constructor NewReader(r: Source, l0: nat)
      ensures Valid() && under == r && capacity == l0
      ensures mem == [] && err == None && !re
    {
      under := r;
      mem := [];
      capacity := l0;
      err := None;
      re := false;
      Played, Replayed := [], [];
    }

    /** Rewind: switches to replay mode; a second Rewind panics. */
    method Rewind()
      requires Valid() && !re
      modifies this
      ensures Valid() && re
      ensures under == old(under) && mem == old(mem) && err == old(err) && Played == old(Played)
    {
      re := true;
    }

    /** Read into a buffer of m bytes: the count (-1 on error), the bytes delivered, the error. */
    method Read(m: nat) returns (n: int, got: seq<byte>, e: Option<Error>)
      requires Valid()
      modifies this
      ensures Valid() && re == old(re)
      ensures e.None? ==> n == |got| <= m && old(Played) + (if re then [] else got) == Played
      // play mode
      ensures !old(re) && old(err).Some? ==> n == -1 && e == old(err) && unchanged(this)
      ensures !old(re) && old(err).None? && Min(m, capacity - |old(mem)|) == 0 ==>
                n == -1 && e == Some(EIO) && unchanged(this)
      ensures !old(re) && old(err).None? && Min(m, capacity - |old(mem)|) > 0 ==>
                var (g, ue, u) := SourceRead(old(under), Min(m, capacity - |old(mem)|));
                under == u && got == g && (ue.Some? ==> err == ue && e == ue && mem == old(mem)) &&
                (ue.None? ==> mem == old(mem) + got && e == None && err == None)
      // replay mode
      ensures old(re) && old(mem) != [] ==>
                n == Min(m, |old(mem)|) && got == old(mem)[..n] && mem == old(mem)[n..] &&
                Replayed == old(Replayed) + got && e == None && under == old(under) && err == old(err)
      ensures old(re) && old(mem) == [] && old(err).Some? ==> n == -1 && e == old(err) && unchanged(this)
      ensures old(re) && old(mem) == [] && old(err).None? ==>
                (got, e, under) == SourceRead(old(under), m) && n == |got| && mem == [] && err == None
    {
      if !re {
        if err.Some? {
          return -1, [], err;
        }
        var k := Min(m, capacity - |mem|);
        if k == 0 {
          // the replay buffer is exhausted
          return -1, [], Some(EIO);
        }
        var (g, ue, u) := SourceRead(under, k);
        under := u;
        if ue.Some? {
          err := ue;
          return -1, [], ue;
        }
        mem := mem + g;
        Played := Played + g;
        return |g|, g, None;
      } else {
        if |mem| > 0 {
          var k := Min(|mem|, m);
          got := mem[..k];
          assert mem == got + mem[k..];
          mem := mem[k..];
          Replayed := Replayed + got;
          return k, got, None;
        }
        if err.Some? {
          return -1, [], err;
        }
        var (g, ue, u) := SourceRead(under, m);
        under := u;
        return |g|, g, ue;
      }
    }
  }

  /**
   * With capacity 4 over "abcdefgh" and a 3-byte buffer: "abc" is read,
   * then after Rewind the memory gives "abc" again and the source goes on
   * with "def" and "gh".
   */
  method Example() returns (r1: seq<byte>, r2: seq<byte>, r3: seq<byte>, r4: seq<byte>)
    ensures r1 == r2 == [97, 98, 99] && r3 == [100, 101, 102] && r4 == [103, 104]
  {
    var src: seq<byte> := [97, 98, 99, 100, 101, 102, 103, 104];
    var rr := new ReplayReader.NewReader(Source(src, EOF), 4);
    var n, e;
    n, r1, e := rr.Read(3);
    assert r1 == src[..3] && rr.under == Source(src[3..], EOF) && rr.mem == r1;
    rr.Rewind();
    n, r2, e := rr.Read(3);
    assert r2 == r1 && rr.mem == [] && rr.err == None;
    n, r3, e := rr.Read(3);
    assert r3 == src[3..6] && rr.under == Source(src[6..], EOF);
    n, r4, e := rr.Read(3);
  }
}
