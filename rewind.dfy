// A request or response body that reads from a byte slice and can be
// rewound (rewindBody in package http). Close sets the position to -1.
module Rewind {
  import opened Base

  class RewindBody {
    const body: seq<byte>
    var pos: int
    /** The bytes delivered since the last Rewind, by the corrected Read. */
    ghost var Delivered: seq<byte>

    ghost predicate Valid()
      reads this
    {
      pos <= |body| && (pos >= 0 ==> Delivered == body[..pos])
    }

    constructor (body: seq<byte>)
      ensures Valid() && this.body == body && pos == 0
    {
      this.body := body;
      pos := 0;
      Delivered := [];
    }

    /**
     * Read as written: copies from the start of body whatever the position,
     * and never advances the position.
     */
    method ReadAsWritten(m: nat) returns (n: int, got: seq<byte>, err: Option<Error>)
      ensures pos < 0 ==> n == -1 && got == [] && err == Some(EOF)
      ensures pos >= 0 ==> n == Min(m, |body|) && got == body[..n]
      ensures pos >= 0 ==> (err == Some(EOF) <==> n == 0) && (err.Some? ==> err == Some(EOF))
    {
      if pos < 0 {
        return -1, [], Some(EOF);
      }
      n := Min(m, |body|);
      got := body[..n];
      if n > 0 {
        return n, got, None;
      }
      return 0, got, Some(EOF);
    }

    /** Read as intended: copies from the position on and advances it. */
    method Read(m: nat) returns (n: int, got: seq<byte>, err: Option<Error>)
      requires Valid()
      modifies this
      ensures Valid() && (old(pos) < 0 <==> pos < 0)
      ensures old(pos) < 0 ==> n == -1 && got == [] && err == Some(EOF) && pos == old(pos)
      ensures old(pos) >= 0 ==> n == Min(m, |body| - old(pos)) && got == body[old(pos)..old(pos) + n] && pos == old(pos) + n
      ensures old(pos) >= 0 ==> Delivered == old(Delivered) + got
      ensures old(pos) >= 0 ==> (err == Some(EOF) <==> n == 0) && (err.Some? ==> err == Some(EOF))
    {
      if pos < 0 {
        return -1, [], Some(EOF);
      }
      n := Min(m, |body| - pos);
      got := body[pos..pos + n];
      assert body[..pos + n] == body[..pos] + got;
      pos := pos + n;
      Delivered := Delivered + got;
      if n > 0 {
        return n, got, None;
      }
      return 0, got, Some(EOF);
    }

    /** Close: later reads return (-1, EOF). */
    method Close() returns (err: Option<Error>)
      requires Valid()
      modifies this
      ensures Valid() && pos == -1 && err == None
    {
      pos := -1;
      return None;
    }

    /** Rewind: reading starts over from the first byte. */
    method Rewind() returns (err: Option<Error>)
      requires Valid()
      modifies this
      ensures Valid() && pos == 0 && Delivered == [] && err == None
    {
      pos := 0;
      Delivered := [];
      return None;
    }
  }

  /** As written, a Read loop over a non-empty body never reaches EOF: every Read returns the same bytes. */
  method NeverEnds(body: seq<byte>, m: nat) returns (first: seq<byte>, second: seq<byte>, e2: Option<Error>)
    requires |body| > 0 && m > 0
    ensures first == second != [] && e2 == None
  {
    var rb := new RewindBody(body);
    var n, e1;
    n, first, e1 := rb.ReadAsWritten(m);
    n, second, e2 := rb.ReadAsWritten(m);
  }

  /**
   * Corrected: reading with a buffer of m > 0 bytes until EOF delivers the
   * body exactly once, in order, and Rewind makes it readable again.
   */
  method ReadAll(rb: RewindBody, m: nat) returns (all: seq<byte>)
    requires rb.Valid() && rb.pos == 0 && m > 0
    modifies rb
    ensures all == rb.body && rb.pos == |rb.body| && rb.Valid()
  {
    all := [];
    var err: Option<Error> := None;
    while err.None?
      invariant rb.Valid() && 0 <= rb.pos && all == rb.Delivered == rb.body[..rb.pos]
      invariant err.Some? ==> rb.pos == |rb.body|
      decreases |rb.body| - rb.pos + (if err.None? then 1 else 0)
    {
      var n, got;
      n, got, err := rb.Read(m);
      all := all + got;
    }
  }
}
