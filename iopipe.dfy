// An in-memory pipe (package iopipe): writes are queued as chunks and reads
// drain them in order. Two pipes cross-wired make a pair of connected ends.
module IoPipe {
  import opened Base

  /** The bytes of a sequence of chunks, in order. */
  function Flatten(chunks: seq<seq<byte>>): seq<byte>
  {
    if chunks == [] then [] else chunks[0] + Flatten(chunks[1..])
  }

  lemma {:induction false} FlattenSnoc(chunks: seq<seq<byte>>, q: seq<byte>)
    ensures Flatten(chunks + [q]) == Flatten(chunks) + q
  {
    if chunks != [] {
      assert (chunks + [q])[1..] == chunks[1..] + [q];
      FlattenSnoc(chunks[1..], q);
    }
  }

  class Pipe {
    /** The channel's queued chunks (a buffered channel; blocking is not modelled). */
    var ch: seq<seq<byte>>
    /** The chunk being drained, or nil. */
    var partial: Option<seq<byte>>
    /** All bytes ever written, and all bytes ever read. */
    ghost var Written: seq<byte>
    ghost var Taken: seq<byte>

    /** What is still to be read, in order. */
    ghost function Pending(): seq<byte>
      reads this
    {
      (if partial.Some? then partial.value else []) + Flatten(ch)
    }

    /** Reads return the written bytes in write order. */
    ghost predicate Valid()
      reads this
    {
      Taken + Pending() == Written
    }

    /** makePipe. */
    constructor ()
      ensures Valid() && ch == [] && partial == None && Written == [] && Taken == []
    {
      ch, partial := [], None;
      Written, Taken := [], [];
    }

    /** Write: queues a copy of p as one chunk. */
    method Write(p: seq<byte>) returns (n: int, err: Option<Error>)
      requires Valid()
      modifies this
      ensures Valid() && n == |p| && err == None
      ensures ch == old(ch) + [p] && partial == old(partial)
      ensures Written == old(Written) + p && Taken == old(Taken)
    {
      FlattenSnoc(ch, p);
      ch := ch + [p];
      Written := Written + p;
      return |p|, None;
    }

    /**
     * Read into a buffer of m bytes: the pending partial chunk first, else
     * the next queued chunk; a drained chunk is reset to nil. The caller
     * must not read from an empty pipe, where the code waits for a writer.
     */
    method Read(m: nat) returns (n: int, got: seq<byte>, err: Option<Error>)
      requires Valid() && (partial.Some? || ch != [])
      modifies this
      ensures Valid() && err == None && n == |got| <= m && Written == old(Written)
      ensures Taken == old(Taken) + got && old(Pending()) == got + Pending()
      ensures old(partial).Some? ==> n == Min(m, |old(partial.value)|) && got == old(partial.value)[..n] && ch == old(ch)
      ensures old(partial).None? ==> n == Min(m, |old(ch[0])|) && got == old(ch[0])[..n] && ch == old(ch[1..])
      ensures partial.Some? ==> partial.value != []
    {
      // for { if partial != nil { ... return }; partial = <-ch }
      while partial.None?
        invariant Valid() && (partial.Some? || ch != [])
        invariant Written == old(Written) && Taken == old(Taken) && Pending() == old(Pending())
        invariant old(partial).Some? ==> partial == old(partial) && ch == old(ch)
        invariant old(partial).None? && partial.None? ==> ch == old(ch)
        invariant old(partial).None? && partial.Some? ==> ch == old(ch[1..]) && partial.value == old(ch[0])
        decreases if partial.Some? then 0 else 1
      {
        partial := Some(ch[0]);
        ch := ch[1..];
      }
      n, got := Drain(m);
      err := None;
    }

    /** Copies what fits from the partial chunk and keeps the rest, or nil once it is drained. */
    method Drain(m: nat) returns (n: int, got: seq<byte>)
      requires Valid() && partial.Some?
      modifies this
      ensures Valid() && Written == old(Written) && ch == old(ch)
      ensures n == Min(m, |old(partial.value)|) && got == old(partial.value)[..n]
      ensures Taken == old(Taken) + got && old(Pending()) == got + Pending()
      ensures partial.Some? ==> partial.value != []
    {
      var q := partial.value;
      n := Min(m, |q|);
      got := q[..n];
      assert q == got + q[n..];
      partial := if |q[n..]| == 0 then None else Some(q[n..]);
      Taken := Taken + got;
    }
  }

  /** One end of a connected pair: it reads from r and writes to w. */
  class PipeEnd {
    const r: Pipe
    const w: Pipe

    constructor (r: Pipe, w: Pipe)
      ensures this.r == r && this.w == w
    {
      this.r, this.w := r, w;
    }

    method Write(p: seq<byte>) returns (n: int, err: Option<Error>)
      requires w.Valid()
      modifies w
      ensures w.Valid() && n == |p| && err == None
      ensures w.Written == old(w.Written) + p && w.Taken == old(w.Taken)
      ensures w.ch == old(w.ch) + [p] && w.partial == old(w.partial)
    {
      n, err := w.Write(p);
    }

    method Read(m: nat) returns (n: int, got: seq<byte>, err: Option<Error>)
      requires r.Valid() && (r.partial.Some? || r.ch != [])
      modifies r
      ensures r.Valid() && err == None && n == |got| <= m
      ensures r.Taken == old(r.Taken) + got && old(r.Pending()) == got + r.Pending()
      ensures old(r.partial).None? ==> n == Min(m, |old(r.ch[0])|) && got == old(r.ch[0])[..n]
    {
      n, got, err := r.Read(m);
    }

    /** Close is not implemented: it reports nothing and returns nil. */
    method Close() returns (err: Option<Error>)
      ensures err == None
    {
      return None;
    }
  }

  /** MakePipe: two ends, each writing into the pipe the other reads. */
  method MakePipe() returns (a: PipeEnd, b: PipeEnd)
    ensures fresh(a) && fresh(b) && fresh(a.r) && fresh(a.w)
    ensures a.w == b.r && a.r == b.w && a.r != a.w
    ensures a.r.Valid() && a.w.Valid()
    ensures a.r.ch == a.w.ch == [] && a.r.partial == a.w.partial == None
  {
    var p := new Pipe();
    var q := new Pipe();
    a := new PipeEnd(p, q);
    b := new PipeEnd(q, p);
  }

  /** A chunk written on one end is read on the other, in full when the buffer is large enough. */
  method Example(data: seq<byte>) returns (got: seq<byte>)
    ensures got == data
  {
    var a, b := MakePipe();
    var n, err := a.Write(data);
    n, got, err := b.Read(|data|);
  }
}
