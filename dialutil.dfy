// The dialer's small helpers (src/pkg/dialer/util.go): the tag counter,
// the close hook that runs once, and the net.Conn face of a dialed stream.
module DialerUtil {
  import opened Base
  import Sys

  // ----- counter -----

  /** The value after c.k++ on an int64. */
  function Next(k: i64): (r: i64)
    ensures k < TWO_63 - 1 ==> r == k + 1
    ensures k == TWO_63 - 1 ==> r == -TWO_63
  {
    WrapI64(k + 1)
  }

  /** The numbers n successive Picks hand out, starting from a counter at k. */
  function Picks(k: i64, n: nat): (r: seq<i64>)
    ensures |r| == n
    decreases n
  {
    if n == 0 then [] else [Next(k)] + Picks(Next(k), n - 1)
  }

  /** counter: hands out 1, 2, 3, ... in sequence. */
  class Counter {
    var k: i64

    /** The zero value of a counter. */
    constructor ()
      ensures k == 0
    {
      k := 0;
    }

    /** Init: back to 0, so the next Pick is 1. */
    method Init()
      modifies this
      ensures k == 0
    {
      k := 0;
    }

    /** Pick: increments the counter and returns the new value. */
    method Pick() returns (r: i64)
      modifies this
      ensures r == Next(old(k)) && k == r
      ensures [r] == Picks(old(k), 1)
    {
      k := WrapI64(k + 1);
      r := k;
    }
  }

  /**
   * From a counter at k, the i-th later Pick returns k + i + 1 as long as
   * that stays below 2^63; in particular an initialised counter hands out
   * 1, 2, 3, ..., each one more than the last.
   */
  lemma {:induction false} PicksAscend(k: i64, n: nat)
    requires 0 <= k && k + n < TWO_63
    ensures forall i :: 0 <= i < n ==> Picks(k, n)[i] == k + i + 1
    decreases n
  {
    if n > 0 {
      var r := Picks(k, n);
      var k' := Next(k);
      assert k' == k + 1;
      PicksAscend(k', n - 1);
      assert r == [k'] + Picks(k', n - 1);
      forall i | 0 <= i < n
        ensures r[i] == k + i + 1
      {
        if i > 0 {
          assert r[i] == Picks(k', n - 1)[i - 1];
        }
      }
    }
  }

  // ----- runOnClose -----

  /** The wrapped io.ReadWriteCloser: the model counts Close calls and returns a fixed outcome. */
  class Stream {
    var closes: nat
    const closeErr: Option<Error>

    constructor (closeErr: Option<Error>)
      ensures closes == 0 && this.closeErr == closeErr
    {
      closes := 0;
      this.closeErr := closeErr;
    }

    method Close() returns (err: Option<Error>)
      modifies this
      ensures closes == old(closes) + 1 && err == closeErr
    {
      closes := closes + 1;
      err := closeErr;
    }
  }

  /**
   * runOnClose: a stream whose first Close also runs a hook. The hook is
   * outside the model; runs counts its invocations and armed is run != nil.
   */
  class RunOnClose {
    const rwc: Stream
    var armed: bool
    ghost var runs: nat

    ghost predicate Valid()
      reads this
    {
      runs <= 1 && (armed ==> runs == 0)
    }

    /** newRunOnClose: wraps rwc; the hook is armed unless f is nil. */
    constructor (rwc: Stream, hasHook: bool)
      ensures Valid() && this.rwc == rwc && armed == hasHook && runs == 0
    {
      this.rwc := rwc;
      armed := hasHook;
      runs := 0;
    }

    /** Close: closes the stream every time, and runs the hook on the first call only. */
    method Close() returns (err: Option<Error>)
      requires Valid()
      modifies this, rwc
      ensures Valid() && !armed
      ensures rwc.closes == old(rwc.closes) + 1 && err == rwc.closeErr
      ensures runs == if old(armed) then old(runs) + 1 else old(runs)
    {
      err := rwc.Close();
      if armed {
        runs := runs + 1;
        armed := false;
      }
    }
  }

  /** Two Closes in a row run the hook at most once and close the stream twice. */
  method CloseTwice(roc: RunOnClose) returns (e1: Option<Error>, e2: Option<Error>)
    requires roc.Valid() && roc.runs == 0
    modifies roc, roc.rwc
    ensures roc.runs <= 1 && roc.rwc.closes == old(roc.rwc.closes) + 2
    ensures e1 == e2 == roc.rwc.closeErr
  {
    e1 := roc.Close();
    e2 := roc.Close();
  }

  // ----- dialerConn / dialerAddr -----

  /** dialerAddr: an address whose text is a peer's Eye name. */
  datatype DialerAddr = DialerAddr(text: string)
  {
    /** Network: every dialer address is on network "tonika". */
    function Network(): (r: string)
      ensures r == "tonika"
    {
      "tonika"
    }

    function String(): string
    {
      text
    }
  }

  /** dialerConn: a dialed stream (of the caller's type) with its two addresses. */
  datatype DialerConn<T> = DialerConn(rwc: T, la: DialerAddr, ra: DialerAddr)

  /** newDialerConn: the local and remote addresses are the Eye names of the two ids. */
  function NewDialerConn<T>(rwc: T, local: Sys.Id, remote: Sys.Id): (c: DialerConn<T>)
    ensures c.rwc == rwc
    ensures Sys.ParseId(c.la.String()) == (local, None) && Sys.ParseId(c.ra.String()) == (remote, None)
    ensures c.la.Network() == c.ra.Network() == "tonika"
  {
    Sys.ParseIdEye(local);
    Sys.ParseIdEye(remote);
    DialerConn(rwc, DialerAddr(Sys.IdEye(local)), DialerAddr(Sys.IdEye(remote)))
  }

  /** Two dialer conns carry the same remote address exactly when they lead to the same peer. */
  lemma RemoteAddrIdentifies<T>(a: T, b: T, local: Sys.Id, r1: Sys.Id, r2: Sys.Id)
    ensures NewDialerConn(a, local, r1).ra == NewDialerConn(b, local, r2).ra <==> r1 == r2
  {
    Sys.IdEyeInjective(r1, r2);
  }

  /** SetTimeout, SetReadTimeout, SetWriteTimeout: nothing changes and the error is nil. */
  function SetTimeout<T>(c: DialerConn<T>, nsec: i64): (r: (DialerConn<T>, Option<Error>))
    ensures r.0 == c && r.1.None?
  {
    (c, None)
  }
}
