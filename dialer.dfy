// The dialer proper (src/pkg/dialer/tel.go and src/pkg/dialer/dialer.go):
// one telephone per friend keeps a pool of authenticated Conns topped up
// and trimmed, and the Dialer0 registry indexes the telephones by friend
// Id and by accept key and matches incoming calls to waiting Accepts.
//
// Go maps keyed by *Conn are sets of Conn objects here, and their range
// loops pick the next element arbitrarily, as Go's iteration order is
// unspecified. Goroutines started by the code (connect, listen) and the
// blocking channel receives are outside the model; what they are handed
// is recorded instead (the count of connects started, the rings sent).
module Dialer {
  import opened Base
  import Sys
  import Auth
  import opened Tubes
  import opened ConnHandoff
  import DialerUtil

  /** preConnect: how many Ready conns a telephone tries to keep. */
  const PreConnect: int := 3
  /** maxDialTries: how many passes telephone.dial makes over its conns. */
  const MaxDialTries: nat := 7
  /** sys.InitialRating. */
  const InitialRating: real := 1.0

  /** sys.Presence: what the dialer believes about a friend's reachability. */
  datatype Presence = Presence(id: Sys.Id, maybeOnline: bool, reachable: bool, rating: real)

  /** StatusUpdate: a change of a friend's online status. */
  datatype StatusUpdate = StatusUpdate(id: Sys.Id, online: bool)

  /** dialerRing: an incoming call handed to a waiting Accept. */
  datatype Ring = Ring(id: Sys.Id, rwc: Handoff)

  /** The error receive reports for a subject nobody accepts. */
  const NoListener: Error := Failure("d: no listener for subject")

  /** The Ready conns among cs. */
  ghost function ReadyOf(cs: set<Conn>): set<Conn>
    reads cs
  {
    set c | c in cs && c.regime == Ready
  }

  /** The tubes of the conns in cs, for frames. */
  ghost function TubesOf(cs: set<Conn>): set<object>
    reads cs
  {
    set c | c in cs && c.tube.Some? :: c.tube.value as object
  }

  /**
   * How many connects rebalance starts: the pool is short by preConnect
   * less the conns in the handshake and the Ready ones; nothing when that
   * is not positive.
   */
  function Shortfall(authing: nat, ready: nat): (r: nat)
    ensures r > 0 <==> authing + ready < PreConnect
    ensures r > 0 ==> authing + ready + r == PreConnect
  {
    if authing + ready < PreConnect then PreConnect - authing - ready else 0
  }

  /** The Ready conns rebalance keeps: all of them up to 2 * preConnect, and then exactly that many. */
  function ReadyKept(ready: nat): (r: nat)
    ensures r <= ready && r <= 2 * PreConnect
    ensures r == ready || r == 2 * PreConnect
    ensures r > 0 <==> ready > 0
  {
    if ready <= 2 * PreConnect then ready else 2 * PreConnect
  }

  /** A net.Listener: the model tracks only whether it was closed. */
  class Listener {
    var closed: bool

    constructor ()
      ensures !closed
    {
      closed := false;
    }

    method Close()
      modifies this
      ensures closed
    {
      closed := true;
    }
  }

  /**
   * telephone: the pool of conns to one friend. alive is t.d != nil (the
   * telephone has not been revoked); authing holds the conns still in the
   * handshake and conns the authenticated ones.
   */
  class Telephone {
    const home: Dialer0
    const auth: Auth.AuthRemote
    /** The rating the uptime meter reports; the meter is not part of this model. */
    const uptimeRating: real
    var alive: bool
    var addr: string
    var presence: Presence
    var authing: set<Conn>
    var conns: set<Conn>
    /** The connect goroutines started so far. */
    ghost var connects: nat

    /** Every pooled conn keeps its own invariant; a revoked telephone holds no conns. */
    ghost predicate Valid()
      reads this, conns
    {
      (forall c | c in conns :: c.Valid())
      && presence.id == auth.id
      && (!alive ==> conns == {})
    }

    /** What the pool's methods may change besides the dialer. */
    ghost function Footprint(): set<object>
      reads this, conns
    {
      {this} + conns + TubesOf(conns)
    }

    /** makeTel: alive, presumed online and reachable, with the initial rating and empty pools. */
    constructor MakeTel(home: Dialer0, auth: Auth.AuthRemote, addr: string, uptimeRating: real)
      ensures Valid() && this.home == home && this.auth == auth && this.addr == addr
      ensures this.uptimeRating == uptimeRating
      ensures alive && presence == Presence(auth.id, true, true, InitialRating)
      ensures authing == {} && conns == {} && connects == 0
    {
      this.home := home;
      this.auth := auth;
      this.addr := addr;
      this.uptimeRating := uptimeRating;
      alive := true;
      presence := Presence(auth.id, true, true, InitialRating);
      authing, conns := {}, {};
      connects := 0;
    }

    /** getReadyBusyCounts: every conn is counted once, as Ready or as not Ready. */
    method ReadyBusyCounts() returns (nr: nat, nb: nat)
      ensures nr == |ReadyOf(conns)| && nr + nb == |conns|
    {
      nr, nb := 0, 0;
      var todo := conns;
      ghost var seen: set<Conn> := {};
      while todo != {}
        invariant todo + seen == conns && todo !! seen
        invariant nr == |ReadyOf(seen)| && nr + nb == |seen|
        decreases |todo|
      {
        var c :| c in todo;
        if c.regime == Ready {
          assert ReadyOf(seen + {c}) == ReadyOf(seen) + {c};
          nr := nr + 1;
        } else {
          assert ReadyOf(seen + {c}) == ReadyOf(seen);
          nb := nb + 1;
        }
        todo := todo - {c};
        seen := seen + {c};
      }
    }

    /**
     * guessOnline: the friend may be online exactly when some conn is
     * Ready, and the dialer hears of it only when that changed.
     */
    method GuessOnline()
      requires Valid()
      modifies this, home
      ensures Valid() && conns == old(conns) && alive == old(alive) && addr == old(addr) && authing == old(authing)
      ensures connects == old(connects) && home.arrivals == old(home.arrivals)
      ensures home.tels == old(home.tels) && home.dials == old(home.dials)
      ensures unchanged(conns)
      ensures !old(alive) ==> presence == old(presence) && home.status == old(home.status)
      ensures old(alive) ==>
        var online := |old(ReadyOf(conns))| > 0;
        presence == old(presence).(maybeOnline := online)
        && home.status == old(home.status) + (if old(presence.maybeOnline) == online then [] else [StatusUpdate(auth.id, online)])
    {
      if !alive {
        return;
      }
      var nrdy, _ := ReadyBusyCounts();
      var p1 := nrdy > 0;
      var p0 := presence.maybeOnline;
      presence := presence.(maybeOnline := p1);
      if p0 == p1 {
        return;
      }
      home.AnnounceOnline(auth.id, p1);
    }

    /**
     * The trimming half of rebalance: errored conns always leave the pool;
     * while more than 2 * preConnect are Ready, Ready conns are closed and
     * leave until exactly that many remain; every other conn stays as it is.
     */
    method TrimConns()
      requires Valid()
      modifies this, conns, TubesOf(conns)
      ensures Valid() && alive == old(alive) && presence == old(presence) && addr == old(addr)
      ensures authing == old(authing) && connects == old(connects)
      ensures conns <= old(conns)
      ensures forall c | c in old(conns) && c !in conns :: c.regime == Closed
      ensures forall c | c in conns :: c.regime == old(c.regime) && c.tube == old(c.tube) && c.regime != Closed
      ensures forall c | c in old(conns) && old(c.regime) != Ready && old(c.regime) != Closed :: c in conns
      ensures |ReadyOf(conns)| == ReadyKept(|old(ReadyOf(conns))|)
      ensures Footprint() <= old(Footprint())
    {
      var nrdy, _ := ReadyBusyCounts();
      conns := Trim(conns, nrdy - 2 * PreConnect);
    }

    /**
     * rebalance: on a live telephone, starts as many connects as the pool
     * is short (only when the friend is reachable), trims the pool, and
     * updates the online guess.
     */
    method Rebalance()
      requires Valid()
      modifies Footprint(), home
      ensures Valid() && alive == old(alive) && addr == old(addr) && authing == old(authing)
      ensures home.arrivals == old(home.arrivals) && home.tels == old(home.tels) && home.dials == old(home.dials)
      ensures Footprint() <= old(Footprint())
      ensures !old(alive) ==> unchanged(this) && unchanged(home)
      ensures old(alive) ==>
        var short := Shortfall(|authing|, |old(ReadyOf(conns))|);
        connects == old(connects) + (if old(presence.reachable) then short else 0)
      ensures old(alive) ==>
        conns <= old(conns)
        && (forall c | c in old(conns) && c !in conns :: c.regime == Closed)
        && (forall c | c in conns :: c.regime == old(c.regime) && c.tube == old(c.tube) && c.regime != Closed)
        && (forall c | c in old(conns) && old(c.regime) != Ready && old(c.regime) != Closed :: c in conns)
        && |ReadyOf(conns)| == ReadyKept(|old(ReadyOf(conns))|)
      ensures old(alive) ==>
        var online := |old(ReadyOf(conns))| > 0;
        presence == old(presence).(maybeOnline := online)
        && home.status == old(home.status) + (if old(presence.maybeOnline) == online then [] else [StatusUpdate(auth.id, online)])
    {
      if alive {
        RebalanceLive();
      }
    }

    /** The body of rebalance on a live telephone. */
    method RebalanceLive()
      requires Valid() && alive
      modifies Footprint(), home
      ensures Valid() && alive && addr == old(addr) && authing == old(authing)
      ensures home.arrivals == old(home.arrivals) && home.tels == old(home.tels) && home.dials == old(home.dials)
      ensures Footprint() <= old(Footprint())
      ensures connects == old(connects) + (if old(presence.reachable) then Shortfall(|authing|, |old(ReadyOf(conns))|) else 0)
      ensures conns <= old(conns)
      ensures forall c | c in old(conns) && c !in conns :: c.regime == Closed
      ensures forall c | c in conns :: c.regime == old(c.regime) && c.tube == old(c.tube) && c.regime != Closed
      ensures forall c | c in old(conns) && old(c.regime) != Ready && old(c.regime) != Closed :: c in conns
      ensures |ReadyOf(conns)| == ReadyKept(|old(ReadyOf(conns))|)
      ensures presence == old(presence).(maybeOnline := |old(ReadyOf(conns))| > 0)
      ensures home.status == old(home.status) + (if old(presence.maybeOnline) == (|old(ReadyOf(conns))| > 0) then [] else [StatusUpdate(auth.id, |old(ReadyOf(conns))| > 0)])
    {
      var nrdy, _ := ReadyBusyCounts();
      var short := Shortfall(|authing|, nrdy);
      var reachable := presence.reachable;
      // The connects run as goroutines outside this model; only their
      // number, fixed by the counts above, is recorded, after the trim.
      TrimConns();
      GuessOnline();
      if short > 0 && reachable {
        StartConnects(short);
      }
    }

    /** Records n connect goroutines started. */
    method StartConnects(n: nat)
      modifies this
      ensures connects == old(connects) + n
      ensures alive == old(alive) && addr == old(addr) && presence == old(presence)
      ensures authing == old(authing) && conns == old(conns) && unchanged(conns)
    {
      connects := connects + n;
    }

    /** killConn: the conn leaves the pool and is closed. */
    method KillConn(c: Conn)
      requires Valid() && c.Valid()
      modifies this, c, c.TubeSet()
      ensures Valid() && conns == old(conns) - {c} && c.regime == Closed && c.Valid()
      ensures alive == old(alive) && presence == old(presence) && addr == old(addr)
      ensures authing == old(authing) && connects == old(connects)
      ensures old(c.err).Some? ==> unchanged(c)
    {
      conns := conns - {c};
      var _ := c.Close();
    }

    /** kill: the telephone is revoked, and every pooled conn leaves the pool and is closed. */
    method Kill()
      requires Valid()
      modifies this, conns, TubesOf(conns)
      ensures Valid() && !alive && conns == {}
      ensures forall c | c in old(conns) :: c.regime == Closed
      ensures presence == old(presence) && addr == old(addr) && authing == old(authing) && connects == old(connects)
    {
      alive := false;
      CloseAll(conns);
      conns := {};
    }

    /** telephone.receive: EBADF once revoked; otherwise the dialer's receive under this friend's Id. */
    method Receive(subject: string, rwc: Handoff) returns (e: Option<Error>)
      modifies home
      ensures !alive ==> e == Some(EBADF) && unchanged(home)
      ensures alive ==> e == (if subject in old(home.listens) then None else Some(NoListener))
      ensures alive && subject in old(home.listens) ==>
        home.listens == old(home.listens) - {subject} && home.rings == old(home.rings) + [(subject, Ring(auth.id, rwc))]
      ensures alive && subject !in old(home.listens) ==> unchanged(home)
    {
      if !alive {
        return Some(EBADF);
      }
      e := home.Receive(auth.id, subject, rwc);
    }

    /**
     * The admission step of register: on a live telephone the conn joins
     * the pool, the dialer hears of the friend's arrival, and the pool is
     * rebalanced. The Poll loop that follows is not part of this model.
     */
    method Register(conn: Conn) returns (admitted: bool)
      requires Valid() && conn.Valid() && conn.regime == Ready
      modifies Footprint(), conn, conn.TubeSet(), home
      ensures Valid() && admitted == old(alive) && home.tels == old(home.tels) && home.dials == old(home.dials)
      ensures !old(alive) ==> unchanged(this) && unchanged(home) && unchanged(conn)
      ensures old(alive) ==>
        home.arrivals == old(home.arrivals) + [auth.id] && conns <= old(conns) + {conn}
        && presence.maybeOnline
    ensures old(alive) ==>
      |ReadyOf(conns)| == ReadyKept(|old(ReadyOf(conns + {conn}))|)
      && (forall c | c in old(conns) && old(c.regime) != Ready && old(c.regime) != Closed :: c in conns)
      && (forall c | c in old(conns) + {conn} && c !in conns :: c.regime == Closed)
    {
      if !alive {
        return false;
      }
      conns := conns + {conn};
      assert TubesOf(conns) == old(TubesOf(conns)) + conn.TubeSet();
      home.Arrived(auth.id);
      assert conn in ReadyOf(conns);
      Rebalance();
      admitted := true;
    }

    /**
     * telephone.dial: up to maxDialTries passes over the pool, each trying
     * the conns in turn; the first conn whose dial is answered with a
     * channel wins (then the pool is rebalanced), and a conn found errored
     * after its try is evicted. What each enqueued dial is answered with is
     * up to the conn's Poll loop, so it is the parameter answer (by pass and
     * conn). The won handoff comes back wrapped in the Call whose Close
     * runs the end-of-call hook; passes counts the passes made.
     */
    method Dial(subject: string, answer: (nat, Conn) -> Option<Handoff>) returns (r: Option<Call>, ghost passes: nat)
      requires Valid() && subject != ""
      modifies Footprint(), home
      ensures Valid() && alive == old(alive) && conns <= old(conns) && passes <= MaxDialTries
      ensures home.tels == old(home.tels) && home.dials == old(home.dials)
      ensures !old(alive) ==> r.None? && passes == 0 && unchanged(this)
      ensures old(alive) && r.None? ==> passes == MaxDialTries
      ensures r.Some? ==>
        var w := r.value.conn;
        fresh(r.value) && r.value.armed && r.value.tel == this && 1 <= passes
        && w in old(conns) && old(w.err).None? && old(w.regime) == Ready
        && answer(passes - 1, w) == Some(r.value.h)
    {
      ghost var s0 := Snapshot(conns);
      passes := 0;
      var j := 0;
      while j < MaxDialTries
        invariant Valid() && alive == old(alive) && j <= MaxDialTries && passes == j
        invariant !old(alive) ==> j == 0 && unchanged(this)
        invariant conns <= old(conns) && Footprint() <= old(Footprint())
        invariant home.tels == old(home.tels) && home.dials == old(home.dials)
        invariant NoneRevived(conns, s0)
        decreases MaxDialTries - j
      {
        if !alive {
          return None, passes;
        }
        ghost var sp := Snapshot(conns);
        SnapshotLater(conns, s0);
        r := DialPass(subject, answer, j);
        if r.Some? {
          assert sp[r.value.conn] == (Ready, None);
          return r, j + 1;
        }
        LaterTransitive(conns, sp, s0);
        j := j + 1;
        passes := j;
      }
      r := None;
    }

    /**
     * One pass of telephone.dial: each conn of the pool as it stands is
     * tried once, until one that was Ready and error-free wins. No conn
     * becomes Ready or loses its error during a pass.
     */
    method DialPass(subject: string, answer: (nat, Conn) -> Option<Handoff>, j: nat) returns (r: Option<Call>)
      requires Valid() && alive && subject != ""
      modifies Footprint(), home
      ensures Valid() && alive && conns <= old(conns) && Footprint() <= old(Footprint())
      ensures home.tels == old(home.tels) && home.dials == old(home.dials)
      ensures r.Some? ==>
        var w := r.value.conn;
        fresh(r.value) && r.value.armed && r.value.tel == this
        && w in old(conns) && old(w.err).None? && old(w.regime) == Ready && answer(j, w) == Some(r.value.h)
      ensures r.None? ==> NoneRevived(conns, old(Snapshot(conns)))
    {
      ghost var snap := Snapshot(conns);
      var rs := conns;
      while rs != {}
        invariant Valid() && alive && rs <= conns <= old(conns) && Footprint() <= old(Footprint())
        invariant home.tels == old(home.tels) && home.dials == old(home.dials)
        invariant forall c | c in rs :: (c.regime, c.err) == snap[c]
        invariant NoneRevived(conns, snap)
        decreases |rs|
      {
        var c :| c in rs;
        rs := rs - {c};
        r := TryConn(c, subject, answer, j);
        if r.Some? {
          return;
        }
      }
      r := None;
    }

    /**
     * One try within a pass: the conn's dial is enqueued; if it is
     * answered with a channel the call is won, the pool rebalanced, and
     * the channel handed out inside a Call; otherwise a conn that is
     * errored is evicted, and every other conn stays in the pool, as it
     * was.
     */
    method TryConn(c: Conn, subject: string, answer: (nat, Conn) -> Option<Handoff>, j: nat) returns (r: Option<Call>)
      requires Valid() && alive && c in conns && subject != ""
      modifies Footprint(), home
      ensures Valid() && alive && conns <= old(conns) && Footprint() <= old(Footprint())
      ensures home.tels == old(home.tels) && home.dials == old(home.dials)
      ensures r.Some? ==>
        old(c.err).None? && old(c.regime) == Ready && answer(j, c) == Some(r.value.h)
        && fresh(r.value) && r.value.armed && r.value.tel == this && r.value.conn == c
      ensures r.None? ==> old(conns) - {c} <= conns && (c in conns <==> old(c.err).None?)
      ensures r.None? && old(c.err).Some? ==> c.regime == Closed
      ensures r.None? ==> c.err == old(c.err) && (c.regime == Ready ==> old(c.regime) == Ready)
      ensures r.None? ==> forall x | x in old(conns) && x != c :: x.regime == old(x.regime) && x.err == old(x.err)
    {
      ghost var tube0 := map x | x in conns :: x.tube;
      TubesAsSnapshot(conns, tube0);
      var e := c.Dial(subject);
      TubesAsSnapshot(conns, tube0);
      if e.None? {
        var a := answer(j, c);
        if a.Some? {
          Rebalance();
          var call := new Call(a.value, this, c);
          return Some(call);
        }
      }
      r := None;
      Evict(c);
    }

    /** A try that won nothing: an errored conn is evicted, every other conn stays. */
    method Evict(c: Conn)
      requires Valid() && alive && c in conns
      modifies this, c, c.TubeSet()
      ensures Valid() && alive && conns <= old(conns) && Footprint() <= old(Footprint())
      ensures old(conns) - {c} <= conns && (c in conns <==> old(c.err).None?)
      ensures old(c.err).Some? ==> c.regime == Closed && c.err == old(c.err)
      ensures old(c.err).None? ==> unchanged(c)
    {
      if c.err.Some? {
        KillConn(c);
      }
    }
  }

  /**
   * The call telephone.dial hands out: newRunOnClose over the won
   * handoff, with the hook that evicts the conn if it errored during the
   * call and then rebalances the pool. armed is run != nil.
   */
  class Call {
    const h: Handoff
    const tel: Telephone
    const conn: Conn
    var armed: bool

    constructor (h: Handoff, tel: Telephone, conn: Conn)
      ensures this.h == h && this.tel == tel && this.conn == conn && armed
    {
      this.h, this.tel, this.conn := h, tel, conn;
      armed := true;
    }

    /**
     * Close: closes the handoff; the first Close also runs the hook, so
     * that a conn errored by then has left the pool, and the pool is
     * rebalanced: no Closed conn stays in it, and at most 2 * preConnect
     * Ready ones.
     */
    method Close() returns (e: Option<Error>)
      requires h.Valid() && tel.Valid() && conn.Valid()
      modifies this, h.Frame(), conn, conn.TubeSet(), tel.Footprint(), tel.home
      ensures !armed && h.y.None? && (old(h.y).None? ==> e == Some(EBADF))
      ensures tel.Valid() && tel.alive == old(tel.alive) && tel.conns <= old(tel.conns)
      ensures !old(armed) ==> unchanged(tel, tel.home)
      ensures old(armed) ==> conn.err.None? || conn !in tel.conns
      ensures old(armed) ==> (forall c | c in tel.conns :: c.regime != Closed) && |ReadyOf(tel.conns)| <= 2 * PreConnect
    {
      e := CloseHandoff();
      RunHook();
    }

    /** The hook runs only while it is armed, and disarms itself. */
    method RunHook()
      requires tel.Valid() && conn.Valid()
      modifies this, conn, conn.TubeSet(), tel.Footprint(), tel.home
      ensures !armed && tel.Valid() && tel.alive == old(tel.alive) && tel.conns <= old(tel.conns)
      ensures !old(armed) ==> unchanged(tel, tel.home)
      ensures old(armed) ==> conn.err.None? || conn !in tel.conns
      ensures old(armed) ==> (forall c | c in tel.conns :: c.regime != Closed) && |ReadyOf(tel.conns)| <= 2 * PreConnect
    {
      if armed {
        armed := false;
        Hook();
      }
    }

    /** runOnClose's own Close of the handoff: the pool and every conn but the handoff's owner stay as they were. */
    method CloseHandoff() returns (e: Option<Error>)
      requires h.Valid() && tel.Valid() && conn.Valid()
      modifies h.Frame()
      ensures h.Valid() && h.y.None? && (old(h.y).None? ==> e == Some(EBADF))
      ensures tel.Valid() && conn.Valid() && unchanged(tel)
      ensures conn.TubeSet() <= old(conn.TubeSet()) && tel.Footprint() <= old(tel.Footprint())
    {
      ghost var tube0 := map x | x in tel.conns :: x.tube;
      TubesAsSnapshot(tel.conns, tube0);
      e := h.Close();
      TubesShrink(tel.conns, tube0);
    }

    /** The hook: an errored conn is killed, then the pool is rebalanced. */
    method Hook()
      requires tel.Valid() && conn.Valid()
      modifies conn, conn.TubeSet(), tel.Footprint(), tel.home
      ensures tel.Valid() && tel.alive == old(tel.alive) && tel.conns <= old(tel.conns)
      ensures conn.err.None? || conn !in tel.conns
      ensures (forall c | c in tel.conns :: c.regime != Closed) && |ReadyOf(tel.conns)| <= 2 * PreConnect
    {
      if conn.err.Some? {
        tel.KillConn(conn);
      }
      tel.Rebalance();
    }
  }

  /** The regime and the error of each conn. */
  ghost function Snapshot(cs: set<Conn>): map<Conn, (Regime, Option<Error>)>
    reads cs
  {
    map c | c in cs :: (c.regime, c.err)
  }

  /** No conn of cs is Ready, or free of error, unless it was so in the snapshot. */
  ghost predicate NoneRevived(cs: set<Conn>, snap: map<Conn, (Regime, Option<Error>)>)
    reads cs
  {
    forall c | c in cs :: c in snap && (c.regime == Ready ==> snap[c].0 == Ready) && (c.err.None? ==> snap[c].1.None?)
  }

  /** The snapshot s1 was taken after s0: nothing is Ready, or free of error, in s1 that was not so in s0. */
  ghost predicate Later(s1: map<Conn, (Regime, Option<Error>)>, s0: map<Conn, (Regime, Option<Error>)>)
  {
    forall c | c in s1 :: c in s0 && (s1[c].0 == Ready ==> s0[c].0 == Ready) && (s1[c].1.None? ==> s0[c].1.None?)
  }

  lemma SnapshotLater(cs: set<Conn>, s0: map<Conn, (Regime, Option<Error>)>)
    requires NoneRevived(cs, s0)
    ensures Later(Snapshot(cs), s0)
  {
  }

  lemma LaterTransitive(cs: set<Conn>, s1: map<Conn, (Regime, Option<Error>)>, s0: map<Conn, (Regime, Option<Error>)>)
    requires NoneRevived(cs, s1) && Later(s1, s0)
    ensures NoneRevived(cs, s0)
  {
  }

  /** The tubes of the conns in cs according to the snapshot tube0. */
  function TubesIn(cs: set<Conn>, tube0: map<Conn, Option<Tube>>): set<object>
    requires cs <= tube0.Keys
  {
    set c | c in cs && tube0[c].Some? :: tube0[c].value as object
  }

  /** Conns that still have the tubes of the snapshot have the snapshot's tubes. */
  lemma TubesAsSnapshot(cs: set<Conn>, tube0: map<Conn, Option<Tube>>)
    requires cs <= tube0.Keys && forall c | c in cs :: c.tube == tube0[c]
    ensures TubesOf(cs) == TubesIn(cs, tube0)
  {
    forall o | o in TubesIn(cs, tube0)
      ensures o in TubesOf(cs)
    {
      var c :| c in cs && tube0[c].Some? && o == tube0[c].value as object;
      assert c.tube.Some? && o == c.tube.value;
    }
  }
  /** Conns that kept or dropped the tubes of the snapshot have no tube outside it. */
  lemma TubesShrink(cs: set<Conn>, tube0: map<Conn, Option<Tube>>)
    requires cs <= tube0.Keys && forall c | c in cs :: c.tube == tube0[c] || c.tube.None?
    ensures TubesOf(cs) <= TubesIn(cs, tube0)
  {
  }


  /** Closes every conn in cs. */
  method CloseAll(cs: set<Conn>)
    requires forall c | c in cs :: c.Valid()
    modifies cs, TubesOf(cs)
    ensures forall c | c in cs :: c.Valid() && c.regime == Closed
  {
    var todo := cs;
    while todo != {}
      invariant todo <= cs
      invariant forall c | c in todo :: c.tube == old(c.tube)
      invariant forall c | c in cs :: c.Valid()
      invariant forall c | c in cs && c !in todo :: c.regime == Closed
      decreases |todo|
    {
      var c :| c in todo;
      var _ := c.Close();
      todo := todo - {c};
    }
  }

  /** The Ready conns a trim with this excess closes: none unless positive, and at most all of them. */
  function Clamp(excess: int, ready: nat): (r: nat)
    ensures r <= ready
    ensures excess <= 0 ==> r == 0
    ensures excess > 0 ==> r == Min(excess, ready)
  {
    if excess <= 0 then 0 else Min(excess, ready)
  }

  /**
   * One step of the trimming loop: an errored conn leaves (Close on it
   * changes nothing); while the excess is positive a Ready conn is closed
   * and leaves; any other conn stays untouched.
   */
  method TrimOne(c: Conn, excess: int) returns (keep: bool, left: int)
    requires c.Valid()
    modifies c, c.TubeSet()
    ensures c.Valid()
    ensures old(c.regime) == Closed ==> !keep && left == excess && c.regime == Closed
    ensures old(c.regime) == Ready && excess > 0 ==> !keep && left == excess - 1 && c.regime == Closed
    ensures old(c.regime) != Closed && !(old(c.regime) == Ready && excess > 0) ==>
      keep && left == excess && c.regime == old(c.regime) && c.tube == old(c.tube)
  {
    left := excess;
    if c.err.Some? {
      var _ := c.Close();
      return false, left;
    }
    if excess > 0 {
      var k := c.CloseIfReady();
      if k != Some(EAGAIN) {
        return false, left - 1;
      }
    }
    keep := true;
  }

  /** The conns of cs that were Ready in the snapshot reg0. */
  function ReadyIn(cs: set<Conn>, reg0: map<Conn, Regime>): set<Conn>
    requires cs <= reg0.Keys
  {
    set c | c in cs && reg0[c] == Ready
  }

  /** Conns that still have the regimes of the snapshot have the snapshot's Ready ones. */
  lemma ReadyAsSnapshot(cs: set<Conn>, reg0: map<Conn, Regime>)
    requires cs <= reg0.Keys && forall c | c in cs :: c.regime == reg0[c]
    ensures ReadyOf(cs) == ReadyIn(cs, reg0)
  {
  }

  /**
   * The bookkeeping of the trimming loop, against the snapshot reg0 of
   * the regimes it started from: todo is still to visit, kept stays in
   * the pool, dropped are the Ready conns closed so far (one per unit of
   * excess used), and every other visited conn was errored.
   */
  ghost predicate TrimSets(cs: set<Conn>, todo: set<Conn>, kept: set<Conn>, dropped: set<Conn>,
                           reg0: map<Conn, Regime>, e0: int, left: int)
  {
    cs <= reg0.Keys && todo <= cs && kept <= cs && dropped <= cs
    && todo !! kept && todo !! dropped && kept !! dropped
    && (forall c | c in kept :: reg0[c] != Closed)
    && (forall c | c in dropped :: reg0[c] == Ready)
    && (forall c | c in cs && c !in todo && c !in kept && c !in dropped :: reg0[c] == Closed)
    && left == e0 - |dropped| && (e0 > 0 ==> left >= 0) && (e0 <= 0 ==> dropped == {})
    && (left > 0 ==> forall c | c in kept :: reg0[c] != Ready)
  }

  /** The conns of the trimming loop: unvisited and kept ones as in the snapshot, the others Closed. */
  ghost predicate TrimHeap(cs: set<Conn>, todo: set<Conn>, kept: set<Conn>,
                           reg0: map<Conn, Regime>, tube0: map<Conn, Option<Tube>>)
    reads cs
  {
    cs <= reg0.Keys && cs <= tube0.Keys
    && (forall c | c in cs :: c.Valid())
    && (forall c | c in cs && (c in todo || c in kept) :: c.regime == reg0[c] && c.tube == tube0[c])
    && (forall c | c in cs && c !in todo && c !in kept :: c.regime == Closed)
  }

  /** One visit of the trimming loop. */
  method TrimStep(cs: set<Conn>, c: Conn, todo: set<Conn>, kept: set<Conn>, ghost dropped: set<Conn>,
                  ghost reg0: map<Conn, Regime>, ghost tube0: map<Conn, Option<Tube>>, ghost e0: int, left: int)
    returns (kept': set<Conn>, ghost dropped': set<Conn>, left': int)
    requires c in todo
    requires TrimSets(cs, todo, kept, dropped, reg0, e0, left) && TrimHeap(cs, todo, kept, reg0, tube0)
    modifies c, c.TubeSet()
    ensures TrimSets(cs, todo - {c}, kept', dropped', reg0, e0, left')
    ensures TrimHeap(cs, todo - {c}, kept', reg0, tube0)
  {
    var keep;
    keep, left' := TrimOne(c, left);
    kept', dropped' := kept, dropped;
    if keep {
      kept' := kept + {c};
    } else if reg0[c] == Ready {
      dropped' := dropped + {c};
    }
  }

  /** At the end of the trimming loop the Ready conns left are the snapshot's less the ones the excess closed. */
  lemma TrimCount(cs: set<Conn>, kept: set<Conn>, dropped: set<Conn>, reg0: map<Conn, Regime>, e0: int, left: int)
    requires TrimSets(cs, {}, kept, dropped, reg0, e0, left)
    ensures |ReadyIn(kept, reg0)| == |ReadyIn(cs, reg0)| - Clamp(e0, |ReadyIn(cs, reg0)|)
  {
    var r0, k0 := ReadyIn(cs, reg0), ReadyIn(kept, reg0);
    assert r0 == k0 + dropped;
    assert k0 !! dropped;
    if left > 0 {
      assert k0 == {};
    }
  }

  /**
   * The trimming loop of rebalance over the pool cs: errored conns leave,
   * min(excess, #Ready) Ready conns are closed and leave when the excess is
   * positive, and every other conn stays as it was.
   */
  method Trim(cs: set<Conn>, excess: int) returns (kept: set<Conn>)
    requires forall c | c in cs :: c.Valid()
    modifies cs, TubesOf(cs)
    ensures kept <= cs && forall c | c in cs :: c.Valid()
    ensures forall c | c in cs && c !in kept :: c.regime == Closed
    ensures forall c | c in kept :: c.regime == old(c.regime) && c.tube == old(c.tube) && c.regime != Closed
    ensures forall c | c in cs && old(c.regime) != Ready && old(c.regime) != Closed :: c in kept
    ensures |ReadyOf(kept)| == |old(ReadyOf(cs))| - Clamp(excess, |old(ReadyOf(cs))|)
    ensures TubesOf(kept) <= old(TubesOf(cs))
  {
    ghost var reg0 := map c | c in cs :: c.regime;
    ghost var tube0 := map c | c in cs :: c.tube;
    TubesAsSnapshot(cs, tube0);
    ReadyAsSnapshot(cs, reg0);
    ghost var dropped: set<Conn> := {};
    var left := excess;
    var todo := cs;
    kept := {};
    while todo != {}
      invariant TrimSets(cs, todo, kept, dropped, reg0, excess, left) && TrimHeap(cs, todo, kept, reg0, tube0)
      decreases |todo|
    {
      var c :| c in todo;
      assert c.TubeSet() <= old(TubesOf(cs));
      kept, dropped, left := TrimStep(cs, c, todo, kept, dropped, reg0, tube0, excess, left);
      todo := todo - {c};
    }
    TrimCount(cs, kept, dropped, reg0, excess, left);
    TubesAsSnapshot(kept, tube0);
    assert TubesIn(kept, tube0) <= TubesIn(cs, tube0);
    ReadyAsSnapshot(kept, reg0);
  }

  /**
   * Dialer0: our identity and listener, the telephones by friend Id and by
   * accept key, the inbound conns still in the handshake, the subjects
   * with a waiting Accept, and the dialer's last listen error. rings,
   * arrivals and status are what was sent on the Accept channels and on
   * the arrival and status channels.
   */
  class Dialer0 {
    var auth: Auth.AuthLocal
    var ltcp: Option<Listener>
    var tels: map<Sys.Id, Telephone>
    var dials: map<Sys.DialKey, Telephone>
    var unauthd: set<Conn>
    var listens: set<string>
    var rings: seq<(string, Ring)>
    var err: Option<Error>
    var arrivals: seq<Sys.Id>
    var status: seq<StatusUpdate>

    /** The registry of a new dialer, before it binds. */
    constructor Empty(auth: Auth.AuthLocal)
      ensures this.auth == auth && ltcp.None? && tels == map[] && dials == map[] && unauthd == {}
      ensures listens == {} && rings == [] && err.None? && arrivals == [] && status == []
    {
      this.auth := auth;
      ltcp := None;
      tels, dials, unauthd := map[], map[], {};
      listens, rings := {}, [];
      err := None;
      arrivals, status := [], [];
    }

    /**
     * Bind: adopts auth and the new listener (none when listening failed),
     * closes the previous listener, and clears the error only on success.
     */
    method Bind(auth: Auth.AuthLocal, listened: Result<Listener>) returns (e: Option<Error>)
      requires listened.Ok? ==> ltcp != Some(listened.value)
      modifies this, if ltcp.Some? then {ltcp.value} else {}
      ensures this.auth == auth
      ensures ltcp == (if listened.Ok? then Some(listened.value) else None)
      ensures old(ltcp).Some? ==> old(ltcp).value.closed
      ensures listened.Ok? ==> e.None? && err.None?
      ensures listened.Err? ==> e == Some(listened.error) && err == old(err)
      ensures tels == old(tels) && dials == old(dials) && unauthd == old(unauthd) && listens == old(listens)
      ensures rings == old(rings) && arrivals == old(arrivals) && status == old(status)
    {
      this.auth := auth;
      var l := ltcp;
      ltcp := if listened.Ok? then Some(listened.value) else None;
      if listened.Err? {
        ltcp := None;
      } else {
        err := None;
      }
      if l.Some? {
        l.value.Close();
      }
      e := if listened.Ok? then None else Some(listened.error);
    }

    /** getTel: the telephone of a friend, if any. */
    function GetTel(id: Sys.Id): (r: Option<Telephone>)
      reads this
      ensures r.Some? <==> id in tels
      ensures r.Some? ==> r.value == tels[id]
    {
      if id in tels then Some(tels[id]) else None
    }

    /** lookupTelAuth: the friend whose accept key is dk, if any. */
    function LookupTelAuth(dk: Sys.DialKey): (r: Option<Auth.AuthRemote>)
      reads this, (set k | k in dials :: dials[k])
      ensures r.Some? <==> dk in dials
      ensures r.Some? ==> r.value == dials[dk].auth
    {
      if dk in dials then Some(dials[dk].auth) else None
    }

    /** arrived: a friend's conn joined its pool. */
    method Arrived(id: Sys.Id)
      modifies this
      ensures arrivals == old(arrivals) + [id]
      ensures auth == old(auth) && ltcp == old(ltcp) && tels == old(tels) && dials == old(dials)
      ensures unauthd == old(unauthd) && listens == old(listens) && rings == old(rings)
      ensures err == old(err) && status == old(status)
    {
      arrivals := arrivals + [id];
    }

    /** announceOnline: a friend's online status changed. */
    method AnnounceOnline(id: Sys.Id, v: bool)
      modifies this
      ensures status == old(status) + [StatusUpdate(id, v)]
      ensures auth == old(auth) && ltcp == old(ltcp) && tels == old(tels) && dials == old(dials)
      ensures unauthd == old(unauthd) && listens == old(listens) && rings == old(rings)
      ensures err == old(err) && arrivals == old(arrivals)
    {
      status := status + [StatusUpdate(id, v)];
    }

    /**
     * Add: nothing when the friend is known; otherwise a new telephone,
     * indexed under the friend's Id and accept key, whose first rebalance
     * starts preConnect connects and reports the friend offline.
     */
    method Add(a: Auth.AuthRemote, addr: string, uptimeRating: real)
      modifies this
      ensures a.id in old(tels) ==> unchanged(this)
      ensures a.id !in old(tels) ==>
        a.id in tels && var t := tels[a.id];
        fresh(t) && t.Valid() && t.alive && t.auth == a && t.addr == addr && t.home == this && t.conns == {}
        && tels == old(tels)[a.id := t] && dials == old(dials)[a.acceptKey := t]
        && t.connects == PreConnect && !t.presence.maybeOnline
        && status == old(status) + [StatusUpdate(a.id, false)] && arrivals == old(arrivals)
    {
      if a.id in tels {
        return;
      }
      var t := new Telephone.MakeTel(this, a, addr, uptimeRating);
      tels := tels[a.id := t];
      dials := dials[a.acceptKey := t];
      assert ReadyOf(t.conns) == {};
      t.Rebalance();
    }

    /**
     * Revoke: nothing for an unknown friend; otherwise the telephone leaves
     * both indices, is revoked, and its conns are closed.
     */
    method Revoke(id: Sys.Id)
      requires id in tels ==> tels[id].Valid()
      modifies this, if id in tels then {tels[id] as object} + tels[id].conns + TubesOf(tels[id].conns) else {}
      ensures id !in old(tels) ==> unchanged(this)
      ensures id in old(tels) ==>
        var t := old(tels[id]);
        tels == old(tels) - {id} && dials == old(dials) - {t.auth.acceptKey}
        && !t.alive && t.conns == {} && (forall c | c in old(t.conns) :: c.regime == Closed)
    {
      if id !in tels {
        return;
      }
      var t := tels[id];
      tels := tels - {id};
      dials := dials - {t.auth.acceptKey};
      t.Kill();
    }

    /** Update: nothing for an unknown friend; otherwise a new address, reachable again, and a rebalance. */
    method Update(id: Sys.Id, addr: string)
      requires id in tels ==> tels[id].Valid() && tels[id].home == this
      modifies this, if id in tels then tels[id].Footprint() else {}
      ensures tels == old(tels) && dials == old(dials)
      ensures id in old(tels) ==>
        var t := old(tels[id]);
        t.Valid() && t.addr == addr && t.presence.reachable
        && (t.alive ==> t.connects == old(t.connects) + Shortfall(|t.authing|, |old(ReadyOf(t.conns))|))
    {
      if id !in tels {
        return;
      }
      var t := tels[id];
      t.addr := addr;
      t.presence := t.presence.(reachable := true);
      t.Rebalance();
    }

    /** Presence: the friend's presence, rated by the uptime meter; nothing for an unknown friend. */
    function PresenceOf(id: Sys.Id): (r: Option<Presence>)
      reads this, if id in tels then {tels[id]} else {}
      ensures r.Some? <==> id in tels
      ensures r.Some? ==> r.value.id == tels[id].presence.id && r.value.rating == tels[id].uptimeRating
      ensures r.Some? ==> r.value.maybeOnline == tels[id].presence.maybeOnline && r.value.reachable == tels[id].presence.reachable
    {
      if id in tels then Some(tels[id].presence.(rating := tels[id].uptimeRating)) else None
    }

    /**
     * Dial: nothing for an empty subject or an unknown friend; otherwise
     * the telephone's dial, and a won call comes back as a dialer conn
     * whose local address is our Id and whose remote address is the
     * friend's.
     */
    method Dial(id: Sys.Id, subject: string, answer: (nat, Conn) -> Option<Handoff>)
      returns (r: Option<DialerUtil.DialerConn<Call>>)
      requires id in tels ==> tels[id].Valid() && tels[id].home == this
      modifies this, if id in tels then tels[id].Footprint() else {}
      ensures tels == old(tels) && dials == old(dials)
      ensures subject == "" || id !in old(tels) ==> r.None?
      ensures r.Some? ==>
        Sys.ParseId(r.value.la.String()) == (old(auth.id), None) && Sys.ParseId(r.value.ra.String()) == (id, None)
      ensures r.Some? ==>
        var call := r.value.rwc;
        id in old(tels) && fresh(call) && call.armed && call.tel == old(tels)[id]
        && exists j: nat :: j < MaxDialTries && answer(j, call.conn) == Some(call.h)
    {
      if subject == "" {
        return None;
      }
      var t := GetTel(id);
      if t.None? {
        return None;
      }
      var localId := auth.id;
      var rwc, passes := t.value.Dial(subject, answer);
      if rwc.None? {
        return None;
      }
      assert answer(passes - 1, rwc.value.conn) == Some(rwc.value.h);
      r := Some(DialerUtil.NewDialerConn(rwc.value, localId, id));
    }

    /**
     * receive: with no Accept waiting on the subject, "no listener for
     * subject" and nothing changes; otherwise that Accept is removed and
     * handed the call.
     */
    method Receive(id: Sys.Id, subject: string, rwc: Handoff) returns (e: Option<Error>)
      modifies this
      ensures subject !in old(listens) ==> e == Some(NoListener) && unchanged(this)
      ensures subject in old(listens) ==>
        e.None? && listens == old(listens) - {subject} && rings == old(rings) + [(subject, Ring(id, rwc))]
      ensures auth == old(auth) && ltcp == old(ltcp) && tels == old(tels) && dials == old(dials)
      ensures unauthd == old(unauthd) && err == old(err) && arrivals == old(arrivals) && status == old(status)
    {
      if subject !in listens {
        return Some(NoListener);
      }
      listens := listens - {subject};
      rings := rings + [(subject, Ring(id, rwc))];
      e := None;
    }

    /**
     * The registering half of Accept: a second Accept on a subject that is
     * still waiting panics, so it is a precondition. The wait for the ring
     * is not part of this model.
     */
    method Accept(subject: string)
      requires subject !in listens
      modifies this
      ensures listens == old(listens) + {subject}
      ensures auth == old(auth) && ltcp == old(ltcp) && tels == old(tels) && dials == old(dials) && rings == old(rings)
      ensures unauthd == old(unauthd) && err == old(err) && arrivals == old(arrivals) && status == old(status)
    {
      listens := listens + {subject};
    }

    /** setError: records the listener's failure. */
    method SetError(e: Error)
      modifies this
      ensures err == Some(e)
      ensures auth == old(auth) && ltcp == old(ltcp) && tels == old(tels) && dials == old(dials) && rings == old(rings)
      ensures unauthd == old(unauthd) && listens == old(listens) && arrivals == old(arrivals) && status == old(status)
    {
      err := Some(e);
    }

    /** Error: the last listen error, cleared by a successful Bind. */
    function LastError(): (r: Option<Error>)
      reads this
    {
      err
    }

    /**
     * accept: an inbound stream becomes a conn that sits in unauthd for
     * the greeting and the handshake (whose result is the parameter
     * outcome) and always leaves it afterwards; it joins the pool of the
     * friend the handshake identified, and is dropped when the greeting or
     * the handshake fails or no telephone has that Id.
     */
    method AcceptInbound(rwc: Tube, tag: i64, version: string, outcome: Result<Sys.Id>)
      returns (joined: Option<Telephone>)
      requires forall k | k in tels :: tels[k].Valid() && tels[k].home == this
      modifies this, rwc, set k, o | k in tels && o in tels[k].Footprint() :: o
      ensures tels == old(tels) && dials == old(dials)
      ensures outcome.Err? ==> joined.None?
      ensures joined.Some? ==> outcome.Ok? && outcome.value in tels && joined.value == tels[outcome.value]
      ensures joined.Some? <==>
        outcome.Ok? && Tubes.Encoded(old(rwc.closed), old(rwc.room)).None?
        && Tubes.Decoded(old(rwc.closed), old(rwc.inbox), Tubes.KGreet).Ok? && outcome.value in old(tels)
      ensures (outcome.Ok? && Tubes.Encoded(old(rwc.closed), old(rwc.room)).None?
               && Tubes.Decoded(old(rwc.closed), old(rwc.inbox), Tubes.KGreet).Ok? && outcome.value in old(tels)) ==>
        joined == Some(old(tels)[outcome.value])
        && (old(tels[outcome.value].alive) ==> arrivals == old(arrivals) + [old(tels[outcome.value].auth.id)])
    {
      var conn, remote, err := AuthInbound(rwc, tag, version, outcome);
      if err.Some? {
        return None;
      }
      var t := GetTel(remote);
      if t.None? {
        return None;
      }
      var _ := t.value.Register(conn);
      joined := t;
    }

    /**
     * The handshake half of accept: a new conn over rwc sits in unauthd
     * while it greets and authenticates, and leaves it afterwards; it is
     * Ready with the verified Id exactly when both steps succeed.
     */
    method AuthInbound(rwc: Tube, tag: i64, version: string, outcome: Result<Sys.Id>)
      returns (conn: Conn, remote: Sys.Id, err: Option<Error>)
      modifies this, rwc
      ensures fresh(conn) && conn.Valid() && conn.tag == tag && conn.TubeSet() <= {rwc}
      ensures unauthd == old(unauthd) && tels == old(tels) && dials == old(dials) && auth == old(auth)
      ensures listens == old(listens) && rings == old(rings) && arrivals == old(arrivals) && status == old(status)
      ensures outcome.Err? ==> err.Some?
      ensures err.None? ==> outcome.Ok? && remote == outcome.value && conn.regime == Ready && conn.id == Some(remote)
      ensures err.None? <==>
        outcome.Ok? && Tubes.Encoded(old(rwc.closed), old(rwc.room)).None?
        && Tubes.Decoded(old(rwc.closed), old(rwc.inbox), Tubes.KGreet).Ok?
      ensures err.Some? ==> conn.regime == Closed
    {
      conn := new Conn.MakeConn(tag);
      var _ := conn.Attach(rwc);
      unauthd := unauthd + {conn};
      var _, _, e := conn.Greet(version);
      remote := 0;
      if e.None? {
        remote, e := conn.Auth(outcome);
      }
      unauthd := unauthd - {conn};
      err := e;
    }
  }

  /** MakeDialer0: a bound dialer, or the listen error. The listen loop is not part of this model. */
  method MakeDialer0(auth: Auth.AuthLocal, listened: Result<Listener>) returns (r: Result<Dialer0>)
    ensures listened.Err? ==> r == Err(listened.error)
    ensures listened.Ok? ==>
      r.Ok? && fresh(r.value) && r.value.auth == auth && r.value.ltcp == Some(listened.value)
      && r.value.tels == map[] && r.value.dials == map[] && r.value.listens == {} && r.value.err.None?
  {
    var d := new Dialer0.Empty(auth);
    var e := d.Bind(auth, listened);
    if e.Some? {
      return Err(e.value);
    }
    r := Ok(d);
  }

  /** Each Accept takes at most one call: a second call on the same subject finds no listener. */
  method OneCallPerAccept(d: Dialer0, subject: string, id1: Sys.Id, h1: Handoff, id2: Sys.Id, h2: Handoff)
    returns (e1: Option<Error>, e2: Option<Error>)
    requires subject !in d.listens
    modifies d
    ensures e1.None? && e2 == Some(NoListener)
    ensures d.rings == old(d.rings) + [(subject, Ring(id1, h1))] && d.listens == old(d.listens)
  {
    d.Accept(subject);
    e1 := d.Receive(id1, subject, h1);
    e2 := d.Receive(id2, subject, h2);
  }
}
