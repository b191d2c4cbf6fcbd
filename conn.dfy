// A dialer connection and the logical channels it hands out
// (src/pkg/dialer/conn.go and handoff.go). A Conn goes Idle/Connect ->
// UnAuth (Attach) -> Auth -> UnAuth (Greet) -> Auth -> Ready (Auth); from
// Ready a dial or a ring makes it Busy behind a handoff, whose completion
// callback brings it back to Ready. Any failure kills it for good.
//
// Locks, goroutines and channels are not modelled: Poll's select becomes
// the two methods PollDial and PollRing, and the dial channel a queue of
// waiting subjects.
module ConnHandoff {
  import opened Base
  import Sys
  import opened Tubes

  datatype Regime = Idle | Connect | UnAuth | Auth | Ready | Busy | Closed | Dialing

  /** The regime constants' values, in their iota order. */
  function Code(r: Regime): (c: nat)
    ensures c < 8
  {
    match r
    case Idle => 0
    case Connect => 1
    case UnAuth => 2
    case Auth => 3
    case Ready => 4
    case Busy => 5
    case Closed => 6
    case Dialing => 7
  }

  /** regimeToString: the name of a regime constant; any other value panics. */
  function RegimeToString(regime: int): string
    requires 0 <= regime < 8
  {
    if regime == 0 then "idle"
    else if regime == 1 then "connecting"
    else if regime == 2 then "un-authenticated"
    else if regime == 3 then "authenticating"
    else if regime == 4 then "ready"
    else if regime == 5 then "busy"
    else if regime == 6 then "closed"
    else "dialing"
  }

  /** Every regime has its own name. */
  lemma RegimeNamesDistinct(a: Regime, b: Regime)
    ensures RegimeToString(Code(a)) == RegimeToString(Code(b)) <==> a == b
  {
  }

  /** The regimes in which a Conn has a tube to talk over. */
  predicate Active(r: Regime)
  {
    r == UnAuth || r == Auth || r == Ready || r == Busy || r == Dialing
  }

  const ClosedMeantime: Error := Failure("d,conn: closed meantime")
  const GreetFailed: Error := Failure("d,conn: greet failed")
  const AuthFailed: Error := Failure("d,conn: auth failed")
  const SendCallFailed: Error := Failure("d,conn: send call")
  const ReceiveCallFailed: Error := Failure("d,conn: receive call")

  /** U_OrientMax: orders are drawn from [0, 2e9). */
  const OrientMax: nat := 2_000_000_000

  /** The tie-break: our dial prevails iff the order we read back is at least the one we sent. */
  predicate OurDialPrevails(sent: u32, received: u32)
  {
    received >= sent
  }

  /** orient.Order++ on a uint32. */
  function EchoOrder(order: u32): u32
  {
    (order + 1) % TWO_32
  }

  /**
   * A lone dialer always prevails: the acceptor's echo of an order drawn
   * below 2e9 is one more, with no wrap-around.
   */
  lemma LoneDialerPrevails(order: u32)
    requires order < OrientMax
    ensures EchoOrder(order) == order + 1
    ensures OurDialPrevails(order, EchoOrder(order))
  {
  }

  /**
   * Two ends dialing at once, each reading the other's order: with
   * different orders exactly one of them opens, with equal orders both do.
   */
  lemma TieBreak(a: u32, b: u32)
    ensures a != b ==> OurDialPrevails(a, b) != OurDialPrevails(b, a)
    ensures a == b ==> OurDialPrevails(a, b) && OurDialPrevails(b, a)
  {
  }

  /** What one round of Poll ends with: loop again, or return (subject, rwc, err). */
  datatype PollResult = Continue | Returned(subject: string, rwc: Option<Handoff>, err: Option<Error>)

  /** The second half of Dial: the handoff Poll sent back, or EAGAIN for nil. */
  function DialAnswer(notify: Option<Handoff>): (r: Result<Handoff>)
    ensures r.Ok? <==> notify.Some?
    ensures r.Ok? ==> r.value == notify.value
    ensures r.Err? ==> r.error == EAGAIN
  {
    if notify.None? then Err(EAGAIN) else Ok(notify.value)
  }

  class Conn {
    const tag: i64
    var id: Option<Sys.Id>
    var tube: Option<Tube>
    /** The subjects of the Dial calls waiting on the dial channel, oldest first. */
    var pending: seq<string>
    var regime: Regime
    var err: Option<Error>
    var h: Option<Handoff>

    /**
     * The error is set exactly when the regime is Closed, and then the
     * id, the tube and the dial channel are gone; a Conn past Attach has a
     * tube; every waiting dial has a subject.
     */
    ghost predicate Valid()
      reads this
    {
      (err.Some? <==> regime == Closed)
      && (err.Some? ==> id.None? && tube.None? && pending == [])
      && (Active(regime) ==> tube.Some?)
      && (forall i :: 0 <= i < |pending| ==> pending[i] != "")
    }

    /** The state kill leaves behind after storing e. */
    ghost predicate KilledBy(e: Error)
      reads this
    {
      err == Some(e) && regime == Closed && id.None? && tube.None? && pending == []
    }

    /** The tube, as a set, for frames. */
    function TubeSet(): set<object>
      reads this
    {
      if tube.Some? then {tube.value} else {}
    }

    /** MakeConn: Idle, with no error, id or tube; the tag comes from connCounter. */
    constructor MakeConn(tag: i64)
      ensures Valid() && this.tag == tag
      ensures regime == Idle && err.None? && id.None? && tube.None? && pending == [] && h.None?
    {
      this.tag := tag;
      id, tube, pending, regime, err, h := None, None, [], Idle, None, None;
    }

    /** setRegime: refuses with "closed meantime" once the Conn has an error or is Closed. */
    method SetRegime(r: Regime) returns (e: Option<Error>)
      requires Valid() && r != Closed
      requires Active(r) && err.None? ==> tube.Some?
      modifies this
      ensures Valid()
      ensures e.Some? <==> old(err).Some?
      ensures e.Some? ==> e == Some(ClosedMeantime) && regime == old(regime)
      ensures e.None? ==> regime == r
      ensures err == old(err) && id == old(id) && tube == old(tube) && pending == old(pending) && h == old(h)
    {
      if err.Some? || regime == Closed {
        return Some(ClosedMeantime);
      }
      regime := r;
      e := None;
    }

    /**
     * kill: the first call stores the error, closes the Conn, drops the id
     * and the waiting dials, and closes the tube; every later call returns
     * EBADF and changes nothing.
     */
    method Kill(newerr: Error) returns (e: Error)
      requires Valid()
      modifies this, TubeSet()
      ensures Valid() && h == old(h)
      ensures old(err).None? ==> e == newerr && KilledBy(newerr)
      ensures old(err).None? && old(tube).Some? ==> old(tube).value.closed
      ensures old(err).Some? ==> e == EBADF && unchanged(this)
      ensures old(tube).Some? ==> var t := old(tube).value;
        t.sent == old(t.sent) && t.inbox == old(t.inbox) && t.room == old(t.room) && t.keys == old(t.keys)
    {
      if err.Some? {
        return EBADF;
      }
      err := Some(newerr);
      e := newerr;
      id := None;
      regime := Closed;
      var t := tube;
      tube := None;
      pending := [];
      if t.Some? {
        t.value.Close();
      }
    }

    /** Attach: an errored Conn closes the stream and refuses; otherwise the tube over rwc is installed and the Conn is UnAuth. */
    method Attach(rwc: Tube) returns (e: Option<Error>)
      requires Valid()
      requires err.None? ==> regime == Idle || regime == Connect
      modifies this, rwc
      ensures Valid() && h == old(h)
      ensures old(err).Some? ==> e == Some(ClosedMeantime) && unchanged(this) && rwc.closed
      ensures old(err).None? ==> e.None? && regime == UnAuth && tube == Some(rwc) && unchanged(rwc)
      ensures old(err).None? ==> err.None? && id == old(id) && pending == old(pending)
    {
      if err.Some? {
        rwc.Close();
        return Some(ClosedMeantime);
      }
      regime := UnAuth;
      tube := Some(rwc);
      e := None;
    }

    /**
     * Greet: swaps build and dialer version with the peer (Auth while it
     * runs) and returns to UnAuth with the peer's pair; a failed exchange
     * kills the Conn with "greet failed".
     */
    method Greet(version: string) returns (b: string, v: string, e: Option<Error>)
      requires Valid()
      requires err.None? ==> regime == UnAuth && tube.Some?
      modifies this, TubeSet()
      ensures Valid() && h == old(h)
      ensures old(err).Some? ==> b == v == "" && e == Some(ClosedMeantime) && unchanged(this)
      ensures old(err).None? ==> var t := old(tube).value;
        var sent := Encoded(old(t.closed), old(t.room));
        var reply := Decoded(old(t.closed), old(t.inbox), KGreet);
        (sent.None? ==> t.sent == old(t.sent) + [Msg.Greet(Sys.Build, version)])
        && (sent.None? && reply.Ok? ==>
              e.None? && b == reply.value.build && v == reply.value.version
              && regime == UnAuth && tube == old(tube) && t.inbox == old(t.inbox)[1..])
        && (sent.Some? || reply.Err? ==> b == v == "" && e == Some(GreetFailed) && KilledBy(GreetFailed) && t.closed)
    {
      if err.Some? {
        return "", "", Some(ClosedMeantime);
      }
      regime := Regime.Auth;
      var t := tube.value;
      var g := Msg.Greet(Sys.Build, version);
      var ee := t.Encode(g);
      if ee.None? {
        var r := t.Decode(KGreet);
        if r.Ok? {
          g := r.value;
        } else {
          ee := Some(r.error);
        }
      }
      if ee.Some? {
        var k := Kill(GreetFailed);
        return "", "", Some(k);
      }
      regime := UnAuth;
      return g.build, g.version, None;
    }

    /**
     * Auth: runs the handshake (Auth while it runs); outcome is what the
     * handshake function returned. Success records the remote id and makes
     * the Conn Ready; failure kills it with "auth failed".
     */
    method Auth(outcome: Result<Sys.Id>) returns (remote: Sys.Id, e: Option<Error>)
      requires Valid()
      requires err.None? ==> regime == UnAuth && tube.Some?
      modifies this, TubeSet()
      ensures Valid() && h == old(h)
      ensures old(err).Some? ==> remote == 0 && e == Some(ClosedMeantime) && unchanged(this)
      ensures old(err).None? && outcome.Err? ==> remote == 0 && e == Some(AuthFailed) && KilledBy(AuthFailed)
      ensures old(err).None? && outcome.Ok? ==> remote == outcome.value && e.None?
      ensures old(err).None? && outcome.Ok? ==>
        id == Some(remote) && regime == Ready && err.None? && tube == old(tube) && pending == old(pending)
    {
      if err.Some? {
        return 0, Some(ClosedMeantime);
      }
      regime := Regime.Auth;
      if outcome.Err? {
        var k := Kill(AuthFailed);
        return 0, Some(k);
      }
      id := Some(outcome.value);
      regime := Ready;
      return outcome.value, None;
    }

    /** Close: kill with EOF, reporting that first EOF as nil; a second Close gets EBADF. */
    method Close() returns (e: Option<Error>)
      requires Valid()
      modifies this, TubeSet()
      ensures Valid() && h == old(h)
      ensures old(err).None? ==> e.None? && KilledBy(EOF)
      ensures old(err).None? && old(tube).Some? ==> old(tube).value.closed
      ensures old(err).Some? ==> e == Some(EBADF) && unchanged(this)
    {
      var k := Kill(EOF);
      e := if k == EOF then None else Some(k);
    }

    /** CloseIfReady: closes only an unused (Ready) Conn, atomically; otherwise EAGAIN and no change. */
    method CloseIfReady() returns (e: Option<Error>)
      requires Valid()
      modifies this, TubeSet()
      ensures Valid() && h == old(h)
      ensures old(regime) != Ready ==> e == Some(EAGAIN) && unchanged(this) && unchanged(old(TubeSet()))
      ensures old(regime) == Ready ==> e.None? && KilledBy(EOF) && old(tube).value.closed
    {
      if regime != Ready {
        return Some(EAGAIN);
      }
      err := Some(EOF);
      id := None;
      regime := Closed;
      var t := tube.value;
      tube := None;
      pending := [];
      t.Close();
      e := None;
    }

    /**
     * Dial, up to the hand-over to Poll: refuses with "closed meantime"
     * once errored and with EAGAIN unless Ready; otherwise the Conn is
     * Dialing and the subject waits for Poll. DialAnswer gives the rest.
     */
    method Dial(subject: string) returns (e: Option<Error>)
      requires Valid() && subject != ""
      modifies this
      ensures Valid() && h == old(h) && err == old(err) && id == old(id) && tube == old(tube)
      ensures old(err).Some? ==> e == Some(ClosedMeantime) && unchanged(this)
      ensures old(err).None? && old(regime) != Ready ==> e == Some(EAGAIN) && unchanged(this)
      ensures old(err).None? && old(regime) == Ready ==> e.None? && regime == Dialing && pending == old(pending) + [subject]
    {
      if err.Some? {
        return Some(ClosedMeantime);
      }
      if regime != Ready {
        return Some(EAGAIN);
      }
      regime := Dialing;
      pending := pending + [subject];
      e := None;
    }

    /** The completion callback a call's handoff runs: back to Ready (refused once errored), and no handoff. */
    method FinishCall()
      requires Valid() && (err.None? ==> tube.Some?)
      modifies this
      ensures Valid() && h.None?
      ensures old(err).None? ==> regime == Ready
      ensures old(err).Some? ==> regime == old(regime)
      ensures err == old(err) && id == old(id) && tube == old(tube) && pending == old(pending)
    {
      var _ := SetRegime(Ready);
      h := None;
    }

    /** A call is under way on hh: Busy, no error, and hh is this Conn's fresh handoff for the session. */
    ghost predicate CallUnderway(hh: Handoff, session: u32, htag: i64)
      reads this, hh, hh.owner
    {
      regime == Busy && err.None? && h == Some(hh) && hh.Started(this, session, htag) && hh.Valid()
    }

    /**
     * sendCall: sends the dial's subject and turns Busy behind a new
     * handoff for the session; a failed send kills the Conn with "send
     * call" and the dialer is told nil.
     */
    method SendCall(session: u32, subject: string, t: Tube, htag: i64) returns (notify: Option<Handoff>)
      requires Valid() && err.None? && tube == Some(t)
      modifies this, t
      ensures Valid() && t.inbox == old(t.inbox)
      ensures Encoded(old(t.closed), old(t.room)).Some? ==>
        notify.None? && KilledBy(SendCallFailed) && t.closed && t.sent == old(t.sent)
      ensures Encoded(old(t.closed), old(t.room)).None? ==>
        t.sent == old(t.sent) + [Subject(subject)] && t.room == old(t.room) - 1
        && notify.Some? && fresh(notify.value) && CallUnderway(notify.value, session, htag)
        && tube == old(tube) && id == old(id) && pending == old(pending)
    {
      var ee := t.Encode(Subject(subject));
      var failed := ee.Some?;
      if !failed {
        var r := SetRegime(Busy);
        failed := r.Some?;
      }
      if failed {
        var _ := Kill(SendCallFailed);
        return None;
      }
      var nh := new Handoff(this, session, htag);
      h := Some(nh);
      notify := Some(nh);
    }

    /**
     * receiveCall: reads the caller's subject and turns Busy behind a new
     * handoff for the session; a failed read or an empty subject kills the
     * Conn with "receive call".
     */
    method ReceiveCall(session: u32, t: Tube, htag: i64) returns (res: PollResult)
      requires Valid() && err.None? && tube == Some(t)
      modifies this, t
      ensures Valid() && t.sent == old(t.sent) && t.inbox == AfterDecode(old(t.closed), old(t.inbox))
      ensures var d := Decoded(old(t.closed), old(t.inbox), KSubject);
        d.Err? || d.value.subject == "" ==>
          res == Returned("", None, Some(ReceiveCallFailed)) && KilledBy(ReceiveCallFailed) && t.closed
      ensures var d := Decoded(old(t.closed), old(t.inbox), KSubject);
        d.Ok? && d.value.subject != "" ==>
          res == Returned(d.value.subject, h, None) && h.Some? && fresh(h.value)
          && CallUnderway(h.value, session, htag) && tube == old(tube) && id == old(id) && pending == old(pending)
    {
      var d := t.Decode(KSubject);
      var failed := d.Err? || d.value.subject == "";
      if !failed {
        var r := SetRegime(Busy);
        failed := r.Some?;
      }
      if failed {
        var k := Kill(ReceiveCallFailed);
        return Returned("", None, Some(k));
      }
      var nh := new Handoff(this, session, htag);
      h := Some(nh);
      res := Returned(d.value.subject, h, None);
    }

    /**
     * Poll, when the select takes a waiting dial: send our random order
     * and session, read the peer's orient, and either open the call (our
     * dial prevails; Poll loops on) or tell the dialer nil and take the
     * peer's call in the peer's session. Any failure kills the Conn with
     * the tube's error. notify is what the waiting Dial receives.
     */
    method PollDial(order: u32, session: u32, htag: i64) returns (notify: Option<Handoff>, res: PollResult)
      requires Valid() && order < OrientMax && session < TWO_31
      requires err.None? && tube.Some? ==> pending != []
      modifies this, TubeSet()
      ensures Valid()
      ensures old(err).Some? || old(tube).None? ==>
        notify.None? && res == Returned("", None, Some(EBADF)) && unchanged(this)
      ensures old(err).None? && old(tube).Some? ==>
        var t := old(tube).value;
        var e1 := Encoded(old(t.closed), old(t.room));
        var d := Decoded(old(t.closed), old(t.inbox), KOrient);
        (e1.Some? ==> notify.None? && res == Returned("", None, e1) && KilledBy(e1.value))
        && (e1.None? && d.Err? ==> notify.None? && res == Returned("", None, Some(d.error)) && KilledBy(d.error))
      ensures old(err).None? && old(tube).Some? ==>
        var t := old(tube).value;
        var e1 := Encoded(old(t.closed), old(t.room));
        var d := Decoded(old(t.closed), old(t.inbox), KOrient);
        e1.None? && d.Ok? && OurDialPrevails(order, d.value.order) ==>
          var e2 := Encoded(old(t.closed), old(t.room) - 1);
          res == Continue
          && (e2.Some? ==> notify.None? && KilledBy(SendCallFailed))
          && (e2.None? ==>
                t.sent == old(t.sent) + [Orient(order, session), Subject(old(pending)[0])]
                && notify.Some? && CallUnderway(notify.value, session, htag) && pending == old(pending)[1..])
      ensures old(err).None? && old(tube).Some? ==>
        var t := old(tube).value;
        var e1 := Encoded(old(t.closed), old(t.room));
        var d := Decoded(old(t.closed), old(t.inbox), KOrient);
        e1.None? && d.Ok? && !OurDialPrevails(order, d.value.order) ==>
          var d2 := Decoded(old(t.closed), old(t.inbox)[1..], KSubject);
          notify.None?
          && (d2.Err? || d2.value.subject == "" ==>
                res == Returned("", None, Some(ReceiveCallFailed)) && KilledBy(ReceiveCallFailed))
          && (d2.Ok? && d2.value.subject != "" ==>
                res == Returned(d2.value.subject, h, None) && h.Some? && CallUnderway(h.value, d.value.session, htag)
                && t.sent == old(t.sent) + [Orient(order, session)] && pending == old(pending)[1..])
    {
      if err.Some? || tube.None? {
        return None, Returned("", None, Some(EBADF));
      }
      var t := tube.value;
      var subject := pending[0];
      pending := pending[1..];
      assert forall i :: 0 <= i < |pending| ==> pending[i] == old(pending)[i + 1];
      var ee := t.Encode(Orient(order, session));
      if ee.Some? {
        var k := Kill(ee.value);
        return None, Returned("", None, Some(k));
      }
      var d := t.Decode(KOrient);
      if d.Err? {
        var k := Kill(d.error);
        return None, Returned("", None, Some(k));
      }
      if OurDialPrevails(order, d.value.order) {
        notify := SendCall(session, subject, t, htag);
        res := Continue;
      } else {
        notify := None;
        res := ReceiveCall(d.value.session, t, htag);
      }
    }

    /**
     * Poll, when the select sees the peer's data first: read the peer's
     * orient, echo it with the order one higher (so a lone dialer
     * prevails), and take the call in the peer's session. Any failure
     * kills the Conn with the tube's error.
     */
    method PollRing(htag: i64) returns (res: PollResult)
      requires Valid()
      modifies this, TubeSet()
      ensures Valid()
      ensures old(err).Some? || old(tube).None? ==> res == Returned("", None, Some(EBADF)) && unchanged(this)
      ensures old(err).None? && old(tube).Some? ==>
        var t := old(tube).value;
        var d := Decoded(old(t.closed), old(t.inbox), KOrient);
        var e1 := Encoded(old(t.closed), old(t.room));
        (d.Err? ==> res == Returned("", None, Some(d.error)) && KilledBy(d.error))
        && (d.Ok? && e1.Some? ==> res == Returned("", None, e1) && KilledBy(e1.value))
      ensures old(err).None? && old(tube).Some? ==>
        var t := old(tube).value;
        var d := Decoded(old(t.closed), old(t.inbox), KOrient);
        var e1 := Encoded(old(t.closed), old(t.room));
        d.Ok? && e1.None? ==>
          var d2 := Decoded(old(t.closed), old(t.inbox)[1..], KSubject);
          t.sent == old(t.sent) + [Orient(EchoOrder(d.value.order), d.value.session)]
          && (d2.Err? || d2.value.subject == "" ==>
                res == Returned("", None, Some(ReceiveCallFailed)) && KilledBy(ReceiveCallFailed))
          && (d2.Ok? && d2.value.subject != "" ==>
                res == Returned(d2.value.subject, h, None) && h.Some? && CallUnderway(h.value, d.value.session, htag)
                && pending == old(pending))
    {
      if err.Some? || tube.None? {
        return Returned("", None, Some(EBADF));
      }
      var t := tube.value;
      var d := t.Decode(KOrient);
      if d.Err? {
        var k := Kill(d.error);
        return Returned("", None, Some(k));
      }
      var echo := Orient(EchoOrder(d.value.order), d.value.session);
      var ee := t.Encode(echo);
      if ee.Some? {
        var k := Kill(ee.value);
        return Returned("", None, Some(k));
      }
      res := ReceiveCall(d.value.session, t, htag);
    }
  }

  /**
   * handoff: one logical channel over a Busy Conn. y is the Conn while the
   * channel is open (nil once closed or killed); owner is the Conn the
   * completion callback (finfun) was made for. armed is finfun != nil and
   * finRuns counts its runs; received and delivered are every byte that
   * arrived in cargo and every byte Read returned.
   */
  class Handoff {
    const tag: i64
    const session: u32
    const owner: Conn
    var y: Option<Conn>
    var rn: int
    var wn: int
    var rk: int
    var wk: int
    var buf: seq<byte>
    var rclosed: bool
    var armed: bool
    ghost var finRuns: nat
    ghost var received: seq<byte>
    ghost var delivered: seq<byte>

    /**
     * The callback runs at most once and is armed until it has; an open
     * channel sits on its owner, which stays Busy until it is killed, and
     * its callback has not run yet; the
     * bytes read so far followed by the buffer are the bytes received.
     */
    ghost predicate Valid()
      reads this, owner
    {
      owner.Valid()
      && (y.Some? ==> y.value == owner)
      && (y.Some? && owner.err.None? ==> owner.regime == Busy)
      && (y.Some? ==> armed)
      && finRuns <= 1 && (armed <==> finRuns == 0)
      && delivered + buf == received && rn == |received|
      && wn >= 0 && rk >= 0 && wk >= 0
    }

    /** Just made by newHandoff. */
    ghost predicate Started(o: Conn, s: u32, t: i64)
      reads this
    {
      owner == o && session == s && tag == t && y == Some(o)
      && rn == 0 && wn == 0 && rk == 0 && wk == 0 && buf == [] && !rclosed
      && armed && finRuns == 0 && received == [] && delivered == []
    }

    /** What the handoff's methods may change: itself, its owner and the owner's tube. */
    function Frame(): set<object>
      reads this, owner
    {
      {this, owner} + owner.TubeSet()
    }

    /** newHandoff over a Busy (or already killed) Conn; the tag comes from handoffCounter. */
    constructor (owner: Conn, session: u32, tag: i64)
      requires owner.Valid() && (owner.err.None? ==> owner.regime == Busy)
      ensures Valid() && Started(owner, session, tag)
    {
      this.tag := tag;
      this.session := session;
      this.owner := owner;
      y := Some(owner);
      rn, wn, rk, wk := 0, 0, 0, 0;
      buf := [];
      rclosed := false;
      armed := true;
      finRuns := 0;
      received, delivered := [], [];
    }

    /** checkForKill: EBADF once closed, EIO once the Conn has an error, else the Conn's tube. */
    function CheckForKill(): (r: Result<Tube>)
      requires Valid()
      reads this, owner
      ensures r.Ok? <==> y.Some? && owner.err.None?
      ensures r.Ok? ==> owner.tube == Some(r.value)
      ensures y.None? ==> r == Err(EBADF)
      ensures y.Some? && owner.err.Some? ==> r == Err(EIO)
    {
      if y.None? then Err(EBADF)
      else if owner.err.Some? then Err(EIO)
      else Ok(owner.tube.value)
    }

    /**
     * kill: closes the channel and kills the owner with err (EBADF if it
     * was killed already), then runs the callback if it has not run; on a
     * closed channel it returns EBADF and changes nothing.
     */
    method Kill(err: Error) returns (e: Error)
      requires Valid()
      modifies Frame()
      ensures Valid() && y.None?
      ensures old(y).None? ==> e == EBADF && unchanged(this) && unchanged(owner)
      ensures old(y).Some? && old(owner.err).None? ==> e == err && owner.KilledBy(err)
      ensures old(y).Some? && old(owner.err).Some? ==> e == EBADF && owner.err == old(owner.err)
      ensures old(y).Some? ==> !armed && finRuns == 1 && (old(armed) ==> owner.h.None?)
      ensures buf == old(buf) && rclosed == old(rclosed) && received == old(received) && delivered == old(delivered)
      ensures rn == old(rn) && wn == old(wn) && rk == old(rk) && wk == old(wk)
      ensures old(owner.tube).Some? ==> var t := old(owner.tube).value;
        t.sent == old(t.sent) && t.inbox == old(t.inbox) && t.room == old(t.room) && t.keys == old(t.keys)
    {
      if y.None? {
        return EBADF;
      }
      y := None;
      var ff := armed;
      armed := false;
      e := owner.Kill(err);
      if ff {
        finRuns := finRuns + 1;
        owner.FinishCall();
      }
    }

    /**
     * Write: nothing is sent for an empty slice; otherwise p goes out as
     * one cargo and is counted, and a failed send kills the channel and
     * the Conn.
     */
    method Write(p: seq<byte>) returns (n: int, e: Option<Error>)
      requires Valid()
      modifies Frame()
      ensures Valid()
      ensures old(CheckForKill()).Err? ==>
        n == 0 && e == Some(old(CheckForKill()).error) && unchanged(this) && unchanged(owner)
      ensures old(CheckForKill()).Ok? && p == [] ==>
        n == 0 && e.None? && unchanged(this) && unchanged(owner) && unchanged(old(CheckForKill()).value)
      ensures old(CheckForKill()).Ok? && p != [] ==>
        var t := old(CheckForKill()).value;
        var sent := Encoded(old(t.closed), old(t.room));
        (sent.None? ==>
           n == |p| && e.None? && t.sent == old(t.sent) + [Cargo(p)]
           && wn == old(wn) + |p| && wk == old(wk) + 1 && y == old(y) && armed == old(armed) && unchanged(owner))
        && (sent.Some? ==> n == 0 && e == sent && y.None? && finRuns == 1 && owner.KilledBy(sent.value))
      ensures rn == old(rn) && rk == old(rk) && buf == old(buf) && rclosed == old(rclosed)
      ensures received == old(received) && delivered == old(delivered)
    {
      var c := CheckForKill();
      if c.Err? {
        return 0, Some(c.error);
      }
      if p == [] {
        return 0, None;
      }
      var t := c.value;
      var ee := t.Encode(Cargo(p));
      if ee.Some? {
        var k := Kill(ee.value);
        return 0, Some(k);
      }
      wn := wn + |p|;
      wk := wk + 1;
      return |p|, None;
    }

    /**
     * Read: EOF for good once the peer's end-of-session cargo has been
     * seen; otherwise a new cargo is read only when the buffer is empty,
     * and at most len(p) buffered bytes are returned, oldest first. A
     * zero-length cargo marks the end; a failed read kills the channel and
     * the Conn.
     */
    method Read(p: array<byte>) returns (n: int, e: Option<Error>)
      requires Valid()
      modifies Frame(), p
      ensures Valid()
      ensures old(CheckForKill()).Err? ==>
        n == 0 && e == Some(old(CheckForKill()).error) && unchanged(this) && unchanged(owner) && unchanged(p)
      ensures old(CheckForKill()).Ok? && old(rclosed) ==>
        n == 0 && e == Some(EOF) && unchanged(this) && unchanged(owner) && unchanged(p)
        && unchanged(old(CheckForKill()).value)
      ensures old(CheckForKill()).Ok? && !old(rclosed) && old(buf) != [] ==>
        n == Min(p.Length, |old(buf)|) && e.None? && p[..n] == old(buf)[..n] && p[n..] == old(p[n..])
        && buf == old(buf)[n..] && delivered == old(delivered) + p[..n] && received == old(received)
        && rn == old(rn) && rk == old(rk) && y == old(y) && unchanged(owner) && unchanged(old(CheckForKill()).value)
      ensures old(CheckForKill()).Ok? && !old(rclosed) && old(buf) == [] ==>
        var t := old(CheckForKill()).value;
        var d := Decoded(old(t.closed), old(t.inbox), KCargo);
        t.inbox == AfterDecode(old(t.closed), old(t.inbox)) && t.sent == old(t.sent)
        && (d.Err? ==> n == 0 && e == Some(d.error) && y.None? && finRuns == 1 && owner.KilledBy(d.error))
        && (d.Ok? && d.value.cargo == [] ==> n == 0 && e == Some(EOF) && rclosed && y == old(y) && unchanged(owner))
      ensures old(CheckForKill()).Ok? && !old(rclosed) && old(buf) == [] ==>
        var t := old(CheckForKill()).value;
        var d := Decoded(old(t.closed), old(t.inbox), KCargo);
        d.Ok? && d.value.cargo != [] ==>
          var c := d.value.cargo;
          n == Min(p.Length, |c|) && e.None? && p[..n] == c[..n] && p[n..] == old(p[n..]) && buf == c[n..]
          && rn == old(rn) + |c| && rk == old(rk) + 1 && received == old(received) + c
          && delivered == old(delivered) + c[..n] && y == old(y) && unchanged(owner)
      ensures wn == old(wn) && wk == old(wk)
    {
      var c := CheckForKill();
      if c.Err? {
        return 0, Some(c.error);
      }
      if rclosed {
        return 0, Some(EOF);
      }
      if buf == [] {
        var more;
        more, e := Refill(c.value);
        if !more {
          return 0, e;
        }
      }
      n := TakeBuffered(p);
      e := None;
    }

    /** The part of Read that waits for the next cargo when nothing is buffered. */
    method Refill(t: Tube) returns (more: bool, e: Option<Error>)
      requires Valid() && CheckForKill() == Ok(t) && buf == [] && !rclosed
      modifies Frame()
      ensures Valid() && t.sent == old(t.sent) && t.inbox == AfterDecode(old(t.closed), old(t.inbox))
      ensures var d := Decoded(old(t.closed), old(t.inbox), KCargo);
        && (d.Err? ==> !more && e == Some(d.error) && y.None? && finRuns == 1 && owner.KilledBy(d.error)
                       && buf == [] && received == old(received) && delivered == old(delivered)
                       && rn == old(rn) && rk == old(rk))
        && (d.Ok? && d.value.cargo == [] ==>
              !more && e == Some(EOF) && rclosed && y == old(y) && unchanged(owner)
              && buf == [] && rn == old(rn) && rk == old(rk))
        && (d.Ok? && d.value.cargo != [] ==>
              more && buf == d.value.cargo && !rclosed && y == old(y) && unchanged(owner)
              && rn == old(rn) + |buf| && rk == old(rk) + 1
              && received == old(received) + buf && delivered == old(delivered))
      ensures wn == old(wn) && wk == old(wk)
    {
      var d := t.Decode(KCargo);
      if d.Err? {
        var k := Kill(d.error);
        return false, Some(k);
      }
      var cargo := d.value.cargo;
      if cargo == [] {
        rclosed := true;
        return false, Some(EOF);
      }
      buf := buf + cargo;
      received := received + cargo;
      rn := rn + |cargo|;
      rk := rk + 1;
      more, e := true, None;
    }

    /** bytes.Buffer.Read into p: the oldest min(len(p), len(buf)) buffered bytes. */
    method TakeBuffered(p: array<byte>) returns (n: int)
      requires Valid()
      modifies this, p
      ensures Valid()
      ensures n == Min(p.Length, |old(buf)|) && p[..n] == old(buf)[..n] && p[n..] == old(p[n..])
      ensures buf == old(buf)[n..] && delivered == old(delivered) + old(buf)[..n]
      ensures received == old(received) && rn == old(rn) && rk == old(rk) && wn == old(wn) && wk == old(wk)
      ensures y == old(y) && armed == old(armed) && finRuns == old(finRuns) && rclosed == old(rclosed)
    {
      n := Min(p.Length, |buf|);
      forall i | 0 <= i < n {
        p[i] := buf[i];
      }
      assert buf == buf[..n] + buf[n..];
      delivered := delivered + buf[..n];
      buf := buf[n..];
    }

    /**
     * Close: closes the channel for good, sends the end-of-session cargo,
     * waits for the peer's next frame unless its end was already seen, and
     * hands the Conn back through the callback; a failed send or wait then
     * kills the Conn with that error. On a Conn that is already dead it
     * returns EIO, and on a closed channel EBADF, changing nothing else.
     */
    method Close() returns (e: Option<Error>)
      requires Valid()
      modifies Frame()
      ensures Valid() && y.None?
      ensures old(y).None? ==> e == Some(EBADF) && unchanged(this) && unchanged(owner)
      ensures old(y).Some? && old(owner.err).Some? ==>
        e == Some(EIO) && armed == old(armed) && finRuns == old(finRuns) && unchanged(owner)
      ensures old(y).Some? && old(owner.err).None? ==>
        var t := old(owner.tube).value;
        var sent := Encoded(old(t.closed), old(t.room));
        var ce := CloseErr(old(t.closed), old(t.room), old(t.inbox), old(rclosed));
        !armed && finRuns == 1 && owner.h.None? && e == ce
        && t.sent == (if sent.None? then old(t.sent) + [Cargo([])] else old(t.sent))
        && t.inbox == (if sent.None? && !old(rclosed) then AfterDecode(old(t.closed), old(t.inbox)) else old(t.inbox))
        && (ce.None? ==> owner.regime == Ready && owner.err.None? && owner.tube == old(owner.tube))
        && (ce.Some? ==> owner.KilledBy(ce.value))
    {
      if y.None? {
        return Some(EBADF);
      }
      var yc := y.value;
      y := None;
      var rc := rclosed;
      if yc.err.Some? {
        return Some(EIO);
      }
      var t := yc.tube.value;
      var err := t.Encode(Cargo([]));
      if err.None? && !rc {
        var d := t.Decode(KCargo);
        if d.Err? {
          err := Some(d.error);
        }
      }
      e := End(t, err);
    }

    /**
     * The end of Close: runs the callback, which hands the Conn back as
     * Ready, and then kills the Conn if the closing exchange failed.
     */
    method End(t: Tube, err: Option<Error>) returns (e: Option<Error>)
      requires Valid() && y.None? && armed && owner.err.None? && owner.tube == Some(t)
      modifies this, owner, t
      ensures Valid() && y.None? && !armed && finRuns == 1 && owner.h.None? && e == err
      ensures err.None? ==> owner.regime == Ready && owner.err.None? && owner.tube == old(owner.tube)
      ensures err.Some? ==> owner.KilledBy(err.value)
      ensures t.sent == old(t.sent) && t.inbox == old(t.inbox)
    {
      var yc := owner;
      var ff := armed;
      armed := false;
      if ff {
        finRuns := finRuns + 1;
        yc.FinishCall();
      }
      e := err;
      if err.Some? {
        var k := yc.Kill(err.value);
        e := Some(k);
      }
    }

    /**
     * handoff.Close exactly as written: when the end-of-session cargo
     * cannot be sent it returns h.kill(err), but y has just been cleared,
     * so kill answers EBADF and neither kills the Conn nor runs the
     * callback.
     */
    method CloseAsWritten() returns (e: Option<Error>)
      requires Valid()
      modifies Frame()
      ensures Valid() && y.None?
      ensures old(y).None? ==> e == Some(EBADF) && unchanged(this) && unchanged(owner)
      ensures old(y).Some? && old(owner.err).None? && Encoded(old(owner.tube.value.closed), old(owner.tube.value.room)).Some? ==>
        e == Some(EBADF) && armed == old(armed) && finRuns == old(finRuns) && unchanged(owner)
        && owner.tube.value.sent == old(owner.tube.value.sent)
      ensures old(y).Some? && old(owner.err).None? && Encoded(old(owner.tube.value.closed), old(owner.tube.value.room)).None? ==>
        !armed && finRuns == 1 && owner.h.None?
    {
      if y.None? {
        return Some(EBADF);
      }
      var yc := y.value;
      y := None;
      var rc := rclosed;
      if yc.err.Some? {
        return Some(EIO);
      }
      var t := yc.tube.value;
      var err := t.Encode(Cargo([]));
      if err.Some? {
        var k := Kill(err.value);
        return Some(k);
      }
      if !rc {
        var d := t.Decode(KCargo);
        if d.Err? {
          err := Some(d.error);
        }
      }
      e := End(t, err);
    }
  }

  /** The error Close ends with on an open channel: the send's, else the wait's, else none. */
  function CloseErr(closed: bool, room: nat, inbox: seq<Msg>, rclosed: bool): (r: Option<Error>)
    ensures Encoded(closed, room).Some? ==> r == Encoded(closed, room)
    ensures Encoded(closed, room).None? && rclosed ==> r.None?
    ensures Encoded(closed, room).None? && !rclosed ==>
      (r.None? <==> Decoded(closed, inbox, KCargo).Ok?)
  {
    var enc := Encoded(closed, room);
    if enc.Some? then enc
    else if rclosed then None
    else
      var d := Decoded(closed, inbox, KCargo);
      if d.Err? then Some(d.error) else None
  }

  /**
   * What handoff.Close as written leaves when the peer takes no more
   * input: the channel is closed, yet its Conn stays Busy with no error,
   * and since every later Close or kill on the channel answers EBADF, the
   * callback that would hand the Conn back never runs.
   */
  method StrandedByClose(hh: Handoff) returns (e1: Option<Error>, e2: Option<Error>, e3: Error)
    requires hh.Valid() && hh.y.Some? && hh.owner.err.None? && hh.owner.tube.value.room == 0
    modifies hh.Frame()
    ensures e1 == e2 == Some(EBADF) && e3 == EBADF
    ensures hh.y.None? && hh.armed && hh.finRuns == 0
    ensures hh.owner.regime == Busy && hh.owner.err.None? && hh.owner.h == old(hh.owner.h)
  {
    e1 := hh.CloseAsWritten();
    e2 := hh.Close();
    e3 := hh.Kill(EOF);
  }
}
