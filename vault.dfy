// The vault (vault/vault.go): a peer's web server, reachable through the
// overlay as http://<id>.5ttt.org/. A request for the own id is served from
// the home directory; any other is forwarded, hop by hop, towards its
// target. The Vault-Hop header counts the hops a message has travelled, and
// a vault refuses to forward a request that has travelled more than
// MaxHops. The compass's routes, the dialer's connections, the peer's
// answer and the home directory are parameters of a call.
module Vault {
  import opened Base
  import Sys
  import GoStrings
  import GoPath
  import opened VaultHttp

  /** maxHops. */
  const MaxHops: int := 10

  const BadRequestErr: Error := Failure("bad request")
  const TooManyHops: Error := Failure("too many hops")
  const NoRoute: Error := Failure("no route to destination")
  const Unavailable: Error := Failure("service unavailable")
  const NotFoundErr: Error := Failure("not found")

  /** hop+1 on Go's 32-bit int: it wraps around past 2^31 - 1. */
  function Succ(h: int): (r: i32)
    requires 0 <= h < TWO_31
    ensures h < TWO_31 - 1 ==> r == h + 1
    ensures h == TWO_31 - 1 ==> r < 0
  {
    if h + 1 == TWO_31 then -TWO_31 else h + 1
  }

  /**
   * The overlay as one call sees it: the next hop the compass proposes from
   * a source towards a target (QueryQuantize), the next hops the dialer
   * reaches, and the response each of them returns to a forwarded request.
   */
  datatype Net = Net(route: (Sys.Id, Sys.Id) -> Option<Sys.Id>, dials: set<Sys.Id>, fetch: Sys.Id -> Option<Reply>)

  /**
   * The home directory as one call sees it: the regular files in it, whether
   * a file descriptor frees up before the timeout, and the files that open.
   */
  datatype Disk = Disk(files: set<string>, fdFree: bool, opens: set<string>)

  // ----- local service -----

  /** serveLocal's file name: the cleaned path without its leading '/', index.html for the root. */
  function LocalName(p: string): string
  {
    var c := GoPath.Clean(p);
    var f := if |c| > 0 && c[0] == '/' then c[1..] else c;
    if f == "" then "index.html" else f
  }

  /**
   * serveLocal: the file, or "No index.html" without an error when the
   * missing file is index.html, 404 with "not found" for any other missing
   * file, and 503 when no descriptor frees up or the file does not open.
   */
  function Local(hdir: string, fpath: string, disk: Disk): (Reply, Option<Error>)
  {
    var f := LocalName(fpath);
    var full := GoPath.Join(hdir, f);
    if full !in disk.files then
      if f == "index.html" then (NoIndexHTML(), None) else (NotFound(), Some(NotFoundErr))
    else if !disk.fdFree || full !in disk.opens then (ServiceUnavailable(), Some(Unavailable))
    else (Built(File(full)), None)
  }

  /** A rooted request path names a file under the home directory: no "." or ".." survives cleaning. */
  lemma LocalNameRooted(p: string)
    requires p != "" && p[0] == '/'
    ensures var st := GoPath.Resolve([], GoPath.Elements(p), true);
      && LocalName(p) == (if st == [] then "index.html" else GoStrings.Join(st, '/'))
      && forall e | e in st :: GoPath.IsElem(e) && e != ".." && e != "."
  {
    var st := GoPath.Resolve([], GoPath.Elements(p), true);
    GoPath.CleanRootedNoParent(p);
    GoPath.JoinHead(st);
    var j := GoStrings.Join(st, '/');
    assert ("/" + j)[1..] == j;
  }

  /** serveLocal cleans the path parseURL already cleaned; the second cleaning changes nothing. */
  lemma LocalNameOfCleaned(p: string)
    ensures LocalName(GoPath.Clean(p)) == LocalName(p)
  {
    GoPath.CleanIdempotent(p);
  }

  /** The site's root is its index page. */
  lemma RootIsIndex()
    ensures LocalName("/") == "index.html"
  {
    assert GoPath.Elements("/") == [];
  }

  lemma IndexIsIndex()
    ensures LocalName("/index.html") == "index.html"
  {
    var e := "index.html";
    IndexElements();
    GoPath.ResolveIdle([], [e], true);
    assert [] + [e] == [e];
    assert GoStrings.Join([e], '/') == e;
    assert GoPath.Clean("/" + e) == "/" + e;
  }

  lemma IndexElements()
    ensures GoPath.Elements("/index.html") == ["index.html"]
  {
    var e := "index.html";
    assert GoPath.IsElem(e);
    GoPath.ElementsJoin([e]);
    assert GoStrings.Join([e], '/') == e;
    assert ("/" + e)[1..] == e;
  }

  /** The root and /index.html are the same file; when it is missing the answer is the "No index.html" notice, not an error. */
  lemma LocalIndex(hdir: string, disk: Disk)
    ensures Local(hdir, "/", disk) == Local(hdir, "/index.html", disk)
    ensures GoPath.Join(hdir, "index.html") !in disk.files ==> Local(hdir, "/", disk) == (NoIndexHTML(), None)
  {
    RootIsIndex();
    IndexIsIndex();
  }

  // ----- hop counts -----

  /** A message received from a neighbour, or a response received from the next hop: one more hop, or 0 when the count is missing or bad. */
  function Counted(h: Header): Header
  {
    var p := ParseHop(h);
    Some(WithHop(h, if p.1.None? then Succ(p.0) else 0))
  }

  /** The header of a request a vault's own user sends: hop 0 and the own id as origin. */
  function Sent(h: Header, id: Sys.Id): Header
  {
    Some(WithOrigin(Some(WithHop(h, 0)), id))
  }

  /** A header after k rewrites by step. */
  function Iterate(step: Header -> Header, start: Header, k: nat): Header
    decreases k
  {
    if k == 0 then start else Iterate(step, step(start), k - 1)
  }

  /** A header after k arrivals, each counting one more hop. */
  function AfterHops(start: Header, k: nat): Header
  {
    Iterate(Counted, start, k)
  }

  /** Stamping the origin or the version leaves the hop count alone. */
  lemma StampKeepsHop(h: Header, id: Sys.Id, proto: string)
    ensures ParseHop(Some(WithOrigin(h, id))) == ParseHop(h)
    ensures ParseHop(Some(WithVersion(h, proto))) == ParseHop(h)
  {
  }

  /** Counting adds one to a valid hop count below the int's maximum. */
  lemma CountIncrements(h: Header, n: int)
    requires ParseHop(h) == (n, None) && n < TWO_31 - 1
    ensures ParseHop(Counted(h)) == (n + 1, None)
  {
    assert Counted(h) == Some(WithHop(h, n + 1));
    HopRoundTrip(h, n + 1);
  }

  /** Counting restarts a missing or bad hop count at 0. */
  lemma CountResets(h: Header)
    requires ParseHop(h).1.Some?
    ensures ParseHop(Counted(h)) == (0, None)
  {
    assert Counted(h) == Some(WithHop(h, 0));
    HopRoundTrip(h, 0);
  }

  /** Counting past the int's maximum wraps to a negative count, which reads back as invalid. */
  lemma CountWraps(h: Header)
    requires ParseHop(h) == (TWO_31 - 1, None)
    ensures ParseHop(Counted(h)) == (-1, Some(InvalidHop))
  {
    assert Counted(h) == Some(WithHop(h, -TWO_31));
    NegativeHopRejected(h, -TWO_31);
  }

  /** A request leaves its origin with hop 0. */
  lemma SentHop(h: Header, id: Sys.Id)
    ensures ParseHop(Sent(h, id)) == (0, None)
  {
    HopRoundTrip(h, 0);
    StampKeepsHop(Some(WithHop(h, 0)), id, "");
  }

  /** Counting adds one to every valid hop count below the int's maximum. */
  lemma CountsOne()
    ensures forall h | ParseHop(h).1.None? && ParseHop(h).0 < TWO_31 - 1 :: ParseHop(Counted(h)) == (ParseHop(h).0 + 1, None)
  {
    forall h | ParseHop(h).1.None? && ParseHop(h).0 < TWO_31 - 1
      ensures ParseHop(Counted(h)) == (ParseHop(h).0 + 1, None)
    {
      CountIncrements(h, ParseHop(h).0);
    }
  }

  /** k rewrites by a step that adds one to a valid count add k to it. */
  lemma {:induction false} IterateCounts(step: Header -> Header, count: Header -> (int, Option<Error>), start: Header, n: int, k: nat)
    requires forall h | count(h).1.None? && count(h).0 < TWO_31 - 1 :: count(step(h)) == (count(h).0 + 1, None)
    requires count(start) == (n, None)
    requires n + k < TWO_31 - 1
    ensures count(Iterate(step, start, k)) == (n + k, None)
    decreases k
  {
    if k > 0 {
      IterateCounts(step, count, step(start), n + 1, k - 1);
    }
  }

  /** Each of k arrivals counts one hop: a request that left its origin with hop 0 has count k at the k-th vault beyond it. */
  lemma HopsCounted(start: Header, n: int, k: nat)
    requires ParseHop(start) == (n, None)
    requires n + k < TWO_31 - 1
    ensures ParseHop(AfterHops(start, k)) == (n + k, None)
  {
    CountsOne();
    IterateCounts(Counted, ParseHop, start, n, k);
  }

  // ----- forwarding -----

  /** The id on whose behalf a request travels: its Vault-Origin, or the own id when that is missing or bad. */
  function Source(id: Sys.Id, h: Header): Sys.Id
  {
    var o := ParseOrigin(h);
    if o.1.Some? then id else o.0
  }

  /**
   * What a vault does with the response a next hop returned: stamp its
   * version, count one more hop, and replace a status it does not
   * understand by a notice.
   */
  function Relayed(r: Reply, proto: string): Reply
  {
    if StatusCodeSupported(r.statusCode) then r.(header := Counted(Some(WithVersion(r.header, proto)))) else Unsupported()
  }

  /** A request answered here: the local answer, stamped with hop 0 when it is not an error. */
  function Answered(hdir: string, fpath: string, disk: Disk): (Reply, Option<Error>)
  {
    var l := Local(hdir, fpath, disk);
    (if l.1.None? then l.0.(header := Some(WithHop(l.0.header, 0))) else l.0, l.1)
  }

  /**
   * A request for another peer: refused when its hop count is missing, bad
   * or above MaxHops, when the compass knows no next hop from its source,
   * when the vault is shut down or the next hop cannot be dialed, or when
   * the next hop does not answer; otherwise the relayed answer. The third
   * component is the request header as it is left, and as it is sent.
   */
  function Forwarded(id: Sys.Id, healthy: bool, proto: string, hdr: Header, tid: Sys.Id, net: Net): (Reply, Option<Error>, Header)
  {
    var hop := ParseHop(hdr);
    if hop.1.Some? || hop.0 > MaxHops then (ServiceUnavailable(), Some(TooManyHops), hdr)
    else
      match net.route(Source(id, hdr), tid)
      case None => (ServiceUnavailable(), Some(NoRoute), hdr)
      case Some(next) =>
        if !healthy || next !in net.dials then (ServiceUnavailable(), Some(Unavailable), hdr)
        else Fetched(proto, hdr, next, net)
  }

  /** The exchange with a dialed next hop: the request goes out with the version stamped, and the answer is relayed. */
  function Fetched(proto: string, hdr: Header, next: Sys.Id, net: Net): (Reply, Option<Error>, Header)
  {
    var sent := Some(WithVersion(hdr, proto));
    match net.fetch(next)
    case None => (ServiceUnavailable(), Some(Unavailable), sent)
    case Some(r) => (Relayed(r, proto), None, sent)
  }

  /** serve: 400 for a URL that names no peer, the local answer for the own id, a forward for any other. */
  function Served(id: Sys.Id, hdir: string, healthy: bool, proto: string, hdr: Header,
                  host: string, path: string, query: string, net: Net, disk: Disk): (Reply, Option<Error>, Header)
  {
    match ParseURL(host, path, query)
    case Err(_) => (BadRequest(), Some(BadRequestErr), hdr)
    case Ok((tid, fpath, _)) =>
      if tid == id then
        var a := Answered(hdir, fpath, disk);
        (a.0, a.1, hdr)
      else Forwarded(id, healthy, proto, hdr, tid, net)
  }

  /** Serve: a request of the vault's own user leaves with hop 0 and the own id as origin, and its answer loses its Vault-* headers. */
  function Mine(id: Sys.Id, hdir: string, healthy: bool, proto: string, hdr: Header,
                host: string, path: string, query: string, net: Net, disk: Disk): (Reply, Option<Error>, Header)
  {
    var s := Served(id, hdir, healthy, proto, Sent(hdr, id), host, path, query, net, disk);
    (s.0.(header := Sanitized(s.0.header)), s.1, s.2)
  }

  /** serveOnBehalf: a request a neighbour relayed is counted one hop further, and its answer carries the version. */
  function OnBehalf(id: Sys.Id, hdir: string, healthy: bool, proto: string, hdr: Header,
                    host: string, path: string, query: string, net: Net, disk: Disk): (Reply, Option<Error>, Header)
  {
    var s := Served(id, hdir, healthy, proto, Counted(hdr), host, path, query, net, disk);
    (s.0.(header := Some(WithVersion(s.0.header, proto))), s.1, s.2)
  }

  /** A request for another peer is refused as "too many hops" exactly when its count is missing, bad, or above MaxHops. */
  lemma TooManyHopsExactly(id: Sys.Id, healthy: bool, proto: string, hdr: Header, tid: Sys.Id, net: Net)
    ensures Forwarded(id, healthy, proto, hdr, tid, net).1 == Some(TooManyHops)
      <==> ParseHop(hdr).1.Some? || ParseHop(hdr).0 > MaxHops
  {
  }

  /**
   * The bound the hop count puts on forwarding: a request its origin sent
   * is still forwarded by the vault it reaches after MaxHops arrivals, and
   * refused by every vault after that.
   */
  lemma ForwardingBound(h: Header, origin: Sys.Id, k: nat, id: Sys.Id, healthy: bool, proto: string, tid: Sys.Id, net: Net)
    requires k < TWO_31 - 1
    ensures Forwarded(id, healthy, proto, AfterHops(Sent(h, origin), k), tid, net).1 == Some(TooManyHops) <==> k > MaxHops
  {
    SentHop(h, origin);
    HopsCounted(Sent(h, origin), 0, k);
    TooManyHopsExactly(id, healthy, proto, AfterHops(Sent(h, origin), k), tid, net);
  }

  /** A request for a peer is forwarded by the route the compass gives from its origin, or from this vault when no origin is stamped. */
  lemma SourceDefault(id: Sys.Id, h: Header, origin: Sys.Id)
    ensures OriginKey !in Entries(h) ==> Source(id, h) == id
    ensures Source(id, Some(WithOrigin(h, origin))) == origin
  {
    OriginRoundTrip(h, origin);
  }

  /** A relayed response of a status the vault understands keeps status and body and counts one more hop; any other becomes the notice. */
  lemma RelayedHop(r: Reply, proto: string)
    ensures !StatusCodeSupported(r.statusCode) ==> Relayed(r, proto) == Unsupported()
    ensures StatusCodeSupported(r.statusCode) ==>
      && Relayed(r, proto).statusCode == r.statusCode && Relayed(r, proto).body == r.body
      && (ParseHop(r.header).1.None? && ParseHop(r.header).0 < TWO_31 - 1 ==> ParseHop(Relayed(r, proto).header) == (ParseHop(r.header).0 + 1, None))
      && (ParseHop(r.header).1.Some? ==> ParseHop(Relayed(r, proto).header) == (0, None))
  {
    var v := Some(WithVersion(r.header, proto));
    StampKeepsHop(r.header, 0, proto);
    if ParseHop(v).1.None? && ParseHop(v).0 < TWO_31 - 1 {
      CountIncrements(v, ParseHop(v).0);
    } else if ParseHop(v).1.Some? {
      CountResets(v);
    }
  }

  /** Whatever a next hop answers, the relayed status is one the vault understands. */
  lemma RelayedSupported(r: Reply, proto: string)
    ensures StatusCodeSupported(Relayed(r, proto).statusCode)
  {
  }

  /** A request for this vault is answered locally, with hop 0 on success, and forwards nothing. */
  lemma LocalAnswer(id: Sys.Id, hdir: string, healthy: bool, proto: string, hdr: Header,
                    path: string, query: string, net: Net, disk: Disk)
    ensures var s := Served(id, hdir, healthy, proto, hdr, Sys.MakeHost("", id), path, query, net, disk);
      var (r, err) := Local(hdir, GoPath.Clean(path), disk);
      && s.1 == err && s.2 == hdr
      && (err.None? ==> s.0 == r.(header := Some(WithHop(r.header, 0))) && ParseHop(s.0.header) == (0, None))
      && (err.Some? ==> s.0 == r)
  {
    ParseURLOwnHost(id, path, query);
    var (r, err) := Local(hdir, GoPath.Clean(path), disk);
    HopRoundTrip(r.header, 0);
  }

  /** The vault: its id, its home directory, its protocol version, and whether its dialer is still there. */
  class Vault0 {
    const id: Sys.Id
    const hdir: string
    const proto: string
    var healthy: bool

    /** MakeVault0 once its directories are checked. */
    constructor (id: Sys.Id, hdir: string, proto: string)
      ensures this.id == id && this.hdir == hdir && this.proto == proto && healthy
    {
      this.id := id;
      this.hdir := hdir;
      this.proto := proto;
      healthy := true;
    }

    /** ShutDown: the dialer is dropped, so nothing is forwarded any more. */
    method ShutDown()
      modifies this
      ensures !healthy
    {
      healthy := false;
    }

    /** serveLocal. */
    method ServeLocal(fpath: string, query: string, disk: Disk) returns (resp: Response, err: Option<Error>)
      ensures fresh(resp)
      ensures (resp.Snap(), err) == Local(hdir, fpath, disk)
    {
      var f := GoPath.Clean(fpath);
      if |f| > 0 && f[0] == '/' {
        f := f[1..];
      }
      if f == "" {
        f := "index.html";
      }
      var full := GoPath.Join(hdir, f);
      if full !in disk.files {
        if f == "index.html" {
          resp := new Response(NoIndexHTML());
          err := None;
        } else {
          resp := new Response(NotFound());
          err := Some(NotFoundErr);
        }
        return;
      }
      if disk.fdFree && full in disk.opens {
        resp := new Response(Built(File(full)));
        err := None;
      } else {
        resp := new Response(ServiceUnavailable());
        err := Some(Unavailable);
      }
    }

    /** The forwarding half of serve, for a request whose target tid is another peer. */
    method Forward(req: Request, tid: Sys.Id, net: Net) returns (resp: Response, err: Option<Error>)
      modifies req
      ensures fresh(resp)
      ensures (resp.Snap(), err, req.header) == Forwarded(id, healthy, proto, old(req.header), tid, net)
    {
      var hop := ParseHop(req.header);
      if hop.1.Some? || hop.0 > MaxHops {
        resp := new Response(ServiceUnavailable());
        err := Some(TooManyHops);
        return;
      }
      var origin := ParseOrigin(req.header);
      var sid := if origin.1.Some? then id else origin.0;
      var next := net.route(sid, tid);
      if next.None? {
        resp := new Response(ServiceUnavailable());
        err := Some(NoRoute);
        return;
      }
      if !healthy || next.value !in net.dials {
        resp := new Response(ServiceUnavailable());
        err := Some(Unavailable);
        return;
      }
      resp, err := Fetch(req, next.value, net);
    }

    /** The pre-fetch, fetch and post-fetch steps of serve. */
    method Fetch(req: Request, next: Sys.Id, net: Net) returns (resp: Response, err: Option<Error>)
      modifies req
      ensures fresh(resp)
      ensures (resp.Snap(), err, req.header) == Fetched(proto, old(req.header), next, net)
    {
      req.SetVersion(proto);
      var fetched := net.fetch(next);
      if fetched.None? {
        resp := new Response(ServiceUnavailable());
        err := Some(Unavailable);
        return;
      }
      resp := new Response(fetched.value);
      Returned(resp, proto);
      if !StatusCodeSupported(resp.statusCode) {
        resp := new Response(Unsupported());
      }
      err := None;
    }

    /** serve. */
    method ServeReq(req: Request, net: Net, disk: Disk) returns (resp: Response, err: Option<Error>)
      modifies req
      ensures fresh(resp)
      ensures (resp.Snap(), err, req.header) == Served(id, hdir, healthy, proto, old(req.header), req.host, req.path, req.rawQuery, net, disk)
    {
      var u := ParseURL(req.host, req.path, req.rawQuery);
      if u.Err? {
        resp := new Response(BadRequest());
        err := Some(BadRequestErr);
        return;
      }
      var tid := u.value.0;
      if tid == id {
        resp, err := Answer(u.value.1, u.value.2, disk);
        return;
      }
      resp, err := Forward(req, tid, net);
    }

    /** The local answer to a request for the own id, stamped with hop 0 when it succeeds. */
    method Answer(fpath: string, query: string, disk: Disk) returns (resp: Response, err: Option<Error>)
      ensures fresh(resp)
      ensures (resp.Snap(), err) == Answered(hdir, fpath, disk)
    {
      resp, err := ServeLocal(fpath, query, disk);
      if err.None? {
        resp.SetHop(0);
      }
    }

    /** Serve: a request of the vault's own user, sent with hop 0 and the own id as origin; the answer loses its Vault-* headers. */
    method Serve(req: Request, net: Net, disk: Disk) returns (resp: Response, err: Option<Error>)
      modifies req
      ensures fresh(resp)
      ensures (resp.Snap(), err, req.header) == Mine(id, hdir, healthy, proto, old(req.header), req.host, req.path, req.rawQuery, net, disk)
    {
      req.SetHop(0);
      req.SetOrigin(id);
      resp, err := ServeReq(req, net, disk);
      resp.Sanitize();
    }

    /** The return of a response from the next hop: it gets this vault's version, and its hop count goes up by one or restarts at 0. */
    static method Returned(resp: Response, proto: string)
      modifies resp
      ensures resp.Snap() == old(resp.Snap()).(header := Counted(Some(WithVersion(old(resp.header), proto))))
    {
      resp.SetVersion(proto);
      var hop := ParseHop(resp.header);
      if hop.1.None? {
        resp.SetHop(Succ(hop.0));
      } else {
        resp.SetHop(0);
      }
    }

    /** The arrival of a request from a neighbour: its hop count goes up by one, or restarts at 0 when missing or bad. */
    static method Arrive(req: Request)
      modifies req
      ensures req.header == Counted(old(req.header))
    {
      var hop := ParseHop(req.header);
      if hop.1.None? {
        req.SetHop(Succ(hop.0));
      } else {
        req.SetHop(0);
      }
    }

    /** serveOnBehalf: a request a neighbour relayed, counted one hop further; the answer carries the version. */
    method ServeOnBehalf(req: Request, net: Net, disk: Disk) returns (resp: Response, err: Option<Error>)
      modifies req
      ensures fresh(resp)
      ensures (resp.Snap(), err, req.header) == OnBehalf(id, hdir, healthy, proto, old(req.header), req.host, req.path, req.rawQuery, net, disk)
    {
      Arrive(req);
      resp, err := ServeReq(req, net, disk);
      ghost var s := resp.Snap();
      resp.SetVersion(proto);
      assert resp.Snap() == s.(header := Some(WithVersion(s.header, proto)));
    }
  }
}
