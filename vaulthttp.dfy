// The vault's HTTP plumbing (vault/httputil.go): the Vault-* headers a
// vault stamps on the requests and responses it relays, their parsers, the
// request URL parser, and the canned responses. A header map is None while
// Go's map is nil.
module VaultHttp {
  import opened Base
  import Sys
  import Eye64
  import GoStrings
  import GoStrconv
  import GoPath
  import FeReqType

  type Header = Option<map<string, string>>

  const BuildKey: string := "Vault-Build"
  const ProtoKey: string := "Vault-Proto"
  const HopKey: string := "Vault-Hop"
  const OriginKey: string := "Vault-Origin"

  /** The headers a vault adds and sanitizeResp removes. */
  const VaultKeys: set<string> := {BuildKey, ProtoKey, HopKey, OriginKey}

  const MissingHop: Error := Failure("missing hop")
  const InvalidHop: Error := Failure("invalid hop")

  /** The entries of a header, none for a nil one. */
  function Entries(h: Header): map<string, string>
  {
    if h.None? then map[] else h.value
  }

  /** header[key] = value, with the header made first when it is nil. */
  function Put(h: Header, key: string, value: string): (r: map<string, string>)
    ensures key in r && r[key] == value
  {
    Entries(h)[key := value]
  }

  // ----- hops -----

  /**
   * parseHop: the hop count of a header, and -1 with an error when the
   * header is nil, holds no Vault-Hop, holds no decimal int, or holds a
   * negative one.
   */
  function ParseHop(h: Header): (r: (int, Option<Error>))
    ensures r.1.Some? ==> r.0 == -1
    ensures (h.None? || HopKey !in h.value) ==> r.1 == Some(MissingHop)
    ensures r.1.None? <==> HopKey in Entries(h) && GoStrconv.Atoi(Entries(h)[HopKey]).Ok? && GoStrconv.Atoi(Entries(h)[HopKey]).value >= 0
    ensures r.1.None? ==> r.0 == GoStrconv.Atoi(Entries(h)[HopKey]).value && 0 <= r.0 < TWO_31
  {
    if h.None? || HopKey !in h.value then (-1, Some(MissingHop))
    else
      var a := GoStrconv.Atoi(h.value[HopKey]);
      GoStrconv.AtoiAccepts(h.value[HopKey]);
      match a
      case Err(e) => (-1, Some(e))
      case Ok(v) => if v < 0 then (-1, Some(InvalidHop)) else (v, None)
  }

  /** setReqHop/setRespHop: Vault-Hop is the decimal form of h. */
  function WithHop(h: Header, hop: i32): map<string, string>
  {
    Put(h, HopKey, GoStrconv.Itoa(hop))
  }

  /** parseHop reads back any hop count set on any header. */
  lemma HopRoundTrip(h: Header, hop: i32)
    requires hop >= 0
    ensures ParseHop(Some(WithHop(h, hop))) == (hop, None)
  {
    GoStrconv.AtoiItoa(hop);
  }

  /** A negative hop count that was set reads back as "invalid hop". */
  lemma NegativeHopRejected(h: Header, hop: i32)
    requires hop < 0
    ensures ParseHop(Some(WithHop(h, hop))) == (-1, Some(InvalidHop))
  {
    GoStrconv.AtoiItoa(hop);
  }

  // ----- version and sanitizing -----

  /** set*Version: Vault-Build is the build number and Vault-Proto the protocol version. */
  function WithVersion(h: Header, proto: string): (r: map<string, string>)
    ensures BuildKey in r && r[BuildKey] == Sys.Build
    ensures ProtoKey in r && r[ProtoKey] == proto
    ensures forall k | k != BuildKey && k != ProtoKey :: (k in r <==> k in Entries(h)) && (k in r ==> r[k] == Entries(h)[k])
  {
    Put(Some(Put(h, BuildKey, Sys.Build)), ProtoKey, proto)
  }

  /** sanitizeResp: the header without its Vault-* entries; a nil header stays nil. */
  function Sanitized(h: Header): (r: Header)
    ensures r.None? <==> h.None?
    ensures r.Some? ==> forall k :: k in r.value <==> k in h.value && k !in VaultKeys
    ensures r.Some? ==> forall k | k in r.value :: r.value[k] == h.value[k]
  {
    if h.None? then None else Some(h.value - VaultKeys)
  }

  /** Whatever Vault-* entry a vault stamped, sanitizing takes it away again and leaves the rest. */
  lemma SanitizeUndoesStamp(h: Header, key: string, value: string)
    requires key in VaultKeys
    ensures Sanitized(Some(Put(h, key, value))) == Some(Entries(h) - VaultKeys)
  {
    var l := Sanitized(Some(Put(h, key, value))).value;
    var m := Entries(h) - VaultKeys;
    assert forall k :: k in l <==> k in m;
    assert l == m;
  }

  // ----- origin -----

  /** unicode.IsSpace: the Latin-1 spaces and the Unicode White_Space characters. */
  predicate IsSpace(c: char)
  {
    || c == '\t' || c == '\n' || c == '\U{0B}' || c == '\U{0C}' || c == '\r' || c == ' '
    || c == '\U{85}' || c == '\U{A0}' || c == '\U{1680}' || c == '\U{180E}'
    || ('\U{2000}' <= c <= '\U{200A}')
    || c == '\U{2028}' || c == '\U{2029}' || c == '\U{202F}' || c == '\U{205F}' || c == '\U{3000}'
  }

  /** s without its leading spaces. */
  function TrimLeft(s: string): (r: string)
    ensures |r| <= |s| && r == s[|s| - |r|..]
    ensures r == [] || !IsSpace(r[0])
    ensures forall i | 0 <= i < |s| - |r| :: IsSpace(s[i])
  {
    if s != [] && IsSpace(s[0]) then TrimLeft(s[1..]) else s
  }

  /** s without its trailing spaces. */
  function TrimRight(s: string): (r: string)
    ensures |r| <= |s| && r == s[..|r|]
    ensures r == [] || !IsSpace(r[|r| - 1])
    ensures forall i | |r| <= i < |s| :: IsSpace(s[i])
  {
    if s != [] && IsSpace(s[|s| - 1]) then TrimRight(s[..|s| - 1]) else s
  }

  /** strings.TrimSpace. */
  function TrimSpace(s: string): string
  {
    TrimRight(TrimLeft(s))
  }

  /** setOrigin: Vault-Origin is the id's Eyeball-64 name. */
  function WithOrigin(h: Header, id: Sys.Id): map<string, string>
  {
    Put(h, OriginKey, Sys.IdEye(id))
  }

  /**
   * parseOrigin: the id named by Vault-Origin, spaces around it ignored;
   * EINVAL, beside id 0, for a nil header, no Vault-Origin or a bad name.
   */
  function ParseOrigin(h: Header): (r: (Sys.Id, Option<Error>))
    ensures r.1.Some? ==> r == (0, Some(EINVAL))
    ensures r.1.None? <==> OriginKey in Entries(h) && Eye64.Decode(TrimSpace(Entries(h)[OriginKey])).err.None?
    ensures r.1.None? ==> r.0 == Eye64.Decode(TrimSpace(Entries(h)[OriginKey])).n
  {
    if h.None? || OriginKey !in h.value then (0, Some(EINVAL))
    else
      var d := Eye64.Decode(TrimSpace(h.value[OriginKey]));
      if d.err.Some? then (0, Some(EINVAL)) else (d.n, None)
  }

  /** parseOrigin inverts setOrigin. */
  lemma OriginRoundTrip(h: Header, id: Sys.Id)
    ensures ParseOrigin(Some(WithOrigin(h, id))) == (id, None)
  {
    var e := Sys.IdEye(id);
    var h2 := Some(WithOrigin(h, id));
    assert OriginKey in Entries(h2) && Entries(h2)[OriginKey] == e;
    assert TrimSpace(e) == e by {
      Sys.EyeChars(id);
      TrimPlain(e);
    }
    assert Eye64.Decode(e).err.None? && Eye64.Decode(e).n == id by {
      Sys.ParseIdEye(id);
    }
  }

  /** TrimSpace leaves alone a string of characters between '2' and 'z'. */
  lemma TrimPlain(e: string)
    requires forall i | 0 <= i < |e| :: '2' <= e[i] <= 'z'
    ensures TrimSpace(e) == e
  {
    if e != [] {
      PlainNotSpace(e[0]);
      PlainNotSpace(e[|e| - 1]);
    }
  }

  lemma PlainNotSpace(c: char)
    requires '2' <= c <= 'z'
    ensures !IsSpace(c)
  {
  }

  // ----- request URLs -----

  /**
   * parseURL: the target id from a host <id>.5ttt.org of exactly three
   * labels, the cleaned path and the raw query; EINVAL for any other host.
   */
  function ParseURL(host: string, path: string, query: string): (r: Result<(Sys.Id, string, string)>)
    ensures var ls := GoStrings.Split(host, '.');
      r.Ok? <==> |ls| == 3 && ls[1] == Sys.Host1 && ls[2] == Sys.Host0 && Sys.ParseId(ls[0]).1.None?
    ensures r.Ok? ==> r.value == (Sys.ParseId(GoStrings.Split(host, '.')[0]).0, GoPath.Clean(path), query)
    ensures r.Err? ==> r.error == EINVAL
  {
    var parts := FeReqType.ReverseHost(host);
    if |parts| != 3 || parts[0] != Sys.Host0 || parts[1] != Sys.Host1 then Err(EINVAL)
    else
      var (tid, err) := Sys.ParseId(parts[2]);
      if err.Some? then Err(EINVAL) else Ok((tid, GoPath.Clean(path), query))
  }

  /** The host of a peer, <id>.5ttt.org, parses to that peer's id. */
  lemma ParseURLOwnHost(id: Sys.Id, path: string, query: string)
    ensures ParseURL(Sys.MakeHost("", id), path, query) == Ok((id, GoPath.Clean(path), query))
  {
    Sys.MakeHostLabels("", id);
    Sys.ParseIdEye(id);
  }

  /** A prefixed host such as a.<id>.5ttt.org has four labels and is refused. */
  lemma ParseURLPrefixedHost(prefix: string, id: Sys.Id, path: string, query: string)
    requires prefix != "" && '.' !in prefix
    ensures ParseURL(Sys.MakeHost(prefix, id), path, query) == Err(EINVAL)
  {
    Sys.MakeHostLabels(prefix, id);
  }

  // ----- responses -----

  /** The body of a response: none, a page in memory, a file of the home directory, or what a peer sent. */
  datatype Body = NoBody | Html(text: string) | File(path: string) | Relayed(data: seq<byte>)

  /** The fields of a response the vault reads or sets. */
  datatype Reply = Reply(status: string, statusCode: int, header: Header, body: Body)

  /** The HTML of the canned error pages. */
  function ErrorPage(title: string): string
  {
    "<html>" + "<head><title>" + title + "</title></head>\n" + "<body bgcolor=\"white\">\n"
    + "<center><h1>" + title + "</h1></center>\n" + "<hr><center>" + Sys.Name + " Front End</center>\n"
    + "</body></html>"
  }

  /** newRespServiceUnavailable. */
  function ServiceUnavailable(): Reply
  {
    Reply("Service Unavailable", 503, None, Html(ErrorPage("503 Service Unavailable")))
  }

  /** newRespNotFound. */
  function NotFound(): Reply
  {
    Reply("Resource Not Found", 404, None, Html(ErrorPage("404 Resource Not Found")))
  }

  /** newRespBadRequest. */
  function BadRequest(): Reply
  {
    Reply("Bad Request", 400, None, Html(ErrorPage("400 Bad Request")))
  }

  /** buildResp and buildRespFromBody: a 200 OK without headers around the given body. */
  function Built(body: Body): Reply
  {
    Reply("OK", 200, None, body)
  }

  /** newRespUnsupported. */
  function Unsupported(): Reply
  {
    Built(Html("Your friend uses a newer (unsupported) software. Please update."))
  }

  /** newRespNoIndexHTML. */
  function NoIndexHTML(): Reply
  {
    Built(Html("No index.html file is present."))
  }

  /** statusCodeSupported: the codes a vault itself produces. */
  predicate StatusCodeSupported(code: int)
  {
    code == 200 || code == 400 || code == 404 || code == 503
  }

  /** Every response a vault makes has a status its peers understand. */
  lemma CannedSupported()
    ensures StatusCodeSupported(ServiceUnavailable().statusCode) && StatusCodeSupported(NotFound().statusCode)
    ensures StatusCodeSupported(BadRequest().statusCode) && StatusCodeSupported(Unsupported().statusCode)
    ensures StatusCodeSupported(NoIndexHTML().statusCode)
    ensures forall b :: StatusCodeSupported(Built(b).statusCode)
    ensures !StatusCodeSupported(201) && !StatusCodeSupported(500)
  {
  }

  /** An HTTP request: the vault only rewrites its header. */
  class Request {
    var header: Header
    const host: string
    const path: string
    const rawQuery: string

    constructor (header: Header, host: string, path: string, rawQuery: string)
      ensures this.header == header && this.host == host && this.path == path && this.rawQuery == rawQuery
    {
      this.header := header;
      this.host := host;
      this.path := path;
      this.rawQuery := rawQuery;
    }

    /** setReqHop. */
    method SetHop(hop: i32)
      modifies this
      ensures header == Some(WithHop(old(header), hop))
    {
      var m := if header.None? then map[] else header.value;
      header := Some(m[HopKey := GoStrconv.Itoa(hop)]);
    }

    /** setReqVersion. */
    method SetVersion(proto: string)
      modifies this
      ensures header == Some(WithVersion(old(header), proto))
    {
      var m := if header.None? then map[] else header.value;
      header := Some(m[BuildKey := Sys.Build][ProtoKey := proto]);
    }

    /** setOrigin. */
    method SetOrigin(id: Sys.Id)
      modifies this
      ensures header == Some(WithOrigin(old(header), id))
    {
      var m := if header.None? then map[] else header.value;
      header := Some(m[OriginKey := Sys.IdEye(id)]);
    }
  }

  /** An HTTP response. */
  class Response {
    var status: string
    var statusCode: int
    var header: Header
    var body: Body

    function Snap(): Reply
      reads this
    {
      Reply(status, statusCode, header, body)
    }

    /** http.DupResp of a canned response, or a response read from a peer. */
    constructor (r: Reply)
      ensures Snap() == r
    {
      status := r.status;
      statusCode := r.statusCode;
      header := r.header;
      body := r.body;
    }

    /** setRespHop. */
    method SetHop(hop: i32)
      modifies this
      ensures Snap() == old(Snap()).(header := Some(WithHop(old(header), hop)))
    {
      var m := if header.None? then map[] else header.value;
      header := Some(m[HopKey := GoStrconv.Itoa(hop)]);
    }

    /** setRespVersion. */
    method SetVersion(proto: string)
      modifies this
      ensures Snap() == old(Snap()).(header := Some(WithVersion(old(header), proto)))
    {
      var m := if header.None? then map[] else header.value;
      header := Some(m[BuildKey := Sys.Build][ProtoKey := proto]);
    }

    /** sanitizeResp. */
    method Sanitize()
      modifies this
      ensures Snap() == old(Snap()).(header := Sanitized(old(header)))
    {
      if header.None? {
        return;
      }
      var m := header.value;
      m := m - {BuildKey};
      m := m - {ProtoKey};
      m := m - {HopKey};
      m := m - {OriginKey};
      assert m == header.value - VaultKeys;
      header := Some(m);
    }
  }
}
