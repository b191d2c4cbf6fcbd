// The front end's host classifier (getRequestType in package fe): which of
// the web site, the admin pages or a peer's vault a request's Host names.
module FeReqType {
  import opened Base
  import GoStrings
  import opened Sys

  datatype ReqType = WWWReq | AdminReq | TonikaReq | BadReq

  /** misc.ReverseHost: the labels of a host name, top level first. */
  function ReverseHost(host: string): seq<string>
  {
    Reverse(GoStrings.Split(host, '.'))
  }

  /**
   * getRequestType: 5ttt.org and www.*.5ttt.org and any other domain are
   * the web site; a.5ttt.org and a.<id>.5ttt.org are the admin pages;
   * <id>.5ttt.org is the peer id; anything deeper is bad.
   */
  function GetRequestType(host: string): (r: (ReqType, Id))
    ensures r.0 == WWWReq || r.0 == BadReq ==> r.1 == 0
    ensures r.0 != WWWReq ==>
      var parts := ReverseHost(host);
      |parts| >= 3 && parts[0] == Host0 && parts[1] == Host1
      && (parts[2] == "a" || (parts[2] != "www" && ParseId(parts[2]).1.None?))
    ensures r.0 == TonikaReq ==> |ReverseHost(host)| == 3 && ParseId(ReverseHost(host)[2]) == (r.1, None)
  {
    var parts := ReverseHost(host);
    if |parts| < 2 then (WWWReq, 0)
    else if parts[0] != Host0 || parts[1] != Host1 then (WWWReq, 0)
    else
      var p := parts[2..];
      if |p| == 0 || p[0] == "www" then (WWWReq, 0)
      else if p[0] == "a" then (AdminReq, 0)
      else
        var (id, err) := ParseId(p[0]);
        if err.Some? then (WWWReq, 0)
        else
          var q := p[1..];
          if |q| == 0 then (TonikaReq, id)
          else if q[0] == "a" then (AdminReq, id)
          else (BadReq, 0)
  }

  /**
   * The classifier reads back what MakeHost builds: id.5ttt.org is the
   * peer id, a.id.5ttt.org is its admin pages, and any other prefix
   * without a '.' is bad.
   */
  lemma ClassifyMadeHost(prefix: string, id: Id)
    requires '.' !in prefix
    ensures prefix == "" ==> GetRequestType(MakeHost(prefix, id)) == (TonikaReq, id)
    ensures prefix == "a" ==> GetRequestType(MakeHost(prefix, id)) == (AdminReq, id)
    ensures prefix != "" && prefix != "a" ==> GetRequestType(MakeHost(prefix, id)) == (BadReq, 0)
  {
    MakeHostLabels(prefix, id);
    EyeLabel(id);
    EyeNotWWW(id);
    ParseIdEye(id);
    var parts := ReverseHost(MakeHost(prefix, id));
    var e := IdEye(id);
    assert parts[0] == Host0 && parts[1] == Host1 && parts[2] == e;
    assert e != "a";
    if prefix == "" {
      assert |parts| == 3;
    } else {
      assert |parts| == 4 && parts[3] == prefix;
    }
  }

  /** The site's bare name, 5ttt.org, is the web site. */
  lemma ClassifySiteHost()
    ensures GetRequestType(Host) == (WWWReq, 0)
  {
    HostLabels();
  }

  /** www.5ttt.org is the web site. */
  lemma ClassifyWWWHost()
    ensures GetRequestType("www" + "." + Host) == (WWWReq, 0)
  {
    LabelBeforeHost("www");
  }

  /** a.5ttt.org is the admin pages, with no peer id. */
  lemma ClassifyAdminHost()
    ensures GetRequestType("a" + "." + Host) == (AdminReq, 0)
  {
    LabelBeforeHost("a");
  }

  lemma LabelBeforeHost(l: string)
    requires '.' !in l
    ensures ReverseHost(l + "." + Host) == [Host0, Host1, l]
  {
    IdLabels(l);
  }

  /**
   * Only names under 5ttt.org are anything but the web site: a host the
   * classifier sends elsewhere ends in ".5ttt.org".
   */
  lemma NonWWWIsSubdomain(host: string)
    requires GetRequestType(host).0 != WWWReq
    ensures |host| > |Host| + 1 && host[|host| - |Host| - 1..] == "." + Host
  {
    var l := GoStrings.Split(host, '.');
    var parts := ReverseHost(host);
    assert parts[0] == l[|l| - 1] && parts[1] == l[|l| - 2] && parts[2] == l[|l| - 3];
    assert |parts[2]| >= 1;
    LabelsUnderHost(host, l);
  }

  /** A host whose last two labels are 5ttt and org, after at least one more, ends in ".5ttt.org". */
  lemma LabelsUnderHost(host: string, l: seq<string>)
    requires l == GoStrings.Split(host, '.')
    requires |l| >= 3 && l[|l| - 1] == Host0 && l[|l| - 2] == Host1 && l[|l| - 3] != ""
    ensures |host| > |Host| + 1 && host[|host| - |Host| - 1..] == "." + Host
  {
    var front := l[..|l| - 2];
    if |front| > 1 {
      assert front == front[..|front| - 1] + [front[|front| - 1]];
      GoStrings.JoinAppend(front[..|front| - 1], [front[|front| - 1]], '.');
    }
    assert |GoStrings.Join(front, '.')| >= 1;
    assert l == front + [Host1, Host0];
    GoStrings.JoinSplit(host, '.');
    GoStrings.JoinAppend(front, [Host1, Host0], '.');
    assert GoStrings.Join([Host1, Host0], '.') == Host;
    assert host == GoStrings.Join(front, '.') + ("." + Host);
  }

}
