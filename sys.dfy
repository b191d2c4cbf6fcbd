// Package sys: Ids and their Eyeball-64 names (sys.go), dial keys
// (dialkey.go), the Friend and Me records (sys.go), and the host names and
// URLs of the overlay (env.go).
module Sys {
  import opened Base
  import Eye64
  import R = Rsa64
  import IdKey
  import GoStrings

  // ----- Id (sys.go) -----

  /** A peer's 64-bit identity. */
  type Id = u64

  /** Id.Eye, and Id.String, which returns it. */
  function IdEye(id: Id): string
  {
    Eye64.Eye(id)
  }

  /** ParseId: the decoded value and the error, returned together; 0 beside EINVAL, 2^64-1 beside ERANGE. */
  function ParseId(s: string): (r: (Id, Option<Error>))
    ensures r.1 == Some(ERANGE) ==> r.0 == MAX_U64
    ensures r.1.Some? && r.1 != Some(ERANGE) ==> r.0 == 0 && r.1 == Some(EINVAL)
    ensures |s| < 2 ==> r.1 == Some(EINVAL)
  {
    Eye64.ErrorValues(s);
    (Eye64.Decode(s).n, Eye64.Decode(s).err)
  }

  /** ParseId inverts Id.String. */
  lemma ParseIdEye(id: Id)
    ensures ParseId(IdEye(id)) == (id, None)
  {
    Eye64.RoundTrip(id);
  }

  /** Id.Equal agrees with the names: two Ids are equal exactly when their Eye strings are. */
  lemma IdEyeInjective(a: Id, b: Id)
    ensures IdEye(a) == IdEye(b) <==> a == b
  {
    ParseIdEye(a);
    ParseIdEye(b);
  }

  /** An Id's name is at least two alphabet characters long and holds no '.'. */
  lemma EyeLabel(id: Id)
    ensures |IdEye(id)| >= 2 && '.' !in IdEye(id)
  {
    var s := IdEye(id);
    Eye64.AlphaIsAlphabet();
    Eye64.RenderInAlpha(Eye64.Alpha, id);
    assert '.' !in Eye64.Alpha;
    forall i | 0 <= i < |s|
      ensures s[i] != '.'
    {
      IndexInSpec(Eye64.Alpha, s[i]);
    }
    if id != 0 {
      var ds := Eye64.Digits(id);
      assert id / 30 < id;
      Eye64.DigitsValue(id);
      assert ds != [];
    }
  }

  /** An Id's name is made of alphabet characters, all between '2' and 'z': no space, no '.', no '/'. */
  lemma EyeChars(id: Id)
    ensures forall i | 0 <= i < |IdEye(id)| :: '2' <= IdEye(id)[i] <= 'z'
  {
    var s := IdEye(id);
    Eye64.AlphaIsAlphabet();
    Eye64.RenderInAlpha(Eye64.Alpha, id);
    Eye64.AlphaRange();
    forall i | 0 <= i < |s|
      ensures '2' <= s[i] <= 'z'
    {
      IndexInSpec(Eye64.Alpha, s[i]);
    }
  }

  /** No Id is named "www": its checksum character would have to be 'g'. */
  lemma EyeNotWWW(id: Id)
    ensures IdEye(id) != "www"
  {
    var A := Eye64.Alpha;
    assert A[18] == 'w';
    assert "www" == [A[18], A[18], A[18]];
    Eye64.AlphaIsAlphabet();
    if IdEye(id) == "www" {
      TripleRender(A, id, 18);
    }
  }

  /** A three-character rendering repeats no character: the checksum of d d would be 2d mod 30. */
  lemma TripleRender(A: string, u: u64, x: Eye64.digit)
    requires Eye64.IsAlphabet(A) && Eye64.Render(A, u) == [A[x], A[x], A[x]]
    ensures x == 0
  {
    var ds := Eye64.Digits(u);
    assert u != 0;
    var cs := Eye64.Chars(A, ds);
    assert Eye64.Render(A, u) == cs + [A[Eye64.Sum(ds) % 30]];
    assert |ds| == 2;
    Eye64.CharsAt(A, ds, 0);
    Eye64.CharsAt(A, ds, 1);
    Eye64.AlphaIndex(A, ds[0]);
    Eye64.AlphaIndex(A, ds[1]);
    Eye64.AlphaIndex(A, x);
    Eye64.AlphaIndex(A, Eye64.Sum(ds) % 30);
    var r := Eye64.Render(A, u);
    assert cs[0] == r[0] == A[x] && cs[1] == r[1] == A[x];
    assert A[ds[0]] == A[x] && A[ds[1]] == A[x];
    assert ds[0] == x && ds[1] == x;
    var t := ds[1..];
    assert t[1..] == [] && t[0] == x;
    assert Eye64.Sum(t) == x + Eye64.Sum(t[1..]);
    assert Eye64.Sum(ds) == 2 * x;
    assert r[2] == A[(2 * x) % 30];
  }

  // ----- DialKey (dialkey.go) -----

  /** A dial or accept key: a signed 64-bit integer. */
  type DialKey = i64

  /** DialKey.String: the Eye name of the key's two's-complement uint64. */
  function DialKeyString(dk: DialKey): string
  {
    Eye64.Eye(U64OfI64(dk))
  }

  /** ParseDialKey: the decode error, or the key whose uint64 the string names. */
  function ParseDialKey(s: string): (r: Result<DialKey>)
    ensures r.Err? <==> Eye64.Decode(s).err.Some?
    ensures r.Err? ==> r.error == Eye64.Decode(s).err.value
    ensures r.Ok? ==> U64OfI64(r.value) == Eye64.Decode(s).n
  {
    var d := Eye64.Decode(s);
    if d.err.Some? then Err(d.err.value)
    else
      I64RoundTrip(0, d.n);
      Ok(I64OfU64(d.n))
  }

  /** ParseDialKey(dk.String()) returns dk, negative keys included. */
  lemma ParseDialKeyString(dk: DialKey)
    ensures ParseDialKey(DialKeyString(dk)) == Ok(dk)
  {
    Eye64.RoundTrip(U64OfI64(dk));
    I64RoundTrip(dk, 0);
  }

  /** DialKey.Equal agrees with the names: two keys are equal exactly when their strings are. */
  lemma DialKeyStringInjective(a: DialKey, b: DialKey)
    ensures DialKeyString(a) == DialKeyString(b) <==> a == b
  {
    ParseDialKeyString(a);
    ParseDialKeyString(b);
  }

  /** U_DialKey, the wire form of a key. */
  datatype UDialKey = UDialKey(int64: i64)

  /** DialKey.Proto. */
  function Proto(dk: DialKey): (p: UDialKey)
    ensures UnprotoDialKey(p) == Ok(dk)
  {
    UDialKey(dk)
  }

  /** UnprotoDialKey never fails, and inverts Proto. */
  function UnprotoDialKey(p: UDialKey): (r: Result<DialKey>)
    ensures r.Ok? && UDialKey(r.value) == p
  {
    Ok(p.int64)
  }

  // ----- keys -----

  /** SigKey: an RSA private signature key. */
  datatype SigKey = SigKey(rsa: R.PrivKey)
  {
    function Pub(): R.PubKey
    {
      R.PubKey(rsa.n, rsa.e)
    }
  }

  /** SigPubKey: the public half of a signature key. */
  datatype SigPubKey = SigPubKey(rsa: R.PubKey)

  /** HelloKey: the RSA key pair of the hello exchange. */
  datatype HelloKey = HelloKey(rsa: R.PrivKey)

  // ----- Me and Friend (sys.go) -----

  /** The local user. */
  class Me {
    var id: Id
    var signatureKey: Option<SigKey>
    var name: string
    var email: string
    var addr: string
    var extAddr: string

    constructor ()
      ensures id == 0 && signatureKey == None && name == email == addr == extAddr == ""
    {
      id, signatureKey := 0, None;
      name, email, addr, extAddr := "", "", "", "";
    }

    /** Init: adopts a freshly generated signature key (a parameter) and the Id of its public half. */
    method Init(key: SigKey, hs: IdKey.Hashing)
      requires |IdKey.Digest(key.Pub(), hs)| == 32
      modifies this
      ensures id == IdKey.KeyId(key.Pub(), hs) && signatureKey == Some(key)
      ensures name == old(name) && email == old(email) && addr == old(addr) && extAddr == old(extAddr)
    {
      var k := IdKey.IdForKey(key.Pub(), hs);
      id := k;
      signatureKey := Some(key);
    }
  }

  /** A friend: what we choose, what they provide and what we generate. A nil field is None. */
  class Friend {
    var slot: int
    var name: string
    var email: string
    var id: Option<Id>
    var signatureKey: Option<SigPubKey>
    var dialKey: Option<DialKey>
    var addr: string
    var acceptKey: Option<DialKey>
    var helloKey: Option<HelloKey>
    var rest: map<string, string>

    constructor ()
      ensures slot == 0 && name == email == addr == "" && rest == map[]
      ensures id == None && signatureKey == None && dialKey == None && acceptKey == None && helloKey == None
    {
      slot, name, email, addr, rest := 0, "", "", "", map[];
      id, signatureKey, dialKey, acceptKey, helloKey := None, None, None, None, None;
    }

    /** Init: generates the accept key and the hello key (both parameters). */
    method Init(accept: DialKey, hello: HelloKey)
      modifies this
      ensures acceptKey == Some(accept) && helloKey == Some(hello)
      ensures slot == old(slot) && name == old(name) && email == old(email) && addr == old(addr) && rest == old(rest)
      ensures id == old(id) && signatureKey == old(signatureKey) && dialKey == old(dialKey)
      ensures IsComplete() <==> old(id).Some? && old(signatureKey).Some? && old(dialKey).Some?
    {
      acceptKey := Some(accept);
      helloKey := Some(hello);
    }

    /** IsComplete: every key and the Id are present. */
    predicate IsComplete()
      reads this
    {
      id.Some? && signatureKey.Some? && helloKey.Some? && dialKey.Some? && acceptKey.Some?
    }
  }

  // ----- host names and URLs (env.go) -----

  /** The product name shown on the vault's error pages. */
  const Name: string := "Tonika"

  /** The build number the dialers exchange when they greet. */
  const Build: string := "1.0.0.1"

  const Host0: string := "org"
  const Host1: string := "5ttt"
  const Host: string := Host1 + "." + Host0

  /** MakeHost: prefix.id.5ttt.org, or id.5ttt.org for an empty prefix. */
  function MakeHost(prefix: string, id: Id): string
  {
    if prefix != "" then prefix + "." + IdEye(id) + "." + Host else IdEye(id) + "." + Host
  }

  /** MakeURL: http:// and the host, then the path, with a '/' inserted if the path lacks one. */
  function MakeURL(prefix: string, id: Id, path: string): string
  {
    if |path| > 0 && path[0] != '/' then "http://" + MakeHost(prefix, id) + "/" + path
    else "http://" + MakeHost(prefix, id) + path
  }

  lemma HostLabels()
    ensures GoStrings.Split(Host, '.') == [Host1, Host0]
  {
    assert Host == Host1 + ['.'] + Host0;
    GoStrings.SplitCons(Host1, '.', Host0, -1);
  }

  /** The labels of a made host: the prefix if any, the Id's name, then 5ttt and org. */
  lemma MakeHostLabels(prefix: string, id: Id)
    requires '.' !in prefix
    ensures GoStrings.Split(MakeHost(prefix, id), '.') == (if prefix == "" then [] else [prefix]) + [IdEye(id), Host1, Host0]
  {
    EyeLabel(id);
    var e := IdEye(id);
    var tail := e + "." + Host;
    IdLabels(e);
    if prefix != "" {
      assert MakeHost(prefix, id) == prefix + ['.'] + tail;
      GoStrings.SplitCons(prefix, '.', tail, -1);
    }
  }

  lemma IdLabels(e: string)
    requires '.' !in e
    ensures GoStrings.Split(e + "." + Host, '.') == [e, Host1, Host0]
  {
    HostLabels();
    assert e + "." + Host == e + ['.'] + Host;
    GoStrings.SplitCons(e, '.', Host, -1);
  }

  /** A made URL is http://, the host, and then the path, which starts with '/' unless it is empty. */
  lemma MakeURLShape(prefix: string, id: Id, path: string)
    ensures var h := "http://" + MakeHost(prefix, id);
      var u := MakeURL(prefix, id, path);
      HasPrefix(u, h) && HasPrefix(u, "http://")
      && (u[|h|..] == [] || u[|h|..][0] == '/')
      && (u[|h|..] == path <==> path == [] || path[0] == '/')
      && (u[|h|..] != path ==> u[|h|..] == "/" + path)
  {
    var host := MakeHost(prefix, id);
    var tail := if |path| > 0 && path[0] != '/' then "/" + path else path;
    assert MakeURL(prefix, id, path) == "http://" + host + tail;
    AppendShape("http://", host, tail);
  }

  lemma AppendShape(a: string, b: string, c: string)
    ensures HasPrefix(a + b + c, a + b) && HasPrefix(a + b + c, a) && (a + b + c)[|a + b|..] == c
  {
    assert (a + b + c)[..|a|] == a;
    assert (a + b + c)[..|a + b|] == a + b;
  }
}
