// The authentication handshake between two friends (src/pkg/sys/auth.go):
// a hello exchange that agrees on RC4 session keys, then a challenge and a
// signed response in each direction under the friends' signature keys.
// The RSA, signature and hash primitives are parameters (Crypto), and so
// are the random draws of each side (Draws). The encrypted tube that
// authHello returns is the same Tube object, its keys set.
module Auth {
  import opened Base
  import Sys
  import R = Rsa64
  import B = GoBytes
  import IdKey
  import opened Tubes

  /** sys.AuthRemote: what we hold about a friend. */
  datatype AuthRemote = AuthRemote(id: Sys.Id, sigKey: Sys.SigPubKey, dialKey: Sys.DialKey, acceptKey: Sys.DialKey)

  /** sys.AuthLocal: our own identity. */
  datatype AuthLocal = AuthLocal(id: Sys.Id, sigKey: Sys.SigKey)

  /**
   * The primitives the handshake calls: SigKey.Sign, SigPubKey.Verify,
   * crypto.EncryptShortMsg and DecryptShortMsg under the label "key-halves",
   * SHA-1, and the hashing an Id is taken from.
   */
  datatype Crypto = Crypto(
    sign: (Sys.SigKey, seq<byte>) -> Result<seq<byte>>,
    verify: (Sys.SigPubKey, seq<byte>, seq<byte>) -> Option<Error>,
    encrypt: (R.PubKey, seq<byte>) -> Result<seq<byte>>,
    decrypt: (R.PrivKey, seq<byte>) -> Result<seq<byte>>,
    sha1: seq<byte> -> seq<byte>,
    hashing: IdKey.Hashing)

  /** What one side draws at random: its hello key, its key halves and its signature challenge. */
  datatype Draws = Draws(hello: Sys.HelloKey, halves: seq<byte>, challenge: seq<byte>)

  const NoRemoteAuth: Error := Failure("No remote auth")
  const DialKeyMismatch: Error := Failure("DialKey does not match AcceptKey")

  /** The label of the session keys, the bytes of "SK". */
  const SK: seq<byte> := [83, 75]

  // ----- hello keys and session keys -----

  /** The public half of a hello key (HelloKey.RSAPubKey). */
  function PubOf(k: Sys.HelloKey): R.PubKey
  {
    R.PubKey(k.rsa.n, k.rsa.e)
  }

  /** UnprotoHelloPubKey: the modulus read back with SetBytes; it never fails. */
  function HelloPubOf(m: Msg): R.PubKey
    requires m.HelloPub?
  {
    R.PubKey(B.BigEndian(m.n), m.e)
  }

  /** HelloKey.Proto: the modulus as big.Int.Bytes and the exponent. */
  function HelloProto(k: R.PubKey): (m: Msg)
    ensures m.HelloPub? && HelloPubOf(m) == k
  {
    R.NatBytesValue(k.n);
    HelloPub(R.NatBytes(k.n), k.e)
  }

  /** makeSessionKey: SHA-1 of the label tag, ka's modulus, the first half of ha, kb's modulus and the second half of hb. */
  function SessionKey(sha1: seq<byte> -> seq<byte>, tag: seq<byte>, ha: seq<byte>, hb: seq<byte>, ka: R.PubKey, kb: R.PubKey): seq<byte>
  {
    sha1(tag + R.NatBytes(ka.n) + ha[..|ha| / 2] + R.NatBytes(kb.n) + hb[|hb| / 2..])
  }

  /**
   * The (read, write) keys of the side with hello key own and halves mine
   * whose peer sent hello key peer and halves theirs: it writes with keyAB
   * and reads with keyBA.
   */
  function SessionKeys(sha1: seq<byte> -> seq<byte>, own: R.PubKey, peer: R.PubKey, mine: seq<byte>, theirs: seq<byte>): (seq<byte>, seq<byte>)
  {
    (SessionKey(sha1, SK, theirs, mine, peer, own), SessionKey(sha1, SK, mine, theirs, own, peer))
  }

  /** Each side's write key is the other side's read key, whatever the hash. */
  lemma KeysAgree(sha1: seq<byte> -> seq<byte>, a: R.PubKey, b: R.PubKey, ha: seq<byte>, hb: seq<byte>)
    ensures SessionKeys(sha1, a, b, ha, hb).1 == SessionKeys(sha1, b, a, hb, ha).0
    ensures SessionKeys(sha1, a, b, ha, hb).0 == SessionKeys(sha1, b, a, hb, ha).1
  {
  }

  // ----- authHello -----

  /** Whether authHello gets through on a tube in this state. */
  predicate HelloOk(closed: bool, room: nat, inbox: seq<Msg>, d: Draws, cr: Crypto)
  {
    && !closed && room >= 2 && |inbox| >= 2
    && inbox[0].HelloPub? && cr.encrypt(HelloPubOf(inbox[0]), d.halves).Ok?
    && inbox[1].KeyHalves? && cr.decrypt(d.hello.rsa, inbox[1].halves).Ok?
  }

  /** The steps of a successful authHello: send our hello key, read theirs, send our sealed halves, read theirs. */
  function HelloTrace(inbox: seq<Msg>, d: Draws, cr: Crypto): seq<Op>
    requires |inbox| >= 1 && inbox[0].HelloPub? && cr.encrypt(HelloPubOf(inbox[0]), d.halves).Ok?
  {
    [Sent(HelloProto(PubOf(d.hello))), Received(KHelloPub),
     Sent(KeyHalves(cr.encrypt(HelloPubOf(inbox[0]), d.halves).value)), Received(KKeyHalves)]
  }

  /** The tube's keys after a successful authHello: the peer's halves are opened with our private hello key. */
  function HelloKeys(inbox: seq<Msg>, d: Draws, cr: Crypto): (seq<byte>, seq<byte>)
    requires |inbox| >= 2 && inbox[0].HelloPub? && inbox[1].KeyHalves? && cr.decrypt(d.hello.rsa, inbox[1].halves).Ok?
  {
    SessionKeys(cr.sha1, PubOf(d.hello), HelloPubOf(inbox[0]), d.halves, cr.decrypt(d.hello.rsa, inbox[1].halves).value)
  }

  /** The first half of authHello: send our hello key and read the peer's. */
  method SwapHello(t: Tube, d: Draws) returns (peer: Result<R.PubKey>)
    modifies t
    ensures peer.Ok? <==> !old(t.closed) && old(t.room) >= 1 && |old(t.inbox)| >= 1 && old(t.inbox)[0].HelloPub?
    ensures old(t.closed) ==> peer == Err(EBADF)
    ensures !old(t.closed) && old(t.room) == 0 ==> peer == Err(EIO)
    ensures peer.Ok? ==> peer.value == HelloPubOf(old(t.inbox)[0])
    ensures peer.Ok? ==> t.trace == old(t.trace) + [Sent(HelloProto(PubOf(d.hello))), Received(KHelloPub)]
    ensures peer.Ok? ==> t.inbox == old(t.inbox)[1..] && t.room == old(t.room) - 1
    ensures t.keys == old(t.keys) && t.closed == old(t.closed)
  {
    var e := t.Encode(HelloProto(PubOf(d.hello)));
    if e.Some? {
      return Err(e.value);
    }
    var r := t.Decode(KHelloPub);
    if r.Err? {
      return Err(r.error);
    }
    peer := Ok(HelloPubOf(r.value));
  }

  /** The second half of authHello: send our halves sealed under the peer's hello key and open theirs. */
  method SwapHalves(t: Tube, peer: R.PubKey, d: Draws, cr: Crypto) returns (theirs: Result<seq<byte>>)
    modifies t
    ensures theirs.Ok? <==> && !old(t.closed) && old(t.room) >= 1 && |old(t.inbox)| >= 1
                            && cr.encrypt(peer, d.halves).Ok? && old(t.inbox)[0].KeyHalves?
                            && cr.decrypt(d.hello.rsa, old(t.inbox)[0].halves).Ok?
    ensures theirs.Ok? ==> theirs == cr.decrypt(d.hello.rsa, old(t.inbox)[0].halves)
    ensures theirs.Ok? ==> t.trace == old(t.trace) + [Sent(KeyHalves(cr.encrypt(peer, d.halves).value)), Received(KKeyHalves)]
    ensures theirs.Ok? ==> t.inbox == old(t.inbox)[1..] && t.room == old(t.room) - 1
    ensures t.keys == old(t.keys) && t.closed == old(t.closed)
  {
    var sealed := cr.encrypt(peer, d.halves);
    if sealed.Err? {
      return Err(sealed.error);
    }
    var e := t.Encode(KeyHalves(sealed.value));
    if e.Some? {
      return Err(e.value);
    }
    var r := t.Decode(KKeyHalves);
    if r.Err? {
      return Err(r.error);
    }
    theirs := cr.decrypt(d.hello.rsa, r.value.halves);
  }

  /**
   * authHello: swaps hello keys and RSA-sealed key halves with the peer,
   * then turns the tube into an RC4 tube under the two session keys.
   */
  method AuthHello(t: Tube, d: Draws, cr: Crypto) returns (e: Option<Error>)
    modifies t
    ensures e.None? <==> HelloOk(old(t.closed), old(t.room), old(t.inbox), d, cr)
    ensures old(t.closed) ==> e == Some(EBADF)
    ensures !old(t.closed) && old(t.room) == 0 ==> e == Some(EIO)
    ensures e.None? ==> t.trace == old(t.trace) + HelloTrace(old(t.inbox), d, cr)
    ensures e.None? ==> t.keys == Some(HelloKeys(old(t.inbox), d, cr))
    ensures e.None? ==> t.inbox == old(t.inbox)[2..] && t.room == old(t.room) - 2
    ensures e.Some? ==> t.keys == old(t.keys)
    ensures t.closed == old(t.closed)
  {
    var inbox0 := t.inbox;
    var peer := SwapHello(t, d);
    if peer.Err? {
      return Some(peer.error);
    }
    var theirs := SwapHalves(t, peer.value, d, cr);
    if theirs.Err? {
      return Some(theirs.error);
    }
    assert inbox0[1..][1..] == inbox0[2..];
    var keys := SessionKeys(cr.sha1, PubOf(d.hello), peer.value, d.halves, theirs.value);
    t.Encrypt(keys.0, keys.1);
    e := None;
  }

  // ----- AuthConnect -----

  /** Whether the dialing side's challenge round gets through, from the state authHello left. */
  predicate ConnectRoundOk(closed: bool, room: nat, inbox: seq<Msg>, local: AuthLocal, remote: AuthRemote, d: Draws, cr: Crypto)
  {
    && ConnectReachesCheck(closed, room, inbox, local, cr)
    && Sys.UnprotoDialKey(inbox[1].dialKey) == Ok(remote.acceptKey)
    && cr.verify(remote.sigKey, d.challenge, inbox[1].resp).None?
  }

  /** Whether the dialing side gets as far as comparing the dial key it was sent with its accept key. */
  predicate ConnectReachesCheck(closed: bool, room: nat, inbox: seq<Msg>, local: AuthLocal, cr: Crypto)
  {
    && !closed && room >= 2 && |inbox| >= 2
    && inbox[0].AccM1? && cr.sign(local.sigKey, inbox[0].challenge).Ok?
    && inbox[1].AccM2?
  }

  /** The steps of the dialing side's round: our dial key for them and our challenge, their challenge, our response, their response. */
  function ConnectRoundTrace(inbox: seq<Msg>, local: AuthLocal, remote: AuthRemote, d: Draws, cr: Crypto): seq<Op>
    requires |inbox| >= 1 && inbox[0].AccM1? && cr.sign(local.sigKey, inbox[0].challenge).Ok?
  {
    [Sent(ConnM1(Sys.Proto(remote.dialKey), d.challenge)), Received(KAccM1),
     Sent(ConnM2(cr.sign(local.sigKey, inbox[0].challenge).value)), Received(KAccM2)]
  }

  /** The part of AuthConnect after authHello, over the encrypted tube. */
  method ConnectRound(local: AuthLocal, remote: AuthRemote, t: Tube, d: Draws, cr: Crypto) returns (e: Option<Error>)
    modifies t
    ensures e.None? <==> ConnectRoundOk(old(t.closed), old(t.room), old(t.inbox), local, remote, d, cr)
    ensures (&& ConnectReachesCheck(old(t.closed), old(t.room), old(t.inbox), local, cr)
             && Sys.UnprotoDialKey(old(t.inbox)[1].dialKey) != Ok(remote.acceptKey))
            ==> e == Some(DialKeyMismatch)
    ensures e.None? ==> t.trace == old(t.trace) + ConnectRoundTrace(old(t.inbox), local, remote, d, cr)
    ensures t.keys == old(t.keys) && t.closed == old(t.closed)
  {
    e := t.Encode(ConnM1(Sys.Proto(remote.dialKey), d.challenge));
    if e.Some? {
      return;
    }
    var m1 := t.Decode(KAccM1);
    if m1.Err? {
      return Some(m1.error);
    }
    var sign := cr.sign(local.sigKey, m1.value.challenge);
    if sign.Err? {
      return Some(sign.error);
    }
    e := t.Encode(ConnM2(sign.value));
    if e.Some? {
      return;
    }
    var m2 := t.Decode(KAccM2);
    if m2.Err? {
      return Some(m2.error);
    }
    var dk := Sys.UnprotoDialKey(m2.value.dialKey);
    if dk != Ok(remote.acceptKey) {
      return Some(DialKeyMismatch);
    }
    e := cr.verify(remote.sigKey, d.challenge, m2.value.resp);
  }

  /** Whether AuthConnect succeeds on a tube in this state. */
  predicate ConnectOk(closed: bool, room: nat, inbox: seq<Msg>, local: AuthLocal, remote: AuthRemote, d: Draws, cr: Crypto)
  {
    HelloOk(closed, room, inbox, d, cr) && ConnectRoundOk(closed, room - 2, inbox[2..], local, remote, d, cr)
  }

  /**
   * AuthConnect: the dialing side. It succeeds exactly when every step
   * does, the dial key the peer returns is the accept key we hold for it,
   * and the peer's response verifies under the signature key we hold for
   * it; the Id returned is that key's Id, and every failure returns Id 0.
   */
  method AuthConnect(local: AuthLocal, remote: AuthRemote, t: Tube, d: Draws, cr: Crypto) returns (id: Sys.Id, e: Option<Error>)
    requires |IdKey.Digest(remote.sigKey.rsa, cr.hashing)| == 32
    modifies t
    ensures e.None? <==> ConnectOk(old(t.closed), old(t.room), old(t.inbox), local, remote, d, cr)
    ensures e.None? ==> id == IdKey.KeyId(remote.sigKey.rsa, cr.hashing)
    ensures e.Some? ==> id == 0
    ensures (&& HelloOk(old(t.closed), old(t.room), old(t.inbox), d, cr)
             && ConnectReachesCheck(old(t.closed), old(t.room) - 2, old(t.inbox)[2..], local, cr)
             && Sys.UnprotoDialKey(old(t.inbox)[3].dialKey) != Ok(remote.acceptKey))
            ==> e == Some(DialKeyMismatch)
    ensures e.None? ==> t.keys == Some(HelloKeys(old(t.inbox), d, cr))
    ensures e.None? ==> t.trace == old(t.trace) + HelloTrace(old(t.inbox), d, cr) + ConnectRoundTrace(old(t.inbox)[2..], local, remote, d, cr)
  {
    e := AuthHello(t, d, cr);
    if e.Some? {
      return 0, e;
    }
    e := ConnectRound(local, remote, t, d, cr);
    if e.Some? {
      return 0, e;
    }
    id := IdKey.IdForKey(remote.sigKey.rsa, cr.hashing);
  }

  // ----- AuthAccept -----

  /** Whether the accepting side gets as far as looking up the dial key it was sent. */
  predicate AcceptReachesLookup(closed: bool, room: nat, inbox: seq<Msg>)
  {
    !closed && room >= 1 && |inbox| >= 1 && inbox[0].ConnM1?
  }

  /** Whether the accepting side's round gets through, from the state authHello left. */
  predicate AcceptRoundOk(closed: bool, room: nat, inbox: seq<Msg>, local: AuthLocal, lookup: Sys.DialKey -> Option<AuthRemote>, d: Draws, cr: Crypto)
  {
    && AcceptReachesLookup(closed, room, inbox)
    && lookup(inbox[0].dialKey.int64).Some?
    && cr.sign(local.sigKey, inbox[0].challenge).Ok?
    && room >= 2 && |inbox| >= 2 && inbox[1].ConnM2?
    && cr.verify(lookup(inbox[0].dialKey.int64).value.sigKey, d.challenge, inbox[1].resp).None?
  }

  /** The steps of the accepting side's round: our challenge, their dial key and challenge, our dial key for them and response, their response. */
  function AcceptRoundTrace(inbox: seq<Msg>, local: AuthLocal, rauth: AuthRemote, d: Draws, cr: Crypto): seq<Op>
    requires |inbox| >= 1 && inbox[0].ConnM1? && cr.sign(local.sigKey, inbox[0].challenge).Ok?
  {
    [Sent(AccM1(d.challenge)), Received(KConnM1),
     Sent(AccM2(Sys.Proto(rauth.dialKey), cr.sign(local.sigKey, inbox[0].challenge).value)), Received(KConnM2)]
  }

  /** The part of AuthAccept after authHello; it also returns the friend the lookup found. */
  method AcceptRound(local: AuthLocal, lookup: Sys.DialKey -> Option<AuthRemote>, t: Tube, d: Draws, cr: Crypto)
    returns (rauth: Option<AuthRemote>, e: Option<Error>)
    modifies t
    ensures e.None? <==> AcceptRoundOk(old(t.closed), old(t.room), old(t.inbox), local, lookup, d, cr)
    ensures (AcceptReachesLookup(old(t.closed), old(t.room), old(t.inbox)) && lookup(old(t.inbox)[0].dialKey.int64).None?)
            ==> e == Some(NoRemoteAuth)
    ensures e.None? ==> rauth == lookup(old(t.inbox)[0].dialKey.int64) && rauth.Some?
    ensures e.None? ==> t.trace == old(t.trace) + AcceptRoundTrace(old(t.inbox), local, rauth.value, d, cr)
    ensures t.keys == old(t.keys) && t.closed == old(t.closed)
  {
    rauth := None;
    e := t.Encode(AccM1(d.challenge));
    if e.Some? {
      return;
    }
    var m1 := t.Decode(KConnM1);
    if m1.Err? {
      return None, Some(m1.error);
    }
    var ak := Sys.UnprotoDialKey(m1.value.dialKey);
    rauth := lookup(ak.value);
    if rauth.None? {
      return None, Some(NoRemoteAuth);
    }
    var sign := cr.sign(local.sigKey, m1.value.challenge);
    if sign.Err? {
      return rauth, Some(sign.error);
    }
    e := t.Encode(AccM2(Sys.Proto(rauth.value.dialKey), sign.value));
    if e.Some? {
      return;
    }
    var m2 := t.Decode(KConnM2);
    if m2.Err? {
      return rauth, Some(m2.error);
    }
    e := cr.verify(rauth.value.sigKey, d.challenge, m2.value.resp);
  }

  /** Whether AuthAccept succeeds on a tube in this state. */
  predicate AcceptOk(closed: bool, room: nat, inbox: seq<Msg>, local: AuthLocal, lookup: Sys.DialKey -> Option<AuthRemote>, d: Draws, cr: Crypto)
  {
    HelloOk(closed, room, inbox, d, cr) && AcceptRoundOk(closed, room - 2, inbox[2..], local, lookup, d, cr)
  }

  /**
   * AuthAccept: the accepting side. The dial key the peer sends selects the
   * friend (lookup); it succeeds exactly when every step does, a friend is
   * found, and the peer's response verifies under that friend's signature
   * key, whose Id it returns; every failure returns Id 0.
   */
  method AuthAccept(local: AuthLocal, lookup: Sys.DialKey -> Option<AuthRemote>, t: Tube, d: Draws, cr: Crypto) returns (id: Sys.Id, e: Option<Error>)
    requires IdKey.Sha256Width(cr.hashing)
    modifies t
    ensures e.None? <==> AcceptOk(old(t.closed), old(t.room), old(t.inbox), local, lookup, d, cr)
    ensures e.None? ==> id == IdKey.KeyId(lookup(old(t.inbox)[2].dialKey.int64).value.sigKey.rsa, cr.hashing)
    ensures e.Some? ==> id == 0
    ensures (&& HelloOk(old(t.closed), old(t.room), old(t.inbox), d, cr)
             && AcceptReachesLookup(old(t.closed), old(t.room) - 2, old(t.inbox)[2..])
             && lookup(old(t.inbox)[2].dialKey.int64).None?)
            ==> e == Some(NoRemoteAuth)
    ensures e.None? ==> t.keys == Some(HelloKeys(old(t.inbox), d, cr))
    ensures e.None? ==>
              t.trace == old(t.trace) + HelloTrace(old(t.inbox), d, cr)
                         + AcceptRoundTrace(old(t.inbox)[2..], local, lookup(old(t.inbox)[2].dialKey.int64).value, d, cr)
  {
    e := AuthHello(t, d, cr);
    if e.Some? {
      return 0, e;
    }
    var rauth;
    rauth, e := AcceptRound(local, lookup, t, d, cr);
    if e.Some? {
      return 0, e;
    }
    id := IdKey.IdForKey(rauth.value.sigKey.rsa, cr.hashing);
  }

  // ----- the two ends together -----

  /**
   * Primitives that behave: sealing and signing never fail, the private
   * hello key opens what was sealed under its public half, and a signature
   * verifies under the public half of the key that made it.
   */
  ghost predicate Sound(cr: Crypto)
  {
    && (forall k: R.PrivKey, m :: cr.encrypt(R.PubKey(k.n, k.e), m).Ok?)
    && (forall k: R.PrivKey, m :: cr.decrypt(k, cr.encrypt(R.PubKey(k.n, k.e), m).value) == Ok(m))
    && (forall k: Sys.SigKey, m :: cr.sign(k, m).Ok?)
    && (forall k: Sys.SigKey, m :: cr.verify(Sys.SigPubKey(k.Pub()), m, cr.sign(k, m).value).None?)
  }

  /**
   * What a run between a dialing side (key lc, draws dc) and an accepting
   * side (key la, draws da) asks of the primitives: each side opens the
   * halves the other sealed for it, and each side's signature on the
   * other's challenge verifies.
   */
  predicate Honest(cr: Crypto, lc: AuthLocal, dc: Draws, la: AuthLocal, da: Draws)
  {
    && cr.encrypt(PubOf(da.hello), dc.halves).Ok?
    && cr.decrypt(da.hello.rsa, cr.encrypt(PubOf(da.hello), dc.halves).value) == Ok(dc.halves)
    && cr.encrypt(PubOf(dc.hello), da.halves).Ok?
    && cr.decrypt(dc.hello.rsa, cr.encrypt(PubOf(dc.hello), da.halves).value) == Ok(da.halves)
    && cr.sign(lc.sigKey, da.challenge).Ok?
    && cr.verify(Sys.SigPubKey(lc.sigKey.Pub()), da.challenge, cr.sign(lc.sigKey, da.challenge).value).None?
    && cr.sign(la.sigKey, dc.challenge).Ok?
    && cr.verify(Sys.SigPubKey(la.sigKey.Pub()), dc.challenge, cr.sign(la.sigKey, dc.challenge).value).None?
  }

  /** Sound primitives are honest for every pair of keys and draws. */
  lemma SoundHonest(cr: Crypto, lc: AuthLocal, dc: Draws, la: AuthLocal, da: Draws)
    requires Sound(cr)
    ensures Honest(cr, lc, dc, la, da)
  {
    var a, c := da.hello.rsa, dc.hello.rsa;
    assert cr.decrypt(a, cr.encrypt(R.PubKey(a.n, a.e), dc.halves).value) == Ok(dc.halves);
    assert cr.decrypt(c, cr.encrypt(R.PubKey(c.n, c.e), da.halves).value) == Ok(da.halves);
  }

  /** What the dialing side writes in a run against an accepting side that drew da. */
  function DialerSends(lc: AuthLocal, remote: AuthRemote, dc: Draws, la: AuthLocal, da: Draws, cr: Crypto): seq<Msg>
    requires Honest(cr, lc, dc, la, da)
  {
    [HelloProto(PubOf(dc.hello)), KeyHalves(cr.encrypt(PubOf(da.hello), dc.halves).value),
     ConnM1(Sys.Proto(remote.dialKey), dc.challenge), ConnM2(cr.sign(lc.sigKey, da.challenge).value)]
  }

  /** What the accepting side writes in a run against a dialing side that drew dc, having found rauth. */
  function AcceptorSends(lc: AuthLocal, dc: Draws, la: AuthLocal, rauth: AuthRemote, da: Draws, cr: Crypto): seq<Msg>
    requires Honest(cr, lc, dc, la, da)
  {
    [HelloProto(PubOf(da.hello)), KeyHalves(cr.encrypt(PubOf(dc.hello), da.halves).value),
     AccM1(da.challenge), AccM2(Sys.Proto(rauth.dialKey), cr.sign(la.sigKey, dc.challenge).value)]
  }

  /** The kinds of the structs a trace wrote, in order. */
  function SentKinds(tr: seq<Op>): seq<Kind>
  {
    if tr == [] then [] else (if tr[0].Sent? then [KindOf(tr[0].m)] else []) + SentKinds(tr[1..])
  }

  /** The kinds of the structs a trace read, in order. */
  function ReceivedKinds(tr: seq<Op>): seq<Kind>
  {
    if tr == [] then [] else (if tr[0].Received? then [tr[0].k] else []) + ReceivedKinds(tr[1..])
  }

  /** SentKinds and ReceivedKinds of one round of four steps: write, read, write, read. */
  lemma RoundKinds(x: Msg, k1: Kind, y: Msg, k2: Kind)
    ensures SentKinds([Sent(x), Received(k1), Sent(y), Received(k2)]) == [KindOf(x), KindOf(y)]
    ensures ReceivedKinds([Sent(x), Received(k1), Sent(y), Received(k2)]) == [k1, k2]
  {
    var t3 := [Received(k2)];
    assert t3[1..] == [];
    assert SentKinds(t3) == [] && ReceivedKinds(t3) == [k2];
    var t2 := [Sent(y)] + t3;
    assert t2[1..] == t3;
    assert SentKinds(t2) == [KindOf(y)] && ReceivedKinds(t2) == [k2];
    var t1 := [Received(k1)] + t2;
    assert t1[1..] == t2;
    var t0 := [Sent(x)] + t1;
    assert t0[1..] == t1;
    assert t0 == [Sent(x), Received(k1), Sent(y), Received(k2)];
  }

  /** SentKinds of a trace made of two parts. */
  lemma {:induction false} SentKindsAppend(a: seq<Op>, b: seq<Op>)
    ensures SentKinds(a + b) == SentKinds(a) + SentKinds(b)
  {
    if a == [] {
      assert a + b == b;
    } else {
      var ab := a + b;
      assert ab[0] == a[0] && ab[1..] == a[1..] + b;
      SentKindsAppend(a[1..], b);
    }
  }

  /** ReceivedKinds of a trace made of two parts. */
  lemma {:induction false} ReceivedKindsAppend(a: seq<Op>, b: seq<Op>)
    ensures ReceivedKinds(a + b) == ReceivedKinds(a) + ReceivedKinds(b)
  {
    if a == [] {
      assert a + b == b;
    } else {
      var ab := a + b;
      assert ab[0] == a[0] && ab[1..] == a[1..] + b;
      ReceivedKindsAppend(a[1..], b);
    }
  }

  /** Against an honest acceptor, the dialing side succeeds and derives the session keys of both hellos. */
  lemma DialerRun(lc: AuthLocal, remote: AuthRemote, dc: Draws, la: AuthLocal, rauth: AuthRemote, da: Draws, room: nat, cr: Crypto)
    requires Honest(cr, lc, dc, la, da) && room >= 4
    requires remote.sigKey == Sys.SigPubKey(la.sigKey.Pub()) && rauth.dialKey == remote.acceptKey
    ensures ConnectOk(false, room, AcceptorSends(lc, dc, la, rauth, da, cr), lc, remote, dc, cr)
    ensures HelloKeys(AcceptorSends(lc, dc, la, rauth, da, cr), dc, cr)
         == SessionKeys(cr.sha1, PubOf(dc.hello), PubOf(da.hello), dc.halves, da.halves)
  {
    var inbox := AcceptorSends(lc, dc, la, rauth, da, cr);
    assert inbox[2..][1] == inbox[3];
  }

  /** The kinds the dialing side writes and reads in a successful AuthConnect. */
  lemma DialerKinds(room: nat, inbox: seq<Msg>, lc: AuthLocal, remote: AuthRemote, dc: Draws, cr: Crypto)
    requires ConnectOk(false, room, inbox, lc, remote, dc, cr)
    ensures var tr := HelloTrace(inbox, dc, cr) + ConnectRoundTrace(inbox[2..], lc, remote, dc, cr);
      && SentKinds(tr) == [KHelloPub, KKeyHalves, KConnM1, KConnM2]
      && ReceivedKinds(tr) == [KHelloPub, KKeyHalves, KAccM1, KAccM2]
  {
    var h := HelloTrace(inbox, dc, cr);
    var c := ConnectRoundTrace(inbox[2..], lc, remote, dc, cr);
    RoundKinds(h[0].m, KHelloPub, h[2].m, KKeyHalves);
    RoundKinds(c[0].m, KAccM1, c[2].m, KAccM2);
    SentKindsAppend(h, c);
    ReceivedKindsAppend(h, c);
  }

  /** Against an honest dialer, the accepting side finds rauth, succeeds, and derives the session keys of both hellos. */
  lemma AcceptorRun(lc: AuthLocal, remote: AuthRemote, dc: Draws, la: AuthLocal, lookup: Sys.DialKey -> Option<AuthRemote>, da: Draws, room: nat, cr: Crypto)
    requires Honest(cr, lc, dc, la, da) && room >= 4
    requires lookup(remote.dialKey).Some? && lookup(remote.dialKey).value.sigKey == Sys.SigPubKey(lc.sigKey.Pub())
    ensures AcceptOk(false, room, DialerSends(lc, remote, dc, la, da, cr), la, lookup, da, cr)
    ensures DialerSends(lc, remote, dc, la, da, cr)[2].dialKey.int64 == remote.dialKey
    ensures HelloKeys(DialerSends(lc, remote, dc, la, da, cr), da, cr)
         == SessionKeys(cr.sha1, PubOf(da.hello), PubOf(dc.hello), da.halves, dc.halves)
  {
    var inbox := DialerSends(lc, remote, dc, la, da, cr);
    assert inbox[2..][1] == inbox[3];
  }

  /** The kinds the accepting side writes and reads in a successful AuthAccept. */
  lemma AcceptorKinds(room: nat, inbox: seq<Msg>, la: AuthLocal, lookup: Sys.DialKey -> Option<AuthRemote>, da: Draws, cr: Crypto)
    requires AcceptOk(false, room, inbox, la, lookup, da, cr)
    ensures var tr := HelloTrace(inbox, da, cr) + AcceptRoundTrace(inbox[2..], la, lookup(inbox[2].dialKey.int64).value, da, cr);
      && SentKinds(tr) == [KHelloPub, KKeyHalves, KAccM1, KAccM2]
      && ReceivedKinds(tr) == [KHelloPub, KKeyHalves, KConnM1, KConnM2]
  {
    var h := HelloTrace(inbox, da, cr);
    var a := AcceptRoundTrace(inbox[2..], la, lookup(inbox[2].dialKey.int64).value, da, cr);
    RoundKinds(h[0].m, KHelloPub, h[2].m, KKeyHalves);
    RoundKinds(a[0].m, KConnM1, a[2].m, KConnM2);
    SentKindsAppend(h, a);
    ReceivedKindsAppend(h, a);
  }

  /**
   * Two friends who hold each other's signature keys and matching dial and
   * accept keys complete the handshake over one connection: each side gets
   * the other's Id, each side's write key is the other's read key, and each
   * side reads structs of exactly the kinds the other wrote, in order.
   */
  method Handshake(lc: AuthLocal, remote: AuthRemote, tc: Tube, dc: Draws,
                   la: AuthLocal, lookup: Sys.DialKey -> Option<AuthRemote>, ta: Tube, da: Draws, cr: Crypto)
    returns (idc: Sys.Id, ec: Option<Error>, ida: Sys.Id, ea: Option<Error>)
    requires tc != ta && Honest(cr, lc, dc, la, da) && IdKey.Sha256Width(cr.hashing)
    requires remote.sigKey == Sys.SigPubKey(la.sigKey.Pub())
    requires lookup(remote.dialKey).Some?
    requires lookup(remote.dialKey).value.sigKey == Sys.SigPubKey(lc.sigKey.Pub())
    requires lookup(remote.dialKey).value.dialKey == remote.acceptKey
    requires !tc.closed && tc.room >= 4 && tc.trace == []
    requires !ta.closed && ta.room >= 4 && ta.trace == []
    requires tc.inbox == AcceptorSends(lc, dc, la, lookup(remote.dialKey).value, da, cr)
    requires ta.inbox == DialerSends(lc, remote, dc, la, da, cr)
    modifies tc, ta
    ensures ec.None? && ea.None?
    ensures idc == IdKey.KeyId(la.sigKey.Pub(), cr.hashing) && ida == IdKey.KeyId(lc.sigKey.Pub(), cr.hashing)
    ensures tc.keys.Some? && ta.keys.Some?
    ensures tc.keys.value.1 == ta.keys.value.0 && tc.keys.value.0 == ta.keys.value.1
    ensures SentKinds(tc.trace) == ReceivedKinds(ta.trace) && SentKinds(ta.trace) == ReceivedKinds(tc.trace)
  {
    DialerRun(lc, remote, dc, la, lookup(remote.dialKey).value, da, tc.room, cr);
    DialerKinds(tc.room, tc.inbox, lc, remote, dc, cr);
    AcceptorRun(lc, remote, dc, la, lookup, da, ta.room, cr);
    AcceptorKinds(ta.room, ta.inbox, la, lookup, da, cr);
    KeysAgree(cr.sha1, PubOf(dc.hello), PubOf(da.hello), dc.halves, da.halves);
    ghost var trc := HelloTrace(tc.inbox, dc, cr) + ConnectRoundTrace(tc.inbox[2..], lc, remote, dc, cr);
    ghost var tra := HelloTrace(ta.inbox, da, cr) + AcceptRoundTrace(ta.inbox[2..], la, lookup(remote.dialKey).value, da, cr);
    idc, ec := AuthConnect(lc, remote, tc, dc, cr);
    ida, ea := AuthAccept(la, lookup, ta, da, cr);
    assert tc.trace == [] + trc == trc;
    assert ta.trace == [] + tra == tra;
  }
}
