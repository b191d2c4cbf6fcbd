// The friends table (the buttress of src/pkg/core/db.go): ourselves, and the
// friends keyed by slot number. Reading the table back from its JSON form
// keeps, for each slot, the last well-formed record that names it.
module Buttress {
  import opened Base
  import Sys
  import IdKey
  import GoStrconv

  /** The fields of a friend record, as one value. */
  datatype Record = Record(
    slot: int, name: string, email: string, id: Option<Sys.Id>,
    signatureKey: Option<Sys.SigPubKey>, dialKey: Option<Sys.DialKey>, addr: string,
    acceptKey: Option<Sys.DialKey>, helloKey: Option<Sys.HelloKey>, rest: map<string, string>)

  /** The current fields of f. */
  function Snap(f: Sys.Friend): Record
    reads f
  {
    Record(f.slot, f.name, f.email, f.id, f.signatureKey, f.dialKey, f.addr, f.acceptKey, f.helloKey, f.rest)
  }

  /** IsComplete on a record: the Id and all four keys are present. */
  predicate Complete(r: Record)
  {
    r.id.Some? && r.signatureKey.Some? && r.helloKey.Some? && r.dialKey.Some? && r.acceptKey.Some?
  }

  lemma SnapComplete(f: Sys.Friend)
    ensures Complete(Snap(f)) <==> f.IsComplete()
  {
  }

  /** The ways a friend is looked up besides its slot. */
  datatype Key = ById(id: Sys.Id) | ByAcceptKey(accept: Sys.DialKey) | ByDialKey(dial: Sys.DialKey)

  /** Whether f carries key k; a nil field matches nothing. */
  predicate Matches(f: Sys.Friend, k: Key)
    reads f
  {
    match k
    case ById(id) => f.id == Some(id)
    case ByAcceptKey(a) => f.acceptKey == Some(a)
    case ByDialKey(d) => f.dialKey == Some(d)
  }

  const SlotBusy: Error := Failure("db, slot busy")
  const DuplicateId: Error := Failure("db, Duplicate Id present")

  /** core.Error{ErrDecode, arg} as its String method prints it (ErrDecode is 4). */
  function DecodeError(arg: string): Error
  {
    Failure("TonErr: 4, " + arg)
  }

  /** The integers 0 .. n - 1. */
  function Range(n: nat): (r: set<int>)
    ensures |r| == n
    ensures forall i :: i in r <==> 0 <= i < n
  {
    if n == 0 then {} else Range(n - 1) + {n - 1}
  }

  /** A non-empty set of ints has a member to pick. */
  lemma Pickable(a: set<int>)
    requires a != {}
    ensures exists x :: x in a
  {
    if forall x :: x !in a {
      assert false;
    }
  }

  /** A value of a map is stored under some key. */
  lemma StoredUnder(m: map<int, Sys.Friend>, v: Sys.Friend)
    requires v in m.Values
    ensures exists k :: k in m && m[k] == v
  {
    if forall k :: k in m ==> m[k] != v {
      assert false;
    }
  }

  lemma {:induction false} SubsetSize(a: set<int>, b: set<int>)
    requires a <= b
    ensures |a| <= |b|
    decreases |b|
  {
    if a != {} {
      Pickable(a);
      var x :| x in a;
      SubsetSize(a - {x}, b - {x});
    }
  }

  /** Fewer than 2^31 slots in use leave a free slot among the non-negative 32-bit ints. */
  lemma FreeSlotExists(used: set<int>)
    requires |used| < TWO_31
    ensures exists s :: 0 <= s < TWO_31 && s !in used
  {
    if forall s :: 0 <= s < TWO_31 ==> s in used {
      SubsetSize(Range(TWO_31), used);
      assert false;
    }
  }

  /** The friends table: ourselves and the friends by slot. */
  class Db {
    const me: Sys.Me
    var recs: map<int, Sys.Friend>

    /** Every friend records the slot it is filed under. */
    ghost predicate Valid()
      reads this, recs.Values
    {
      forall s | s in recs :: recs[s].slot == s
    }

    /** No two slots hold friends with the same (non-nil) Id. */
    ghost predicate UniqueIds()
      reads this, recs.Values
    {
      forall s, t | s in recs && t in recs && recs[s].id.Some? && recs[s].id == recs[t].id :: s == t
    }

    /** MakeFriendDb: a table with no friends and a freshly generated identity (key is the generated key). */
    constructor MakeFriendDb(key: Sys.SigKey, hs: IdKey.Hashing)
      requires |IdKey.Digest(key.Pub(), hs)| == 32
      ensures fresh(me) && recs == map[] && Valid() && UniqueIds()
      ensures me.id == IdKey.KeyId(key.Pub(), hs) && me.signatureKey == Some(key)
      ensures me.name == me.email == me.addr == me.extAddr == ""
    {
      var m := new Sys.Me();
      m.Init(key, hs);
      me := m;
      recs := map[];
    }

    /** A table holding me and the friends in recs. */
    constructor Load(me: Sys.Me, recs: map<int, Sys.Friend>)
      ensures this.me == me && this.recs == recs
    {
      this.me := me;
      this.recs := recs;
    }

    /** GetBySlot: the friend filed under slot, or nil. */
    function GetBySlot(slot: int): (r: Option<Sys.Friend>)
      reads this
      ensures r.Some? <==> slot in recs
      ensures r.Some? ==> r.value == recs[slot]
    {
      if slot in recs then Some(recs[slot]) else None
    }

    /** The range loop of GetById, GetByAcceptKey and GetByDialKey: some friend carrying k, or nil if none does. */
    method Find(k: Key) returns (r: Option<Sys.Friend>)
      ensures r.Some? ==> r.value in recs.Values && Matches(r.value, k)
      ensures r.None? <==> forall s | s in recs :: !Matches(recs[s], k)
    {
      var rest := recs.Keys;
      while rest != {}
        invariant rest <= recs.Keys
        invariant forall s | s in recs && s !in rest :: !Matches(recs[s], k)
        decreases |rest|
      {
        Pickable(rest);
        var s :| s in rest;
        if Matches(recs[s], k) {
          return Some(recs[s]);
        }
        rest := rest - {s};
      }
      return None;
    }

    /** GetById: a friend with this Id, the only one while Ids are unique. */
    method GetById(id: Sys.Id) returns (r: Option<Sys.Friend>)
      ensures r.Some? ==> r.value in recs.Values && r.value.id == Some(id)
      ensures r.None? <==> forall s | s in recs :: recs[s].id != Some(id)
      ensures r.Some? && UniqueIds() ==> forall s | s in recs && recs[s].id == Some(id) :: recs[s] == r.value
    {
      r := Find(ById(id));
      if r.Some? {
        StoredUnder(recs, r.value);
      }
    }

    /** GetByAcceptKey: a friend whose accept key equals key, or nil. */
    method GetByAcceptKey(key: Sys.DialKey) returns (r: Option<Sys.Friend>)
      ensures r.Some? ==> r.value in recs.Values && r.value.acceptKey == Some(key)
      ensures r.None? <==> forall s | s in recs :: recs[s].acceptKey != Some(key)
    {
      r := Find(ByAcceptKey(key));
    }

    /** GetByDialKey: a friend whose dial key equals key, or nil. */
    method GetByDialKey(key: Sys.DialKey) returns (r: Option<Sys.Friend>)
      ensures r.Some? ==> r.value in recs.Values && r.value.dialKey == Some(key)
      ensures r.None? <==> forall s | s in recs :: recs[s].dialKey != Some(key)
    {
      r := Find(ByDialKey(key));
    }

    /** Enumerate: every friend once, in the map's (unspecified) order; order holds their slots. */
    method Enumerate() returns (r: seq<Sys.Friend>, ghost order: seq<int>)
      ensures |r| == |order| == |recs.Keys|
      ensures forall i | 0 <= i < |order| :: order[i] in recs && r[i] == recs[order[i]]
      ensures forall i, j | 0 <= i < j < |order| :: order[i] != order[j]
      ensures forall s | s in recs :: s in order
    {
      r, order := [], [];
      var rest := recs.Keys;
      while rest != {}
        invariant rest <= recs.Keys
        invariant |r| == |order| && |order| + |rest| == |recs.Keys|
        invariant forall i | 0 <= i < |order| :: order[i] in recs && order[i] !in rest && r[i] == recs[order[i]]
        invariant forall i, j | 0 <= i < j < |order| :: order[i] != order[j]
        invariant forall s | s in recs && s !in rest :: s in order
        decreases |rest|
      {
        Pickable(rest);
        var s :| s in rest;
        r, order := r + [recs[s]], order + [s];
        rest := rest - {s};
      }
    }

    /** Remove: the slot is emptied; the other slots keep their friends. */
    method Remove(slot: int)
      modifies this
      ensures recs == old(recs) - {slot}
      ensures old(Valid()) ==> Valid()
      ensures old(UniqueIds()) ==> UniqueIds()
    {
      recs := recs - {slot};
    }

    /**
     * Attach: files u under slot unless the slot is taken or another friend
     * already has u's Id; on success u records the slot.
     */
    method Attach(slot: int, u: Sys.Friend) returns (err: Option<Error>)
      modifies this, u
      ensures old(slot in recs) ==> err == Some(SlotBusy)
      ensures old(slot !in recs && u.id.Some? && exists s | s in recs :: recs[s].id == u.id) ==> err == Some(DuplicateId)
      ensures err.None? <==> old(slot !in recs && (u.id.None? || forall s | s in recs :: recs[s].id != u.id))
      ensures err.None? ==> recs == old(recs)[slot := u] && u.slot == slot
      ensures err.Some? ==> recs == old(recs) && u.slot == old(u.slot)
      ensures Snap(u).(slot := old(u.slot)) == old(Snap(u))
      ensures old(Valid()) && u !in old(recs.Values) ==> Valid()
      ensures old(UniqueIds()) ==> UniqueIds()
    {
      if slot in recs {
        return Some(SlotBusy);
      }
      if u.id.Some? {
        var f := Find(ById(u.id.value));
        if f.Some? {
          return Some(DuplicateId);
        }
      }
      u.slot := slot;
      recs := recs[slot := u];
      err := None;
    }

    /** UnusedSlot: a non-negative 32-bit int no friend is filed under (rand.Int's draw is a free choice). */
    method UnusedSlot() returns (s: int)
      requires |recs.Keys| < TWO_31
      ensures 0 <= s < TWO_31 && s !in recs
    {
      FreeSlotExists(recs.Keys);
      s :| 0 <= s < TWO_31 && s !in recs;
    }
  }

  // ----- reading the table back (ReadFriendDb) -----

  /** jsonMe: the text form of ourselves. */
  datatype JsonMe = JsonMe(id: string, sigKey: string, name: string, addr: string, email: string, extAddr: string)

  /** jsonFriend: the text form of a friend. */
  datatype JsonFriend = JsonFriend(
    slot: string, id: string, name: string, email: string, addr: string,
    sigKey: string, dialKey: string, acceptKey: string, helloKey: string, rest: map<string, string>)

  /** jsonDb: the decoded friends file. */
  datatype JsonDb = JsonDb(me: JsonMe, friends: seq<JsonFriend>)

  /**
   * The key parsers sys.ParseSigKey, ParseSigPubKey and ParseHelloKey
   * (base64 and big-number decoding), as parameters.
   */
  datatype KeyTexts = KeyTexts(
    sigKey: string -> Result<Sys.SigKey>,
    sigPubKey: string -> Result<Sys.SigPubKey>,
    helloKey: string -> Result<Sys.HelloKey>)

  /** A parse result as the friend field keeps it: the value, or nil on error. */
  function Kept<T>(r: Result<T>): (o: Option<T>)
    ensures o.Some? <==> r.Ok?
    ensures o.Some? ==> o.value == r.value
  {
    if r.Ok? then Some(r.value) else None
  }

  /** The slot a record names: Atoi of its text, unless that fails or is negative. */
  function SlotOf(e: JsonFriend): (r: Option<int>)
    ensures r.Some? <==> GoStrconv.Atoi(e.slot).Ok? && GoStrconv.Atoi(e.slot).value >= 0
    ensures r.Some? ==> r.value == GoStrconv.Atoi(e.slot).value
  {
    match GoStrconv.Atoi(e.slot)
    case Ok(v) => if v < 0 then None else Some(v)
    case Err(_) => None
  }

  /** The friend a record with a valid slot becomes; unparsable Ids and keys become nil. */
  function FromJson(e: JsonFriend, slot: int, keys: KeyTexts): (r: Record)
    ensures r.slot == slot && r.name == e.name && r.email == e.email && r.addr == e.addr && r.rest == e.rest
    ensures r.id.Some? <==> Sys.ParseId(e.id).1.None?
    ensures r.id.Some? ==> r.id.value == Sys.ParseId(e.id).0
    ensures r.dialKey == Kept(Sys.ParseDialKey(e.dialKey)) && r.acceptKey == Kept(Sys.ParseDialKey(e.acceptKey))
    ensures r.signatureKey == Kept(keys.sigPubKey(e.sigKey)) && r.helloKey == Kept(keys.helloKey(e.helloKey))
  {
    var p := Sys.ParseId(e.id);
    Record(slot, e.name, e.email, if p.1.None? then Some(p.0) else None,
           Kept(keys.sigPubKey(e.sigKey)), Kept(Sys.ParseDialKey(e.dialKey)), e.addr,
           Kept(Sys.ParseDialKey(e.acceptKey)), Kept(keys.helloKey(e.helloKey)), e.rest)
  }

  /** For each slot named by a valid record of es, the index of the last such record. */
  function Latest(es: seq<JsonFriend>): (m: map<int, nat>)
    ensures forall s | s in m :: m[s] < |es|
    decreases |es|
  {
    if es == [] then map[]
    else
      var m := Latest(es[..|es| - 1]);
      var k := |es| - 1;
      match SlotOf(es[k])
      case Some(s) => m[s := k]
      case None => m
  }

  /**
   * The slot rule: exactly the slots named by valid records are filled, each
   * from the last record naming it; records with a bad slot are skipped.
   */
  lemma {:induction false} LatestNames(es: seq<JsonFriend>)
    ensures forall s | s in Latest(es) :: SlotOf(es[Latest(es)[s]]) == Some(s)
    decreases |es|
  {
    if es != [] {
      var k := |es| - 1;
      var p := es[..k];
      LatestNames(p);
      forall s | s in Latest(es)
        ensures SlotOf(es[Latest(es)[s]]) == Some(s)
      {
        if Latest(es)[s] < k {
          assert Latest(es)[s] == Latest(p)[s];
          assert es[Latest(p)[s]] == p[Latest(p)[s]];
        }
      }
    }
  }

  lemma {:induction false} LatestIsLast(es: seq<JsonFriend>)
    ensures forall s, j | s in Latest(es) && Latest(es)[s] < j < |es| :: SlotOf(es[j]) != Some(s)
    decreases |es|
  {
    if es != [] {
      var k := |es| - 1;
      var p := es[..k];
      LatestIsLast(p);
      forall s, j | s in Latest(es) && Latest(es)[s] < j < |es|
        ensures SlotOf(es[j]) != Some(s)
      {
        if j < k {
          assert s in Latest(p) && Latest(es)[s] == Latest(p)[s];
          assert es[j] == p[j];
        }
      }
    }
  }

  lemma {:induction false} LatestCovers(es: seq<JsonFriend>)
    ensures forall j | 0 <= j < |es| && SlotOf(es[j]).Some? :: SlotOf(es[j]).value in Latest(es)
    decreases |es|
  {
    if es != [] {
      var k := |es| - 1;
      var p := es[..k];
      LatestCovers(p);
      forall j | 0 <= j < k && SlotOf(es[j]).Some?
        ensures SlotOf(es[j]).value in Latest(es)
      {
        assert es[j] == p[j];
      }
    }
  }

  /**
   * The slot rule: exactly the slots named by valid records are filled, each
   * from the last record naming it; records with a bad slot are skipped.
   */
  lemma LatestSpec(es: seq<JsonFriend>)
    ensures forall s | s in Latest(es) :: SlotOf(es[Latest(es)[s]]) == Some(s)
    ensures forall s, j | s in Latest(es) && Latest(es)[s] < j < |es| :: SlotOf(es[j]) != Some(s)
    ensures forall j | 0 <= j < |es| && SlotOf(es[j]).Some? :: SlotOf(es[j]).value in Latest(es)
  {
    LatestNames(es);
    LatestIsLast(es);
    LatestCovers(es);
  }

  /** A fresh friend object holding the fields r (the composite literal of ReadFriendDb). */
  method MakeFriend(r: Record) returns (f: Sys.Friend)
    ensures fresh(f) && Snap(f) == r
  {
    f := new Sys.Friend();
    f.slot := r.slot;
    f.name := r.name;
    f.email := r.email;
    f.addr := r.addr;
    f.rest := r.rest;
    f.id := r.id;
    f.signatureKey := r.signatureKey;
    f.dialKey := r.dialKey;
    f.acceptKey := r.acceptKey;
    f.helloKey := r.helloKey;
  }

  /** The friends loop of ReadFriendDb: a fresh friend per filled slot, made from the last record naming it. */
  method LoadFriends(es: seq<JsonFriend>, keys: KeyTexts) returns (recs: map<int, Sys.Friend>)
    ensures recs.Keys == Latest(es).Keys
    ensures forall s | s in recs :: fresh(recs[s]) && Snap(recs[s]) == FromJson(es[Latest(es)[s]], s, keys)
  {
    recs := map[];
    var i := 0;
    while i < |es|
      invariant 0 <= i <= |es|
      invariant recs.Keys == Latest(es[..i]).Keys
      invariant forall s | s in recs :: Latest(es[..i])[s] < i
      invariant forall s | s in recs :: fresh(recs[s]) && Snap(recs[s]) == FromJson(es[Latest(es[..i])[s]], s, keys)
    {
      assert es[..i + 1][..i] == es[..i];
      var slot := SlotOf(es[i]);
      if slot.Some? {
        var fr := MakeFriend(FromJson(es[i], slot.value, keys));
        recs := recs[slot.value := fr];
      }
      i := i + 1;
    }
    assert es[..i] == es;
  }

  /**
   * ReadFriendDb on an already decoded file: fails with ErrDecode on a bad
   * own Id or own signature key; otherwise the table holds ourselves and the
   * friends of the slot rule.
   */
  method ReadFriendDb(book: JsonDb, keys: KeyTexts) returns (r: Result<Db>)
    ensures Sys.ParseId(book.me.id).1.Some? ==> r == Err(DecodeError(book.me.id))
    ensures Sys.ParseId(book.me.id).1.None? && keys.sigKey(book.me.sigKey).Err? ==> r == Err(DecodeError(book.me.sigKey))
    ensures r.Ok? <==> Sys.ParseId(book.me.id).1.None? && keys.sigKey(book.me.sigKey).Ok?
    ensures r.Ok? ==> fresh(r.value) && fresh(r.value.me) && r.value.Valid()
    ensures r.Ok? ==> r.value.me.id == Sys.ParseId(book.me.id).0 && r.value.me.signatureKey == Some(keys.sigKey(book.me.sigKey).value)
    ensures r.Ok? ==> (r.value.me.name == book.me.name && r.value.me.addr == book.me.addr
      && r.value.me.email == book.me.email && r.value.me.extAddr == book.me.extAddr)
    ensures r.Ok? ==> r.value.recs.Keys == Latest(book.friends).Keys
    ensures r.Ok? ==> forall s | s in r.value.recs ::
      fresh(r.value.recs[s]) && Snap(r.value.recs[s]) == FromJson(book.friends[Latest(book.friends)[s]], s, keys)
  {
    var me := new Sys.Me();
    me.name, me.addr, me.extAddr, me.email := book.me.name, book.me.addr, book.me.extAddr, book.me.email;
    var id := Sys.ParseId(book.me.id);
    if id.1.Some? {
      return Err(DecodeError(book.me.id));
    }
    me.id := id.0;
    var pk := keys.sigKey(book.me.sigKey);
    if pk.Err? {
      return Err(DecodeError(book.me.sigKey));
    }
    me.signatureKey := Some(pk.value);
    var recs := LoadFriends(book.friends, keys);
    var db := new Db.Load(me, recs);
    r := Ok(db);
  }
}
