// The application core's operations on the friends table
// (src/pkg/core/core.go): editing ourselves and our friends, looking friends
// up, reserving and revoking slots, and pushing complete friends to the
// dialer. The dialer is seen through the calls Core makes on it.
module Core {
  import opened Base
  import Sys
  import IdKey
  import Auth
  import Buttress

  /** A call Core makes on its dialer. */
  datatype DialerCall =
    | Revoked(id: Sys.Id)                           // dialer.Revoke(id)
    | Added(remote: Auth.AuthRemote, addr: string)  // dialer.Add(&g, g.Addr)
    | Updated(id: Sys.Id, addr: string)             // dialer.Update(id, addr)

  /** The value handed to Write, by its dynamic type (a nil *DialKey is None). */
  datatype Value =
    | Text(text: string)
    | IdValue(id: Sys.Id)
    | SigPubKeyValue(sigKey: Sys.SigPubKey)
    | DialKeyValue(dialKey: Option<Sys.DialKey>)

  /** The keys Write accepts. */
  const WriteKeys: set<string> := {"Name", "Email", "Addr", "SignatureKey", "DialKey"}

  /**
   * What Write needs in order not to panic on a present slot: the key is not
   * "Id" (disabled), v has the type the key's case asserts, and a signature
   * key hashes to the 32 bytes IdForKey demands.
   */
  predicate WriteTyped(key: string, v: Value, hs: IdKey.Hashing)
  {
    && key != "Id"
    && (key == "Name" || key == "Email" || key == "Addr" ==> v.Text?)
    && (key == "SignatureKey" ==> v.SigPubKeyValue? && |IdKey.Digest(v.sigKey.rsa, hs)| == 32)
    && (key == "DialKey" ==> v.DialKeyValue?)
  }

  /** The friend's fields after Write(key, v), or None when the key is unknown (EINVAL). */
  function Written(r: Buttress.Record, key: string, v: Value, hs: IdKey.Hashing): (w: Option<Buttress.Record>)
    requires WriteTyped(key, v, hs)
    ensures w.Some? <==> key in WriteKeys
    ensures w.Some? ==> (w.value.slot == r.slot && w.value.acceptKey == r.acceptKey
      && w.value.helloKey == r.helloKey && w.value.rest == r.rest)
  {
    if key == "Name" then Some(r.(name := v.text))
    else if key == "Email" then Some(r.(email := v.text))
    else if key == "Addr" then Some(r.(addr := v.text))
    else if key == "SignatureKey" then Some(r.(signatureKey := Some(v.sigKey), id := Some(IdKey.KeyId(v.sigKey.rsa, hs))))
    else if key == "DialKey" then Some(r.(dialKey := v.dialKey))
    else None
  }

  /** The fields of the friend Reserve creates under slot: the generated accept and hello keys, nothing else. */
  function Reserved(slot: int, accept: Sys.DialKey, hello: Sys.HelloKey): Buttress.Record
  {
    Buttress.Record(slot, "", "", None, None, None, "", Some(accept), Some(hello), map[])
  }

  /** The sys.AuthRemote a complete friend presents to the dialer. */
  function RemoteOf(r: Buttress.Record): Auth.AuthRemote
    requires Buttress.Complete(r)
  {
    Auth.AuthRemote(r.id.value, r.signatureKey.value, r.dialKey.value, r.acceptKey.value)
  }

  /**
   * A friend reserved and then given a signature key and a dial key is
   * complete, and its Id is the Id of that signature key, so VerifyKeyAndId
   * accepts the pair.
   */
  lemma ReservedThenKeyed(slot: int, accept: Sys.DialKey, hello: Sys.HelloKey, sk: Sys.SigPubKey, dk: Sys.DialKey, hs: IdKey.Hashing)
    requires |IdKey.Digest(sk.rsa, hs)| == 32
    ensures var w1 := Written(Reserved(slot, accept, hello), "SignatureKey", SigPubKeyValue(sk), hs);
      && w1.Some?
      && var w2 := Written(w1.value, "DialKey", DialKeyValue(Some(dk)), hs);
      && w2.Some? && Buttress.Complete(w2.value)
      && w2.value.id == Some(IdKey.KeyId(sk.rsa, hs))
      && RemoteOf(w2.value) == Auth.AuthRemote(IdKey.KeyId(sk.rsa, hs), sk, dk, accept)
  {
  }

  // ----- the dialer's table, as the calls leave it -----

  /** The dialer's per-id entries: the remote and the address it dials. */
  type Registry = map<Sys.Id, (Auth.AuthRemote, string)>

  /** One call's effect: Revoke drops the id, Add is a no-op for a known id, Update changes a known id's address. */
  function Apply(reg: Registry, c: DialerCall): Registry
  {
    match c
    case Revoked(id) => reg - {id}
    case Added(a, addr) => if a.id in reg then reg else reg[a.id := (a, addr)]
    case Updated(id, addr) => if id in reg then reg[id := (reg[id].0, addr)] else reg
  }

  /** The calls' effects in order. */
  function Replay(reg: Registry, cs: seq<DialerCall>): Registry
    decreases |cs|
  {
    if cs == [] then reg else Replay(Apply(reg, cs[0]), cs[1..])
  }

  lemma {:induction false} ReplayAppend(reg: Registry, cs: seq<DialerCall>, ds: seq<DialerCall>)
    ensures Replay(reg, cs + ds) == Replay(Replay(reg, cs), ds)
    decreases |cs|
  {
    if cs != [] {
      assert (cs + ds)[0] == cs[0] && (cs + ds)[1..] == cs[1..] + ds;
      ReplayAppend(Apply(reg, cs[0]), cs[1..], ds);
    } else {
      assert cs + ds == ds;
    }
  }

  /**
   * What Sync sends makes the dialer's entry for the friend exactly the
   * friend's current remote and address, whatever the dialer held before
   * (Add alone would keep a stale entry: see AddAloneKeepsStale).
   */
  lemma SyncInstalls(reg: Registry, a: Auth.AuthRemote, addr: string)
    ensures Replay(reg, [Revoked(a.id), Added(a, addr)]) == reg[a.id := (a, addr)]
  {
    var r1 := reg - {a.id};
    assert [Revoked(a.id), Added(a, addr)][1..] == [Added(a, addr)];
    assert Replay(reg, [Revoked(a.id), Added(a, addr)]) == Replay(r1, [Added(a, addr)]);
    assert Replay(r1, [Added(a, addr)]) == r1[a.id := (a, addr)];
    assert r1[a.id := (a, addr)] == reg[a.id := (a, addr)];
  }

  /** After any earlier calls, the calls Sync appends for a complete friend leave its entry at its current fields. */
  lemma SyncReplay(reg: Registry, earlier: seq<DialerCall>, f: Buttress.Record)
    requires Buttress.Complete(f)
    ensures Replay(reg, earlier + Core.SyncCalls(f)) == Replay(reg, earlier)[f.id.value := (RemoteOf(f), f.addr)]
  {
    var a := RemoteOf(f);
    ReplayAppend(reg, earlier, Core.SyncCalls(f));
    SyncInstalls(Replay(reg, earlier), a, f.addr);
  }

  /** Add on an id the dialer already knows changes nothing. */
  lemma AddAloneKeepsStale(reg: Registry, a: Auth.AuthRemote, addr: string)
    requires a.id in reg
    ensures Replay(reg, [Added(a, addr)]) == reg
  {
  }

  /** Update reaches only an id the dialer knows, and changes only its address. */
  lemma UpdateOnlyKnown(reg: Registry, id: Sys.Id, addr: string)
    ensures id in reg ==> Replay(reg, [Updated(id, addr)]) == reg[id := (reg[id].0, addr)]
    ensures id !in reg ==> Replay(reg, [Updated(id, addr)]) == reg
  {
  }

  /** Core: the friends table, the hashing the Ids are computed with, and the calls made on the dialer. */
  class Core {
    const db: Buttress.Db
    const hs: IdKey.Hashing
    var calls: seq<DialerCall>

    constructor (db: Buttress.Db, hs: IdKey.Hashing)
      ensures this.db == db && this.hs == hs && calls == []
    {
      this.db := db;
      this.hs := hs;
      calls := [];
    }

    /** SetMy: sets our Name, Email or ExtAddr; any other key panics. */
    method SetMy(key: string, v: string)
      requires key == "Name" || key == "Email" || key == "ExtAddr"
      modifies db.me
      ensures db.me.name == (if key == "Name" then v else old(db.me.name))
      ensures db.me.email == (if key == "Email" then v else old(db.me.email))
      ensures db.me.extAddr == (if key == "ExtAddr" then v else old(db.me.extAddr))
      ensures db.me.id == old(db.me.id) && db.me.signatureKey == old(db.me.signatureKey) && db.me.addr == old(db.me.addr)
    {
      if key == "Name" {
        db.me.name := v;
      } else if key == "Email" {
        db.me.email := v;
      } else {
        db.me.extAddr := v;
      }
    }

    /** GetBySlot: the friend in slot, or EINVAL. */
    method GetBySlot(slot: int) returns (r: Option<Sys.Friend>, err: Option<Error>)
      ensures err.None? <==> slot in db.recs
      ensures err.Some? ==> err == Some(EINVAL) && r.None?
      ensures err.None? ==> r == Some(db.recs[slot])
    {
      r := db.GetBySlot(slot);
      err := if r.Some? then None else Some(EINVAL);
    }

    /** GetById: a friend with the Id, or EINVAL when none has it. */
    method GetById(id: Sys.Id) returns (r: Option<Sys.Friend>, err: Option<Error>)
      ensures err.Some? <==> forall s | s in db.recs :: db.recs[s].id != Some(id)
      ensures err.Some? ==> err == Some(EINVAL) && r.None?
      ensures err.None? ==> r.Some? && r.value in db.recs.Values && r.value.id == Some(id)
    {
      r := db.GetById(id);
      err := if r.Some? then None else Some(EINVAL);
    }

    /** GetByAcceptKey: a friend with the accept key, or EINVAL when none has it. */
    method GetByAcceptKey(key: Sys.DialKey) returns (r: Option<Sys.Friend>, err: Option<Error>)
      ensures err.Some? <==> forall s | s in db.recs :: db.recs[s].acceptKey != Some(key)
      ensures err.Some? ==> err == Some(EINVAL) && r.None?
      ensures err.None? ==> r.Some? && r.value in db.recs.Values && r.value.acceptKey == Some(key)
    {
      r := db.GetByAcceptKey(key);
      err := if r.Some? then None else Some(EINVAL);
    }

    /** GetByDialKey: a friend with the dial key, or EINVAL when none has it. */
    method GetByDialKey(key: Sys.DialKey) returns (r: Option<Sys.Friend>, err: Option<Error>)
      ensures err.Some? <==> forall s | s in db.recs :: db.recs[s].dialKey != Some(key)
      ensures err.Some? ==> err == Some(EINVAL) && r.None?
      ensures err.None? ==> r.Some? && r.value in db.recs.Values && r.value.dialKey == Some(key)
    {
      r := db.GetByDialKey(key);
      err := if r.Some? then None else Some(EINVAL);
    }

    /** Revoke: empties the slot and revokes the friend's Id at the dialer; an empty slot is a no-op. */
    method Revoke(slot: int)
      modifies db, this
      ensures slot !in old(db.recs) ==> db.recs == old(db.recs) && calls == old(calls)
      ensures slot in old(db.recs) ==> db.recs == old(db.recs) - {slot}
      ensures slot in old(db.recs) && old(db.recs[slot].id).Some? ==> calls == old(calls) + [Revoked(old(db.recs[slot].id).value)]
      ensures slot in old(db.recs) && old(db.recs[slot].id).None? ==> calls == old(calls)
      ensures old(db.Valid()) ==> db.Valid()
      ensures old(db.UniqueIds()) ==> db.UniqueIds()
    {
      var f := db.GetBySlot(slot);
      if f.None? {
        return;
      }
      db.Remove(slot);
      if f.value.id.Some? {
        calls := calls + [Revoked(f.value.id.value)];
      }
    }

    /**
     * Reserve: a new friend under an unused slot, holding only freshly
     * generated accept and hello keys (parameters here). The Attach it makes
     * cannot fail, so its panic is unreachable.
     */
    method Reserve(accept: Sys.DialKey, hello: Sys.HelloKey) returns (f: Sys.Friend)
      requires |db.recs.Keys| < TWO_31
      modifies db
      ensures fresh(f) && 0 <= f.slot < TWO_31 && f.slot !in old(db.recs)
      ensures db.recs == old(db.recs)[f.slot := f]
      ensures Buttress.Snap(f) == Reserved(f.slot, accept, hello)
      ensures old(db.Valid()) ==> db.Valid()
      ensures old(db.UniqueIds()) ==> db.UniqueIds()
    {
      var slot := db.UnusedSlot();
      f := new Sys.Friend();
      f.slot := slot;
      f.Init(accept, hello);
      var err := db.Attach(slot, f);
      assert err.None?;
    }

    /**
     * Write: sets one field of the friend in slot and returns it; EINVAL for
     * an empty slot or an unknown key. A signature key also sets the Id to
     * the key's Id.
     */
    method Write(slot: int, key: string, v: Value) returns (r: Option<Sys.Friend>, err: Option<Error>)
      requires slot in db.recs ==> WriteTyped(key, v, hs)
      modifies if slot in db.recs then {db.recs[slot]} else {}
      ensures err.None? <==> slot in db.recs && key in WriteKeys
      ensures err.Some? ==> err == Some(EINVAL) && r.None?
      ensures slot in db.recs && key !in WriteKeys ==> Buttress.Snap(db.recs[slot]) == old(Buttress.Snap(db.recs[slot]))
      ensures err.None? ==> (r == Some(db.recs[slot])
        && Buttress.Snap(db.recs[slot]) == Written(old(Buttress.Snap(db.recs[slot])), key, v, hs).value)
      ensures old(db.Valid()) ==> db.Valid()
      ensures old(db.UniqueIds()) && (key == "SignatureKey" && slot in db.recs ==>
          forall s | s in db.recs && s != slot :: db.recs[s].id != Some(IdKey.KeyId(v.sigKey.rsa, hs)))
        ==> db.UniqueIds()
    {
      var f := db.GetBySlot(slot);
      if f.None? {
        return None, Some(EINVAL);
      }
      var u := f.value;
      if key == "Name" {
        u.name := v.text;
      } else if key == "Email" {
        u.email := v.text;
      } else if key == "Addr" {
        u.addr := v.text;
      } else if key == "SignatureKey" {
        u.signatureKey := Some(v.sigKey);
        var id := IdKey.IdForKey(v.sigKey.rsa, hs);
        u.id := Some(id);
      } else if key == "DialKey" {
        u.dialKey := v.dialKey;
      } else {
        return None, Some(EINVAL);
      }
      r, err := Some(u), None;
    }

    /** The calls Sync makes for a friend with these fields: none unless complete, else Revoke then Add. */
    static function SyncCalls(f: Buttress.Record): seq<DialerCall>
    {
      if Buttress.Complete(f) then [Revoked(f.id.value), Added(RemoteOf(f), f.addr)] else []
    }

    /** Sync: re-registers a complete friend with the dialer, from a copy of its fields. */
    method Sync(slot: int)
      modifies this
      ensures slot !in db.recs ==> calls == old(calls)
      ensures slot in db.recs ==> calls == old(calls) + SyncCalls(Buttress.Snap(db.recs[slot]))
    {
      var f := db.GetBySlot(slot);
      if f.None? || !f.value.IsComplete() {
        return;
      }
      var g := Buttress.Snap(f.value);
      var a := RemoteOf(g);
      calls := calls + [Revoked(a.id), Added(a, g.addr)];
    }

    /** SyncAddr: passes a complete friend's address to the dialer. */
    method SyncAddr(slot: int)
      modifies this
      ensures slot !in db.recs || !db.recs[slot].IsComplete() ==> calls == old(calls)
      ensures slot in db.recs && db.recs[slot].IsComplete() ==>
        calls == old(calls) + [Updated(db.recs[slot].id.value, db.recs[slot].addr)]
    {
      var f := db.GetBySlot(slot);
      if f.None? || !f.value.IsComplete() {
        return;
      }
      calls := calls + [Updated(f.value.id.value, f.value.addr)];
    }
  }
}
