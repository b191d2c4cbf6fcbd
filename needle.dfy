// The rendezvous server's client table (src/pkg/needle/server.go): pings
// refresh a client's entry, and a periodic sweep drops the clients that
// have not pinged recently.
module Needle {
  import opened Base

  /** Expire clients who have not pinged in the past 5 seconds, in nanoseconds. */
  const ClientFreshness: int := 5_000_000_000

  /** A client's id, the time of its last ping and its UDP address. */
  datatype Client = Client(id: i64, lastSeen: i64, addr: string)

  /** A client is stale at now when more than ClientFreshness has passed, in int64 arithmetic. */
  predicate Stale(now: i64, c: Client)
  {
    WrapI64(now - c.lastSeen) > ClientFreshness
  }

  /** The table after the sweep: the clients in ids that are not stale, and any still to be visited. */
  function Kept(ids: map<i64, Client>, now: i64, todo: set<i64>): (r: map<i64, Client>)
    ensures forall id :: id in r <==> id in ids && (id in todo || !Stale(now, ids[id]))
    ensures forall id :: id in r ==> r[id] == ids[id]
  {
    map id | id in ids && (id in todo || !Stale(now, ids[id])) :: ids[id]
  }

  class Server {
    var ids: map<i64, Client>

    /** Every entry is filed under its own id. */
    ghost predicate Valid()
      reads this
    {
      forall id :: id in ids ==> ids[id].id == id
    }

    constructor ()
      ensures Valid() && ids == map[]
    {
      ids := map[];
    }

    /** expire: removes exactly the clients that are stale at now; the others are untouched. */
    method Expire(now: i64)
      requires Valid()
      modifies this
      ensures Valid()
      ensures ids == Kept(old(ids), now, {})
    {
      var todo := ids.Keys;
      ghost var ids0 := ids;
      while todo != {}
        invariant todo <= ids0.Keys
        invariant ids == Kept(ids0, now, todo)
        decreases |todo|
      {
        var id :| id in todo;
        if Stale(now, ids[id]) {
          ids := map k | k in ids && k != id :: ids[k];
        }
        todo := todo - {id};
      }
    }

    /** updateClient: a ping from id at now refreshes its entry in place, or files a new one. */
    method UpdateClient(id: i64, now: i64, addr: string)
      requires Valid()
      modifies this
      ensures Valid()
      ensures ids == old(ids)[id := Client(id, now, addr)]
    {
      if id in ids {
        var cl := ids[id];
        ids := ids[id := cl.(lastSeen := now, addr := addr)];
      } else {
        ids := ids[id := Client(id, now, addr)];
      }
    }
  }

  /** A client that has just pinged survives a sweep at the same time. */
  lemma PingedSurvives(ids: map<i64, Client>, id: i64, now: i64, addr: string)
    ensures id in Kept(ids[id := Client(id, now, addr)], now, {})
  {
    assert !Stale(now, Client(id, now, addr));
  }

  /** The comparison is strict: a client exactly ClientFreshness old survives, one a nanosecond older does not. */
  lemma FreshnessBound(c: Client, now: i64)
    requires -TWO_63 <= now - c.lastSeen < TWO_63
    ensures now - c.lastSeen == ClientFreshness ==> !Stale(now, c)
    ensures now - c.lastSeen == ClientFreshness + 1 ==> Stale(now, c)
  {
  }

  /** Sweeping twice at the same time removes nothing more. */
  lemma ExpireIdempotent(ids: map<i64, Client>, now: i64)
    ensures Kept(Kept(ids, now, {}), now, {}) == Kept(ids, now, {})
  {
  }
}
