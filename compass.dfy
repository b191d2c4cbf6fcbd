// The compass's liaison registry (src/pkg/compass/compass.go): one
// liaison, an encoded stream, per neighbouring peer, kept in step with the
// routing algorithm's neighbour table.
module Compass {
  import opened Base
  import Sys
  import OneHop

  type Id = Sys.Id

  /** An EncodeDecodeCloser over a dialed or accepted stream; the model counts its Close calls. */
  class Edc {
    var closes: nat

    constructor ()
      ensures closes == 0
    {
      closes := 0;
    }

    method Close()
      modifies this
      ensures closes == old(closes) + 1
    {
      closes := closes + 1;
    }
  }

  /** A liaison: the neighbour's id and its stream, which may be nil. */
  class Liaison {
    const id: Id
    const edc: Option<Edc>

    constructor (id: Id, edc: Option<Edc>)
      ensures this.id == id && this.edc == edc
    {
      this.id := id;
      this.edc := edc;
    }
  }

  /** The dialer the compass runs on, an object outside this model, by handle. */
  datatype DialerRef = DialerRef(handle: nat)

  /** The objects Close may change: the stream, if there is one. */
  function EdcOf(l: Liaison): set<object>
  {
    if l.edc.Some? then {l.edc.value} else {}
  }

  class Compass0 {
    var d: Option<DialerRef>
    const algo: OneHop.OneHopRouting
    var liaisons: map<Id, Liaison>

    /** Every liaison is filed under its own id, and the routing table's neighbours are exactly the ids with a liaison. */
    ghost predicate Valid()
      reads this, algo
    {
      (forall id :: id in liaisons ==> liaisons[id].id == id)
      && liaisons.Keys == algo.neighbors.Keys
    }

    /** MakeCompass0: one-hop routing for the own id, no liaisons. */
    constructor MakeCompass0(id: Id, d: DialerRef)
      ensures Valid() && fresh(algo)
      ensures this.d == Some(d) && liaisons == map[] && algo.me == id
    {
      this.d := Some(d);
      algo := new OneHop.OneHopRouting.MakeOneHopRouting(id);
      liaisons := map[];
    }

    /** addLiaison: nil and no change when id already has a liaison; otherwise a new one, registered with the routing table at now. */
    method AddLiaison(id: Id, edc: Option<Edc>, now: i64) returns (l: Option<Liaison>)
      requires Valid()
      modifies this, algo
      ensures Valid() && d == old(d)
      ensures id in old(liaisons) ==> l == None && liaisons == old(liaisons) && unchanged(algo)
      ensures id !in old(liaisons) ==> l.Some? && fresh(l.value) && l.value.id == id && l.value.edc == edc
      ensures id !in old(liaisons) ==> l.Some? && liaisons == old(liaisons)[id := l.value]
      ensures id !in old(liaisons) ==> algo.neighbors == old(algo.neighbors)[id := now]
    {
      if id in liaisons {
        return None;
      }
      var nl := new Liaison(id, edc);
      liaisons := liaisons[id := nl];
      algo.OnAddNeighbor(id, now);
      l := Some(nl);
    }

    /**
     * rem: drops l from the registry and the routing table only if it is
     * still the liaison filed under its id; its stream is closed either way.
     */
    method Rem(l: Liaison)
      requires Valid()
      modifies this, algo, EdcOf(l)
      ensures Valid() && d == old(d)
      ensures l.id in old(liaisons) && old(liaisons)[l.id] == l ==>
        liaisons == old(liaisons) - {l.id} && algo.neighbors == old(algo.neighbors) - {l.id}
      ensures !(l.id in old(liaisons) && old(liaisons)[l.id] == l) ==>
        liaisons == old(liaisons) && algo.neighbors == old(algo.neighbors)
      ensures l.edc.Some? ==> l.edc.value.closes == old(l.edc.value.closes) + 1
    {
      if !(l.id in liaisons && liaisons[l.id] == l) {
        if l.edc.Some? {
          l.edc.value.Close();
        }
        return;
      }
      algo.OnRemoveNeighbor(l.id);
      liaisons := liaisons - {l.id};
      if l.edc.Some? {
        l.edc.value.Close();
      }
    }

    /** haveId: id has a liaison. */
    predicate HaveId(id: Id)
      reads this
    {
      id in liaisons
    }

    /** isHealthy: the dialer, or nil once shut down. */
    function IsHealthy(): Option<DialerRef>
      reads this
    {
      d
    }

    /** ShutDown: forgets the dialer, after which isHealthy answers nil and every loop stops. */
    method ShutDown()
      modifies this
      ensures IsHealthy() == None && liaisons == old(liaisons)
    {
      d := None;
    }

    /** QueryQuantize: the routing table's next hop toward t, or nil when there is no route. */
    function QueryQuantize(s: Id, t: Id): (r: Option<Id>)
      reads this, algo
      requires Valid()
      ensures r.Some? <==> HaveId(t)
      ensures r.Some? ==> r.value == t
    {
      var step := algo.FlowStep(s, t);
      if step.Err? then None else Some(step.value)
    }

    /**
     * One round of acceptLoop: a failed accept is skipped; an accepted
     * stream becomes a liaison, or is closed when the peer already has one.
     */
    method AcceptOne(aid: Id, rwc: Option<Edc>, now: i64)
      requires Valid() && IsHealthy().Some?
      modifies this, algo, if rwc.Some? then {rwc.value} else {}
      ensures Valid()
      ensures rwc.None? ==> liaisons == old(liaisons) && unchanged(algo)
      ensures rwc.Some? && aid in old(liaisons) ==>
        liaisons == old(liaisons) && unchanged(algo) && rwc.value.closes == old(rwc.value.closes) + 1
      ensures rwc.Some? && aid !in old(liaisons) ==>
        aid in liaisons && fresh(liaisons[aid]) && liaisons[aid].id == aid && liaisons[aid].edc == rwc &&
        liaisons == old(liaisons)[aid := liaisons[aid]] && algo.neighbors == old(algo.neighbors)[aid := now] &&
        rwc.value.closes == old(rwc.value.closes)
    {
      if rwc.None? {
        return;
      }
      var l := AddLiaison(aid, rwc, now);
      if l.None? {
        rwc.value.Close();
      }
    }

    /**
     * One round of connectLoop: a peer that has a liaison is skipped;
     * otherwise the dial's stream (nil when it fails) becomes its liaison.
     * Without a second goroutine between the check and the insert,
     * addLiaison cannot refuse here.
     */
    method ConnectOne(aid: Id, rwc: Option<Edc>, now: i64)
      requires Valid() && IsHealthy().Some?
      modifies this, algo, if rwc.Some? then {rwc.value} else {}
      ensures Valid()
      ensures aid in old(liaisons) || rwc.None? ==> liaisons == old(liaisons) && unchanged(algo)
      ensures aid !in old(liaisons) && rwc.Some? ==>
        HaveId(aid) && fresh(liaisons[aid]) && liaisons[aid].id == aid && liaisons[aid].edc == rwc &&
        liaisons == old(liaisons)[aid := liaisons[aid]] && algo.neighbors == old(algo.neighbors)[aid := now] &&
        rwc.value.closes == old(rwc.value.closes)
    {
      if HaveId(aid) {
        return;
      }
      if rwc.None? {
        return;
      }
      var l := AddLiaison(aid, rwc, now);
    }
  }
}
