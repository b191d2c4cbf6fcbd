// The one-hop routing algorithm (src/pkg/routing/onehop.go): a peer routes
// only to its immediate neighbours, which it keeps in a table together with
// the time each was added.
module OneHop {
  import opened Base
  import Sys

  type Id = Sys.Id

  class OneHopRouting {
    const me: Id
    /** The neighbours, each with the time it was added in nanoseconds. */
    var neighbors: map<Id, i64>

    /** MakeOneHopRouting: no neighbours yet. */
    constructor MakeOneHopRouting(id: Id)
      ensures me == id && neighbors == map[]
    {
      me := id;
      neighbors := map[];
    }

    /** NeedBand: the algorithm exchanges no messages. */
    predicate NeedBand()
    {
      false
    }

    /** Id: the own id. */
    function Id(): (r: Id)
      ensures r == me
    {
      me
    }

    /** OnAddNeighbor: records nid with the current time (a parameter). */
    method OnAddNeighbor(nid: Id, now: i64)
      modifies this
      ensures neighbors == old(neighbors)[nid := now]
      ensures SourceCount() == old(SourceCount()) + (if nid in old(neighbors) then 0 else 1)
    {
      neighbors := neighbors[nid := now];
    }

    /** OnRemoveNeighbor: forgets nid; nothing else changes. */
    method OnRemoveNeighbor(nid: Id)
      modifies this
      ensures neighbors == old(neighbors) - {nid}
      ensures SourceCount() == old(SourceCount()) - (if nid in old(neighbors) then 1 else 0)
    {
      neighbors := neighbors - {nid};
    }

    /** SourceCount: the neighbours and the peer itself. */
    function SourceCount(): int
      reads this
    {
      |neighbors.Keys| + 1
    }

    /** FlowStep: the next hop to t is t itself when t is a neighbour, and "no route" otherwise; s is ignored. */
    function FlowStep(s: Id, t: Id): (r: Result<Id>)
      reads this
      ensures r.Ok? <==> t in neighbors
      ensures r.Ok? ==> r.value == t
      ensures r.Err? ==> r.error == Failure("no route")
    {
      if t !in neighbors then Err(Failure("no route")) else Ok(t)
    }

    /** Neighbors: every neighbour exactly once, in the map's iteration order (any order). */
    method Neighbors() returns (r: array<Id>)
      ensures fresh(r)
      ensures r.Length == |neighbors.Keys| == SourceCount() - 1
      ensures forall nid :: nid in neighbors <==> nid in r[..]
      ensures forall i, j :: 0 <= i < j < r.Length ==> r[i] != r[j]
    {
      r := new Id[|neighbors.Keys|];
      var todo := neighbors.Keys;
      var i := 0;
      while todo != {}
        invariant 0 <= i <= r.Length && i + |todo| == r.Length
        invariant todo <= neighbors.Keys
        invariant forall nid :: nid in neighbors <==> nid in todo || nid in r[..i]
        invariant forall k :: 0 <= k < i ==> r[k] !in todo
        invariant forall k, j :: 0 <= k < j < i ==> r[k] != r[j]
        decreases |todo|
      {
        var nid :| nid in todo;
        ghost var before := r[..i];
        r[i] := nid;
        assert r[..i + 1] == before + [nid];
        todo := todo - {nid};
        i := i + 1;
      }
    }
  }
}
