// A fixed-capacity FIFO over a ring of slots (package fixfifo). The
// counters first and last only grow; the element counted c sits in slot
// c mod capacity.
module FixFifo {
  import opened Base

  /** The queue position that slot k of an n-slot ring holds when the oldest element is counted first. */
  function Pos(n: nat, first: nat, k: int): nat
    requires n > 0
  {
    (k - first) % n
  }

  /**
   * The ring s holds the queue c whose oldest element is counted first:
   * every slot holds the element at its position, or nil past the end.
   */
  ghost predicate Ring<T>(s: seq<Option<T>>, first: nat, c: seq<T>)
  {
    |c| <= |s| &&
    forall k :: 0 <= k < |s| ==>
      s[k] == if Pos(|s|, first, k) < |c| then Some(c[Pos(|s|, first, k)]) else None
  }

  /** Slot k is the one of the element counted c exactly when its position is c - first. */
  lemma SlotOf(n: nat, first: nat, c: nat, k: int)
    requires n > 0 && first <= c < first + n && 0 <= k < n
    ensures Pos(n, first, k) == c - first <==> k == c % n
  {
    var p := c - first;
    var q := (k - first) / n;
    if Pos(n, first, k) == p {
      assert k == n * (q + c / n) + c % n;
      ModUnique(n, k, q + c / n, c % n);
      ModUnique(n, k, 0, k);
    }
    if k == c % n {
      assert k - first == n * -(c / n) + p;
      ModUnique(n, k - first, -(c / n), p);
    }
  }

  /** Advancing first by one moves every slot one position forward, and the head slot to the back. */
  lemma PosStep(n: nat, first: nat, k: int)
    requires n > 0
    ensures Pos(n, first + 1, k) == if Pos(n, first, k) == 0 then n - 1 else Pos(n, first, k) - 1
  {
    var p, q := (k - first) % n, (k - first) / n;
    if p >= 1 {
      ModUnique(n, k - first - 1, q, p - 1);
    } else {
      ModUnique(n, k - first - 1, q - 1, n - 1);
    }
  }

  /** Element i of the queue sits in slot (first + i) mod n. */
  lemma RingAt<T>(s: seq<Option<T>>, first: nat, c: seq<T>, i: nat)
    requires Ring(s, first, c) && i < |c|
    ensures s[(first + i) % |s|] == Some(c[i])
  {
    SlotOf(|s|, first, first + i, (first + i) % |s|);
  }

  /** Storing v in the slot after the last element pushes v. */
  lemma RingPush<T>(s: seq<Option<T>>, first: nat, c: seq<T>, v: T)
    requires Ring(s, first, c) && |c| < |s|
    ensures Ring(s[(first + |c|) % |s| := Some(v)], first, c + [v])
  {
    var n, s' := |s|, s[(first + |c|) % |s| := Some(v)];
    forall k | 0 <= k < n
      ensures s'[k] == if Pos(n, first, k) < |c| + 1 then Some((c + [v])[Pos(n, first, k)]) else None
    {
      SlotOf(n, first, first + |c|, k);
    }
  }

  /** Clearing the head slot and counting from the next element pops the head. */
  lemma RingPop<T>(s: seq<Option<T>>, first: nat, c: seq<T>)
    requires Ring(s, first, c) && |c| > 0
    ensures Ring(s[first % |s| := None], first + 1, c[1..])
  {
    var n, s' := |s|, s[first % |s| := None];
    forall k | 0 <= k < n
      ensures s'[k] == if Pos(n, first + 1, k) < |c| - 1 then Some(c[1..][Pos(n, first + 1, k)]) else None
    {
      SlotOf(n, first, first, k);
      PosStep(n, first, k);
    }
  }

  class FixFifo<T> {
    /** The ring; a slot that holds no element is nil (None). */
    var slice: array<Option<T>>
    var first: nat
    var last: nat
    /** The queued elements, oldest first. */
    ghost var Contents: seq<T>

    ghost predicate Valid()
      reads this, slice
    {
      first <= last && last - first == |Contents| && Ring(slice[..], first, Contents)
    }

    /** Make: an empty FIFO with the given capacity. */
    constructor Make(capacity: nat)
      ensures Valid() && fresh(slice)
      ensures slice.Length == capacity && Contents == []
    {
      slice := new Option<T>[capacity](_ => None);
      first, last := 0, 0;
      Contents := [];
    }

    /** Len: last - first, the number of queued elements. */
    function Len(): (n: nat)
      reads this, slice
      requires Valid()
      ensures n == |Contents| && n <= slice.Length
    {
      last - first
    }

    /** Full: no slot is free. */
    predicate Full()
      reads this, slice
      requires Valid()
      ensures Full() <==> |Contents| == slice.Length
    {
      Len() >= slice.Length
    }

    /** Push: appends value unless the FIFO is full; reports whether it did. */
    method Push(value: T) returns (ok: bool)
      requires Valid()
      modifies this, slice
      ensures Valid() && slice == old(slice)
      ensures ok <==> old(|Contents|) < slice.Length
      ensures ok ==> Contents == old(Contents) + [value]
      ensures !ok ==> Contents == old(Contents) && unchanged(slice) && unchanged(this)
    {
      if last - first >= slice.Length {
        return false;
      }
      RingPush(slice[..], first, Contents, value);
      slice[last % slice.Length] := Some(value);
      last := last + 1;
      Contents := Contents + [value];
      return true;
    }

    /** Pop: removes and returns the oldest element and clears its slot; None when empty. */
    method Pop() returns (r: Option<T>)
      requires Valid()
      modifies this, slice
      ensures Valid() && slice == old(slice)
      ensures old(Contents) == [] ==> r == None && unchanged(this) && unchanged(slice)
      ensures old(Contents) != [] ==> r == Some(old(Contents)[0]) && Contents == old(Contents)[1..]
      ensures old(Contents) != [] ==> slice[old(first) % slice.Length] == None
    {
      if last == first {
        return None;
      }
      var k := first % slice.Length;
      RingAt(slice[..], first, Contents, 0);
      RingPop(slice[..], first, Contents);
      r := slice[k];
      slice[k] := None;
      first := first + 1;
      Contents := Contents[1..];
    }
  }
}
