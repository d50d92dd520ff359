// Cache entries, and the circular doubly linked lists they are kept in.

module LruLists {
  type Key = string

  // `refs` counts the references held by clients, and one for the cache while `inCache`.
  class LRUHandle {
    const key: Key
    const value: int
    const charge: nat
    const hash: nat
    var inCache: bool
    var refs: nat
    var next: LRUHandle
    var prev: LRUHandle
    var nextHash: LRUHandle?   // the next entry in the chain of its hash bucket

    constructor (key: Key, hash: nat, value: int, charge: nat)
      ensures this.key == key && this.hash == hash && this.value == value && this.charge == charge
      ensures !inCache && refs == 1 && next == this == prev
    {
      this.key, this.hash, this.value, this.charge := key, hash, value, charge;
      inCache, refs, next, prev, nextHash := false, 1, this, this, null;
    }
  }

  ghost predicate Distinct(s: seq<LRUHandle>) {
    forall i, j | 0 <= i < j < |s| :: s[i] != s[j]
  }

  // Starting from the dummy head, the `next` links pass through the rest of `ring` and come
  // back, and the `prev` links do so the other way round.
  ghost predicate IsRing(ring: seq<LRUHandle>)
    reads (set h | h in ring)`next, (set h | h in ring)`prev
  {
    && ring != [] && Distinct(ring)
    && (forall i | 0 <= i < |ring| - 1 :: ring[i].next == ring[i+1])
    && (forall i | 0 < i < |ring| :: ring[i].prev == ring[i-1])
    && ring[|ring|-1].next == ring[0] && ring[0].prev == ring[|ring|-1]
  }

  function Without(ring: seq<LRUHandle>, i: nat): seq<LRUHandle>
    requires i < |ring|
  {
    ring[..i] + ring[i+1..]
  }

  lemma WithoutMembers(ring: seq<LRUHandle>, i: nat)
    requires i < |ring| && Distinct(ring)
    ensures Distinct(Without(ring, i)) && forall h :: h in Without(ring, i) <==> h in ring && h != ring[i]
  {
    var w := Without(ring, i);
    forall h
      ensures h in w <==> h in ring && h != ring[i]
    {
      if h in ring && h != ring[i] {
        var j :| 0 <= j < |ring| && ring[j] == h;
        assert h == if j < i then w[j] else w[j-1];
      }
    }
  }

  lemma Neighbours(ring: seq<LRUHandle>, i: nat)
    requires IsRing(ring) && i < |ring|
    ensures ring[i].next in ring && ring[i].prev in ring
  {
    var n := |ring|;
    assert ring[i].next == ring[if i == n - 1 then 0 else i + 1];
    assert ring[i].prev == ring[if i == 0 then n - 1 else i - 1];
  }

  method LRURemove(e: LRUHandle, ghost ring: seq<LRUHandle>, ghost i: nat)
    requires IsRing(ring) && 0 < i < |ring| && ring[i] == e
    modifies e.next`prev, e.prev`next
    ensures IsRing(Without(ring, i))
  {
    WithoutMembers(ring, i);
    ghost var w, n := Without(ring, i), |ring|;
    assert |w| == n - 1 && (forall j | 0 <= j < i :: w[j] == ring[j]) && forall j | i <= j < n - 1 :: w[j] == ring[j+1];
    assert e.prev == ring[i-1] && e.next == if i == n - 1 then ring[0] else ring[i+1];
    e.next.prev := e.prev;
    e.prev.next := e.next;
  }

  // Makes `e` the newest entry, just before the head.
  method LRUAppend(list: LRUHandle, e: LRUHandle, ghost ring: seq<LRUHandle>)
    requires IsRing(ring) && ring[0] == list && e !in ring
    modifies e`next, e`prev, list`prev, list.prev`next
    ensures IsRing(ring + [e])
  {
    e.next := list;
    e.prev := list.prev;
    e.prev.next := e;
    e.next.prev := e;
  }

  // Takes an entry out of one list; the other list stays as it is.
  method Detach(e: LRUHandle, ghost ring: seq<LRUHandle>, ghost i: nat, ghost other: seq<LRUHandle>)
    requires IsRing(ring) && IsRing(other) && (forall h | h in ring :: h !in other)
    requires 1 <= i < |ring| && ring[i] == e
    modifies (set h | h in ring)`next, (set h | h in ring)`prev
    ensures IsRing(Without(ring, i)) && IsRing(other)
  {
    Neighbours(ring, i);
    LRURemove(e, ring, i);
  }

  // Takes an entry out of one list and makes it the newest of another.
  method Move(e: LRUHandle, list: LRUHandle, ghost from: seq<LRUHandle>, ghost i: nat, ghost to: seq<LRUHandle>)
    requires IsRing(from) && IsRing(to) && (forall h | h in from :: h !in to)
    requires 1 <= i < |from| && from[i] == e && to[0] == list
    modifies (set h | h in from || h in to)`next, (set h | h in from || h in to)`prev
    ensures IsRing(Without(from, i)) && IsRing(to + [e])
  {
    Detach(e, from, i, to);
    WithoutMembers(from, i);
    hide Without;
    Neighbours(to, 0);
    LRUAppend(list, e, to);
  }
}
