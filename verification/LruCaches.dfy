// One shard of the LRU cache: reference counts, the two lists, and the total charge.

module LruCaches {
  import opened LruLists
  import opened HandleTables

  function Charge(s: seq<LRUHandle>): nat {
    if s == [] then 0 else Charge(s[..|s|-1]) + s[|s|-1].charge
  }

  lemma {:induction false} ChargeOfBoth(a: seq<LRUHandle>, b: seq<LRUHandle>)
    ensures Charge(a + b) == Charge(a) + Charge(b)
  {
    if b == [] {
      assert a + b == a;
    } else {
      assert (a + b)[..|a + b|-1] == a + b[..|b|-1];
      ChargeOfBoth(a, b[..|b|-1]);
    }
  }

  lemma ChargeOfOne(e: LRUHandle)
    ensures Charge([e]) == e.charge
  {
    assert [e][..0] == [];
  }

  lemma ChargeWithout(s: seq<LRUHandle>, i: nat)
    requires i < |s|
    ensures Charge(s) == Charge(Without(s, i)) + s[i].charge
  {
    hide Charge;
    var a, e, b := s[..i], [s[i]], s[i+1..];
    assert s == a + (e + b);
    ChargeOfBoth(a, e + b);
    ChargeOfBoth(e, b);
    ChargeOfBoth(a, b);
    ChargeOfOne(s[i]);
  }

  // The entries of a list: all but its dummy head.
  ghost function Entries(ring: seq<LRUHandle>): set<LRUHandle> {
    set i | 1 <= i < |ring| :: ring[i]
  }

  // References held by clients.
  function HeldCount(held: map<LRUHandle, nat>, h: LRUHandle): nat {
    if h in held then held[h] else 0
  }

  // An entry is in a list exactly while it is in the cache, in the LRU list if only the cache
  // refers to it. It is deleted when it has lost its last reference, and only then.
  predicate EntryOk(refs: nat, inCache: bool, held: nat, inLru: bool, inUse: bool, deleted: bool) {
    && refs == held + (if inCache then 1 else 0)
    && inCache == (inLru || inUse) && !(inLru && inUse)
    && (inCache ==> inLru == (refs == 1))
    && deleted == (refs == 0)
  }

  lemma LosesReference(refs: nat, inCache: bool, held: nat, inLru: bool, inUse: bool, deleted: bool)
    requires EntryOk(refs, inCache, held, inLru, inUse, deleted) && held > 0
    ensures refs > 0 && (inCache ==> refs > 1 && inUse) && !deleted && inCache == (inLru || inUse)
    ensures if inCache && refs == 2 then EntryOk(1, true, held - 1, true, false, false)
            else EntryOk(refs - 1, inCache, held - 1, inLru, inUse, refs == 1)
    ensures refs == 1 <==> held == 1 && !inCache
  {
  }

  lemma GainsReference(refs: nat, inCache: bool, held: nat, inLru: bool, inUse: bool, deleted: bool)
    requires EntryOk(refs, inCache, held, inLru, inUse, deleted) && (inLru || inUse)
    ensures inCache && inLru == (refs == 1) && !deleted && EntryOk(refs + 1, true, held + 1, false, true, false)
  {
  }

  lemma LeavesCache(refs: nat, inCache: bool, held: nat, inLru: bool, inUse: bool, deleted: bool)
    requires EntryOk(refs, inCache, held, inLru, inUse, deleted) && (inLru || inUse)
    ensures inCache && refs > 0 && !deleted && inLru == (refs == 1) && inUse == (refs != 1) && refs == held + 1
    ensures EntryOk(refs - 1, false, held, false, false, refs == 1)
  {
  }

  lemma JoinsCache(refs: nat, inCache: bool, held: nat, inLru: bool, inUse: bool, deleted: bool)
    requires EntryOk(refs, inCache, held, inLru, inUse, deleted) && !inLru && !inUse && refs > 0
    ensures !deleted && EntryOk(refs + 1, true, held, false, true, false)
  {
  }

  lemma DistinctSnoc(s: seq<LRUHandle>, e: LRUHandle)
    requires Distinct(s) && e !in s
    ensures Distinct(s + [e])
  {
  }

  // `after` is `before` without `e`.
  ghost predicate Taken(before: seq<LRUHandle>, e: LRUHandle, after: seq<LRUHandle>) {
    exists i :: 1 <= i < |before| && before[i] == e && after == Without(before, i)
  }

  lemma OldestTaken(before: seq<LRUHandle>, after: seq<LRUHandle>)
    requires |before| > 1 && Distinct(before) && Taken(before, before[1], after)
    ensures |after| == |before| - 1 && after[0] == before[0] && after[1..] == before[2..]
  {
    assert before[..1] == [before[0]];
  }

  // The entries that another one of this key leaves in the cache.
  ghost function Unmatched(s: seq<LRUHandle>, key: Key, hash: nat): seq<LRUHandle> {
    if s == [] then []
    else Unmatched(s[..|s|-1], key, hash) + if Matches(s[|s|-1], key, hash) then [] else [s[|s|-1]]
  }

  lemma {:induction false} NoneMatches(s: seq<LRUHandle>, key: Key, hash: nat)
    requires forall h | h in s :: !Matches(h, key, hash)
    ensures Unmatched(s, key, hash) == s
  {
    hide Matches;
    if s != [] {
      var init, last := s[..|s|-1], s[|s|-1];
      assert s == init + [last];
      assert last in s && forall h | h in init :: h in s;
      NoneMatches(init, key, hash);
    }
  }

  lemma {:induction false} OneMatches(s: seq<LRUHandle>, i: nat, key: Key, hash: nat)
    requires i < |s| && Distinct(s) && Matches(s[i], key, hash)
    requires forall h | h in s && Matches(h, key, hash) :: h == s[i]
    ensures Unmatched(s, key, hash) == Without(s, i)
  {
    hide Matches;
    var init, last := s[..|s|-1], s[|s|-1];
    if i == |s| - 1 {
      assert forall h | h in init :: h in s && h != s[i];
      NoneMatches(init, key, hash);
      assert init + [] == init == Without(s, i);
    } else {
      OneMatches(init, i, key, hash);
      assert Without(init, i) + [last] == Without(s, i);
    }
  }

  lemma TakenIsUnmatched(before: seq<LRUHandle>, e: LRUHandle, after: seq<LRUHandle>, key: Key, hash: nat)
    requires Distinct(before) && Taken(before, e, after) && Matches(e, key, hash)
    requires forall h | h in before[1..] && Matches(h, key, hash) :: h == e
    ensures after != [] && after[0] == before[0] && after[1..] == Unmatched(before[1..], key, hash)
  {
    hide Matches, Unmatched;
    var i :| 1 <= i < |before| && before[i] == e && after == Without(before, i);
    OneMatches(before[1..], i - 1, key, hash);
    assert after[1..] == Without(before[1..], i - 1);
  }

  class LRUCache {
    var capacity: nat
    var usage: nat
    const lru: LRUHandle
    const inUse: LRUHandle
    const table: HandleTable
    var deletions: seq<LRUHandle>              // the deleter calls made, in order
    ghost var lruRing: seq<LRUHandle>          // oldest entry first, after the dummy head
    ghost var inUseRing: seq<LRUHandle>
    ghost var held: map<LRUHandle, nat>
    ghost var made: set<LRUHandle>             // every entry ever made

    ghost function Cached(): set<LRUHandle>
      reads `lruRing, `inUseRing
    {
      Entries(lruRing) + Entries(inUseRing)
    }

    ghost function Nodes(): set<LRUHandle>
      reads `made
    {
      made + {lru, inUse}
    }

    // The two lists, apart from each other, hold the entries that are in the cache.
    ghost predicate ListsOk()
      reads `usage, `lruRing, `inUseRing, `made, (set h | h in lruRing + inUseRing)`next, (set h | h in lruRing + inUseRing)`prev
    {
      && IsRing(lruRing) && lruRing[0] == lru
      && IsRing(inUseRing) && inUseRing[0] == inUse
      && (forall h | h in lruRing :: h !in inUseRing)
      && Cached() <= made && lru !in made && inUse !in made
      && usage == Charge(lruRing[1..]) + Charge(inUseRing[1..])
    }

    ghost predicate CountsOk()
      reads `lruRing, `inUseRing, `made, `held, `deletions, made`refs, made`inCache
    {
      && held.Keys <= made && Cached() <= made
      && Distinct(deletions) && (forall h | h in deletions :: h in made)
      && forall h | h in made ::
           EntryOk(h.refs, h.inCache, HeldCount(held, h), h in Entries(lruRing), h in Entries(inUseRing), h in deletions)
    }

    ghost predicate Valid()
      reads this, Nodes(), lruRing, inUseRing, table, table.list, table.Members()`nextHash
    {
      ListsOk() && CountsOk() && table.Valid() && table.Members() == Cached()
    }

    constructor (capacity: nat)
      ensures Valid() && this.capacity == capacity && usage == 0 && made == {} && deletions == []
      ensures fresh(table) && fresh(table.list) && fresh(lru) && fresh(inUse)
    {
      this.capacity, usage := capacity, 0;
      var l := new LRUHandle("", 0, 0, 0);
      var u := new LRUHandle("", 0, 0, 0);
      lru, inUse := l, u;
      table := new HandleTable();
      deletions, lruRing, inUseRing, held, made := [], [l], [u], map[], {};
    }
  
    // Moves an entry from one list to the end of the other.
    method MoveToLru(e: LRUHandle, ghost i: nat)
      requires ListsOk() && 1 <= i < |inUseRing| && inUseRing[i] == e
      modifies this`lruRing, this`inUseRing, Nodes()`next, Nodes()`prev
      ensures ListsOk()
      ensures Entries(lruRing) == old(Entries(lruRing)) + {e} && Entries(inUseRing) == old(Entries(inUseRing)) - {e}
      ensures lruRing == old(lruRing) + [e]
    {
      hide Charge, IsRing, Without, Distinct, Entries;
      RingIsDistinct(inUseRing);
      RingIsDistinct(lruRing);
      assert forall h | h in inUseRing || h in lruRing :: h in Nodes();
      MovedEntries(inUseRing, i, lruRing);
      Move(e, lru, inUseRing, i, lruRing);
      inUseRing := Without(inUseRing, i);
      lruRing := lruRing + [e];
    }

    method MoveToInUse(e: LRUHandle, ghost i: nat)
      requires ListsOk() && 1 <= i < |lruRing| && lruRing[i] == e
      modifies this`lruRing, this`inUseRing, Nodes()`next, Nodes()`prev
      ensures ListsOk()
      ensures Entries(inUseRing) == old(Entries(inUseRing)) + {e} && Entries(lruRing) == old(Entries(lruRing)) - {e}
      ensures lruRing == Without(old(lruRing), i)
    {
      hide Charge, IsRing, Without, Distinct, Entries;
      RingIsDistinct(inUseRing);
      RingIsDistinct(lruRing);
      assert forall h | h in inUseRing || h in lruRing :: h in Nodes();
      MovedEntries(lruRing, i, inUseRing);
      Move(e, inUse, lruRing, i, inUseRing);
      lruRing := Without(lruRing, i);
      inUseRing := inUseRing + [e];
    }

    method Ref(e: LRUHandle)
      requires ListsOk() && e in made && (e.inCache && e.refs == 1 ==> e in Entries(lruRing))
      modifies this`lruRing, this`inUseRing, e`refs, Nodes()`next, Nodes()`prev
      ensures ListsOk() && e.refs == old(e.refs) + 1
      ensures var moved := if e.inCache && old(e.refs) == 1 then {e} else {};
              Entries(inUseRing) == old(Entries(inUseRing)) + moved && Entries(lruRing) == old(Entries(lruRing)) - moved
      ensures if e.inCache && old(e.refs) == 1 then Taken(old(lruRing), e, lruRing) else lruRing == old(lruRing)
    {
      hide Charge, IsRing, Entries, Without;
      if e.refs == 1 && e.inCache {
        EntryAt(lruRing, e);
        ghost var i :| 1 <= i < |lruRing| && lruRing[i] == e;
        MoveToInUse(e, i);
      }
      e.refs := e.refs + 1;
    }

    method Unref(e: LRUHandle)
      requires ListsOk() && e in made && e.refs > 0
      requires e.inCache ==> e.refs > 1 && e in Entries(inUseRing)
      modifies this`lruRing, this`inUseRing, this`deletions, e`refs, Nodes()`next, Nodes()`prev
      ensures ListsOk() && e.refs == old(e.refs) - 1
      ensures deletions == if e.refs == 0 then old(deletions) + [e] else old(deletions)
      ensures var moved := if e.inCache && e.refs == 1 then {e} else {};
              Entries(lruRing) == old(Entries(lruRing)) + moved && Entries(inUseRing) == old(Entries(inUseRing)) - moved
      ensures lruRing == if e.inCache && e.refs == 1 then old(lruRing) + [e] else old(lruRing)
    {
      hide Charge, IsRing, Entries;
      e.refs := e.refs - 1;
      if e.refs == 0 {
        deletions := deletions + [e];
      } else if e.inCache && e.refs == 1 {
        EntryAt(inUseRing, e);
        ghost var i :| 1 <= i < |inUseRing| && inUseRing[i] == e;
        MoveToLru(e, i);
      }
    }

    method UnlinkFromLru(e: LRUHandle, ghost i: nat)
      requires ListsOk() && 1 <= i < |lruRing| && lruRing[i] == e
      modifies this`lruRing, this`usage, Nodes()`next, Nodes()`prev
      ensures ListsOk() && usage == old(usage) - e.charge
      ensures Entries(lruRing) == old(Entries(lruRing)) - {e} && lruRing == Without(old(lruRing), i)
    {
      hide Charge, IsRing, Distinct, Entries;
      RingIsDistinct(inUseRing);
      RingIsDistinct(lruRing);
      assert forall h | h in lruRing :: h in Nodes();
      UnlinkedEntries(lruRing, i);
      Detach(e, lruRing, i, inUseRing);
      lruRing := Without(lruRing, i);
      hide Without;
      usage := usage - e.charge;
    }

    method UnlinkFromInUse(e: LRUHandle, ghost i: nat)
      requires ListsOk() && 1 <= i < |inUseRing| && inUseRing[i] == e
      modifies this`inUseRing, this`usage, Nodes()`next, Nodes()`prev
      ensures ListsOk() && usage == old(usage) - e.charge
      ensures Entries(inUseRing) == old(Entries(inUseRing)) - {e}
    {
      hide Charge, IsRing, Distinct, Entries;
      RingIsDistinct(inUseRing);
      RingIsDistinct(lruRing);
      assert forall h | h in inUseRing :: h in Nodes();
      UnlinkedEntries(inUseRing, i);
      Detach(e, inUseRing, i, lruRing);
      hide Without;
      inUseRing := Without(inUseRing, i);
      usage := usage - e.charge;
    }

    // Takes an entry out of the list that it is in.
    method Unlink(e: LRUHandle)
      requires ListsOk() && e in made && if e.refs == 1 then e in Entries(lruRing) else e in Entries(inUseRing)
      requires e !in Entries(lruRing) || e !in Entries(inUseRing)
      modifies this`lruRing, this`inUseRing, this`usage, Nodes()`next, Nodes()`prev
      ensures ListsOk() && usage == old(usage) - e.charge
      ensures Entries(lruRing) == old(Entries(lruRing)) - {e} && Entries(inUseRing) == old(Entries(inUseRing)) - {e}
      ensures if e.refs == 1 then Taken(old(lruRing), e, lruRing) else lruRing == old(lruRing)
    {
      hide Charge, IsRing, Entries, ListsOk, Without;
      if e.refs == 1 {
        EntryAt(lruRing, e);
        ghost var i :| 1 <= i < |lruRing| && lruRing[i] == e;
        UnlinkFromLru(e, i);
      } else {
        EntryAt(inUseRing, e);
        ghost var i :| 1 <= i < |inUseRing| && inUseRing[i] == e;
        UnlinkFromInUse(e, i);
      }
    }

    // Completes the removal of an entry that is out of the hash table already.
    method FinishErase(e: LRUHandle)
      requires ListsOk() && CountsOk() && e in made && e in Cached()
      modifies this`lruRing, this`inUseRing, this`usage, this`deletions, Nodes()`next, Nodes()`prev, Nodes()`refs, Nodes()`inCache
      ensures ListsOk() && CountsOk() && usage == old(usage) - e.charge
      ensures Cached() == old(Cached()) - {e}
      ensures Entries(inUseRing) == old(Entries(inUseRing)) - {e}
      ensures if old(e in Entries(lruRing)) then Taken(old(lruRing), e, lruRing) else lruRing == old(lruRing)
      ensures deletions == if HeldCount(held, e) == 0 then old(deletions) + [e] else old(deletions)
    {
      hide Charge, IsRing, Entries, ListsOk, EntryOk, Distinct, Without;
      ListsApart();
      LeavesCache(e.refs, e.inCache, HeldCount(held, e), e in Entries(lruRing), e in Entries(inUseRing), e in deletions);
      DistinctSnoc(deletions, e);
      Unlink(e);
      e.inCache := false;
      Unref(e);
    }

    lemma ListsApart()
      requires ListsOk()
      ensures forall h | h in Entries(lruRing) :: h !in Entries(inUseRing)
      ensures Cached() <= made
    {
      EntriesAreRest(lruRing);
      EntriesAreRest(inUseRing);
    }

    // ---- The operations

    method TakeReference(e: LRUHandle)
      requires ListsOk() && CountsOk() && e in Cached()
      modifies this`lruRing, this`inUseRing, this`held, Nodes()`next, Nodes()`prev, Nodes()`refs, Nodes()`inCache
      ensures ListsOk() && CountsOk() && Cached() == old(Cached())
      ensures held == old(held)[e := old(HeldCount(held, e)) + 1]
      ensures if old(HeldCount(held, e)) == 0 then Taken(old(lruRing), e, lruRing) else lruRing == old(lruRing)
    {
      hide Charge, IsRing, Entries, ListsOk, EntryOk, Distinct, Taken;
      ListsApart();
      GainsReference(e.refs, e.inCache, HeldCount(held, e), e in Entries(lruRing), e in Entries(inUseRing), e in deletions);
      Ref(e);
      held := held[e := HeldCount(held, e) + 1];
    }

    // A client gets a reference to a cached entry, which is not in the LRU list while it has one.
    method Lookup(key: Key, hash: nat) returns (e: LRUHandle?)
      requires Valid()
      modifies this`lruRing, this`inUseRing, this`held, Nodes()`next, Nodes()`prev, Nodes()`refs, Nodes()`inCache
      ensures Valid() && Cached() == old(Cached())
      ensures if e == null then (forall h | h in Cached() :: !Matches(h, key, hash)) && held == old(held)
              else e in Cached() && Matches(e, key, hash) && held == old(held)[e := old(HeldCount(held, e)) + 1]
      ensures if e != null && old(HeldCount(held, e)) == 0 then Taken(old(lruRing), e, lruRing) else lruRing == old(lruRing)
    {
      hide Taken, ListsOk, CountsOk, Cached, HandleTable.Valid;
      e := table.Lookup(key, hash);
      if e != null {
        TakeReference(e);
      }
    }

    method DropReference(e: LRUHandle)
      requires ListsOk() && CountsOk() && HeldCount(held, e) > 0
      modifies this`lruRing, this`inUseRing, this`held, this`deletions, Nodes()`next, Nodes()`prev, Nodes()`refs, Nodes()`inCache
      ensures ListsOk() && CountsOk() && Cached() == old(Cached())
      ensures held == old(held)[e := old(HeldCount(held, e)) - 1]
      ensures deletions == if HeldCount(held, e) == 0 && e !in Cached() then old(deletions) + [e] else old(deletions)
      ensures lruRing == if HeldCount(held, e) == 0 && e in Cached() then old(lruRing) + [e] else old(lruRing)
    {
      hide Charge, IsRing, Entries, ListsOk, EntryOk, Distinct;
      ListsApart();
      LosesReference(e.refs, e.inCache, HeldCount(held, e), e in Entries(lruRing), e in Entries(inUseRing), e in deletions);
      DistinctSnoc(deletions, e);
      Unref(e);
      held := held[e := HeldCount(held, e) - 1];
    }

    // A client gives back a reference that it holds. With the last one, a cached entry becomes the
    // most recently used one in the LRU list.
    method Release(e: LRUHandle)
      requires Valid() && HeldCount(held, e) > 0
      modifies this`lruRing, this`inUseRing, this`held, this`deletions, Nodes()`next, Nodes()`prev, Nodes()`refs, Nodes()`inCache
      ensures Valid() && Cached() == old(Cached())
      ensures held == old(held)[e := old(HeldCount(held, e)) - 1]
      ensures deletions == if HeldCount(held, e) == 0 && e !in Cached() then old(deletions) + [e] else old(deletions)
      ensures lruRing == if HeldCount(held, e) == 0 && e in Cached() then old(lruRing) + [e] else old(lruRing)
    {
      hide ListsOk, CountsOk, Cached, HandleTable.Valid, HeldCount;
      DropReference(e);
    }

    method Erase(key: Key, hash: nat) returns (ghost removed: LRUHandle?)
      requires Valid()
      modifies this`lruRing, this`inUseRing, this`usage, this`deletions, Nodes(), table`elems, table`chains, table.list
      ensures Valid() && (forall h | h in Cached() :: !Matches(h, key, hash))
      ensures forall h | h in old(Cached()) :: h in Cached() || Matches(h, key, hash)
      ensures Cached() <= old(Cached())
      ensures removed == null ==> Cached() == old(Cached()) && lruRing == old(lruRing) && deletions == old(deletions)
      ensures removed != null ==>
                && removed in old(Cached()) && Matches(removed, key, hash) && Cached() == old(Cached()) - {removed}
                && (if old(removed in Entries(lruRing)) then Taken(old(lruRing), removed, lruRing) else lruRing == old(lruRing))
                && deletions == if HeldCount(held, removed) == 0 then old(deletions) + [removed] else old(deletions)
    {
      hide ListsOk, CountsOk, Cached, HandleTable.Valid, Matches, Entries, Taken;
      CachedAreMade();
      var e := table.Remove(key, hash);
      removed := e;
      if e != null {
        CachedAreMade();
        FinishErase(e);
      }
    }

    lemma CachedAreMade()
      requires ListsOk()
      ensures Cached() <= made <= Nodes()
    {
    }

    method LruIsEmpty() returns (empty: bool)
      requires ListsOk()
      ensures empty == (|lruRing| == 1) && |lruRing| >= 1
    {
      assert lruRing[0].next == if |lruRing| == 1 then lruRing[0] else lruRing[1];
      empty := lru.next == lru;
    }

    method Oldest() returns (e: LRUHandle)
      requires ListsOk() && CountsOk() && |lruRing| > 1
      ensures e == lruRing[1] && e in Entries(lruRing) && e !in Entries(inUseRing)
      ensures e in Cached() && e in made && HeldCount(held, e) == 0
    {
      ListsApart();
      assert lruRing[0].next == lruRing[1] && lruRing[1] in Entries(lruRing);
      e := lru.next;
    }

    lemma LruIsDistinct()
      requires ListsOk()
      ensures lruRing != [] && Distinct(lruRing) && forall h | h in lruRing[1..] :: h in Cached()
    {
      RingIsDistinct(lruRing);
      EntriesAreRest(lruRing);
    }

    // The oldest unused entry goes.
    method EvictOldest()
      requires Valid() && |lruRing| > 1
      modifies this`lruRing, this`inUseRing, this`usage, this`deletions, Nodes(), table`elems, table`chains, table.list
      ensures Valid() && |lruRing| == old(|lruRing|) - 1 && lruRing[1..] == old(lruRing)[2..]
      ensures var e := old(lruRing[1]);
              Cached() == old(Cached()) - {e} && usage == old(usage) - e.charge && deletions == old(deletions) + [e]
      ensures Entries(inUseRing) == old(Entries(inUseRing))
    {
      hide ListsOk, CountsOk, HandleTable.Valid, Entries, Matches, Cached, HeldCount;
      CachedAreMade();
      var oldest := Oldest();
      table.OnlyMatch(oldest);
      Itself(oldest);
      ghost var ring := lruRing;
      LruIsDistinct();
      var e := table.Remove(oldest.key, oldest.hash);
      FinishErase(oldest);
      hide Distinct, Taken;
      OldestTaken(ring, lruRing);
    }

    // The reference that the client gets to a new entry.
    ghost method Register(e: LRUHandle)
      requires Valid() && e !in Nodes() && e.refs == 1 && !e.inCache
      modifies this`made, this`held
      ensures Valid() && made == old(made) + {e} && held == old(held)[e := 1]
      ensures e !in Cached() && e !in deletions
    {
      hide HandleTable.Valid, Entries;
      made, held := made + {e}, held[e := 1];
    }

    method AppendToInUse(e: LRUHandle)
      requires ListsOk() && CountsOk() && e in made && e !in Cached() && e.refs > 0
      modifies this`inUseRing, this`usage, Nodes()`next, Nodes()`prev, Nodes()`refs, Nodes()`inCache
      ensures ListsOk() && CountsOk() && usage == old(usage) + e.charge
      ensures Entries(inUseRing) == old(Entries(inUseRing)) + {e} && Cached() == old(Cached()) + {e}
    {
      hide Entries, EntryOk, Charge, IsRing, Distinct;
      JoinsCache(e.refs, e.inCache, HeldCount(held, e), e in Entries(lruRing), e in Entries(inUseRing), e in deletions);
      RingIsDistinct(inUseRing);
      RingIsDistinct(lruRing);
      AppendedEntries(inUseRing, e);
      Neighbours(inUseRing, 0);
      e.refs := e.refs + 1;
      e.inCache := true;
      LRUAppend(inUse, e, inUseRing);
      inUseRing := inUseRing + [e];
      usage := usage + e.charge;
    }

    // The cache takes a reference; an entry with the same key leaves the cache.
    method AddToCache(e: LRUHandle)
      requires Valid() && e in made && e !in Cached() && e.refs > 0
      modifies this`lruRing, this`inUseRing, this`usage, this`deletions, Nodes(), table, table.list
      ensures Valid() && e in Entries(inUseRing) && (table.list == old(table.list) || fresh(table.list))
      ensures forall h | h in Cached() && h != e :: h in old(Cached()) && !Matches(h, e.key, e.hash)
      ensures forall h | h in old(Cached()) && !Matches(h, e.key, e.hash) :: h in Cached()
      ensures forall h | h in old(Entries(inUseRing)) && !Matches(h, e.key, e.hash) :: h in Entries(inUseRing)
      ensures lruRing != [] && lruRing[1..] == Unmatched(old(lruRing)[1..], e.key, e.hash)
    {
      hide ListsOk, CountsOk, HandleTable.Valid, HandleTable.Members, Entries, Matches, Unmatched, Taken, Distinct, Cached;
      ghost var cached, ring := Cached(), lruRing;
      LruIsDistinct();
      AppendToInUse(e);
      CachedAreMade();
      var old_ := table.Insert(e);
      assert forall h | h in ring[1..] && Matches(h, e.key, e.hash) :: h == old_;
      if old_ != null {
        CachedAreMade();
        InLruIsListed(ring, old_);
        FinishErase(old_);
        if old_ in Entries(ring) {
          TakenIsUnmatched(ring, old_, lruRing, e.key, e.hash);
        } else {
          NoneMatches(ring[1..], e.key, e.hash);
        }
      } else {
        NoneMatches(ring[1..], e.key, e.hash);
      }
      assert Cached() == table.Members();
    }

    // Adds an entry, referenced by the caller, to a cache of some capacity; one that has the
    // same key leaves. Then the oldest unused entries go until the charge fits.
    method Insert(key: Key, hash: nat, value: int, charge: nat) returns (e: LRUHandle)
      requires Valid()
      modifies this`lruRing, this`inUseRing, this`usage, this`deletions, this`held, this`made, Nodes(), table, table.list
      ensures Valid() && fresh(e) && e.key == key && e.hash == hash && e.value == value && e.charge == charge
      ensures made == old(made) + {e} && held == old(held)[e := 1]
      ensures capacity > 0 <==> e in Cached()
      ensures usage <= capacity || |lruRing| == 1
      ensures forall h | h in Cached() && h != e :: h in old(Cached()) && !(Matches(h, key, hash) && capacity > 0)
      ensures forall h | h in old(Entries(inUseRing)) && !(Matches(h, key, hash) && capacity > 0) :: h in Cached()
      ensures old(lruRing) != [] && lruRing != []
      ensures var unused := if capacity > 0 then Unmatched(old(lruRing)[1..], key, hash) else old(lruRing)[1..];
              NoMoreThanNeeded(unused, lruRing[1..], usage, capacity)
    {
      hide ListsOk, CountsOk, HandleTable.Valid, Entries, Matches, Cached, Unmatched;
      LruIsDistinct();
      e := new LRUHandle(key, hash, value, charge);
      Register(e);
      if capacity > 0 {
        AddToCache(e);
      }
      EntriesAreCached();
      EvictUnused();
      EntriesAreCached();
    }

    lemma EntriesAreCached()
      ensures Entries(inUseRing) <= Cached()
    {
    }

    // The oldest unused entries go until the charge fits, or none is left.
    method EvictUnused()
      requires Valid()
      modifies this`lruRing, this`inUseRing, this`usage, this`deletions, Nodes(), table`elems, table`chains, table.list
      ensures Valid() && (usage <= capacity || |lruRing| == 1)
      ensures Entries(inUseRing) == old(Entries(inUseRing)) && Cached() <= old(Cached())
      ensures old(lruRing) != [] && lruRing != []
      ensures NoMoreThanNeeded(old(lruRing)[1..], lruRing[1..], usage, capacity)
      ensures deletions == old(deletions) + old(lruRing)[1..][..old(|lruRing|) - |lruRing|]
    {
      hide ListsOk, CountsOk, HandleTable.Valid, Entries, Cached;
      ghost var ring, done := lruRing, 0;
      var empty := LruIsEmpty();
      assert ring[1..][0..] == ring[1..] && ring[1..][..0] == [];
      while usage > capacity && !empty
        invariant Valid() && empty == (|lruRing| == 1) && |lruRing| >= 1
        invariant Entries(inUseRing) == old(Entries(inUseRing)) && Cached() <= old(Cached())
        invariant done + |lruRing| == |ring| && lruRing[1..] == ring[1..][done..]
        invariant deletions == old(deletions) + ring[1..][..done]
        invariant 0 < done ==> capacity < usage + ring[1..][done-1].charge
        decreases |lruRing|
      {
        assert lruRing[1] == lruRing[1..][0] == ring[1..][done];
        EvictOldest();
        OneMoreGone(ring[1..], done, lruRing[1..]);
        done := done + 1;
        empty := LruIsEmpty();
      }
    }

    method Prune()
      requires Valid()
      modifies this`lruRing, this`inUseRing, this`usage, this`deletions, Nodes(), table`elems, table`chains, table.list
      ensures Valid() && |lruRing| == 1 && Cached() == old(Entries(inUseRing))
    {
      hide ListsOk, CountsOk, HandleTable.Valid, Entries;
      var empty := LruIsEmpty();
      while !empty
        invariant Valid() && empty == (|lruRing| == 1) && |lruRing| >= 1
        invariant Entries(inUseRing) == old(Entries(inUseRing))
        decreases |lruRing|
      {
        EvictOldest();
        empty := LruIsEmpty();
      }
      NothingInLru();
    }

    // Once nothing is cached and every reference was given back, every deleter ran, each once.
    lemma EveryEntryIsDeletedOnce()
      requires Valid() && Cached() == {} && forall h | h in made :: HeldCount(held, h) == 0
      ensures Distinct(deletions) && (forall h | h in made :: h in deletions) && forall h | h in deletions :: h in made
    {
      hide ListsOk, HandleTable.Valid;
    }

    lemma NothingInLru()
      requires |lruRing| == 1
      ensures Cached() == Entries(inUseRing)
    {
    }
  }

  // The oldest entries left, so many that without the last of them the charge would not fit.
  ghost predicate NoMoreThanNeeded(before: seq<LRUHandle>, after: seq<LRUHandle>, usage: nat, capacity: nat) {
    && |after| <= |before|
    && var gone := |before| - |after|;
    && after == before[gone..]
    && (0 < gone ==> capacity < usage + before[gone-1].charge)
  }

  lemma OneMoreGone(all: seq<LRUHandle>, done: nat, left: seq<LRUHandle>)
    requires done < |all| && left == all[done..][1..]
    ensures left == all[done+1..] && all[..done+1] == all[..done] + [all[done]]
  {
  }

  lemma InLruIsListed(ring: seq<LRUHandle>, e: LRUHandle)
    requires ring != []
    ensures e in Entries(ring) <==> e in ring[1..]
  {
    EntriesAreRest(ring);
  }

  lemma Itself(e: LRUHandle)
    ensures Matches(e, e.key, e.hash)
  {
  }

  lemma EntryAt(ring: seq<LRUHandle>, e: LRUHandle)
    requires e in Entries(ring)
    ensures exists i :: 1 <= i < |ring| && ring[i] == e
  {
  }

  lemma AppendedEntries(ring: seq<LRUHandle>, e: LRUHandle)
    requires ring != []
    ensures Entries(ring + [e]) == Entries(ring) + {e} && (ring + [e])[0] == ring[0]
    ensures Charge((ring + [e])[1..]) == Charge(ring[1..]) + e.charge
  {
    EntriesAreRest(ring);
    EntriesAreRest(ring + [e]);
    assert (ring + [e])[1..] == ring[1..] + [e];
    ChargeOfBoth(ring[1..], [e]);
    ChargeOfOne(e);
  }

  lemma UnlinkedEntries(ring: seq<LRUHandle>, i: nat)
    requires 1 <= i < |ring| && Distinct(ring)
    ensures var e, w := ring[i], Without(ring, i);
            && Entries(w) == Entries(ring) - {e} && w[0] == ring[0]
            && (forall h :: h in w <==> h in ring && h != e)
            && Charge(w[1..]) + e.charge == Charge(ring[1..])
  {
    var w := Without(ring, i);
    WithoutMembers(ring, i);
    EntriesAreRest(ring);
    EntriesAreRest(w);
    assert w[1..] == Without(ring[1..], i - 1);
    ChargeWithout(ring[1..], i - 1);
  }

  lemma RingIsDistinct(ring: seq<LRUHandle>)
    requires IsRing(ring)
    ensures ring != [] && Distinct(ring)
    ensures forall h :: h in ring <==> h == ring[0] || h in Entries(ring)
  {
    EntriesAreRest(ring);
  }

  lemma MovedEntries(from: seq<LRUHandle>, i: nat, to: seq<LRUHandle>)
    requires 1 <= i < |from| && Distinct(from) && to != [] && from[i] !in to
    ensures var e, w := from[i], Without(from, i);
            && Entries(w) == Entries(from) - {e} && Entries(to + [e]) == Entries(to) + {e}
            && w[0] == from[0] && (to + [e])[0] == to[0]
            && (forall h :: h in w <==> h in from && h != e)
            && Charge(w[1..]) + Charge((to + [e])[1..]) == Charge(from[1..]) + Charge(to[1..])
  {
    var e, w := from[i], Without(from, i);
    WithoutMembers(from, i);
    EntriesAreRest(from);
    EntriesAreRest(w);
    EntriesAreRest(to);
    EntriesAreRest(to + [e]);
    assert w[1..] == Without(from[1..], i - 1) && (to + [e])[1..] == to[1..] + [e];
    ChargeWithout(from[1..], i - 1);
    ChargeOfBoth(to[1..], [e]);
    ChargeOfOne(e);
  }

  lemma EntriesAreRest(ring: seq<LRUHandle>)
    requires ring != []
    ensures forall h :: h in Entries(ring) <==> h in ring[1..]
    ensures Distinct(ring) ==> forall h :: h in Entries(ring) <==> h in ring && h != ring[0]
  {
    forall h
      ensures h in Entries(ring) <==> h in ring[1..]
    {
      if h in ring[1..] {
        var j :| 0 <= j < |ring| - 1 && ring[1..][j] == h;
        assert ring[j+1] == h;
      }
    }
  }
}
