// The hash table of a cache shard.

module HandleTables {
  import opened LruLists

  ghost function AllOf(chains: seq<seq<LRUHandle>>): set<LRUHandle> {
    set b, h | 0 <= b < |chains| && h in chains[b] :: h
  }

  ghost predicate IsPowerOfTwo(n: nat) {
    n == 1 || (n % 2 == 0 && n > 1 && IsPowerOfTwo(n / 2))
  }

  // No two entries of a chain have the same key and hash.
  ghost predicate KeysApart(chain: seq<LRUHandle>) {
    forall i, j | 0 <= i < j < |chain| :: chain[i].hash != chain[j].hash || chain[i].key != chain[j].key
  }

  // Every entry is in the bucket of its hash.
  ghost predicate WellPlaced(chains: seq<seq<LRUHandle>>) {
    && (forall b, h | 0 <= b < |chains| && h in chains[b] :: h.hash % |chains| == b)
    && forall b | 0 <= b < |chains| :: KeysApart(chains[b])
  }

  ghost predicate Matches(h: LRUHandle, key: Key, hash: nat) {
    h.key == key && h.hash == hash
  }

  // A key can only be in the bucket of its hash.
  lemma NotInOtherBuckets(chains: seq<seq<LRUHandle>>, b: nat, key: Key, hash: nat)
    requires WellPlaced(chains) && b < |chains| && b == hash % |chains|
    ensures forall h | h in AllOf(chains) && Matches(h, key, hash) :: h in chains[b]
  {
  }

  // From `first` on, the links run along the chain and end behind it.
  ghost predicate LinkedFrom(first: LRUHandle?, chain: seq<LRUHandle>)
    reads (set h | h in chain)`nextHash
  {
    && first == (if chain == [] then null else chain[0])
    && forall i | 0 <= i < |chain| :: LinksOn(chain, i)
  }

  ghost predicate LinksOn(chain: seq<LRUHandle>, i: nat)
    requires i < |chain|
    reads (set h | h in chain)`nextHash
  {
    chain[i].nextHash == if i + 1 < |chain| then chain[i+1] else null
  }

  // What a pointer to a pointer of a chain points to: the head of a bucket, or a link.
  datatype Slot = Head(bucket: nat) | Link(h: LRUHandle)

  // The slot that holds entry `i` of the chain, or its end.
  function SlotAt(chain: seq<LRUHandle>, bucket: nat, i: nat): Slot
    requires i <= |chain|
  {
    if i == 0 then Head(bucket) else Link(chain[i-1])
  }

  class HandleTable {
    var list: array<LRUHandle?>                // the first entry of each bucket
    var elems: nat
    ghost var chains: seq<seq<LRUHandle>>      // the chain of each bucket

    ghost function Members(): set<LRUHandle>
      reads `chains
    {
      AllOf(chains)
    }

    ghost predicate Links()
      reads `list, `chains, list, Members()`nextHash
    {
      |chains| == list.Length && forall b | 0 <= b < |chains| :: LinkedFrom(list[b], chains[b])
    }

    ghost predicate Valid()
      reads this, list, Members()`nextHash
    {
      && Links() && IsPowerOfTwo(list.Length) && WellPlaced(chains)
      && elems == |Members()| <= list.Length   // on average, a chain has at most one entry
    }

    constructor ()
      ensures Valid() && Members() == {} && fresh(list)
    {
      list := new LRUHandle?[4](_ => null);
      elems, chains := 0, [[], [], [], []];
      new;
      assert IsPowerOfTwo(2) && forall b | 0 <= b < 4 :: chains[b] == [];
    }

    function At(ptr: Slot): LRUHandle?
      requires ptr.Head? ==> ptr.bucket < list.Length
      reads `list, list, if ptr.Link? then {ptr.h} else {}
    {
      if ptr.Head? then list[ptr.bucket] else ptr.h.nextHash
    }

    // The slot in the bucket of a key that holds its entry; the end of the chain if there is none.
    method FindPointer(key: Key, hash: nat) returns (ptr: Slot, ghost bucket: nat, ghost i: nat)
      requires Valid()
      ensures bucket == hash % list.Length && bucket < list.Length && i <= |chains[bucket]|
      ensures ptr == SlotAt(chains[bucket], bucket, i)
      ensures At(ptr) == if i == |chains[bucket]| then null else chains[bucket][i]
      ensures if i == |chains[bucket]| then forall h | h in Members() :: !Matches(h, key, hash)
              else chains[bucket][i] in Members() && Matches(chains[bucket][i], key, hash)
    {
      bucket, i := hash % list.Length, 0;
      ptr := Head(hash % list.Length);
      ghost var chain := chains[bucket];
      hide WellPlaced, IsPowerOfTwo;
      assert LinkedFrom(list[bucket], chain);
      while At(ptr) != null && (At(ptr).hash != hash || At(ptr).key != key)
        invariant i <= |chain| && ptr == SlotAt(chain, bucket, i)
        invariant At(ptr) == if i == |chain| then null else chain[i]
        invariant forall j | 0 <= j < i :: !Matches(chain[j], key, hash)
        decreases |chain| - i
      {
        assert LinksOn(chain, i);
        ptr := Link(At(ptr));
        i := i + 1;
      }
      assert i < |chain| ==> chain[i] in chains[bucket];
      NotInOtherBuckets(chains, bucket, key, hash);
    }

    method Lookup(key: Key, hash: nat) returns (r: LRUHandle?)
      requires Valid()
      ensures if r == null then forall h | h in Members() :: !Matches(h, key, hash)
              else r in Members() && Matches(r, key, hash)
    {
      hide WellPlaced, Links, IsPowerOfTwo;
      var ptr, bucket, i := FindPointer(key, hash);
      r := At(ptr);
    }

    lemma OnlyMatch(y: LRUHandle)
      requires Valid() && y in Members()
      ensures forall x | x in Members() && Matches(x, y.key, y.hash) :: x == y
    {
      forall x | x in Members() && Matches(x, y.key, y.hash)
        ensures x == y
      {
        MembersApart(x, y);
      }
    }

    // No two members have the same key and hash.
    lemma MembersApart(x: LRUHandle, y: LRUHandle)
      requires Valid() && x in Members() && y in Members() && Matches(x, y.key, y.hash)
      ensures x == y
    {
      var b :| 0 <= b < |chains| && x in chains[b];
      var c :| 0 <= c < |chains| && y in chains[c];
      assert x.hash % |chains| == b && y.hash % |chains| == c && KeysApart(chains[b]);
    }

    method StoreHead(bucket: nat, target: LRUHandle?, ghost tail: seq<LRUHandle>)
      requires Links() && bucket < |chains| && LinkedFrom(target, tail)
      modifies this`chains, list
      ensures chains == old(chains)[bucket := tail] && Links()
    {
      list[bucket] := target;
      chains := chains[bucket := tail];
    }

    method StoreLink(h: LRUHandle, target: LRUHandle?, ghost bucket: nat, ghost i: nat, ghost tail: seq<LRUHandle>)
      requires Links() && bucket < |chains| && 0 < i <= |chains[bucket]| && h == chains[bucket][i-1]
      requires forall b | 0 <= b < |chains| && b != bucket :: h !in chains[b]
      requires LinkedFrom(target, tail) && h !in tail && Distinct(chains[bucket])
      modifies this`chains, h`nextHash
      ensures chains == old(chains)[bucket := old(chains[bucket])[..i] + tail] && Links()
    {
      ghost var chain := chains[bucket];
      assert forall j | 0 <= j < i - 1 :: LinksOn(chain, j) && chain[j] != h;
      hide Distinct;
      h.nextHash := target;
      assert forall j | 0 <= j < i - 1 :: LinksOn(chain, j);
      RelinkedFrom(list[bucket], chain, i, target, tail);
      chains := chains[bucket := chain[..i] + tail];
    }

    // Stores into slot `i` of a bucket: the chain goes on with `tail` from there.
    method Store(ptr: Slot, target: LRUHandle?, ghost bucket: nat, ghost i: nat, ghost tail: seq<LRUHandle>)
      requires Links() && WellPlaced(chains) && bucket < |chains| && i <= |chains[bucket]|
      requires ptr == SlotAt(chains[bucket], bucket, i)
      requires LinkedFrom(target, tail) && forall j | 0 <= j < i :: chains[bucket][j] !in tail
      modifies this`chains, list, Members()`nextHash
      ensures chains == old(chains)[bucket := old(chains[bucket])[..i] + tail] && Links()
    {
      ApartIsDistinct(chains[bucket]);
      if ptr.Head? {
        assert chains[bucket][..0] + tail == tail;
        assert bucket < list.Length;
        hide WellPlaced, Links;
        StoreHead(ptr.bucket, target, tail);
      } else {
        assert ptr.h == chains[bucket][i-1] && ptr.h in chains[bucket] && ptr.h in Members();
        OneBucketOnly(chains, bucket, ptr.h);
        hide WellPlaced, Links;
        StoreLink(ptr.h, target, bucket, i, tail);
      }
    }

    // Links `h` in, in place of the entry with its key if there is one, which is returned.
    method Insert(h: LRUHandle) returns (old_: LRUHandle?)
      requires Valid() && h !in Members()
      modifies this, list, Members()`nextHash, h`nextHash
      ensures Valid() && if elems <= old(list.Length) then list == old(list) else fresh(list)
      ensures forall x | x in Members() && Matches(x, h.key, h.hash) :: x == h
      ensures if old_ == null then Members() == old(Members()) + {h}
              else old_ in old(Members()) && Matches(old_, h.key, h.hash) && Members() == old(Members()) - {old_} + {h}
    {
      hide WellPlaced, Matches, IsPowerOfTwo, AllOf;
      LinksParts();
      var ptr, bucket, i := FindPointer(h.key, h.hash);
      ReplacedMembers(chains, bucket, i, h);
      old_ := At(ptr);
      Replace(h, ptr, bucket, i);
      if old_ == null {
        elems := elems + 1;
        if elems > list.Length {
          Resize();
        }
      }
      OnlyMatch(h);
    }

    lemma LinksParts()
      requires Links()
      ensures |chains| == list.Length
    {
    }

    // `h` takes what is behind the entry in the slot, and the slot takes `h`.
    method Replace(h: LRUHandle, ptr: Slot, ghost bucket: nat, ghost i: nat)
      requires Links() && WellPlaced(chains) && bucket < |chains| && i <= |chains[bucket]| && h !in Members()
      requires ptr == SlotAt(chains[bucket], bucket, i)
      requires At(ptr) == if i == |chains[bucket]| then null else chains[bucket][i]
      modifies this`chains, list, Members()`nextHash, h`nextHash
      ensures chains == old(chains)[bucket := Replaced(old(chains[bucket]), i, h)] && Links()
    {
      ghost var chain, rest := chains[bucket], if i < |chains[bucket]| then chains[bucket][i+1..] else [];
      ChainIsApart(chains, bucket, i, h);
      assert Replaced(chain, i, h) == chain[..i] + ([h] + rest);
      hide WellPlaced, AllOf, Replaced;
      var old_ := At(ptr);
      if old_ == null {
        h.nextHash := null;
      } else {
        LinkedBehind(list[bucket], chain, i);
        h.nextHash := old_.nextHash;
      }
      LinkedFront(h, rest);
      Store(ptr, h, bucket, i, [h] + rest);
    }

    method Remove(key: Key, hash: nat) returns (r: LRUHandle?)
      requires Valid()
      modifies this`elems, this`chains, list, Members()`nextHash
      ensures Valid() && forall x | x in Members() :: !Matches(x, key, hash)
      ensures if r == null then Members() == old(Members())
              else r in old(Members()) && Matches(r, key, hash) && Members() == old(Members()) - {r}
    {
      hide WellPlaced, Matches, IsPowerOfTwo, AllOf;
      var ptr, bucket, i := FindPointer(key, hash);
      ghost var was, chain := chains, chains[bucket];
      r := At(ptr);
      if r != null {
        assert r.key == key && r.hash == hash by { MatchIs(r, key, hash); }
        OnlyMatch(r);
        WithoutInBucket(was, bucket, i);
        WithoutIsApart(was, bucket, i);
        LinkedBehind(list[bucket], chain, i);
        Store(ptr, r.nextHash, bucket, i, chain[i+1..]);
        elems := elems - 1;
      }
    }

    method NewLength(n: nat) returns (newLength: nat)
      ensures IsPowerOfTwo(newLength) && n <= newLength && 4 <= newLength && (newLength == 4 || newLength < 2 * n)
    {
      newLength := 4;
      assert IsPowerOfTwo(2) && IsPowerOfTwo(4);
      while newLength < n
        invariant IsPowerOfTwo(newLength) && 4 <= newLength && (newLength == 4 || newLength < 2 * n)
      {
        newLength := newLength * 2;
      }
    }

    // Relinks every entry into a new table, with at least as many buckets as entries.
    method Resize()
      requires Links() && IsPowerOfTwo(list.Length) && WellPlaced(chains) && elems == |Members()|
      modifies this`list, this`chains, Members()`nextHash
      ensures Valid() && fresh(list) && Members() == old(Members())
      ensures elems <= list.Length && 4 <= list.Length && (list.Length == 4 || list.Length < 2 * elems)
    {
      hide WellPlaced, AllOf, IsPowerOfTwo;
      var newLength := NewLength(elems);
      var newList := new LRUHandle?[newLength](_ => null);
      var oldList := list;
      ghost var was, heads := chains, list[..];
      ghost var newChains: seq<seq<LRUHandle>> := seq(newLength, _ => []);
      NothingIn(newChains, was[..0]);
      for i := 0 to oldList.Length
        invariant oldList[..] == heads && fresh(newList) && newList.Length == newLength == |newChains|
        invariant WellPlaced(newChains) && AllOf(newChains) == AllOf(was[..i])
        invariant forall b | 0 <= b < |newChains| :: LinkedFrom(newList[b], newChains[b])
        invariant forall k | i <= k < |was| :: LinkedFrom(heads[k], was[k])
      {
        newChains := MoveChain(oldList[i], newList, newChains, was, heads, i);
      }
      assert was[..|was|] == was;
      list, chains := newList, newChains;
    }
  }

  lemma LinkedBehind(first: LRUHandle?, chain: seq<LRUHandle>, i: nat)
    requires LinkedFrom(first, chain) && i < |chain|
    ensures LinkedFrom(chain[i].nextHash, chain[i+1..])
  {
    var tail := chain[i+1..];
    assert LinksOn(chain, i);
    forall j | 0 <= j < |tail|
      ensures LinksOn(tail, j)
    {
      assert LinksOn(chain, i + 1 + j);
    }
  }

  lemma LinkedFront(h: LRUHandle, chain: seq<LRUHandle>)
    requires LinkedFrom(h.nextHash, chain)
    ensures LinkedFrom(h, [h] + chain)
  {
    var w := [h] + chain;
    forall j | 0 <= j < |w|
      ensures LinksOn(w, j)
    {
      assert j > 0 ==> LinksOn(chain, j - 1);
    }
  }

  lemma MatchIs(h: LRUHandle, key: Key, hash: nat)
    requires Matches(h, key, hash)
    ensures h.key == key && h.hash == hash
  {
  }

  lemma OneBucketOnly(chains: seq<seq<LRUHandle>>, b: nat, h: LRUHandle)
    requires WellPlaced(chains) && b < |chains| && h in chains[b]
    ensures forall c | 0 <= c < |chains| && c != b :: h !in chains[c]
  {
    forall c | 0 <= c < |chains| && h in chains[c]
      ensures c == b
    {
      BucketsAreApart(chains, c, b, h);
    }
  }

  // A chain relinked behind its first `i` entries.
  lemma RelinkedFrom(first: LRUHandle?, chain: seq<LRUHandle>, i: nat, target: LRUHandle?, tail: seq<LRUHandle>)
    requires 0 < i <= |chain| && first == chain[0]
    requires forall j | 0 <= j < i - 1 :: LinksOn(chain, j)
    requires chain[i-1].nextHash == target && LinkedFrom(target, tail)
    ensures LinkedFrom(first, chain[..i] + tail)
  {
    var w := chain[..i] + tail;
    forall j | 0 <= j < |w|
      ensures LinksOn(w, j)
    {
      assert j < i - 1 ==> LinksOn(chain, j);
      assert j >= i ==> LinksOn(tail, j - i);
    }
  }

  // What stays of a chain in front of a replaced entry is not linked behind it.
  lemma ChainIsApart(chains: seq<seq<LRUHandle>>, b: nat, i: nat, h: LRUHandle)
    requires WellPlaced(chains) && b < |chains| && i <= |chains[b]| && h !in AllOf(chains)
    ensures h !in chains[b]
    ensures var chain := chains[b];
            forall j | 0 <= j < i :: chain[j] !in [h] + if i < |chain| then chain[i+1..] else []
  {
    var chain := chains[b];
    ApartIsDistinct(chain);
    assert forall x | x in chain :: x in AllOf(chains);
    hide WellPlaced, AllOf;
    forall j | 0 <= j < i
      ensures chain[j] !in [h] + if i < |chain| then chain[i+1..] else []
    {
      assert chain[j] in chain;
    }
  }

  lemma WithoutIsApart(chains: seq<seq<LRUHandle>>, b: nat, i: nat)
    requires WellPlaced(chains) && b < |chains| && i < |chains[b]|
    ensures var chain := chains[b];
            && (forall j | 0 <= j < i :: chain[j] !in chain[i+1..])
            && chain[..i] + chain[i+1..] == Without(chain, i)
  {
    ApartIsDistinct(chains[b]);
  }

  lemma NothingIn(chains: seq<seq<LRUHandle>>, none: seq<seq<LRUHandle>>)
    requires (forall b | 0 <= b < |chains| :: chains[b] == []) && none == []
    ensures WellPlaced(chains) && AllOf(chains) == AllOf(none) == {}
  {
  }

  lemma BucketsAreApart(chains: seq<seq<LRUHandle>>, a: nat, b: nat, h: LRUHandle)
    requires WellPlaced(chains) && a < |chains| && b < |chains| && h in chains[a] && h in chains[b]
    ensures a == b
  {
    assert h.hash % |chains| == a;
    assert h.hash % |chains| == b;
  }

  function Replaced(chain: seq<LRUHandle>, i: nat, h: LRUHandle): seq<LRUHandle>
    requires i <= |chain|
  {
    chain[..i] + [h] + if i < |chain| then chain[i+1..] else []
  }

  lemma ChainReplaced(chain: seq<LRUHandle>, i: nat, h: LRUHandle)
    requires Distinct(chain) && i <= |chain| && h !in chain
    ensures Distinct(Replaced(chain, i, h))
    ensures forall x :: x in Replaced(chain, i, h) <==> x == h || (x in chain && (i == |chain| || x != chain[i]))
  {
    if i < |chain| {
      WithoutMembers(chain, i);
    }
    var w := Replaced(chain, i, h);
    forall x
      ensures x in w <==> x == h || (x in chain && (i == |chain| || x != chain[i]))
    {
      if x in chain && (i == |chain| || x != chain[i]) {
        var j :| 0 <= j < |chain| && chain[j] == x;
        assert w[j] == x;
      }
      assert x == h ==> w[i] == h;
    }
  }

  lemma ReplacedKeysApart(chain: seq<LRUHandle>, i: nat, h: LRUHandle)
    requires KeysApart(chain) && i <= |chain|
    requires if i < |chain| then Matches(chain[i], h.key, h.hash) else forall x | x in chain :: !Matches(x, h.key, h.hash)
    ensures KeysApart(Replaced(chain, i, h))
  {
    var w := Replaced(chain, i, h);
    forall j, k | 0 <= j < k < |w|
      ensures w[j].hash != w[k].hash || w[j].key != w[k].key
    {
      assert (j != i ==> w[j] == chain[j]) && (k != i ==> w[k] == chain[k]);
      if i < |chain| {
        assert chain[j].hash != chain[k].hash || chain[j].key != chain[k].key;
      } else {
        assert chain[j] in chain;
      }
    }
  }

  lemma ApartIsDistinct(chain: seq<LRUHandle>)
    requires KeysApart(chain)
    ensures Distinct(chain)
  {
  }

  lemma ReplacedPlaced(chains: seq<seq<LRUHandle>>, b: nat, i: nat, h: LRUHandle)
    requires WellPlaced(chains) && b < |chains| && i <= |chains[b]| && b == h.hash % |chains|
    requires h !in chains[b]
    requires if i < |chains[b]| then Matches(chains[b][i], h.key, h.hash) else forall x | x in chains[b] :: !Matches(x, h.key, h.hash)
    ensures WellPlaced(chains[b := Replaced(chains[b], i, h)])
  {
    ApartIsDistinct(chains[b]);
    ChainReplaced(chains[b], i, h);
    ReplacedKeysApart(chains[b], i, h);
    hide KeysApart, Replaced, Matches;
  }

  lemma ReplacedAll(chains: seq<seq<LRUHandle>>, b: nat, i: nat, h: LRUHandle)
    requires WellPlaced(chains) && b < |chains| && i <= |chains[b]|
    requires h !in AllOf(chains)
    ensures AllOf(chains[b := Replaced(chains[b], i, h)]) == AllOf(chains) - (if i < |chains[b]| then {chains[b][i]} else {}) + {h}
  {
    ApartIsDistinct(chains[b]);
    hide KeysApart, WellPlaced;
    var chain, w := chains[b], Replaced(chains[b], i, h);
    var chains' := chains[b := w];
    assert h !in chain;
    ChainReplaced(chain, i, h);
    hide Replaced;
    forall x
      ensures x in AllOf(chains') <==> x == h || (x in AllOf(chains) && (i == |chain| || x != chain[i]))
    {
      if x in AllOf(chains) {
        var c :| 0 <= c < |chains| && x in chains[c];
        assert x in chains'[c] || c == b;
      }
      if x in AllOf(chains') {
        var c :| 0 <= c < |chains| && x in chains'[c];
        if c != b && i < |chain| && x == chain[i] {
          BucketsAreApart(chains, b, c, x);
        }
        assert x in chains[c] || c == b;
      }
      assert x in w ==> x in chains'[b];
    }
  }

  lemma ReplacedMembers(chains: seq<seq<LRUHandle>>, b: nat, i: nat, h: LRUHandle)
    requires WellPlaced(chains) && b < |chains| && i <= |chains[b]| && b == h.hash % |chains|
    requires h !in AllOf(chains)
    requires if i < |chains[b]| then Matches(chains[b][i], h.key, h.hash) else forall x | x in AllOf(chains) :: !Matches(x, h.key, h.hash)
    ensures var chains' := chains[b := Replaced(chains[b], i, h)];
            && WellPlaced(chains')
            && AllOf(chains') == AllOf(chains) - (if i < |chains[b]| then {chains[b][i]} else {}) + {h}
            && |AllOf(chains')| == |AllOf(chains)| + if i < |chains[b]| then 0 else 1
  {
    hide WellPlaced, Matches, Replaced;
    var all := AllOf(chains);
    assert forall x | x in chains[b] :: x in all;
    ReplacedPlaced(chains, b, i, h);
    ReplacedAll(chains, b, i, h);
    hide AllOf;
    if i < |chains[b]| {
      assert chains[b][i] in all;
    }
  }

  lemma WithoutInBucket(chains: seq<seq<LRUHandle>>, b: nat, i: nat)
    requires WellPlaced(chains) && b < |chains| && i < |chains[b]|
    ensures var chains', h := chains[b := Without(chains[b], i)], chains[b][i];
            WellPlaced(chains') && h in AllOf(chains) && AllOf(chains') == AllOf(chains) - {h}
  {
    var chain, w := chains[b], Without(chains[b], i);
    var chains' := chains[b := w];
    ApartIsDistinct(chain);
    WithoutMembers(chain, i);
    WithoutKeysApart(chain, i);
    hide KeysApart, Without;
    assert chain[i] in chain;
    forall x
      ensures x in AllOf(chains') <==> x in AllOf(chains) && x != chain[i]
    {
      if x in AllOf(chains) && x != chain[i] {
        var c :| 0 <= c < |chains| && x in chains[c];
        assert x in chains'[c];
      }
      if x in AllOf(chains') {
        var c :| 0 <= c < |chains| && x in chains'[c];
        assert x in chains[c];
        if x == chain[i] {
          BucketsAreApart(chains, b, c, x);
        }
      }
    }
  }

  lemma WithoutKeysApart(chain: seq<LRUHandle>, i: nat)
    requires KeysApart(chain) && i < |chain|
    ensures KeysApart(Without(chain, i))
  {
    var w := Without(chain, i);
    assert forall j | 0 <= j < |w| :: w[j] == chain[if j < i then j else j + 1];
  }

  lemma FrontIsApart(chain: seq<LRUHandle>, h: LRUHandle)
    requires KeysApart(chain) && forall x | x in chain :: !Matches(x, h.key, h.hash)
    ensures KeysApart([h] + chain)
  {
    var w := [h] + chain;
    forall i, j | 0 <= i < j < |w|
      ensures w[i].hash != w[j].hash || w[i].key != w[j].key
    {
      assert w[j] == chain[j-1] && chain[j-1] in chain;
    }
  }

  // Links `h` in at the front of a bucket.
  method PushFront(h: LRUHandle, newList: array<LRUHandle?>, b: nat, ghost newChains: seq<seq<LRUHandle>>)
    requires b < newList.Length == |newChains| && h !in AllOf(newChains)
    requires forall c | 0 <= c < |newChains| :: LinkedFrom(newList[c], newChains[c])
    modifies newList, h`nextHash
    ensures newList[b] == h && forall c | 0 <= c < |newChains| && c != b :: newList[c] == old(newList[c])
    ensures LinkedFrom(h, [h] + newChains[b])
    ensures forall c | 0 <= c < |newChains| && c != b :: LinkedFrom(newList[c], newChains[c])
  {
    assert forall c | 0 <= c < |newChains| :: h !in newChains[c];
    hide AllOf;
    h.nextHash := newList[b];
    assert LinkedFrom(newList[b], newChains[b]);
    LinkedFront(h, newChains[b]);
    newList[b] := h;
  }

  // Moves the entries of one old bucket to the buckets of a new table; later buckets stay linked.
  method MoveChain(first: LRUHandle?, newList: array<LRUHandle?>, ghost before: seq<seq<LRUHandle>>,
                   ghost chains: seq<seq<LRUHandle>>, ghost heads: seq<LRUHandle?>, ghost i: nat)
    returns (ghost newChains: seq<seq<LRUHandle>>)
    requires WellPlaced(chains) && i < |chains| == |heads| && LinkedFrom(first, chains[i])
    requires newList.Length == |before| > 0 && WellPlaced(before) && AllOf(before) == AllOf(chains[..i])
    requires forall b | 0 <= b < |before| :: LinkedFrom(newList[b], before[b])
    requires forall k | i < k < |chains| :: LinkedFrom(heads[k], chains[k])
    modifies newList, AllOf(chains)`nextHash
    ensures |newChains| == |before| && WellPlaced(newChains) && AllOf(newChains) == AllOf(chains[..i+1])
    ensures forall b | 0 <= b < |newChains| :: LinkedFrom(newList[b], newChains[b])
    ensures forall k | i < k < |chains| :: LinkedFrom(heads[k], chains[k])
  {
    hide WellPlaced, AllOf;
    newChains := before;
    ghost var chain, j := chains[i], 0;
    var h := first;
    MovedSoFar(chains, i, 0);
    assert chain[0..] == chain;
    while h != null
      invariant j <= |chain| && LinkedFrom(h, chain[j..])
      invariant |newChains| == newList.Length && WellPlaced(newChains)
      invariant AllOf(newChains) == AllOf(chains[..i] + [chain[..j]])
      invariant forall b | 0 <= b < |newChains| :: LinkedFrom(newList[b], newChains[b])
      invariant forall k | i < k < |chains| :: LinkedFrom(heads[k], chains[k])
      decreases |chain| - j
    {
      assert h == chain[j];
      var next := h.nextHash;
      assert LinkedFrom(next, chain[j+1..]) by { LinkedBehind(h, chain[j..], 0); assert chain[j..][1..] == chain[j+1..]; }
      var b := h.hash % newList.Length;
      MovedIsApart(chains, i, j, newChains);
      NotYetMoved(chains, i, j, newChains);
      PushedFront(newChains, b, h);
      MovedSoFar(chains, i, j);
      PushFront(h, newList, b, newChains);
      newChains := newChains[b := [h] + newChains[b]];
      h, j := next, j + 1;
    }
    assert chain[..|chain|] == chain;
    assert chains[..i] + [chain] == chains[..i+1];
  }

  // The entry to be moved next is in no later bucket, not further on in its own, and not moved.
  lemma NotYetMoved(chains: seq<seq<LRUHandle>>, i: nat, j: nat, moved: seq<seq<LRUHandle>>)
    requires WellPlaced(chains) && i < |chains| && j < |chains[i]|
    requires forall x | x in AllOf(moved) :: !Matches(x, chains[i][j].key, chains[i][j].hash)
    ensures chains[i][j] in AllOf(chains) && chains[i][j] !in AllOf(moved) && chains[i][j] !in chains[i][j+1..]
    ensures forall k | 0 <= k < |chains| && k != i :: chains[i][j] !in chains[k]
  {
    var h := chains[i][j];
    assert h in chains[i];
    ApartIsDistinct(chains[i]);
    OneBucketOnly(chains, i, h);
  }

  lemma MovedSoFar(chains: seq<seq<LRUHandle>>, i: nat, j: nat)
    requires i < |chains| && j <= |chains[i]|
    ensures j == 0 ==> AllOf(chains[..i] + [chains[i][..0]]) == AllOf(chains[..i])
    ensures j < |chains[i]| ==> AllOf(chains[..i] + [chains[i][..j+1]]) == AllOf(chains[..i] + [chains[i][..j]]) + {chains[i][j]}
  {
    var a := chains[..i] + [chains[i][..j]];
    assert forall c | 0 <= c < i :: a[c] == chains[c];
    if j == 0 {
      assert forall x :: x in AllOf(a) ==> x in AllOf(chains[..i]);
      forall x | x in AllOf(chains[..i])
        ensures x in AllOf(a)
      {
        var c :| 0 <= c < i && x in chains[c];
        assert x in a[c];
      }
    }
    if j < |chains[i]| {
      var b := chains[..i] + [chains[i][..j+1]];
      assert forall c | 0 <= c < i :: b[c] == chains[c];
      assert b[i] == a[i] + [chains[i][j]];
      forall x
        ensures x in AllOf(b) <==> x in AllOf(a) || x == chains[i][j]
      {
        if x in AllOf(a) || x == chains[i][j] {
          var c :| 0 <= c < |a| && (x in a[c] || (c == i && x == chains[i][j]));
          assert x in b[c];
        }
        if x in AllOf(b) {
          var c :| 0 <= c < |b| && x in b[c];
          assert x in a[c] || x == chains[i][j];
        }
      }
    }
  }

  lemma PushedFront(chains: seq<seq<LRUHandle>>, b: nat, h: LRUHandle)
    requires WellPlaced(chains) && b < |chains| && b == h.hash % |chains|
    requires forall x | x in AllOf(chains) :: !Matches(x, h.key, h.hash)
    ensures WellPlaced(chains[b := [h] + chains[b]])
    ensures AllOf(chains[b := [h] + chains[b]]) == AllOf(chains) + {h}
  {
    var chains' := chains[b := [h] + chains[b]];
    assert forall x | x in chains[b] :: x in AllOf(chains);
    FrontIsApart(chains[b], h);
    hide KeysApart, Matches;
    forall x
      ensures x in AllOf(chains') <==> x in AllOf(chains) || x == h
    {
      if x in AllOf(chains) || x == h {
        var c :| 0 <= c < |chains| && (x in chains[c] || (x == h && c == b));
        assert x in chains'[c];
      }
    }
  }

  // An entry yet to be moved shares its key and hash with none moved before.
  lemma MovedIsApart(chains: seq<seq<LRUHandle>>, i: nat, j: nat, moved: seq<seq<LRUHandle>>)
    requires WellPlaced(chains) && i < |chains| && j < |chains[i]|
    requires AllOf(moved) == AllOf(chains[..i] + [chains[i][..j]])
    ensures forall x | x in AllOf(moved) :: !Matches(x, chains[i][j].key, chains[i][j].hash)
  {
    var h := chains[i][j];
    assert h in chains[i] && h.hash % |chains| == i && KeysApart(chains[i]);
    forall x | x in AllOf(moved)
      ensures !Matches(x, h.key, h.hash)
    {
      var done := chains[..i] + [chains[i][..j]];
      var c :| 0 <= c < |done| && x in done[c];
      if c < i {
        assert x in chains[c] && x.hash % |chains| == c;
      }
    }
  }
}
