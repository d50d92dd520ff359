// The filter block of a table: one filter for every two kilobytes of blocks.

module Filters {
  import opened Bytes
  import opened Coding
  import opened KeyOrders
  import opened Blooms

  const FILTER_BASE_LG: nat := 11

  // A key, and the offset of the block it is in.
  datatype Added = Added(blockOffset: nat, key: seq<Byte>)

  function UserParts(keys: seq<seq<Byte>>): seq<seq<Byte>> {
    seq(|keys|, i requires 0 <= i < |keys| => UserPart(keys[i]))
  }

  // Filters are made of user keys.
  method CreateInternalFilter(policy: Policy, keys: seq<seq<Byte>>, dst: seq<Byte>) returns (r: seq<Byte>)
    ensures |dst| <= |r| && r[..|dst|] == dst && IsFilterOf(policy, r[|dst|..], UserParts(keys))
  {
    hide IsFilterOf;
    var mkey := keys;
    for i := 0 to |keys|
      invariant |mkey| == |keys| && mkey[..i] == UserParts(keys)[..i] && mkey[i..] == keys[i..]
    {
      mkey := mkey[i := UserPart(keys[i])];
    }
    assert mkey == UserParts(keys);
    r := CreateFilter(policy, mkey, dst);
  }

  method InternalKeyMayMatch(policy: Policy, key: seq<Byte>, filter: seq<Byte>) returns (r: bool)
    ensures r <==> Matches(policy, UserPart(key), filter)
  {
    r := KeyMayMatch(policy, UserPart(key), filter);
  }

  // Where filter `i` ends.
  function FilterEnd(offsets: seq<nat>, end: nat, i: nat): nat
    requires i < |offsets|
  {
    if i + 1 < |offsets| then offsets[i+1] else end
  }

  ghost predicate OffsetsOk(offsets: seq<nat>, end: nat) {
    forall i | 0 <= i < |offsets| :: offsets[i] <= FilterEnd(offsets, end, i) <= end
  }

  ghost function FilterAt(result: seq<Byte>, offsets: seq<nat>, i: nat): seq<Byte>
    requires i < |offsets| && OffsetsOk(offsets, |result|)
  {
    result[offsets[i]..FilterEnd(offsets, |result|, i)]
  }

  // Filter `i` does not deny this key.
  ghost predicate Keeps(policy: Policy, result: seq<Byte>, offsets: seq<nat>, i: nat, key: seq<Byte>)
    requires i < |offsets| && OffsetsOk(offsets, |result|)
  {
    Matches(policy, UserPart(key), FilterAt(result, offsets, i))
  }

  // The keys of the blocks that begin in the `i`-th two kilobytes.
  ghost function KeysIn(added: seq<Added>, i: nat): seq<seq<Byte>> {
    if added == [] then []
    else
      var last := added[|added|-1];
      KeysIn(added[..|added|-1], i) + if last.blockOffset / 2048 == i then [last.key] else []
  }

  lemma {:induction false} KeysInAre(added: seq<Added>, i: nat)
    ensures forall key :: key in KeysIn(added, i) <==> exists a :: a in added && a.blockOffset / 2048 == i && a.key == key
  {
    if added != [] {
      var init, last := added[..|added|-1], added[|added|-1];
      KeysInAre(init, i);
      assert forall a :: a in added <==> a in init || a == last;
    }
  }

  // No keys have no filter; others have one of their user keys.
  ghost predicate IsFilterFor(policy: Policy, filter: seq<Byte>, keys: seq<seq<Byte>>) {
    if keys == [] then filter == [] else IsFilterOf(policy, filter, UserParts(keys))
  }

  ghost predicate IsFilterAt(policy: Policy, result: seq<Byte>, offsets: seq<nat>, added: seq<Added>, i: nat)
    requires i < |offsets| && OffsetsOk(offsets, |result|)
  {
    IsFilterFor(policy, FilterAt(result, offsets, i), KeysIn(added, i))
  }

  // Filter `i` is made of exactly the keys of its two kilobytes.
  ghost predicate AllMade(policy: Policy, result: seq<Byte>, offsets: seq<nat>, added: seq<Added>)
    requires OffsetsOk(offsets, |result|)
  {
    forall i: nat | i < |offsets| :: IsFilterAt(policy, result, offsets, added, i)
  }

  ghost predicate AllBelow(added: seq<Added>, n: nat) {
    forall a | a in added :: a.blockOffset / 2048 < n
  }

  lemma KeyAdded(policy: Policy, result: seq<Byte>, offsets: seq<nat>, added: seq<Added>, a: Added)
    requires OffsetsOk(offsets, |result|) && AllMade(policy, result, offsets, added)
    requires a.blockOffset / 2048 == |offsets|
    ensures AllMade(policy, result, offsets, added + [a])
    ensures KeysIn(added + [a], |offsets|) == KeysIn(added, |offsets|) + [a.key]
    ensures AllBelow(added, |offsets| + 1) ==> AllBelow(added + [a], |offsets| + 1)
  {
    hide IsFilterFor, OffsetsOk;
    assert (added + [a])[..|added|] == added;
    forall i: nat | i < |offsets|
      ensures IsFilterAt(policy, result, offsets, added + [a], i)
    {
      assert KeysIn(added + [a], i) == KeysIn(added, i);
      assert IsFilterAt(policy, result, offsets, added, i);
    }
  }

  lemma {:induction false} OffsetsGrow(offsets: seq<nat>, end: nat, end': nat)
    requires OffsetsOk(offsets, end) && end <= end'
    ensures OffsetsOk(offsets + [end], end')
    ensures forall i | 0 <= i < |offsets| :: FilterEnd(offsets + [end], end', i) == FilterEnd(offsets, end, i)
  {
    var offsets' := offsets + [end];
    forall i | 0 <= i < |offsets'|
      ensures offsets'[i] <= FilterEnd(offsets', end', i) <= end'
    {
      assert i < |offsets| ==> offsets[i] <= FilterEnd(offsets, end, i) <= end;
    }
  }

  // One more filter, of the keys that have none yet.
  lemma AppendMakes(policy: Policy, result: seq<Byte>, result': seq<Byte>, offsets: seq<nat>, added: seq<Added>)
    requires OffsetsOk(offsets, |result|) && AllMade(policy, result, offsets, added)
    requires |result| <= |result'| && result'[..|result|] == result
    requires IsFilterFor(policy, result'[|result|..], KeysIn(added, |offsets|))
    ensures OffsetsOk(offsets + [|result|], |result'|)
    ensures AllMade(policy, result', offsets + [|result|], added)
  {
    hide IsFilterFor, KeysIn;
    var offsets', n := offsets + [|result|], |offsets|;
    OffsetsGrow(offsets, |result|, |result'|);
    forall i: nat | i < |offsets'|
      ensures IsFilterAt(policy, result', offsets', added, i)
    {
      if i < n {
        assert IsFilterAt(policy, result, offsets, added, i);
        assert offsets[i] <= FilterEnd(offsets, |result|, i) <= |result|;
        SliceOfPrefix(result, result', offsets[i], FilterEnd(offsets, |result|, i));
      } else {
        assert result'[|result|..|result'|] == result'[|result|..];
      }
    }
  }

  lemma SliceOfPrefix(a: seq<Byte>, b: seq<Byte>, i: nat, j: nat)
    requires |a| <= |b| && b[..|a|] == a && i <= j <= |a|
    ensures b[i..j] == a[i..j]
  {
    assert b == a + b[|a|..];
  }

  lemma {:induction false} NothingAbove(added: seq<Added>, n: nat)
    requires AllBelow(added, n)
    ensures KeysIn(added, n) == []
  {
    if added != [] {
      NothingAbove(added[..|added|-1], n);
    }
  }

  // Where key `i` ends in the flattened keys.
  ghost predicate IsFlattened(keys: seq<Byte>, start: seq<nat>, pending: seq<seq<Byte>>) {
    && |start| == |pending|
    && forall i | 0 <= i < |start| ::
         start[i] <= FilterEnd(start, |keys|, i) <= |keys| && keys[start[i]..FilterEnd(start, |keys|, i)] == pending[i]
  }

  lemma FlattenedSize(keys: seq<Byte>, start: seq<nat>, pending: seq<seq<Byte>>)
    requires IsFlattened(keys, start, pending)
    ensures |start| == |pending|
  {
  }

  lemma FlattenedAt(keys: seq<Byte>, start: seq<nat>, pending: seq<seq<Byte>>, i: nat)
    requires IsFlattened(keys, start, pending) && i < |start|
    ensures |start| == |pending|
    ensures var ends := start + [|keys|];
            ends[i] <= ends[i+1] <= |keys| && keys[ends[i]..ends[i+1]] == pending[i]
  {
    assert (start + [|keys|])[i+1] == FilterEnd(start, |keys|, i);
  }

  lemma FlattenedGrows(keys: seq<Byte>, start: seq<nat>, pending: seq<seq<Byte>>, key: seq<Byte>)
    requires IsFlattened(keys, start, pending)
    ensures IsFlattened(keys + key, start + [|keys|], pending + [key])
  {
    var keys', start', pending' := keys + key, start + [|keys|], pending + [key];
    forall i | 0 <= i < |start'|
      ensures start'[i] <= FilterEnd(start', |keys'|, i) <= |keys'| && keys'[start'[i]..FilterEnd(start', |keys'|, i)] == pending'[i]
    {
      if i < |start| {
        var end := FilterEnd(start, |keys|, i);
        assert start[i] <= end <= |keys| && keys[start[i]..end] == pending[i];
        assert keys'[start[i]..end] == keys[start[i]..end];
      } else {
        assert keys'[|keys|..|keys'|] == key;
      }
    }
  }

  // A finished filter block.
  ghost predicate IsFilterBlock(contents: seq<Byte>, result: seq<Byte>, offsets: seq<nat>) {
    && OffsetsOk(offsets, |result|)
    && contents == result + FixedArray(offsets) + Fixed32(|result| % LIMIT32) + [ByteOf(FILTER_BASE_LG)]
  }

  class FilterBlockBuilder {
    const policy: Policy
    var keys: seq<Byte>       // flattened
    var start: seq<nat>
    var result: seq<Byte>
    var filterOffsets: seq<nat>
    ghost var added: seq<Added>
    ghost var pending: seq<seq<Byte>>
    ghost var blockOffset: nat

    ghost predicate Valid()
      reads this
    {
      && OffsetsOk(filterOffsets, |result|)
      && AllMade(policy, result, filterOffsets, added) && AllBelow(added, |filterOffsets| + 1)
      && pending == KeysIn(added, |filterOffsets|) && IsFlattened(keys, start, pending)
    }

    // The current block may get keys.
    ghost predicate IsStarted()
      reads this
    {
      blockOffset / 2048 == |filterOffsets|
    }

    constructor (policy: Policy)
      ensures Valid() && added == [] && filterOffsets == [] && IsStarted() && blockOffset == 0
      ensures this.policy == policy
    {
      this.policy := policy;
      keys, start, result, filterOffsets := [], [], [], [];
      added, pending, blockOffset := [], [], 0;
    }

    // Offsets grow.
    lemma CanStart(next: nat)
      requires IsStarted() && blockOffset <= next
      ensures next / 2048 >= |filterOffsets|
    {
    }

    method StartBlock(blockOffset: nat)
      requires Valid() && blockOffset / 2048 >= |filterOffsets|
      modifies this
      ensures Valid() && IsStarted() && this.blockOffset == blockOffset && added == old(added)
    {
      hide OffsetsOk, AllMade, AllBelow, KeysIn, IsFlattened;
      var filterIndex := blockOffset / 2048;
      while filterIndex > |filterOffsets|
        invariant Valid() && filterIndex >= |filterOffsets| && added == old(added)
        decreases filterIndex - |filterOffsets|
      {
        GenerateFilter();
      }
      this.blockOffset := blockOffset;
    }

    method AddKey(key: seq<Byte>)
      requires Valid() && IsStarted()
      modifies this`keys, this`start, this`pending, this`added
      ensures Valid() && IsStarted() && added == old(added) + [Added(blockOffset, key)]
    {
      hide OffsetsOk, AllMade, AllBelow, KeysIn, IsFlattened;
      FlattenedGrows(keys, start, pending, key);
      KeyAdded(policy, result, filterOffsets, added, Added(blockOffset, key));
      start := start + [|keys|];
      keys := keys + key;
      pending := pending + [key];
      added := added + [Added(blockOffset, key)];
    }

    method Finish() returns (contents: seq<Byte>)
      requires Valid()
      modifies this
      ensures Valid() && added == old(added) && IsFilterBlock(contents, result, filterOffsets)
      ensures pending == [] && AllBelow(added, |filterOffsets|)
    {
      hide OffsetsOk, AllMade, AllBelow, KeysIn, IsFlattened, Fixed32, ByteOf;
      if start != [] {
        GenerateFilter();
      }
      NothingPending(keys, start, pending);
      AllAreMade(added, |filterOffsets|);
      var arrayOffset := |result|;
      contents := result;
      for i := 0 to |filterOffsets|
        invariant contents == result + FixedArray(filterOffsets[..i])
      {
        assert filterOffsets[..i+1][..i] == filterOffsets[..i];
        contents := contents + Fixed32(filterOffsets[i] % LIMIT32);
      }
      assert filterOffsets[..|filterOffsets|] == filterOffsets;
      contents := contents + Fixed32(arrayOffset % LIMIT32);
      contents := contents + [ByteOf(FILTER_BASE_LG)];
    }

    // The list of keys out of the flattened ones.
    method PendingKeys() returns (tmpKeys: seq<seq<Byte>>)
      requires Valid()
      ensures tmpKeys == pending
    {
      hide OffsetsOk, AllMade, AllBelow, KeysIn, IsFlattened, FilterEnd;
      var ends := start + [|keys|];
      tmpKeys := [];
      assert |start| == |pending| by { FlattenedSize(keys, start, pending); }
      for i := 0 to |start|
        invariant tmpKeys == pending[..i]
      {
        FlattenedAt(keys, start, pending, i);
        assert pending[..i+1] == pending[..i] + [pending[i]];
        tmpKeys := tmpKeys + [keys[ends[i]..ends[i+1]]];
      }
    }

    method GenerateFilter()
      requires Valid()
      modifies this`keys, this`start, this`result, this`filterOffsets, this`pending
      ensures Valid() && |filterOffsets| == |old(filterOffsets)| + 1 && start == []
    {
      hide OffsetsOk, AllMade, AllBelow, KeysIn, IsFilterOf, UserParts, IsFlattened;
      NothingPending(keys, start, pending);
      MoreBelow(added, |filterOffsets| + 1);
      NothingAbove(added, |filterOffsets| + 1);
      if start == [] {
        assert result[|result|..] == [];
        AppendMakes(policy, result, result, filterOffsets, added);
        filterOffsets := filterOffsets + [|result|];
        pending := [];
        return;
      }
      var tmpKeys := PendingKeys();
      var longer := CreateInternalFilter(policy, tmpKeys, result);
      AppendMakes(policy, result, longer, filterOffsets, added);
      filterOffsets := filterOffsets + [|result|];
      result := longer;
      NothingFlattened();
      keys, start, pending := [], [], [];
    }
  }

  lemma NothingFlattened()
    ensures IsFlattened([], [], [])
  {
  }

  lemma MoreBelow(added: seq<Added>, n: nat)
    ensures AllBelow(added, n) ==> AllBelow(added, n + 1)
  {
  }

  // With nothing pending, every key is in a filter.
  lemma AllAreMade(added: seq<Added>, n: nat)
    requires AllBelow(added, n + 1) && KeysIn(added, n) == []
    ensures AllBelow(added, n)
  {
    KeysInAre(added, n);
    forall a | a in added
      ensures a.blockOffset / 2048 < n
    {
      assert a.blockOffset / 2048 == n ==> a.key in KeysIn(added, n);
    }
  }

  lemma NothingPending(keys: seq<Byte>, start: seq<nat>, pending: seq<seq<Byte>>)
    requires IsFlattened(keys, start, pending)
    ensures start == [] <==> pending == []
  {
  }

  class FilterBlockReader {
    const policy: Policy
    const data: seq<Byte>
    const offset: nat    // where the array of offsets begins
    const num: nat
    const baseLg: nat

    predicate Valid() {
      num > 0 ==> offset + 4 * num + 5 <= |data|
    }

    // It reads this filter block.
    ghost predicate Reads(contents: seq<Byte>, result: seq<Byte>, offsets: seq<nat>) {
      && IsFilterBlock(contents, result, offsets) && |contents| < LIMIT32
      && data == contents && offset == |result| && num == |offsets| && baseLg == FILTER_BASE_LG
    }

    constructor (policy: Policy, contents: seq<Byte>, ghost result: seq<Byte>, ghost offsets: seq<nat>)
      ensures Valid() && this.policy == policy
      ensures IsFilterBlock(contents, result, offsets) && |contents| < LIMIT32 ==> Reads(contents, result, offsets)
    {
      hide IsFilterBlock, FixedValue, NumberOf;
      this.policy := policy;
      var n := |contents|;
      if IsFilterBlock(contents, result, offsets) && |contents| < LIMIT32 {
        FilterBlockTail(contents, result, offsets);
      }
      if n < 5 {
        data, offset, num, baseLg := [], 0, 0, 0;
      } else {
        baseLg := NumberOf(contents[n-1]);
        var lastWord := FixedValue(contents[n-5..n-1]);
        if lastWord > n - 5 {
          data, offset, num := [], 0, 0;
        } else {
          data, offset, num := contents, lastWord, (n - 5 - lastWord) / 4;
        }
      }
    }

    method KeyMayMatch(blockOffset: nat, key: seq<Byte>, ghost result: seq<Byte>, ghost offsets: seq<nat>) returns (r: bool)
      requires Valid()
      ensures num == 0 ==> r
      ensures Reads(data, result, offsets) ==>
                (r <==> blockOffset / 2048 < |offsets| ==> Keeps(policy, result, offsets, blockOffset / 2048, key))
    {
      hide IsFilterBlock, FixedValue, Matches;
      var index := blockOffset / PowerOfTwo(baseLg);
      TwoKilobytes();
      if index < num {
        var start := FixedValue(data[offset+4*index..offset+4*index+4]);
        var limit := FixedValue(data[offset+4*index+4..offset+4*index+8]);
        if Reads(data, result, offsets) {
          OffsetsInBlock(data, result, offsets, index);
        }
        if start <= limit && limit <= offset {
          r := InternalKeyMayMatch(policy, key, data[start..limit]);
          return;
        } else if start == limit {
          return false;
        }
      }
      return true;
    }
  }

  function PowerOfTwo(n: nat): (r: nat)
    ensures r > 0
  {
    if n == 0 then 1 else 2 * PowerOfTwo(n - 1)
  }

  lemma TwoKilobytes()
    ensures PowerOfTwo(FILTER_BASE_LG) == 2048
  {
  }

  // The offset of filter `i` and the next word, which is where it ends.
  lemma OffsetsInBlock(contents: seq<Byte>, result: seq<Byte>, offsets: seq<nat>, i: nat)
    requires IsFilterBlock(contents, result, offsets) && |contents| < LIMIT32 && i < |offsets|
    ensures var n, end := |result|, FilterEnd(offsets, |result|, i);
            && n + 4 * i + 8 <= |contents| && OffsetsOk(offsets, |result|)
            && FixedValue(contents[n+4*i..n+4*i+4]) == offsets[i] <= end <= n
            && FixedValue(contents[n+4*i+4..n+4*i+8]) == end
            && contents[offsets[i]..end] == result[offsets[i]..end]
  {
    hide FixedValue, FixedArray, ByteOf, NumberOf, Fixed32;
    FilterBlockTail(contents, result, offsets);
    var n, all := |result|, FixedArray(offsets);
    assert offsets[i] <= FilterEnd(offsets, n, i) <= n;
    FixedArrayAt(offsets, i);
    assert contents[n+4*i..n+4*i+4] == all[4*i..4*i+4];
    if i + 1 < |offsets| {
      assert offsets[i+1] <= FilterEnd(offsets, n, i + 1) <= n;
      FixedArrayAt(offsets, i + 1);
      assert contents[n+4*i+4..n+4*i+8] == all[4*(i+1)..4*(i+1)+4];
    }
  }

  // A key that was added is not denied, if it is looked for under the offset of its block.
  lemma AddedIsKept(policy: Policy, result: seq<Byte>, offsets: seq<nat>, added: seq<Added>, a: Added)
    requires OffsetsOk(offsets, |result|) && AllMade(policy, result, offsets, added) && AllBelow(added, |offsets|)
    requires a in added
    ensures a.blockOffset / 2048 < |offsets| && Keeps(policy, result, offsets, a.blockOffset / 2048, a.key)
  {
    hide Matches, IsFilterOf, UserPart, KeysIn, OffsetsOk, FilterAt;
    var i := a.blockOffset / 2048;
    KeysInAre(added, i);
    var keys := KeysIn(added, i);
    assert a.key in keys;
    var k :| 0 <= k < |keys| && keys[k] == a.key;
    assert UserParts(keys)[k] == UserPart(a.key);
    assert IsFilterAt(policy, result, offsets, added, i);
    NothingIsHidden(policy, FilterAt(result, offsets, i), UserParts(keys), UserPart(a.key));
  }

  // A key is denied exactly if its two kilobytes have no key, or it stands for a bit that no key
  // there stands for.
  lemma KeptExactly(policy: Policy, result: seq<Byte>, offsets: seq<nat>, added: seq<Added>, i: nat, key: seq<Byte>)
    requires OffsetsOk(offsets, |result|) && AllMade(policy, result, offsets, added) && i < |offsets|
    ensures var bits, k, keys := 8 * (|FilterAt(result, offsets, i)| - 1), ProbeCount(policy.bitsPerKey), KeysIn(added, i);
            Keeps(policy, result, offsets, i, key) <==>
              && keys != [] && bits > 0
              && KeyProbes(policy, UserPart(key), bits, k) <= AllProbes(policy, UserParts(keys), bits, k)
  {
    hide UserPart, KeysIn, OffsetsOk, KeyProbes, AllProbes, HasBits, AllSet, ProbeCount, FilterAt;
    assert IsFilterAt(policy, result, offsets, added, i);
    if KeysIn(added, i) != [] {
      MatchesExactly(policy, FilterAt(result, offsets, i), UserParts(KeysIn(added, i)), UserPart(key));
    }
  }

  lemma FilterBlockTail(contents: seq<Byte>, result: seq<Byte>, offsets: seq<nat>)
    requires IsFilterBlock(contents, result, offsets) && |contents| < LIMIT32
    ensures var n := |contents|;
            && n >= 5 && n == |result| + 4 * |offsets| + 5
            && NumberOf(contents[n-1]) == FILTER_BASE_LG && FixedValue(contents[n-5..n-1]) == |result|
  {
    hide OffsetsOk, FixedValue, ByteOf, NumberOf, Fixed32;
    FixedArrayLength(offsets);
    FixedIsFour(|result|);
    FixedRoundTrip(|result|);
    ByteRoundTrip(FILTER_BASE_LG);
    assert contents[|contents|-5..|contents|-1] == Fixed32(|result|);
  }
}
