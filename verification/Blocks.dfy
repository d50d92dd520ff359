// A block: entries with shared key prefixes left out, restart points with whole keys, and the
// builder that writes one.

module Blocks {
  import opened Bytes
  import opened Coding
  import opened KeyOrders

  datatype KeyValue = KeyValue(key: seq<Byte>, value: seq<Byte>)

  ghost predicate KeysAscend(es: seq<KeyValue>, less: Order) {
    IsOrder(less) && forall i, j | 0 <= i < j < |es| :: less(es[i].key, es[j].key)
  }

  lemma AppendAscends(es: seq<KeyValue>, less: Order, e: KeyValue)
    requires KeysAscend(es, less) && (es != [] ==> less(es[|es|-1].key, e.key))
    ensures KeysAscend(es + [e], less)
  {
    forall i | 0 <= i < |es|
      ensures less(es[i].key, e.key)
    {
      assert i < |es| - 1 ==> less(es[i].key, es[|es|-1].key);
    }
  }

  function KeyBefore(es: seq<KeyValue>, i: nat): seq<Byte>
    requires i <= |es|
  {
    if i == 0 then [] else es[i-1].key
  }

  function EntryBytes(shared: nat, e: KeyValue): seq<Byte>
    requires shared <= |e.key|
  {
    Varint(shared) + Varint(|e.key| - shared) + Varint(|e.value|) + e.key[shared..] + e.value
  }

  // The entry of "abc" with "x" after a key that begins with "ab", in bytes.
  lemma KnownEntry()
    ensures EntryBytes(2, KeyValue([0x61, 0x62, 0x63], [0x78])) == [2, 1, 1, 0x63, 0x78]
  {
    assert [0x61, 0x62, 0x63][2..] == [0x63];
    assert Varint(2) == [ByteOf(2)] && Varint(1) == [ByteOf(1)];
  }

  // The first `shared` bytes of the two keys are the same.
  ghost predicate Shares(before: seq<Byte>, key: seq<Byte>, shared: nat) {
    shared <= |before| && shared <= |key| && before[..shared] == key[..shared]
  }

  // Where entries begin, how much of each key is left out, and which entries are restart points.
  datatype Layout = Layout(offsets: seq<nat>, shared: seq<nat>, restarts: seq<nat>)

  ghost predicate EntryOk(data: seq<Byte>, es: seq<KeyValue>, l: Layout, i: nat)
    requires i < |es| && |l.offsets| == |es| + 1 && |l.shared| == |es|
  {
    && Shares(KeyBefore(es, i), es[i].key, l.shared[i]) && |es[i].key| < LIMIT32
    && l.offsets[i] < l.offsets[i+1] <= |data| < LIMIT32
    && data[l.offsets[i]..l.offsets[i+1]] == EntryBytes(l.shared[i], es[i])
  }

  // `data` holds the entries one after another.
  ghost predicate BlockHolds(data: seq<Byte>, es: seq<KeyValue>, l: Layout) {
    && |l.offsets| == |es| + 1 && |l.shared| == |es|
    && l.offsets[0] == 0 && l.offsets[|es|] == |data|
    && forall i | 0 <= i < |es| :: EntryOk(data, es, l, i)
  }

  // The first entry is a restart point, and restart points have their keys whole.
  ghost predicate RestartsOk(es: seq<KeyValue>, l: Layout) {
    && |l.shared| == |es|
    && l.restarts != [] && l.restarts[0] == 0
    && (forall k, m | 0 <= k < m < |l.restarts| :: l.restarts[k] < l.restarts[m])
    && (forall k | 0 < k < |l.restarts| :: l.restarts[k] < |es|)
    && (forall k | 0 <= k < |l.restarts| && l.restarts[k] < |es| :: l.shared[l.restarts[k]] == 0)
  }

  lemma {:induction false} OffsetsAscend(data: seq<Byte>, es: seq<KeyValue>, l: Layout, i: nat, j: nat)
    requires BlockHolds(data, es, l) && i <= j <= |es|
    ensures l.offsets[i] <= l.offsets[j] <= |data| && (i < j ==> l.offsets[i] < l.offsets[j])
  {
    if i < j {
      OffsetsAscend(data, es, l, i, j - 1);
      assert EntryOk(data, es, l, j - 1);
    } else if i < |es| {
      assert EntryOk(data, es, l, i);
    }
  }

  // One more entry at the end.
  function Extended(l: Layout, shared: nat, size: nat, restart: bool): Layout
    requires l.offsets != []
  {
    Layout(l.offsets + [l.offsets[|l.offsets|-1] + size], l.shared + [shared],
           if restart then l.restarts + [|l.shared|] else l.restarts)
  }

  lemma AppendKeepsHolds(data: seq<Byte>, es: seq<KeyValue>, l: Layout, shared: nat, e: KeyValue, restart: bool)
    requires BlockHolds(data, es, l) && Shares(KeyBefore(es, |es|), e.key, shared)
    requires |data| + |EntryBytes(shared, e)| < LIMIT32 && |e.key| < LIMIT32
    ensures BlockHolds(data + EntryBytes(shared, e), es + [e], Extended(l, shared, |EntryBytes(shared, e)|, restart))
  {
    var bytes := EntryBytes(shared, e);
    assert |bytes| >= 3;
    hide EntryBytes, Shares;
    var data', es', l' := data + bytes, es + [e], Extended(l, shared, |bytes|, restart);
    forall i | 0 <= i < |es'|
      ensures EntryOk(data', es', l', i)
    {
      if i < |es| {
        assert EntryOk(data, es, l, i) && KeyBefore(es', i) == KeyBefore(es, i) && es'[i] == es[i];
        assert data'[l.offsets[i]..l.offsets[i+1]] == data[l.offsets[i]..l.offsets[i+1]];
      } else {
        assert data'[|data|..|data'|] == bytes;
      }
    }
  }

  lemma AppendKeepsRestarts(es: seq<KeyValue>, l: Layout, shared: nat, e: KeyValue, size: nat, restart: bool)
    requires RestartsOk(es, l) && l.offsets != []
    requires restart ==> shared == 0 && es != []
    requires es == [] ==> shared == 0
    ensures RestartsOk(es + [e], Extended(l, shared, size, restart))
  {
    var l' := Extended(l, shared, size, restart);
    var n := |l.restarts|;
    assert l'.restarts[..n] == l.restarts && |l'.restarts| <= n + 1 && (restart ==> l'.restarts[n] == |es| && n > 0);
    assert l'.shared[..|es|] == l.shared && l'.shared[|es|] == shared;
    forall k | 0 <= k < |l'.restarts| && l'.restarts[k] < |es| + 1
      ensures l'.shared[l'.restarts[k]] == 0
    {
    }
    forall k, m | 0 <= k < m < |l'.restarts|
      ensures l'.restarts[k] < l'.restarts[m]
    {
    }
  }

  // Where the restart points begin.
  function RestartOffsets(l: Layout): seq<nat>
    requires forall k | 0 <= k < |l.restarts| :: l.restarts[k] < |l.offsets|
  {
    seq(|l.restarts|, k requires 0 <= k < |l.restarts| => l.offsets[l.restarts[k]])
  }

  ghost predicate OffsetsFit(l: Layout) {
    && |l.restarts| < LIMIT32
    && forall k | 0 <= k < |l.restarts| :: l.restarts[k] < |l.offsets| && l.offsets[l.restarts[k]] < LIMIT32
  }

  // A finished block.
  ghost predicate IsBlock(contents: seq<Byte>, data: seq<Byte>, es: seq<KeyValue>, l: Layout) {
    && BlockHolds(data, es, l) && RestartsOk(es, l) && OffsetsFit(l)
    && contents == data + FixedArray(RestartOffsets(l)) + Fixed32(|l.restarts|)
    && |contents| < LIMIT32
  }

  lemma LayoutFits(data: seq<Byte>, es: seq<KeyValue>, l: Layout)
    requires BlockHolds(data, es, l) && RestartsOk(es, l) && |data| < LIMIT32
    ensures forall k | 0 <= k < |l.restarts| :: l.restarts[k] < |l.offsets| && l.offsets[l.restarts[k]] < LIMIT32
  {
    forall k | 0 <= k < |l.restarts|
      ensures l.restarts[k] < |l.offsets| && l.offsets[l.restarts[k]] < LIMIT32
    {
      OffsetsAscend(data, es, l, l.restarts[k], |es|);
    }
  }

  // The longest common prefix has this length.
  ghost predicate SharesMost(before: seq<Byte>, key: seq<Byte>, shared: nat) {
    && Shares(before, key, shared)
    && (shared == |before| || shared == |key| || before[shared] != key[shared])
  }

  // Every `interval`-th entry is a restart point, and the others leave out all they share with
  // the key before.
  ghost predicate Packed(es: seq<KeyValue>, l: Layout, interval: nat) {
    && |l.shared| == |es| && l.restarts != []
    && (forall k | 0 < k < |l.restarts| :: l.restarts[k] == l.restarts[k-1] + interval)
    && (forall i | 0 <= i < |es| && i !in l.restarts :: SharesMost(KeyBefore(es, i), es[i].key, l.shared[i]))
  }

  lemma AppendKeepsPacked(es: seq<KeyValue>, l: Layout, shared: nat, e: KeyValue, size: nat, restart: bool, interval: nat)
    requires Packed(es, l, interval) && l.offsets != []
    requires if restart then l.restarts[|l.restarts|-1] + interval == |es| else SharesMost(KeyBefore(es, |es|), e.key, shared)
    ensures Packed(es + [e], Extended(l, shared, size, restart), interval)
  {
    hide SharesMost;
    var es', l' := es + [e], Extended(l, shared, size, restart);
    assert forall n | n in l.restarts :: n in l'.restarts;
    forall i | 0 <= i < |es'| && i !in l'.restarts
      ensures SharesMost(KeyBefore(es', i), es'[i].key, l'.shared[i])
    {
      assert restart ==> l'.restarts[|l.restarts|] == |es|;
      if i < |es| {
        assert KeyBefore(es', i) == KeyBefore(es, i) && es'[i] == es[i] && l'.shared[i] == l.shared[i];
      } else {
        assert KeyBefore(es', i) == KeyBefore(es, |es|);
      }
    }
  }

  // The offsets of the restart points.
  ghost predicate PointTo(restarts: seq<nat>, l: Layout) {
    && |restarts| == |l.restarts|
    && forall k | 0 <= k < |restarts| :: l.restarts[k] < |l.offsets| && restarts[k] == l.offsets[l.restarts[k]]
  }

  lemma LastRestart(l: Layout, shared: nat, size: nat, restart: bool)
    requires l.offsets != [] && l.restarts != []
    ensures var l' := Extended(l, shared, size, restart);
            && l'.restarts != [] && l'.offsets != []
            && l'.restarts[|l'.restarts|-1] == if restart then |l.shared| else l.restarts[|l.restarts|-1]
  {
  }

  lemma AppendKeepsPoints(restarts: seq<nat>, l: Layout, shared: nat, size: nat, restart: bool)
    requires PointTo(restarts, l) && |l.offsets| == |l.shared| + 1
    ensures var end := l.offsets[|l.offsets|-1];
            PointTo(if restart then restarts + [end] else restarts, Extended(l, shared, size, restart))
  {
  }

  class BlockBuilder {
    const restartInterval: nat
    var buffer: seq<Byte>
    var restarts: seq<nat>     // offsets
    var counter: nat
    var finished: bool
    var lastKey: seq<Byte>
    ghost var es: seq<KeyValue>
    ghost var layout: Layout

    ghost predicate Valid()
      reads this
    {
      && restartInterval >= 1 && !finished && |buffer| < LIMIT32
      && BlockHolds(buffer, es, layout) && RestartsOk(es, layout)
      && lastKey == KeyBefore(es, |es|)
      && PointTo(restarts, layout)
      && Packed(es, layout, restartInterval)
      && layout.restarts[|layout.restarts|-1] + counter == |es| && counter <= restartInterval
    }

    constructor (restartInterval: nat)
      requires restartInterval >= 1
      ensures Valid() && es == [] && CurrentSizeEstimate() == 8 && this.restartInterval == restartInterval
    {
      this.restartInterval := restartInterval;
      buffer, restarts, counter, finished, lastKey := [], [0], 0, false, [];
      es, layout := [], Layout([0], [], [0]);
    }

    // The size of the block, if it were finished now.
    function CurrentSizeEstimate(): nat
      reads this`buffer, this`restarts
    {
      |buffer| + 4 * |restarts| + 4
    }

    lemma BufferFits()
      ensures |buffer| + 4 <= CurrentSizeEstimate()
    {
    }

    predicate IsEmpty()
      reads this`buffer
    {
      buffer == []
    }

    lemma EmptyMeansNoEntries()
      requires Valid()
      ensures (IsEmpty() <==> es == []) && CurrentSizeEstimate() >= 8
    {
      hide EntryBytes;
      OffsetsAscend(buffer, es, layout, 0, |es|);
    }

    method Reset()
      requires restartInterval >= 1
      modifies this
      ensures Valid() && es == [] && CurrentSizeEstimate() == 8
    {
      buffer, restarts, counter, finished, lastKey := [], [0], 0, false, [];
      es, layout := [], Layout([0], [], [0]);
    }

    lemma BuilderShape()
      requires Valid()
      ensures layout.restarts != [] && layout.restarts[|layout.restarts|-1] + counter == |es|
      ensures es == [] ==> counter == 0
    {
    }

    // How many leading bytes the key has in common with the one before.
    method CountShared(key: seq<Byte>) returns (shared: nat)
      ensures SharesMost(lastKey, key, shared)
    {
      shared := 0;
      var minLength := if |lastKey| < |key| then |lastKey| else |key|;
      while shared < minLength && lastKey[shared] == key[shared]
        invariant shared <= minLength && lastKey[..shared] == key[..shared]
      {
        shared := shared + 1;
      }
    }

    // A restart point, if it is time for one; otherwise what the key shares with the one before.
    method StartEntry(key: seq<Byte>) returns (shared: nat, ghost restart: bool)
      modifies this`restarts, this`counter
      ensures restart <==> old(counter) >= restartInterval
      ensures restarts == (if restart then old(restarts) + [|buffer|] else old(restarts)) && counter == if restart then 0 else old(counter)
      ensures if restart then shared == 0 else SharesMost(lastKey, key, shared)
      ensures Shares(lastKey, key, shared)
    {
      hide Shares;
      shared, restart := 0, counter >= restartInterval;
      NothingShared(lastKey, key);
      if counter < restartInterval {
        shared := CountShared(key);
      } else {
        restarts := restarts + [|buffer|];
        counter := 0;
      }
    }

    method Add(key: seq<Byte>, value: seq<Byte>)
      requires Valid() && |buffer| + |key| + |value| + 15 < LIMIT32
      modifies this
      ensures Valid() && es == old(es) + [KeyValue(key, value)]
      ensures CurrentSizeEstimate() <= old(CurrentSizeEstimate()) + |key| + |value| + 19
    {
      hide BlockHolds, RestartsOk, Packed, PointTo, Varint, Shares, SharesMost, EntryBytes, Extended;
      ghost var e := KeyValue(key, value);
      BuilderShape();
      var shared, restart := StartEntry(key);
      SharedFits(lastKey, key, shared, e);
      HoldsShape(buffer, es, layout);
      var code := PutVarint32(buffer, shared);
      code := PutVarint32(code, |key| - shared);
      code := PutVarint32(code, |value|);
      code := code + key[shared..];
      code := code + value;
      EntryIs(buffer, shared, e, code);
      ghost var size := |EntryBytes(shared, e)|;
      AppendKeepsHolds(buffer, es, layout, shared, e, restart);
      AppendKeepsRestarts(es, layout, shared, e, size, restart);
      AppendKeepsPoints(old(restarts), layout, shared, size, restart);
      AppendKeepsPacked(es, layout, shared, e, size, restart, restartInterval);
      LastRestart(layout, shared, size, restart);
      layout := Extended(layout, shared, size, restart);
      es := es + [e];
      buffer, counter := code, counter + 1;
      lastKey := lastKey[..shared] + key[shared..];
    }

    method Finish() returns (contents: seq<Byte>)
      requires Valid() && CurrentSizeEstimate() < LIMIT32
      modifies this`finished
      ensures finished && IsBlock(contents, buffer, es, layout) && Packed(es, layout, restartInterval)
      ensures |contents| == old(CurrentSizeEstimate())
    {
      hide BlockHolds, RestartsOk, Packed, PointTo, Fixed32;
      LayoutFits(buffer, es, layout);
      PointsAreOffsets(restarts, layout);
      contents := buffer;
      for i := 0 to |restarts|
        invariant contents == buffer + FixedArray(restarts[..i]) && |contents| == |buffer| + 4 * i
      {
        FixedIsFour(restarts[i]);
        assert restarts[..i+1][..i] == restarts[..i];
        contents := contents + Fixed32(restarts[i]);
      }
      assert restarts[..|restarts|] == restarts;
      FixedIsFour(|restarts|);
      contents := contents + Fixed32(|restarts|);
      finished := true;
    }
  }

  lemma NothingShared(before: seq<Byte>, key: seq<Byte>)
    ensures Shares(before, key, 0)
  {
  }

  lemma PointsAreOffsets(restarts: seq<nat>, l: Layout)
    requires PointTo(restarts, l)
    ensures |restarts| == |l.restarts| && forall k | 0 <= k < |l.restarts| :: l.restarts[k] < |l.offsets|
    ensures restarts == RestartOffsets(l)
  {
  }

  lemma MostIsShared(before: seq<Byte>, key: seq<Byte>, shared: nat)
    requires SharesMost(before, key, shared)
    ensures Shares(before, key, shared)
  {
  }

  lemma SharedFits(before: seq<Byte>, key: seq<Byte>, shared: nat, e: KeyValue)
    requires Shares(before, key, shared) && e.key == key
    requires |key| < LIMIT32 && |e.value| < LIMIT32
    ensures shared <= |key| && shared <= |before| && before[..shared] + key[shared..] == key
    ensures 3 <= |EntryBytes(shared, e)| <= 15 + |key| + |e.value|
    ensures before == [] ==> shared == 0
  {
    VarintLength(shared);
    VarintLength(|key| - shared);
    VarintLength(|e.value|);
    hide Varint;
  }

  lemma HoldsShape(data: seq<Byte>, es: seq<KeyValue>, l: Layout)
    requires BlockHolds(data, es, l)
    ensures |l.offsets| == |es| + 1 == |l.shared| + 1 && l.offsets[|es|] == |data|
  {
  }

  lemma EntryIs(buffer: seq<Byte>, shared: nat, e: KeyValue, code: seq<Byte>)
    requires shared <= |e.key|
    requires code == buffer + Varint(shared) + Varint(|e.key| - shared) + Varint(|e.value|) + e.key[shared..] + e.value
    ensures code == buffer + EntryBytes(shared, e)
  {
    hide Varint;
  }
}
