// Reading a block: a cursor that moves both ways over entries whose keys are stored as
// differences, and a search by restart points.

module BlockIterators {
  import opened Bytes
  import opened Coding
  import opened Blocks
  import opened KeyOrders

  // ---- The restart array

  lemma RestartInBlock(contents: seq<Byte>, data: seq<Byte>, es: seq<KeyValue>, l: Layout, k: nat)
    requires IsBlock(contents, data, es, l) && k < |l.restarts|
    ensures |data| + 4 * k + 4 <= |contents|
    ensures FixedValue(contents[|data|+4*k..|data|+4*k+4]) == l.offsets[l.restarts[k]]
  {
    hide BlockHolds, RestartsOk, Fixed32, FixedValue;
    var points := FixedArray(RestartOffsets(l));
    FixedArrayAt(RestartOffsets(l), k);
    assert contents[|data|+4*k..|data|+4*k+4] == points[4*k..4*k+4];
  }

  lemma CountInBlock(contents: seq<Byte>, data: seq<Byte>, es: seq<KeyValue>, l: Layout)
    requires IsBlock(contents, data, es, l)
    ensures |contents| == |data| + 4 * |l.restarts| + 4 && l.restarts != []
    ensures FixedValue(contents[|contents|-4..]) == |l.restarts|
  {
    FixedIsFour(|l.restarts|);
    FixedRoundTrip(|l.restarts|);
    hide BlockHolds, Fixed32, FixedValue;
    FixedArrayLength(RestartOffsets(l));
    assert contents[|contents|-4..] == Fixed32(|l.restarts|);
  }

  // Where the restart array begins and how long it is, if the size can be right.
  method OpenBlock(contents: seq<Byte>, ghost data: seq<Byte>, ghost es: seq<KeyValue>, ghost l: Layout)
    returns (ok: bool, restartOffset: nat, numRestarts: nat)
    ensures ok <==> |contents| >= 4 && 4 + 4 * FixedValue(contents[|contents|-4..]) <= |contents|
    ensures ok ==> numRestarts == FixedValue(contents[|contents|-4..]) && |contents| == restartOffset + 4 * numRestarts + 4
    ensures IsBlock(contents, data, es, l) ==> ok && restartOffset == |data| && numRestarts == |l.restarts|
  {
    hide IsBlock, FixedValue;
    if IsBlock(contents, data, es, l) {
      CountInBlock(contents, data, es, l);
    }
    if |contents| < 4 {
      return false, 0, 0;
    }
    numRestarts := FixedValue(contents[|contents|-4..]);
    var maxRestartsAllowed := (|contents| - 4) / 4;
    if numRestarts > maxRestartsAllowed {
      return false, 0, 0;
    }
    return true, |contents| - (1 + numRestarts) * 4, numRestarts;
  }

  // ---- One entry

  // Three lengths stand at `p`, and the last one ends at `next`.
  ghost predicate ReadsLengths(data: seq<Byte>, p: nat, limit: nat, s: nat, n: nat, v: nat, next: nat) {
    exists a, b :: Reads32(data, p, limit, s, a) && Reads32(data, a, limit, n, b) && Reads32(data, b, limit, v, next)
  }

  lemma ReadsLengthsOnce(data: seq<Byte>, p: nat, limit: nat, s: nat, n: nat, v: nat, next: nat)
    requires ReadsLengths(data, p, limit, s, n, v, next)
    ensures forall x: nat, y: nat, z: nat, e: nat | ReadsLengths(data, p, limit, x, y, z, e) :: x == s && y == n && z == v && e == next
    ensures p + 3 <= next <= limit <= |data|
  {
    hide EndsVarint, VarintValue;
    var a: nat, b: nat :| Reads32(data, p, limit, s, a) && Reads32(data, a, limit, n, b) && Reads32(data, b, limit, v, next);
    hide Reads32;
    ReadsOnce(data, p, limit);
    ReadsOnce(data, a, limit);
    ReadsOnce(data, b, limit);
    assert p < a < b < next <= limit <= |data| by {
      LaterEnd(data, p, limit, s, a);
      LaterEnd(data, a, limit, n, b);
      LaterEnd(data, b, limit, v, next);
    }
  }

  lemma LaterEnd(data: seq<Byte>, p: nat, limit: nat, v: nat, next: nat)
    requires Reads32(data, p, limit, v, next)
    ensures p < next <= limit <= |data|
  {
  }

  lemma LengthsAreRead(data: seq<Byte>, p: nat, limit: nat, s: nat, n: nat, v: nat)
    requires s < LIMIT32 && n < LIMIT32 && v < LIMIT32 && IsAt(data, p, limit, Varint(s) + Varint(n) + Varint(v))
    ensures ReadsLengths(data, p, limit, s, n, v, p + |Varint(s) + Varint(n) + Varint(v)|)
  {
    hide Varint, IsAt, Reads32;
    PartsAt(data, p, limit, Varint(s) + Varint(n), Varint(v));
    PartsAt(data, p, limit, Varint(s), Varint(n));
    WrittenIsRead(data, p, limit, s);
    WrittenIsRead(data, p + |Varint(s)|, limit, n);
    WrittenIsRead(data, p + |Varint(s)| + |Varint(n)|, limit, v);
  }

  // The three lengths at `p`, if they are there and as many bytes follow as the last two count.
  method DecodeEntry(data: seq<Byte>, p: nat, limit: nat)
    returns (ok: bool, shared: nat, nonShared: nat, valueLength: nat, next: nat)
    requires limit <= |data|
    ensures if ok then ReadsLengths(data, p, limit, shared, nonShared, valueLength, next) && p < next && next + nonShared + valueLength <= limit
            else forall s: nat, n: nat, v: nat, e: nat | ReadsLengths(data, p, limit, s, n, v, e) :: limit < e + n + v
  {
    ok, shared, nonShared, valueLength, next := ReadThree(data, p, limit);
    if ok {
      ReadsLengthsOnce(data, p, limit, shared, nonShared, valueLength, next);
      ok := limit - next >= nonShared + valueLength;
    }
  }

  // Lengths of one byte each are read at once.
  method ReadThree(data: seq<Byte>, p: nat, limit: nat) returns (ok: bool, shared: nat, nonShared: nat, valueLength: nat, next: nat)
    requires limit <= |data|
    ensures if ok then ReadsLengths(data, p, limit, shared, nonShared, valueLength, next)
            else forall s: nat, n: nat, v: nat, e: nat :: !ReadsLengths(data, p, limit, s, n, v, e)
  {
    hide Reads32, NumberOf;
    ok, shared, nonShared, valueLength, next := false, 0, 0, 0, p;
    if limit < p + 3 {
      forall s: nat, n: nat, v: nat, e: nat
        ensures !ReadsLengths(data, p, limit, s, n, v, e)
      {
        if ReadsLengths(data, p, limit, s, n, v, e) {
          ReadsLengthsOnce(data, p, limit, s, n, v, e);
        }
      }
      return;
    }
    shared, nonShared, valueLength := NumberOf(data[p]), NumberOf(data[p+1]), NumberOf(data[p+2]);
    if shared < 128 && nonShared < 128 && valueLength < 128 {
      OneByteReads(data, p, limit);
      OneByteReads(data, p + 1, limit);
      OneByteReads(data, p + 2, limit);
      return true, shared, nonShared, valueLength, p + 3;
    }
    ReadsOnce(data, p, limit);
    ok, shared, next := GetVarint32Ptr(data, p, limit, 0);
    if !ok {
      return;
    }
    ReadsOnce(data, next, limit);
    ok, nonShared, next := GetVarint32Ptr(data, next, limit, 0);
    if !ok {
      return;
    }
    ok, valueLength, next := GetVarint32Ptr(data, next, limit, 0);
  }

  // ---- The cursor

  // The start of entry `i` and what its key takes from `key` are at hand.
  ghost predicate ReadyFor(es: seq<KeyValue>, l: Layout, i: nat, key: seq<Byte>, offset: nat) {
    && i <= |es| && |l.offsets| == |es| + 1 && |l.shared| == |es| && offset == l.offsets[i]
    && (i < |es| ==> Shares(key, es[i].key, l.shared[i]))
  }

  lemma AfterEntry(data: seq<Byte>, es: seq<KeyValue>, l: Layout, i: nat)
    requires BlockHolds(data, es, l) && i < |es|
    ensures ReadyFor(es, l, i + 1, es[i].key, l.offsets[i+1])
    ensures l.offsets[i] < l.offsets[i+1] <= |data| && (i + 1 < |es| ==> l.offsets[i+1] < |data|)
  {
    hide EntryBytes;
    assert EntryOk(data, es, l, i);
    if i + 1 < |es| {
      assert EntryOk(data, es, l, i + 1);
      OffsetsAscend(data, es, l, i + 2, |es|);
    }
  }

  lemma AtRestart(data: seq<Byte>, es: seq<KeyValue>, l: Layout, k: nat)
    requires BlockHolds(data, es, l) && RestartsOk(es, l) && k < |l.restarts|
    ensures l.restarts[k] <= |es| && ReadyFor(es, l, l.restarts[k], [], l.offsets[l.restarts[k]])
    ensures l.offsets[l.restarts[k]] <= |data|
  {
    OffsetsAscend(data, es, l, l.restarts[k], |es|);
  }

  // What is stored at the start of entry `i`.
  lemma EntryStored(data: seq<Byte>, es: seq<KeyValue>, l: Layout, i: nat, key: seq<Byte>, offset: nat)
    requires BlockHolds(data, es, l) && ReadyFor(es, l, i, key, offset)
    ensures offset <= |data| && (i == |es| <==> offset == |data|)
    ensures i < |es| ==>
              var s, e := l.shared[i], es[i];
              var lengths := Varint(s) + Varint(|e.key| - s) + Varint(|e.value|);
              && s <= |key| && s <= |e.key| < LIMIT32 && |e.value| < LIMIT32
              && IsAt(data, offset, |data|, lengths)
              && offset + |lengths| + (|e.key| - s) + |e.value| == l.offsets[i+1] <= |data|
              && key[..s] + data[offset+|lengths|..offset+|lengths|+|e.key|-s] == e.key
              && data[offset+|lengths|+|e.key|-s..l.offsets[i+1]] == e.value
  {
    OffsetsAscend(data, es, l, i, |es|);
    if i < |es| {
      assert EntryOk(data, es, l, i);
      var s, e := l.shared[i], es[i];
      StoredParts(data, offset, l.offsets[i+1], s, e, Varint(s) + Varint(|e.key| - s) + Varint(|e.value|));
    }
  }

  lemma StoredParts(data: seq<Byte>, offset: nat, end: nat, s: nat, e: KeyValue, lengths: seq<Byte>)
    requires offset <= end <= |data| && s <= |e.key|
    requires lengths == Varint(s) + Varint(|e.key| - s) + Varint(|e.value|)
    requires data[offset..end] == EntryBytes(s, e)
    ensures IsAt(data, offset, |data|, lengths) && offset + |lengths| + (|e.key| - s) + |e.value| == end
    ensures data[offset+|lengths|..offset+|lengths|+|e.key|-s] == e.key[s..]
    ensures data[offset+|lengths|+|e.key|-s..end] == e.value
  {
    hide Varint;
    var rest := e.key[s..];
    assert data[offset..end] == lengths + (rest + e.value);
    WholeAt(data, offset, end, lengths + (rest + e.value));
    PartsAt(data, offset, |data|, lengths, rest + e.value);
    PartsAt(data, offset + |lengths|, |data|, rest, e.value);
  }

  lemma WholeAt(data: seq<Byte>, p: nat, end: nat, code: seq<Byte>)
    requires p <= end <= |data| && data[p..end] == code
    ensures IsAt(data, p, |data|, code) && end == p + |code|
  {
  }

  class BlockIterator {
    const data: seq<Byte>          // the whole block
    const restarts: nat            // where its restart array begins
    const numRestarts: nat
    const less: Order
    var current: nat               // offset of the current entry; `restarts` if there is none
    var restartIndex: nat
    var key: seq<Byte>
    var valueOffset: nat
    var valueSize: nat
    var corrupt: bool
    ghost const es: seq<KeyValue>
    ghost const layout: Layout

    // Any bytes in which a restart array fits.
    ghost predicate IsSized() {
      |data| == restarts + 4 * numRestarts + 4 && |data| < LIMIT32 && numRestarts > 0
    }

    ghost predicate Valid()
      reads this
    {
      && IsSized()
      && current <= restarts && (current < restarts ==> restartIndex < numRestarts && current < NextEntryOffset() <= restarts)
    }

    // The bytes are those of a block of these entries.
    ghost predicate IsGood() {
      restarts <= |data| && IsBlock(data, data[..restarts], es, layout) && numRestarts == |layout.restarts| && KeysAscend(es, less)
    }

    predicate IsValid()
      reads this
    {
      current < restarts
    }

    function NextEntryOffset(): nat
      reads this
    {
      valueOffset + valueSize
    }

    function Value(): seq<Byte>
      requires Valid() && IsValid()
      reads this
    {
      data[valueOffset..NextEntryOffset()]
    }

    // The cursor is at entry `i`, or behind the last one.
    ghost predicate IsAtEntry(i: nat)
      reads this
    {
      && IsGood() && i <= |es| && |layout.offsets| == |es| + 1 && current == layout.offsets[i] && !corrupt
      && (i < |es| ==>
            && current < restarts && key == es[i].key
            && NextEntryOffset() == layout.offsets[i+1] <= restarts && data[valueOffset..NextEntryOffset()] == es[i].value
            && restartIndex < numRestarts)
    }

    ghost predicate IsReady(i: nat)
      reads this
    {
      IsGood() && ReadyFor(es, layout, i, key, NextEntryOffset()) && !corrupt && restartIndex < numRestarts
    }

    constructor (data: seq<Byte>, restarts: nat, numRestarts: nat, less: Order, ghost es: seq<KeyValue>, ghost layout: Layout)
      requires |data| == restarts + 4 * numRestarts + 4 && |data| < LIMIT32 && numRestarts > 0
      ensures Valid() && !IsValid() && !corrupt
      ensures this.data == data && this.restarts == restarts && this.numRestarts == numRestarts && this.less == less
      ensures this.es == es && this.layout == layout
    {
      this.data, this.restarts, this.numRestarts, this.less := data, restarts, numRestarts, less;
      this.es, this.layout := es, layout;
      current, restartIndex, key, valueOffset, valueSize, corrupt := restarts, numRestarts, [], 0, 0, false;
    }

    function GetRestartPoint(index: nat): nat
      requires IsSized() && index < numRestarts
    {
      FixedValue(data[restarts+4*index..restarts+4*index+4])
    }

    lemma RestartPointIs(k: nat)
      requires IsSized() && IsGood() && k < numRestarts
      ensures GetRestartPoint(k) == layout.offsets[layout.restarts[k]]
      ensures layout.restarts[k] <= |es| && ReadyFor(es, layout, layout.restarts[k], [], GetRestartPoint(k))
    {
      hide BlockHolds, RestartsOk;
      RestartInBlock(data, data[..restarts], es, layout, k);
      AtRestart(data[..restarts], es, layout, k);
    }

    method SeekToRestartPoint(index: nat)
      requires IsSized() && index < numRestarts
      modifies this`key, this`restartIndex, this`valueOffset, this`valueSize
      ensures restartIndex == index && NextEntryOffset() == GetRestartPoint(index)
      ensures IsGood() && !corrupt ==> IsReady(layout.restarts[index])
    {
      if IsGood() {
        RestartPointIs(index);
      }
      key, restartIndex := [], index;
      valueOffset, valueSize := GetRestartPoint(index), 0;
    }

    method CorruptionError()
      requires IsSized()
      modifies this`current, this`restartIndex, this`corrupt, this`key, this`valueOffset, this`valueSize
      ensures Valid() && corrupt && !IsValid()
    {
      current, restartIndex, corrupt, key, valueOffset, valueSize := restarts, numRestarts, true, [], 0, 0;
    }
  
    // What parsing finds where entry `i` is expected.
    lemma NextIs(i: nat)
      requires IsSized() && IsReady(i)
      ensures IsGood() && !corrupt && restartIndex < numRestarts
      ensures NextEntryOffset() <= restarts && (i == |es| <==> NextEntryOffset() == restarts) && i <= |es|
      ensures |layout.offsets| == |es| + 1 && |layout.shared| == |es| && layout.offsets[i] == NextEntryOffset()
      ensures i < |es| ==>
                var s, e, p := layout.shared[i], es[i], NextEntryOffset();
                var lengths := Varint(s) + Varint(|e.key| - s) + Varint(|e.value|);
                && s <= |key| && s <= |e.key| < LIMIT32 && |e.value| < LIMIT32
                && IsAt(data, p, restarts, lengths)
                && p + |lengths| + (|e.key| - s) + |e.value| == layout.offsets[i+1] <= restarts
                && key[..s] + data[p+|lengths|..p+|lengths|+|e.key|-s] == e.key
                && data[p+|lengths|+|e.key|-s..layout.offsets[i+1]] == e.value
    {
      hide EntryBytes, ReadyFor, RestartsOk, KeysAscend, Varint;
      ReadyShape(es, layout, i, key, NextEntryOffset());
      var block := data[..restarts];
      EntryStored(block, es, layout, i, key, NextEntryOffset());
      if i < |es| {
        var s, e, p := layout.shared[i], es[i], NextEntryOffset();
        InPrefix(data, restarts, p, Varint(s) + Varint(|e.key| - s) + Varint(|e.value|));
      }
    }

    // An entry stands at `p`: the key is made from the one before, and the value follows.
    ghost predicate ParsesTo(before: seq<Byte>, p: nat, key: seq<Byte>, offset: nat, size: nat)
      requires IsSized()
    {
      exists s: nat, n: nat, v: nat, e: nat ::
        && ReadsLengths(data, p, restarts, s, n, v, e) && e + n + v <= restarts
        && s <= |before| && key == before[..s] + data[e..e+n] && offset == e + n && size == v
    }

    lemma ParsesOnce(before: seq<Byte>, p: nat, s: nat, n: nat, v: nat, e: nat)
      requires IsSized() && ReadsLengths(data, p, restarts, s, n, v, e)
      ensures s <= |before| && e + n + v <= restarts ==> ParsesTo(before, p, before[..s] + data[e..e+n], e + n, v)
      ensures |before| < s ==> forall k, o: nat, z: nat :: !ParsesTo(before, p, k, o, z)
    {
      ReadsLengthsOnce(data, p, restarts, s, n, v, e);
      hide ReadsLengths;
    }

    lemma ParsesNothing(before: seq<Byte>, p: nat)
      requires IsSized() && forall s: nat, n: nat, v: nat, e: nat | ReadsLengths(data, p, restarts, s, n, v, e) :: restarts < e + n + v
      ensures forall k, o: nat, z: nat :: !ParsesTo(before, p, k, o, z)
    {
      hide ReadsLengths;
    }

    // What DecodeEntry reads where entry `i` is.
    lemma ReadsIt(i: nat, ok: bool, shared: nat, nonShared: nat, valueLength: nat, next: nat)
      requires IsSized() && IsReady(i) && NextEntryOffset() < restarts
      requires if ok then ReadsLengths(data, NextEntryOffset(), restarts, shared, nonShared, valueLength, next)
               else forall s: nat, n: nat, v: nat, e: nat | ReadsLengths(data, NextEntryOffset(), restarts, s, n, v, e) :: restarts < e + n + v
      ensures i < |es| && i < |layout.shared| && ok && shared == layout.shared[i] <= |es[i].key|
      ensures nonShared == |es[i].key| - shared && valueLength == |es[i].value|
      ensures next == NextEntryOffset() + |Varint(shared) + Varint(nonShared) + Varint(valueLength)|
    {
      hide IsReady, IsGood, ReadsLengths, Varint, IsAt;
      NextIs(i);
      var s, n, v := layout.shared[i], |es[i].key| - layout.shared[i], |es[i].value|;
      LengthsAreRead(data, NextEntryOffset(), restarts, s, n, v);
      if ok {
        ReadsLengthsOnce(data, NextEntryOffset(), restarts, shared, nonShared, valueLength, next);
      }
    }

    // The next entry, if there is one.
    method ParseNextKey(ghost i: nat) returns (more: bool)
      requires IsSized() && restartIndex < numRestarts
      modifies this
      ensures Valid() && more == IsValid()
      ensures more ==> restartIndex < numRestarts && current == old(NextEntryOffset()) && current < NextEntryOffset()
      ensures old(NextEntryOffset()) < restarts ==>
                if more then ParsesTo(old(key), old(NextEntryOffset()), key, valueOffset, valueSize) && corrupt == old(corrupt)
                else corrupt && forall k, o: nat, z: nat :: !ParsesTo(old(key), old(NextEntryOffset()), k, o, z)
      ensures restarts <= old(NextEntryOffset()) ==> !more && corrupt == old(corrupt)
      ensures old(IsReady(i)) ==> i <= |es| && more == (i < |es|) && IsAtEntry(i)
    {
      hide IsReady, IsGood, EntryBytes, BlockHolds, RestartsOk, KeysAscend, Varint, IsAt, FixedValue, IsBlock, ParsesTo, ReadsLengths;
      ghost var expected := IsReady(i);
      if expected {
        NextIs(i);
      }
      var p := NextEntryOffset();
      if p >= restarts {
        current, restartIndex := restarts, numRestarts;
        return false;
      }
      var ok, shared, nonShared, valueLength, next := DecodeEntry(data, p, restarts);
      if expected {
        ReadsIt(i, ok, shared, nonShared, valueLength, next);
      }
      if ok {
        ParsesOnce(key, p, shared, nonShared, valueLength, next);
      } else {
        ParsesNothing(key, p);
      }
      if !ok || |key| < shared {
        CorruptionError();
        return false;
      }
      current := p;
      key := key[..shared] + data[next..next+nonShared];
      valueOffset, valueSize := next + nonShared, valueLength;
      while restartIndex + 1 < numRestarts && GetRestartPoint(restartIndex + 1) < current
        invariant restartIndex < numRestarts || restartIndex == old(restartIndex)
        decreases numRestarts - restartIndex
        modifies this`restartIndex
      {
        restartIndex := restartIndex + 1;
      }
      return true;
    }
  
    // From entry `i` the next one is at hand.
    lemma NextIsReady(i: nat)
      requires Valid() && IsAtEntry(i) && IsValid()
      ensures IsReady(i + 1) && i < |es|
    {
      hide KeysAscend;
      EndIsRestarts();
      AfterEntry(data[..restarts], es, layout, i);
    }

    lemma EndIsRestarts()
      requires IsGood()
      ensures |layout.offsets| == |es| + 1 && |layout.shared| == |es| && layout.offsets[|es|] == restarts && layout.offsets[0] == 0
      ensures |layout.restarts| == numRestarts && layout.restarts != [] && layout.restarts[0] == 0
    {
    }

    method Next(ghost i: nat)
      requires Valid() && IsValid()
      modifies this
      ensures Valid()
      ensures IsValid() ==> old(current) < current
      ensures old(IsAtEntry(i)) ==> IsAtEntry(i + 1)
    {
      hide IsReady, IsGood;
      if IsAtEntry(i) {
        NextIsReady(i);
      }
      var _ := ParseNextKey(i + 1);
    }

    method SeekToFirst()
      requires Valid()
      modifies this
      ensures Valid()
      ensures old(IsGood() && !corrupt) ==> IsAtEntry(0)
    {
      hide IsReady, IsGood;
      if IsGood() {
        EndIsRestarts();
      }
      SeekToRestartPoint(0);
      var _ := ParseNextKey(0);
    }

    // Parses on until the end of an entry reaches `limit`. Expected, if anything: from entry `i`
    // on, to the entry that ends there.
    method ParseUntil(limit: nat, ghost i: nat, ghost last: nat)
      requires IsSized() && limit <= restarts && restartIndex < numRestarts
      modifies this
      ensures Valid()
      ensures old(IsReady(i)) && EndsAt(i, last, limit) ==> IsAtEntry(last)
      ensures old(IsReady(i)) && i == |es| ==> IsAtEntry(i)
      ensures IsValid() && old(NextEntryOffset()) < limit ==> current < limit
    {
      hide IsReady, IsGood, IsAtEntry, IsBlock, ParsesTo;
      ghost var expected := IsReady(i) && EndsAt(i, last, limit);
      ghost var atEnd := IsReady(i) && i == |es|;
      ghost var at: nat := i;
      var more := ParseNextKey(i);
      while more && NextEntryOffset() < limit
        invariant Valid() && more == IsValid()
        invariant expected ==> i <= at <= last && more && IsAtEntry(at)
        invariant atEnd ==> !more && IsAtEntry(i)
        invariant more && old(NextEntryOffset()) < limit ==> current < limit
        decreases if more then 1 + restarts - NextEntryOffset() else 0
      {
        if expected {
          NextIsReady(at);
          EndsBefore(at, last);
        }
        at := at + 1;
        more := ParseNextKey(at);
      }
      if expected {
        EndsBefore(at, last);
      }
    }

    ghost predicate EndsAt(i: nat, last: nat, limit: nat) {
      i <= last < |es| && |layout.offsets| == |es| + 1 && layout.offsets[last+1] == limit
    }

    // Entry `at` ends before entry `last` does, unless they are the same.
    lemma EndsBefore(at: nat, last: nat)
      requires Valid() && IsAtEntry(at) && at <= last < |es|
      ensures |layout.offsets| == |es| + 1 && NextEntryOffset() == layout.offsets[at+1]
      ensures at < last <==> layout.offsets[at+1] < layout.offsets[last+1]
      ensures at == last ==> layout.offsets[at+1] == layout.offsets[last+1]
    {
      hide RestartsOk, KeysAscend, EntryOk;
      OffsetsAscend(data[..restarts], es, layout, at + 1, last + 1);
    }

    // Which entries the restart points are.
    lemma RestartsBelow(k: nat)
      requires IsGood() && k < numRestarts
      ensures k < |layout.restarts| && layout.restarts[k] <= |es| && (es != [] || k > 0 ==> layout.restarts[k] < |es|)
    {
      hide BlockHolds, KeysAscend;
    }

    method SeekToLast()
      requires Valid()
      modifies this
      ensures Valid()
      ensures old(IsGood() && !corrupt) ==> IsAtEntry(if es == [] then 0 else |es| - 1)
    {
      hide IsReady, IsGood, IsAtEntry, IsBlock;
      ghost var from := 0;
      if IsGood() {
        EndIsRestarts();
        RestartsBelow(numRestarts - 1);
        from := layout.restarts[numRestarts-1];
      }
      SeekToRestartPoint(numRestarts - 1);
      ParseUntil(restarts, from, if es == [] then 0 else |es| - 1);
    }

    // From entry `i` to the one before it, or to no entry.
    method Prev(ghost i: nat)
      requires Valid() && IsValid()
      modifies this
      ensures Valid()
      ensures IsValid() ==> current < old(current)
      ensures old(IsAtEntry(i)) ==> IsAtEntry(if i == 0 then |es| else i - 1)
    {
      hide IsReady, IsGood, IsAtEntry, IsBlock;
      ghost var expected := IsAtEntry(i);
      var original := current;
      if expected {
        ShapeAt(i);
      }
      while GetRestartPoint(restartIndex) >= original
        invariant Valid() && restartIndex < numRestarts
        invariant current == original
        invariant expected ==> IsGood() && !corrupt && PlacedAt(i, original)
        decreases restartIndex
        modifies this
      {
        if restartIndex == 0 {
          if expected {
            FirstRestart(i, original);
          }
          current, restartIndex := restarts, numRestarts;
          if expected {
            AtEnd();
          }
          return;
        }
        restartIndex := restartIndex - 1;
      }
      ghost var from := 0;
      if expected {
        EarlierRestart(restartIndex, i, original);
        from := layout.restarts[restartIndex];
      }
      SeekToRestartPoint(restartIndex);
      ParseUntil(original, from, if i == 0 then 0 else i - 1);
    }

    lemma AtEnd()
      requires IsGood() && !corrupt && current == restarts
      ensures IsAtEntry(|es|)
    {
      EndIsRestarts();
    }

    // No restart point is before the first entry.
    lemma FirstRestart(i: nat, offset: nat)
      requires IsSized() && IsGood() && PlacedAt(i, offset) && GetRestartPoint(0) >= offset
      ensures i == 0
    {
      hide RestartsOk, KeysAscend;
      EndIsRestarts();
      RestartPointIs(0);
      OffsetsAscend(data[..restarts], es, layout, 0, i);
    }

    // A restart point with a smaller offset is an earlier entry.
    lemma EarlierRestart(k: nat, i: nat, offset: nat)
      requires IsSized() && IsGood() && PlacedAt(i, offset) && k < numRestarts && GetRestartPoint(k) < offset
      ensures k < |layout.restarts| && i > 0 && EndsAt(layout.restarts[k], i - 1, offset)
    {
      hide RestartsOk, KeysAscend;
      RestartPointIs(k);
      if layout.restarts[k] >= i {
        OffsetsAscend(data[..restarts], es, layout, i, layout.restarts[k]);
      }
    }

    // The key at a restart point.
    method RestartKey(k: nat) returns (ok: bool, midKey: seq<Byte>)
      requires Valid() && 0 < k < numRestarts
      ensures IsGood() ==> ok && k < |layout.restarts| && layout.restarts[k] < |es| && midKey == es[layout.restarts[k]].key
    {
      hide IsGood, IsBlock, IsAt, Varint, FixedValue, KeysAscend, ReadsLengths;
      var regionOffset := GetRestartPoint(k);
      var decoded, shared, nonShared, valueLength, next := DecodeEntry(data, regionOffset, restarts);
      if IsGood() {
        RestartEntry(k);
        ghost var n, v := |es[layout.restarts[k]].key|, |es[layout.restarts[k]].value|;
        LengthsAreRead(data, regionOffset, restarts, 0, n, v);
        if decoded {
          ReadsLengthsOnce(data, regionOffset, restarts, shared, nonShared, valueLength, next);
        }
      }
      if !decoded || shared != 0 {
        return false, [];
      }
      return true, data[next..next+nonShared];
    }

    // Binary search over the restart points, then a scan from the last whose key is too small.
    method Seek(target: seq<Byte>)
      requires Valid()
      modifies this
      ensures Valid()
      ensures old(IsGood() && !corrupt) ==> IsAtEntry(FirstAtLeast(es, less, target))
    {
      hide IsReady, IsGood, IsAtEntry, IsBlock, IsAt, Varint, FixedValue, KeysAscend, PlacedAt, ParsesTo;
      ghost var expected := IsGood() && !corrupt;
      ghost var first := FirstAtLeast(es, less, target);
      var left: nat, right: nat := 0, numRestarts - 1;
      if expected {
        EndIsRestarts();
      }
      while left < right
        invariant Valid() && left <= right < numRestarts
        invariant expected ==> IsGood() && !corrupt && left < |layout.restarts| && layout.restarts[left] <= first
      {
        var mid := (left + right + 1) / 2;
        var ok, midKey := RestartKey(mid);
        if !ok {
          CorruptionError();
          return;
        }
        if less(midKey, target) {
          if expected {
            RestartEntry(mid);
            BeforeFirst(es, less, target, layout.restarts[mid]);
          }
          left := mid;
        } else {
          right := mid - 1;
        }
      }
      ghost var at: nat := 0;
      if expected {
        at := layout.restarts[left];
      }
      SeekToRestartPoint(left);
      while true
        invariant IsSized() && restartIndex < numRestarts
        invariant expected ==> IsReady(at) && at <= first
        decreases restarts - NextEntryOffset()
      {
        var more := ParseNextKey(at);
        if expected {
          ShapeAt(at);
        }
        if !more {
          return;
        }
        if !less(key, target) {
          return;
        }
        if expected {
          NextIsReady(at);
        }
        at := at + 1;
      }
    }

    // What the restart array leads to.
    lemma RestartEntry(k: nat)
      requires IsSized() && IsGood() && 0 < k < numRestarts
      ensures k < |layout.restarts| && layout.restarts[k] < |es| && KeysAscend(es, less)
      ensures var e, p := es[layout.restarts[k]], GetRestartPoint(k);
              var lengths := Varint(0) + Varint(|e.key|) + Varint(|e.value|);
              && |e.key| < LIMIT32 && |e.value| < LIMIT32
              && IsAt(data, p, restarts, lengths) && p + |lengths| + |e.key| + |e.value| <= restarts
              && data[p+|lengths|..p+|lengths|+|e.key|] == e.key
    {
      hide BlockHolds, RestartsOk, KeysAscend, Varint, ReadyFor, IsAt, FixedValue;
      RestartPointIs(k);
      RestartsBelow(k);
      RestartIsWhole(k);
      EntryStored(data[..restarts], es, layout, layout.restarts[k], [], GetRestartPoint(k));
      var e := es[layout.restarts[k]];
      InPrefix(data, restarts, GetRestartPoint(k), Varint(0) + Varint(|e.key|) + Varint(|e.value|));
    }

    lemma RestartIsWhole(k: nat)
      requires IsGood() && k < numRestarts && layout.restarts[k] < |es|
      ensures |layout.shared| == |es| && layout.shared[layout.restarts[k]] == 0
    {
      hide BlockHolds, KeysAscend;
    }

    lemma ShapeAt(i: nat)
      requires Valid() && IsAtEntry(i)
      ensures IsGood() && !corrupt && i <= |es|
      ensures i < |es| <==> IsValid()
      ensures i < |es| ==> key == es[i].key && Value() == es[i].value && PlacedAt(i, current)
    {
      EndIsRestarts();
    }

    ghost predicate PlacedAt(i: nat, offset: nat) {
      i < |es| && |layout.offsets| == |es| + 1 && layout.offsets[i] == offset
    }
  }

  // ---- Opening, reading and writing whole blocks

  method NewIterator(contents: seq<Byte>, less: Order, ghost data: seq<Byte>, ghost es: seq<KeyValue>, ghost l: Layout)
    returns (ok: bool, it: BlockIterator?)
    requires |contents| < LIMIT32
    ensures ok <==> |contents| >= 4 && 4 + 4 * FixedValue(contents[|contents|-4..]) <= |contents|
    ensures it != null <==> ok && FixedValue(contents[|contents|-4..]) > 0
    ensures it != null ==> fresh(it) && it.Valid() && !it.IsValid() && it.data == contents
    ensures it != null ==> it.numRestarts == FixedValue(contents[|contents|-4..]) && it.less == less
    ensures IsBlock(contents, data, es, l) && KeysAscend(es, less) ==>
              ok && it != null && it.IsGood() && !it.corrupt && it.es == es && it.less == less
  {
    hide FixedValue, KeysAscend;
    var restartOffset, numRestarts;
    ok, restartOffset, numRestarts := OpenBlock(contents, data, es, l);
    it := null;
    if IsBlock(contents, data, es, l) {
      assert contents[..|data|] == data;
    }
    if ok && numRestarts > 0 {
      it := new BlockIterator(contents, restartOffset, numRestarts, less, es, l);
    }
  }

  // All entries, in order.
  method ReadForward(it: BlockIterator) returns (read: seq<KeyValue>)
    requires it.Valid() && it.IsGood() && !it.corrupt
    modifies it
    ensures it.Valid() && read == it.es
  {
    hide BlockIterator.IsGood, BlockIterator.Valid, BlockIterator.IsAtEntry;
    it.SeekToFirst();
    read := [];
    it.ShapeAt(0);
    while it.IsValid()
      invariant it.Valid() && |read| <= |it.es| && it.IsAtEntry(|read|) && read == it.es[..|read|]
      invariant it.IsValid() == (|read| < |it.es|)
      decreases |it.es| - |read|
    {
      ghost var i := |read|;
      it.ShapeAt(i);
      read := read + [KeyValue(it.key, it.Value())];
      it.Next(i);
      it.ShapeAt(i + 1);
    }
  }

  // All entries, the last first.
  method ReadBackward(it: BlockIterator) returns (read: seq<KeyValue>)
    requires it.Valid() && it.IsGood() && !it.corrupt
    modifies it
    ensures it.Valid() && read == it.es
  {
    hide BlockIterator.IsGood, BlockIterator.Valid, BlockIterator.IsAtEntry;
    it.SeekToLast();
    read := [];
    it.ShapeAt(if it.es == [] then 0 else |it.es| - 1);
    ghost var i: int := |it.es| - 1;
    while it.IsValid()
      invariant it.Valid() && -1 <= i < |it.es| && it.IsAtEntry(if i < 0 then |it.es| else i) && read == it.es[i+1..]
      invariant it.IsValid() == (i >= 0)
      decreases i
    {
      it.ShapeAt(i);
      read := [KeyValue(it.key, it.Value())] + read;
      it.Prev(i);
      i := i - 1;
      it.ShapeAt(if i < 0 then |it.es| else i);
    }
  }

  // At most this many bytes.
  function SizeBound(es: seq<KeyValue>): nat {
    if es == [] then 8 else SizeBound(es[..|es|-1]) + |es[|es|-1].key| + |es[|es|-1].value| + 19
  }

  lemma {:induction false} SizeBoundGrows(es: seq<KeyValue>, i: nat)
    requires i <= |es|
    ensures SizeBound(es[..i]) <= SizeBound(es)
  {
    if i == |es| {
      assert es[..i] == es;
    } else {
      SizeBoundGrows(es[..|es|-1], i);
      assert es[..|es|-1][..i] == es[..i];
    }
  }

  method Write(es: seq<KeyValue>, restartInterval: nat) returns (contents: seq<Byte>, ghost data: seq<Byte>, ghost l: Layout)
    requires restartInterval >= 1 && SizeBound(es) < LIMIT32
    ensures IsBlock(contents, data, es, l)
  {
    hide BlockHolds, RestartsOk, IsBlock, Packed, PointTo, BlockBuilder.Valid;
    var builder := new BlockBuilder(restartInterval);
    for i := 0 to |es|
      invariant fresh(builder) && builder.Valid() && builder.es == es[..i]
      invariant builder.CurrentSizeEstimate() <= SizeBound(es[..i])
    {
      SizeBoundGrows(es, i + 1);
      assert es[..i+1][..i] == es[..i];
      builder.Add(es[i].key, es[i].value);
      assert es[..i] + [es[i]] == es[..i+1];
    }
    assert es[..|es|] == es;
    contents := builder.Finish();
    data, l := builder.buffer, builder.layout;
  }

  // What was written is read again, forwards and backwards.
  method WriteAndRead(es: seq<KeyValue>, restartInterval: nat, less: Order) returns (forwards: seq<KeyValue>, backwards: seq<KeyValue>)
    requires restartInterval >= 1 && SizeBound(es) < LIMIT32 && KeysAscend(es, less)
    ensures forwards == es && backwards == es
  {
    hide KeysAscend, IsBlock, BlockIterator.IsGood;
    var contents, data, l := Write(es, restartInterval);
    BlockIsShort(contents, data, es, l);
    var ok, it := NewIterator(contents, less, data, es, l);
    forwards := ReadForward(it);
    ok, it := NewIterator(contents, less, data, es, l);
    backwards := ReadBackward(it);
  }

  lemma BlockIsShort(contents: seq<Byte>, data: seq<Byte>, es: seq<KeyValue>, l: Layout)
    requires IsBlock(contents, data, es, l)
    ensures |contents| < LIMIT32
  {
    hide BlockHolds, RestartsOk;
  }

  // The least entry with a key at or after `target`, or the number of entries.
  ghost function FirstAtLeast(es: seq<KeyValue>, less: Order, target: seq<Byte>): (i: nat)
    ensures i <= |es| && forall j | 0 <= j < i :: less(es[j].key, target)
    ensures i < |es| ==> !less(es[i].key, target)
  {
    if es == [] || !less(es[0].key, target) then 0 else
      var i := FirstAtLeast(es[1..], less, target);
      assert forall j | 0 < j < 1 + i :: es[j] == es[1..][j-1];
      1 + i
  }

  lemma BeforeFirst(es: seq<KeyValue>, less: Order, target: seq<Byte>, i: nat)
    requires KeysAscend(es, less) && i < |es| && less(es[i].key, target)
    ensures i < FirstAtLeast(es, less, target)
  {
  }

  lemma ReadyShape(es: seq<KeyValue>, l: Layout, i: nat, key: seq<Byte>, offset: nat)
    requires ReadyFor(es, l, i, key, offset)
    ensures i <= |es| && |l.offsets| == |es| + 1 && |l.shared| == |es| && l.offsets[i] == offset
  {
  }

  lemma InPrefix(data: seq<Byte>, limit: nat, p: nat, code: seq<Byte>)
    requires limit <= |data| && IsAt(data[..limit], p, limit, code)
    ensures IsAt(data, p, limit, code)
  {
    assert data[..limit][p..p+|code|] == data[p..p+|code|];
  }
}
