// Reading a table: opening it, and the search through index, filter and block.

module Tables {
  import opened Bytes
  import opened Coding
  import opened KeyOrders
  import opened Blocks
  import opened BlockIterators
  import opened Blooms
  import opened Filters
  import opened TableFormat
  import opened TableBuilders

  // ---- Where the index leads

  lemma DividesSplits(entries: seq<KeyValue>, n: nat, key: seq<Byte>)
    requires KeysAscend(entries, InternalLess) && Divides(entries, n, key)
    ensures 0 < n <= |entries|
    ensures forall m | 0 <= m < n :: !InternalLess(key, entries[m].key)
    ensures forall m | n <= m < |entries| :: InternalLess(key, entries[m].key)
  {
    hide InternalLess, BytesLess, UserPart;
    var last := entries[n-1].key;
    if n < |entries| {
      SeparatorSeparates(last, key, entries[n].key, key);
    } else {
      AtOrAfter(last, key);
    }
    forall m | 0 <= m < n
      ensures !InternalLess(key, entries[m].key)
    {
      assert m < n - 1 ==> InternalLess(entries[m].key, last);
    }
    forall m | n <= m < |entries|
      ensures InternalLess(key, entries[m].key)
    {
      assert n < m ==> InternalLess(entries[n].key, entries[m].key);
    }
  }

  lemma AtOrAfter(last: seq<Byte>, key: seq<Byte>)
    requires key == last || BytesLess(UserPart(last), UserPart(key))
    ensures !InternalLess(key, last)
  {
    BytesLessThree(UserPart(last), UserPart(key), UserPart(last));
  }

  lemma IndexAscends(file: seq<Byte>, entries: seq<KeyValue>, d: DataBlocks, index: seq<KeyValue>)
    requires BlocksOk(file, entries, d) && KeysAscend(entries, InternalLess) && IndexOk(entries, d, index)
    ensures KeysAscend(index, InternalLess)
  {
    hide BlockOk, InternalLess, Divides;
    forall i, j | 0 <= i < j < |index|
      ensures InternalLess(index[i].key, index[j].key)
    {
      var m, n := d.begins[i+1], d.begins[j+1];
      BeginsAscend(file, entries, d, i + 1, j + 1);
      assert IndexEntryOk(entries, d, index, i) && IndexEntryOk(entries, d, index, j);
      DividesSplits(entries, m, index[i].key);
      DividesSplits(entries, n, index[j].key);
      assert InternalLess(index[i].key, entries[m].key) && !InternalLess(index[j].key, entries[m].key);
    }
  }

  lemma FirstIs(es: seq<KeyValue>, k: seq<Byte>, i: nat)
    requires i <= |es| && (forall m | 0 <= m < i :: InternalLess(es[m].key, k)) && (i < |es| ==> !InternalLess(es[i].key, k))
    ensures FirstAtLeast(es, InternalLess, k) == i
  {
    hide InternalLess;
  }

  // The entries from `begin` to `end` are where a search for `k` ends, unless they are too small.
  ghost predicate Surrounds(entries: seq<KeyValue>, begin: nat, end: nat, k: seq<Byte>) {
    && begin < end <= |entries|
    && (forall m | 0 <= m < begin :: InternalLess(entries[m].key, k))
    && (forall m | end <= m < |entries| :: !InternalLess(entries[m].key, k))
    && (end < |entries| && UserPart(entries[end].key) == UserPart(k) ==> !InternalLess(entries[end-1].key, k))
  }

  // The block to which the index sends a search for `k`.
  lemma RoutesTo(file: seq<Byte>, entries: seq<KeyValue>, d: DataBlocks, index: seq<KeyValue>, k: seq<Byte>, b: nat)
    requires BlocksOk(file, entries, d) && KeysAscend(entries, InternalLess) && IndexOk(entries, d, index) && |index| == |d.blocks|
    requires d.begins[|d.blocks|] == |entries| && b == FirstAtLeast(index, InternalLess, k)
    ensures b == |index| ==> FirstAtLeast(entries, InternalLess, k) == |entries|
    ensures b < |index| ==> Surrounds(entries, d.begins[b], d.begins[b+1], k)
  {
    hide InFile, InternalLess, UserPart, BytesLess, HandleBytes, Divides;
    assert IsOrder(InternalLess);
    if b > 0 {
      assert IndexEntryOk(entries, d, index, b - 1);
      DividesSplits(entries, d.begins[b], index[b-1].key);
      AfterSeparator(entries, d.begins[b], index[b-1].key, k);
    }
    if b == |index| {
      FirstIs(entries, k, |entries|);
    } else {
      assert IndexEntryOk(entries, d, index, b) && BlockOk(file, entries, d, b);
      UpToSeparator(entries, d.begins[b+1], index[b].key, k);
    }
  }

  lemma AfterSeparator(entries: seq<KeyValue>, n: nat, key: seq<Byte>, k: seq<Byte>)
    requires KeysAscend(entries, InternalLess) && Divides(entries, n, key) && InternalLess(key, k)
    ensures forall m | 0 <= m < n :: InternalLess(entries[m].key, k)
  {
    hide InternalLess, Divides, KeysAscend;
    DividesSplits(entries, n, key);
    forall m | 0 <= m < n
      ensures InternalLess(entries[m].key, k)
    {
      InternalLessThree(key, entries[m].key, k);
    }
  }

  lemma UpToSeparator(entries: seq<KeyValue>, n: nat, key: seq<Byte>, k: seq<Byte>)
    requires KeysAscend(entries, InternalLess) && Divides(entries, n, key) && !InternalLess(key, k)
    ensures n <= |entries|
    ensures forall m | n <= m < |entries| :: !InternalLess(entries[m].key, k)
    ensures n < |entries| && UserPart(entries[n].key) == UserPart(k) ==> !InternalLess(entries[n-1].key, k)
  {
    hide InternalLess, UserPart, BytesLess;
    DividesSplits(entries, n, key);
    if n < |entries| {
      assert InternalLess(entries[n-1].key, entries[n].key);
      SeparatorSeparates(entries[n-1].key, key, entries[n].key, k);
    }
  }

  lemma SliceAscends(entries: seq<KeyValue>, begin: nat, end: nat)
    requires KeysAscend(entries, InternalLess) && begin <= end <= |entries|
    ensures KeysAscend(entries[begin..end], InternalLess)
  {
    hide InternalLess;
    var es := entries[begin..end];
    forall i, j | 0 <= i < j < |es|
      ensures InternalLess(es[i].key, es[j].key)
    {
      assert es[i] == entries[begin+i] && es[j] == entries[begin+j];
    }
  }

  // The search goes on in that block.
  lemma FoundInBlock(entries: seq<KeyValue>, begin: nat, end: nat, k: seq<Byte>)
    requires KeysAscend(entries, InternalLess) && Surrounds(entries, begin, end, k)
    ensures var es := entries[begin..end];
            var i, j := FirstAtLeast(entries, InternalLess, k), FirstAtLeast(es, InternalLess, k);
            && KeysAscend(es, InternalLess) && i == begin + j
            && if j < |es| then entries[i] == es[j] else i == |entries| || UserPart(entries[i].key) != UserPart(k)
  {
    hide InternalLess, UserPart, KeysAscend;
    SliceAscends(entries, begin, end);
    var es := entries[begin..end];
    var j := FirstAtLeast(es, InternalLess, k);
    forall m | begin <= m < begin + j
      ensures InternalLess(entries[m].key, k)
    {
      assert entries[m] == es[m-begin];
    }
    FirstIs(entries, k, begin + j);
    assert j == |es| ==> es[j-1] == entries[end-1];
  }

  // ---- The filter

  // Only the hash matters.
  lemma SameHash(p: Policy, q: Policy, key: seq<Byte>, filter: seq<Byte>)
    requires p.hash == q.hash && Matches(p, key, filter)
    ensures Matches(q, key, filter)
  {
    hide AllSet, NumberOf, Probes;
  }

  // A key that the filter of a block denies has no entry in the block.
  lemma DeniedIsAbsent(entries: seq<KeyValue>, d: DataBlocks, f: FilterPart, policy: Policy, b: nat, k: seq<Byte>, m: nat)
    requires f.FilterPart? && FilterIsMade(entries, d, f) && policy.hash == f.policy.hash
    requires b < |d.blocks| && d.begins[b] <= m < d.begins[b+1] && m < |entries|
    requires var i := d.blocks[b].handle.offset / 2048; i < |f.offsets| && !Keeps(policy, f.result, f.offsets, i, k)
    ensures UserPart(entries[m].key) != UserPart(k)
  {
    hide Matches, AllMade, AllBelow, OffsetsOk;
    var i := d.blocks[b].handle.offset / 2048;
    KeptAt(entries, d, f, b, m);
    if UserPart(entries[m].key) == UserPart(k) {
      SameHash(f.policy, policy, UserPart(k), FilterAt(f.result, f.offsets, i));
    }
  }

  // ---- The reader

  datatype GetResult = Nothing | Reported(e: KeyValue)

  // No entry of this block has the user key of `k`.
  ghost predicate NoneInBlock(t: TableInfo, b: nat, k: seq<Byte>) {
    && b + 1 < |t.d.begins|
    && forall m | t.d.begins[b] <= m < t.d.begins[b+1] && m < |t.entries| :: UserPart(t.entries[m].key) != UserPart(k)
  }

  // The result of a search for `k`: the first entry at or after it, or nothing if that entry has
  // another user key.
  ghost predicate IsResult(entries: seq<KeyValue>, k: seq<Byte>, r: GetResult) {
    var i := FirstAtLeast(entries, InternalLess, k);
    if r.Reported? then i < |entries| && r.e == entries[i] else i == |entries| || UserPart(entries[i].key) != UserPart(k)
  }

  // Filters are read with the hash they were made with, and fit 32-bit offsets.
  ghost predicate FilterReadable(choice: FilterChoice, f: FilterPart) {
    choice.BloomFilter? && f.FilterPart? ==> choice.policy.hash == f.policy.hash && |f.contents| < LIMIT32
  }

  // A block at a handle, opened. Expected, if anything: `b`.
  method BlockReader(file: seq<Byte>, handleValue: seq<Byte>, verifyChecksums: bool, less: Order, ghost b: BlockInfo)
    returns (ok: bool, it: BlockIterator?)
    ensures it != null ==> ok && fresh(it) && it.Valid() && !it.IsValid()
    ensures |file| < LIMIT64 && InFile(file, b) && handleValue == HandleBytes(b.handle) && KeysAscend(b.es, less) ==>
              ok && it != null && it.IsGood() && !it.corrupt && it.es == b.es && it.less == less
  {
    hide HandleBytes, Framed, IsBlock, KeysAscend;
    var handle, next, contents;
    WholeHandle(handleValue, b.handle);
    it := null;
    ok, handle, next := DecodeHandle(handleValue, 0, b.handle);
    if !ok {
      return;
    }
    ok, contents := ReadBlock(file, handle, verifyChecksums, b.contents);
    if InFile(file, b) {
      BlockIsShort(b.contents, b.data, b.es, b.layout);
    }
    if !ok || |contents| >= LIMIT32 {
      ok := false;
      return;
    }
    ok, it := NewIterator(contents, less, b.data, b.es, b.layout);
  }

  lemma WholeHandle(value: seq<Byte>, h: BlockHandle)
    ensures value == HandleBytes(h) ==> IsAt(value, 0, |value|, HandleBytes(h))
  {
    assert value[0..|value|] == value;
  }

  class Table {
    const file: seq<Byte>
    const index: seq<Byte>
    const filter: FilterBlockReader?

    // It is open on this table.
    ghost predicate Reads(t: TableInfo) {
      && IsTable(file, t) && |file| < LIMIT64 && index == t.index.contents
      && (filter != null ==>
            && t.filter.FilterPart? && filter.Valid() && filter.policy.hash == t.filter.policy.hash
            && filter.Reads(t.filter.contents, t.filter.result, t.filter.offsets))
    }

    predicate Valid() {
      |index| < LIMIT32 && (filter != null ==> filter.Valid())
    }

    constructor (file: seq<Byte>, index: seq<Byte>, filter: FilterBlockReader?)
      requires |index| < LIMIT32 && (filter != null ==> filter.Valid())
      ensures Valid() && this.file == file && this.index == index && this.filter == filter
    {
      this.file, this.index, this.filter := file, index, filter;
    }

    lemma IndexIsGood(t: TableInfo)
      requires Reads(t)
      ensures IsBlock(index, t.index.data, t.index.es, t.index.layout) && KeysAscend(t.index.es, InternalLess) && |file| < LIMIT64
    {
      hide BlocksOk, KeysAscend, IndexOk, IsFooter, FilterOk, IsBlock, HasBlock;
      IndexAscends(file, t.entries, t.d, t.index.es);
    }

    // Where a search for `k` goes, given the place of the index entry.
    lemma Route(t: TableInfo, k: seq<Byte>, b: nat)
      requires Reads(t) && b == FirstAtLeast(t.index.es, InternalLess, k)
      ensures b == |t.index.es| ==> IsResult(t.entries, k, Nothing)
      ensures b < |t.index.es| ==>
                && b < |t.d.blocks| && |t.d.begins| == |t.d.blocks| + 1
                && InFile(file, t.d.blocks[b]) && KeysAscend(t.d.blocks[b].es, InternalLess)
                && t.index.es[b].value == HandleBytes(t.d.blocks[b].handle)
                && IsResult(t.entries, k, InBlock(t.d.blocks[b].es, k))
                && (NoneInBlock(t, b, k) ==> IsResult(t.entries, k, Nothing))
    {
      hide KeysAscend, IsFooter, FilterOk, InFile, Divides, HandleBytes, InternalLess, UserPart;
      RoutesTo(file, t.entries, t.d, t.index.es, k, b);
      if b < |t.index.es| {
        assert BlockOk(file, t.entries, t.d, b) && IndexEntryOk(t.entries, t.d, t.index.es, b);
        FoundInBlock(t.entries, t.d.begins[b], t.d.begins[b+1], k);
      }
    }

    // Whether the filter denies the key in the block at this handle.
    method Denies(k: seq<Byte>, handleValue: seq<Byte>, ghost t: TableInfo, ghost b: nat) returns (denied: bool)
      requires Valid()
      ensures denied && Reads(t) && b < |t.d.blocks| && InFile(file, t.d.blocks[b]) && handleValue == HandleBytes(t.d.blocks[b].handle) ==>
                NoneInBlock(t, b, k)
      ensures filter != null && Reads(t) && b < |t.d.blocks| && InFile(file, t.d.blocks[b]) && handleValue == HandleBytes(t.d.blocks[b].handle) ==>
                var i := t.d.blocks[b].handle.offset / 2048;
                denied <==> i < |t.filter.offsets| && !Keeps(filter.policy, t.filter.result, t.filter.offsets, i, k)
    {
      hide KeysAscend, IsFooter, BlockOk, Matches, IndexOk, UserPart, HandleBytes, IsBlock, IsFilterBlock, Framed, FilterIsMade;
      if filter == null {
        return false;
      }
      ghost var expected := Reads(t) && b < |t.d.blocks| && InFile(file, t.d.blocks[b]) && handleValue == HandleBytes(t.d.blocks[b].handle);
      ghost var h, result, offsets := BlockHandle(0, 0), [], [];
      if expected {
        h, result, offsets := t.d.blocks[b].handle, t.filter.result, t.filter.offsets;
        WholeHandle(handleValue, h);
      }
      var decoded, handle, next := DecodeHandle(handleValue, 0, h);
      if !decoded {
        return false;
      }
      var mayMatch := filter.KeyMayMatch(handle.offset, k, result, offsets);
      denied := !mayMatch;
      if denied && expected {
        forall m | t.d.begins[b] <= m < t.d.begins[b+1] && m < |t.entries|
          ensures UserPart(t.entries[m].key) != UserPart(k)
        {
          DeniedIsAbsent(t.entries, t.d, t.filter, filter.policy, b, k, m);
        }
      }
    }

    method InternalGet(k: seq<Byte>, verifyChecksums: bool, ghost t: TableInfo) returns (ok: bool, r: GetResult)
      requires Valid()
      ensures Reads(t) ==> ok && IsResult(t.entries, k, r)
    {
      hide Reads, NoneInBlock, IsBlock, InFile, KeysAscend, IsResult, HandleBytes, UserPart, BlockIterator.IsGood, BlockIterator.Valid;
      ghost var at, b := 0, t.index;
      if Reads(t) {
        at := FirstAtLeast(t.index.es, InternalLess, k);
        IndexIsGood(t);
        Route(t, k, at);
        if at < |t.index.es| {
          b := t.d.blocks[at];
        }
      }
      ok, r := true, Nothing;
      var iiter, blockIter;
      ok, iiter := NewIterator(index, InternalLess, t.index.data, t.index.es, t.index.layout);
      if iiter == null {
        return;
      }
      iiter.Seek(k);
      if Reads(t) {
        iiter.ShapeAt(at);
      }
      if iiter.IsValid() {
        var denied := Denies(k, iiter.Value(), t, at);
        if !denied {
          ok, blockIter := BlockReader(file, iiter.Value(), verifyChecksums, InternalLess, b);
          if blockIter == null {
            return;
          }
          blockIter.Seek(k);
          if Reads(t) {
            blockIter.ShapeAt(FirstAtLeast(b.es, InternalLess, k));
          }
          if blockIter.IsValid() {
            r := Reported(KeyValue(blockIter.key, blockIter.Value()));
          }
          ok := !blockIter.corrupt;
        }
      }
      if ok {
        ok := !iiter.corrupt;
      }
    }
  }

  ghost function InBlock(es: seq<KeyValue>, k: seq<Byte>): GetResult {
    var j := FirstAtLeast(es, InternalLess, k);
    if j < |es| then Reported(es[j]) else Nothing
  }

  // ---- Opening

  // The filter, if the metaindex has one for this policy.
  method ReadFilter(file: seq<Byte>, handleValue: seq<Byte>, policy: Policy, verifyChecksums: bool, ghost f: FilterPart)
    returns (filter: FilterBlockReader?)
    ensures filter != null ==> filter.Valid() && filter.policy == policy
    ensures f.FilterPart? && |file| < LIMIT64 && HasBlock(file, f.handle, f.contents) && handleValue == HandleBytes(f.handle)
            && IsFilterBlock(f.contents, f.result, f.offsets) && |f.contents| < LIMIT32 ==>
              filter != null && filter.Reads(f.contents, f.result, f.offsets)
  {
    hide HandleBytes, Framed, IsFilterBlock;
    ghost var h, wanted, result, offsets := BlockHandle(0, 0), [], [], [];
    if f.FilterPart? {
      h, wanted, result, offsets := f.handle, f.contents, f.result, f.offsets;
    }
    WholeHandle(handleValue, h);
    var ok, handle, next := DecodeHandle(handleValue, 0, h);
    if !ok {
      return null;
    }
    var block;
    ok, block := ReadBlock(file, handle, verifyChecksums, wanted);
    if !ok {
      return null;
    }
    filter := new FilterBlockReader(policy, block, result, offsets);
  }

  method ReadMeta(file: seq<Byte>, metaindexHandle: BlockHandle, choice: FilterChoice, paranoid: bool, ghost t: TableInfo)
    returns (filter: FilterBlockReader?)
    ensures filter != null ==> choice.BloomFilter? && filter.Valid() && filter.policy == choice.policy
    ensures IsTable(file, t) && |file| < LIMIT64 && metaindexHandle == t.metaindex.handle && FilterReadable(choice, t.filter) ==>
              && (filter != null <==> choice.BloomFilter? && t.filter.FilterPart?)
              && (filter != null ==> filter.Reads(t.filter.contents, t.filter.result, t.filter.offsets))
  {
    hide BlocksOk, IndexOk, KeysAscend, IsFooter, Framed, IsBlock, HandleBytes, IsFilterBlock, FilterIsMade, BlockIterator.IsGood, BlockIterator.Valid,
         BytesLess, MetaindexEntries, FirstAtLeast;
    if choice.NoFilter? {
      return null;
    }
    var b := t.metaindex;
    if IsTable(file, t) {
      BlockIsShort(b.contents, b.data, b.es, b.layout);
      MetaindexAscends(t.filter);
      FoundInMetaindex(t.filter);
    }
    var ok, contents := ReadBlock(file, metaindexHandle, paranoid, b.contents);
    if !ok || |contents| >= LIMIT32 {
      return null;
    }
    var iter;
    ok, iter := NewIterator(contents, BytesLess, b.data, b.es, b.layout);
    if iter == null {
      return null;
    }
    iter.Seek(FILTER_KEY);
    if IsTable(file, t) && metaindexHandle == b.handle {
      iter.ShapeAt(FirstAtLeast(b.es, BytesLess, FILTER_KEY));
    }
    if iter.IsValid() && iter.key == FILTER_KEY {
      filter := ReadFilter(file, iter.Value(), choice.policy, paranoid, t.filter);
    } else {
      filter := null;
    }
  }

  lemma FoundInMetaindex(f: FilterPart)
    ensures var es := MetaindexEntries(f);
            && |es| == (if f.FilterPart? then 1 else 0)
            && FirstAtLeast(es, BytesLess, FILTER_KEY) == 0
            && (f.FilterPart? ==> es[0].key == FILTER_KEY && es[0].value == HandleBytes(f.handle))
  {
    hide BytesLess, HandleBytes;
    BytesLessIsOrder();
  }

  lemma MetaindexAscends(f: FilterPart)
    ensures KeysAscend(MetaindexEntries(f), BytesLess)
  {
    BytesLessIsOrder();
  }

  // Opens a table, and nothing that does not end with the magic number.
  method Open(file: seq<Byte>, choice: FilterChoice, paranoid: bool, ghost t: TableInfo) returns (table: Table?)
    ensures table != null ==> fresh(table) && table.Valid()
    ensures table != null ==> |file| >= FOOTER_LENGTH && file[|file|-8..] == Magic()
    ensures IsTable(file, t) && |file| < LIMIT64 && FilterReadable(choice, t.filter) ==>
              table != null && table.Reads(t) && (table.filter != null <==> choice.BloomFilter? && t.filter.FilterPart?)
  {
    hide BlocksOk, IndexOk, KeysAscend, IsFooter, Framed, IsBlock, HandleBytes, IsFilterBlock, FilterOk, Magic;
    if |file| < FOOTER_LENGTH {
      return null;
    }
    var footer := file[|file|-FOOTER_LENGTH..];
    assert footer[FOOTER_LENGTH-8..] == file[|file|-8..];
    var ok, metaindex, index := DecodeFooter(footer, t.metaindex.handle, t.index.handle);
    if !ok {
      return null;
    }
    var contents;
    ok, contents := ReadBlock(file, index, paranoid, t.index.contents);
    if IsTable(file, t) {
      BlockIsShort(t.index.contents, t.index.data, t.index.es, t.index.layout);
    }
    if !ok || |contents| >= LIMIT32 {
      return null;
    }
    var filter := ReadMeta(file, metaindex, choice, paranoid, t);
    table := new Table(file, contents, filter);
  }

  // ---- Writing and reading whole tables

  function TableBound(entries: seq<KeyValue>): nat {
    if entries == [] then 60 else TableBound(entries[..|entries|-1]) + |entries[|entries|-1].key| + |entries[|entries|-1].value| + 60
  }

  lemma {:induction false} TableBoundGrows(entries: seq<KeyValue>, i: nat)
    requires i <= |entries|
    ensures TableBound(entries[..i]) <= TableBound(entries)
  {
    if i == |entries| {
      assert entries[..i] == entries;
    } else {
      TableBoundGrows(entries[..|entries|-1], i);
      assert entries[..|entries|-1][..i] == entries[..i];
    }
  }

  lemma NextIsGreater(entries: seq<KeyValue>, i: nat)
    requires KeysAscend(entries, InternalLess) && i < |entries|
    ensures i > 0 ==> InternalLess(entries[i-1].key, entries[i].key)
  {
  }

  method WriteTable(entries: seq<KeyValue>, blockSize: nat, restartInterval: nat, choice: FilterChoice) returns (file: seq<Byte>, ghost t: TableInfo)
    requires restartInterval >= 1 && TableBound(entries) < LIMIT32
    requires KeysAscend(entries, InternalLess) && forall i | 0 <= i < |entries| :: |entries[i].key| >= 8
    ensures IsTable(file, t) && t.entries == entries
    ensures if choice.BloomFilter? then t.filter.FilterPart? && t.filter.policy == choice.policy else t.filter.NoFilterPart?
  {
    hide TableBuilder.Valid, IsTable, KeysAscend, InternalLess;
    var builder := new TableBuilder(blockSize, restartInterval, choice);
    ghost var dataBlock, indexBlock, filterBlock := builder.dataBlock, builder.indexBlock, builder.filterBlock;
    for i := 0 to |entries|
      invariant fresh(builder) && fresh(builder.dataBlock) && fresh(builder.indexBlock) && (builder.filterBlock != null ==> fresh(builder.filterBlock))
      invariant builder.Valid() && builder.entries == entries[..i]
      invariant i > 0 ==> builder.lastKey == entries[i-1].key
      invariant builder.dataBlock.CurrentSizeEstimate() <= TableBound(entries[..i])
      invariant builder.indexBlock.CurrentSizeEstimate() + |builder.lastKey| + 39 <= TableBound(entries[..i])
    {
      TableBoundGrows(entries, i + 1);
      assert entries[..i+1][..i] == entries[..i];
      assert entries[..i] + [entries[i]] == entries[..i+1];
      NextIsGreater(entries, i);
      builder.Add(entries[i].key, entries[i].value);
    }
    assert entries[..|entries|] == entries;
    t := builder.Finish();
    file := builder.file;
  }

  // A table that was written answers every search, with or without its filter.
  method WriteAndGet(entries: seq<KeyValue>, blockSize: nat, restartInterval: nat, written: FilterChoice, read: FilterChoice, paranoid: bool, k: seq<Byte>)
    returns (file: seq<Byte>, ok: bool, r: GetResult)
    requires restartInterval >= 1 && TableBound(entries) < LIMIT32
    requires KeysAscend(entries, InternalLess) && forall i | 0 <= i < |entries| :: |entries[i].key| >= 8
    requires written.BloomFilter? && read.BloomFilter? ==> written.policy.hash == read.policy.hash
    ensures |file| < LIMIT32 ==> ok && IsResult(entries, k, r)
  {
    hide KeysAscend, IsResult, IsTable, InternalLess;
    ghost var t;
    file, t := WriteTable(entries, blockSize, restartInterval, written);
    FilterIsShort(file, t);
    var table := Open(file, read, paranoid, t);
    ok, r := false, Nothing;
    if table != null {
      ok, r := table.InternalGet(k, paranoid, t);
    }
  }

  lemma FilterIsShort(file: seq<Byte>, t: TableInfo)
    requires IsTable(file, t)
    ensures t.filter.FilterPart? ==> |t.filter.contents| <= |file|
  {
    hide BlocksOk, KeysAscend, IndexOk, IsFooter, IsBlock, FilterIsMade, IsFilterBlock;
  }
}
