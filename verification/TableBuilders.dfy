// Writing a table: data blocks, an index with shortened keys, and filters.

module TableBuilders {
  import opened Bytes
  import opened Coding
  import opened KeyOrders
  import opened Blocks
  import opened Filters
  import opened TableFormat
  import opened Blooms

  // A block of a table, with what is in it.
  datatype BlockInfo = BlockInfo(handle: BlockHandle, contents: seq<Byte>, data: seq<Byte>, es: seq<KeyValue>, layout: Layout)

  ghost predicate InFile(file: seq<Byte>, b: BlockInfo) {
    HasBlock(file, b.handle, b.contents) && IsBlock(b.contents, b.data, b.es, b.layout)
  }

  // The entries cut into data blocks: block `i` begins with entry `begins[i]`.
  datatype DataBlocks = DataBlocks(blocks: seq<BlockInfo>, begins: seq<nat>)

  ghost predicate BlockOk(file: seq<Byte>, entries: seq<KeyValue>, d: DataBlocks, i: nat)
    requires i < |d.blocks| && |d.begins| == |d.blocks| + 1
  {
    && InFile(file, d.blocks[i])
    && d.begins[i] < d.begins[i+1] <= |entries|
    && d.blocks[i].es == entries[d.begins[i]..d.begins[i+1]]
  }

  ghost predicate BlocksOk(file: seq<Byte>, entries: seq<KeyValue>, d: DataBlocks) {
    && (forall i, j | 0 <= i < j < |d.blocks| :: d.blocks[i].handle.offset < d.blocks[j].handle.offset)
    && |d.begins| == |d.blocks| + 1 && d.begins[0] == 0 && d.begins[|d.blocks|] <= |entries|
    && forall i | 0 <= i < |d.blocks| :: BlockOk(file, entries, d, i)
  }

  // A key that tells the first `n` entries from the others.
  ghost predicate Divides(entries: seq<KeyValue>, n: nat, key: seq<Byte>) {
    && 0 < n <= |entries| && |key| >= 8
    && (key == entries[n-1].key
        || (&& BytesLess(UserPart(entries[n-1].key), UserPart(key))
            && (n < |entries| ==> BytesLess(UserPart(key), UserPart(entries[n].key)))))
  }

  ghost predicate IndexEntryOk(entries: seq<KeyValue>, d: DataBlocks, index: seq<KeyValue>, i: nat)
    requires i < |index| <= |d.blocks| && |d.begins| == |d.blocks| + 1
  {
    Divides(entries, d.begins[i+1], index[i].key) && index[i].value == HandleBytes(d.blocks[i].handle)
  }

  ghost predicate IndexOk(entries: seq<KeyValue>, d: DataBlocks, index: seq<KeyValue>) {
    && |index| <= |d.blocks| && |d.begins| == |d.blocks| + 1
    && forall i | 0 <= i < |index| :: IndexEntryOk(entries, d, index, i)
  }

  // The keys given to the filters are those of the entries, each under the offset of its block;
  // `offset` is where the unfinished block will be.
  ghost predicate FilterHasKeys(entries: seq<KeyValue>, d: DataBlocks, offset: nat, added: seq<Added>) {
    && |d.begins| == |d.blocks| + 1 && |added| == |entries|
    && (forall i, m | 0 <= i < |d.blocks| && d.begins[i] <= m < d.begins[i+1] && m < |entries| ::
          added[m] == Added(d.blocks[i].handle.offset, entries[m].key))
    && (forall m | d.begins[|d.blocks|] <= m < |entries| :: added[m] == Added(offset, entries[m].key))
  }

  // A filter block, the policy it was made with and the keys it was given.
  datatype FilterPart =
    | NoFilterPart
    | FilterPart(policy: Policy, handle: BlockHandle, contents: seq<Byte>, result: seq<Byte>, offsets: seq<nat>, added: seq<Added>)

  // There is a filter for every block, made of exactly the keys of its two kilobytes.
  ghost predicate FilterIsMade(entries: seq<KeyValue>, d: DataBlocks, f: FilterPart)
    requires f.FilterPart?
  {
    && OffsetsOk(f.offsets, |f.result|)
    && AllMade(f.policy, f.result, f.offsets, f.added) && AllBelow(f.added, |f.offsets|)
    && FilterHasKeys(entries, d, 0, f.added) && d.begins[|d.blocks|] == |entries|
  }

  // Looked for under the offset of its block, no key is denied.
  lemma KeptAt(entries: seq<KeyValue>, d: DataBlocks, f: FilterPart, i: nat, m: nat)
    requires f.FilterPart? && FilterIsMade(entries, d, f)
    requires i < |d.blocks| && d.begins[i] <= m < d.begins[i+1] && m < |entries|
    ensures var n := d.blocks[i].handle.offset / 2048;
            n < |f.offsets| && Keeps(f.policy, f.result, f.offsets, n, entries[m].key)
  {
    hide AllMade, AllBelow, Keeps, OffsetsOk;
    AddedIsKept(f.policy, f.result, f.offsets, f.added, f.added[m]);
  }

  // "filter.leveldb.BuiltinBloomFilter2"
  const FILTER_KEY: seq<Byte> := [102, 105, 108, 116, 101, 114, 46, 108, 101, 118, 101, 108, 100, 98, 46, 66, 117, 105, 108, 116, 105, 110,
                                  66, 108, 111, 111, 109, 70, 105, 108, 116, 101, 114, 50]

  ghost predicate FilterOk(file: seq<Byte>, entries: seq<KeyValue>, d: DataBlocks, f: FilterPart) {
    f.FilterPart? ==>
      && HasBlock(file, f.handle, f.contents) && IsFilterBlock(f.contents, f.result, f.offsets)
      && FilterIsMade(entries, d, f)
  }

  function MetaindexEntries(f: FilterPart): seq<KeyValue> {
    if f.FilterPart? then [KeyValue(FILTER_KEY, HandleBytes(f.handle))] else []
  }

  // A finished table.
  datatype TableInfo = TableInfo(entries: seq<KeyValue>, d: DataBlocks, index: BlockInfo, metaindex: BlockInfo, filter: FilterPart)

  ghost predicate IsTable(file: seq<Byte>, t: TableInfo) {
    && |file| >= FOOTER_LENGTH && IsFooter(file[|file|-FOOTER_LENGTH..], t.metaindex.handle, t.index.handle)
    && BlocksOk(file, t.entries, t.d) && t.d.begins[|t.d.blocks|] == |t.entries|
    && KeysAscend(t.entries, InternalLess) && (forall i | 0 <= i < |t.entries| :: |t.entries[i].key| >= 8)
    && IndexOk(t.entries, t.d, t.index.es) && |t.index.es| == |t.d.blocks| && InFile(file, t.index)
    && FilterOk(file, t.entries, t.d, t.filter)
    && InFile(file, t.metaindex) && t.metaindex.es == MetaindexEntries(t.filter)
  }

  // ---- What steps keep

  lemma AddKeepsBlocks(file: seq<Byte>, entries: seq<KeyValue>, d: DataBlocks, e: KeyValue)
    requires BlocksOk(file, entries, d)
    ensures BlocksOk(file, entries + [e], d)
  {
    hide InFile;
    forall i | 0 <= i < |d.blocks|
      ensures BlockOk(file, entries + [e], d, i)
    {
      assert BlockOk(file, entries, d, i);
      assert (entries + [e])[d.begins[i]..d.begins[i+1]] == entries[d.begins[i]..d.begins[i+1]];
    }
  }

  lemma AppendKeepsBlocks(file: seq<Byte>, file': seq<Byte>, entries: seq<KeyValue>, d: DataBlocks)
    requires BlocksOk(file, entries, d) && file <= file'
    ensures BlocksOk(file', entries, d)
  {
    hide HasBlock, IsBlock;
    forall i | 0 <= i < |d.blocks|
      ensures BlockOk(file', entries, d, i)
    {
      assert BlockOk(file, entries, d, i);
      StaysInFile(file, file', d.blocks[i]);
    }
  }

  lemma OffsetsBelowEnd(file: seq<Byte>, entries: seq<KeyValue>, d: DataBlocks)
    requires BlocksOk(file, entries, d)
    ensures forall i | 0 <= i < |d.blocks| :: d.blocks[i].handle.offset < |file|
  {
    hide IsBlock;
    forall i | 0 <= i < |d.blocks|
      ensures d.blocks[i].handle.offset < |file|
    {
      assert BlockOk(file, entries, d, i);
    }
  }

  lemma StaysInFile(file: seq<Byte>, file': seq<Byte>, b: BlockInfo)
    requires InFile(file, b) && file <= file'
    ensures InFile(file', b)
  {
    hide HasBlock, IsBlock;
    assert file' == file + file'[|file|..];
    AppendKeepsBlock(file, file'[|file|..], b.handle, b.contents);
  }

  function WithBlock(d: DataBlocks, b: BlockInfo, end: nat): DataBlocks {
    DataBlocks(d.blocks + [b], d.begins + [end])
  }

  lemma FlushKeepsBlocks(file: seq<Byte>, entries: seq<KeyValue>, d: DataBlocks, b: BlockInfo)
    requires BlocksOk(file, entries, d) && InFile(file, b)
    requires d.begins[|d.blocks|] < |entries| && b.es == entries[d.begins[|d.blocks|]..]
    requires forall i | 0 <= i < |d.blocks| :: d.blocks[i].handle.offset < b.handle.offset
    ensures BlocksOk(file, entries, WithBlock(d, b, |entries|))
  {
    hide InFile;
    var d' := WithBlock(d, b, |entries|);
    forall i | 0 <= i < |d'.blocks|
      ensures BlockOk(file, entries, d', i)
    {
      assert i < |d.blocks| ==> BlockOk(file, entries, d, i);
    }
  }

  lemma {:induction false} BeginsAscend(file: seq<Byte>, entries: seq<KeyValue>, d: DataBlocks, i: nat, j: nat)
    requires BlocksOk(file, entries, d) && i <= j <= |d.blocks|
    ensures d.begins[i] <= d.begins[j] <= |entries| && (i < j ==> d.begins[i] < d.begins[j])
  {
    hide InFile;
    if i < j {
      BeginsAscend(file, entries, d, i, j - 1);
      assert BlockOk(file, entries, d, j - 1);
    } else if j > 0 {
      assert BlockOk(file, entries, d, j - 1);
    }
  }

  // A new entry after all index entries.
  lemma AddKeepsIndex(file: seq<Byte>, entries: seq<KeyValue>, d: DataBlocks, index: seq<KeyValue>, e: KeyValue)
    requires BlocksOk(file, entries, d) && IndexOk(entries, d, index)
    requires index == [] || d.begins[|index|] < |entries|
    ensures IndexOk(entries + [e], d, index)
  {
    hide BytesLess, UserPart, HandleBytes, InFile;
    forall i | 0 <= i < |index|
      ensures IndexEntryOk(entries + [e], d, index, i)
    {
      assert IndexEntryOk(entries, d, index, i);
      BeginsAscend(file, entries, d, i + 1, |index|);
    }
  }

  // The index entry of the last block, put in before the next entry or at the end.
  lemma IndexGrows(entries: seq<KeyValue>, d: DataBlocks, index: seq<KeyValue>, key: seq<Byte>)
    requires IndexOk(entries, d, index) && |index| < |d.blocks| && Divides(entries, d.begins[|index|+1], key)
    ensures IndexOk(entries, d, index + [KeyValue(key, HandleBytes(d.blocks[|index|].handle))])
  {
    hide Divides, HandleBytes;
    var index' := index + [KeyValue(key, HandleBytes(d.blocks[|index|].handle))];
    forall i | 0 <= i < |index'|
      ensures IndexEntryOk(entries, d, index', i)
    {
      assert i < |index| ==> IndexEntryOk(entries, d, index, i);
    }
  }

  lemma FlushKeepsIndex(entries: seq<KeyValue>, d: DataBlocks, index: seq<KeyValue>, b: BlockInfo, end: nat)
    requires IndexOk(entries, d, index)
    ensures IndexOk(entries, WithBlock(d, b, end), index)
  {
    hide Divides, HandleBytes;
    forall i | 0 <= i < |index|
      ensures IndexEntryOk(entries, WithBlock(d, b, end), index, i)
    {
      assert IndexEntryOk(entries, d, index, i);
    }
  }

  lemma AddKeepsFilter(file: seq<Byte>, entries: seq<KeyValue>, d: DataBlocks, offset: nat, added: seq<Added>, e: KeyValue)
    requires BlocksOk(file, entries, d) && FilterHasKeys(entries, d, offset, added)
    ensures FilterHasKeys(entries + [e], d, offset, added + [Added(offset, e.key)])
  {
    hide InFile;
    var entries', added' := entries + [e], added + [Added(offset, e.key)];
    forall i, m | 0 <= i < |d.blocks| && d.begins[i] <= m < d.begins[i+1] && m < |entries'|
      ensures added'[m] == Added(d.blocks[i].handle.offset, entries'[m].key)
    {
      assert BlockOk(file, entries, d, i);
    }
  }

  lemma FlushKeepsFilter(entries: seq<KeyValue>, d: DataBlocks, b: BlockInfo, added: seq<Added>, offset: nat)
    requires FilterHasKeys(entries, d, b.handle.offset, added)
    ensures FilterHasKeys(entries, WithBlock(d, b, |entries|), offset, added)
  {
  }

  lemma SeparatorDivides(entries: seq<KeyValue>, e: KeyValue, key: seq<Byte>)
    requires entries != [] && |key| >= 8
    requires var last := entries[|entries|-1].key;
             key != last ==> BytesLess(UserPart(last), UserPart(key)) && BytesLess(UserPart(key), UserPart(e.key))
    ensures Divides(entries + [e], |entries|, key)
  {
    hide BytesLess, UserPart;
  }

  lemma SuccessorDivides(entries: seq<KeyValue>, key: seq<Byte>)
    requires entries != [] && |key| >= 8
    requires key != entries[|entries|-1].key ==> BytesLess(UserPart(entries[|entries|-1].key), UserPart(key))
    ensures Divides(entries, |entries|, key)
  {
  }

  lemma FilterFinished(entries: seq<KeyValue>, d: DataBlocks, offset: nat, b: FilterBlockBuilder, f: FilterPart)
    requires b.Valid() && AllBelow(b.added, |b.filterOffsets|) && FilterHasKeys(entries, d, offset, b.added)
    requires d.begins[|d.blocks|] == |entries|
    requires f.FilterPart? && f.policy == b.policy && f.result == b.result && f.offsets == b.filterOffsets && f.added == b.added
    ensures FilterIsMade(entries, d, f)
  {
    hide AllMade, AllBelow, OffsetsOk, IsFlattened, KeysIn;
  }

  lemma StaysInside(file: seq<Byte>, file': seq<Byte>, h: BlockHandle, contents: seq<Byte>)
    requires HasBlock(file, h, contents) && file <= file'
    ensures HasBlock(file', h, contents)
  {
    hide HasBlock;
    assert file' == file + file'[|file|..];
    AppendKeepsBlock(file, file'[|file|..], h, contents);
  }

  // ---- The builder

  class TableBuilder {
    const blockSize: nat
    const dataBlock: BlockBuilder
    const indexBlock: BlockBuilder
    const filterBlock: FilterBlockBuilder?
    var file: seq<Byte>
    var offset: nat
    var lastKey: seq<Byte>
    var numEntries: nat
    var closed: bool
    var pendingIndexEntry: bool
    var pendingHandle: BlockHandle
    ghost var entries: seq<KeyValue>
    ghost var d: DataBlocks

    ghost predicate Valid()
      reads this, dataBlock, indexBlock, filterBlock
    {
      && dataBlock != indexBlock && !closed
      && dataBlock.Valid() && dataBlock.CurrentSizeEstimate() < LIMIT32
      && indexBlock.Valid() && indexBlock.CurrentSizeEstimate() < LIMIT32
      && offset == |file| && numEntries == |entries|
      && EntriesOk() && IndexReady() && FilterReady(entries)
    }

    ghost predicate EntriesOk()
      reads this`entries, this`d, this`file, this`lastKey, dataBlock`es
    {
      && BlocksOk(file, entries, d)
      && dataBlock.es == entries[d.begins[|d.blocks|]..]
      && KeysAscend(entries, InternalLess) && (forall i | 0 <= i < |entries| :: |entries[i].key| >= 8)
      && (entries != [] ==> lastKey == entries[|entries|-1].key)
    }

    // The last block has no index entry yet, or there are entries after it.
    ghost predicate IndexReady()
      reads this`entries, this`d, this`pendingIndexEntry, this`pendingHandle, indexBlock`es
    {
      && IndexOk(entries, d, indexBlock.es)
      && |d.blocks| == |indexBlock.es| + (if pendingIndexEntry then 1 else 0)
      && (if pendingIndexEntry then d.begins[|d.blocks|] == |entries| && pendingHandle == d.blocks[|d.blocks|-1].handle
          else entries != [] ==> d.begins[|d.blocks|] < |entries|)
    }

    // The filter has the keys of these entries.
    ghost predicate FilterReady(es: seq<KeyValue>)
      reads this`d, this`file, filterBlock
    {
      filterBlock != null ==>
        && filterBlock.Valid() && filterBlock.IsStarted() && filterBlock.blockOffset == |file|
        && FilterHasKeys(es, d, |file|, filterBlock.added)
    }

    constructor (blockSize: nat, restartInterval: nat, choice: FilterChoice)
      requires restartInterval >= 1
      ensures Valid() && entries == [] && lastKey == []
      ensures fresh(dataBlock) && fresh(indexBlock) && (filterBlock != null ==> fresh(filterBlock))
      ensures filterBlock != null <==> choice.BloomFilter?
      ensures filterBlock != null ==> filterBlock.policy == choice.policy
      ensures dataBlock.CurrentSizeEstimate() == 8 && indexBlock.CurrentSizeEstimate() == 8
    {
      hide BlocksOk, IndexOk, FilterHasKeys, KeysAscend, BlockBuilder.Valid, FilterBlockBuilder.Valid, FilterBlockBuilder.IsStarted;
      this.blockSize := blockSize;
      dataBlock := new BlockBuilder(restartInterval);
      indexBlock := new BlockBuilder(1);
      var filter: FilterBlockBuilder? := null;
      if choice.BloomFilter? {
        filter := new FilterBlockBuilder(choice.policy);
        filter.StartBlock(0);
      }
      filterBlock := filter;
      file, offset, lastKey, numEntries, closed, pendingIndexEntry := [], 0, [], 0, false, false;
      pendingHandle := BlockHandle(0, 0);
      entries, d := [], DataBlocks([], [0]);
      new;
      NothingWritten();
    }

    // Nothing keeps the first two from being empty.
    lemma NothingWritten()
      ensures BlocksOk([], [], DataBlocks([], [0])) && IndexOk([], DataBlocks([], [0]), [])
      ensures FilterHasKeys([], DataBlocks([], [0]), 0, [])
      ensures KeysAscend([], InternalLess)
    {
      InternalLessIsOrder();
    }

    // A block is written as soon as it is large enough, and no sooner.
    method Add(key: seq<Byte>, value: seq<Byte>)
      requires Valid() && |key| >= 8 && (entries != [] ==> InternalLess(lastKey, key))
      requires dataBlock.CurrentSizeEstimate() + |key| + |value| + 19 < LIMIT32
      requires indexBlock.CurrentSizeEstimate() + |lastKey| + 39 < LIMIT32
      modifies this, dataBlock, indexBlock, filterBlock
      ensures Valid() && entries == old(entries) + [KeyValue(key, value)] && lastKey == key
      ensures dataBlock.CurrentSizeEstimate() <= old(dataBlock.CurrentSizeEstimate()) + |key| + |value| + 19
      ensures indexBlock.CurrentSizeEstimate() <= old(indexBlock.CurrentSizeEstimate() + |lastKey|) + 39
      ensures dataBlock.es != [] ==> d.blocks == old(d.blocks) && dataBlock.CurrentSizeEstimate() < blockSize
      ensures dataBlock.es == [] ==> exists b :: d.blocks == old(d.blocks) + [b] && |b.contents| >= blockSize
    {
      hide EntriesOk, IndexReady, FilterReady, BlockBuilder.Valid;
      AddEntry(key, value);
      var estimatedBlockSize := dataBlock.CurrentSizeEstimate();
      if estimatedBlockSize >= blockSize {
        Flush();
      }
    }

    // All of it but the end of a full block.
    method AddEntry(key: seq<Byte>, value: seq<Byte>)
      requires Valid() && |key| >= 8 && (entries != [] ==> InternalLess(lastKey, key))
      requires dataBlock.CurrentSizeEstimate() + |key| + |value| + 19 < LIMIT32
      requires indexBlock.CurrentSizeEstimate() + |lastKey| + 39 < LIMIT32
      modifies this, dataBlock, indexBlock, filterBlock
      ensures Valid() && entries == old(entries) + [KeyValue(key, value)] && lastKey == key
      ensures dataBlock.CurrentSizeEstimate() <= old(dataBlock.CurrentSizeEstimate()) + |key| + |value| + 19
      ensures indexBlock.CurrentSizeEstimate() <= old(indexBlock.CurrentSizeEstimate() + |lastKey|) + 39
      ensures dataBlock.es != [] && d == old(d)
    {
      hide Valid, IsReadyFor, BlockBuilder.CurrentSizeEstimate;
      Prepare(KeyValue(key, value), key);
      AppendEntry(key, value);
    }

    // The index and the filter are ready for the entry, which is in no block yet.
    ghost predicate IsReadyFor(e: KeyValue)
      reads this, dataBlock, indexBlock, filterBlock
    {
      && dataBlock != indexBlock && !closed && !pendingIndexEntry
      && dataBlock.Valid() && indexBlock.Valid() && indexBlock.CurrentSizeEstimate() < LIMIT32
      && offset == |file| && numEntries == |entries|
      && BlocksOk(file, entries + [e], d) && IndexOk(entries + [e], d, indexBlock.es) && KeysAscend(entries + [e], InternalLess)
      && |d.blocks| == |indexBlock.es| && |d.begins| == |d.blocks| + 1 && d.begins[|d.blocks|] <= |entries|
      && dataBlock.es == entries[d.begins[|d.blocks|]..]
      && (forall i | 0 <= i < |entries| :: |entries[i].key| >= 8)
      && FilterReady(entries + [e])
    }

    method Prepare(ghost e: KeyValue, key: seq<Byte>)
      requires Valid() && e.key == key && |key| >= 8 && (entries != [] ==> InternalLess(lastKey, key))
      requires indexBlock.CurrentSizeEstimate() + |lastKey| + 39 < LIMIT32
      modifies this`lastKey, this`pendingIndexEntry, indexBlock, filterBlock
      ensures IsReadyFor(e) && dataBlock != indexBlock && dataBlock.CurrentSizeEstimate() == old(dataBlock.CurrentSizeEstimate())
      ensures indexBlock.CurrentSizeEstimate() <= old(indexBlock.CurrentSizeEstimate() + |lastKey|) + 39
    {
      hide BlocksOk, IndexOk, KeysAscend, InternalLess, FilterReady, BlockBuilder.Valid, BlockBuilder.CurrentSizeEstimate;
      Standing();
      AddKeepsAll(e);
      if pendingIndexEntry {
        SettleIndex(e, key);
      }
      AddToFilter(e, key);
    }

    method AppendEntry(key: seq<Byte>, value: seq<Byte>)
      requires IsReadyFor(KeyValue(key, value)) && |key| >= 8
      requires dataBlock.CurrentSizeEstimate() + |key| + |value| + 19 < LIMIT32
      modifies this`lastKey, this`numEntries, this`entries, dataBlock
      ensures Valid() && entries == old(entries) + [KeyValue(key, value)] && lastKey == key
      ensures dataBlock.CurrentSizeEstimate() <= old(dataBlock.CurrentSizeEstimate()) + |key| + |value| + 19
      ensures dataBlock.es != []
    {
      hide BlocksOk, IndexOk, KeysAscend, InternalLess, FilterReady, BlockBuilder.Valid, BlockBuilder.CurrentSizeEstimate;
      dataBlock.BufferFits();
      lastKey := key;
      numEntries := numEntries + 1;
      dataBlock.Add(key, value);
      entries := entries + [KeyValue(key, value)];
    }

    // Where things stand, without what is said of each block.
    lemma Standing()
      requires Valid()
      ensures |d.begins| == |d.blocks| + 1 && d.begins[|d.blocks|] <= |entries| && dataBlock.es == entries[d.begins[|d.blocks|]..]
      ensures |indexBlock.es| <= |d.blocks| && dataBlock.restartInterval >= 1
      ensures pendingIndexEntry ==> entries != [] && |lastKey| >= 8 && dataBlock.es == []
      ensures !pendingIndexEntry && entries != [] ==> dataBlock.es != []
      ensures entries != [] ==> lastKey == entries[|entries|-1].key
    {
      hide InternalLess, OffsetsOk, AllMade, IsFlattened, BlockHolds, RestartsOk;
      BeginsAscend(file, entries, d, 0, |d.blocks|);
    }

    lemma AddKeepsAll(e: KeyValue)
      requires Valid() && (entries != [] ==> InternalLess(lastKey, e.key))
      ensures BlocksOk(file, entries + [e], d) && IndexOk(entries + [e], d, indexBlock.es)
      ensures KeysAscend(entries + [e], InternalLess)
      ensures d.begins[|d.blocks|] <= |entries|
    {
      hide IndexOk, InternalLess, OffsetsOk, AllMade, IsFlattened;
      AddKeepsBlocks(file, entries, d, e);
      AppendAscends(entries, InternalLess, e);
      BeginsAscend(file, entries, d, |indexBlock.es|, |d.blocks|);
      BeginsAscend(file, entries, d, 0, |indexBlock.es|);
      AddKeepsIndex(file, entries, d, indexBlock.es, e);
    }

    method AddToFilter(ghost e: KeyValue, key: seq<Byte>)
      requires FilterReady(entries) && BlocksOk(file, entries, d) && key == e.key
      modifies filterBlock
      ensures FilterReady(entries + [e])
    {
      hide BlocksOk, FilterHasKeys, FilterBlockBuilder.Valid, FilterBlockBuilder.IsStarted;
      if filterBlock != null {
        AddKeepsFilter(file, entries, d, |file|, filterBlock.added, e);
        filterBlock.AddKey(key);
      }
    }

    // The index entry of the last block, before the next entry.
    method SettleIndex(ghost e: KeyValue, key: seq<Byte>)
      requires Valid() && pendingIndexEntry && key == e.key && |key| >= 8 && InternalLess(lastKey, key)
      requires indexBlock.CurrentSizeEstimate() + |lastKey| + 39 < LIMIT32
      modifies this`lastKey, this`pendingIndexEntry, indexBlock
      ensures !pendingIndexEntry && indexBlock.Valid()
      ensures indexBlock.CurrentSizeEstimate() <= old(indexBlock.CurrentSizeEstimate() + |lastKey|) + 39
      ensures IndexOk(entries + [e], d, indexBlock.es) && |d.blocks| == |indexBlock.es|
    {
      hide BlocksOk, IndexOk, FilterHasKeys, KeysAscend, InternalLess, Divides, BlockBuilder.Valid, FilterReady;
      Standing();
      AddKeepsAll(e);
      ShortenLastKey(e, key);
      AddIndexEntry(entries + [e]);
    }

    method ShortenLastKey(ghost e: KeyValue, key: seq<Byte>)
      requires entries != [] && lastKey == entries[|entries|-1].key && |lastKey| >= 8 && |key| >= 8 && key == e.key
      modifies this`lastKey
      ensures Divides(entries + [e], |entries|, lastKey) && |lastKey| <= |old(lastKey)|
    {
      var separator := FindShortestInternalSeparator(lastKey, key);
      hide Divides, UserPart, BytesLess;
      SeparatorDivides(entries, e, separator);
      lastKey := separator;
    }

    // The index entry of the last block, whose key need only be before `next`.
    method AddIndexEntry(ghost next: seq<KeyValue>)
      requires pendingIndexEntry && indexBlock.Valid() && indexBlock.CurrentSizeEstimate() + |lastKey| + 39 < LIMIT32
      requires IndexOk(next, d, indexBlock.es) && |d.blocks| == |indexBlock.es| + 1
      requires pendingHandle == d.blocks[|d.blocks|-1].handle && Divides(next, d.begins[|d.blocks|], lastKey)
      modifies this`pendingIndexEntry, indexBlock
      ensures !pendingIndexEntry && indexBlock.Valid()
      ensures indexBlock.CurrentSizeEstimate() <= old(indexBlock.CurrentSizeEstimate()) + |lastKey| + 39
      ensures IndexOk(next, d, indexBlock.es) && |d.blocks| == |indexBlock.es|
    {
      hide IndexOk, Divides, HandleBytes, BlockBuilder.Valid;
      IndexGrows(next, d, indexBlock.es, lastKey);
      var handleEncoding := EncodeHandle(pendingHandle, []);
      assert handleEncoding == HandleBytes(pendingHandle);
      indexBlock.Add(lastKey, handleEncoding);
      pendingIndexEntry := false;
    }

    // A block at the end of the file.
    method WriteBlock(block: BlockBuilder) returns (handle: BlockHandle, ghost b: BlockInfo)
      requires block.Valid() && block.CurrentSizeEstimate() < LIMIT32 && offset == |file|
      modifies this`file, this`offset, block
      ensures block.Valid() && block.es == [] && block.CurrentSizeEstimate() == 8
      ensures offset == |file| && old(file) <= file
      ensures handle == b.handle && handle.offset == |old(file)| && InFile(file, b) && b.es == old(block.es)
      ensures |b.contents| == old(block.CurrentSizeEstimate())
    {
      hide IsBlock, Framed;
      var raw := block.Finish();
      ghost var data, es, layout := block.buffer, block.es, block.layout;
      file, handle := WriteRawBlock(file, raw);
      offset := offset + |raw| + BLOCK_TRAILER_SIZE;
      b := BlockInfo(handle, raw, data, es, layout);
      block.Reset();
    }

    method Flush()
      requires Valid()
      modifies this`file, this`offset, this`d, this`pendingIndexEntry, this`pendingHandle, dataBlock, filterBlock
      ensures Valid() && dataBlock.es == [] && dataBlock.CurrentSizeEstimate() <= old(dataBlock.CurrentSizeEstimate())
      ensures entries != [] ==> pendingIndexEntry
      ensures if old(dataBlock.es) == [] then d.blocks == old(d.blocks)
              else exists b :: d.blocks == old(d.blocks) + [b] && |b.contents| == old(dataBlock.CurrentSizeEstimate())
    {
      hide BlocksOk, IndexOk, FilterHasKeys, KeysAscend, InFile;
      hide BlockBuilder.Valid, FilterBlockBuilder.Valid, FilterBlockBuilder.IsStarted;
      dataBlock.EmptyMeansNoEntries();
      Standing();
      if dataBlock.IsEmpty() {
        return;
      }
      ghost var before, b := file, BlockInfo(BlockHandle(0, 0), [], [], [], Layout([], [], []));
      pendingHandle, b := WriteBlock(dataBlock);
      pendingIndexEntry := true;
      AppendKeepsBlocks(before, file, entries, d);
      OffsetsBelowEnd(before, entries, d);
      FlushKeepsBlocks(file, entries, d, b);
      FlushKeepsIndex(entries, d, indexBlock.es, b, |entries|);
      if filterBlock != null {
        FlushKeepsFilter(entries, d, b, filterBlock.added, |file|);
      }
      d := WithBlock(d, b, |entries|);
      if filterBlock != null {
        filterBlock.CanStart(offset);
        filterBlock.StartBlock(offset);
      }
    }

    method FinishFilter() returns (handle: BlockHandle, ghost f: FilterPart)
      requires offset == |file| && BlocksOk(file, entries, d)
      requires filterBlock != null ==> filterBlock.Valid() && FilterHasKeys(entries, d, offset, filterBlock.added)
      requires |d.begins| == |d.blocks| + 1 && d.begins[|d.blocks|] == |entries|
      modifies this`file, this`offset, filterBlock
      ensures offset == |file| && old(file) <= file && BlocksOk(file, entries, d) && FilterOk(file, entries, d, f)
      ensures if filterBlock != null then f.FilterPart? && f.handle == handle && f.policy == filterBlock.policy else f.NoFilterPart?
    {
      hide BlocksOk, FilterHasKeys, FilterIsMade, HasBlock, IsFilterBlock, Framed, FilterBlockBuilder.Valid;
      handle, f := BlockHandle(0, 0), NoFilterPart;
      if filterBlock != null {
        ghost var before := file;
        var contents := filterBlock.Finish();
        file, handle := WriteRawBlock(file, contents);
        offset := offset + |contents| + BLOCK_TRAILER_SIZE;
        f := FilterPart(filterBlock.policy, handle, contents, filterBlock.result, filterBlock.filterOffsets, filterBlock.added);
        FilterFinished(entries, d, |before|, filterBlock, f);
        AppendKeepsBlocks(before, file, entries, d);
      }
    }

    method WriteMetaindex(filterHandle: BlockHandle, ghost f: FilterPart) returns (handle: BlockHandle, ghost b: BlockInfo)
      requires offset == |file| && dataBlock.restartInterval >= 1
      requires if filterBlock != null then f.FilterPart? && f.handle == filterHandle else f.NoFilterPart?
      modifies this`file, this`offset
      ensures offset == |file| && old(file) <= file
      ensures handle == b.handle && InFile(file, b) && b.es == MetaindexEntries(f)
    {
      hide InFile, HandleBytes, BlockBuilder.Valid;
      var metaindexBlock := new BlockBuilder(dataBlock.restartInterval);
      if filterBlock != null {
        var handleEncoding := EncodeHandle(filterHandle, []);
        assert handleEncoding == HandleBytes(filterHandle);
        metaindexBlock.Add(FILTER_KEY, handleEncoding);
      }
      handle, b := WriteBlock(metaindexBlock);
    }

    method FinishIndex() returns (handle: BlockHandle, ghost b: BlockInfo)
      requires indexBlock.Valid() && indexBlock.CurrentSizeEstimate() + |lastKey| + 39 < LIMIT32 && offset == |file|
      requires IndexReady() && pendingIndexEntry == (entries != [])
      requires entries != [] ==> lastKey == entries[|entries|-1].key && |lastKey| >= 8
      modifies this`file, this`offset, this`lastKey, this`pendingIndexEntry, indexBlock
      ensures offset == |file| && old(file) <= file
      ensures handle == b.handle && InFile(file, b) && IndexOk(entries, d, b.es) && |b.es| == |d.blocks|
    {
      hide IndexOk, InFile, Divides, BlockBuilder.Valid;
      if pendingIndexEntry {
        lastKey := FindShortInternalSuccessor(lastKey);
        SuccessorDivides(entries, lastKey);
        AddIndexEntry(entries);
      }
      handle, b := WriteBlock(indexBlock);
    }

    method Finish() returns (ghost t: TableInfo)
      requires Valid() && indexBlock.CurrentSizeEstimate() + |lastKey| + 39 < LIMIT32
      modifies this, dataBlock, indexBlock, filterBlock
      ensures closed && IsTable(file, t) && t.entries == old(entries)
      ensures if filterBlock == null then t.filter.NoFilterPart? else t.filter.FilterPart? && t.filter.policy == filterBlock.policy
    {
      hide BlocksOk, IndexOk, InFile, FilterOk, FilterHasKeys, KeysAscend, IsFooter, Divides;
      hide BlockBuilder.Valid, FilterBlockBuilder.Valid, FilterBlockBuilder.IsStarted;
      Flush();
      Standing();
      closed := true;
      var filterHandle, metaindexHandle, indexHandle;
      ghost var f, metaindex, index;
      filterHandle, f := FinishFilter();
      ghost var file1 := file;
      metaindexHandle, metaindex := WriteMetaindex(filterHandle, f);
      ghost var file2 := file;
      indexHandle, index := FinishIndex();
      ghost var file3 := file;
      var footer := EncodeFooter(metaindexHandle, indexHandle);
      file := file + footer;
      offset := offset + |footer|;
      assert file[|file|-FOOTER_LENGTH..] == footer;
      t := TableInfo(entries, d, index, metaindex, f);
      AppendKeepsBlocks(file1, file, entries, d);
      StaysInFile(file2, file, metaindex);
      StaysInFile(file3, file, index);
      FilterStays(file1, file, entries, d, f);
    }
  }

  lemma FilterStays(file: seq<Byte>, file': seq<Byte>, entries: seq<KeyValue>, d: DataBlocks, f: FilterPart)
    requires FilterOk(file, entries, d, f) && file <= file'
    ensures FilterOk(file', entries, d, f)
  {
    hide HasBlock, IsFilterBlock, FilterIsMade;
    if f.FilterPart? {
      StaysInside(file, file', f.handle, f.contents);
    }
  }
}
