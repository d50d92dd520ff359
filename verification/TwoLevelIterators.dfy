// A cursor over a whole table: one over the index, and one over the block it is at.

module TwoLevelIterators {
  import opened Bytes
  import opened Coding
  import opened KeyOrders
  import opened Blocks
  import opened BlockIterators
  import opened TableFormat
  import opened TableBuilders
  import opened Tables
  import Blooms

  // ---- Handles tell blocks apart

  lemma {:induction false} VarintsDiffer(a: nat, x: seq<Byte>, b: nat, y: seq<Byte>)
    requires Varint(a) + x == Varint(b) + y
    ensures a == b && x == y
  {
    hide ByteOf, NumberOf;
    var u := Varint(a) + x;
    ByteRoundTrip(if a < 128 then a else a % 128 + 128);
    ByteRoundTrip(if b < 128 then b else b % 128 + 128);
    assert u[0] == Varint(a)[0] == Varint(b)[0];
    if a >= 128 {
      assert u[1..] == Varint(a / 128) + x && u[1..] == Varint(b / 128) + y;
      VarintsDiffer(a / 128, x, b / 128, y);
    } else {
      assert u[1..] == x && u[1..] == y;
    }
  }

  lemma HandlesDiffer(g: BlockHandle, h: BlockHandle)
    requires Encodable(g) && Encodable(h) && HandleBytes(g) == HandleBytes(h)
    ensures g == h
  {
    hide Varint;
    VarintsDiffer(g.offset, Varint(g.size), h.offset, Varint(h.size));
    assert Varint(g.size) + [] == Varint(h.size) + [];
    VarintsDiffer(g.size, [], h.size, []);
  }

  // ---- The cursor

  class TwoLevelIterator {
    const file: seq<Byte>
    const verifyChecksums: bool
    const indexIter: BlockIterator
    var dataIter: BlockIterator?
    var dataBlockHandle: seq<Byte>
    var corrupt: bool
    ghost const t: TableInfo
    ghost var b: nat        // the place of the index cursor

    ghost predicate Valid()
      reads this`dataIter, indexIter, dataIter
    {
      indexIter.Valid() && (dataIter != null ==> dataIter != indexIter && dataIter.Valid())
    }

    predicate IsValid()
      reads this`dataIter, dataIter
    {
      dataIter != null && dataIter.IsValid()
    }

    // A whole table, and cursors over its index and over one of its blocks.
    ghost predicate IsPlaced(place: nat)
      reads this`dataIter, this`dataBlockHandle, this`corrupt, indexIter, dataIter
    {
      && IsTable(file, t) && |file| < LIMIT64 && !corrupt
      && indexIter.es == t.index.es && indexIter.less == InternalLess && indexIter.IsAtEntry(place)
      && (dataIter != null ==>
            && dataIter.IsGood() && !dataIter.corrupt && dataIter.less == InternalLess
            && IsOfBlock(t, dataIter.es, dataBlockHandle))
    }

    ghost predicate IsGood()
      reads this`dataIter, this`dataBlockHandle, this`corrupt, this`b, indexIter, dataIter
    {
      IsPlaced(b)
    }

    // It goes on from entry `i`, which may be behind the last one of its block.
    ghost predicate IsBefore(i: nat)
      reads this`dataIter, this`dataBlockHandle, this`corrupt, this`b, indexIter, dataIter
    {
      && IsGood() && i <= |t.entries| && b <= |t.d.blocks| && |t.d.begins| == |t.d.blocks| + 1
      && (if b < |t.d.blocks| then
            && dataIter != null && t.d.begins[b] <= i <= t.d.begins[b+1] && dataIter.es == t.d.blocks[b].es
            && dataIter.IsAtEntry(i - t.d.begins[b])
          else dataIter == null && i == |t.entries|)
    }

    // It is at entry `i`, or behind the last one.
    ghost predicate IsAtEntry(i: nat)
      reads this`dataIter, this`dataBlockHandle, this`corrupt, this`b, indexIter, dataIter
    {
      IsBefore(i) && (i < |t.entries| <==> dataIter != null && dataIter.IsValid())
    }

    // It goes back to entry `i`, which may be before the first one of its block.
    ghost predicate IsAfter(i: int)
      reads this`dataIter, this`dataBlockHandle, this`corrupt, this`b, indexIter, dataIter
    {
      && IsGood() && -1 <= i < |t.entries| && b <= |t.d.blocks| && |t.d.begins| == |t.d.blocks| + 1
      && (if b < |t.d.blocks| then
            && dataIter != null && t.d.begins[b] - 1 <= i < t.d.begins[b+1] && dataIter.es == t.d.blocks[b].es
            && dataIter.IsAtEntry(if i < t.d.begins[b] then |dataIter.es| else i - t.d.begins[b])
          else dataIter == null && i == -1)
    }

    constructor (file: seq<Byte>, indexIter: BlockIterator, verifyChecksums: bool, ghost t: TableInfo)
      requires indexIter.Valid() && !indexIter.IsValid()
      ensures Valid() && this.file == file && this.indexIter == indexIter && this.t == t && dataIter == null
      ensures (IsTable(file, t) && |file| < LIMIT64 && indexIter.es == t.index.es && indexIter.less == InternalLess
               && indexIter.IsGood() && !indexIter.corrupt) ==> IsGood()
    {
      hide IsTable;
      this.file, this.indexIter, this.verifyChecksums, this.t := file, indexIter, verifyChecksums, t;
      dataIter, dataBlockHandle, corrupt := null, [], false;
      b := |t.index.es|;
      new;
      if indexIter.IsGood() && !indexIter.corrupt && indexIter.es == t.index.es {
        indexIter.AtEnd();
      }
    }

    method SetDataIterator(iter: BlockIterator?)
      requires Valid() && iter != indexIter && (iter != null ==> iter.Valid())
      modifies this`dataIter, this`corrupt
      ensures Valid() && dataIter == iter && corrupt == (old(corrupt) || (old(dataIter) != null && old(dataIter.corrupt)))
    {
      if dataIter != null {
        corrupt := corrupt || dataIter.corrupt;
      }
      dataIter := iter;
    }

    method InitDataBlock()
      requires Valid()
      modifies this`dataIter, this`dataBlockHandle, this`corrupt
      ensures Valid() && (dataIter == null || dataIter == old(dataIter) || fresh(dataIter))
      ensures old(IsGood()) ==>
                IsGood() && if b < |t.d.blocks| then dataIter != null && dataIter.es == t.d.blocks[b].es else dataIter == null
    {
      hide IsTable, BlockIterator.IsGood, BlockIterator.Valid, BlockIterator.IsAtEntry, HandleBytes, InFile, KeysAscend;
      ghost var expected, block := IsGood(), t.index;
      if expected {
        IndexEntry(file, t, b);
        indexIter.ShapeAt(b);
        if b < |t.d.blocks| {
          block := t.d.blocks[b];
        }
      }
      if !indexIter.IsValid() {
        SetDataIterator(null);
        return;
      }
      var handle := indexIter.Value();
      if dataIter != null && handle == dataBlockHandle {
        if expected {
          SameBlock(file, t, dataIter.es, dataBlockHandle, b);
        }
        return;
      }
      var ok, iter := BlockReader(file, handle, verifyChecksums, InternalLess, block);
      dataBlockHandle := handle;
      SetDataIterator(iter);
      corrupt := corrupt || !ok;
    }

    method ToFirstInBlock()
      requires Valid()
      modifies dataIter
      ensures Valid()
      ensures old(IsGood()) ==> IsGood() && (dataIter != null ==> dataIter.IsAtEntry(0) && dataIter.es == old(dataIter.es))
    {
      hide IsTable, BlockIterator.IsGood, BlockIterator.Valid, BlockIterator.IsAtEntry, IsOfBlock;
      if dataIter != null {
        ghost var expected := IsGood();
        dataIter.SeekToFirst();
        if expected {
          AtIsGood(dataIter, 0);
        }
      }
    }

    method ToLastInBlock()
      requires Valid()
      modifies dataIter
      ensures Valid()
      ensures old(IsGood()) ==>
                IsGood() && (dataIter != null ==>
                               dataIter.IsAtEntry(if dataIter.es == [] then 0 else |dataIter.es| - 1) && dataIter.es == old(dataIter.es))
    {
      hide IsTable, BlockIterator.IsGood, BlockIterator.Valid, BlockIterator.IsAtEntry, IsOfBlock;
      if dataIter != null {
        ghost var expected := IsGood();
        dataIter.SeekToLast();
        if expected {
          AtIsGood(dataIter, if dataIter.es == [] then 0 else |dataIter.es| - 1);
        }
      }
    }

    method SkipEmptyDataBlocksForward(ghost i: nat)
      requires Valid()
      modifies this`dataIter, this`dataBlockHandle, this`corrupt, this`b, indexIter, dataIter
      ensures Valid() && (dataIter == null || dataIter == old(dataIter) || fresh(dataIter))
      ensures old(IsBefore(i)) ==> IsAtEntry(i)
    {
      hide IsTable, BlockIterator.IsGood, BlockIterator.Valid, BlockIterator.IsAtEntry, IsOfBlock;
      ghost var expected := IsBefore(i);
      while dataIter == null || !dataIter.IsValid()
        invariant Valid() && (dataIter == null || dataIter == old(dataIter) || fresh(dataIter))
        invariant expected ==> IsBefore(i)
        decreases if indexIter.IsValid() then 1 + indexIter.restarts - indexIter.current else 0
      {
        if expected {
          BlockIsOver(i);
        }
        if !indexIter.IsValid() {
          SetDataIterator(null);
          return;
        }
        indexIter.Next(b);
        b := b + 1;
        InitDataBlock();
        ToFirstInBlock();
      }
      if expected {
        BlockIsNotOver(i);
      }
    }

    // The block has no entry left, so that the next one is the first of the next block.
    lemma BlockIsOver(i: nat)
      requires Valid() && IsBefore(i) && !IsValid()
      ensures IsTable(file, t) && (indexIter.IsValid() <==> b < |t.d.blocks|) && (b == |t.d.blocks| ==> IsAtEntry(i)) && EndsAt(t, b, i)
    {
      hide IsTable, BlockIterator.IsGood, BlockIterator.IsAtEntry, HandleBytes, InFile, KeysAscend, IsOfBlock;
      IndexEntry(file, t, b);
      IndexEntry(file, t, b + 1);
      indexIter.ShapeAt(b);
      if b < |t.d.blocks| {
        dataIter.ShapeAt(i - t.d.begins[b]);
      }
    }

    lemma BlockIsNotOver(i: nat)
      requires Valid() && IsBefore(i) && IsValid()
      ensures IsAtEntry(i) && i < |t.entries| && b < |t.d.blocks| && i < t.d.begins[b+1]
      ensures dataIter.key == t.entries[i].key && dataIter.Value() == t.entries[i].value
    {
      hide IsTable, BlockIterator.IsGood, BlockIterator.IsAtEntry, HandleBytes, InFile, KeysAscend, IsOfBlock;
      IndexEntry(file, t, b);
      dataIter.ShapeAt(i - t.d.begins[b]);
    }

    lemma WhereItIs(i: nat)
      requires Valid() && IsAtEntry(i)
      ensures i <= |t.entries| && (IsValid() <==> i < |t.entries|)
      ensures i < |t.entries| ==> dataIter.key == t.entries[i].key && dataIter.Value() == t.entries[i].value
    {
      hide IsGood, BlockIterator.IsAtEntry, BlockIterator.IsGood;
      if IsValid() {
        BlockIsNotOver(i);
      }
    }

    method SkipEmptyDataBlocksBackward(ghost i: int)
      requires Valid()
      modifies this`dataIter, this`dataBlockHandle, this`corrupt, this`b, indexIter, dataIter
      ensures Valid() && (dataIter == null || dataIter == old(dataIter) || fresh(dataIter))
      ensures old(IsAfter(i)) ==> IsAtEntry(if i < 0 then |t.entries| else i)
    {
      hide IsTable, BlockIterator.IsGood, BlockIterator.Valid, BlockIterator.IsAtEntry, IsOfBlock;
      ghost var expected := IsAfter(i);
      while dataIter == null || !dataIter.IsValid()
        invariant Valid() && (dataIter == null || dataIter == old(dataIter) || fresh(dataIter))
        invariant expected ==> IsAfter(i)
        decreases if indexIter.IsValid() then 1 + indexIter.current else 0
      {
        if expected {
          BlockIsDone(i);
        }
        if !indexIter.IsValid() {
          SetDataIterator(null);
          return;
        }
        indexIter.Prev(b);
        b := if b == 0 then |indexIter.es| else b - 1;
        InitDataBlock();
        ToLastInBlock();
      }
      if expected {
        BlockIsNotDone(i);
      }
    }

    // The block has no entry left to go back to.
    lemma BlockIsDone(i: int)
      requires Valid() && IsAfter(i) && !IsValid()
      ensures IsTable(file, t) && (indexIter.IsValid() <==> b < |t.d.blocks|) && |indexIter.es| == |t.d.blocks|
      ensures (b == |t.d.blocks| ==> IsAtEntry(|t.entries|)) && BeginsAfter(t, b, i)
    {
      hide IsTable, BlockIterator.IsGood, BlockIterator.IsAtEntry, HandleBytes, InFile, KeysAscend, IsOfBlock;
      IndexEntry(file, t, b);
      if b > 0 {
        IndexEntry(file, t, b - 1);
      }
      indexIter.ShapeAt(b);
      if b < |t.d.blocks| {
        dataIter.ShapeAt(if i < t.d.begins[b] then |dataIter.es| else i - t.d.begins[b]);
      }
    }

    lemma BlockIsNotDone(i: int)
      requires Valid() && IsAfter(i) && IsValid()
      ensures i >= 0 && IsAtEntry(i)
    {
      hide IsTable, BlockIterator.IsGood, BlockIterator.IsAtEntry, HandleBytes, InFile, KeysAscend, IsOfBlock;
      IndexEntry(file, t, b);
      dataIter.ShapeAt(if i < t.d.begins[b] then |dataIter.es| else i - t.d.begins[b]);
    }

    // The index cursor has moved: goes on in the block it is at now.
    method MoveTo(ghost place: nat)
      requires Valid()
      modifies this`dataIter, this`dataBlockHandle, this`corrupt, this`b
      ensures Valid() && (dataIter == null || dataIter == old(dataIter) || fresh(dataIter))
      ensures old(IsPlaced(place)) ==>
                IsGood() && b == place && if b < |t.d.blocks| then dataIter != null && dataIter.es == t.d.blocks[b].es else dataIter == null
    {
      hide IsTable, BlockIterator.IsGood, BlockIterator.Valid, BlockIterator.IsAtEntry, IsOfBlock;
      b := place;
      InitDataBlock();
    }

    method Seek(target: seq<Byte>)
      requires Valid()
      modifies this`dataIter, this`dataBlockHandle, this`corrupt, this`b, indexIter, dataIter
      ensures Valid() && (dataIter == null || dataIter == old(dataIter) || fresh(dataIter))
      ensures old(IsGood()) ==> IsAtEntry(FirstAtLeast(t.entries, InternalLess, target))
    {
      hide IsTable, BlockIterator.IsGood, BlockIterator.Valid, BlockIterator.IsAtEntry, IsOfBlock, IsAtEntry, FirstAtLeast, InternalLess;
      ghost var expected := IsGood();
      if expected {
        AtIsGood(indexIter, b);
      }
      indexIter.Seek(target);
      MoveTo(FirstAtLeast(indexIter.es, InternalLess, target));
      if dataIter != null {
        dataIter.Seek(target);
        if expected {
          AtIsGood(dataIter, FirstAtLeast(dataIter.es, InternalLess, target));
        }
      }
      if expected {
        SeekPlace(file, t, target, b);
      }
      SkipEmptyDataBlocksForward(FirstAtLeast(t.entries, InternalLess, target));
    }

    method SeekToFirst()
      requires Valid()
      modifies this`dataIter, this`dataBlockHandle, this`corrupt, this`b, indexIter, dataIter
      ensures Valid() && (dataIter == null || dataIter == old(dataIter) || fresh(dataIter))
      ensures old(IsGood()) ==> IsAtEntry(0)
    {
      hide IsTable, BlockIterator.IsGood, BlockIterator.Valid, BlockIterator.IsAtEntry, IsOfBlock, IsAtEntry;
      ghost var expected := IsGood();
      if expected {
        AtIsGood(indexIter, b);
      }
      indexIter.SeekToFirst();
      MoveTo(0);
      ToFirstInBlock();
      if expected {
        IndexEntry(file, t, 0);
      }
      SkipEmptyDataBlocksForward(0);
    }

    // The place of the last entry, or 0.
    ghost function LastEntry(): nat {
      if t.entries == [] then 0 else |t.entries| - 1
    }

    // At the end of the last block, the last entry is next.
    lemma LastIsNext()
      requires Valid() && IsGood() && b == (if t.index.es == [] then 0 else |t.index.es| - 1)
      requires if b < |t.d.blocks| then
                 dataIter != null && dataIter.es == t.d.blocks[b].es && dataIter.IsAtEntry(if dataIter.es == [] then 0 else |dataIter.es| - 1)
               else dataIter == null
      ensures IsAfter(|t.entries| - 1)
    {
      hide IsTable, BlockIterator.IsGood, BlockIterator.Valid, BlockIterator.IsAtEntry, IsOfBlock;
      IndexEntry(file, t, b);
    }

    method SeekToLast()
      requires Valid()
      modifies this`dataIter, this`dataBlockHandle, this`corrupt, this`b, indexIter, dataIter
      ensures Valid() && (dataIter == null || dataIter == old(dataIter) || fresh(dataIter))
      ensures old(IsGood()) ==> IsAtEntry(LastEntry())
    {
      hide IsTable, BlockIterator.IsGood, BlockIterator.Valid, BlockIterator.IsAtEntry, IsOfBlock, IsAtEntry, IsAfter;
      ghost var expected := IsGood();
      if expected {
        AtIsGood(indexIter, b);
      }
      indexIter.SeekToLast();
      MoveTo(if indexIter.es == [] then 0 else |indexIter.es| - 1);
      ToLastInBlock();
      if expected {
        LastIsNext();
      }
      SkipEmptyDataBlocksBackward(|t.entries| - 1);
    }

    method Next(ghost i: nat)
      requires Valid() && IsValid()
      modifies this`dataIter, this`dataBlockHandle, this`corrupt, this`b, indexIter, dataIter
      ensures Valid() && (dataIter == null || dataIter == old(dataIter) || fresh(dataIter))
      ensures old(IsAtEntry(i)) ==> i < |t.entries| && IsAtEntry(i + 1)
    {
      hide IsTable, BlockIterator.IsGood, BlockIterator.Valid, BlockIterator.IsAtEntry, IsOfBlock;
      ghost var expected := IsAtEntry(i);
      ghost var j := 0;
      if expected {
        BlockIsNotOver(i);
        j := i - t.d.begins[b];
      }
      dataIter.Next(j);
      if expected {
        AtIsGood(dataIter, j + 1);
      }
      SkipEmptyDataBlocksForward(i + 1);
    }

    method Prev(ghost i: nat)
      requires Valid() && IsValid()
      modifies this`dataIter, this`dataBlockHandle, this`corrupt, this`b, indexIter, dataIter
      ensures Valid() && (dataIter == null || dataIter == old(dataIter) || fresh(dataIter))
      ensures old(IsAtEntry(i)) ==> IsAtEntry(if i == 0 then |t.entries| else i - 1)
    {
      hide IsTable, BlockIterator.IsGood, BlockIterator.Valid, BlockIterator.IsAtEntry, IsOfBlock;
      ghost var expected := IsAtEntry(i);
      ghost var j := 0;
      if expected {
        BlockIsNotOver(i);
        j := i - t.d.begins[b];
      }
      dataIter.Prev(j);
      if expected {
        AtIsGood(dataIter, if j == 0 then |dataIter.es| else j - 1);
      }
      SkipEmptyDataBlocksBackward(i - 1);
    }
  }

  // Entry `i` is the first behind block `b`, or behind all blocks.
  ghost predicate EndsAt(t: TableInfo, b: nat, i: nat) {
    && |t.d.begins| == |t.d.blocks| + 1 && t.d.begins[|t.d.blocks|] == |t.entries|
    && (if b < |t.d.blocks| then i == t.d.begins[b+1] else i == |t.entries|)
    && (b + 1 < |t.d.blocks| ==> t.d.begins[b+1] < t.d.begins[b+2])
  }

  // Entry `i` is the last before block `b`, if there is one.
  ghost predicate BeginsAfter(t: TableInfo, b: nat, i: int) {
    && |t.d.begins| == |t.d.blocks| + 1 && t.d.begins[0] == 0
    && (if b < |t.d.blocks| then i + 1 == t.d.begins[b] else i == -1)
    && (0 < b < |t.d.blocks| ==> t.d.begins[b-1] < t.d.begins[b] && |t.d.blocks[b-1].es| == t.d.begins[b] - t.d.begins[b-1])
  }

  lemma AtIsGood(it: BlockIterator, i: nat)
    requires it.IsAtEntry(i)
    ensures it.IsGood() && !it.corrupt
  {
  }

  // Where a search for `k` is in its block.
  lemma SeekPlace(file: seq<Byte>, t: TableInfo, k: seq<Byte>, b: nat)
    requires IsTable(file, t) && b == FirstAtLeast(t.index.es, InternalLess, k)
    ensures |t.index.es| == |t.d.blocks| && |t.d.begins| == |t.d.blocks| + 1
    ensures b == |t.d.blocks| ==> FirstAtLeast(t.entries, InternalLess, k) == |t.entries|
    ensures b < |t.d.blocks| ==>
              var j := FirstAtLeast(t.d.blocks[b].es, InternalLess, k);
              FirstAtLeast(t.entries, InternalLess, k) == t.d.begins[b] + j && t.d.begins[b] + j <= t.d.begins[b+1]
  {
    hide KeysAscend, IsFooter, FilterOk, InFile, InternalLess, BlockOk, IndexEntryOk;
    RoutesTo(file, t.entries, t.d, t.index.es, k, b);
    IndexEntry(file, t, b);
    if b < |t.d.blocks| {
      FoundInBlock(t.entries, t.d.begins[b], t.d.begins[b+1], k);
    }
  }

  // These are the entries of the block with this handle.
  ghost predicate IsOfBlock(t: TableInfo, es: seq<KeyValue>, handleValue: seq<Byte>) {
    exists c :: 0 <= c < |t.d.blocks| && es == t.d.blocks[c].es && handleValue == HandleBytes(t.d.blocks[c].handle)
  }

  lemma SameBlock(file: seq<Byte>, t: TableInfo, es: seq<KeyValue>, handleValue: seq<Byte>, b: nat)
    requires IsTable(file, t) && |file| < LIMIT64 && IsOfBlock(t, es, handleValue)
    requires b < |t.d.blocks| && handleValue == HandleBytes(t.d.blocks[b].handle)
    ensures es == t.d.blocks[b].es
  {
    hide KeysAscend, IndexOk, IsFooter, FilterOk, IsBlock, HandleBytes, Framed;
    var c :| 0 <= c < |t.d.blocks| && es == t.d.blocks[c].es && handleValue == HandleBytes(t.d.blocks[c].handle);
    assert BlockOk(file, t.entries, t.d, b) && BlockOk(file, t.entries, t.d, c);
    HandlesDiffer(t.d.blocks[b].handle, t.d.blocks[c].handle);
  }

  // What the index has at a block.
  lemma IndexEntry(file: seq<Byte>, t: TableInfo, b: nat)
    requires IsTable(file, t)
    ensures |t.index.es| == |t.d.blocks| && |t.d.begins| == |t.d.blocks| + 1 && t.d.begins[|t.d.blocks|] == |t.entries| && t.d.begins[0] == 0
    ensures b < |t.d.blocks| ==>
              && t.index.es[b].value == HandleBytes(t.d.blocks[b].handle) && InFile(file, t.d.blocks[b])
              && KeysAscend(t.d.blocks[b].es, InternalLess)
              && t.d.begins[b] < t.d.begins[b+1] <= |t.entries| && t.d.blocks[b].es == t.entries[t.d.begins[b]..t.d.begins[b+1]]
  {
    hide KeysAscend, InternalLess, IsFooter, FilterOk, InFile, HandleBytes, Divides;
    if b < |t.d.blocks| {
      assert BlockOk(file, t.entries, t.d, b) && IndexEntryOk(t.entries, t.d, t.index.es, b);
      SliceAscends(t.entries, t.d.begins[b], t.d.begins[b+1]);
    }
  }

  // ---- Whole tables

  method NewIterator(table: Table, verifyChecksums: bool, ghost t: TableInfo) returns (it: TwoLevelIterator?)
    requires table.Valid()
    ensures it != null ==> fresh(it) && fresh(it.indexIter) && it.Valid() && it.dataIter == null && it.t == t
    ensures table.Reads(t) ==> it != null && it.IsGood()
  {
    hide IsTable, IsBlock, KeysAscend, BlockIterator.IsGood, BlockIterator.Valid;
    if table.Reads(t) {
      table.IndexIsGood(t);
    }
    var ok, indexIter := BlockIterators.NewIterator(table.index, InternalLess, t.index.data, t.index.es, t.index.layout);
    if indexIter == null {
      return null;
    }
    it := new TwoLevelIterator(table.file, indexIter, verifyChecksums, t);
  }

  // All entries, in order.
  method ReadForward(it: TwoLevelIterator) returns (read: seq<KeyValue>)
    requires it.Valid() && it.IsGood() && it.dataIter == null
    modifies it, it.indexIter
    ensures read == it.t.entries
  {
    hide TwoLevelIterator.IsGood, TwoLevelIterator.IsAtEntry;
    it.SeekToFirst();
    read := [];
    it.WhereItIs(0);
    while it.IsValid()
      invariant it.Valid() && (it.dataIter == null || fresh(it.dataIter))
      invariant |read| <= |it.t.entries| && it.IsAtEntry(|read|) && read == it.t.entries[..|read|]
      invariant it.IsValid() == (|read| < |it.t.entries|)
      decreases |it.t.entries| - |read|
    {
      ghost var i := |read|;
      it.WhereItIs(i);
      read := read + [KeyValue(it.dataIter.key, it.dataIter.Value())];
      it.Next(i);
      it.WhereItIs(i + 1);
    }
  }

  // What was written is read again.
  method WriteAndRead(entries: seq<KeyValue>, blockSize: nat, restartInterval: nat, written: Blooms.FilterChoice, paranoid: bool)
    returns (file: seq<Byte>, read: seq<KeyValue>)
    requires restartInterval >= 1 && TableBound(entries) < LIMIT32
    requires KeysAscend(entries, InternalLess) && forall i | 0 <= i < |entries| :: |entries[i].key| >= 8
    ensures |file| < LIMIT64 ==> read == entries
  {
    hide KeysAscend, IsTable, InternalLess, TwoLevelIterator.IsGood;
    ghost var t;
    file, t := WriteTable(entries, blockSize, restartInterval, written);
    read := [];
    var table := Open(file, Blooms.NoFilter, paranoid, t);
    if table != null {
      var it := NewIterator(table, paranoid, t);
      if it != null && |file| < LIMIT64 {
        read := ReadForward(it);
      }
    }
  }
}
