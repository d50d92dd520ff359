// Replaying the bytes of a log: records, the batches in them, and the entries they stand for.

module LogBytes {
  import opened Bytes
  import opened InternalKeys
  import opened Versions
  import opened LogFormat
  import opened LogReaders
  import opened TableReads
  import opened Durability
  import opened LogReplay
  import GroupCommit
  import WriteBatches

  datatype Batch = Batch(sequence: nat, updates: seq<WriteBatches.Update>)

  // The record holds the batch, which has room below the largest sequence number.
  ghost predicate Encodes(record: seq<Byte>, b: Batch) {
    && 1 <= b.sequence && b.sequence + |b.updates| <= MAX_SEQUENCE
    && WriteBatches.IsBatchOf(record, b.sequence, b.updates)
  }

  // Each batch is numbered on from the one before.
  ghost predicate Consecutive(bs: seq<Batch>) {
    forall i | 0 <= i < |bs| - 1 :: bs[i+1].sequence == bs[i].sequence + |bs[i].updates|
  }

  // ---- Updates as operations; keys by their rank, values told apart by `text`

  function OpOf(text: seq<Byte> -> Value, u: WriteBatches.Update): GroupCommit.Op {
    match u
    case Put(key, value) => GroupCommit.Op(Rank(key), InternalKeys.Put, text(value))
    case Delete(key) => GroupCommit.Op(Rank(key), Deletion, "")
  }

  function OpsOf(text: seq<Byte> -> Value, us: seq<WriteBatches.Update>): (ops: seq<GroupCommit.Op>)
    ensures |ops| == |us|
  {
    seq(|us|, i requires 0 <= i < |us| => OpOf(text, us[i]))
  }

  // The entries of a batch are its operations, stamped as the writer queue stamps them.
  ghost function EntriesIn(text: seq<Byte> -> Value, b: Batch): (es: seq<Entry>)
    requires b.sequence + |b.updates| <= MAX_SEQUENCE
    ensures |es| == |b.updates|
  {
    GroupCommit.Stamped(OpsOf(text, b.updates), b.sequence)
  }

  // A put as a put and a deletion as a deletion, with consecutive numbers.
  lemma EntriesInAre(text: seq<Byte> -> Value, b: Batch, i: nat)
    requires b.sequence + |b.updates| <= MAX_SEQUENCE && i < |b.updates|
    ensures var e, u := EntriesIn(text, b)[i], b.updates[i];
            && e.key.user == Rank(u.key) && e.key.sequence == b.sequence + i
            && Reading(e) == if u.Put? then Some(text(u.value)) else None
  {
    hide Rank;
  }

  ghost function AllEntries(text: seq<Byte> -> Value, bs: seq<Batch>): seq<Entry>
    requires forall i | 0 <= i < |bs| :: bs[i].sequence + |bs[i].updates| <= MAX_SEQUENCE
  {
    if bs == [] then [] else AllEntries(text, bs[..|bs|-1]) + EntriesIn(text, bs[|bs|-1])
  }

  lemma {:induction false} EntriesRise(text: seq<Byte> -> Value, bs: seq<Batch>)
    requires forall i | 0 <= i < |bs| :: bs[i].sequence + |bs[i].updates| <= MAX_SEQUENCE
    requires Consecutive(bs)
    ensures Rising(AllEntries(text, bs))
    ensures bs != [] ==>
              var last := bs[|bs|-1];
              forall e | e in AllEntries(text, bs) :: e.key.sequence < last.sequence + |last.updates|
  {
    hide Rising, EntriesIn;
    NothingRises();
    if bs != [] {
      var init, last := bs[..|bs|-1], bs[|bs|-1];
      EntriesRise(text, init);
      BatchRises(text, last);
      assert init != [] ==> last.sequence == init[|init|-1].sequence + |init[|init|-1].updates|;
      BothRise(AllEntries(text, init), EntriesIn(text, last));
    }
  }

  lemma NothingRises()
    ensures Rising([])
  {
  }

  lemma BatchRises(text: seq<Byte> -> Value, b: Batch)
    requires b.sequence + |b.updates| <= MAX_SEQUENCE
    ensures Rising(EntriesIn(text, b))
    ensures forall e | e in EntriesIn(text, b) :: b.sequence <= e.key.sequence < b.sequence + |b.updates|
  {
    hide OpOf, Rank;
  }

  lemma BothRise(a: seq<Entry>, b: seq<Entry>)
    requires Rising(a) && Rising(b) && forall x, y | x in a && y in b :: x.key.sequence < y.key.sequence
    ensures Rising(a + b)
  {
    assert forall i | 0 <= i < |a| :: a[i] in a;
    assert forall i | 0 <= i < |b| :: b[i] in b;
  }

  // ---- One record

  // Numbered updates as entries. Expected, if anything: those of `b`.
  method StampUpdates(mem: seq<(nat, WriteBatches.Update)>, text: seq<Byte> -> Value, ghost b: Batch) returns (ok: bool, entries: seq<Entry>)
    ensures b.sequence + |b.updates| <= MAX_SEQUENCE && mem == WriteBatches.Numbered(b.sequence, b.updates) ==>
              ok && entries == EntriesIn(text, b)
  {
    hide Rank, EntriesIn, OpOf, GroupCommit.Stamp;
    ghost var expected := b.sequence + |b.updates| <= MAX_SEQUENCE && mem == WriteBatches.Numbered(b.sequence, b.updates);
    ok, entries := true, [];
    for i := 0 to |mem|
      invariant expected ==> ok && |mem| == |b.updates| && entries == EntriesIn(text, b)[..i]
    {
      var (sequence, update) := mem[i];
      if sequence > MAX_SEQUENCE {
        return false, entries;
      }
      if expected {
        NextEntry(text, b, i);
      }
      entries := entries + [GroupCommit.Stamp(OpOf(text, update), sequence)];
    }
    if expected {
      assert EntriesIn(text, b)[..|mem|] == EntriesIn(text, b);
    }
  }

  // A record that is too short for a batch, or is none, gives nothing more than what can be read
  // of it. Expected, if anything: `b`.
  method InsertRecord(record: seq<Byte>, text: seq<Byte> -> Value, ghost b: Batch) returns (ok: bool, entries: seq<Entry>)
    ensures Encodes(record, b) ==> ok && entries == EntriesIn(text, b)
  {
    hide WriteBatches.IsBatchOf, WriteBatches.Numbered, EntriesIn, Rank;
    ok, entries := false, [];
    if Encodes(record, b) {
      WriteBatches.BatchIsLong(record, b.sequence, b.updates);
      NothingBefore(WriteBatches.Numbered(b.sequence, b.updates));
    }
    if |record| < WriteBatches.HEADER {
      return;
    }
    var batch := new WriteBatches.WriteBatch();
    batch.SetContents(record, b.sequence, b.updates);
    var mem, below;
    ok, mem := batch.InsertInto([]);
    below, entries := StampUpdates(mem, text, b);
    ok := ok && below;
  }

  lemma NothingBefore(ns: seq<(nat, WriteBatches.Update)>)
    ensures [] + ns == ns
  {
  }

  lemma NextEntry(text: seq<Byte> -> Value, b: Batch, i: nat)
    requires b.sequence + |b.updates| <= MAX_SEQUENCE && i < |b.updates|
    ensures var es := EntriesIn(text, b);
            es[..i+1] == es[..i] + [GroupCommit.Stamp(OpOf(text, b.updates[i]), b.sequence + i)]
  {
    hide Rank, GroupCommit.Stamp, OpOf;
    var es := EntriesIn(text, b);
    assert es[..i+1] == es[..i] + [es[i]];
  }

  // ---- A whole log

  ghost predicate IsLogOf(rs: seq<seq<Byte>>, bs: seq<Batch>) {
    |rs| == |bs| && Consecutive(bs) && forall i | 0 <= i < |rs| :: Encodes(rs[i], bs[i])
  }

  lemma LogParts(rs: seq<seq<Byte>>, bs: seq<Batch>, k: nat)
    requires IsLogOf(rs, bs) && k <= |rs|
    ensures |rs| == |bs| && Consecutive(bs[..k])
    ensures forall i | 0 <= i < k :: Encodes(rs[i], bs[i]) && bs[..k][i] == bs[i] && bs[i].sequence + |bs[i].updates| <= MAX_SEQUENCE
  {
    hide WriteBatches.IsBatchOf;
  }

  // The file is a log cut off anywhere: the entries of the batches that are whole in it come back.
  method ReadEntries(file: seq<Byte>, text: seq<Byte> -> Value, ghost rs: seq<seq<Byte>>, ghost bs: seq<Batch>)
    returns (entries: seq<Entry>, reports: seq<Report>)
    requires file <= WrittenAll(0, rs) && IsLogOf(rs, bs)
    ensures reports == [] && Rising(entries)
    ensures var k := Whole(0, rs, |file|);
            && Whole(0, rs, |file|) <= |bs|
            && (forall i | 0 <= i < k :: bs[..k][i].sequence + |bs[..k][i].updates| <= MAX_SEQUENCE)
            && entries == AllEntries(text, bs[..k])
  {
    hide WrittenAll, Whole, IsLogOf, Encodes, Rising, EntriesIn, Consecutive;
    ghost var k := Whole(0, rs, |file|);
    LogParts(rs, bs, k);
    var records;
    records, reports := ReadLog(file, rs);
    entries := [];
    assert bs[..k][..0] == [];
    for i := 0 to |records|
      invariant |records| == k && entries == AllEntries(text, bs[..k][..i])
    {
      var ok, more := InsertRecord(records[i], text, bs[i]);
      assert bs[..k][..i+1][..i] == bs[..k][..i];
      entries := entries + more;
    }
    assert bs[..k][..k] == bs[..k];
    EntriesRise(text, bs[..k]);
  }

  // Replays the bytes of a log into tables: they hold exactly the operations of a prefix of the
  // batches that were written to it, all those whose records are whole.
  method ReplayLog(file: seq<Byte>, text: seq<Byte> -> Value, nextFile: nat, maxSequence: SequenceNumber,
                   ghost rs: seq<seq<Byte>>, ghost bs: seq<Batch>)
    returns (tables: seq<File>, next: nat, max: SequenceNumber)
    requires file <= WrittenAll(0, rs) && IsLogOf(rs, bs)
    ensures var k := Whole(0, rs, |file|);
            && Whole(0, rs, |file|) <= |bs|
            && (forall i | 0 <= i < k :: bs[..k][i].sequence + |bs[..k][i].updates| <= MAX_SEQUENCE)
            && nextFile <= next && HoldExactly(tables, AllEntries(text, bs[..k]), nextFile, next)
            && IsMaxSequence(max, maxSequence, AllEntries(text, bs[..k]))
  {
    hide WrittenAll, Whole, IsLogOf, Rising, AllEntries, HoldExactly, IsMaxSequence;
    var entries, reports := ReadEntries(file, text, rs, bs);
    tables, next, max := RecoverLogFile(entries, nextFile, maxSequence);
  }

  // ---- Writing it

  // Writes batches as records, one after another.
  method WriteBatchesTo(contents: seq<Byte>, batches: seq<Batch>) returns (bytes: seq<Byte>, ghost rs: seq<seq<Byte>>)
    requires Consecutive(batches)
    requires forall b | b in batches ::
               1 <= b.sequence && b.sequence + |b.updates| <= MAX_SEQUENCE && |b.updates| <= WriteBatches.MAX_COUNT
               && forall i | 0 <= i < |b.updates| :: WriteBatches.UpdateFits(b.updates[i])
    ensures IsLogOf(rs, batches) && bytes == contents + WrittenAll(|contents|, rs)
  {
    hide WrittenAll, Written, WriteBatches.IsBatchOf, WriteBatches.UpdateFits, Consecutive;
    var records: seq<seq<Byte>> := [];
    for i := 0 to |batches|
      invariant |records| == i && forall j | 0 <= j < i :: Encodes(records[j], batches[j])
    {
      assert batches[i] in batches;
      var record := BatchBytes(batches[i]);
      records := records + [record];
    }
    bytes := WriteLog(contents, records);
    rs := records;
  }

  method BatchBytes(b: Batch) returns (record: seq<Byte>)
    requires b.sequence + |b.updates| <= MAX_SEQUENCE && |b.updates| <= WriteBatches.MAX_COUNT
    requires forall i | 0 <= i < |b.updates| :: WriteBatches.UpdateFits(b.updates[i])
    ensures WriteBatches.IsBatchOf(record, b.sequence, b.updates)
  {
    hide WriteBatches.IsBatchOf;
    var batch := new WriteBatches.WriteBatch();
    for i := 0 to |b.updates|
      invariant batch.Valid() && batch.updates == b.updates[..i] && fresh(batch)
    {
      match b.updates[i] {
        case Put(key, value) => batch.Put(key, value);
        case Delete(key) => batch.Delete(key);
      }
    }
    assert b.updates[..|b.updates|] == b.updates;
    batch.SetSequence(b.sequence);
    record := batch.rep;
  }

  // What was written and cut off anywhere replays as a prefix of the batches.
  method WriteAndReplay(batches: seq<Batch>, size: nat, text: seq<Byte> -> Value) returns (entries: seq<Entry>, ghost rs: seq<seq<Byte>>, ghost k: nat)
    requires Consecutive(batches)
    requires forall b | b in batches ::
               1 <= b.sequence && b.sequence + |b.updates| <= MAX_SEQUENCE && |b.updates| <= WriteBatches.MAX_COUNT
               && forall i | 0 <= i < |b.updates| :: WriteBatches.UpdateFits(b.updates[i])
    ensures k <= |batches| && IsLogOf(rs, batches)
    ensures forall i | 0 <= i <= |rs| :: i <= k <==> |WrittenAll(0, rs[..i])| <= size
    ensures forall i | 0 <= i < k :: batches[..k][i] in batches
    ensures entries == AllEntries(text, batches[..k])
  {
    hide WrittenAll, Whole, IsLogOf, AllEntries, Consecutive, WriteBatches.UpdateFits, Rising;
    assert forall i | 0 <= i < |batches| :: batches[i] in batches;
    var bytes;
    bytes, rs := WriteBatchesTo([], batches);
    assert bytes == WrittenAll(0, rs);
    LogLength(rs, batches);
    var file := if size < |bytes| then bytes[..size] else bytes;
    var reports;
    k := Whole(0, rs, |file|);
    forall i | 0 <= i <= |rs|
      ensures i <= k <==> |WrittenAll(0, rs[..i])| <= size
    {
      WholeIsWrittenOut(0, rs, |file|, i);
      PrefixIsShorter(rs, i);
    }
    entries, reports := ReadEntries(file, text, rs, batches);
  }

  lemma LogLength(rs: seq<seq<Byte>>, bs: seq<Batch>)
    requires IsLogOf(rs, bs)
    ensures |rs| == |bs|
  {
  }

  lemma PrefixIsShorter(rs: seq<seq<Byte>>, i: nat)
    requires i <= |rs|
    ensures |WrittenAll(0, rs[..i])| <= |WrittenAll(0, rs)|
  {
    hide WrittenAll;
    assert rs[..i] + rs[i..] == rs;
    WrittenAllBoth(0, rs[..i], rs[i..]);
  }
}
