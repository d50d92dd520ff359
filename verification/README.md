# LevelDB and nanopb, modelled and proved

This project models the two libraries at the core of what the iOSGame application vendors. Of
LevelDB (`iOSGame/Pods/leveldb-library`) it proves what it is for: that a read returns the last
value written at or before its sequence number, whatever flushes, compactions, crashes and
recoveries happened in between. Of nanopb (`iOSGame/Pods/nanopb`) it proves that a message of any
schema that is encoded is decoded to the same message, and that the size computed beforehand is
the size written.

The layers, from the bottom up; each is proved against what the one above needs of it.

| files | what they model |
|---|---|
| `Bytes`, `Crc32c`, `LogFormat`, `LogReaders` | bytes, the checksum and its strided loop, the log format, its writer and its reader |
| `Coding`, `KeyOrders` | numbers and strings as bytes; key orders and the short keys between two keys |
| `Blocks`, `BlockIterators`, `Blooms`, `Filters` | prefix-compressed blocks and the cursor over them; Bloom filters and the filter block |
| `TableFormat`, `TableBuilders`, `Tables`, `TwoLevelIterators` | table files: writing, opening, searching, and the cursor over a whole table |
| `EditFormat`, `WriteBatches` | the bytes of manifest edits and of write batches |
| `InternalKeys` | internal keys, their order, and what a read at a sequence number means |
| `SkipLists`, `SkipListReaders` | the memtable's list: its operations, and every interleaving of one writer's stores with a reader's loads |
| `LruLists`, `HandleTables`, `LruCaches` | one shard of the block cache: intrusive lists, hash table, reference counts |
| `MergingIterators`, `DbIterators`, `LiveIterators` | the two-direction cursors over sorted children and over the visible map, and the scan of a database with them |
| `Versions`, `VersionEdits` | levelled table files, the read path over them, edits and the builder |
| `CompactionInputs`, `MemTableOutput`, `Compactions`, `MergeResults` | choosing compaction inputs and flush levels, and the merge loop |
| `TableReads` | a read of a table's bytes is the search of its entries |
| `LevelInvariants`, `MergeHazards` | what flushes, moves and merges keep, the cases in which they do not, and the exact conditions |
| `Database`, `DbImpl` | the database as a state machine with the theorems over all its runs, and the object whose methods take its steps |
| `CoveredRuns`, `CarefulRuns`, `CarefulWorlds` | the run theorems under weaker conditions, and under conditions on files |
| `HazardRuns`, `GapRuns` | for each of the two conditions a run that meets only the other and ends in a wrong read |
| `GroupCommit`, `Commits` | the writer queue under all interleavings of its writers, and on top of the logs through crashes and recoveries |
| `Manifests` | the manifest as a list of edits, its snapshot and its replay |
| `Durability`, `Recovery`, `LogReplay` | logs, manifest, background tasks, garbage collection, crashes and recovery, with the theorems over all runs |
| `LogBytes`, `ManifestBytes` | replaying the bytes of logs and manifests is replaying the entries and edits written to them |
| `PbFormat`, `PbRecords`, `PbEncode`, `PbDecode` | messages by schema and their bytes; messages as records in any order; encoding; decoding and the round trip |

`dafny verify dfyconfig.toml` checks the whole project.

How things are represented:

- In tables, keys and values are bytes, and the user comparator is the bytewise one. Above them, a
  user key is its position under the user comparator, a real number. Keys are byte strings, so
  there are countably many, and every total order on a countable set embeds into the reals: what
  is proved for all reals holds for every comparator. The keys of the skip list are represented the
  same way. Values are strings there.
- Above the tables, a table file is its metadata together with the sorted entries in it; `TableReads`
  proves that searching the file's bytes is searching those entries.
- Sequence numbers are bounded by 2^56 - 1 as in the source. A run is assumed to stay below the
  bound: a write that would reach it is not a step.
- The disk is the edits of the manifest and the numbers of its last record, the numbers of the
  tables that exist, and the entries of each log. A torn last record of a log is no record, which is
  what `LogReaders` proves of the reader; the manifest is a log too.
- Scheduling is free: any enabled step may come next. Clients write, read, pin versions and take
  snapshots at any time. Background work is done by tasks that the scheduled flag keeps to one; a
  task goes through the phases that the code's task does, giving up the lock in the same ones, and
  that nothing is removed while a version is being installed is proved, not assumed. Level scores,
  compaction pointers, sleeps and memory sizes choose among steps, so they are left open.
- A nanopb schema is the table of fields that the generator emits, and a message is a value per
  field in place of a C structure. Sizes are those of a build with 32-bit fields.

Five findings, each proved:

- A merge can bring back a deleted value. The boundary files that keep a user key together are
  added for the upper level only (`db/version_set.cc:1407`, `db/version_set.cc:1422`). If the output
  level has a deletion at the end of a chosen file and the put it hides at the start of the next,
  unchosen one, the deletion is dropped as if nothing lay below it. `MergePreservesReads` says
  exactly when reads change, and `DeletedKeyComesBack` is a run from the empty database, every step
  by its own rules, at whose end a deleted key reads as its old value. `CarefulIsHarmless` gives a
  condition on the chosen files that rules it out, and `EveryCarefulReadIsOfTheHistory` and
  `CarefulHoldingsReadAsLogged` the run theorems under it. The runs of `Database` and `Durability` take only merges that resurrect nothing.
- A flush that runs inside a manual compaction can land between its inputs, because `CompactRange`
  may choose inputs with a gap between them above level 0 (`db/version_set.cc:1464-1487`); the level
  then has overlapping files (`FlushIntoGapOverlaps`), and `FlushedKeyIsLost` is a run from the empty
  database at whose end a live key is not found. `FlushesStayOutside` says exactly when: flushes
  stay clear of a merge if and only if the gaps between its inputs are covered by files at or above
  the output level, or the output level is too deep for a flush. What `PickCompaction` chooses never
  has a gap. The runs take exactly the merges whose gaps are covered;
  `EveryCoveredVersionIsValid` shows that nothing more is needed for valid versions.
- A request to switch the memtable (a write without a batch) that waits behind a batch can be served
  as part of that batch's group and return although nothing was switched (`RequestIsSwallowed`).
  `SwallowedIfJoined` says exactly when, in terms of the queue at the choice of a group;
  `LoneRequestSwitches` proves that a request entering an empty queue is never lost that way.
- The merge loop marks "no entry of this key yet" with the largest sequence number. Were the
  oldest snapshot that number, nothing at all would be kept: `NewestPutIsKept` says that the newest
  put of a key is kept if and only if it is smaller, which every run guarantees.
- Clearing an edit leaves its compaction pointers (`db/version_edit.cc:26-39`), so decoding into an
  edit that was used before adds to them. `ItemsRestore` says what results in every case.

## Model

| member | source | states |
|---|---|---|
| InternalKeys.LessIsStrictTotalOrder | iOSGame/Pods/leveldb-library/db/dbformat.cc:51-67 | the comparator orders internal keys totally: user keys up, packed sequence and kind down, and only equal keys compare equal |
| InternalKeys.SeekSplits | iOSGame/Pods/leveldb-library/db/memtable.cc:100-134 | a seek in a sorted run lands on the one index that separates the keys before the target from the rest |
| InternalKeys.LookupIs | iOSGame/Pods/leveldb-library/db/dbformat.h:178-214 | a read at a sequence number returns the entry of the key with the largest sequence number not above it, and nothing for a deletion |
| Versions.SearchFindsNewest | iOSGame/Pods/leveldb-library/db/memtable.cc:100-134 | the seek of a lookup key in a sorted run finds the newest visible entry of the user key, or there is none |
| Versions.FindFile | iOSGame/Pods/leveldb-library/db/version_set.cc:88-106 | binary search returns the first file whose largest key is not below the target |
| Versions.OneFileDecides | iOSGame/Pods/leveldb-library/db/version_set.cc:326-421 | in a sorted level the single file found by binary search holds the newest visible entry, also when the user key is split across adjacent files |
| Versions.NewestFirst | iOSGame/Pods/leveldb-library/db/version_set.cc:345-362 | the overlapping level-0 files are tried by descending number, none lost and none added |
| Versions.SearchLevel0 | iOSGame/Pods/leveldb-library/db/version_set.cc:345-372 | the first level-0 file, newest first, that has an answer has the answer of the whole level |
| Versions.SearchSortedLevel | iOSGame/Pods/leveldb-library/db/version_set.cc:373-421 | one file per level answers for the level and everything below it |
| Versions.Get | iOSGame/Pods/leveldb-library/db/version_set.cc:326-421 | reading level by level gives the newest visible entry of all levels, or reports that there is none |
| Database.GetEntry | iOSGame/Pods/leveldb-library/db/db_impl.cc:1100-1145 | memtable, then immutable memtable, then tables: the first that answers has the newest visible entry of all three |
| Database.Get | iOSGame/Pods/leveldb-library/db/db_impl.cc:1100-1145 | a read of any structurally sound state equals the flat definition of a read over every live entry |
| DbImpl.DbImpl.Get | iOSGame/Pods/leveldb-library/db/db_impl.cc:1100-1145 | the same for the database object, which a read leaves as it is |
| MergingIterators.MergingIterator.FindSmallest | iOSGame/Pods/leveldb-library/table/merger.cc:148-161 | the current child is one that holds the least key of all valid children |
| MergingIterators.MergingIterator.FindLargest | iOSGame/Pods/leveldb-library/table/merger.cc:163-176 | the current child is one that holds the greatest key of all valid children |
| MergingIterators.MergingIterator.SeekToFirst | iOSGame/Pods/leveldb-library/table/merger.cc:31-37 | the iterator stands on the least entry of the union of its children |
| MergingIterators.MergingIterator.SeekToLast | iOSGame/Pods/leveldb-library/table/merger.cc:39-45 | the iterator stands on the greatest entry of the union |
| MergingIterators.MergingIterator.Seek | iOSGame/Pods/leveldb-library/table/merger.cc:47-53 | the iterator stands on the first entry of the union at or after the target |
| MergingIterators.MergingIterator.Next | iOSGame/Pods/leveldb-library/table/merger.cc:55-79 | from any position, also just after moving backward, the iterator moves to the next entry of the union |
| MergingIterators.MergingIterator.Prev | iOSGame/Pods/leveldb-library/table/merger.cc:81-108 | from any position, also just after moving forward, the iterator moves to the previous entry of the union |
| DbIterators.ShowsFirstIsLeastReading | iOSGame/Pods/leveldb-library/db/db_iter.cc:168-198 | the first key shown within a bound is the least user key whose read at the sequence number gives a value, with that value |
| DbIterators.ShowsLastIsGreatestReading | iOSGame/Pods/leveldb-library/db/db_iter.cc:227-267 | the last key shown within a bound is the greatest user key whose read gives a value, with that value |
| DbIterators.DbIterator.FindNextUserEntry | iOSGame/Pods/leveldb-library/db/db_iter.cc:168-198 | the scan ends on the first visible user key within the bound, passing later versions, hidden versions and deletions |
| DbIterators.DbIterator.FindPrevUserEntry | iOSGame/Pods/leveldb-library/db/db_iter.cc:227-267 | the backward scan saves the newest visible version of the last visible user key within the bound |
| DbIterators.DbIterator.Seek | iOSGame/Pods/leveldb-library/db/db_iter.cc:269-281 | the iterator shows the first visible user key at or after the target |
| DbIterators.DbIterator.SeekToFirst | iOSGame/Pods/leveldb-library/db/db_iter.cc:283-292 | the iterator shows the first visible user key |
| DbIterators.DbIterator.SeekToLast | iOSGame/Pods/leveldb-library/db/db_iter.cc:294-299 | the iterator shows the last visible user key |
| DbIterators.DbIterator.Next | iOSGame/Pods/leveldb-library/db/db_iter.cc:141-166 | from any position and direction the iterator moves to the next visible user key |
| DbIterators.DbIterator.Prev | iOSGame/Pods/leveldb-library/db/db_iter.cc:200-225 | from any position and direction the iterator moves to the previous visible user key |
| LiveIterators.AddIterators | iOSGame/Pods/leveldb-library/db/version_set.cc:230-246 | one child per level-0 file and one per sorted level with files: sorted runs that share no entry and hold exactly what the version holds |
| LiveIterators.NewInternalIterator | iOSGame/Pods/leveldb-library/db/db_impl.cc:1062-1089 | the merging iterator over memtable, immutable memtable and files ranges over exactly the live entries |
| LiveIterators.NewIterator | iOSGame/Pods/leveldb-library/db/db_impl.cc:1147-1158 | the iterator a client gets ranges over the live entries at its snapshot, or at the last published sequence number |
| LiveIterators.Scan | iOSGame/Pods/leveldb-library/db/db_iter.cc:283-292 | iterating from the first key on gives every user key that reads a value at the sequence number, once, ascending, with that value, and no other |
| CompactionInputs.GetOverlappingInputs | iOSGame/Pods/leveldb-library/db/version_set.cc:519-559 | above level 0: exactly the files overlapping the range; at level 0 the loop ends and returns exactly the files overlapping the least range closed under overlap |
| CompactionInputs.OverlapsShares | iOSGame/Pods/leveldb-library/db/version_set.cc:519-559 | a file overlaps a range exactly if some user key is in both |
| CompactionInputs.FindLargestKey | iOSGame/Pods/leveldb-library/db/version_set.cc:1326-1341 | the greatest largest key among the files |
| CompactionInputs.FindSmallestBoundaryFile | iOSGame/Pods/leveldb-library/db/version_set.cc:1344-1366 | the least file that begins after the largest key with its user key, if there is one |
| CompactionInputs.AddBoundaryInputs | iOSGame/Pods/leveldb-library/db/version_set.cc:1378-1401 | the loop ends; the chosen files grow by exactly the chain of boundary files, each the least file that continues the last user key so far, until no file does |
| CompactionInputs.WiderSelectsMore | iOSGame/Pods/leveldb-library/db/version_set.cc:1417-1434 | a wider range selects a superset of the files |
| CompactionInputs.Grow | iOSGame/Pods/leveldb-library/db/version_set.cc:1417-1447 | the upper inputs grow to everything at their level that the merge touches anyway exactly if that is more files, the lower inputs stay the same and all together are below 25 times the file size limit; otherwise they stay what they were |
| CompactionInputs.GrowsIfCheap | iOSGame/Pods/leveldb-library/db/version_set.cc:1417-1447 | the same, said of any larger choice: it is taken if and only if it costs less than the limit and brings no other lower file along |
| CompactionInputs.SizesAdd | iOSGame/Pods/leveldb-library/db/version_set.cc:60-66 | the size of files is the sum of theirs |
| CompactionInputs.SetupOtherInputs | iOSGame/Pods/leveldb-library/db/version_set.cc:1403-1462 | the starting files are completed by their boundary files, the lower files that their range overlaps are taken, more is taken along when that is cheap, and the grandparents are the files two levels down that overlap all of it; no older entry stays behind and there is no gap |
| CompactionInputs.PickCompaction | iOSGame/Pods/leveldb-library/db/version_set.cc:1270-1322 | the file charged with seeks is taken in, or else the first file whose largest key is behind the compaction pointer, or the first of all; the compaction is set up from it (at level 0, with what overlaps it) and covers its range without gaps |
| CompactionInputs.CompactRange | iOSGame/Pods/leveldb-library/db/version_set.cc:1464-1495 | nothing is chosen exactly if nothing overlaps the range; otherwise what overlaps it is taken, above level 0 no further than the first file with which the size limit is reached, and what is not taken comes after the last file taken |
| CompactionInputs.ManualRest | iOSGame/Pods/leveldb-library/db/version_set.cc:1464-1495 | at level 0 everything that overlaps the range is taken in, above it whatever is not begins behind the last file taken in |
| CompactionInputs.ClosureIsGapless | iOSGame/Pods/leveldb-library/db/version_set.cc:519-559 | the closure of a range at level 0 leaves no gap between the files chosen |
| MemTableOutput.SomeFileOverlapsRange | iOSGame/Pods/leveldb-library/db/version_set.cc:122-157 | true exactly when some file overlaps the range, by scan or by binary search |
| MemTableOutput.PickLevelForMemTableOutput | iOSGame/Pods/leveldb-library/db/version_set.cc:491-516 | the level is the only one that goes down from 0 as long as nothing at it and at the next level overlaps and the files two levels down that overlap are not larger than ten times the file size limit, and no further than 2 |
| MemTableOutput.OutputLevelIsUnique | iOSGame/Pods/leveldb-library/db/version_set.cc:491-516 | there is exactly one such level, and it is 2 if no file is in the way |
| Compactions.BaseLevelScan.IsBaseLevelForKey | iOSGame/Pods/leveldb-library/db/version_set.cc:1533-1552 | with user keys asked in ascending order, the pointers that only move forward answer what a full search of the deeper levels would |
| Compactions.GrandparentScan.ShouldStopBefore | iOSGame/Pods/leveldb-library/db/version_set.cc:1554-1576 | with keys asked about in order, the answer is yes exactly if the grandparents that end at or after the first key since the last stop and before this key are larger together than the limit |
| Compactions.DropDecision | iOSGame/Pods/leveldb-library/db/db_impl.cc:944-985 | what the loop knows from the entry just before decides exactly whether a newer entry at or below the oldest snapshot hides this one |
| Compactions.DoCompactionWork | iOSGame/Pods/leveldb-library/db/db_impl.cc:890-999 | the output runs are, in order, exactly the entries that no newer input entry at or below the oldest snapshot hides and that are no deletion there with nothing below the output level; of a user key at most one entry at or below the snapshot is left; no run lies over more of the grandparents than the limit |
| Compactions.KeptIsMerged | iOSGame/Pods/leveldb-library/db/db_impl.cc:944-985 | what the decisions of the loop keep is this result, said of the entries alone |
| Compactions.MergedLeavesOne | iOSGame/Pods/leveldb-library/db/db_impl.cc:944-985 | of such a result: what is missing is hidden by a newer input entry at or below the snapshot, or is a deletion there that no file below covers, and everything of that kind is missing |
| Compactions.MergePreservesReads | iOSGame/Pods/leveldb-library/db/db_impl.cc:890-999 | every read at or above the oldest snapshot is unchanged by the merge if and only if no merged-away deletion was hiding a put outside the merge |
| Compactions.ResurrectedReadChanges | iOSGame/Pods/leveldb-library/db/db_impl.cc:961-970 | if one was, the key reads as absent before the merge and as the old value after it |
| MergeResults.ReadAll | iOSGame/Pods/leveldb-library/db/db_impl.cc:898-910 | reading a merging iterator to the end yields every entry once, in order |
| MergeResults.MergeOutputIs | iOSGame/Pods/leveldb-library/db/db_impl.cc:890-999 | the output tables hold exactly the entries of the inputs that are not dropped |
| MergeResults.MergeOutputFits | iOSGame/Pods/leveldb-library/db/db_impl.cc:811-858 | output tables hold input entries only and do not overlap each other |
| MergeHazards.ResurrectionNeedsSplit | iOSGame/Pods/leveldb-library/db/version_set.cc:1407-1422 | a chosen compaction can bring back an old value only for a user key split between a chosen and an unchosen file of the output level |
| MergeHazards.LeavingNewerResurrectsNothing | iOSGame/Pods/leveldb-library/db/version_set.cc:1407-1422 | a chosen compaction whose unchosen files of the output level hold only newer entries of shared keys brings nothing back |
| MergeHazards.SplitDeletionIsResurrected | iOSGame/Pods/leveldb-library/db/version_set.cc:1407-1422 | a sound version and a well chosen compaction of it after which a deleted key reads as its old value |
| MergeHazards.FlushIntoGapOverlaps | iOSGame/Pods/leveldb-library/db/version_set.cc:1464-1487 | a sound version, a manual compaction with an uncovered gap and a memtable flushed into the gap while it runs, after which a level has overlapping files |
| MergeHazards.FlushesStayOutside | iOSGame/Pods/leveldb-library/db/version_set.cc:491-516 | for a chosen compaction: every table that a flush may put on the output level lies before or after all inputs if and only if files at or above the output level cover every gap between the inputs, or the output level is below the levels a flush goes to |
| MergeHazards.NewestPutIsKept | iOSGame/Pods/leveldb-library/db/db_impl.cc:944-985 | the newest put of a key is kept by a merge if and only if the oldest snapshot is below the largest sequence number, at which nothing is kept |
| VersionEdits.OrderedIsUnique | iOSGame/Pods/leveldb-library/db/version_set.cc:589-604 | two ordered levels with the same files are the same level |
| VersionEdits.InsertOrdered | iOSGame/Pods/leveldb-library/db/version_set.cc:589-606 | the added set stays ordered and takes a file unless it has an equivalent one |
| VersionEdits.SaveLevel | iOSGame/Pods/leveldb-library/db/version_set.cc:695-755 | merging base and added files gives the ordered level of all of them that are not deleted |
| VersionEdits.Builder.Apply | iOSGame/Pods/leveldb-library/db/version_set.cc:650-692 | an edit marks its deletions and then adds its files, taking back their deletion marks |
| VersionEdits.Builder.SaveTo | iOSGame/Pods/leveldb-library/db/version_set.cc:695-755 | the saved version is the base with everything pending applied, level by level |
| VersionEdits.ReplayEqualsHistory | iOSGame/Pods/leveldb-library/db/version_set.cc:933-968 | one builder over all edits of a manifest saves the same version as applying them one version at a time, if no file is added to a level twice |
| Manifests.SnapshotIsManifest | iOSGame/Pods/leveldb-library/db/version_set.cc:1088-1116 | a manifest that starts with the snapshot of a version leads to that version and names each of its files once |
| Manifests.ManifestGrows | iOSGame/Pods/leveldb-library/db/version_set.cc:845-852 | a record that puts no number back on a level extends what the manifest leads to by its edit |
| Manifests.SettledGrows | iOSGame/Pods/leveldb-library/db/version_set.cc:845-852 | after a record whose files are new or move down, every number named stays old and its file never lies above where a record put it |
| Manifests.ReplayManifest | iOSGame/Pods/leveldb-library/db/version_set.cc:926-998 | replaying the manifest into one builder, from no files, gives exactly the version its edits led to |
| ManifestBytes.DecodeEdit | iOSGame/Pods/leveldb-library/db/version_set.cc:933-947 | the bytes of a record give the edit that they describe |
| ManifestBytes.RecoverVersion | iOSGame/Pods/leveldb-library/db/version_set.cc:886-998 | replaying the bytes of a manifest cut off anywhere gives the version that its whole records lead to |
| ManifestBytes.WriteAndRecover | iOSGame/Pods/leveldb-library/db/version_set.cc:845-852 | edits written to a manifest and read back lead to its version |
| LevelInvariants.SoundIsValid | iOSGame/Pods/leveldb-library/db/version_set.cc:326-421 | the invariant of versions implies what the read path needs: levels sorted and disjoint, newer entries higher up |
| LevelInvariants.EditMembers | iOSGame/Pods/leveldb-library/db/version_set.cc:650-755 | what one edit of fresh numbers leaves in each level |
| LevelInvariants.FlushKeepsSound | iOSGame/Pods/leveldb-library/db/db_impl.cc:491-533 | adding a flushed table at the picked level keeps the invariant and adds exactly its entries |
| LevelInvariants.FlushedIsOutside | iOSGame/Pods/leveldb-library/db/db_impl.cc:908-917 | a table flushed to the output level while a merge with covered gaps runs lies before or after all of its inputs |
| LevelInvariants.FlushKeepsMergeable | iOSGame/Pods/leveldb-library/db/db_impl.cc:908-917 | a flush in the middle of a merge with covered gaps leaves the merge installable and its gaps covered |
| LevelInvariants.WellChosenIsMergeable | iOSGame/Pods/leveldb-library/db/version_set.cc:1403-1462 | a well chosen compaction of a sound version meets what installing its result needs |
| LevelInvariants.ReplaceKeepsSound | iOSGame/Pods/leveldb-library/db/db_impl.cc:860-876 | replacing the inputs by outputs made of their entries keeps levels sorted, disjoint and ordered by age, and the entries outside as they were |
| LevelInvariants.MergeEditReplaces | iOSGame/Pods/leveldb-library/db/db_impl.cc:860-876 | the edit of a merge removes its inputs and adds its outputs, nothing else |
| LevelInvariants.MoveEditReplaces | iOSGame/Pods/leveldb-library/db/db_impl.cc:718-728 | a trivial move is a merge whose output is its input |
| Database.InsertKeepsInv | iOSGame/Pods/leveldb-library/db/memtable.cc:74-98 | adding the next entry to the memtable keeps the invariant of runs |
| Database.FlushKeepsInv | iOSGame/Pods/leveldb-library/db/db_impl.cc:535-566 | a flush keeps it |
| Database.MoveKeepsInv | iOSGame/Pods/leveldb-library/db/db_impl.cc:718-728 | a trivial move keeps it |
| Database.BeginMergeKeepsInv | iOSGame/Pods/leveldb-library/db/db_impl.cc:878-888 | fixing the oldest snapshot and the base version of a merge that resurrects nothing and has covered gaps keeps it |
| Database.FinishMergeKeepsInv | iOSGame/Pods/leveldb-library/db/db_impl.cc:860-876 | installing the result keeps it, whatever was written, flushed or released in between |
| Database.StepKeepsInv | iOSGame/Pods/leveldb-library/db/db_impl.cc:688-767 | every step keeps it |
| Database.EveryReadIsOfTheHistory | iOSGame/Pods/leveldb-library/db/db_impl.cc:1100-1145 | in every run, a read at the last sequence number or at a held snapshot returns what a read of everything ever written returns |
| Database.EveryVersionIsValid | iOSGame/Pods/leveldb-library/db/version_set.cc:702-755 | in every run, the current version is sorted, disjoint and ordered by age |
| CoveredRuns.EveryCoveredVersionIsValid | iOSGame/Pods/leveldb-library/db/version_set.cc:702-755 | for that, covered gaps are enough: versions are valid in runs whose merges may bring something back, and a merge under way stays installable |
| CoveredRuns.StepKeeps | iOSGame/Pods/leveldb-library/db/db_impl.cc:688-767 | every step keeps the invariant behind this |
| CarefulRuns.CarefulIsHarmless | iOSGame/Pods/leveldb-library/db/version_set.cc:1403-1462 | a chosen compaction whose unchosen files of the output level hold only newer entries of shared keys resurrects nothing in the whole state, memtables and other levels included |
| CarefulRuns.NoSplitIsHarmless | iOSGame/Pods/leveldb-library/db/version_set.cc:1403-1462 | in particular one that splits no user key between a chosen and an unchosen file of the output level |
| CarefulRuns.EveryCarefulReadIsOfTheHistory | iOSGame/Pods/leveldb-library/db/db_impl.cc:1100-1145 | the run theorem with that condition on files in place of the one on entries: reads are of the history and versions are valid |
| HazardRuns.DeletedKeyComesBack | iOSGame/Pods/leveldb-library/db/db_impl.cc:890-999 | a run from the empty database, of writes, flushes at the levels picked for them and merges of chosen inputs with covered gaps, at whose end a deleted key reads as its old value |
| GapRuns.FlushedKeyIsLost | iOSGame/Pods/leveldb-library/db/version_set.cc:1464-1487 | a run from the empty database, of puts, flushes at the levels picked for them and a manual compaction that resurrects nothing, at whose end a level has overlapping files and the file that a lookup comes to has nothing of a key that is live |
| DbImpl.ApplyEdit | iOSGame/Pods/leveldb-library/db/version_set.cc:801-830 | the new version is the current one with the edit applied |
| DbImpl.DbImpl.Insert | iOSGame/Pods/leveldb-library/db/memtable.cc:74-98 | a read of the key at the new sequence number finds the entry, every read below that number is what it was, and the object stays valid |
| DbImpl.DbImpl.GetSnapshot | iOSGame/Pods/leveldb-library/db/db_impl.cc:1166-1169 | the snapshot is held from now on, snapshots stay in order, no merge that begins while it is held forgets entries above it, and what is live is what it was |
| DbImpl.DbImpl.ReleaseSnapshot | iOSGame/Pods/leveldb-library/db/db_impl.cc:1171-1174 | exactly this snapshot is given up, the others stay in order, and the oldest one held is no older than before |
| DbImpl.DbImpl.CompactMemTable | iOSGame/Pods/leveldb-library/db/db_impl.cc:535-566 | takes a flush step with a fresh number to exactly the level picked for it |
| DbImpl.DbImpl.BackgroundCompaction | iOSGame/Pods/leveldb-library/db/db_impl.cc:688-767 | the immutable memtable goes first, to the level picked for it; then a manual compaction if there is one: it is done exactly when nothing overlaps its range, otherwise a merge of its level begins that takes in or leaves for later every file that overlaps the range, and what is left begins where the chosen files end; then what the version needs, of its level and its charged file, moved down exactly if it is one file with nothing to merge and few grandparents, else merged; a merge respects the oldest snapshot, and gaps are covered unless it is manual |
| DbImpl.AnsweredOrLeft | iOSGame/Pods/leveldb-library/db/db_impl.cc:699-766 | a file that overlaps a manual range is in the merge that answers it or overlaps what is left of the range |
| DbImpl.DbImpl.DoCompactionWork | iOSGame/Pods/leveldb-library/db/db_impl.cc:878-999 | the runs are what the merge of the inputs leaves at the snapshot fixed for it, each over no more of the grandparents than ten times the file size limit |
| DbImpl.DbImpl.OpenCompactionOutputFile | iOSGame/Pods/leveldb-library/db/db_impl.cc:786-809 | the output gets a number above that of every table in the version, promised to nobody before, and the object stays valid |
| DbImpl.DbImpl.InstallCompactionResults | iOSGame/Pods/leveldb-library/db/db_impl.cc:860-876 | takes the step that replaces inputs by outputs |
| Recovery.LogRecordKeeps | iOSGame/Pods/leveldb-library/db/db_impl.cc:1212-1238 | a batch whose record reached the log is part of what would be recovered, whole |
| Recovery.SwitchLogKeeps | iOSGame/Pods/leveldb-library/db/db_impl.cc:1342-1366 | a new log with a new memtable leaves what would be recovered as it was |
| Recovery.BeginInstallKeeps | iOSGame/Pods/leveldb-library/db/version_set.cc:801-866 | once the manifest record of a flush whose table is built, of a move or of a merge is written, recovery from it gives the same reads |
| Recovery.FinishInstallKeeps | iOSGame/Pods/leveldb-library/db/version_set.cc:868-884 | making the new version current keeps everything the disk needs |
| Recovery.BeginBuildKeeps | iOSGame/Pods/leveldb-library/db/db_impl.cc:491-503 | a flush takes a number for its table, protects it, and builds the table without the lock |
| Recovery.EndBuildKeeps | iOSGame/Pods/leveldb-library/db/db_impl.cc:505-513 | the number loses its protection before the manifest names the table |
| Recovery.ScheduleKeeps | iOSGame/Pods/leveldb-library/db/db_impl.cc:648-664 | a background task is scheduled only while none is |
| Recovery.OneTaskAtATime | iOSGame/Pods/leveldb-library/db/db_impl.cc:648-686 | in every reachable state there is at most one background task, and a version is being installed exactly while it is the one installing |
| Recovery.InstallIsPossible | iOSGame/Pods/leveldb-library/db/db_impl.cc:535-566 | a task that has built the table of a flush, chosen a file to move or merged to the end can begin to install the result |
| Recovery.BuiltTableIsNewest | iOSGame/Pods/leveldb-library/db/db_impl.cc:491-533 | in every reachable state the number of a built table is above those of all tables in the version and promised to nobody else |
| Recovery.DeleteLogKeeps | iOSGame/Pods/leveldb-library/db/db_impl.cc:244-247 | deleting a log older than the one the version set names loses nothing; that no install is under way follows from there being one background task |
| Recovery.DeleteTableKeeps | iOSGame/Pods/leveldb-library/db/db_impl.cc:253-255 | deleting a table in no version in use and with an unprotected number loses nothing, for the same reason |
| Recovery.RecoverKeeps | iOSGame/Pods/leveldb-library/db/db_impl.cc:280-366 | the recovered database has every invariant of a running one |
| Recovery.ActKeepsWorldOk | iOSGame/Pods/leveldb-library/db/db_impl.cc:280-366 | every action, crashes at any point and crashes inside recovery included, keeps what recovery needs |
| Recovery.ReadsAreOfWhatWasLogged | iOSGame/Pods/leveldb-library/db/db_impl.cc:280-489 | after any run with any number of crashes, the logged entries are numbered without a gap, include every acknowledged write, and are what every read at the last sequence number or a held snapshot sees |
| Recovery.RecoveryRestoresEverything | iOSGame/Pods/leveldb-library/db/db_impl.cc:280-489 | right after recovery exactly what was logged before the crash is visible, and numbering goes on behind it |
| Recovery.AcknowledgedWritesSurvive | iOSGame/Pods/leveldb-library/db/db_impl.cc:1212-1257 | at every later step, a read of an acknowledged key at a readable sequence number not below the write gives that write or the newest one logged over it: from the live entries while the database is up, from what recovery finds while it is down |
| Recovery.AcknowledgedIsReadable | iOSGame/Pods/leveldb-library/db/db_impl.cc:1212-1257 | the last sequence number, or after a crash the last one logged, covers everything acknowledged and can be read at |
| Recovery.AcknowledgesAll | iOSGame/Pods/leveldb-library/db/db_impl.cc:1238-1257 | an acknowledgement covers everything that was logged before it |
| Recovery.HoldingsReadAsLogged | iOSGame/Pods/leveldb-library/db/db_impl.cc:280-489 | what a running database holds, and what recovery would find after a crash, read as everything logged |
| CarefulWorlds.CarefulHoldingsReadAsLogged | iOSGame/Pods/leveldb-library/db/db_impl.cc:280-489 | the same, with every table in use kept, for histories in which the condition on the chosen files takes the place of the one on entries |
| Recovery.FilesInUseAreKept | iOSGame/Pods/leveldb-library/db/db_impl.cc:223-278 | in every reachable state no table of the current version, of one that a reader holds, of a running merge or of an unfinished output is missing, nor one that the manifest names, nor one that a flush has written and not installed yet, protected or not |
| Recovery.ManifestGivesVersion | iOSGame/Pods/leveldb-library/db/version_set.cc:886-1011 | in every reachable state, replaying the manifest into one builder gives the version last made durable, and no file number was ever added to a level twice |
| Recovery.LogsInUseAreKept | iOSGame/Pods/leveldb-library/db/db_impl.cc:223-278 | in every reachable state the logs that recovery would replay hold exactly the entries that are in no installed table yet |
| Recovery.InstallsAreSteps | iOSGame/Pods/leveldb-library/db/version_set.cc:836-884 | while the lock is released for a manifest write, nothing that clients do, and no other task, makes the version being installed anything but the next step of the current one |
| LogReplay.RecoverLogFile | iOSGame/Pods/leveldb-library/db/db_impl.cc:371-489 | a replayed log becomes tables that hold exactly its entries, in age order with consecutive numbers, wherever the memtable was cut; the largest sequence number is kept |
| LogReplay.RecoverLogFiles | iOSGame/Pods/leveldb-library/db/db_impl.cc:340-358 | all logs not ruled out, oldest first, become one such sequence of tables, and their numbers count as used |
| LogBytes.InsertRecord | iOSGame/Pods/leveldb-library/db/db_impl.cc:410-436 | the bytes of a record give the entries of its batch; a record too short for a batch gives none |
| LogBytes.EntriesInAre | iOSGame/Pods/leveldb-library/db/write_batch.cc:115-137 | the entries of a batch: a put as a put with its value, a deletion as a deletion, numbered from the number of the batch on |
| LogBytes.ReadEntries | iOSGame/Pods/leveldb-library/db/db_impl.cc:380-436 | of a log cut off anywhere, the entries of exactly the batches whose records are whole come back, in order, with no report |
| LogBytes.ReplayLog | iOSGame/Pods/leveldb-library/db/db_impl.cc:371-489 | replaying the bytes of a log gives tables that hold exactly these entries |
| LogBytes.WriteAndReplay | iOSGame/Pods/leveldb-library/db/db_impl.cc:1210-1225 | batches written as records, cut off anywhere and replayed, are exactly those whose records fit into what is left |
| LogReplay.SortNumbers | iOSGame/Pods/leveldb-library/db/db_impl.cc:340-342 | the logs are taken in ascending order |
| LogReplay.Recover | iOSGame/Pods/leveldb-library/db/db_impl.cc:280-366 | replaying the manifest gives the version, and replaying the logs the tables, the last sequence number and a log number, that a recovery action asks for |
| LogReplay.Open | iOSGame/Pods/leveldb-library/db/db_impl.cc:1474-1515 | opening after a crash is a recovery action after which every read gives back what was logged |
| LogReplay.DeleteObsoleteFiles | iOSGame/Pods/leveldb-library/db/db_impl.cc:223-278 | run by the collecting task, keeps exactly the tables of the current version, of versions held by readers, of the inputs of a running merge and those being written, and exactly the logs from the log number on, and keeps the invariant |
| GroupCommit.BuildBatchGroup | iOSGame/Pods/leveldb-library/db/db_impl.cc:1260-1306 | the group is the longest prefix of the queue in which each writer may join: no sync writer behind a leader that does not sync, and the total size within the limit; the batch is all of theirs in order |
| GroupCommit.GroupExactly | iOSGame/Pods/leveldb-library/db/db_impl.cc:1260-1306 | the group said in bytes: 128 kilobytes more than the first batch if that is at most 128 kilobytes, one megabyte otherwise; the writer behind the group is missing, or asks for a sync that the leader does not make, or does not fit |
| GroupCommit.BatchesAreLoggedOnceInOrder | iOSGame/Pods/leveldb-library/db/db_impl.cc:1185-1257 | in every interleaving writers are served in arrival order and the log holds each batch once, in that order, numbered consecutively from the first free sequence number on |
| GroupCommit.SnapshotSeesWholeGroups | iOSGame/Pods/leveldb-library/db/db_impl.cc:1208-1238 | in every interleaving the entries up to the last sequence number are exactly the batches of the served writers, and all others are numbered above it |
| GroupCommit.SyncWritersAreSynced | iOSGame/Pods/leveldb-library/db/db_impl.cc:1281-1284 | a sync writer is served only after a synced record holds its whole batch |
| GroupCommit.OnlyLeadersSwitch | iOSGame/Pods/leveldb-library/db/db_impl.cc:1201-1206 | the memtable was switched on request once for each request that led a group, and for no other |
| GroupCommit.SwallowedIfJoined | iOSGame/Pods/leveldb-library/db/db_impl.cc:1286-1303 | in every run, a served writer did not lead, so that a request for a switch was swallowed, if and only if at some choice of a group it waited behind a batch and it and all writers in between could join |
| GroupCommit.LoneRequestSwitches | iOSGame/Pods/leveldb-library/db/db_impl.cc:1191-1206 | in every run, a request that enters an empty queue leads when it is served, and the memtable was switched for it |
| GroupCommit.LeadServesGroup | iOSGame/Pods/leveldb-library/db/db_impl.cc:1238-1248 | a group that is chosen is served whole, the first as its leader, before any other is chosen |
| Commits.LoggedIsPrefixOfWriters | iOSGame/Pods/leveldb-library/db/db_impl.cc:1201-1257 | in every run of the queue on top of the logs, crashes and recoveries included, what was logged is the operations of whole batches in queue order, numbered from 1 on; since the last opening, those of a prefix of the arrived writers with every served one among them |
| Commits.ReadsAreOfLoggedWriters | iOSGame/Pods/leveldb-library/db/db_impl.cc:280-489 | what a running database holds, and what recovery would find after a crash, reads at a sequence number as the map that results from applying so many of these operations one by one |
| Commits.ReadsAreApplied | iOSGame/Pods/leveldb-library/db/db_impl.cc:1100-1145 | a read of numbered operations at a sequence number is a look into the map that so many of them leave, where a put sets its key and a deletion takes it out |
| Commits.ReopeningKeepsOps | iOSGame/Pods/leveldb-library/db/db_impl.cc:1474-1515 | opening again keeps all of them, and numbers on behind the last |
| Commits.OpsOnlyGrow | iOSGame/Pods/leveldb-library/db/db_impl.cc:1201-1257 | nothing once logged is lost or reordered |
| Commits.QueueKeeps | iOSGame/Pods/leveldb-library/db/db_impl.cc:1201-1257 | every step of the queue and of the database under it keeps them in step |
| Commits.OtherKeeps | iOSGame/Pods/leveldb-library/db/db_impl.cc:688-767 | so does whatever goes on beside the queue, crashes included |
| GroupCommit.RequestIsSwallowed | iOSGame/Pods/leveldb-library/db/db_impl.cc:1286-1303 | a run in which a request for a switch, queued behind a batch, is served as a group member although no switch is made |
| GroupCommit.StepKeepsInv | iOSGame/Pods/leveldb-library/db/db_impl.cc:1185-1257 | every step of a writer keeps the invariant behind these |
| GroupCommit.WriteQueue.Lead | iOSGame/Pods/leveldb-library/db/db_impl.cc:1201-1210 | takes the step that chooses the group |
| GroupCommit.WriteQueue.AddRecord | iOSGame/Pods/leveldb-library/db/db_impl.cc:1210-1222 | the records of the log go on with the operations of the group, numbered from behind the last sequence number, and are synced if any writer of the group asked for it |
| GroupCommit.WriteQueue.InsertInto | iOSGame/Pods/leveldb-library/db/write_batch.cc:132-137 | inserts the operations of the record with consecutive sequence numbers |
| GroupCommit.WriteQueue.Finish | iOSGame/Pods/leveldb-library/db/db_impl.cc:1238-1257 | takes the step that publishes the sequence number and serves the group |
| SkipLists.LinkedIsSortedList | iOSGame/Pods/leveldb-library/db/skiplist.h:337-368 | the links of a level are an ascending list of exactly its keys |
| SkipLists.StoreLinkTo | iOSGame/Pods/leveldb-library/db/skiplist.h:361-367 | once its own link is set, linking a node in adds its key to the level and nothing else |
| SkipLists.LastReadAnswers | iOSGame/Pods/leveldb-library/db/skiplist.h:262-335 | the read that ends a search settles the answer at that moment |
| SkipLists.SkipList.FindGreaterOrEqual | iOSGame/Pods/leveldb-library/db/skiplist.h:262-281 | the least key at or after the target, and for each level the last node before it |
| SkipLists.SkipList.FindLessThan | iOSGame/Pods/leveldb-library/db/skiplist.h:284-302 | the greatest key before the target, or the head |
| SkipLists.SkipList.FindLast | iOSGame/Pods/leveldb-library/db/skiplist.h:305-321 | the greatest key, or the head |
| SkipLists.SkipList.Insert | iOSGame/Pods/leveldb-library/db/skiplist.h:337-368 | adds the key to every level below its height and to no other |
| SkipListReaders.EveryLevelIsASortedSublist | iOSGame/Pods/leveldb-library/db/skiplist.h:337-368 | after every single store of every interleaving each level is an ascending list of keys of the level below |
| SkipListReaders.SearchesAreAtomic | iOSGame/Pods/leveldb-library/db/skiplist.h:262-335 | a search interleaved with an insertion returns the right answer for the keys in the list at its last read, among them every key inserted before it began |
| SkipListReaders.ReadersNeverBlock | iOSGame/Pods/leveldb-library/db/skiplist.h:262-335 | a search under way can always take its next step |
| SkipListReaders.StepKeepsInv | iOSGame/Pods/leveldb-library/db/skiplist.h:337-368 | every load and store keeps the invariant behind these |
| Crc32c.ExtendBoth | iOSGame/Pods/leveldb-library/util/crc32c.cc:276-377 | a checksum extended piece by piece is the checksum of the whole |
| Crc32c.MaskingCancels | iOSGame/Pods/leveldb-library/util/crc32c.h:24-38 | masking and unmasking undo each other, both ways |
| Crc32c.MaskOfZero | iOSGame/Pods/leveldb-library/util/crc32c.h:22-32 | the mask of 0 is the mask delta |
| Crc32c.CheckValue | iOSGame/Pods/leveldb-library/util/crc32c.cc:276-377 | the checksum of the nine digits 1 to 9 is 0xe3069283, the check value of CRC-32C |
| Crc32c.ByteTable | iOSGame/Pods/leveldb-library/util/crc32c.cc:20-85 | entries of the byte table that the polynomial gives |
| Crc32c.StrideStep | iOSGame/Pods/leveldb-library/util/crc32c.cc:293-300 | four lookups in the stride tables advance a word by sixteen bytes |
| Crc32c.NextWord | iOSGame/Pods/leveldb-library/util/crc32c.cc:349-358 | reading a word into the oldest stride is reading it after the four combined |
| Crc32c.Step1 | iOSGame/Pods/leveldb-library/util/crc32c.cc:286-291 | one table lookup is one byte of the definition |
| Crc32c.Step4 | iOSGame/Pods/leveldb-library/util/crc32c.cc:293-300 | one stride of the loop |
| Crc32c.Step4W | iOSGame/Pods/leveldb-library/util/crc32c.cc:312-320 | four lookups on a loaded word are four bytes of the definition |
| Crc32c.Strides | iOSGame/Pods/leveldb-library/util/crc32c.cc:332-366 | from sixteen bytes on, the four interleaved strides leave what reading byte by byte leaves |
| Crc32c.ExtendByStrides | iOSGame/Pods/leveldb-library/util/crc32c.cc:276-377 | for every length and alignment the portable loop equals the byte-at-a-time definition |
| Bytes.ByteRoundTrip | iOSGame/Pods/leveldb-library/util/coding.h:20-60 | a number below 256 comes back from its byte |
| LogFormat.Writer.EmitPhysicalRecord | iOSGame/Pods/leveldb-library/db/log_writer.cc:82-108 | header and payload are appended in the format, with the checksum extended from that of the type |
| LogFormat.Writer.AddRecord | iOSGame/Pods/leveldb-library/db/log_writer.cc:34-80 | the fragments of a record, with trailers, are appended as the format says, from any offset in a block |
| LogFormat.WrittenAllBoth | iOSGame/Pods/leveldb-library/db/log_writer.cc:27-33 | records written after others are what a writer resuming at the end of the file writes |
| LogFormat.PhysicalLayout | iOSGame/Pods/leveldb-library/db/log_writer.cc:82-108 | a fragment byte by byte: masked checksum of type and payload, length, type, payload, low bytes first |
| LogFormat.FragmentFits | iOSGame/Pods/leveldb-library/db/log_writer.cc:41-63 | a fragment lies in one block of 32 kilobytes, after at most six bytes of filling, and fills its block unless it is the last of its record |
| LogFormat.TypesAre | iOSGame/Pods/leveldb-library/db/log_format.h:14-25 | the types of whole records, first, middle and last fragments |
| LogReaders.HeaderParses | iOSGame/Pods/leveldb-library/db/log_reader.cc:216-221 | length and type of a header parse back |
| LogReaders.ChecksumParses | iOSGame/Pods/leveldb-library/db/log_reader.cc:239-250 | the checksum of a whole fragment matches |
| LogReaders.ParsedIsPhysical | iOSGame/Pods/leveldb-library/db/log_reader.cc:211-271 | whatever parses with a matching checksum is a fragment in the format |
| LogReaders.Reader.ReadPhysicalRecord | iOSGame/Pods/leveldb-library/db/log_reader.cc:189-271 | on any file a fragment is returned only where one with a matching checksum stands, behind the filling, and otherwise the end of the file or a bad record; where the writer put a fragment it comes back if it is whole, and is the end of the file without a report if it is torn |
| LogReaders.Reader.ReadRecord | iOSGame/Pods/leveldb-library/db/log_reader.cc:56-173 | on any file, a record returned is one whole fragment or a first, middle ones and a last in a row, all with matching checksums; where the writer put records, the next comes back if it is whole, and a torn one is the end of the file, without a report |
| LogReaders.WholeIsWrittenOut | iOSGame/Pods/leveldb-library/db/log_reader.cc:56-173 | the records recovered from a truncated file are exactly those written out in full |
| LogReaders.ReadLog | iOSGame/Pods/leveldb-library/db/log_reader.cc:56-173 | on any file, every record returned is made of fragments found there in order; for every list of records and every truncation of their bytes, the whole ones come back in order and nothing is reported |
| LogReaders.WriteAndRead | iOSGame/Pods/leveldb-library/db/log_writer.cc:27-80 | what one writer and another that resumes at the end of the file wrote is read back, with no report |
| LruLists.LRURemove | iOSGame/Pods/leveldb-library/util/cache.cc:239-242 | the circular list without the entry is a circular list |
| LruLists.LRUAppend | iOSGame/Pods/leveldb-library/util/cache.cc:244-250 | the entry becomes the newest of the circular list |
| HandleTables.HandleTable.FindPointer | iOSGame/Pods/leveldb-library/util/cache.cc:111-120 | the slot, head of a bucket or link of an entry, that holds the entry with the key and hash; the end of the one chain it could be in if there is none |
| HandleTables.HandleTable.Insert | iOSGame/Pods/leveldb-library/util/cache.cc:78-92 | the new entry is linked in, in place of the one with its key, which is returned; every other entry stays, across a resize too, and there are never more entries than buckets |
| HandleTables.HandleTable.Remove | iOSGame/Pods/leveldb-library/util/cache.cc:94-102 | the entry with the key is linked out and returned; every other entry stays |
| HandleTables.HandleTable.Store | iOSGame/Pods/leveldb-library/util/cache.cc:78-102 | writing through a slot leaves every other chain as it was, and this one up to the slot |
| HandleTables.HandleTable.Resize | iOSGame/Pods/leveldb-library/util/cache.cc:122-147 | the same entries, relinked one by one into the buckets of the new length, the least power of two from 4 on that is not below their number |
| LruCaches.LRUCache.Ref | iOSGame/Pods/leveldb-library/util/cache.cc:217-223 | an entry that only the cache referred to moves to the in-use list |
| LruCaches.LRUCache.Unref | iOSGame/Pods/leveldb-library/util/cache.cc:225-238 | the last reference runs the deleter; an entry that only the cache still refers to becomes the newest of the LRU list |
| LruCaches.LRUCache.FinishErase | iOSGame/Pods/leveldb-library/util/cache.cc:305-316 | the entry leaves its list, the charge and the cache, and is deleted if no client holds it |
| LruCaches.LRUCache.Lookup | iOSGame/Pods/leveldb-library/util/cache.cc:252-259 | the entry with the key, with one more client reference and taken out of the unused list, which otherwise keeps its order; or none exists |
| LruCaches.LRUCache.Release | iOSGame/Pods/leveldb-library/util/cache.cc:261-264 | one client reference fewer; the deleter runs exactly if it was the last and the entry is out of the cache; an entry that only the cache refers to becomes the newest unused one |
| LruCaches.LRUCache.Insert | iOSGame/Pods/leveldb-library/util/cache.cc:266-303 | the entry is cached unless the capacity is 0, in place of one with its key; then the oldest unused entries leave, so many that without the last of them the charge would not fit; entries in use stay |
| LruCaches.LRUCache.EvictOldest | iOSGame/Pods/leveldb-library/util/cache.cc:293-300 | the oldest unused entry leaves and is deleted, no other |
| LruCaches.LRUCache.EvictUnused | iOSGame/Pods/leveldb-library/util/cache.cc:293-300 | the oldest unused entries leave, in order, each deleted, until the charge fits or none is left, and no more than needed |
| LruCaches.LRUCache.Erase | iOSGame/Pods/leveldb-library/util/cache.cc:318-321 | exactly the entry with the key leaves the cache, and is deleted if no client holds it |
| LruCaches.LRUCache.Prune | iOSGame/Pods/leveldb-library/util/cache.cc:323-333 | exactly the entries in use stay |
| LruCaches.LRUCache.EveryEntryIsDeletedOnce | iOSGame/Pods/leveldb-library/util/cache.cc:225-238 | with all references given back and the cache empty, every deleter ran, each once |
| Coding.PutVarint32 | iOSGame/Pods/leveldb-library/util/coding.cc:47-79 | a number below 2^32 is appended as its variable-length code, whatever its size |
| Coding.GetVarint32Ptr | iOSGame/Pods/leveldb-library/util/coding.cc:112-131 | on any bytes: the number that ends with the first byte below 128 within five bytes and the limit is read, bits beyond 32 lost, and nothing is read if there is no such byte; where the code of a number stands, that number |
| Coding.GetVarint64 | iOSGame/Pods/leveldb-library/util/coding.cc:142-169 | the same with at most ten bytes, and 64 bits |
| Coding.VarintLength | iOSGame/Pods/leveldb-library/util/coding.cc:47-75 | the code of a 32-bit number has at most five bytes |
| Coding.VarintIsItsValue | iOSGame/Pods/leveldb-library/util/coding.cc:47-75 | the code of a number ends with its first byte below 128 and has the number as its value |
| Coding.ReadsOnce | iOSGame/Pods/leveldb-library/util/coding.cc:112-131 | at one place at most one number can be read |
| Coding.GetLengthPrefixedSlice | iOSGame/Pods/leveldb-library/util/coding.cc:181-190 | on any bytes: a string is read exactly if a length can be read and as many bytes follow, and it is these bytes |
| Coding.FixedRoundTrip | iOSGame/Pods/leveldb-library/util/coding.h:60-73 | a 32-bit number is decoded from its four bytes |
| Coding.FixedBack | iOSGame/Pods/leveldb-library/util/coding.h:60-73 | every four bytes are the code of the number they decode to |
| Coding.LowByteFirst | iOSGame/Pods/leveldb-library/util/coding.h:60-73 | the four bytes are the lowest first |
| KeyOrders.BytesLessThree | iOSGame/Pods/leveldb-library/util/comparator.cc:25-27 | bytewise comparison is a strict total order |
| KeyOrders.FindShortestSeparator | iOSGame/Pods/leveldb-library/util/comparator.cc:29-49 | the result is the start with its first different byte raised and the rest cut, strictly between the two keys, if a byte fits there; otherwise the start |
| KeyOrders.FindShortSuccessor | iOSGame/Pods/leveldb-library/util/comparator.cc:51-64 | the result is the key with its first byte below 255 raised and the rest cut, and is after the key; a run of 255s is left alone |
| KeyOrders.InternalLessIsOrder | iOSGame/Pods/leveldb-library/db/dbformat.cc:51-67 | the order of internal keys as bytes is strict, transitive, and treats unordered keys alike |
| KeyOrders.FindShortestInternalSeparator | iOSGame/Pods/leveldb-library/db/dbformat.cc:69-86 | the user key of the start is shortened where it first differs and a byte fits between, if that makes it shorter, and carries the search tag; otherwise the start comes back |
| KeyOrders.FindShortInternalSuccessor | iOSGame/Pods/leveldb-library/db/dbformat.cc:88-101 | the user key is cut behind its first byte below 255, which is raised, if that makes it shorter, and carries the search tag; otherwise the key comes back |
| KeyOrders.SeparatorSeparates | iOSGame/Pods/leveldb-library/db/dbformat.cc:69-86 | a separator is at or after the start and before the limit, and a search key at or before it with the user key of the limit is at or before the start |
| Blocks.BlockBuilder.Add | iOSGame/Pods/leveldb-library/table/block_builder.cc:72-106 | the block holds the entry after those before it; every restart interval an entry begins with a whole key, and every other one leaves out the longest prefix it shares with the key before |
| Blocks.KnownEntry | iOSGame/Pods/leveldb-library/table/block_builder.cc:92-103 | an entry in bytes: the length shared, the length not shared, the length of the value, the rest of the key, the value |
| Blocks.BlockBuilder.Finish | iOSGame/Pods/leveldb-library/table/block_builder.cc:62-70 | the contents are a block of exactly the added entries, packed in this way, ending in the array of restart points, and as large as was estimated |
| BlockIterators.OpenBlock | iOSGame/Pods/leveldb-library/table/block.cc:19-39 | on any bytes: the restart array is where its length at the end says, and refused exactly if it does not fit |
| BlockIterators.DecodeEntry | iOSGame/Pods/leveldb-library/table/block.cc:54-74 | on any bytes: three lengths are read, by the fast path for small ones or by the slow one, exactly if they are there and as many bytes follow as the last two count |
| BlockIterators.BlockIterator.ParseNextKey | iOSGame/Pods/leveldb-library/table/block.cc:222-251 | on any bytes: the key is the shared part of the key before it and the bytes that follow, and the cursor reports corruption exactly if no entry can be read or it shares more than there is; in a block the cursor is at the next entry, or behind the last |
| BlockIterators.BlockIterator.Next | iOSGame/Pods/leveldb-library/table/block.cc:137-140 | the cursor moves to the next entry |
| BlockIterators.BlockIterator.Prev | iOSGame/Pods/leveldb-library/table/block.cc:142-162 | the cursor moves to the previous entry, or to none from the first |
| BlockIterators.BlockIterator.Seek | iOSGame/Pods/leveldb-library/table/block.cc:164-200 | binary search over restart points and a scan end at the first entry at or after the target, or behind the last |
| BlockIterators.BlockIterator.SeekToFirst | iOSGame/Pods/leveldb-library/table/block.cc:202-205 | the cursor is at the first entry |
| BlockIterators.BlockIterator.SeekToLast | iOSGame/Pods/leveldb-library/table/block.cc:207-212 | the cursor is at the last entry |
| BlockIterators.WriteAndRead | iOSGame/Pods/leveldb-library/table/block_builder.cc:62-106 | for every ascending list of entries and every restart interval, reading the block forwards or backwards gives that list |
| Blooms.CreateFilter | iOSGame/Pods/leveldb-library/util/bloom.cc:28-56 | the filter has exactly the bits its keys stand for, as many bits as asked for rounded up to bytes and at least 64, and the number of probes at its end |
| Blooms.KeyMayMatch | iOSGame/Pods/leveldb-library/util/bloom.cc:58-80 | true exactly if every bit the key stands for is set, or the filter is of a reserved kind |
| Blooms.ProbesAre | iOSGame/Pods/leveldb-library/util/bloom.cc:43-54 | probe number j of a key is its hash with the turned hash added j times, in 32 bits, modulo the number of bits |
| Blooms.DeltaIsRotation | iOSGame/Pods/leveldb-library/util/bloom.cc:47-47 | the turned hash is the hash rotated right by 17 bits |
| Blooms.MatchesBits | iOSGame/Pods/leveldb-library/util/bloom.cc:58-79 | matching, said in shifts and masks of the bytes of the filter |
| Blooms.AllProbesAre | iOSGame/Pods/leveldb-library/util/bloom.cc:43-54 | the bits of a filter are those of its keys |
| Blooms.NothingIsHidden | iOSGame/Pods/leveldb-library/util/bloom.cc:28-80 | a filter never denies a key it was made of |
| Blooms.MatchesExactly | iOSGame/Pods/leveldb-library/util/bloom.cc:58-80 | a filter matches a key exactly if every bit the key stands for is one that some key of the filter stands for |
| Filters.FilterBlockBuilder.StartBlock | iOSGame/Pods/leveldb-library/table/filter_block.cc:21-27 | filters are made up to the one of the new block: filter i is made of exactly the keys of the blocks that begin in the i-th two kilobytes |
| Filters.FilterBlockBuilder.AddKey | iOSGame/Pods/leveldb-library/table/filter_block.cc:29-33 | the key is among those of the current block |
| Filters.FilterBlockBuilder.GenerateFilter | iOSGame/Pods/leveldb-library/table/filter_block.cc:51-75 | one more filter, of exactly the pending keys, empty without keys; earlier filters are what they were |
| Filters.FilterBlockBuilder.Finish | iOSGame/Pods/leveldb-library/table/filter_block.cc:35-49 | a filter block in which filter i is made of exactly the keys of the i-th two kilobytes |
| Filters.FilterBlockReader.KeyMayMatch | iOSGame/Pods/leveldb-library/table/filter_block.cc:90-104 | true exactly if the filter for the offset matches the user key, or there is none for it; false for an empty one |
| Filters.AddedIsKept | iOSGame/Pods/leveldb-library/table/filter_block.cc:21-104 | a key looked for under the offset of the block it was added to is not denied |
| Filters.KeptExactly | iOSGame/Pods/leveldb-library/table/filter_block.cc:21-104 | a key looked for under the offset of a block is not denied exactly if each of its bits is one of a key added in the same two kilobytes |
| Filters.KeysInAre | iOSGame/Pods/leveldb-library/table/filter_block.cc:21-33 | the keys of a filter are those of the blocks that begin in its two kilobytes |
| TableFormat.DecodeHandle | iOSGame/Pods/leveldb-library/table/format.cc:15-29 | on any bytes: a block handle is read exactly if two numbers can be |
| TableFormat.KnownHandle | iOSGame/Pods/leveldb-library/table/format.cc:15-20 | a handle in bytes: the offset, then the size |
| TableFormat.DecodeFooter | iOSGame/Pods/leveldb-library/table/format.cc:31-62 | on any 48 bytes: a footer is read exactly if it ends in the magic number and begins with two handles, which are read |
| TableFormat.MagicBytes | iOSGame/Pods/leveldb-library/table/format.h:74-77 | the magic number is 0xdb4775248b80fb57, low byte first |
| TableFormat.ReadBlock | iOSGame/Pods/leveldb-library/table/format.cc:64-139 | a written block is read again; of any file the bytes that the handle says are read, if they are uncompressed, and with checksums verified only a block whose trailer is the one written for it |
| TableBuilders.TableBuilder.Add | iOSGame/Pods/leveldb-library/table/table_builder.cc:94-123 | the entry is the last of the table, the block before it has an index entry whose key divides the two, and the block is written as soon as it is estimated to be large enough, not before |
| TableBuilders.TableBuilder.Flush | iOSGame/Pods/leveldb-library/table/table_builder.cc:125-139 | the pending entries become a block in the file; all other facts about the table stay |
| TableBuilders.TableBuilder.Finish | iOSGame/Pods/leveldb-library/table/table_builder.cc:198-253 | the file is a table of exactly the added entries: blocks, index, filter, metaindex and footer in place |
| Tables.DividesSplits | iOSGame/Pods/leveldb-library/table/table_builder.cc:104-111 | an index key is at or after every entry up to its block and before every later one |
| Tables.IndexAscends | iOSGame/Pods/leveldb-library/table/table_builder.cc:104-111 | the shortened index keys are strictly ascending |
| Tables.RoutesTo | iOSGame/Pods/leveldb-library/table/table.cc:216-222 | the index never sends a search to the wrong block: what is before the block is too small, and if all of the block is, the next entry has another user key |
| Tables.DeniedIsAbsent | iOSGame/Pods/leveldb-library/table/table.cc:223-228 | a key that the filter denies has no entry with its user key in the block |
| Tables.Table.Denies | iOSGame/Pods/leveldb-library/table/table.cc:223-228 | a key is denied exactly if there is a filter and it does not match at the offset of the block |
| Tables.Open | iOSGame/Pods/leveldb-library/table/table.cc:38-134 | a written table opens with its index, and with its filter if one is asked for and the metaindex has it; a file without the magic number does not open |
| Tables.Table.InternalGet | iOSGame/Pods/leveldb-library/table/table.cc:216-244 | the first entry at or after the key is reported, or nothing if that entry has another user key; nothing else ever is |
| Tables.WriteAndGet | iOSGame/Pods/leveldb-library/table/table_builder.cc:94-253 | writing a table, opening it with or without filter and searching it gives that result for every key |
| TwoLevelIterators.SameBlock | iOSGame/Pods/leveldb-library/table/two_level_iterator.cc:146-161 | equal handle encodings mean the same block, so keeping the block cursor is right |
| TwoLevelIterators.TwoLevelIterator.SkipEmptyDataBlocksForward | iOSGame/Pods/leveldb-library/table/two_level_iterator.cc:115-126 | from the end of a block the cursor goes on at the first entry of the next |
| TwoLevelIterators.TwoLevelIterator.SkipEmptyDataBlocksBackward | iOSGame/Pods/leveldb-library/table/two_level_iterator.cc:128-139 | from before a block the cursor goes back to the last entry of the one before |
| TwoLevelIterators.TwoLevelIterator.Seek | iOSGame/Pods/leveldb-library/table/two_level_iterator.cc:82-87 | the cursor is at the first entry of the table at or after the target |
| TwoLevelIterators.TwoLevelIterator.SeekToLast | iOSGame/Pods/leveldb-library/table/two_level_iterator.cc:96-101 | the cursor is at the last entry of the table |
| TwoLevelIterators.TwoLevelIterator.Next | iOSGame/Pods/leveldb-library/table/two_level_iterator.cc:103-107 | the cursor moves to the next entry of the table |
| TwoLevelIterators.TwoLevelIterator.Prev | iOSGame/Pods/leveldb-library/table/two_level_iterator.cc:109-113 | the cursor moves to the previous entry of the table |
| TwoLevelIterators.WriteAndRead | iOSGame/Pods/leveldb-library/table/table.cc:210-214 | for every ascending list of entries, the cursor over the written table enumerates exactly that list |
| EditFormat.VersionEdit.EncodeTo | iOSGame/Pods/leveldb-library/db/version_edit.cc:41-85 | the bytes are those of the fields of the edit, each once, kind by kind |
| EditFormat.VersionEdit.DecodeFrom | iOSGame/Pods/leveldb-library/db/version_edit.cc:107-205 | on any bytes: field after field is read as long as one can be, and taken into the cleared edit in order; the edit is accepted exactly if nothing is left; of the bytes of fields, exactly those fields are taken |
| EditFormat.KnownNumbers | iOSGame/Pods/leveldb-library/db/version_edit.cc:12-24 | the fields with a number, in bytes |
| EditFormat.KnownFields | iOSGame/Pods/leveldb-library/db/version_edit.cc:12-24 | the other fields, in bytes |
| EditFormat.ItemsRestore | iOSGame/Pods/leveldb-library/db/version_edit.cc:26-39 | decoding an encoded edit into any edit restores it, with its compaction pointers after those that were there before |
| EditFormat.RoundTrip | iOSGame/Pods/leveldb-library/db/version_edit.cc:41-205 | decoding what was encoded gives the same edit, if the edit decoded into had no compaction pointers |
| WriteBatches.WriteBatch.Put | iOSGame/Pods/leveldb-library/db/write_batch.cc:98-103 | the batch has one more update and the count says so |
| WriteBatches.WriteBatch.Append | iOSGame/Pods/leveldb-library/db/write_batch.cc:144-148 | the batch has its own updates and then those of the other, also if the other is itself |
| WriteBatches.WriteBatch.Iterate | iOSGame/Pods/leveldb-library/db/write_batch.cc:42-80 | on any bytes: update after update is handled as long as one can be read, and the batch is accepted exactly if nothing is left and the count is right; of a batch exactly its updates are handled, in order |
| WriteBatches.KnownUpdates | iOSGame/Pods/leveldb-library/db/write_batch.cc:7-14 | a put and a deletion in bytes |
| WriteBatches.WriteBatch.InsertInto | iOSGame/Pods/leveldb-library/db/write_batch.cc:115-137 | the updates that can be read are inserted in order, numbered from the number of the batch on |
| TableReads.RankIsOrder | iOSGame/Pods/leveldb-library/util/comparator.cc:25-27 | the bytewise order of keys is the order of numbers assigned to them, and different keys have different numbers |
| TableReads.SameOrder | iOSGame/Pods/leveldb-library/db/dbformat.cc:51-67 | internal keys as bytes compare as the keys they stand for |
| TableReads.LookupBytesAre | iOSGame/Pods/leveldb-library/db/dbformat.cc:121-138 | the bytes of a lookup key stand for the largest key at the sequence number that a read searches for |
| TableReads.SeekAgrees | iOSGame/Pods/leveldb-library/table/table.cc:216-244 | the first entry at or after a key is at the same place among the bytes and among the entries they stand for |
| TableReads.Get | iOSGame/Pods/leveldb-library/db/version_set.cc:263-276 | a read of the bytes of a table finds the value, the deletion or nothing that the search of its entries finds, on which the read path over levels rests |
| PbEncode.Write | iOSGame/Pods/nanopb/pb_encode.c:103-131 | all bytes are appended if there is room and none otherwise; a sizing stream only counts |
| PbEncode.EncodeVarint | iOSGame/Pods/nanopb/pb_encode.c:608-628 | the code of the number is written |
| PbEncode.EncodeSvarint | iOSGame/Pods/nanopb/pb_encode.c:630-639 | the code of the zigzag number is written |
| PbFormat.ZigZagOrder | iOSGame/Pods/nanopb/pb_encode.c:630-639 | the zigzag numbers count 0, -1, 1, -2, 2 and so on |
| PbFormat.WireTypes | iOSGame/Pods/nanopb/pb_encode.c:674-710 | the wire type of each kind of field |
| PbFormat.KnownNumber | iOSGame/Pods/nanopb/pb_encode.c:608-672 | 150 in field 1 is 08 96 01, as in the Protocol Buffers documentation on encoding |
| PbFormat.KnownString | iOSGame/Pods/nanopb/pb_encode.c:712-715 | a string in bytes: the tag, the length, the bytes |
| PbEncode.CheckDefault | iOSGame/Pods/nanopb/pb_encode.c:240-338 | true exactly for a field that decoding restores when it is left out |
| PbFormat.DefaultIsZero | iOSGame/Pods/nanopb/pb_encode.c:240-338 | a field left out because it has its default is what decoding begins with, nested messages included |
| PbEncode.EncodeArray | iOSGame/Pods/nanopb/pb_encode.c:147-237 | a repeated field of numbers is one packed record, any other one record per item |
| PbEncode.EncodeSubmessage | iOSGame/Pods/nanopb/pb_encode.c:717-765 | the sizing pass and the writing pass agree, so the length written is the length of the message written after it |
| PbEncode.EncodeField | iOSGame/Pods/nanopb/pb_encode.c:341-427 | a field that is present is its tag and value, one that is absent nothing |
| PbEncode.GetEncodedSize | iOSGame/Pods/nanopb/pb_encode.c:567-576 | the size reported is the size of the bytes that encoding writes |
| PbEncode.Encode | iOSGame/Pods/nanopb/pb_encode.c:528-550 | encoding into a buffer succeeds exactly if there is room for that size, and writes exactly the bytes of the message |
| PbRecords.MessageIsRecords | iOSGame/Pods/nanopb/pb_encode.c:528-550 | the bytes of a message are those of a list of records, field by field, at any nesting |
| PbRecords.MessageIsTaken | iOSGame/Pods/nanopb/pb_decode.c:925-1073 | taking those records one by one into a message of defaults, with a chosen field unsetting its group, gives the message back |
| PbRecords.WholeMessage | iOSGame/Pods/nanopb/pb_decode.c:925-1073 | the records of a message can be made into a message, which is the one they are of |
| PbRecords.UnknownLeavesNoTrace | iOSGame/Pods/nanopb/pb_decode.c:982-985 | records with tags that the schema does not know change nothing of what is made |
| PbRecords.MadeOfKnown | iOSGame/Pods/nanopb/pb_decode.c:982-985 | with unknown records anywhere among the records of a message, the message is made |
| PbRecords.NeighboursCommute | iOSGame/Pods/nanopb/pb_decode.c:940-985 | records of fields that are not in one group may change places |
| PbRecords.TooFewIsRefused | iOSGame/Pods/nanopb/pb_decode.c:1023-1029 | a field without a count that was read last and lacks values makes the message fail |
| PbDecode.DecodeVarint32 | iOSGame/Pods/nanopb/pb_decode.c:187-247 | on any bytes: a number is read exactly if it ends within 37 bytes and what lies beyond 32 bits is nothing but sign extension or zeros, and it is the value of the code |
| PbDecode.DecodeNumber | iOSGame/Pods/nanopb/pb_decode.c:1318-1411 | on any bytes: a number of the kind is read exactly if one stands there and fits the size of its field |
| PbDecode.DecodeBlob | iOSGame/Pods/nanopb/pb_decode.c:1431-1535 | on any bytes: a string of the kind is read exactly if its length stands there, as much follows and there is room, for text with a terminating zero; of bytes of fixed length all or none |
| PbDecode.IterFind | iOSGame/Pods/nanopb/pb_common.c:76-97 | the field with the tag, from any position of the iterator and around, or there is none |
| PbDecode.DecodeField | iOSGame/Pods/nanopb/pb_decode.c:406-485 | on any bytes: what follows the tag of a field that is no submessage is taken exactly if a value that fits stands there and there is room, or a packed list that ends where its bytes do; a submessage is taken exactly if its records make one; one more item, a choice that unsets its group and every other value end up in the place of the field |
| PbDecode.DecodePacked | iOSGame/Pods/nanopb/pb_decode.c:425-455 | on any bytes: numbers are read as long as there is one and there is room, and the list is taken exactly if that is all of it |
| PbDecode.SkipField | iOSGame/Pods/nanopb/pb_decode.c:278-335 | on any bytes: behind a tag, exactly a number, eight bytes, a length with as much behind it, or four bytes are skipped, as the wire type says, and nothing is if that is not there |
| PbDecode.CheckRequired | iOSGame/Pods/nanopb/pb_decode.c:1031-1064 | true exactly if every required field, as far as they are tracked, was seen |
| PbDecode.DecodeMessage | iOSGame/Pods/nanopb/pb_decode.c:925-1073 | for records of any schema in any order, unknown ones among them, up to the end or a zero byte: decoding succeeds exactly if every required field was there and a field without a count has all its values, and gives the message made of them; where the next record cannot be passed over or taken, decoding fails |
| PbDecode.Decode | iOSGame/Pods/nanopb/pb_decode.c:1075-1087 | the same for a whole stream; of any bytes, what is read stays in the room that the schema has for it |
| PbDecode.DecodeAmongUnknown | iOSGame/Pods/nanopb/pb_decode.c:940-985 | a message written with records of unknown tags anywhere between its own decodes to the message |
| PbFormat.SettledSlotBytes | iOSGame/Pods/nanopb/pb_encode.c:341-427 | whatever stands in the place of an absent field, at any nesting, leaves no trace in the bytes |
| PbDecode.EncodeAndDecode | iOSGame/Pods/nanopb/pb_encode.h:53-68 | for every schema and every message whose present parts fit it, encoding and then decoding gives the message back, with what was absent at its default; a message with nothing but defaults there comes back the same |

## Left out

- Compactions.MergePreservesReads: asks for an oldest snapshot below the largest sequence number, where the code's marker for "no entry of this key yet" is not ambiguous.
- Database.EveryReadIsOfTheHistory: over runs whose merges resurrect no key and have covered gaps, the two conditions the code does not check; `HazardRuns` and `GapRuns` show that neither can be dropped.
- Database.StepKeepsInv: the same two conditions on the merges that begin.
- Database.BeginMergeKeepsInv: the same.
- Database.EveryVersionIsValid: over the same runs; `CoveredRuns` asks for covered gaps only.
- CarefulRuns.EveryCarefulReadIsOfTheHistory: the condition on files is not one that the code checks.
- CarefulWorlds.CarefulHoldingsReadAsLogged: the same.
- Recovery.ReadsAreOfWhatWasLogged: over runs with the same two conditions.
- Recovery.ActKeepsWorldOk: the same.
- Recovery.RecoveryRestoresEverything: the same.
- Recovery.AcknowledgedWritesSurvive: the same.
- Recovery.HoldingsReadAsLogged: the same.
- Commits.ReadsAreOfLoggedWriters: the same.
- TableFormat.ReadBlock: a compressed block is not modelled.
- Tables.WriteAndGet: for files below 2^32 bytes.
- PbDecode.DecodeVarint32: a code of more than 37 bytes, at which the eight-bit counter of bit positions wraps around, is refused.
- ManifestBytes.RecoverVersion: the log number, the next file number and the last sequence number of the last record are not followed in the bytes.
- CompactionInputs.PickCompaction: the level and the charged file are arbitrary, since level scores are not modelled; the compaction pointer is read but its update is not modelled.
- CompactionInputs.CompactRange: nothing is said about gaps above level 0, because there may be one.
- Compactions.DoCompactionWork: whether a table is big enough to end is arbitrary, since the sizes of tables being built are not modelled there; the cuts by overlap with grandparents are.
- LogReaders.Reader.ReadRecord: starts at the beginning of a file; resynchronising from an initial offset is not modelled.
- HazardRuns.DeletedKeyComesBack: where an output is cut is open there too, while the code cuts by size, so the run shows the shape of the tables and not their sizes.
- LogReplay.DeleteObsoleteFiles: old manifests and temporary files are not modelled.
- LogReplay.RecoverLogFile: a log is its entries there; `LogBytes` has its bytes, with records too short for a batch. The reuse of the last log is not modelled.
- GroupCommit.BatchesAreLoggedOnceInOrder: error-free writers only; a failed append or sync stops the database for good in the code.
- Crc32c.ExtendByStrides: the lookup tables are the linear maps they encode, computed from the polynomial, and the hardware path is not modelled.
- BlockIterators.DecodeEntry: lengths whose sum overflows 32 bits, which only corrupted blocks have, are refused like other lengths that are too large.
- Tables.Table.InternalGet: the block cache, which returns what was read before, and compressed blocks are not modelled; a block of 2^32 bytes or more, which no builder writes, is refused.
- TableBuilders.TableBuilder.Add: file writes succeed, and a block has fewer than 2^32 bytes.
- Blooms.CreateFilter: the hash is an arbitrary function; the factor 0.69 is exact, which gives the same number of probes.
- EditFormat.VersionEdit.EncodeTo: deleted files are written in an arbitrary order, where the code's is ascending; the round trip holds for every order.
- The grouping of a merge's input files into children of the merging iterator; the merge reads from any merging iterator over the input entries.
- PbDecode.EncodeAndDecode: for encodings below 2^32 bytes, the bound of the 32-bit sizes; callbacks, extensions, pointer fields, default values other than zero, and the layout of C structures are not modelled.
- PbDecode.Decode: what a message holds after a failure is not stated, and of a submessage that cannot be decoded only that it lacks something or does not end where its length says is followed to the outside.
- PbEncode.EncodeArray: more items or bytes than a field has room for, which the encoder refuses, are not values of the model, nor is text without its terminating zero.
- Background errors and shutting down: the code then stops background work for good.
- 32-bit overflow in the binary search over files, and what a search of a corrupted table answers.
- Loss of unsynced data in a machine crash: a crash is a crash of the process, after which written bytes are there.
- Weak memory order: loads and stores of the skip list are sequentially consistent, and the other shared state is used under the lock.
- Sharding of the cache, and freeing of memory.
- The application itself, environments, options, repair and the C bindings.
