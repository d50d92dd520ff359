// The database object: each method does what the code does and takes one step of the state
// machine.

module DbImpl {
  import opened InternalKeys
  import opened MergingIterators
  import opened Versions
  import opened VersionEdits
  import opened CompactionInputs
  import opened MemTableOutput
  import opened LevelInvariants
  import opened Compactions
  import opened MergeResults
  import opened Database

  lemma PickedLevelFits(v: Version, level: nat, file: File)
    requires level <= MAX_MEM_COMPACT_LEVEL
    requires 0 < level ==> forall i, f | 0 <= i <= level && f in v[i] :: !Overlaps(f, UserRange(file))
    ensures FlushFits(v, level, file)
  {
  }

  lemma EntriesAreDistinct(v: Version, level: nat)
    requires DistinctStamps(Contents(v)) && level < NUM_LEVELS
    ensures DistinctIn(v[level])
  {
    forall x | Holds(v[level], x)
      ensures x in Contents(v)
    {
    }
  }

  // An edit of fresh numbers never meets an equivalent file in the base.
  lemma NothingEquivalent(v: Version, edit: VersionEdit, builder: Builder)
    requires builder.Valid() && builder.base == v && FreshAdds(v, edit)
    requires builder.State() == ApplyTo(NothingPending(), edit)
    ensures forall l, f, g | 0 <= l < NUM_LEVELS && f in v[l] && g in builder.addedFiles[l] :: !Equivalent(f, g)
  {
    forall l, f, g | 0 <= l < NUM_LEVELS && f in v[l] && g in builder.addedFiles[l]
      ensures !Equivalent(f, g)
    {
      InsertedMembers({}, edit.added, l);
      assert g in builder.State().added[l];
      assert f.number != g.number;
    }
  }

  // LogAndApply's in-memory part: a new version from the current one and an edit.
  method ApplyEdit(v: Version, edit: VersionEdit) returns (v': Version)
    requires OrderedVersion(v) && FreshAdds(v, edit)
    ensures Saves(v, ApplyTo(NothingPending(), edit), v')
  {
    var builder := new Builder(v);
    builder.Apply(edit);
    NothingEquivalent(v, edit, builder);
    v' := builder.SaveTo();
  }

  // A compaction asked for by a client, of a level and a range of user keys.
  datatype ManualCompaction = ManualCompaction(level: nat, range: Range, done: bool)

  // What a version needs: its fullest level, or a file charged with too many seeks.
  datatype Need = Need(level: nat, charged: Option<File>, compactPointer: Option<InternalKey>)

  // What a round of background work did.
  datatype Work =
    | Nothing
    | Flush(level: nat)
    | Move(compaction: Compaction)
    | Merge(compaction: Compaction)

  // A manual compaction is done when nothing overlaps its range. Otherwise what is left of it
  // begins where the chosen files end.
  function Remaining(manual: Option<ManualCompaction>, work: Work): Option<ManualCompaction> {
    if manual.None? then None
    else if work.Merge? && work.compaction.inputs0 != [] then
      var files := work.compaction.inputs0;
      Some(manual.value.(done := false, range := Range(Some(Largest(files[|files|-1]).user), manual.value.range.end)))
    else
      Some(manual.value.(done := true))
  }

  // A compaction that the version needs: it takes in the charged file, or else the first file
  // after the compaction pointer.
  ghost predicate IsNeeded(v: Version, n: Need, maxFileSize: nat, c: Compaction) {
    && c.level == n.level < NUM_LEVELS
    && (n.charged.Some? ==> n.charged.value in c.inputs0)
    && exists first :: first in c.inputs0 && IsFirstPick(v[n.level], n.charged, n.compactPointer, first)
                       && IsPicked(v, n.level, first, maxFileSize, c)
  }

  // A compaction that a manual request is answered with: what overlaps the range is taken in, or
  // comes after the last file taken in.
  ghost predicate AnswersManual(v: Version, m: ManualCompaction, maxFileSize: nat, c: Compaction) {
    && c.level == m.level < NUM_LEVELS && c.inputs0 != []
    && (exists inputs :: IsManualStart(v[m.level], m.level, m.range, maxFileSize, inputs) && IsSetUp(v, inputs, maxFileSize, c))
    && forall f | f in v[m.level] && Overlaps(f, m.range) ::
         f in c.inputs0 || Largest(c.inputs0[|c.inputs0|-1]).user <= Smallest(f).user
  }

  // The grandparents of a chosen compaction are in order.
  lemma ChosenAscend(s: State, need: Option<Need>, manual: Option<ManualCompaction>, maxFileSize: nat, c: Compaction)
    requires Structure(s)
    requires (need.Some? && IsNeeded(s.version, need.value, maxFileSize, c)) || (manual.Some? && AnswersManual(s.version, manual.value, maxFileSize, c))
    ensures SortedFiles(c.grandparents)
  {
    SoundIsValid(s.version);
    hide AreGrandparents, SortedFiles, IsManualStart, IsGrown, AddsBoundaries, Sound, Overlaps, IsOverlapping, IsRangeOf;
    assert AreGrandparents(s.version, c);
    GrandparentsAscend(s.version, c);
  }

  // The flush takes the next file number, unless the memtable was empty.
  ghost predicate Flushes(s: State, level: nat, size: nat, s': State) {
    if ImmEntries(s) == [] then
      FlushStep(s, level, 0, size, s')
    else
      FlushStep(s.(nextFile := s.nextFile + 1), level, s.nextFile, size, s')
  }

  // A merge must keep what the oldest snapshot reads, or the last sequence number if there is none.
  ghost predicate MergesAtOldest(m: Database.Merge, snapshots: seq<SequenceNumber>, last: SequenceNumber) {
    if snapshots == [] then m.smallestSnapshot == last
    else
      && m.smallestSnapshot in snapshots
      && ((forall i, j | 0 <= i < j < |snapshots| :: snapshots[i] <= snapshots[j]) ==> forall q | q in snapshots :: m.smallestSnapshot <= q)
  }

  // The level a flush goes to.
  ghost predicate GoesTo(s: State, maxFileSize: nat, level: nat) {
    var es := ImmEntries(s);
    if es == [] then level == 0
    else IsOutputLevel(s.version, Range(Some(es[0].key.user), Some(es[|es|-1].key.user)), maxFileSize, level)
  }

  lemma NothingGoesAnywhere(s: State, maxFileSize: nat)
    requires ImmEntries(s) == []
    ensures GoesTo(s, maxFileSize, 0)
  {
  }

  lemma CanFlush(s: State)
    requires Structure(s) && ImmEntries(s) != []
    ensures Sorted(s.imm.value) && OrderedVersion(s.version) && forall i | 1 <= i < NUM_LEVELS :: SortedFiles(s.version[i])
    ensures NumbersBelow(s.version, s.nextFile) && s.nextFile !in s.pendingOutputs
  {
    SoundIsValid(s.version);
    SoundIsOrdered(s.version);
  }

  lemma CanMerge(s: State)
    requires Structure(s) && DistinctStamps(Live(s)) && s.running.Some?
    requires Mergeable(s.version, s.running.value.compaction) && Sound(s.running.value.base)
    ensures DistinctStamps(MergeInput(s.running.value.compaction))
    ensures s.running.value.compaction.level + 1 < NUM_LEVELS
    ensures forall i | 1 <= i < NUM_LEVELS :: SortedFiles(s.running.value.base[i])
  {
    InputIsLive(s, s.running.value.compaction);
    SubsetIsDistinct(MergeInput(s.running.value.compaction), Live(s));
    SoundIsValid(s.running.value.base);
  }

  lemma WentTo(s: State, file: File, maxFileSize: nat, level: nat)
    requires ImmEntries(s) == file.entries
    requires IsOutputLevel(s.version, Range(Some(Smallest(file).user), Some(Largest(file).user)), maxFileSize, level)
    ensures GoesTo(s, maxFileSize, level)
  {
  }

  lemma AnsweredOrLeft(v: Version, m: ManualCompaction, maxFileSize: nat, c: Compaction)
    requires AnswersManual(v, m, maxFileSize, c)
    ensures c.level == m.level && c.inputs0 != []
    ensures forall f | f in v[m.level] && Overlaps(f, m.range) ::
              f in c.inputs0 || Overlaps(f, Range(Some(Largest(c.inputs0[|c.inputs0|-1]).user), m.range.end))
  {
    forall f | f in v[m.level] && Overlaps(f, m.range) && f !in c.inputs0
      ensures Overlaps(f, Range(Some(Largest(c.inputs0[|c.inputs0|-1]).user), m.range.end))
    {
      FileIsNotReversed(f);
    }
  }

  lemma StartIsValid(r: Run)
    requires Init(r)
    ensures Structure(r.db) && IsNumbered(r.db)
  {
    InitKeepsInv(r);
    hide Structure, DistinctStamps, Live, ReadsKept;
    SubsetIsDistinct(Live(r.db), r.history);
  }

  lemma NumbersAreBelow(s: State)
    requires IsNumbered(s)
    ensures forall x | x in Live(s) :: x.key.sequence <= s.lastSequence + s.inserted
  {
    hide Live;
  }

  lemma LevelIsPickable(s: State, level: nat)
    requires Structure(s) && IsNumbered(s) && level < NUM_LEVELS
    ensures DistinctIn(s.version[level]) && (1 <= level ==> SortedFiles(s.version[level]))
  {
    SoundIsValid(s.version);
    SubsetIsDistinct(Contents(s.version), Live(s));
    EntriesAreDistinct(s.version, level);
  }

  lemma OutputIsFresh(s: State)
    ensures var s' := s.(pendingOutputs := s.pendingOutputs + {s.nextFile}, nextFile := s.nextFile + 1);
            Structure(s) && IsNumbered(s) ==>
              && Structure(s') && IsNumbered(s') && Live(s') == Live(s) && s.nextFile !in s.pendingOutputs
              && forall l, f | 0 <= l < NUM_LEVELS && f in s.version[l] :: f.number < s.nextFile
  {
    hide Sound, Sorted;
  }

  lemma Released(s: State, index: nat)
    requires index < |s.snapshots|
    ensures var s' := s.(snapshots := s.snapshots[..index] + s.snapshots[index+1..]);
            && multiset(s.snapshots) == multiset(s'.snapshots) + multiset{s.snapshots[index]}
            && forall h | SnapshotsInOrder(s.snapshots, h, s.lastSequence) ::
                 SnapshotsInOrder(s'.snapshots, h, s.lastSequence) && OldestSnapshot(s) <= OldestSnapshot(s')
  {
    var all := s.snapshots;
    assert all == all[..index] + [all[index]] + all[index+1..];
    forall h | SnapshotsInOrder(all, h, s.lastSequence)
      ensures SnapshotsInOrder(all[..index] + all[index+1..], h, s.lastSequence)
    {
    }
  }

  class DbImpl {
    var mem: seq<Entry>
    var imm: Option<seq<Entry>>
    var version: Version
    var lastSequence: SequenceNumber
    var inserted: nat
    var snapshots: seq<SequenceNumber>
    var running: Option<Database.Merge>
    var pendingOutputs: set<nat>
    var nextFile: nat

    ghost function View(): State
      reads this
    {
      State(mem, imm, version, lastSequence, inserted, snapshots, running, pendingOutputs, nextFile)
    }

    ghost predicate Valid()
      reads this
    {
      Structure(View()) && IsNumbered(View())
    }

    constructor ()
      ensures Init(Run(View(), {}, 0)) && Valid()
    {
      mem, imm, version := [], None, [[], [], [], [], [], [], []];
      lastSequence, inserted, snapshots := 0, 0, [];
      running, pendingOutputs, nextFile := None, {}, 2;
      new;
      StartIsValid(Run(View(), {}, 0));
    }

    // One entry of a batch goes into the memtable with the next sequence number: a read at that
    // number finds it, and reads below it stay what they were.
    method Insert(user: UserKey, kind: Kind, value: Value)
      requires Valid() && lastSequence + inserted + 1 < MAX_SEQUENCE
      modifies this`mem, this`inserted
      ensures Next(old(View()), Step.Insert(user, kind, value), View())
      ensures Valid() && lastSequence + inserted == old(lastSequence + inserted) + 1
      ensures Lookup(Live(View()), user, lastSequence + inserted) == if kind.Put? then Some(value) else None
      ensures forall u, q: SequenceNumber | q < lastSequence + inserted :: Lookup(Live(View()), u, q) == Lookup(old(Live(View())), u, q)
    {
      hide InsertEntry, Structure, Live, Lookup, IsNumbered;
      ghost var before := View();
      NumbersAreBelow(before);
      var e := Entry(InternalKey(user, lastSequence + inserted + 1, kind), if kind.Put? then value else "");
      mem := InsertEntry(mem, e);
      inserted := inserted + 1;
      InsertKeepsStructure(before, e, View());
      InsertedIsRead(before, e, View());
    }

    method SetLastSequence()
      requires lastSequence + inserted < MAX_SEQUENCE
      modifies this
      ensures Next(old(View()), Publish, View())
    {
      lastSequence, inserted := lastSequence + inserted, 0;
    }

    method SwitchMemTable()
      requires imm.None? && inserted == 0
      modifies this
      ensures Next(old(View()), Step.SwitchMemTable, View())
    {
      imm, mem := Some(mem), [];
    }

    // A snapshot at the last published sequence number, which a merge that begins while it is
    // held must respect.
    method GetSnapshot() returns (s: SequenceNumber)
      modifies this`snapshots
      ensures Next(old(View()), TakeSnapshot, View()) && s == lastSequence && s in snapshots
      ensures old(Valid()) ==> Valid() && Live(View()) == old(Live(View()))
      ensures forall h | SnapshotsInOrder(old(snapshots), h, lastSequence) ::
                SnapshotsInOrder(snapshots, h, lastSequence) && OldestSnapshot(View()) <= s
    {
      s := lastSequence;
      snapshots := snapshots + [s];
    }

    // Only this snapshot is given up; the oldest one still held is no older than before.
    method ReleaseSnapshot(index: nat)
      requires index < |snapshots|
      modifies this`snapshots
      ensures Next(old(View()), Step.ReleaseSnapshot(index), View())
      ensures multiset(old(snapshots)) == multiset(snapshots) + multiset{old(snapshots[index])}
      ensures forall h | SnapshotsInOrder(old(snapshots), h, lastSequence) ::
                SnapshotsInOrder(snapshots, h, lastSequence) && old(OldestSnapshot(View())) <= OldestSnapshot(View())
    {
      hide SnapshotsInOrder, OldestSnapshot;
      Released(View(), index);
      snapshots := snapshots[..index] + snapshots[index+1..];
    }

    // A read at a sequence number: nothing is modified, and the answer is the reading of
    // everything live.
    method Get(user: UserKey, s: SequenceNumber) returns (value: Option<Value>)
      requires Structure(View()) && DistinctStamps(Live(View()))
      ensures value == Lookup(Live(View()), user, s)
    {
      value := Database.Get(State(mem, imm, version, lastSequence, inserted, snapshots, running, pendingOutputs, nextFile), user, s);
    }

    // Writes the immutable memtable to the level picked for it.
    method CompactMemTable(size: nat, maxFileSize: nat) returns (level: nat)
      requires Structure(View()) && imm.Some?
      modifies this
      ensures Flushes(old(View()), level, size, View())
      ensures GoesTo(old(View()), maxFileSize, level)
    {
      hide GoesTo, Structure, SortedFiles, OrderedVersion, FreshAdds, FlushFits, NumbersBelow, ApplyTo, Saves, Sorted, IsOutputLevel;
      level := 0;
      if imm.value == [] {
        NothingGoesAnywhere(View(), maxFileSize);
        imm := None;
        return;
      }
      CanFlush(View());
      var file: File := FileMetaData(nextFile, size, imm.value);
      level := PickLevelForMemTableOutput(version, Smallest(file).user, Largest(file).user, maxFileSize);
      WentTo(View(), file, maxFileSize, level);
      PickedLevelFits(version, level, file);
      FlushFresh(version, level, file);
      var v' := ApplyEdit(version, FlushEdit(level, file));
      version, imm, nextFile := v', None, nextFile + 1;
    }

    method Pick(level: nat, charged: Option<File>, compactPointer: Option<InternalKey>, maxFileSize: nat)
      returns (c: Compaction)
      requires Valid()
      requires level + 1 < NUM_LEVELS && version[level] != [] && (charged.Some? ==> charged.value in version[level])
      ensures c.level == level && WellChosen(version, c) && Gapless(Inputs(c)) && GapsAreCovered(version, c)
      ensures IsNeeded(version, Need(level, charged, compactPointer), maxFileSize, c) && SortedFiles(c.grandparents)
    {
      hide IsPicked, Structure, IsNumbered, DistinctIn, SortedFiles, WellChosen, Gapless, GapsAreCovered, Contents, Live, DistinctStamps, ValidVersion;
      LevelIsPickable(View(), level);
      c := PickCompaction(version, level, charged, compactPointer, maxFileSize);
      GaplessIsCovered(version, c);
      ChosenAscend(View(), Some(Need(level, charged, compactPointer)), None, maxFileSize, c);
    }

    method PickManual(m: ManualCompaction, maxFileSize: nat) returns (c: Option<Compaction>)
      requires Valid() && m.level + 1 < NUM_LEVELS
      ensures c.None? <==> forall f | f in version[m.level] :: !Overlaps(f, m.range)
      ensures c.Some? ==> WellChosen(version, c.value) && AnswersManual(version, m, maxFileSize, c.value) && SortedFiles(c.value.grandparents)
    {
      hide IsManualStart, IsSetUp, Overlaps, Structure, IsNumbered, DistinctIn, SortedFiles, WellChosen, Gapless, Contents, Live, DistinctStamps, ValidVersion;
      LevelIsPickable(View(), m.level);
      c := CompactRange(version, m.level, m.range, maxFileSize);
      if c.Some? {
        ChosenAscend(View(), None, Some(m), maxFileSize, c.value);
      }
    }

    method MoveDown(c: Compaction)
      requires Structure(View()) && running.None? && WellChosen(version, c) && |c.inputs0| == 1 && c.inputs1 == []
      modifies this
      ensures MoveStep(old(View()), c, View())
    {
      assert OrderedVersion(version) && UniqueNumbers(version);
      hide Structure, WellChosen, ApplyTo, Saves, MoveEdit, FreshAdds, UniqueNumbers, Ordered;
      MoveIsFresh(version, c);
      var v' := ApplyEdit(version, MoveEdit(c));
      version := v';
    }

    method StartMerge(c: Compaction)
      requires running.None? && WellChosen(version, c)
      modifies this`running
      ensures BeginMergeStep(old(View()), c, View())
      ensures running.Some? && MergesAtOldest(running.value, snapshots, lastSequence)
    {
      hide WellChosen;
      running := Some(Database.Merge(c, version, if snapshots == [] then lastSequence else snapshots[0]));
    }

    // One round of background work: the immutable memtable first, then a manual compaction if
    // one is asked for, otherwise what the version needs. A file that needs no merge moves down,
    // unless the compaction is manual; otherwise a merge begins. `left` is what remains of the
    // manual compaction.
    method BackgroundCompaction(manual: Option<ManualCompaction>, needed: Option<Need>, size: nat, maxFileSize: nat)
      returns (work: Work, left: Option<ManualCompaction>)
      requires Valid() && running.None?
      requires manual.Some? ==> manual.value.level + 1 < NUM_LEVELS
      requires needed.Some? ==>
                 var n := needed.value;
                 n.level + 1 < NUM_LEVELS && version[n.level] != [] && (n.charged.Some? ==> n.charged.value in version[n.level])
      modifies this
      ensures work.Flush? <==> old(imm.Some?)
      ensures work.Flush? ==> left == manual && Flushes(old(View()), work.level, size, View())
      ensures work.Move? ==> manual.None? && MoveStep(old(View()), work.compaction, View())
      ensures work.Merge? ==> BeginMergeStep(old(View()), work.compaction, View()) && SortedFiles(work.compaction.grandparents)
      ensures work.Merge? ==> running.Some? && MergesAtOldest(running.value, snapshots, lastSequence)
      ensures work.Merge? && manual.None? ==> GapsAreCovered(old(version), work.compaction)
      ensures work.Nothing? ==> View() == old(View())
      ensures work.Flush? ==> GoesTo(old(View()), maxFileSize, work.level)
      ensures !work.Flush? && manual.None? ==>
                && left == None && (work.Nothing? <==> needed.None?)
                && (!work.Nothing? ==> IsNeeded(old(version), needed.value, maxFileSize, work.compaction))
                && (!work.Nothing? ==>
                      var c := work.compaction;
                      work.Move? <==> |c.inputs0| == 1 && c.inputs1 == [] && TotalFileSize(c.grandparents) <= 10 * maxFileSize)
      ensures work.Nothing? && manual.Some? ==>
                && left == Some(manual.value.(done := true))
                && forall f | f in version[manual.value.level] :: !Overlaps(f, manual.value.range)
      ensures work.Merge? && manual.Some? ==>
                var m, c := manual.value, work.compaction;
                && AnswersManual(old(version), m, maxFileSize, c) && c.level == m.level
                && left == Some(ManualCompaction(m.level, Range(Some(Largest(c.inputs0[|c.inputs0|-1]).user), m.range.end), false))
                && (exists f :: f in old(version)[m.level] && Overlaps(f, m.range))
                && forall f | f in old(version)[m.level] && Overlaps(f, m.range) :: f in c.inputs0 || Overlaps(f, left.value.range)
    {
      hide SortedFiles, IsNeeded, AnswersManual, GoesTo, Structure, IsNumbered, Live, DistinctStamps, WellChosen, Gapless, GapsAreCovered, MoveStep, BeginMergeStep, Overlaps, FlushStep, Sound;
      left := manual;
      work := Nothing;
      if imm.Some? {
        var level := CompactMemTable(size, maxFileSize);
        work := Work.Flush(level);
        return;
      }
      if manual.Some? {
        var picked := PickManual(manual.value, maxFileSize);
        if picked.Some? {
          AnsweredOrLeft(version, manual.value, maxFileSize, picked.value);
          work := Work.Merge(picked.value);
          StartMerge(picked.value);
        }
      } else if needed.Some? {
        var c := Pick(needed.value.level, needed.value.charged, needed.value.compactPointer, maxFileSize);
        if IsTrivialMove(c, maxFileSize) {
          MoveDown(c);
          work := Work.Move(c);
        } else {
          StartMerge(c);
          work := Work.Merge(c);
        }
      }
      left := Remaining(manual, work);
    }

    // Merges everything the input iterator yields into runs of kept entries.
    method DoCompactionWork(it: MergingIterator, maxFileSize: nat) returns (runs: seq<seq<Entry>>)
      requires Structure(View()) && DistinctStamps(Live(View())) && running.Some?
      requires SortedFiles(running.value.compaction.grandparents)
      requires Mergeable(version, running.value.compaction) && Sound(running.value.base)
      requires it.WellFormed() && it.all == MergeInput(running.value.compaction)
      modifies it`current, it`direction, it.children
      ensures forall o: seq<Entry> | o in runs ::
                o != [] && Spanned(running.value.compaction.grandparents, o[0].key, o[|o|-1].key) <= 10 * maxFileSize
      ensures exists input: seq<Entry> ::
                && Sorted(input) && Elements(input) == MergeInput(running.value.compaction)
                && Flatten(runs) == Kept(input, |input|, running.value.smallestSnapshot, running.value.base, running.value.compaction.level)
      ensures IsMerged(MergeInput(running.value.compaction), running.value.smallestSnapshot, running.value.base,
                       running.value.compaction.level, Flatten(runs))
      ensures var ss := running.value.smallestSnapshot;
              forall d, e | d in Flatten(runs) && e in Flatten(runs) && d.key.user == e.key.user
                            && d.key.sequence <= ss && e.key.sequence <= ss :: d == e
    {
      hide Structure, DistinctStamps, Mergeable, Sound, MergeInput, Live, Sorted, SortedFiles, it.WellFormed, Kept, Flatten, IsMerged, Spanned;
      CanMerge(View());
      var input := ReadAll(it);
      var scan := new BaseLevelScan(running.value.base, running.value.compaction.level);
      var stops := new GrandparentScan(running.value.compaction.grandparents, 10 * maxFileSize);
      runs := Compactions.DoCompactionWork(input, scan, stops, running.value.smallestSnapshot);
    }

    // The output gets a number of its own, above those of all tables in the version.
    method OpenCompactionOutputFile() returns (number: nat)
      requires running.Some?
      modifies this`pendingOutputs, this`nextFile
      ensures Next(old(View()), OpenOutput, View()) && number in pendingOutputs
      ensures old(Valid()) ==>
                && Valid() && Live(View()) == old(Live(View())) && number < nextFile && number !in old(pendingOutputs)
                && forall l, f | 0 <= l < NUM_LEVELS && f in version[l] :: f.number < number
    {
      hide Structure, IsNumbered, Live;
      OutputIsFresh(View());
      number := nextFile;
      pendingOutputs, nextFile := pendingOutputs + {number}, nextFile + 1;
    }

    method InstallCompactionResults(outs: seq<File>)
      requires Structure(View()) && running.Some?
      requires Mergeable(version, running.value.compaction)
      requires IsMergeOutput(running.value.compaction, running.value.base, running.value.smallestSnapshot, outs)
      requires forall i | 0 <= i < |outs| :: outs[i].number in pendingOutputs
      requires forall i, j | 0 <= i < j < |outs| :: outs[i].number != outs[j].number
      modifies this
      ensures FinishMergeStep(old(View()), outs, View())
    {
      hide IsMergeOutput, Structure, ApplyTo, Saves, Mergeable, MergeEdit, FreshAdds, WellFormedPending, OrderedVersion;
      var c := running.value.compaction;
      InstallIsFresh(View(), c, outs);
      var v' := ApplyEdit(version, MergeEdit(c, outs));
      version, running, pendingOutputs := v', None, {};
    }
  }

  lemma MoveIsFresh(v: Version, c: Compaction)
    requires UniqueNumbers(v) && WellChosen(v, c) && |c.inputs0| == 1 && c.inputs1 == []
    ensures FreshAdds(v, MoveEdit(c))
  {
    var f := c.inputs0[0];
    assert f in c.inputs0 && f in v[c.level];
    hide LeavesOnlyNewer, WellChosen;
    assert forall a | a in MoveEdit(c).added :: a == (c.level + 1, f);
  }

  lemma InstallIsFresh(s: State, c: Compaction, outs: seq<File>)
    requires Structure(s) && Mergeable(s.version, c)
    requires forall i | 0 <= i < |outs| :: outs[i].number in s.pendingOutputs
    requires forall i, j | 0 <= i < j < |outs| :: outs[i].number != outs[j].number
    ensures FreshAdds(s.version, MergeEdit(c, outs)) && OrderedVersion(s.version)
  {
    hide Sound, FreshAdds, MergeEdit, OrderedVersion, NumbersAvoid, NumbersBelow, BeforeAll, AfterAll;
    MergeIsFresh(s.version, c, outs, s.pendingOutputs);
  }

  lemma MergeIsFresh(v: Version, c: Compaction, outs: seq<File>, pending: set<nat>)
    requires Sound(v) && c.level + 1 < NUM_LEVELS && NumbersAvoid(v, pending)
    requires forall i | 0 <= i < |outs| :: outs[i].number in pending
    requires forall i, j | 0 <= i < j < |outs| :: outs[i].number != outs[j].number
    ensures FreshAdds(v, MergeEdit(c, outs)) && OrderedVersion(v)
  {
    hide UniqueNumbers, LevelsApart, Level0ByAge, LevelsByAge, OrderedVersion;
    var edit := MergeEdit(c, outs);
    forall a | a in edit.added
      ensures a.0 == c.level + 1 && a.1 in outs
    {
      var i :| 0 <= i < |edit.added| && edit.added[i] == a;
      assert a == (c.level + 1, outs[i]);
    }
  }
}
