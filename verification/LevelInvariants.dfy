// What every flush, trivial move and merge keeps: levels sorted and disjoint, and newer
// entries always in higher levels.

module LevelInvariants {
  import opened InternalKeys
  import opened Versions
  import opened VersionEdits
  import opened CompactionInputs
  import opened MemTableOutput

  ghost predicate Apart(f: File, g: File) {
    Less(Largest(f), Smallest(g)) || Less(Largest(g), Smallest(f))
  }

  ghost predicate UniqueNumbers(v: Version) {
    forall i, j, f, g | 0 <= i < NUM_LEVELS && 0 <= j < NUM_LEVELS && f in v[i] && g in v[j] && f.number == g.number ::
      i == j && f == g
  }

  ghost predicate LevelsApart(v: Version) {
    forall i, f, g | 1 <= i < NUM_LEVELS && f in v[i] && g in v[i] && f != g :: Apart(f, g)
  }

  ghost predicate Level0ByAge(v: Version) {
    forall f, g | f in v[0] && g in v[0] && g.number < f.number :: Newer(f.entries, g.entries)
  }

  ghost predicate Sound(v: Version) {
    OrderedVersion(v) && UniqueNumbers(v) && LevelsApart(v) && Level0ByAge(v) && LevelsByAge(v)
  }

  lemma SoundIsOrdered(v: Version)
    requires Sound(v)
    ensures OrderedVersion(v)
  {
  }

  lemma SoundIsUnique(v: Version)
    requires Sound(v)
    ensures UniqueNumbers(v)
  {
  }

  lemma OrderedApartIsSorted(files: seq<File>)
    requires Ordered(files) && forall f, g | f in files && g in files && f != g :: Apart(f, g)
    ensures SortedFiles(files)
  {
    forall i, j | 0 <= i < j < |files|
      ensures Less(Largest(files[i]), Smallest(files[j]))
    {
      var f, g := files[i], files[j];
      OrderIsStrict(f, g, f);
      assert BySmallestKey(f, g) && f in files && g in files;
      SmallestIsNotAfterLargest(f);
      SmallestIsNotAfterLargest(g);
      LessIsStrictTotalOrder(Largest(g), Smallest(f), Smallest(g));
      LessIsStrictTotalOrder(Largest(g), Smallest(g), Smallest(g));
    }
  }

  lemma SmallestIsNotAfterLargest(f: File)
    ensures !Less(Largest(f), Smallest(f))
  {
    SmallestToLargest(f);
    assert f.entries[0] in f.entries;
  }

  lemma SoundIsValid(v: Version)
    requires Sound(v)
    ensures ValidVersion(v)
  {
    forall i | 1 <= i < NUM_LEVELS
      ensures SortedFiles(v[i])
    {
      OrderedApartIsSorted(v[i]);
    }
    forall i, j | 0 <= i < j < |v[0]|
      ensures v[0][i].number != v[0][j].number
    {
      assert v[0][i] in v[0] && v[0][j] in v[0];
      OrderIsStrict(v[0][i], v[0][i], v[0][i]);
    }
  }

  // ---- Edits by the files they leave

  ghost predicate FreshAdds(v: Version, edit: VersionEdit) {
    && WellFormedEdit(edit)
    && (forall a, f | a in edit.added && f in v[a.0] :: f.number != a.1.number)
    && (forall a, b | a in edit.added && b in edit.added && a.0 == b.0 && a.1.number == b.1.number :: a == b)
  }

  ghost predicate Edited(v: Version, edit: VersionEdit, v': Version) {
    && OrderedVersion(v')
    && forall l, f | 0 <= l < NUM_LEVELS ::
         f in v'[l] <==> (f in v[l] && (l, f.number) !in edit.deleted) || (l, f) in edit.added
  }

  // What the builder saves for one edit of fresh numbers.
  lemma EditMembers(v: Version, edit: VersionEdit, v': Version)
    requires FreshAdds(v, edit)
    requires Saves(v, ApplyTo(NothingPending(), edit), v')
    ensures Edited(v, edit, v')
  {
    var p := ApplyTo(NothingPending(), edit);
    forall l, f | 0 <= l < NUM_LEVELS
      ensures f in v'[l] <==> (f in v[l] && (l, f.number) !in edit.deleted) || (l, f) in edit.added
    {
      InsertedMembers({}, edit.added, l);
      assert p.deleted[l] == DeletionsAt(edit.deleted, l) - NumbersAt(edit.added, l);
      assert f in AddsAt(edit.added, l) <==> (l, f) in edit.added;
      assert f in v[l] ==> f.number !in NumbersAt(edit.added, l);
      assert (l, f) in edit.added ==> f.number in NumbersAt(edit.added, l);
      assert f.number in DeletionsAt(edit.deleted, l) <==> (l, f.number) in edit.deleted;
    }
  }

  // ---- Flush

  ghost function UserRange(f: File): Range {
    Range(Some(Smallest(f).user), Some(Largest(f).user))
  }

  // The level was picked so that nothing above it, or in it, overlaps the file.
  ghost predicate FlushFits(v: Version, level: nat, file: File) {
    && level <= MAX_MEM_COMPACT_LEVEL
    && (0 < level ==> forall i, f | 0 <= i <= level && f in v[i] :: !Overlaps(f, UserRange(file)))
  }

  ghost predicate NewestOfAll(v: Version, file: File) {
    && (forall i, f | 0 <= i < NUM_LEVELS && f in v[i] :: f.number < file.number)
    && (forall i, f, x, y | 0 <= i < NUM_LEVELS && f in v[i] && x in f.entries && y in file.entries :: x.key.sequence < y.key.sequence)
  }

  function FlushEdit(level: nat, file: File): VersionEdit {
    VersionEdit({}, [(level, file)])
  }

  lemma NotOverlappingSharesNothing(f: File, g: File)
    requires !Overlaps(f, UserRange(g))
    ensures Apart(f, g) && Newer(f.entries, g.entries) && Newer(g.entries, f.entries)
  {
    NothingShared(f, g);
    NothingShared(g, f);
  }

  // Version `v'` is `v` with one more file.
  ghost predicate AddsOne(v: Version, level: nat, file: File, v': Version) {
    && level < NUM_LEVELS
    && OrderedVersion(v')
    && forall l, f | 0 <= l < NUM_LEVELS :: f in v'[l] <==> f in v[l] || (l == level && f == file)
  }

  lemma AddKeepsLevelsByAge(v: Version, level: nat, file: File, v': Version)
    requires LevelsByAge(v) && AddsOne(v, level, file, v')
    requires forall i, f | 0 <= i < level && f in v[i] :: Newer(f.entries, file.entries)
    requires forall j, g | level < j < NUM_LEVELS && g in v[j] :: Newer(file.entries, g.entries)
    ensures LevelsByAge(v')
  {
    hide Newer;
    forall i, j | 0 <= i < j < NUM_LEVELS
      ensures forall f, g | f in v'[i] && g in v'[j] :: Newer(f.entries, g.entries)
    {
      forall f, g | f in v'[i] && g in v'[j]
        ensures Newer(f.entries, g.entries)
      {
        assert f in v[i] || (i == level && f == file);
        assert g in v[j] || (j == level && g == file);
      }
    }
  }

  lemma AddKeepsLevels(v: Version, level: nat, file: File, v': Version)
    requires UniqueNumbers(v) && LevelsApart(v) && Level0ByAge(v) && AddsOne(v, level, file, v')
    requires forall i, f | 0 <= i < NUM_LEVELS && f in v[i] :: f.number < file.number
    requires 1 <= level ==> forall f | f in v[level] :: Apart(f, file)
    requires level == 0 ==> forall f | f in v[0] :: Newer(file.entries, f.entries)
    ensures UniqueNumbers(v') && LevelsApart(v') && Level0ByAge(v')
  {
    hide Newer, Apart, Ordered;
    forall i, f, g | 1 <= i < NUM_LEVELS && f in v'[i] && g in v'[i] && f != g
      ensures Apart(f, g)
    {
      ApartIsSymmetric(f, g);
      assert f in v[i] || f == file;
      assert g in v[i] || g == file;
    }
  }

  lemma ApartIsSymmetric(f: File, g: File)
    ensures Apart(f, g) <==> Apart(g, f)
  {
  }

  lemma AddsContents(v: Version, level: nat, file: File, v': Version)
    requires AddsOne(v, level, file, v')
    ensures Contents(v') == Contents(v) + Elements(file.entries)
  {
    hide Ordered;
    forall e
      ensures e in Contents(v') <==> e in Contents(v) || e in file.entries
    {
      if e in Contents(v') {
        var i, f :| 0 <= i < NUM_LEVELS && f in v'[i] && e in f.entries;
        assert f in v[i] || f == file;
      }
      if e in Contents(v) {
        var i, f :| 0 <= i < NUM_LEVELS && f in v[i] && e in f.entries;
        assert f in v'[i];
      }
      if e in file.entries {
        assert file in v'[level];
      }
    }
  }

  lemma FlushKeepsSound(v: Version, level: nat, file: File, v': Version)
    requires Sound(v) && FlushFits(v, level, file) && NewestOfAll(v, file)
    requires Edited(v, FlushEdit(level, file), v')
    ensures Sound(v') && AddsOne(v, level, file, v')
    ensures Contents(v') == Contents(v) + Elements(file.entries)
  {
    assert AddsOne(v, level, file, v') by {
      assert forall l, f :: (l, f) in FlushEdit(level, file).added <==> l == level && f == file;
    }
    forall i, f | 0 <= i <= level && 0 < level && f in v[i]
      ensures Apart(f, file) && Newer(f.entries, file.entries)
    {
      NotOverlappingSharesNothing(f, file);
    }
    forall i, f | 0 <= i < NUM_LEVELS && f in v[i]
      ensures Newer(file.entries, f.entries)
    {
    }
    hide Newer, Apart, Ordered, NewestOfAll, FlushFits, Edited;
    AddKeepsLevels(v, level, file, v');
    AddKeepsLevelsByAge(v, level, file, v');
    AddsContents(v, level, file, v');
  }

  // ---- Merge and trivial move

  ghost function Inputs(c: Compaction): seq<File> {
    c.inputs0 + c.inputs1
  }

  ghost predicate BeforeAll(g: File, files: seq<File>) {
    forall f | f in files :: Less(Largest(g), Smallest(f))
  }

  ghost predicate AfterAll(g: File, files: seq<File>) {
    forall f | f in files :: Less(Largest(f), Smallest(g))
  }

  // What a compaction needs of the version its result is installed in.
  ghost predicate Mergeable(v: Version, c: Compaction) {
    && c.level + 1 < NUM_LEVELS
    && c.inputs0 != []
    && (forall f | f in c.inputs0 :: f in v[c.level])
    && (forall f | f in c.inputs1 :: f in v[c.level+1])
    && LeavesOnlyNewer(v[c.level], c.inputs0)
    && forall g | g in v[c.level+1] && g !in c.inputs1 :: BeforeAll(g, Inputs(c)) || AfterAll(g, Inputs(c))
  }

  // `g` does not overlap `r`, `f` does: `f` is on the other side of `g` than the end of `r`.
  lemma OnOneSide(f: File, g: File, r: Range)
    requires r.begin.Some? && r.end.Some?
    requires Overlaps(f, r) && !Overlaps(g, r)
    requires Within(f, r) || Apart(f, g)
    ensures if Largest(g).user < r.begin.value then Less(Largest(g), Smallest(f)) else Less(Largest(f), Smallest(g))
  {
    FileIsNotReversed(f);
    FileIsNotReversed(g);
  }

  lemma UnchosenIsOutside(v: Version, c: Compaction, r: Range, g: File)
    requires LevelsApart(v) && c.level + 1 < NUM_LEVELS
    requires IsRangeOf(c.inputs0, r) && c.inputs1 == Select(v[c.level+1], r)
    requires g in v[c.level+1] && g !in c.inputs1
    ensures BeforeAll(g, Inputs(c)) || AfterAll(g, Inputs(c))
  {
    SelectMembers(v[c.level+1], r);
    hide Apart, Overlaps, Within, Less;
    forall f | f in Inputs(c)
      ensures if Largest(g).user < r.begin.value then Less(Largest(g), Smallest(f)) else Less(Largest(f), Smallest(g))
    {
      assert f in c.inputs0 ==> Overlaps(f, r) && Within(f, r) by {
        if f in c.inputs0 {
          WithinOverlaps(f, r);
        }
      }
      OnOneSide(f, g, r);
    }
  }

  lemma WithinOverlaps(f: File, r: Range)
    ensures Within(f, r) ==> Overlaps(f, r)
  {
  }

  lemma WellChosenIsMergeable(v: Version, c: Compaction)
    requires Sound(v) && WellChosen(v, c)
    ensures Mergeable(v, c)
  {
    var r :| IsRangeOf(c.inputs0, r) && c.inputs1 == Select(v[c.level+1], r);
    SelectMembers(v[c.level+1], r);
    forall g | g in v[c.level+1] && g !in c.inputs1
      ensures BeforeAll(g, Inputs(c)) || AfterAll(g, Inputs(c))
    {
      UnchosenIsOutside(v, c, r, g);
    }
  }

  // Some file at these levels covers the user key.
  ghost predicate IsUnder(v: Version, level: nat, u: UserKey) {
    exists i, f :: 0 <= i <= level && i < NUM_LEVELS && f in v[i] && Covers(f, u)
  }

  // No memtable can be flushed into a gap between the inputs: the output level is too deep, or
  // files of the version cover every gap.
  ghost predicate GapsAreCovered(v: Version, c: Compaction) {
    c.level + 1 <= MAX_MEM_COMPACT_LEVEL ==>
      forall u | Between(Inputs(c), u) && !SomeCovers(Inputs(c), u) :: IsUnder(v, c.level + 1, u)
  }

  lemma GaplessIsCovered(v: Version, c: Compaction)
    requires Gapless(Inputs(c))
    ensures GapsAreCovered(v, c)
  {
    hide Between, SomeCovers;
  }

  lemma MoreFilesCoverMore(v: Version, c: Compaction, v': Version)
    requires GapsAreCovered(v, c) && forall l, f | 0 <= l < NUM_LEVELS && f in v[l] :: f in v'[l]
    ensures GapsAreCovered(v', c)
  {
    hide Between, SomeCovers, Covers;
  }

  lemma FitsAvoids(v: Version, level: nat, file: File, u: UserKey)
    requires 0 < level && FlushFits(v, level, file) && Covers(file, u)
    ensures !IsUnder(v, level, u)
  {
    forall i, f | 0 <= i <= level && i < NUM_LEVELS && f in v[i]
      ensures !Covers(f, u)
    {
      assert !Overlaps(f, UserRange(file));
    }
  }

  // A file flushed while the merge runs stays clear of the inputs.
  lemma FlushedIsOutside(v: Version, c: Compaction, level: nat, file: File)
    requires Mergeable(v, c) && GapsAreCovered(v, c)
    requires level == c.level + 1 && FlushFits(v, level, file)
    ensures BeforeAll(file, Inputs(c)) || AfterAll(file, Inputs(c))
  {
    var files, u := Inputs(c), Smallest(file).user;
    FileIsNotReversed(file);
    forall f | f in files
      ensures Largest(file).user < Smallest(f).user || Largest(f).user < Smallest(file).user
    {
      assert f in v[c.level] || f in v[c.level+1];
      assert !Overlaps(f, UserRange(file));
    }
    assert !SomeCovers(files, u);
    FitsAvoids(v, level, file, u);
    assert !Between(files, u);
    if forall f | f in files :: Largest(f).user < u {
      assert AfterAll(file, files);
    } else {
      assert forall f | f in files :: u < Smallest(f).user;
      forall f | f in files
        ensures Less(Largest(file), Smallest(f))
      {
        FileIsNotReversed(f);
      }
    }
  }

  lemma FlushKeepsMergeable(v: Version, c: Compaction, level: nat, file: File, v': Version)
    requires Mergeable(v, c) && GapsAreCovered(v, c)
    requires FlushFits(v, level, file) && NewestOfAll(v, file) && AddsOne(v, level, file, v')
    ensures Mergeable(v', c) && GapsAreCovered(v', c)
  {
    if level == c.level + 1 {
      FlushedIsOutside(v, c, level, file);
    }
    MoreFilesCoverMore(v, c, v');
    hide GapsAreCovered, BeforeAll, AfterAll, Ordered;
    forall f, g | f in c.inputs0 && g in v'[c.level] && g !in c.inputs0
      ensures Newer(g.entries, f.entries)
    {
      if g !in v[c.level] {
        assert g == file && f in v[c.level];
      }
    }
  }

  ghost predicate IsInput(c: Compaction, l: nat, f: File) {
    (l == c.level && f in c.inputs0) || (l == c.level + 1 && f in c.inputs1)
  }

  // Version `v'` is `v` with the inputs replaced by `outs` at the output level.
  ghost predicate Replaced(v: Version, c: Compaction, outs: seq<File>, v': Version) {
    && OrderedVersion(v')
    && forall l, f {:trigger f in v'[l]} {:trigger IsInput(c, l, f)} {:trigger f in v[l]} | 0 <= l < NUM_LEVELS ::
         f in v'[l] <==> (f in v[l] && !IsInput(c, l, f)) || (l == c.level + 1 && f in outs)
  }

  // Output files hold input entries only, are apart, and have numbers of their own.
  ghost predicate OutputsFit(v: Version, c: Compaction, outs: seq<File>) {
    && (forall o, e | o in outs && e in o.entries :: Holds(Inputs(c), e))
    && (forall o, p | o in outs && p in outs && o != p :: Apart(o, p))
    && (forall o, p | o in outs && p in outs && o.number == p.number :: o == p)
    && (forall o, l, f | o in outs && 0 <= l < NUM_LEVELS && f in v[l] && !IsInput(c, l, f) :: f.number != o.number)
  }

  lemma OutputIsApart(c: Compaction, o: File, g: File)
    requires forall e | e in o.entries :: Holds(Inputs(c), e)
    requires BeforeAll(g, Inputs(c)) || AfterAll(g, Inputs(c))
    ensures Apart(g, o)
  {
    forall e | e in o.entries
      ensures if BeforeAll(g, Inputs(c)) then Less(Largest(g), e.key) else Less(e.key, Smallest(g))
    {
      var f :| f in Inputs(c) && e in f.entries;
      SmallestToLargest(f);
      LessIsStrictTotalOrder(Largest(g), Smallest(f), e.key);
      LessIsStrictTotalOrder(e.key, Largest(f), Smallest(g));
    }
    assert o.entries[0] in o.entries && o.entries[|o.entries|-1] in o.entries;
  }

  // Newer than, or older than, every input it comes from.
  lemma OutputByAge(c: Compaction, o: File, g: File)
    requires forall e | e in o.entries :: Holds(Inputs(c), e)
    ensures (forall f | f in Inputs(c) :: Newer(g.entries, f.entries)) ==> Newer(g.entries, o.entries)
    ensures (forall f | f in Inputs(c) :: Newer(f.entries, g.entries)) ==> Newer(o.entries, g.entries)
  {
    forall x, y | x in o.entries && y in g.entries && x.key.user == y.key.user
      ensures (forall f | f in Inputs(c) :: Newer(g.entries, f.entries)) ==> x.key.sequence < y.key.sequence
      ensures (forall f | f in Inputs(c) :: Newer(f.entries, g.entries)) ==> y.key.sequence < x.key.sequence
    {
      var f :| f in Inputs(c) && x in f.entries;
    }
  }

  lemma StayingIsNewer(v: Version, c: Compaction, i: nat, g: File, f: File)
    requires LevelsByAge(v) && Mergeable(v, c)
    requires i <= c.level && g in v[i] && !IsInput(c, i, g) && f in Inputs(c)
    ensures Newer(g.entries, f.entries)
  {
    hide Newer, BeforeAll, AfterAll;
    if f in c.inputs0 && i == c.level {
      assert g in v[c.level] && g !in c.inputs0;
    } else {
      assert f in v[c.level] || f in v[c.level+1];
    }
  }

  lemma BelowIsOlder(v: Version, c: Compaction, j: nat, g: File, f: File)
    requires LevelsByAge(v) && Mergeable(v, c)
    requires c.level + 1 < j < NUM_LEVELS && g in v[j] && f in Inputs(c)
    ensures Newer(f.entries, g.entries)
  {
    hide Newer, BeforeAll, AfterAll;
    assert f in v[c.level] || f in v[c.level+1];
  }

  // Where a file of the new version comes from.
  lemma ReplacedMember(v: Version, c: Compaction, outs: seq<File>, v': Version, l: nat, f: File)
    requires Replaced(v, c, outs, v') && l < NUM_LEVELS && f in v'[l]
    ensures (f in v[l] && !IsInput(c, l, f)) || (l == c.level + 1 && f in outs)
  {
  }

  lemma ReplacedPairByAge(v: Version, c: Compaction, outs: seq<File>, v': Version, i: nat, f: File, j: nat, g: File)
    requires LevelsByAge(v) && Mergeable(v, c) && OutputsFit(v, c, outs) && Replaced(v, c, outs, v')
    requires i < j < NUM_LEVELS && f in v'[i] && g in v'[j]
    ensures Newer(f.entries, g.entries)
  {
    ReplacedMember(v, c, outs, v', i, f);
    ReplacedMember(v, c, outs, v', j, g);
    hide Newer, BeforeAll, AfterAll, Apart, Mergeable, Replaced;
    if f in v[i] && !IsInput(c, i, f) && g in v[j] && !IsInput(c, j, g) {
    } else if j == c.level + 1 && g in outs {
      forall h | h in Inputs(c)
        ensures Newer(f.entries, h.entries)
      {
        StayingIsNewer(v, c, i, f, h);
      }
      OutputByAge(c, g, f);
    } else {
      forall h | h in Inputs(c)
        ensures Newer(h.entries, g.entries)
      {
        BelowIsOlder(v, c, j, g, h);
      }
      OutputByAge(c, f, g);
    }
  }

  lemma ReplaceKeepsLevelsByAge(v: Version, c: Compaction, outs: seq<File>, v': Version)
    requires LevelsByAge(v) && Mergeable(v, c) && OutputsFit(v, c, outs) && Replaced(v, c, outs, v')
    ensures LevelsByAge(v')
  {
    hide Newer, Mergeable, OutputsFit, Replaced;
    forall i, j | 0 <= i < j < NUM_LEVELS
      ensures forall f, g | f in v'[i] && g in v'[j] :: Newer(f.entries, g.entries)
    {
      forall f, g | f in v'[i] && g in v'[j]
        ensures Newer(f.entries, g.entries)
      {
        ReplacedPairByAge(v, c, outs, v', i, f, j, g);
      }
    }
  }

  lemma ReplacedPairIsApart(v: Version, c: Compaction, outs: seq<File>, v': Version, i: nat, f: File, g: File)
    requires LevelsApart(v) && Mergeable(v, c) && OutputsFit(v, c, outs) && Replaced(v, c, outs, v')
    requires 1 <= i < NUM_LEVELS && f in v'[i] && g in v'[i] && f != g
    ensures Apart(f, g)
  {
    ReplacedMember(v, c, outs, v', i, f);
    ReplacedMember(v, c, outs, v', i, g);
    ApartIsSymmetric(f, g);
    hide Newer, BeforeAll, AfterAll, Apart, Replaced, LeavesOnlyNewer;
    if f in v[i] && !IsInput(c, i, f) {
      if g in v[i] && !IsInput(c, i, g) {
      } else {
        OutputIsApart(c, g, f);
      }
    } else if g in v[i] && !IsInput(c, i, g) {
      OutputIsApart(c, f, g);
    }
  }

  lemma ReplaceKeepsLevels(v: Version, c: Compaction, outs: seq<File>, v': Version)
    requires UniqueNumbers(v) && LevelsApart(v) && Level0ByAge(v)
    requires Mergeable(v, c) && OutputsFit(v, c, outs) && Replaced(v, c, outs, v')
    ensures UniqueNumbers(v') && LevelsApart(v') && Level0ByAge(v')
  {
    forall i, f, g | 1 <= i < NUM_LEVELS && f in v'[i] && g in v'[i] && f != g
      ensures Apart(f, g)
    {
      ReplacedPairIsApart(v, c, outs, v', i, f, g);
    }
    hide Newer, Mergeable, Apart, Ordered;
    forall i, j, f, g | 0 <= i < NUM_LEVELS && 0 <= j < NUM_LEVELS && f in v'[i] && g in v'[j] && f.number == g.number
      ensures i == j && f == g
    {
      ReplacedMember(v, c, outs, v', i, f);
      ReplacedMember(v, c, outs, v', j, g);
    }
  }

  ghost function Rest(v: Version, c: Compaction): set<Entry> {
    set l, f, e | 0 <= l < NUM_LEVELS && f in v[l] && !IsInput(c, l, f) && e in f.entries :: e
  }

  ghost function EntriesOf(files: seq<File>): set<Entry> {
    set f, e | f in files && e in f.entries :: e
  }

  lemma ContentsSplit(v: Version, c: Compaction)
    requires Mergeable(v, c)
    ensures Contents(v) == Rest(v, c) + EntriesOf(Inputs(c))
  {
    hide Ordered, BeforeAll, AfterAll, LeavesOnlyNewer;
    forall f | f in Inputs(c)
      ensures exists l :: 0 <= l < NUM_LEVELS && f in v[l] && IsInput(c, l, f)
    {
      assert IsInput(c, if f in c.inputs0 then c.level else c.level + 1, f);
    }
  }

  lemma ReplaceContents(v: Version, c: Compaction, outs: seq<File>, v': Version)
    requires Mergeable(v, c) && Replaced(v, c, outs, v')
    ensures Contents(v') == Rest(v, c) + EntriesOf(outs)
  {
    hide Ordered, BeforeAll, AfterAll, LeavesOnlyNewer;
    assert forall o | o in outs :: o in v'[c.level+1];
  }

  // An entry is in one file only, so what is merged and what is not share nothing.
  lemma RestIsDisjoint(v: Version, c: Compaction)
    requires Sound(v) && Mergeable(v, c)
    ensures Rest(v, c) !! EntriesOf(Inputs(c))
  {
    hide Ordered, BeforeAll, AfterAll, LeavesOnlyNewer, UniqueNumbers;
    forall e | e in EntriesOf(Inputs(c))
      ensures e !in Rest(v, c)
    {
      var f :| f in Inputs(c) && e in f.entries;
      var i := if f in c.inputs0 then c.level else c.level + 1;
      forall l, g | 0 <= l < NUM_LEVELS && g in v[l] && !IsInput(c, l, g)
        ensures e !in g.entries
      {
        assert l != i || g != f;
        InOneFile(v, i, f, l, g, e);
      }
    }
  }

  lemma InOneFile(v: Version, i: nat, f: File, l: nat, g: File, e: Entry)
    requires Sound(v) && i < NUM_LEVELS && l < NUM_LEVELS && f in v[i] && g in v[l]
    requires e in f.entries && (l != i || g != f)
    ensures e !in g.entries
  {
    SmallestToLargest(f);
    SmallestToLargest(g);
    if l < i {
      assert Newer(g.entries, f.entries);
    } else if i < l {
      assert Newer(f.entries, g.entries);
    } else if i == 0 {
      assert f.number != g.number;
      assert Newer(f.entries, g.entries) || Newer(g.entries, f.entries);
    } else {
      assert Apart(f, g);
      LessIsStrictTotalOrder(e.key, Largest(f), Smallest(g));
      LessIsStrictTotalOrder(e.key, Largest(g), Smallest(f));
    }
  }

  lemma ReplaceKeepsSound(v: Version, c: Compaction, outs: seq<File>, v': Version)
    requires Sound(v) && Mergeable(v, c) && OutputsFit(v, c, outs) && Replaced(v, c, outs, v')
    ensures Sound(v')
    ensures Contents(v) == Rest(v, c) + EntriesOf(Inputs(c)) && Rest(v, c) !! EntriesOf(Inputs(c))
    ensures Contents(v') == Rest(v, c) + EntriesOf(outs)
  {
    hide Mergeable, OutputsFit, Contents;
    ReplaceKeepsLevels(v, c, outs, v');
    ReplaceKeepsLevelsByAge(v, c, outs, v');
    ContentsSplit(v, c);
    ReplaceContents(v, c, outs, v');
    RestIsDisjoint(v, c);
  }

  // ---- The edits that make these changes

  function MergeEdit(c: Compaction, outs: seq<File>): VersionEdit {
    VersionEdit((set f | f in c.inputs0 :: (c.level, f.number)) + (set f | f in c.inputs1 :: (c.level + 1, f.number)),
                seq(|outs|, i requires 0 <= i < |outs| => (c.level + 1, outs[i])))
  }

  function MoveEdit(c: Compaction): VersionEdit
    requires |c.inputs0| == 1
  {
    VersionEdit({(c.level, c.inputs0[0].number)}, [(c.level + 1, c.inputs0[0])])
  }

  lemma MergeEditAdds(c: Compaction, outs: seq<File>)
    ensures forall l, f :: (l, f) in MergeEdit(c, outs).added <==> l == c.level + 1 && f in outs
    ensures forall a | a in MergeEdit(c, outs).added :: a.0 == c.level + 1 && a.1 in outs
  {
    var edit := MergeEdit(c, outs);
    forall l, f
      ensures (l, f) in edit.added <==> l == c.level + 1 && f in outs
    {
      if l == c.level + 1 && f in outs {
        var i :| 0 <= i < |outs| && outs[i] == f;
        assert edit.added[i] == (l, f);
      }
    }
    forall a | a in edit.added
      ensures a.0 == c.level + 1 && a.1 in outs
    {
      assert a == (a.0, a.1);
    }
  }

  lemma MergeEditDeletes(v: Version, c: Compaction, outs: seq<File>)
    requires UniqueNumbers(v) && Mergeable(v, c)
    ensures forall l, f | 0 <= l < NUM_LEVELS && f in v[l] :: (l, f.number) in MergeEdit(c, outs).deleted <==> IsInput(c, l, f)
    ensures WellFormedEdit(VersionEdit(MergeEdit(c, outs).deleted, []))
  {
    hide BeforeAll, AfterAll, LeavesOnlyNewer;
  }

  lemma MergeEditReplaces(v: Version, c: Compaction, outs: seq<File>, v': Version)
    requires UniqueNumbers(v) && Mergeable(v, c)
    requires forall o, p | o in outs && p in outs && o.number == p.number :: o == p
    requires forall o, f | o in outs && f in v[c.level+1] :: f.number != o.number
    requires Saves(v, ApplyTo(NothingPending(), MergeEdit(c, outs)), v')
    ensures Replaced(v, c, outs, v')
  {
    hide BeforeAll, AfterAll, LeavesOnlyNewer, Ordered, ApplyTo, Saves, UniqueNumbers, MergeEdit, IsInput;
    MergeEditAdds(c, outs);
    MergeEditDeletes(v, c, outs);
    assert FreshAdds(v, MergeEdit(c, outs));
    EditMembers(v, MergeEdit(c, outs), v');
  }

  // Moving a file is replacing it by itself one level down.
  lemma MoveEditReplaces(v: Version, c: Compaction, v': Version)
    requires UniqueNumbers(v) && Mergeable(v, c) && |c.inputs0| == 1 && c.inputs1 == []
    requires Saves(v, ApplyTo(NothingPending(), MoveEdit(c)), v')
    ensures Replaced(v, c, c.inputs0, v') && OutputsFit(v, c, c.inputs0)
  {
    hide BeforeAll, AfterAll, LeavesOnlyNewer, Ordered, ApplyTo, Saves, Replaced, Apart;
    var f := c.inputs0[0];
    assert c.inputs0 == [f] && f in Inputs(c) && f in v[c.level];
    assert MoveEdit(c).deleted == MergeEdit(c, c.inputs0).deleted;
    assert MoveEdit(c).added == MergeEdit(c, c.inputs0).added;
    MergeEditReplaces(v, c, c.inputs0, v');
  }
}
