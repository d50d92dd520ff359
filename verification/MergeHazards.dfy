// The cases in which a merge breaks what reads rely on, and the conditions that rule them out.

module MergeHazards {
  import opened InternalKeys
  import opened Versions
  import opened VersionEdits
  import opened CompactionInputs
  import opened MemTableOutput
  import opened LevelInvariants
  import opened Compactions
  import opened MergeResults

  // A user key with entries in a chosen and in an unchosen file of the output level.
  ghost predicate IsSplit(v: Version, c: Compaction, user: UserKey)
    requires c.level + 1 < NUM_LEVELS
  {
    exists f, g :: f in c.inputs1 && g in v[c.level+1] && g !in c.inputs1 && HasUser(f, user) && HasUser(g, user)
  }

  ghost predicate HasUser(f: File, user: UserKey) {
    exists e :: e in f.entries && e.key.user == user
  }

  lemma HasEntry(f: File, e: Entry)
    requires e in f.entries
    ensures HasUser(f, e.key.user)
  {
  }

  lemma HasUserIsCovered(f: File, user: UserKey)
    requires HasUser(f, user)
    ensures Covers(f, user)
  {
    SmallestToLargest(f);
  }

  // A merge chosen by the input selection resurrects only keys split that way.
  lemma ResurrectionNeedsSplit(v: Version, c: Compaction, ss: SequenceNumber, user: UserKey, gone: Entry, back: Entry)
    requires Sound(v) && WellChosen(v, c) && c.level + 1 < NUM_LEVELS
    requires Resurrects(Rest(v, c), EntriesOf(Inputs(c)), ss, v, c.level, user, gone, back)
    ensures IsSplit(v, c, user)
  {
    hide Sound, WellChosen, Mergeable, HasUser, Covers, IsBase, Inputs, IsInput, IsSplit;
    WellChosenIsMergeable(v, c);
    RestIsDisjoint(v, c);
    GoneIsNewer(Rest(v, c), EntriesOf(Inputs(c)), ss, v, c.level, user, gone, back);
    var f :| f in Inputs(c) && gone in f.entries;
    var l, g :| 0 <= l < NUM_LEVELS && g in v[l] && !IsInput(c, l, g) && back in g.entries;
    hide Rest, EntriesOf, Resurrects;
    HasEntry(f, gone);
    HasEntry(g, back);
    HasUserIsCovered(f, user);
    HasUserIsCovered(g, user);
    OlderIsAtOutputLevel(v, c, f, l, g, gone, back, user);
    SplitBy(v, c, f, g, user);
  }

  // It resurrects nothing if the unchosen files of the output level hold only newer entries of
  // the keys they share with the chosen ones.
  lemma LeavingNewerResurrectsNothing(v: Version, c: Compaction, ss: SequenceNumber, user: UserKey, gone: Entry, back: Entry)
    requires Sound(v) && WellChosen(v, c) && LeavesOnlyNewer(v[c.level+1], c.inputs1)
    ensures !Resurrects(Rest(v, c), EntriesOf(Inputs(c)), ss, v, c.level, user, gone, back)
  {
    hide Sound, WellChosen, LeavesOnlyNewer, Mergeable, HasUser, Covers, IsBase, Inputs, IsInput, Rest, EntriesOf, Resurrects;
    WellChosenIsMergeable(v, c);
    RestIsDisjoint(v, c);
    if Resurrects(Rest(v, c), EntriesOf(Inputs(c)), ss, v, c.level, user, gone, back) {
      GoneIsNewer(Rest(v, c), EntriesOf(Inputs(c)), ss, v, c.level, user, gone, back);
      BackIsLeft(v, c, user, gone, back);
    }
  }

  // An older entry that stays lies in an unchosen file of the output level.
  lemma BackIsLeft(v: Version, c: Compaction, user: UserKey, gone: Entry, back: Entry)
    requires Sound(v) && WellChosen(v, c) && Mergeable(v, c) && IsBase(v, c.level, user)
    requires gone in EntriesOf(Inputs(c)) && back in Rest(v, c) && gone != back
    requires gone.key.user == user == back.key.user && back.key.sequence <= gone.key.sequence
    ensures !LeavesOnlyNewer(v[c.level+1], c.inputs1)
  {
    hide Sound, WellChosen, Mergeable, HasUser, Covers, IsBase, IsInput;
    var f :| f in Inputs(c) && gone in f.entries;
    var l, g :| 0 <= l < NUM_LEVELS && g in v[l] && !IsInput(c, l, g) && back in g.entries;
    HasEntry(f, gone);
    HasEntry(g, back);
    HasUserIsCovered(f, user);
    HasUserIsCovered(g, user);
    OlderIsAtOutputLevel(v, c, f, l, g, gone, back, user);
    if f in c.inputs0 {
      InRangeIsChosen(v, c, f, g, user);
    } else {
      assert f in c.inputs1 && !Newer(g.entries, f.entries);
    }
  }

  lemma NoSplitLeavesNewer(v: Version, c: Compaction)
    requires c.level + 1 < NUM_LEVELS && forall user :: !IsSplit(v, c, user)
    ensures LeavesOnlyNewer(v[c.level+1], c.inputs1)
  {
    forall f, g, x, y | f in c.inputs1 && g in v[c.level+1] && g !in c.inputs1 && x in f.entries && y in g.entries
      ensures x.key.user != y.key.user
    {
      HasEntry(f, x);
      HasEntry(g, y);
      assert !IsSplit(v, c, x.key.user);
      hide HasUser;
    }
  }

  lemma GoneIsNewer(rest: set<Entry>, input: set<Entry>, ss: SequenceNumber, v: Version, level: nat, user: UserKey, gone: Entry, back: Entry)
    requires Resurrects(rest, input, ss, v, level, user, gone, back)
    ensures gone in input && back in rest && gone.key.user == user == back.key.user
    ensures IsBase(v, level, user) && back.key.sequence <= gone.key.sequence
  {
    assert back in Visible(rest + input, user, ss);
  }

  lemma SplitBy(v: Version, c: Compaction, f: File, g: File, user: UserKey)
    requires WellChosen(v, c) && f in Inputs(c) && g in v[c.level+1] && g !in c.inputs1
    requires HasUser(f, user) && HasUser(g, user) && Covers(f, user) && Covers(g, user)
    ensures IsSplit(v, c, user)
  {
    hide HasUser, LeavesOnlyNewer;
    if f in c.inputs0 {
      InRangeIsChosen(v, c, f, g, user);
    }
  }

  lemma OlderIsAtOutputLevel(v: Version, c: Compaction, f: File, l: nat, g: File, gone: Entry, back: Entry, user: UserKey)
    requires Sound(v) && Mergeable(v, c) && IsBase(v, c.level, user)
    requires f in Inputs(c) && gone in f.entries && gone.key.user == user
    requires l < NUM_LEVELS && g in v[l] && !IsInput(c, l, g) && back in g.entries && back.key.user == user
    requires Covers(g, user) && back.key.sequence <= gone.key.sequence
    ensures l == c.level + 1 && g !in c.inputs1
  {
    if l <= c.level {
      StayingIsNewer(v, c, l, g, f);
    }
  }

  lemma InRangeIsChosen(v: Version, c: Compaction, f: File, g: File, user: UserKey)
    requires WellChosen(v, c) && f in c.inputs0 && g in v[c.level+1]
    requires Covers(f, user) && Covers(g, user)
    ensures g in c.inputs1
  {
    var r :| IsRangeOf(c.inputs0, r) && c.inputs1 == Select(v[c.level+1], r);
    SelectMembers(v[c.level+1], r);
    assert Within(f, r) && Overlaps(g, r);
  }

  // ---- First hazard: a deletion merged away while the value it hides stays

  function Ent(user: UserKey, sequence: SequenceNumber, kind: Kind, value: Value): Entry {
    Entry(InternalKey(user, sequence, kind), value)
  }

  // Level 1 holds keys 1 to 2. At level 2 the deletion of key 5 ends one file and the put it
  // hides begins the next.
  function Upper(): File { FileMetaData(5, 1, [Ent(1.0, 20, Put, "x"), Ent(2.0, 21, Put, "y")]) }

  function Lower(): File { FileMetaData(3, 1, [Ent(1.0, 1, Put, "a"), Ent(5.0, 10, Deletion, "")]) }

  function LowerNext(): File { FileMetaData(4, 1, [Ent(5.0, 5, Put, "old"), Ent(9.0, 2, Put, "z")]) }

  function SplitVersion(): Version { [[], [Upper()], [Lower(), LowerNext()], [], [], [], []] }

  function SplitCompaction(): Compaction { Compaction(1, [Upper()], [Lower()], []) }

  lemma SplitVersionFiles()
    ensures forall l, f {:trigger f in SplitVersion()[l]} | 0 <= l < NUM_LEVELS ::
              f in SplitVersion()[l] <==> (l == 1 && f == Upper()) || (l == 2 && (f == Lower() || f == LowerNext()))
    ensures Smallest(Upper()).user == 1.0 && Largest(Upper()).user == 2.0
    ensures Smallest(Lower()).user == 1.0 && Largest(Lower()) == InternalKey(5.0, 10, Deletion)
    ensures Smallest(LowerNext()) == InternalKey(5.0, 5, Put) && Largest(LowerNext()).user == 9.0
    ensures Upper().number == 5 && Lower().number == 3 && LowerNext().number == 4
  {
    var v := SplitVersion();
    assert v[0] == [] && v[1] == [Upper()] && v[2] == [Lower(), LowerNext()];
    assert forall i | 3 <= i < NUM_LEVELS :: v[i] == [];
  }

  lemma SplitVersionOrder()
    ensures OrderedVersion(SplitVersion())
  {
    var v := SplitVersion();
    assert v[0] == [] && v[1] == [Upper()] && v[2] == [Lower(), LowerNext()];
    assert forall i | 3 <= i < NUM_LEVELS :: v[i] == [];
    assert BySmallestKey(Lower(), LowerNext());
  }

  lemma UpperIsNewer()
    ensures Newer(Upper().entries, Lower().entries) && Newer(Upper().entries, LowerNext().entries)
  {
  }

  lemma OverTwoIsSound(v: Version, a: File, b: File, c: File)
    requires OrderedVersion(v)
    requires forall l, f {:trigger f in v[l]} | 0 <= l < NUM_LEVELS :: f in v[l] <==> (l == 1 && f == a) || (l == 2 && (f == b || f == c))
    requires a.number != b.number && a.number != c.number && b.number != c.number
    requires Newer(a.entries, b.entries) && Newer(a.entries, c.entries) && Apart(b, c)
    ensures Sound(v)
  {
    hide Newer, Ordered;
    ApartIsSymmetric(b, c);
    hide Apart;
    forall i, j | 0 <= i < j < NUM_LEVELS
      ensures forall f, g | f in v[i] && g in v[j] :: Newer(f.entries, g.entries)
    {
    }
  }

  lemma SplitVersionIsSound()
    ensures Sound(SplitVersion())
  {
    SplitVersionFiles();
    SplitVersionOrder();
    UpperIsNewer();
    hide Upper, Lower, LowerNext, SplitVersion, Newer, Ordered, Sound;
    assert Apart(Lower(), LowerNext());
    OverTwoIsSound(SplitVersion(), Upper(), Lower(), LowerNext());
  }

  lemma LowerIsSelected()
    ensures Select([Lower(), LowerNext()], Range(Some(1.0), Some(2.0))) == [Lower()]
  {
    var r := Range(Some(1.0), Some(2.0));
    assert [Lower(), LowerNext()][..1] == [Lower()] && [Lower()][..0] == [];
    assert Overlaps(Lower(), r) && !Overlaps(LowerNext(), r);
    hide Lower, LowerNext, Overlaps;
    assert Select([], r) == [] && Select([Lower()], r) == [] + [Lower()];
  }

  lemma SplitCompactionIsChosen()
    ensures WellChosen(SplitVersion(), SplitCompaction())
  {
    hide Select, Lower, LowerNext;
    var v, c := SplitVersion(), SplitCompaction();
    LowerIsSelected();
    assert v[2] == [Lower(), LowerNext()];
    assert Upper() in c.inputs0;
    assert IsRangeOf(c.inputs0, Range(Some(1.0), Some(2.0)));
  }

  lemma SplitEntries()
    ensures forall e :: e in EntriesOf(Inputs(SplitCompaction())) <==> e in Upper().entries || e in Lower().entries
    ensures forall e :: e in Rest(SplitVersion(), SplitCompaction()) <==> e in LowerNext().entries
  {
    SplitVersionFiles();
    hide Upper, Lower, LowerNext;
    var v, c := SplitVersion(), SplitCompaction();
    assert c.level == 1 && c.inputs0 == [Upper()] && c.inputs1 == [Lower()];
    hide SplitVersion, SplitCompaction;
    assert forall f :: f in Inputs(c) <==> f == Upper() || f == Lower();
    forall e
      ensures e in Rest(v, c) <==> e in LowerNext().entries
    {
      if e in LowerNext().entries {
        assert LowerNext() in v[2] && !IsInput(c, 2, LowerNext());
      }
    }
  }

  lemma SplitReadings(rest: set<Entry>, input: set<Entry>, gone: Entry, back: Entry)
    requires forall e :: e in input <==> e in Upper().entries || e in Lower().entries
    requires forall e :: e in rest <==> e in LowerNext().entries
    requires gone == Ent(5.0, 10, Deletion, "") && back == Ent(5.0, 5, Put, "old")
    ensures IsNewest(rest + input, 5.0, 30, gone) && IsNewest(rest, 5.0, 30, back)
    ensures gone in input
  {
    assert forall e :: e in Upper().entries <==> e == Ent(1.0, 20, Put, "x") || e == Ent(2.0, 21, Put, "y");
    assert forall e :: e in Lower().entries <==> e == Ent(1.0, 1, Put, "a") || e == gone;
    assert forall e :: e in LowerNext().entries <==> e == back || e == Ent(9.0, 2, Put, "z");
  }

  lemma SplitIsBase()
    ensures IsBase(SplitVersion(), 1, 5.0)
  {
    SplitVersionFiles();
  }

  lemma SixEntries()
    ensures forall e :: e in Upper().entries <==> e == Ent(1.0, 20, Put, "x") || e == Ent(2.0, 21, Put, "y")
    ensures forall e :: e in Lower().entries <==> e == Ent(1.0, 1, Put, "a") || e == Ent(5.0, 10, Deletion, "")
    ensures forall e :: e in LowerNext().entries <==> e == Ent(5.0, 5, Put, "old") || e == Ent(9.0, 2, Put, "z")
  {
  }

  lemma SplitStampsDistinct()
    requires Mergeable(SplitVersion(), SplitCompaction())
    ensures DistinctStamps(Contents(SplitVersion()))
  {
    hide SplitVersion, SplitCompaction, Rest, Contents, EntriesOf, Mergeable, Inputs, DistinctStamps, Upper, Lower, LowerNext, Ent;
    var v, c := SplitVersion(), SplitCompaction();
    ContentsSplit(v, c);
    SplitEntries();
    SixEntries();
    SixStampsDistinct(Contents(v));
  }

  lemma SixStampsDistinct(es: set<Entry>)
    requires forall e | e in es ::
               || e == Ent(1.0, 20, Put, "x") || e == Ent(2.0, 21, Put, "y") || e == Ent(1.0, 1, Put, "a")
               || e == Ent(5.0, 10, Deletion, "") || e == Ent(5.0, 5, Put, "old") || e == Ent(9.0, 2, Put, "z")
    ensures DistinctStamps(es)
  {
    forall a, b | a in es && b in es && a.key.sequence == b.key.sequence
      ensures a == b
    {
    }
  }

  // Key 5 reads as deleted before the merge and as "old" after it.
  lemma SplitDeletionIsResurrected()
    ensures var v, c := SplitVersion(), SplitCompaction();
            && Sound(v) && WellChosen(v, c)
            && Resurrects(Rest(v, c), EntriesOf(Inputs(c)), 30, v, 1, 5.0, Ent(5.0, 10, Deletion, ""), Ent(5.0, 5, Put, "old"))
            && Lookup(Contents(v), 5.0, 30) == None
            && Lookup(Rest(v, c) + KeptSet(EntriesOf(Inputs(c)), 30, v, 1), 5.0, 30) == Some("old")
  {
    hide SplitVersion, SplitCompaction, Rest, Contents, EntriesOf, Sound, WellChosen, Inputs, Upper, Lower, LowerNext, KeptSet, DistinctStamps, Resurrects, Lookup;
    var v, c := SplitVersion(), SplitCompaction();
    SplitParts();
    SplitEntries();
    SplitIsBase();
    SplitOutcome(Rest(v, c), EntriesOf(Inputs(c)), v);
  }

  lemma SplitParts()
    ensures var v, c := SplitVersion(), SplitCompaction();
            && Sound(v) && WellChosen(v, c)
            && Contents(v) == Rest(v, c) + EntriesOf(Inputs(c)) && Rest(v, c) !! EntriesOf(Inputs(c))
            && DistinctStamps(Contents(v))
  {
    hide SplitVersion, SplitCompaction, Rest, Contents, EntriesOf, Sound, WellChosen, Mergeable, Inputs, DistinctStamps;
    var v, c := SplitVersion(), SplitCompaction();
    SplitVersionIsSound();
    SplitCompactionIsChosen();
    WellChosenIsMergeable(v, c);
    SplitStampsDistinct();
    ContentsSplit(v, c);
    RestIsDisjoint(v, c);
  }

  lemma SplitOutcome(rest: set<Entry>, input: set<Entry>, v: Version)
    requires forall e :: e in input <==> e in Upper().entries || e in Lower().entries
    requires forall e :: e in rest <==> e in LowerNext().entries
    requires DistinctStamps(rest + input) && rest !! input && IsBase(v, 1, 5.0)
    ensures var gone, back := Ent(5.0, 10, Deletion, ""), Ent(5.0, 5, Put, "old");
            && Resurrects(rest, input, 30, v, 1, 5.0, gone, back)
            && Lookup(rest + input, 5.0, 30) == None
            && Lookup(rest + KeptSet(input, 30, v, 1), 5.0, 30) == Some("old")
  {
    hide Upper, Lower, LowerNext, DistinctStamps, IsBase, KeptSet, Lookup, IsNewest;
    var gone, back := Ent(5.0, 10, Deletion, ""), Ent(5.0, 5, Put, "old");
    SplitReadings(rest, input, gone, back);
    ResurrectedReadChanges(rest, input, 30, v, 1, 5.0, gone, back);
  }

  // ---- Second hazard: a memtable flushed between the inputs of a manual compaction

  function Left(): File { FileMetaData(1, 1, [Ent(1.0, 3, Put, "l")]) }

  function Right(): File { FileMetaData(2, 1, [Ent(9.0, 4, Put, "r")]) }

  function Flushed(): File { FileMetaData(3, 1, [Ent(5.0, 7, Put, "new")]) }

  function Merged(): File { FileMetaData(4, 1, [Ent(1.0, 3, Put, "l"), Ent(9.0, 4, Put, "r")]) }

  function GapVersion(): Version { [[], [Left(), Right()], [], [], [], [], []] }

  function GapCompaction(): Compaction { Compaction(1, [Left(), Right()], [], []) }

  function GapFlushed(): Version { [[], [Left(), Right()], [Flushed()], [], [], [], []] }

  function GapMerged(): Version { [[], [], [Merged(), Flushed()], [], [], [], []] }

  lemma GapVersionFiles()
    ensures forall l, f {:trigger f in GapVersion()[l]} | 0 <= l < NUM_LEVELS ::
              f in GapVersion()[l] <==> l == 1 && (f == Left() || f == Right())
    ensures OrderedVersion(GapVersion()) && Apart(Left(), Right()) && Left().number != Right().number
  {
    var v := GapVersion();
    assert v[1] == [Left(), Right()] && forall i | 0 <= i < NUM_LEVELS && i != 1 :: v[i] == [];
    assert BySmallestKey(Left(), Right());
  }

  lemma PairIsSound(v: Version, a: File, b: File)
    requires OrderedVersion(v) && a.number != b.number && Apart(a, b)
    requires forall l, f {:trigger f in v[l]} | 0 <= l < NUM_LEVELS :: f in v[l] <==> l == 1 && (f == a || f == b)
    ensures Sound(v)
  {
    ApartIsSymmetric(a, b);
    hide Apart, Newer, Ordered;
    forall i, j | 0 <= i < j < NUM_LEVELS
      ensures forall f, g | f in v[i] && g in v[j] :: Newer(f.entries, g.entries)
    {
    }
  }

  lemma GapVersionIsSound()
    ensures Sound(GapVersion())
  {
    GapVersionFiles();
    hide GapVersion, Left, Right, Apart, Sound;
    PairIsSound(GapVersion(), Left(), Right());
  }

  lemma GapCompactionIsChosen()
    ensures WellChosen(GapVersion(), GapCompaction()) && !GapsAreCovered(GapVersion(), GapCompaction())
  {
    var v, c := GapVersion(), GapCompaction();
    var r := Range(Some(1.0), Some(9.0));
    assert v[1] == [Left(), Right()] && v[2] == [] && Select(v[2], r) == [];
    assert Left() in c.inputs0 && Right() in c.inputs0;
    assert IsRangeOf(c.inputs0, r);
    GapIsBetween();
    hide GapVersion, GapCompaction, Left, Right;
  }

  // The table of a memtable with the one key `u`.
  function Single(u: UserKey): File {
    FileMetaData(0, 0, [Ent(u, 0, Put, "")])
  }

  lemma SingleFits(v: Version, level: nat, u: UserKey)
    requires level <= MAX_MEM_COMPACT_LEVEL && !IsUnder(v, level, u)
    ensures FlushFits(v, level, Single(u))
  {
    var file := Single(u);
    assert UserRange(file) == Range(Some(u), Some(u));
    hide Single, IsUnder;
    forall i, f | 0 <= i <= level && f in v[i]
      ensures !Overlaps(f, UserRange(file))
    {
      assert !Covers(f, u) by { assert !IsUnder(v, level, u); CoversIsUnder(v, level, i, f, u); }
    }
  }

  lemma CoversIsUnder(v: Version, level: nat, i: nat, f: File, u: UserKey)
    requires i <= level && i < NUM_LEVELS && f in v[i]
    ensures Covers(f, u) ==> IsUnder(v, level, u)
  {
  }

  // A gap that nothing covers takes a flushed table, which is then neither before nor after
  // all inputs.
  lemma UncoveredGapTakesFlush(v: Version, c: Compaction, u: UserKey)
    requires c.level + 1 <= MAX_MEM_COMPACT_LEVEL
    requires Between(Inputs(c), u) && !SomeCovers(Inputs(c), u) && !IsUnder(v, c.level + 1, u)
    ensures FlushFits(v, c.level + 1, Single(u))
    ensures !BeforeAll(Single(u), Inputs(c)) && !AfterAll(Single(u), Inputs(c))
  {
    SingleFits(v, c.level + 1, u);
    hide IsUnder, FlushFits;
    var f :| f in Inputs(c) && Smallest(f).user <= u;
    var g :| g in Inputs(c) && u <= Largest(g).user;
    assert !Covers(f, u) && !Covers(g, u);
    assert Smallest(Single(u)).user == u == Largest(Single(u)).user;
  }

  // Flushes stay clear of a merge exactly if nothing flushed can land in a gap of its inputs:
  // a condition on the files of the version the merge starts from.
  lemma FlushesStayOutside(v: Version, c: Compaction)
    requires Sound(v) && WellChosen(v, c)
    ensures (forall file | FlushFits(v, c.level + 1, file) :: BeforeAll(file, Inputs(c)) || AfterAll(file, Inputs(c)))
            <==> GapsAreCovered(v, c)
  {
    WellChosenIsMergeable(v, c);
    hide Sound, WellChosen, Mergeable, Inputs, Between, SomeCovers, IsUnder, FlushFits, BeforeAll, AfterAll, Single;
    if GapsAreCovered(v, c) {
      forall file | FlushFits(v, c.level + 1, file)
        ensures BeforeAll(file, Inputs(c)) || AfterAll(file, Inputs(c))
      {
        FlushedIsOutside(v, c, c.level + 1, file);
      }
    } else {
      var u :| Between(Inputs(c), u) && !SomeCovers(Inputs(c), u) && !IsUnder(v, c.level + 1, u);
      UncoveredGapTakesFlush(v, c, u);
    }
  }

  lemma GapIsBetween()
    ensures !GapsAreCovered(GapVersion(), GapCompaction())
  {
    var v, files := GapVersion(), Inputs(GapCompaction());
    assert Left() in files && Right() in files;
    assert Between(files, 5.0) && !SomeCovers(files, 5.0);
    GapVersionFiles();
    assert !IsUnder(v, 2, 5.0);
  }

  lemma GapFiles()
    ensures !Overlaps(Left(), UserRange(Flushed())) && !Overlaps(Right(), UserRange(Flushed()))
    ensures forall x | x in Left().entries || x in Right().entries :: x.key.sequence < 7
    ensures forall x | x in Flushed().entries :: x.key.sequence == 7
    ensures Left().number < Flushed().number && Right().number < Flushed().number
  {
  }

  lemma GapFlushFits()
    ensures FlushFits(GapVersion(), 2, Flushed()) && NewestOfAll(GapVersion(), Flushed())
  {
    hide GapVersion, Left, Right, Flushed, Overlaps, Apart, OrderedVersion, Covers, IsUnder;
    GapVersionFiles();
    GapFiles();
  }

  lemma GapFlushedFiles()
    ensures OrderedVersion(GapFlushed())
    ensures forall l, f {:trigger f in GapFlushed()[l]} | 0 <= l < NUM_LEVELS ::
              f in GapFlushed()[l] <==> (l == 1 && (f == Left() || f == Right())) || (l == 2 && f == Flushed())
  {
    var v := GapFlushed();
    assert v[1] == [Left(), Right()] && v[2] == [Flushed()] && forall i | 0 <= i < NUM_LEVELS && i != 1 && i != 2 :: v[i] == [];
    assert BySmallestKey(Left(), Right());
  }

  lemma GapFlushIsEdit()
    ensures Edited(GapVersion(), FlushEdit(2, Flushed()), GapFlushed())
  {
    GapVersionFiles();
    GapFlushedFiles();
    hide GapVersion, GapFlushed, Left, Right, Flushed;
    assert forall l, f :: (l, f) in FlushEdit(2, Flushed()).added <==> l == 2 && f == Flushed();
  }

  lemma GapInputs()
    ensures Elements(Merged().entries) == EntriesOf(Inputs(GapCompaction()))
  {
    var input, all := Merged().entries, Inputs(GapCompaction());
    assert forall f :: f in all <==> f == Left() || f == Right();
    forall e
      ensures e in EntriesOf(all) <==> e in Elements(input)
    {
      assert Left() in all && Right() in all;
      assert e in Left().entries <==> e == input[0];
      assert e in Right().entries <==> e == input[1];
    }
  }

  lemma GapMergeOutput()
    ensures IsMergeOutput(GapCompaction(), GapVersion(), 8, [Merged()])
  {
    var c, v, input := GapCompaction(), GapVersion(), Merged().entries;
    GapInputs();
    assert forall e | e in Elements(input) :: !Dropped(Elements(input), 8, v, 1, e);
    hide Dropped;
    assert Kept(input, 0, 8, v, 1) == [];
    assert Kept(input, 1, 8, v, 1) == [input[0]];
    assert Kept(input, 2, 8, v, 1) == [input[0]] + [input[1]] == input;
    assert Runs([Merged()]) == [input] && Flatten([]) == [];
    FlattenSnoc([], input);
    assert [] + [input] == [input] && Flatten([input]) == [] + input == input;
  }

  lemma GapMergedFiles()
    ensures OrderedVersion(GapMerged()) && !Apart(Merged(), Flushed()) && Merged() != Flushed()
    ensures forall l, f {:trigger f in GapMerged()[l]} | 0 <= l < NUM_LEVELS ::
              f in GapMerged()[l] <==> l == 2 && (f == Merged() || f == Flushed())
  {
    var v := GapMerged();
    assert v[2] == [Merged(), Flushed()] && forall i | 0 <= i < NUM_LEVELS && i != 2 :: v[i] == [];
    assert BySmallestKey(Merged(), Flushed());
  }

  lemma GapReplaced()
    ensures Replaced(GapFlushed(), GapCompaction(), [Merged()], GapMerged())
    ensures !LevelsApart(GapMerged())
  {
    GapFlushedFiles();
    GapMergedFiles();
    var c := GapCompaction();
    assert c.level == 1 && c.inputs0 == [Left(), Right()] && c.inputs1 == [];
    hide GapFlushed, GapMerged, GapCompaction, Left, Right, Flushed, Merged, Apart, Ordered;
    assert forall l, f :: IsInput(c, l, f) <==> l == 1 && (f == Left() || f == Right());
    assert Merged() in GapMerged()[2] && Flushed() in GapMerged()[2];
  }

  // Every step follows its own rules, a gap is not covered, and level 2 ends with overlapping files.
  lemma FlushIntoGapOverlaps()
    ensures Sound(GapVersion()) && WellChosen(GapVersion(), GapCompaction()) && !GapsAreCovered(GapVersion(), GapCompaction())
    ensures FlushFits(GapVersion(), 2, Flushed()) && NewestOfAll(GapVersion(), Flushed())
    ensures Edited(GapVersion(), FlushEdit(2, Flushed()), GapFlushed()) && Sound(GapFlushed())
    ensures IsMergeOutput(GapCompaction(), GapVersion(), 8, [Merged()])
    ensures Replaced(GapFlushed(), GapCompaction(), [Merged()], GapMerged()) && !LevelsApart(GapMerged())
  {
    hide Sound, WellChosen, GapsAreCovered, FlushFits, NewestOfAll, Edited, IsMergeOutput, Replaced, LevelsApart, GapVersion, GapFlushed, GapMerged, GapCompaction;
    GapVersionIsSound();
    GapCompactionIsChosen();
    GapFlushFits();
    GapFlushIsEdit();
    FlushKeepsSound(GapVersion(), 2, Flushed(), GapFlushed());
    GapMergeOutput();
    GapReplaced();
  }

  // ---- Third hazard: an oldest snapshot equal to the loop's marker for "no entry yet"

  // At the marker nothing at all is kept. The newest put of a key, which no merge may lose, is
  // kept exactly below it.
  lemma NewestPutIsKept(input: set<Entry>, ss: SequenceNumber, v: Version, level: nat, e: Entry)
    requires e in input && e.key.kind.Put?
    requires forall t | t in input && t.key.user == e.key.user :: t.key.sequence <= e.key.sequence
    ensures e in KeptSet(input, ss, v, level) <==> ss < MAX_SEQUENCE
    ensures ss == MAX_SEQUENCE ==> KeptSet(input, ss, v, level) == {}
  {
    hide IsBase;
  }
}
