// A run in which a memtable is flushed between the inputs of a manual compaction while it runs,
// and a read of what was flushed is lost.

module GapRuns {
  import opened InternalKeys
  import opened Versions
  import opened VersionEdits
  import opened CompactionInputs
  import opened LevelInvariants
  import opened Compactions
  import opened MergeResults
  import opened MergeHazards
  import opened Database
  import opened HazardRuns

  // Keys 1 and 9, written twice, and key 5 in between.
  function Low(): Entry { Ent(1.0, 1, Put, "a") }

  function High(): Entry { Ent(9.0, 2, Put, "b") }

  function NewLow(): Entry { Ent(1.0, 3, Put, "c") }

  function NewHigh(): Entry { Ent(9.0, 4, Put, "d") }

  function Middle(): Entry { Ent(5.0, 5, Put, "e") }

  function LowBelow(): File { FileMetaData(2, 1, [Low()]) }

  function HighBelow(): File { FileMetaData(3, 1, [High()]) }

  function LowAbove(): File { FileMetaData(4, 1, [NewLow()]) }

  function HighAbove(): File { FileMetaData(5, 1, [NewHigh()]) }

  function InGap(): File { FileMetaData(6, 1, [Middle()]) }

  function Across(): File { FileMetaData(7, 1, [NewLow(), NewHigh()]) }

  lemma FilesAre()
    ensures LowBelow().number == 2 && Smallest(LowBelow()) == Low().key == Largest(LowBelow())
    ensures HighBelow().number == 3 && Smallest(HighBelow()) == High().key == Largest(HighBelow())
    ensures LowAbove().number == 4 && Smallest(LowAbove()) == NewLow().key == Largest(LowAbove())
    ensures HighAbove().number == 5 && Smallest(HighAbove()) == NewHigh().key == Largest(HighAbove())
    ensures InGap().number == 6 && Smallest(InGap()) == Middle().key == Largest(InGap())
    ensures Across().number == 7 && Smallest(Across()) == NewLow().key && Largest(Across()) == NewHigh().key
  {
  }

  lemma LevelsOrdered()
    ensures Ordered([]) && Ordered([LowBelow()]) && Ordered([LowBelow(), HighBelow()])
    ensures Ordered([LowAbove()]) && Ordered([LowAbove(), HighAbove()])
    ensures Ordered([LowBelow(), InGap(), HighBelow()]) && Ordered([Across(), InGap()])
  {
    FilesAre();
    hide LowBelow, HighBelow, LowAbove, HighAbove, InGap, Across;
  }

  // ---- Flushes to levels 1 and 2

  lemma AddedToOneOrTwo(l1: seq<File>, l2: seq<File>, level: nat, file: File, m1: seq<File>, m2: seq<File>)
    requires level == 1 || level == 2
    requires Ordered(m1) && Ordered(m2)
    requires forall f :: f in m1 <==> f in l1 || (level == 1 && f == file)
    requires forall f :: f in m2 <==> f in l2 || (level == 2 && f == file)
    ensures Edited(OneAndTwo(l1, l2), FlushEdit(level, file), OneAndTwo(m1, m2))
  {
    OneAndTwoFiles(l1, l2);
    OneAndTwoFiles(m1, m2);
    hide OneAndTwo, Ordered;
    assert forall l, f :: (l, f) in FlushEdit(level, file).added <==> l == level && f == file;
  }

  lemma FitsOneOrTwo(l1: seq<File>, l2: seq<File>, level: nat, file: File, next: nat)
    requires level == 1 || level == 2
    requires forall f | f in l1 :: f.number < next && !Overlaps(f, UserRange(file))
    requires forall f | f in l2 :: f.number < next && (level == 2 ==> !Overlaps(f, UserRange(file)))
    ensures NumbersBelow(OneAndTwo(l1, l2), next) && FlushFits(OneAndTwo(l1, l2), level, file)
  {
    OneAndTwoFiles(l1, l2);
    hide OneAndTwo, Overlaps;
  }

  // One key is written, and flushed at once.
  lemma WriteAndFlush(r: Run, user: UserKey, value: Value, level: nat, file: File, l1: seq<File>, l2: seq<File>, m1: seq<File>, m2: seq<File>)
    returns (r': Run)
    requires Reachable(NoResurrection, r) && r.db.version == OneAndTwo(l1, l2)
    requires r.db.mem == [] && r.db.imm.None? && r.db.inserted == 0 && r.db.lastSequence + 1 < MAX_SEQUENCE && r.db.pendingOutputs == {}
    requires file == FileMetaData(r.db.nextFile, 1, [Ent(user, r.db.lastSequence + 1, Put, value)])
    requires level == 1 || level == 2
    requires forall f | f in l1 :: f.number < r.db.nextFile && !Overlaps(f, UserRange(file))
    requires forall f | f in l2 :: f.number < r.db.nextFile && (level == 2 ==> !Overlaps(f, UserRange(file)))
    requires Ordered(m1) && Ordered(m2)
    requires forall f :: f in m1 <==> f in l1 || (level == 1 && f == file)
    requires forall f :: f in m2 <==> f in l2 || (level == 2 && f == file)
    ensures Reachable(NoResurrection, r')
    ensures r' == Run(r.db.(version := OneAndTwo(m1, m2), lastSequence := r.db.lastSequence + 1, nextFile := r.db.nextFile + 1),
                      r.history + {Ent(user, r.db.lastSequence + 1, Put, value)}, r.horizon)
  {
    var e := Ent(user, r.db.lastSequence + 1, Put, value);
    assert InsertEntry([], e) == [e] && Sorted([e]);
    FitsOneOrTwo(l1, l2, level, file, r.db.nextFile);
    AddedToOneOrTwo(l1, l2, level, file, m1, m2);
    hide Reachable, OneAndTwo, Overlaps, Ordered, NumbersBelow, FlushFits, Edited, Ent;
    r' := Write(NoResurrection, r, user, Put, value);
    r' := FlushTo(NoResurrection, r', level, file, OneAndTwo(m1, m2));
  }

  // Both keys lie on level 2, and newer puts of them on level 1, where nothing overlaps them.
  lemma TwoLevels() returns (r: Run)
    ensures Reachable(NoResurrection, r)
    ensures r == Run(State([], None, OneAndTwo([LowAbove(), HighAbove()], [LowBelow(), HighBelow()]), 4, 0, [], None, {}, 6),
                     {Low(), High(), NewLow(), NewHigh()}, 0)
  {
    hide Reachable, OneAndTwo, Ordered;
    LevelsOrdered();
    r := Start(NoResurrection);
    assert r.db.version == OneAndTwo([], []) by { NothingIsEmpty(); }
    r := WriteAndFlush(r, 1.0, "a", 2, LowBelow(), [], [], [], [LowBelow()]);
    r := WriteAndFlush(r, 9.0, "b", 2, HighBelow(), [], [LowBelow()], [], [LowBelow(), HighBelow()]);
    r := WriteAndFlush(r, 1.0, "c", 1, LowAbove(), [], [LowBelow(), HighBelow()], [LowAbove()], [LowBelow(), HighBelow()]);
    r := WriteAndFlush(r, 9.0, "d", 1, HighAbove(), [LowAbove()], [LowBelow(), HighBelow()], [LowAbove(), HighAbove()], [LowBelow(), HighBelow()]);
    assert {} + {Low()} + {High()} + {NewLow()} + {NewHigh()} == {Low(), High(), NewLow(), NewHigh()};
  }

  lemma NothingIsEmpty()
    ensures OneAndTwo([], []) == [[], [], [], [], [], [], []]
  {
  }

  // ---- The manual compaction

  function Manual(): Compaction { Compaction(1, [LowAbove(), HighAbove()], [LowBelow(), HighBelow()], []) }

  lemma ManualIsChosen()
    ensures WellChosen(OneAndTwo([LowAbove(), HighAbove()], [LowBelow(), HighBelow()]), Manual())
  {
    FilesAre();
    hide LowBelow, HighBelow, LowAbove, HighAbove;
    var v, c, r := OneAndTwo([LowAbove(), HighAbove()], [LowBelow(), HighBelow()]), Manual(), Range(Some(1.0), Some(9.0));
    assert v[1] == [LowAbove(), HighAbove()] && v[2] == [LowBelow(), HighBelow()];
    assert LowAbove() in c.inputs0 && HighAbove() in c.inputs0 && IsRangeOf(c.inputs0, r);
    assert Overlaps(LowBelow(), r) && Overlaps(HighBelow(), r);
    hide Overlaps;
    assert [LowBelow(), HighBelow()][..1] == [LowBelow()] && [LowBelow()][..0] == [] && Select([], r) == [];
    assert Select([LowBelow()], r) == [LowBelow()];
    assert Select([LowBelow(), HighBelow()], r) == [LowBelow()] + [HighBelow()];
  }

  // Nothing was ever deleted, so that nothing can come back.
  lemma PutsAreHarmless(s: State, c: Compaction)
    requires forall e | e in MergeInput(c) :: e.key.kind.Put?
    ensures Harmless(s, c)
  {
    hide MergeInput, Live;
  }

  lemma ManualInput()
    ensures EntriesOf(Inputs(Manual())) == {Low(), High(), NewLow(), NewHigh()}
  {
    var files := Inputs(Manual());
    assert LowAbove() in files && HighAbove() in files && LowBelow() in files && HighBelow() in files;
    assert forall f :: f in files <==> f == LowAbove() || f == HighAbove() || f == LowBelow() || f == HighBelow();
    assert Low() in LowBelow().entries && High() in HighBelow().entries;
    assert NewLow() in LowAbove().entries && NewHigh() in HighAbove().entries;
  }

  lemma KeptOfFour(input: seq<Entry>, v: Version)
    requires input == [NewLow(), Low(), NewHigh(), High()]
    ensures Sorted(input) && Kept(input, 4, 4, v, 1) == [NewLow(), NewHigh()]
  {
    var all := Elements(input);
    assert input[0] in all && input[2] in all;
    assert Dropped(all, 4, v, 1, Low()) && Dropped(all, 4, v, 1, High());
    assert !Dropped(all, 4, v, 1, NewLow()) && !Dropped(all, 4, v, 1, NewHigh());
    hide Dropped;
    assert Kept(input, 0, 4, v, 1) == [];
    assert Kept(input, 1, 4, v, 1) == [NewLow()];
    assert Kept(input, 2, 4, v, 1) == [NewLow()];
    assert Kept(input, 3, 4, v, 1) == [NewLow(), NewHigh()];
  }

  lemma ManualOutput()
    ensures IsMergeOutput(Manual(), OneAndTwo([LowAbove(), HighAbove()], [LowBelow(), HighBelow()]), 4, [Across()])
  {
    hide Dropped, Flatten, Kept, OneAndTwo, Sorted, EntriesOf, Inputs;
    var v, input := OneAndTwo([LowAbove(), HighAbove()], [LowBelow(), HighBelow()]), [NewLow(), Low(), NewHigh(), High()];
    KeptOfFour(input, v);
    ManualInput();
    assert Elements(input) == {Low(), High(), NewLow(), NewHigh()};
    assert Runs([Across()]) == [[NewLow(), NewHigh()]];
    FlattenTwo([NewLow(), NewHigh()], []);
  }

  lemma ManualEdit()
    ensures var v, v' := OneAndTwo([LowAbove(), HighAbove()], [LowBelow(), InGap(), HighBelow()]), OneAndTwo([], [Across(), InGap()]);
            FreshAdds(v, MergeEdit(Manual(), [Across()])) && Edited(v, MergeEdit(Manual(), [Across()]), v')
  {
    hide OneAndTwo, Ordered, MergeEdit, LowAbove, HighAbove, LowBelow, HighBelow, InGap, Across, Manual, Smallest, Largest;
    FilesAre();
    LevelsOrdered();
    var l1, l2 := [LowAbove(), HighAbove()], [LowBelow(), InGap(), HighBelow()];
    OneAndTwoFiles(l1, l2);
    OneAndTwoFiles([], [Across(), InGap()]);
    ManualEditIs();
  }

  lemma ManualEditIs()
    ensures var edit := MergeEdit(Manual(), [Across()]);
            && edit.deleted == {(1, 4), (1, 5), (2, 2), (2, 3)}
            && (forall l, f :: (l, f) in edit.added <==> l == 2 && f == Across())
            && forall a | a in edit.added :: a.0 == 2 && a.1 == Across()
  {
    MergeEditAdds(Manual(), [Across()]);
    FilesAre();
    hide LowAbove, HighAbove, LowBelow, HighBelow, Across;
    assert LowAbove() in Manual().inputs0 && HighAbove() in Manual().inputs0 && LowBelow() in Manual().inputs1 && HighBelow() in Manual().inputs1;
  }

  // The compaction has begun, and key 5 was flushed to its output level.
  lemma Flushed() returns (r: Run)
    ensures Reachable(NoResurrection, r)
    ensures r == Run(State([], None, OneAndTwo([LowAbove(), HighAbove()], [LowBelow(), InGap(), HighBelow()]), 5, 0, [],
                           Some(Merge(Manual(), OneAndTwo([LowAbove(), HighAbove()], [LowBelow(), HighBelow()]), 4)), {}, 7),
                     {Low(), High(), NewLow(), NewHigh(), Middle()}, 4)
  {
    hide Reachable, OneAndTwo, Ordered, WellChosen, Harmless;
    LevelsOrdered();
    ManualIsChosen();
    ManualInput();
    r := TwoLevels();
    PutsAreHarmless(r.db, Manual());
    r := BeginMergeOf(NoResurrection, r, Manual());
    var l1, l2, m2 := [LowAbove(), HighAbove()], [LowBelow(), HighBelow()], [LowBelow(), InGap(), HighBelow()];
    r := WriteAndFlush(r, 5.0, "e", 2, InGap(), l1, l2, l1, m2);
    assert {Low(), High(), NewLow(), NewHigh()} + {Middle()} == {Low(), High(), NewLow(), NewHigh(), Middle()};
  }

  lemma LostRead(es: set<Entry>)
    requires es == {NewLow(), NewHigh(), Middle()}
    ensures Lookup(es, 5.0, 5) == Some("e")
    ensures !Less(Largest(Across()), LookupKey(5.0, 5)) && Search(Across().entries, 5.0, 5) == NotFound
  {
    assert IsNewest(es, 5.0, 5, Middle());
    LookupIs(es, 5.0, 5, Middle());
    var k := LookupKey(5.0, 5);
    assert Less(Across().entries[0].key, k) && !Less(Across().entries[1].key, k);
  }

  lemma LastFiles(v: Version)
    requires v == OneAndTwo([], [Across(), InGap()])
    ensures v[2] == [Across(), InGap()] && !LevelsApart(v) && Contents(v) == {NewLow(), NewHigh(), Middle()}
  {
    OneAndTwoFiles([], [Across(), InGap()]);
    FilesAre();
    assert Across() in v[2] && InGap() in v[2] && Across() != InGap() && !Apart(Across(), InGap());
    assert NewLow() in Across().entries && NewHigh() in Across().entries && Middle() in InGap().entries;
  }

  // Level 2 ends with overlapping files. The first one whose largest key is not below the lookup
  // key of 5 has no entry of that key, so that a read of key 5, which is live, finds nothing.
  lemma FlushedKeyIsLost() returns (r: Run)
    ensures Reachable(NoResurrection, r) && r.db.lastSequence == 5 && !LevelsApart(r.db.version)
    ensures Lookup(Live(r.db), 5.0, 5) == Some("e")
    ensures var files := r.db.version[2];
            |files| == 2 && !Less(Largest(files[0]), LookupKey(5.0, 5)) && Search(files[0].entries, 5.0, 5) == NotFound
  {
    hide Reachable, OneAndTwo, IsMergeOutput, FreshAdds, Edited, MergeEdit, Contents, Lookup, Search, LevelsApart, Less;
    FilesAre();
    r := Flushed();
    ManualOutput();
    ManualEdit();
    r := FinishMergeOf(NoResurrection, r, [Across()], OneAndTwo([], [Across(), InGap()]));
    LastFiles(r.db.version);
    assert Live(r.db) == {NewLow(), NewHigh(), Middle()};
    LostRead(Live(r.db));
  }
}
