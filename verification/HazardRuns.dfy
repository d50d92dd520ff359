// Runs of the database in which every step follows its own rules and merges meet only half of what
// makes them safe; at the end of one of them a deleted key reads as its old value.

module HazardRuns {
  import opened InternalKeys
  import opened Versions
  import opened VersionEdits
  import opened CompactionInputs
  import opened LevelInvariants
  import opened Compactions
  import opened MergeResults
  import opened MergeHazards
  import opened Database

  // Which half of what makes merges safe they meet.
  datatype Rule = CoveredGaps | NoResurrection

  ghost predicate Follows(rule: Rule, s: State, c: Compaction) {
    if rule.CoveredGaps? then GapsAreCovered(s.version, c) else Harmless(s, c)
  }

  ghost predicate Takes(rule: Rule, r: Run, step: Step, r': Run) {
    Extends(r, step, r') && (step.BeginMerge? ==> Follows(rule, r.db, step.compaction))
  }

  // Some sequence of steps by this rule leads here.
  ghost predicate Reachable(rule: Rule, r: Run) {
    exists runs: seq<Run>, steps: seq<Step> :: Leads(rule, runs, steps, r)
  }

  ghost predicate Leads(rule: Rule, runs: seq<Run>, steps: seq<Step>, r: Run) {
    && |runs| == |steps| + 1
    && Init(runs[0]) && runs[|steps|] == r
    && forall i | 0 <= i < |steps| :: Takes(rule, runs[i], steps[i], runs[i+1])
  }

  lemma Reach(rule: Rule, r: Run, step: Step, r': Run)
    requires Reachable(rule, r) && Takes(rule, r, step, r')
    ensures Reachable(rule, r')
  {
    hide Takes, Init;
    var runs, steps :| Leads(rule, runs, steps, r);
    var runs', steps' := runs + [r'], steps + [step];
    forall i | 0 <= i < |steps'|
      ensures Takes(rule, runs'[i], steps'[i], runs'[i+1])
    {
      assert i < |steps| ==> Takes(rule, runs[i], steps[i], runs[i+1]);
    }
    assert Leads(rule, runs', steps', r');
  }

  lemma Start(rule: Rule) returns (r: Run)
    ensures Init(r) && Reachable(rule, r)
  {
    r := Run(State([], None, [[], [], [], [], [], [], []], 0, 0, [], None, {}, 2), {}, 0);
    assert Leads(rule, [r], [], r);
  }

  // ---- Several steps at once

  lemma Write(rule: Rule, r: Run, user: UserKey, kind: Kind, value: Value) returns (r': Run)
    requires Reachable(rule, r) && r.db.inserted == 0 && r.db.lastSequence + 1 < MAX_SEQUENCE && (kind.Put? || value == "")
    ensures Reachable(rule, r')
    ensures var e := Ent(user, r.db.lastSequence + 1, kind, value);
            r' == Run(r.db.(mem := InsertEntry(r.db.mem, e), lastSequence := r.db.lastSequence + 1), r.history + {e}, r.horizon)
  {
    hide Reachable, InsertEntry;
    var e := Ent(user, r.db.lastSequence + 1, kind, value);
    assert NewEntry(r.db, user, kind, value) == e;
    var r1 := Run(r.db.(mem := InsertEntry(r.db.mem, e), inserted := 1), r.history + {e}, r.horizon);
    Reach(rule, r, Step.Insert(user, kind, value), r1);
    r' := r1.(db := r1.db.(lastSequence := r.db.lastSequence + 1, inserted := 0));
    Reach(rule, r1, Publish, r');
  }

  lemma EditSaves(v: Version, edit: VersionEdit, v': Version)
    requires FreshAdds(v, edit) && Edited(v, edit, v')
    ensures Saves(v, ApplyTo(NothingPending(), edit), v')
  {
    hide Ordered;
    var p := ApplyTo(NothingPending(), edit);
    forall l, f | 0 <= l < NUM_LEVELS
      ensures f in v'[l] <==> (f in v[l] || f in p.added[l]) && f.number !in p.deleted[l]
    {
      InsertedMembers({}, edit.added, l);
      assert p.deleted[l] == DeletionsAt(edit.deleted, l) - NumbersAt(edit.added, l);
      assert f in AddsAt(edit.added, l) <==> (l, f) in edit.added;
      assert f in v[l] ==> f.number !in NumbersAt(edit.added, l);
      assert (l, f.number) in edit.deleted <==> f.number in DeletionsAt(edit.deleted, l);
      assert (l, f) in edit.added ==> f.number in NumbersAt(edit.added, l);
    }
    assert OrderedVersion(v');
  }

  // The memtable becomes a table on the level.
  lemma FlushTo(rule: Rule, r: Run, level: nat, file: File, v': Version) returns (r': Run)
    requires Reachable(rule, r) && r.db.imm.None? && r.db.inserted == 0 && Sorted(r.db.mem)
    requires file == FileMetaData(r.db.nextFile, 1, r.db.mem)
    requires NumbersBelow(r.db.version, r.db.nextFile) && r.db.pendingOutputs == {} && FlushFits(r.db.version, level, file)
    requires Edited(r.db.version, FlushEdit(level, file), v')
    ensures Reachable(rule, r')
    ensures r' == r.(db := r.db.(mem := [], version := v', nextFile := r.db.nextFile + 1))
  {
    assert FreshAdds(r.db.version, FlushEdit(level, file));
    hide Reachable, FlushFits, FreshAdds, Edited, Saves, ApplyTo, Sorted;
    EditSaves(r.db.version, FlushEdit(level, file), v');
    var r1 := r.(db := r.db.(mem := [], imm := Some(r.db.mem)));
    Reach(rule, r, SwitchMemTable, r1);
    var r2 := r1.(db := r1.db.(nextFile := r.db.nextFile + 1));
    Reach(rule, r1, AllocateNumber, r2);
    r' := r2.(db := r2.db.(imm := None, version := v'));
    Reach(rule, r2, Flush(level, file.number, 1), r');
  }

  lemma OpenOutputs(rule: Rule, r: Run, n: nat) returns (r': Run)
    requires Reachable(rule, r) && r.db.running.Some? && r.db.pendingOutputs == {}
    ensures Reachable(rule, r')
    ensures r' == r.(db := r.db.(nextFile := r.db.nextFile + n, pendingOutputs := r'.db.pendingOutputs))
    ensures forall i | r.db.nextFile <= i < r.db.nextFile + n :: i in r'.db.pendingOutputs
  {
    hide Reachable;
    r' := r;
    for k := 0 to n
      invariant Reachable(rule, r')
      invariant r' == r.(db := r.db.(nextFile := r.db.nextFile + k, pendingOutputs := r'.db.pendingOutputs))
      invariant forall i | r.db.nextFile <= i < r.db.nextFile + k :: i in r'.db.pendingOutputs
    {
      var next := r'.(db := r'.db.(pendingOutputs := r'.db.pendingOutputs + {r'.db.nextFile}, nextFile := r'.db.nextFile + 1));
      Reach(rule, r', OpenOutput, next);
      r' := next;
    }
  }

  lemma BeginMergeOf(rule: Rule, r: Run, c: Compaction) returns (r': Run)
    requires Reachable(rule, r) && r.db.running.None?
    requires WellChosen(r.db.version, c) && Follows(rule, r.db, c)
    ensures Reachable(rule, r')
    ensures var s := OldestSnapshot(r.db);
            r' == Run(r.db.(running := Some(Merge(c, r.db.version, s))), r.history, if r.horizon < s then s else r.horizon)
  {
    hide Reachable, WellChosen, Follows;
    var s := OldestSnapshot(r.db);
    r' := Run(r.db.(running := Some(Merge(c, r.db.version, s))), r.history, if r.horizon < s then s else r.horizon);
    Reach(rule, r, BeginMerge(c), r');
  }

  // Opens the outputs of the running merge and installs them.
  lemma FinishMergeOf(rule: Rule, r: Run, outs: seq<File>, v': Version) returns (r': Run)
    requires Reachable(rule, r) && r.db.running.Some? && r.db.pendingOutputs == {}
    requires var m := r.db.running.value; IsMergeOutput(m.compaction, m.base, m.smallestSnapshot, outs)
    requires forall i | 0 <= i < |outs| :: outs[i].number == r.db.nextFile + i
    requires var edit := MergeEdit(r.db.running.value.compaction, outs); FreshAdds(r.db.version, edit) && Edited(r.db.version, edit, v')
    ensures Reachable(rule, r')
    ensures r' == r.(db := r.db.(version := v', running := None, nextFile := r.db.nextFile + |outs|))
  {
    hide Reachable, IsMergeOutput, FreshAdds, Edited, Saves, ApplyTo, MergeEdit;
    EditSaves(r.db.version, MergeEdit(r.db.running.value.compaction, outs), v');
    var r1 := OpenOutputs(rule, r, |outs|);
    r' := r1.(db := r1.db.(version := v', running := None, pendingOutputs := {}));
    Reach(rule, r1, FinishMerge(outs), r');
  }

  // A merge from its beginning to its install.
  lemma MergeInto(rule: Rule, r: Run, c: Compaction, outs: seq<File>, v': Version) returns (r': Run)
    requires Reachable(rule, r) && r.db.running.None? && r.db.pendingOutputs == {}
    requires WellChosen(r.db.version, c) && Follows(rule, r.db, c)
    requires IsMergeOutput(c, r.db.version, OldestSnapshot(r.db), outs)
    requires forall i | 0 <= i < |outs| :: outs[i].number == r.db.nextFile + i
    requires FreshAdds(r.db.version, MergeEdit(c, outs)) && Edited(r.db.version, MergeEdit(c, outs), v')
    ensures Reachable(rule, r')
    ensures var s := OldestSnapshot(r.db);
            r' == Run(r.db.(version := v', nextFile := r.db.nextFile + |outs|), r.history, if r.horizon < s then s else r.horizon)
  {
    hide Reachable, WellChosen, Follows, IsMergeOutput, FreshAdds, Edited, MergeEdit;
    r' := BeginMergeOf(rule, r, c);
    r' := FinishMergeOf(rule, r', outs, v');
  }

  // ---- The run

  function First(): Entry { Ent(1.0, 1, Put, "a") }

  function Old(): Entry { Ent(5.0, 2, Put, "old") }

  function Gone(): Entry { Ent(5.0, 3, Deletion, "") }

  function Second(): Entry { Ent(1.0, 4, Put, "b") }

  // Both puts, then the deletion; merged, they are cut between the deletion and the put that
  // a snapshot still sees.
  function Puts(): File { FileMetaData(2, 1, [First(), Old()]) }

  function Deleted(): File { FileMetaData(3, 1, [Gone()]) }

  function CutLeft(): File { FileMetaData(4, 1, [First(), Gone()]) }

  function CutRight(): File { FileMetaData(5, 1, [Old()]) }

  function Newest(): File { FileMetaData(6, 1, [Second()]) }

  function Last(): File { FileMetaData(7, 1, [Second()]) }

  function OneAndTwo(level1: seq<File>, level2: seq<File>): Version {
    [[], level1, level2, [], [], [], []]
  }

  lemma OneAndTwoFiles(level1: seq<File>, level2: seq<File>)
    ensures var v := OneAndTwo(level1, level2);
            && v[1] == level1 && v[2] == level2
            && (forall l | 0 <= l < NUM_LEVELS && l != 1 && l != 2 :: v[l] == [])
            && (Ordered(level1) && Ordered(level2) ==> OrderedVersion(v))
  {
    var v := OneAndTwo(level1, level2);
    assert v[0] == [] && v[3] == [] && v[4] == [] && v[5] == [] && v[6] == [];
  }

  lemma FilesOrdered()
    ensures Ordered([]) && Ordered([Puts()]) && Ordered([Deleted()]) && Ordered([Newest()])
    ensures Ordered([CutLeft(), CutRight()]) && Ordered([Last(), CutRight()])
  {
    assert BySmallestKey(CutLeft(), CutRight()) && BySmallestKey(Last(), CutRight());
  }

  // The puts are flushed to level 2, and the deletion to level 1, where nothing overlaps it.
  lemma Written() returns (r: Run)
    ensures Reachable(CoveredGaps, r)
    ensures r == Run(State([], None, OneAndTwo([Deleted()], [Puts()]), 3, 0, [2], None, {}, 4), {First(), Old(), Gone()}, 0)
  {
    hide Reachable;
    var v0, v1, v2 := OneAndTwo([], []), OneAndTwo([], [Puts()]), OneAndTwo([Deleted()], [Puts()]);
    FilesOrdered();
    OneAndTwoFiles([], []);
    OneAndTwoFiles([], [Puts()]);
    OneAndTwoFiles([Deleted()], [Puts()]);
    r := Start(CoveredGaps);
    assert r.db.version == v0;
    hide OneAndTwo, Ordered;
    r := Write(CoveredGaps, r, 1.0, Put, "a");
    assert InsertEntry([], First()) == [First()];
    r := Write(CoveredGaps, r, 5.0, Put, "old");
    assert InsertEntry([First()], Old()) == [First(), Old()] by { InsertedLast(First(), Old()); }
    var held := r.(db := r.db.(snapshots := r.db.snapshots + [r.db.lastSequence]));
    Reach(CoveredGaps, r, TakeSnapshot, held);
    r := FlushTo(CoveredGaps, held, 2, Puts(), v1);
    r := Write(CoveredGaps, r, 5.0, Deletion, "");
    assert InsertEntry([], Gone()) == [Gone()];
    assert FlushFits(v1, 1, Deleted());
    r := FlushTo(CoveredGaps, r, 1, Deleted(), v2);
  }

  lemma InsertedLast(a: Entry, b: Entry)
    requires Less(a.key, b.key)
    ensures InsertEntry([a], b) == [a, b]
  {
    assert SeekIndex([a][1..], b.key) == 0;
    assert SeekIndex([a], b.key) == 1;
  }

  function CutCompaction(): Compaction { Compaction(1, [Deleted()], [Puts()], []) }

  lemma {:induction false} SelectFirst(g: File, rest: seq<File>, r: Range)
    requires Overlaps(g, r) && forall h | h in rest :: !Overlaps(h, r)
    ensures Select([g] + rest, r) == [g]
  {
    hide Overlaps;
    var files := [g] + rest;
    if rest == [] {
      assert files == [g] && [g][..0] == [] && Select([], r) == [] && Select([g], r) == [] + [g];
    } else {
      var init := rest[..|rest|-1];
      assert files[..|files|-1] == [g] + init && files[|files|-1] == rest[|rest|-1] && rest[|rest|-1] in rest;
      SelectFirst(g, init, r);
    }
  }

  // One file of level 1 and the one file of level 2 that it overlaps, which covers it.
  lemma OneIsChosen(f: File, g: File, rest: seq<File>)
    requires Smallest(g).user <= Smallest(f).user && Largest(f).user <= Largest(g).user
    requires forall h | h in rest :: Largest(f).user < Smallest(h).user
    ensures var v, c := OneAndTwo([f], [g] + rest), Compaction(1, [f], [g], []);
            WellChosen(v, c) && GapsAreCovered(v, c)
  {
    hide Smallest, Largest;
    var v, c, r := OneAndTwo([f], [g] + rest), Compaction(1, [f], [g], []), UserRange(f);
    FileIsNotReversed(f);
    SelectFirst(g, rest, r);
    assert v[1] == [f] && v[2] == [g] + rest;
    assert f in c.inputs0 && IsRangeOf(c.inputs0, r);
    assert f in Inputs(c) && g in Inputs(c) && forall h :: h in Inputs(c) <==> h == f || h == g;
    hide OneAndTwo, Inputs;
    assert forall u | Between(Inputs(c), u) :: Covers(g, u);
  }

  lemma CutIsChosen()
    ensures var v := OneAndTwo([Deleted()], [Puts()]);
            WellChosen(v, CutCompaction()) && GapsAreCovered(v, CutCompaction())
  {
    assert [Puts()] + [] == [Puts()];
    OneIsChosen(Deleted(), Puts(), []);
  }

  lemma KeptThree(input: seq<Entry>, ss: SequenceNumber, v: Version, level: nat)
    requires |input| == 3
    ensures Kept(input, 3, ss, v, level) ==
            (if Dropped(Elements(input), ss, v, level, input[0]) then [] else [input[0]])
            + (if Dropped(Elements(input), ss, v, level, input[1]) then [] else [input[1]])
            + (if Dropped(Elements(input), ss, v, level, input[2]) then [] else [input[2]])
  {
    hide Dropped;
    assert Kept(input, 0, ss, v, level) == [];
    assert Kept(input, 1, ss, v, level) == if Dropped(Elements(input), ss, v, level, input[0]) then [] else [input[0]];
    assert Kept(input, 2, ss, v, level) == Kept(input, 1, ss, v, level) + if Dropped(Elements(input), ss, v, level, input[1]) then [] else [input[1]];
  }

  lemma FlattenTwo(a: seq<Entry>, b: seq<Entry>)
    ensures Flatten([a]) == a && Flatten([a, b]) == a + b
  {
    FlattenNothing();
    FlattenSnoc([], a);
    assert [] + [a] == [a] && [] + a == a;
    FlattenSnoc([a], b);
    assert [a] + [b] == [a, b];
  }

  lemma CutKeepsAll(input: seq<Entry>, v: Version)
    requires input == [First(), Gone(), Old()]
    ensures Sorted(input) && Kept(input, 3, 2, v, 1) == input
  {
    var all := Elements(input);
    assert all == {First(), Gone(), Old()};
    assert forall e | e in all :: !Dropped(all, 2, v, 1, e);
    hide Dropped, Kept;
    KeptThree(input, 2, v, 1);
  }

  lemma CutOutput()
    ensures IsMergeOutput(CutCompaction(), OneAndTwo([Deleted()], [Puts()]), 2, [CutLeft(), CutRight()])
  {
    hide Dropped, Flatten, Kept, OneAndTwo, Sorted, First, Gone, Old, EntriesOf, Inputs;
    var c, v, input := CutCompaction(), OneAndTwo([Deleted()], [Puts()]), [First(), Gone(), Old()];
    CutKeepsAll(input, v);
    EntriesOfTwo(c, Deleted(), Puts());
    assert Elements(input) == Elements([Gone()]) + Elements([First(), Old()]);
    assert Runs([CutLeft(), CutRight()]) == [[First(), Gone()], [Old()]];
    FlattenTwo([First(), Gone()], [Old()]);
    assert [First(), Gone()] + [Old()] == input;
  }

  lemma EntriesOfTwo(c: Compaction, f: File, g: File)
    requires c.inputs0 == [f] && c.inputs1 == [g]
    ensures EntriesOf(Inputs(c)) == Elements(f.entries) + Elements(g.entries)
  {
    assert f in Inputs(c) && g in Inputs(c) && forall h :: h in Inputs(c) <==> h == f || h == g;
  }

  lemma MergeEditOfOnes(c: Compaction, f: File, g: File, outs: seq<File>)
    requires c.inputs0 == [f] && c.inputs1 == [g]
    ensures MergeEdit(c, outs).deleted == {(c.level, f.number), (c.level + 1, g.number)}
    ensures forall l, o :: (l, o) in MergeEdit(c, outs).added <==> l == c.level + 1 && o in outs
    ensures |MergeEdit(c, outs).added| == |outs|
  {
    assert f in c.inputs0 && g in c.inputs1;
    var edit := MergeEdit(c, outs);
    forall l, o
      ensures (l, o) in edit.added <==> l == c.level + 1 && o in outs
    {
      if l == c.level + 1 && o in outs {
        var i :| 0 <= i < |outs| && outs[i] == o;
        assert edit.added[i] == (l, o);
      }
    }
  }

  // Replaces the one file of level 1, and one of level 2, by output files on level 2.
  lemma MergedEdit(c: Compaction, f: File, g: File, rest: seq<File>, outs: seq<File>)
    requires c.level == 1 && c.inputs0 == [f] && c.inputs1 == [g]
    requires Ordered(outs + rest)
    requires forall h | h in rest :: h.number != g.number
    requires forall o, h | o in outs && (h == g || h in rest) :: o.number != h.number
    requires forall o, p | o in outs && p in outs && o.number == p.number :: o == p
    ensures var v, v' := OneAndTwo([f], [g] + rest), OneAndTwo([], outs + rest);
            FreshAdds(v, MergeEdit(c, outs)) && Edited(v, MergeEdit(c, outs), v')
  {
    var v, v', edit := OneAndTwo([f], [g] + rest), OneAndTwo([], outs + rest), MergeEdit(c, outs);
    MergeEditOfOnes(c, f, g, outs);
    OneAndTwoFiles([f], [g] + rest);
    OneAndTwoFiles([], outs + rest);
    hide OneAndTwo, MergeEdit, Ordered;
    forall a | a in edit.added
      ensures a.0 == 2 && a.1 in outs
    {
      assert a == (a.0, a.1);
    }
  }

  lemma CutEdit()
    ensures var outs, v := [CutLeft(), CutRight()], OneAndTwo([Deleted()], [Puts()]);
            && FreshAdds(v, MergeEdit(CutCompaction(), outs))
            && Edited(v, MergeEdit(CutCompaction(), outs), OneAndTwo([], outs))
            && outs[0].number == 4 && outs[1].number == 5
  {
    var outs := [CutLeft(), CutRight()];
    FilesOrdered();
    assert outs + [] == outs && [Puts()] + [] == [Puts()];
    assert CutLeft().number == 4 && CutRight().number == 5 && Puts().number == 2 && Deleted().number == 3;
    hide Ordered, OneAndTwo, FreshAdds, Edited, MergeEdit, CutLeft, CutRight, Puts, Deleted;
    MergedEdit(CutCompaction(), Deleted(), Puts(), [], outs);
  }

  // The deletion and the put that it hides are now in different files of level 2.
  lemma Split() returns (r: Run)
    ensures Reachable(CoveredGaps, r)
    ensures r == Run(State([], None, OneAndTwo([], [CutLeft(), CutRight()]), 3, 0, [2], None, {}, 6), {First(), Old(), Gone()}, 2)
  {
    hide Reachable, WellChosen, GapsAreCovered, IsMergeOutput, FreshAdds, Edited, OneAndTwo, MergeEdit, First, Old, Gone, CutLeft, CutRight, Deleted, Puts, CutCompaction;
    r := Written();
    CutIsChosen();
    CutOutput();
    CutEdit();
    r := MergeInto(CoveredGaps, r, CutCompaction(), [CutLeft(), CutRight()], OneAndTwo([], [CutLeft(), CutRight()]));
  }

  // The snapshot is released, and the first key written and flushed again.
  lemma Rewritten() returns (r: Run)
    ensures Reachable(CoveredGaps, r)
    ensures r == Run(State([], None, OneAndTwo([Newest()], [CutLeft(), CutRight()]), 4, 0, [], None, {}, 7),
                     {First(), Old(), Gone(), Second()}, 2)
  {
    hide Reachable;
    r := Split();
    var v3, v4 := OneAndTwo([], [CutLeft(), CutRight()]), OneAndTwo([Newest()], [CutLeft(), CutRight()]);
    FilesOrdered();
    OneAndTwoFiles([], [CutLeft(), CutRight()]);
    OneAndTwoFiles([Newest()], [CutLeft(), CutRight()]);
    hide OneAndTwo, Ordered;
    var released := r.(db := r.db.(snapshots := []));
    assert [2][..0] + [2][1..] == [];
    Reach(CoveredGaps, r, ReleaseSnapshot(0), released);
    r := Write(CoveredGaps, released, 1.0, Put, "b");
    assert InsertEntry([], Second()) == [Second()];
    assert FlushFits(v3, 1, Newest());
    r := FlushTo(CoveredGaps, r, 1, Newest(), v4);
  }

  function LastCompaction(): Compaction { Compaction(1, [Newest()], [CutLeft()], []) }

  lemma LastIsChosen()
    ensures var v := OneAndTwo([Newest()], [CutLeft(), CutRight()]);
            WellChosen(v, LastCompaction()) && GapsAreCovered(v, LastCompaction())
  {
    assert [CutLeft()] + [CutRight()] == [CutLeft(), CutRight()];
    OneIsChosen(Newest(), CutLeft(), [CutRight()]);
  }

  lemma LastKeepsOne(input: seq<Entry>, v: Version)
    requires input == [Second(), First(), Gone()] && IsBase(v, 1, 5.0)
    ensures Sorted(input) && Kept(input, 3, 4, v, 1) == [Second()]
  {
    var all := Elements(input);
    assert Second() == input[0] && Second() in all;
    assert !Dropped(all, 4, v, 1, Second()) && Dropped(all, 4, v, 1, First()) && Dropped(all, 4, v, 1, Gone());
    hide Dropped, Kept;
    KeptThree(input, 4, v, 1);
  }

  // The merge keeps only the newest put: the deletion has nothing below the output level.
  lemma LastOutput()
    ensures IsMergeOutput(LastCompaction(), OneAndTwo([Newest()], [CutLeft(), CutRight()]), 4, [Last()])
  {
    OneAndTwoFiles([Newest()], [CutLeft(), CutRight()]);
    hide Dropped, Flatten, Kept, OneAndTwo, Sorted, First, Gone, Old, Second, EntriesOf, Inputs;
    var c, v, input := LastCompaction(), OneAndTwo([Newest()], [CutLeft(), CutRight()]), [Second(), First(), Gone()];
    assert IsBase(v, 1, 5.0);
    hide IsBase;
    LastKeepsOne(input, v);
    EntriesOfTwo(c, Newest(), CutLeft());
    assert Elements(input) == Elements([Second()]) + Elements([First(), Gone()]);
    assert Runs([Last()]) == [[Second()]];
    FlattenTwo([Second()], []);
  }

  lemma LastReadings(live: set<Entry>, history: set<Entry>)
    requires live == {Second(), Old()} && history == {First(), Old(), Gone(), Second()}
    ensures Lookup(live, 5.0, 4) == Some("old") && Lookup(history, 5.0, 4) == None
  {
    assert IsNewest(live, 5.0, 4, Old()) && IsNewest(history, 5.0, 4, Gone());
    LookupIs(live, 5.0, 4, Old());
    LookupIs(history, 5.0, 4, Gone());
  }

  lemma LastContents()
    ensures Contents(OneAndTwo([], [Last(), CutRight()])) == {Second(), Old()}
  {
    var v := OneAndTwo([], [Last(), CutRight()]);
    OneAndTwoFiles([], [Last(), CutRight()]);
    hide OneAndTwo;
    assert Last() in v[2] && CutRight() in v[2];
    assert Second() in Last().entries && Old() in CutRight().entries;
  }

  lemma LastEdit()
    ensures var v := OneAndTwo([Newest()], [CutLeft(), CutRight()]);
            && FreshAdds(v, MergeEdit(LastCompaction(), [Last()]))
            && Edited(v, MergeEdit(LastCompaction(), [Last()]), OneAndTwo([], [Last(), CutRight()]))
            && Last().number == 7
  {
    FilesOrdered();
    assert [Last()] + [CutRight()] == [Last(), CutRight()] && [CutLeft()] + [CutRight()] == [CutLeft(), CutRight()];
    assert CutLeft().number == 4 && CutRight().number == 5 && Newest().number == 6 && Last().number == 7;
    hide Ordered, OneAndTwo, FreshAdds, Edited, MergeEdit, CutLeft, CutRight, Newest, Last;
    MergedEdit(LastCompaction(), Newest(), CutLeft(), [CutRight()], [Last()]);
  }

  // In four writes, three flushes and two merges the deleted key 5 comes to read as "old" again.
  lemma DeletedKeyComesBack() returns (r: Run)
    ensures Reachable(CoveredGaps, r) && r.db.lastSequence == 4
    ensures Lookup(r.history, 5.0, 4) == None && Lookup(Live(r.db), 5.0, 4) == Some("old")
  {
    hide Reachable, WellChosen, GapsAreCovered, IsMergeOutput, FreshAdds, Edited, OneAndTwo, MergeEdit, Contents, Lookup;
    hide First, Old, Gone, Second, CutLeft, CutRight, Newest, Last, LastCompaction;
    r := Rewritten();
    LastIsChosen();
    LastOutput();
    LastEdit();
    LastContents();
    r := MergeInto(CoveredGaps, r, LastCompaction(), [Last()], OneAndTwo([], [Last(), CutRight()]));
    assert Live(r.db) == {Second(), Old()};
    LastReadings(Live(r.db), r.history);
  }
}
