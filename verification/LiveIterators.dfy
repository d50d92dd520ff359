// The iterator a client gets: the merging iterator over everything live, seen through the
// user-facing one, and what a scan with it returns.

module LiveIterators {
  import opened InternalKeys
  import opened MergingIterators
  import opened DbIterators
  import opened Versions
  import opened LevelInvariants
  import opened Database

  // ---- The children

  // Sorted runs that share no entry and hold exactly `all`.
  ghost predicate Gathered(runs: seq<seq<Entry>>, all: set<Entry>) {
    && (forall i | 0 <= i < |runs| :: Sorted(runs[i]) && Elements(runs[i]) <= all)
    && (forall e | e in all :: InSome(runs, e))
    && (forall i, j | 0 <= i < j < |runs| :: Elements(runs[i]) !! Elements(runs[j]))
  }

  ghost predicate InSome(runs: seq<seq<Entry>>, e: Entry) {
    exists i :: 0 <= i < |runs| && e in runs[i]
  }

  lemma GatherOne(runs: seq<seq<Entry>>, all: set<Entry>, run: seq<Entry>)
    requires Gathered(runs, all) && Sorted(run) && Elements(run) !! all
    ensures Gathered(runs + [run], all + Elements(run))
  {
    hide Sorted;
    var more := runs + [run];
    forall e | e in all + Elements(run)
      ensures InSome(more, e)
    {
      if e in all {
        assert InSome(runs, e);
        var i :| 0 <= i < |runs| && e in runs[i];
        assert e in more[i];
      } else {
        assert e in more[|runs|];
      }
    }
  }

  // The entries of a sorted level, file by file.
  function Concatenation(files: seq<File>): seq<Entry> {
    if files == [] then [] else Concatenation(files[..|files|-1]) + files[|files|-1].entries
  }

  lemma {:induction false} ConcatenationIs(files: seq<File>)
    ensures Elements(Concatenation(files)) == EntriesOf(files)
    ensures SortedFiles(files) ==> Sorted(Concatenation(files))
  {
    if files != [] {
      var init, last := files[..|files|-1], files[|files|-1];
      assert files == init + [last];
      ConcatenationIs(init);
      EntriesOfMore(init, last);
      if SortedFiles(files) {
        forall x, y | x in Concatenation(init) && y in last.entries
          ensures Less(x.key, y.key)
        {
          assert x in EntriesOf(init);
          var f :| f in init && x in f.entries;
          var i :| 0 <= i < |init| && init[i] == f;
          assert files[i] == f && files[|init|] == last;
          SmallestToLargest(f);
          SmallestToLargest(last);
          LessIsStrictTotalOrder(x.key, Largest(f), Smallest(last));
          LessIsStrictTotalOrder(x.key, Smallest(last), y.key);
        }
        AppendedIsSorted(Concatenation(init), last.entries);
      }
    }
  }

  lemma AppendedIsSorted(a: seq<Entry>, b: seq<Entry>)
    requires Sorted(a) && Sorted(b) && forall x, y | x in a && y in b :: Less(x.key, y.key)
    ensures Sorted(a + b)
  {
    hide Less;
  }

  lemma EntriesOfMore(files: seq<File>, f: File)
    ensures EntriesOf(files + [f]) == EntriesOf(files) + Elements(f.entries)
  {
    forall e
      ensures e in EntriesOf(files + [f]) <==> e in EntriesOf(files) || e in f.entries
    {
      if e in EntriesOf(files) {
        var g :| g in files && e in g.entries;
        assert g in files + [f];
      }
      if e in f.entries {
        assert f in files + [f];
      }
    }
  }

  // The entries above a level.
  ghost function Above(v: Version, level: nat): set<Entry>
    requires level <= NUM_LEVELS
  {
    set i, f, e | 0 <= i < level && f in v[i] && e in f.entries :: e
  }

  lemma AboveNext(v: Version, level: nat)
    requires level < NUM_LEVELS && LevelsByAge(v)
    ensures Above(v, level + 1) == Above(v, level) + EntriesOf(v[level]) && Above(v, level) !! EntriesOf(v[level])
  {
    forall e
      ensures e in Above(v, level + 1) <==> e in Above(v, level) || e in EntriesOf(v[level])
    {
      if e in Above(v, level + 1) {
        var i, f :| 0 <= i < level + 1 && f in v[i] && e in f.entries;
        assert i == level ==> e in EntriesOf(v[level]);
      }
    }
    forall x, y | x in Above(v, level) && y in EntriesOf(v[level])
      ensures x != y
    {
      var i, f :| 0 <= i < level && f in v[i] && x in f.entries;
      var g :| g in v[level] && y in g.entries;
      assert Newer(f.entries, g.entries);
    }
  }

  lemma Level0Next(files: seq<File>, i: nat)
    requires NumberedByAge(files) && i < |files|
    ensures EntriesOf(files[..i+1]) == EntriesOf(files[..i]) + Elements(files[i].entries)
    ensures EntriesOf(files[..i]) !! Elements(files[i].entries)
  {
    assert files[..i+1] == files[..i] + [files[i]];
    EntriesOfMore(files[..i], files[i]);
    forall x, y | x in EntriesOf(files[..i]) && y in files[i].entries
      ensures x != y
    {
      var f :| f in files[..i] && x in f.entries;
      var j :| 0 <= j < i && files[j] == f;
    }
  }

  // One child per level-0 file, and one per sorted level that has files.
  method AddIterators(v: Version, runs: seq<seq<Entry>>, ghost newer: set<Entry>) returns (more: seq<seq<Entry>>)
    requires ValidVersion(v) && Gathered(runs, newer) && newer !! Contents(v)
    ensures Gathered(more, newer + Contents(v)) && runs <= more
  {
    hide Gathered, Sorted, NumberedByAge, SortedFiles, LevelsByAge, Concatenation;
    more := runs;
    assert Above(v, 0) == {} && v[0][..0] == [] && EntriesOf(v[0][..0]) == {};
    assert newer + {} == newer;
    for i := 0 to |v[0]|
      invariant runs <= more && Gathered(more, newer + EntriesOf(v[0][..i]))
    {
      Level0Next(v[0], i);
      LevelIsInside(v, 0, v[0][i]);
      assert newer + EntriesOf(v[0][..i+1]) == newer + EntriesOf(v[0][..i]) + Elements(v[0][i].entries);
      GatherOne(more, newer + EntriesOf(v[0][..i]), v[0][i].entries);
      more := more + [v[0][i].entries];
    }
    assert v[0][..|v[0]|] == v[0];
    AboveNext(v, 0);
    assert newer + EntriesOf(v[0]) == newer + Above(v, 1);
    for level := 1 to NUM_LEVELS
      invariant runs <= more && Gathered(more, newer + Above(v, level))
    {
      AboveNext(v, level);
      ConcatenationIs(v[level]);
      AboveIsInside(v, level + 1);
      assert newer + Above(v, level + 1) == newer + Above(v, level) + EntriesOf(v[level]);
      if v[level] != [] {
        GatherOne(more, newer + Above(v, level), Concatenation(v[level]));
        more := more + [Concatenation(v[level])];
      } else {
        assert EntriesOf(v[level]) == {};
        assert newer + Above(v, level + 1) == newer + Above(v, level);
      }
    }
    assert Above(v, NUM_LEVELS) == Contents(v);
  }

  lemma LevelIsInside(v: Version, level: nat, f: File)
    requires level < NUM_LEVELS && f in v[level]
    ensures Elements(f.entries) <= Contents(v)
  {
  }

  lemma AboveIsInside(v: Version, level: nat)
    requires level <= NUM_LEVELS
    ensures Above(v, level) <= Contents(v)
  {
  }

  lemma OthersKeys(runs: seq<seq<Entry>>, all: set<Entry>)
    requires Gathered(runs, all) && DistinctStamps(all)
    ensures forall i, j, m, n | 0 <= i < j < |runs| && 0 <= m < |runs[i]| && 0 <= n < |runs[j]| :: runs[i][m].key != runs[j][n].key
  {
    forall i, j, m, n | 0 <= i < j < |runs| && 0 <= m < |runs[i]| && 0 <= n < |runs[j]|
      ensures runs[i][m].key != runs[j][n].key
    {
      var x, y := runs[i][m], runs[j][n];
      assert x in Elements(runs[i]) && y in Elements(runs[j]);
      assert Elements(runs[i]) !! Elements(runs[j]);
    }
  }

  method AddMemTables(mem: seq<Entry>, imm: Option<seq<Entry>>) returns (runs: seq<seq<Entry>>)
    requires Sorted(mem) && (imm.Some? ==> Sorted(imm.value) && Elements(mem) !! Elements(imm.value))
    ensures Gathered(runs, Elements(mem) + Elements(if imm.Some? then imm.value else []))
  {
    hide Sorted, Gathered;
    runs := [mem];
    NothingGathered();
    GatherOne([], {}, mem);
    assert [] + [mem] == [mem] && {} + Elements(mem) == Elements(mem);
    if imm.Some? {
      GatherOne(runs, Elements(mem), imm.value);
      runs := runs + [imm.value];
    } else {
      assert Elements(mem) + Elements([]) == Elements(mem);
    }
  }

  lemma NothingGathered()
    ensures Gathered([], {})
  {
  }

  method NewMergingIterator(runs: seq<seq<Entry>>, ghost all: set<Entry>) returns (it: MergingIterator)
    requires Gathered(runs, all) && DistinctStamps(all)
    ensures fresh(it) && fresh(it.children) && it.WellFormed() && it.all == all
  {
    OthersKeys(runs, all);
    GatheredChildren(runs, all);
    hide Sorted, Gathered, DistinctStamps;
    var children := new Cursor[|runs|](i requires 0 <= i < |runs| => Cursor(runs[i], |runs[i]|));
    forall e | e in all
      ensures exists i :: 0 <= i < children.Length && e in children[i].data
    {
      var i :| 0 <= i < |runs| && e in runs[i];
      assert children[i].data == runs[i];
    }
    it := new MergingIterator(children, all);
  }

  // Memtable, immutable memtable, then the files: an iterator over exactly what is live.
  method NewInternalIterator(st: State) returns (it: MergingIterator)
    requires Structure(st) && DistinctStamps(Live(st))
    ensures fresh(it) && fresh(it.children) && it.WellFormed() && it.all == Live(st)
  {
    hide Sorted, Contents, ValidVersion, DistinctStamps, Sound, Gathered, NumbersBelow, NumbersAvoid;
    SoundIsValid(st.version);
    var runs := AddMemTables(st.mem, st.imm);
    runs := AddIterators(st.version, runs, Elements(st.mem) + Elements(ImmEntries(st)));
    it := NewMergingIterator(runs, Live(st));
  }

  lemma GatheredChildren(runs: seq<seq<Entry>>, all: set<Entry>)
    requires Gathered(runs, all)
    ensures forall i | 0 <= i < |runs| :: Sorted(runs[i]) && forall e | e in runs[i] :: e in all
    ensures forall e | e in all :: exists i :: 0 <= i < |runs| && e in runs[i]
  {
    forall e | e in all
      ensures exists i :: 0 <= i < |runs| && e in runs[i]
    {
      assert InSome(runs, e);
    }
    forall i, e | 0 <= i < |runs| && e in runs[i]
      ensures e in all
    {
      assert e in Elements(runs[i]);
    }
  }

  // An iterator at a snapshot, or at the last published sequence number.
  method NewIterator(st: State, snapshot: Option<SequenceNumber>) returns (it: DbIterator)
    requires Structure(st) && DistinctStamps(Live(st))
    ensures fresh(it) && fresh(it.iter) && fresh(it.iter.children) && it.WellFormed() && !it.valid
    ensures it.iter.all == Live(st) && it.sequence == if snapshot.Some? then snapshot.value else st.lastSequence
  {
    var iter := NewInternalIterator(st);
    it := new DbIterator(iter, if snapshot.Some? then snapshot.value else st.lastSequence);
  }

  // ---- A scan

  // Ascending by user key, the pairs are exactly the reads below `here`.
  ghost predicate ScannedUpTo(all: set<Entry>, s: SequenceNumber, pairs: seq<(UserKey, Value)>, here: Option<Entry>) {
    && (forall i, j | 0 <= i < j < |pairs| :: pairs[i].0 < pairs[j].0)
    && (forall p | p in pairs :: Lookup(all, p.0, s) == Some(p.1) && (here.Some? ==> p.0 < here.value.key.user))
    && (forall u | (here.Some? ==> u < here.value.key.user) && Lookup(all, u, s).Some? :: (u, Lookup(all, u, s).value) in pairs)
  }

  lemma ScanStarts(all: set<Entry>, s: SequenceNumber, here: Option<Entry>)
    requires DistinctStamps(all) && ShowsFirst(all, s, Unbounded, here)
    ensures ScannedUpTo(all, s, [], here)
  {
    hide Lookup;
    ShowsFirstIsLeastReading(all, s, Unbounded, here);
  }

  lemma ScanGoesOn(all: set<Entry>, s: SequenceNumber, pairs: seq<(UserKey, Value)>, e: Entry, here: Option<Entry>)
    requires DistinctStamps(all) && ScannedUpTo(all, s, pairs, Some(e)) && Shown(all, s, e)
    requires ShowsFirst(all, s, Bound.Above(e.key.user), here)
    ensures ScannedUpTo(all, s, pairs + [(e.key.user, e.value)], here)
  {
    hide Lookup;
    var more := pairs + [(e.key.user, e.value)];
    LookupIs(all, e.key.user, s, e);
    ShowsFirstIsLeastReading(all, s, Bound.Above(e.key.user), here);
    forall p | p in more
      ensures Lookup(all, p.0, s) == Some(p.1) && (here.Some? ==> p.0 < here.value.key.user)
    {
      assert p in pairs || p == (e.key.user, e.value);
    }
    forall u | (here.Some? ==> u < here.value.key.user) && Lookup(all, u, s).Some?
      ensures (u, Lookup(all, u, s).value) in more
    {
      assert !(Bound.Above(e.key.user).Admits(u));
      if u < e.key.user {
        assert (u, Lookup(all, u, s).value) in pairs;
      } else {
        assert more[|pairs|] == (u, Lookup(all, u, s).value);
      }
    }
  }

  // The live entries that a scan from here has not passed.
  ghost function Left(all: set<Entry>, here: Option<Entry>): set<Entry> {
    if here.None? then {} else set x | x in all && here.value.key.user <= x.key.user
  }

  lemma LessIsLeft(all: set<Entry>, s: SequenceNumber, e: Entry, here: Option<Entry>)
    requires e in all && ShowsFirst(all, s, Bound.Above(e.key.user), here)
    ensures Left(all, here) < Left(all, Some(e))
  {
    assert e in Left(all, Some(e)) && e !in Left(all, here);
  }

  // Iterating over the database from its first key on gives every user key that reads a value
  // at the sequence number, once, in order, with that value, and nothing else.
  method Scan(st: State, snapshot: Option<SequenceNumber>) returns (pairs: seq<(UserKey, Value)>)
    requires Structure(st) && DistinctStamps(Live(st))
    ensures forall i, j | 0 <= i < j < |pairs| :: pairs[i].0 < pairs[j].0
    ensures var s := if snapshot.Some? then snapshot.value else st.lastSequence;
            forall u, v :: (u, v) in pairs <==> Lookup(Live(st), u, s) == Some(v)
  {
    hide Structure, Live, Lookup, DistinctStamps, ShowsFirst, ScannedUpTo, Shown;
    ghost var all := Live(st);
    var it := NewIterator(st, snapshot);
    pairs := [];
    it.SeekToFirst();
    ScanStarts(all, it.sequence, it.Here());
    while it.valid
      invariant it.WellFormed() && it.iter.all == all
      invariant ScannedUpTo(all, it.sequence, pairs, it.Here())
      decreases Left(all, it.Here())
    {
      ghost var e, before := it.current, pairs;
      var key := it.Key();
      var value := it.Value();
      ShownIsIn(all, it.sequence, e);
      pairs := pairs + [(key, value)];
      it.Next();
      ScanGoesOn(all, it.sequence, before, e, it.Here());
      LessIsLeft(all, it.sequence, e, it.Here());
    }
    ScanEnds(all, it.sequence, pairs);
  }

  lemma ShownIsIn(all: set<Entry>, s: SequenceNumber, e: Entry)
    requires Shown(all, s, e)
    ensures e in all
  {
  }

  lemma ScanEnds(all: set<Entry>, s: SequenceNumber, pairs: seq<(UserKey, Value)>)
    requires ScannedUpTo(all, s, pairs, None)
    ensures forall i, j | 0 <= i < j < |pairs| :: pairs[i].0 < pairs[j].0
    ensures forall u, v :: (u, v) in pairs <==> Lookup(all, u, s) == Some(v)
  {
    hide Lookup;
    forall u, v
      ensures (u, v) in pairs <==> Lookup(all, u, s) == Some(v)
    {
      if (u, v) in pairs {
        var p := (u, v);
        assert p in pairs;
      }
    }
  }
}
