// The level a flushed memtable goes to.

module MemTableOutput {
  import opened InternalKeys
  import opened Versions
  import opened CompactionInputs

  const MAX_MEM_COMPACT_LEVEL: nat := 2

  // Whether some file overlaps the range: level by level, or by binary search when the files
  // are sorted and disjoint.
  method SomeFileOverlapsRange(disjointSortedFiles: bool, files: seq<File>, r: Range) returns (overlaps: bool)
    requires disjointSortedFiles ==> SortedFiles(files)
    ensures overlaps <==> exists f :: f in files && Overlaps(f, r)
  {
    if !disjointSortedFiles {
      for i := 0 to |files|
        invariant forall j | 0 <= j < i :: !Overlaps(files[j], r)
      {
        if !((r.begin.Some? && r.begin.value > Largest(files[i]).user) || (r.end.Some? && r.end.value < Smallest(files[i]).user)) {
          assert Overlaps(files[i], r);
          return true;
        }
      }
      return false;
    }
    var index := 0;
    if r.begin.Some? {
      index := FindFile(files, InternalKey(r.begin.value, MAX_SEQUENCE, Put));
    }
    if index >= |files| {
      assert forall i | 0 <= i < |files| :: !Overlaps(files[i], r);
      return false;
    }
    overlaps := !(r.end.Some? && r.end.value < Smallest(files[index]).user);
    if overlaps {
      assert Overlaps(files[index], r);
    } else {
      forall i | 0 <= i < |files|
        ensures !Overlaps(files[i], r)
      {
        if index < i {
          FileIsNotReversed(files[index]);
          assert Less(Largest(files[index]), Smallest(files[i]));
        }
      }
    }
  }

  // The level for a table over a range: 0 if a level-0 file overlaps it. Otherwise it falls from
  // level to level while no file of the next level overlaps it and those of the level after that
  // hold little, and it stops at level 2.
  ghost predicate IsOutputLevel(v: Version, r: Range, maxFileSize: nat, level: nat) {
    && level <= MAX_MEM_COMPACT_LEVEL
    && (0 < level ==> forall f | f in v[0] :: !Overlaps(f, r))
    && (forall l | 0 <= l < level :: MayFall(v, r, maxFileSize, l))
    && (level < MAX_MEM_COMPACT_LEVEL && (forall f | f in v[0] :: !Overlaps(f, r)) ==> !MayFall(v, r, maxFileSize, level))
  }

  ghost predicate MayFall(v: Version, r: Range, maxFileSize: nat, l: nat) {
    && l + 1 < NUM_LEVELS
    && (forall f | f in v[l+1] :: !Overlaps(f, r))
    && (l + 2 < NUM_LEVELS ==> TotalFileSize(Select(v[l+2], r)) <= 10 * maxFileSize)
  }

  lemma OutputLevelIsUnique(v: Version, r: Range, maxFileSize: nat, a: nat, b: nat)
    requires IsOutputLevel(v, r, maxFileSize, a) && IsOutputLevel(v, r, maxFileSize, b)
    ensures a == b
    ensures (forall l | 0 <= l < NUM_LEVELS :: v[l] == []) ==> a == 2
  {
    assert Select([], r) == [] && TotalFileSize([]) == 0;
    assert a < b ==> MayFall(v, r, maxFileSize, a);
    assert b < a ==> MayFall(v, r, maxFileSize, b);
  }

  method PickLevelForMemTableOutput(v: Version, smallest: UserKey, largest: UserKey, maxFileSize: nat) returns (level: nat)
    requires forall i | 1 <= i < NUM_LEVELS :: SortedFiles(v[i])
    ensures IsOutputLevel(v, Range(Some(smallest), Some(largest)), maxFileSize, level)
    ensures level <= 2
    ensures (exists f :: f in v[0] && Overlaps(f, Range(Some(smallest), Some(largest)))) ==> level == 0
    ensures (forall f | f in v[0] :: !Overlaps(f, Range(Some(smallest), Some(largest)))) && level < 2 ==>
              || (exists f :: f in v[level+1] && Overlaps(f, Range(Some(smallest), Some(largest))))
              || TotalFileSize(Select(v[level+2], Range(Some(smallest), Some(largest)))) > 10 * maxFileSize
    ensures forall i | 2 <= i <= level + 1 :: TotalFileSize(Select(v[i], Range(Some(smallest), Some(largest)))) <= 10 * maxFileSize
    ensures 0 < level ==> forall i, f | 0 <= i <= level && f in v[i] :: !Overlaps(f, Range(Some(smallest), Some(largest)))
  {
    hide Overlaps, Select, TotalFileSize, SortedFiles;
    var r := Range(Some(smallest), Some(largest));
    level := 0;
    var overlap := SomeFileOverlapsRange(false, v[0], r);
    if overlap {
      return;
    }
    while level < MAX_MEM_COMPACT_LEVEL
      invariant level <= MAX_MEM_COMPACT_LEVEL
      invariant forall i, f | 0 <= i <= level && f in v[i] :: !Overlaps(f, r)
      invariant forall i | 2 <= i <= level + 1 :: TotalFileSize(Select(v[i], r)) <= 10 * maxFileSize
    {
      overlap := SomeFileOverlapsRange(true, v[level+1], r);
      if overlap {
        break;
      }
      if level + 2 < NUM_LEVELS {
        var overlaps := GetOverlappingInputs(v[level+2], level + 2, r);
        if TotalFileSize(overlaps) > 10 * maxFileSize {
          break;
        }
      }
      level := level + 1;
    }
  }
}
