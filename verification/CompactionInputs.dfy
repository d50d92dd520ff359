// Choosing the input files of a compaction.

module CompactionInputs {
  import opened InternalKeys
  import opened Versions

  // ---- Ranges of user keys; None stands for an end without limit

  datatype Range = Range(begin: Option<UserKey>, end: Option<UserKey>) {
    predicate Includes(u: UserKey) {
      && (begin.Some? ==> begin.value <= u)
      && (end.Some? ==> u <= end.value)
    }

    predicate Contains(r: Range) {
      && (begin.Some? ==> r.begin.Some? && begin.value <= r.begin.value)
      && (end.Some? ==> r.end.Some? && r.end.value <= end.value)
    }
  }

  predicate Covers(f: File, u: UserKey) {
    Smallest(f).user <= u <= Largest(f).user
  }

  predicate Overlaps(f: File, r: Range) {
    && !(r.begin.Some? && Largest(f).user < r.begin.value)
    && !(r.end.Some? && r.end.value < Smallest(f).user)
  }

  predicate Within(f: File, r: Range) {
    r.Includes(Smallest(f).user) && r.Includes(Largest(f).user)
  }

  lemma FileIsNotReversed(f: File)
    ensures Smallest(f).user <= Largest(f).user
  {
    SmallestToLargest(f);
    assert f.entries[|f.entries|-1] in f.entries;
  }

  // A file overlaps a range of user keys when some user key is in both.
  lemma OverlapsShares(f: File, r: Range)
    requires r.begin.Some? && r.end.Some? ==> r.begin.value <= r.end.value
    ensures Overlaps(f, r) <==> exists u :: Covers(f, u) && r.Includes(u)
  {
    FileIsNotReversed(f);
    if Overlaps(f, r) {
      var u := if r.begin.Some? && Smallest(f).user < r.begin.value then r.begin.value else Smallest(f).user;
      assert Covers(f, u) && r.Includes(u);
    }
  }

  // The files that overlap a range, in their order in the level.
  ghost function Select(files: seq<File>, r: Range): seq<File> {
    if files == [] then []
    else
      var last := files[|files|-1];
      Select(files[..|files|-1], r) + if Overlaps(last, r) then [last] else []
  }

  lemma {:induction false} SelectMembers(files: seq<File>, r: Range)
    ensures forall f :: f in Select(files, r) <==> f in files && Overlaps(f, r)
  {
    if files != [] {
      SelectMembers(files[..|files|-1], r);
      assert files == files[..|files|-1] + [files[|files|-1]];
    }
  }

  // Every file that overlaps the range lies within it.
  ghost predicate Closed(files: seq<File>, r: Range) {
    forall f | f in files && Overlaps(f, r) :: Within(f, r)
  }

  // `least` is the smallest closed range around `r`, and files alone bridge the difference.
  ghost predicate IsClosure(files: seq<File>, r: Range, least: Range) {
    && Closed(files, least)
    && least.Contains(r)
    && (forall c: Range | Closed(files, c) && c.Contains(r) :: c.Contains(least))
    && (forall u | least.Includes(u) && !r.Includes(u) :: exists f :: f in Select(files, least) && Covers(f, u))
  }

  ghost function Before(files: seq<File>, begin: Option<UserKey>): set<File> {
    set f | f in files && begin.Some? && Smallest(f).user < begin.value
  }

  ghost function After(files: seq<File>, end: Option<UserKey>): set<File> {
    set f | f in files && end.Some? && end.value < Largest(f).user
  }

  // What the level-0 search keeps while it widens `r` to `cur`: `cur` stays inside every
  // closed range around `r`, and files overlapping `cur` bridge the difference.
  ghost predicate Widening(files: seq<File>, r: Range, cur: Range) {
    && cur.Contains(r)
    && (forall c: Range | Closed(files, c) && c.Contains(r) :: c.Contains(cur))
    && (forall u | cur.Includes(u) && !r.Includes(u) :: exists f :: f in files && Overlaps(f, cur) && Covers(f, u))
  }

  lemma WidenTo(files: seq<File>, r: Range, cur: Range, f: File, next: Range)
    requires Widening(files, r, cur)
    requires f in files && Overlaps(f, cur)
    requires
      || (cur.begin.Some? && Smallest(f).user < cur.begin.value && next == cur.(begin := Some(Smallest(f).user)))
      || (cur.end.Some? && cur.end.value < Largest(f).user && next == cur.(end := Some(Largest(f).user)))
    ensures Widening(files, r, next)
  {
    FileIsNotReversed(f);
    forall c: Range | Closed(files, c) && c.Contains(r)
      ensures c.Contains(next)
    {
      assert c.Contains(cur) && Overlaps(f, c) && Within(f, c);
    }
    forall u | next.Includes(u) && !r.Includes(u)
      ensures exists g :: g in files && Overlaps(g, next) && Covers(g, u)
    {
      if cur.Includes(u) {
        var g :| g in files && Overlaps(g, cur) && Covers(g, u);
        assert Overlaps(g, next);
      } else {
        assert Overlaps(f, next) && Covers(f, u);
      }
    }
  }

  lemma WidenedIsClosure(files: seq<File>, r: Range, cur: Range)
    requires Widening(files, r, cur) && Closed(files, cur)
    ensures IsClosure(files, r, cur)
  {
    SelectMembers(files, cur);
    forall u | cur.Includes(u) && !r.Includes(u)
      ensures exists f :: f in Select(files, cur) && Covers(f, u)
    {
      var f :| f in files && Overlaps(f, cur) && Covers(f, u);
      assert f in Select(files, cur);
    }
  }

  lemma SelectSnoc(read: seq<File>, f: File, r: Range)
    ensures Select(read + [f], r) == Select(read, r) + if Overlaps(f, r) then [f] else []
    ensures Closed(read, r) && (Overlaps(f, r) ==> Within(f, r)) ==> Closed(read + [f], r)
  {
    assert (read + [f])[..|read|] == read;
  }

  lemma WideningShrinks(files: seq<File>, f: File, begin: Option<UserKey>, end: Option<UserKey>)
    requires f in files
    ensures begin.Some? && Smallest(f).user < begin.value ==> Before(files, Some(Smallest(f).user)) < Before(files, begin)
    ensures end.Some? && end.value < Largest(f).user ==> After(files, Some(Largest(f).user)) < After(files, end)
  {
    assert f !in Before(files, Some(Smallest(f).user)) && f !in After(files, Some(Largest(f).user));
    assert begin.Some? && Smallest(f).user < begin.value ==> f in Before(files, begin);
    assert end.Some? && end.value < Largest(f).user ==> f in After(files, end);
  }

  lemma NothingWidened(files: seq<File>, r: Range)
    ensures Widening(files, r, r)
  {
  }

  // Level 0 files may overlap each other, so a file found there can widen the range and start
  // the search again.
  method GetOverlappingInputs(files: seq<File>, level: nat, r: Range) returns (inputs: seq<File>)
    ensures level != 0 ==> inputs == Select(files, r)
    ensures level == 0 ==> exists least :: IsClosure(files, r, least) && inputs == Select(files, least)
  {
    hide Widening, Before, After, IsClosure;
    var i, userBegin, userEnd := 0, r.begin, r.end;
    inputs := [];
    NothingWidened(files, r);
    while i < |files|
      invariant 0 <= i <= |files|
      invariant level != 0 ==> Range(userBegin, userEnd) == r
      invariant Widening(files, r, Range(userBegin, userEnd))
      invariant inputs == Select(files[..i], Range(userBegin, userEnd))
      invariant level == 0 ==> Closed(files[..i], Range(userBegin, userEnd))
      decreases Before(files, userBegin), After(files, userEnd), |files| - i
    {
      hide Select, Closed;
      ghost var cur, read := Range(userBegin, userEnd), files[..i];
      var f := files[i];
      i := i + 1;
      assert files[..i] == read + [f];
      SelectSnoc(read, f, cur);
      WideningShrinks(files, f, userBegin, userEnd);
      if userBegin.Some? && Largest(f).user < userBegin.value {
        // before the range
      } else if userEnd.Some? && userEnd.value < Smallest(f).user {
        // after the range
      } else {
        inputs := inputs + [f];
        if level == 0 {
          if userBegin.Some? && Smallest(f).user < userBegin.value {
            userBegin, inputs, i := Some(Smallest(f).user), [], 0;
            WidenTo(files, r, cur, f, Range(userBegin, userEnd));
            NothingSelected(Range(userBegin, userEnd));
          } else if userEnd.Some? && userEnd.value < Largest(f).user {
            userEnd, inputs, i := Some(Largest(f).user), [], 0;
            WidenTo(files, r, cur, f, Range(userBegin, userEnd));
            NothingSelected(Range(userBegin, userEnd));
          } else {
            FileIsNotReversed(f);
          }
        }
      }
    }
    assert files[..i] == files;
    if level == 0 {
      WidenedIsClosure(files, r, Range(userBegin, userEnd));
    }
  }

  lemma NothingSelected(r: Range)
    ensures Select([], r) == [] && Closed([], r)
  {
  }

  // ---- Ranges of sets of files

  ghost predicate IsRangeOf(files: seq<File>, r: Range) {
    && r.begin.Some? && r.end.Some?
    && (forall f | f in files :: Within(f, r))
    && (exists f :: f in files && Smallest(f).user == r.begin.value)
    && (exists f :: f in files && Largest(f).user == r.end.value)
  }

  method GetRange(inputs: seq<File>) returns (smallest: InternalKey, largest: InternalKey)
    requires inputs != []
    ensures exists f :: f in inputs && Smallest(f) == smallest
    ensures exists f :: f in inputs && Largest(f) == largest
    ensures forall f | f in inputs :: !Less(Smallest(f), smallest) && !Less(largest, Largest(f))
  {
    smallest, largest := Smallest(inputs[0]), Largest(inputs[0]);
    for i := 1 to |inputs|
      invariant exists f :: f in inputs && Smallest(f) == smallest
      invariant exists f :: f in inputs && Largest(f) == largest
      invariant forall j | 0 <= j < i :: !Less(Smallest(inputs[j]), smallest) && !Less(largest, Largest(inputs[j]))
    {
      if Compare(Smallest(inputs[i]), smallest) < 0 {
        smallest := Smallest(inputs[i]);
      }
      if Compare(Largest(inputs[i]), largest) > 0 {
        largest := Largest(inputs[i]);
      }
    }
  }

  method GetUserRange(inputs: seq<File>) returns (r: Range)
    requires inputs != []
    ensures IsRangeOf(inputs, r)
  {
    var smallest, largest := GetRange(inputs);
    r := Range(Some(smallest.user), Some(largest.user));
    forall f | f in inputs
      ensures Within(f, r)
    {
      FileIsNotReversed(f);
    }
  }

  // ---- Boundary files

  // `f` starts after `largest` with the same user key.
  predicate IsBoundary(f: File, largest: InternalKey) {
    Less(largest, Smallest(f)) && Smallest(f).user == largest.user
  }

  ghost predicate IsLargestOf(files: seq<File>, largest: InternalKey) {
    && (exists f :: f in files && Largest(f) == largest)
    && forall f | f in files :: !Less(largest, Largest(f))
  }

  method FindSmallestBoundaryFile(levelFiles: seq<File>, largest: InternalKey) returns (r: Option<File>)
    ensures r.None? ==> forall f | f in levelFiles :: !IsBoundary(f, largest)
    ensures r.Some? ==> r.value in levelFiles && IsBoundary(r.value, largest)
    ensures r.Some? ==> forall f | f in levelFiles && IsBoundary(f, largest) :: !Less(Smallest(f), Smallest(r.value))
  {
    r := None;
    for i := 0 to |levelFiles|
      invariant r.None? ==> forall j | 0 <= j < i :: !IsBoundary(levelFiles[j], largest)
      invariant r.Some? ==> r.value in levelFiles && IsBoundary(r.value, largest)
      invariant r.Some? ==> forall j | 0 <= j < i && IsBoundary(levelFiles[j], largest) :: !Less(Smallest(levelFiles[j]), Smallest(r.value))
    {
      var f := levelFiles[i];
      if Compare(Smallest(f), largest) > 0 && Smallest(f).user == largest.user {
        if r.None? || Compare(Smallest(f), Smallest(r.value)) < 0 {
          r := Some(f);
        }
      }
    }
  }

  method FindLargestKey(files: seq<File>) returns (largest: InternalKey)
    requires files != []
    ensures IsLargestOf(files, largest)
  {
    largest := Largest(files[0]);
    for i := 1 to |files|
      invariant exists f :: f in files && Largest(f) == largest
      invariant forall j | 0 <= j < i :: !Less(largest, Largest(files[j]))
    {
      if Compare(Largest(files[i]), largest) > 0 {
        largest := Largest(files[i]);
      }
    }
  }

  ghost function StartingAfter(files: seq<File>, k: InternalKey): set<File> {
    set f | f in files && Less(k, Smallest(f))
  }

  // In a sorted level, a run of files that only gains the files right after it, each starting
  // with the user key the previous one ends with.
  ghost predicate IsStretch(levelFiles: seq<File>, a: nat, b: nat, c: nat, to: seq<File>) {
    && a < b <= c <= |levelFiles|
    && to == levelFiles[a..c]
    && forall k | b <= k < c :: Smallest(levelFiles[k]).user == Largest(levelFiles[k-1]).user
  }

  ghost predicate GrowsRun(levelFiles: seq<File>, from: seq<File>, to: seq<File>) {
    forall a, b | 0 <= a < b <= |levelFiles| && from == levelFiles[a..b] :: exists c :: IsStretch(levelFiles, a, b, c, to)
  }

  lemma BoundaryHasUser(f: File, largest: InternalKey)
    requires IsBoundary(f, largest)
    ensures Smallest(f).user == largest.user
  {
  }

  lemma RunExtends(levelFiles: seq<File>, a: nat, b: nat, c: nat, to: seq<File>, largest: InternalKey, f: File)
    requires SortedFiles(levelFiles) && IsStretch(levelFiles, a, b, c, to)
    requires IsLargestOf(to, largest)
    requires f in levelFiles && IsBoundary(f, largest)
    requires forall g | g in levelFiles && IsBoundary(g, largest) :: !Less(Smallest(g), Smallest(f))
    ensures IsStretch(levelFiles, a, b, c + 1, to + [f])
  {
    hide SortedFiles, IsLargestOf, IsBoundary, Less, Sorted;
    BoundaryHasUser(f, largest);
    LastOfRunIsLargest(levelFiles, a, c, largest);
    var j :| 0 <= j < |levelFiles| && levelFiles[j] == f;
    NextFileFirst(levelFiles, c, j, largest);
    assert to + [f] == levelFiles[a..c+1];
  }

  lemma BoundaryFollows(levelFiles: seq<File>, from: seq<File>, to: seq<File>, largest: InternalKey, f: File)
    requires SortedFiles(levelFiles) && GrowsRun(levelFiles, from, to)
    requires IsLargestOf(to, largest)
    requires f in levelFiles && IsBoundary(f, largest)
    requires forall g | g in levelFiles && IsBoundary(g, largest) :: !Less(Smallest(g), Smallest(f))
    ensures GrowsRun(levelFiles, from, to + [f])
  {
    hide IsStretch, SortedFiles, IsLargestOf, IsBoundary;
    forall a, b | 0 <= a < b <= |levelFiles| && from == levelFiles[a..b]
      ensures exists c :: IsStretch(levelFiles, a, b, c, to + [f])
    {
      var c :| IsStretch(levelFiles, a, b, c, to);
      RunExtends(levelFiles, a, b, c, to, largest, f);
    }
  }

  lemma LastOfRunIsLargest(levelFiles: seq<File>, a: nat, c: nat, largest: InternalKey)
    requires SortedFiles(levelFiles) && a < c <= |levelFiles|
    requires IsLargestOf(levelFiles[a..c], largest)
    ensures largest == Largest(levelFiles[c-1])
  {
    hide SortedFiles, Less, Largest;
    var g :| g in levelFiles[a..c] && Largest(g) == largest;
    var i :| a <= i < c && levelFiles[i] == g;
    assert levelFiles[c-1] in levelFiles[a..c];
    LargestAscends(levelFiles, i, c - 1);
    LessIsStrictTotalOrder(largest, Largest(levelFiles[c-1]), largest);
  }

  lemma LargestAscends(files: seq<File>, i: nat, j: nat)
    requires SortedFiles(files) && i <= j < |files|
    ensures i < j ==> Less(Largest(files[i]), Largest(files[j])) && Less(Largest(files[i]), Smallest(files[j]))
    ensures !Less(Largest(files[j]), Largest(files[i]))
    ensures !Less(Largest(files[j]), Smallest(files[j]))
  {
    SmallestToLargest(files[j]);
    assert files[j].entries[0] in files[j].entries;
    LessIsStrictTotalOrder(Largest(files[i]), Smallest(files[j]), Largest(files[j]));
  }

  // Among sorted files, the least boundary file of file c-1 is file c.
  lemma NextFileFirst(levelFiles: seq<File>, c: nat, j: nat, largest: InternalKey)
    requires SortedFiles(levelFiles) && 0 < c <= |levelFiles| && j < |levelFiles|
    requires largest == Largest(levelFiles[c-1])
    requires IsBoundary(levelFiles[j], largest)
    requires forall g | g in levelFiles && IsBoundary(g, largest) :: !Less(Smallest(g), Smallest(levelFiles[j]))
    ensures j == c
  {
    if j < c {
      LargestAscends(levelFiles, j, c - 1);
      LargestAscends(levelFiles, j, j);
      LessIsStrictTotalOrder(largest, Smallest(levelFiles[j]), Largest(levelFiles[j]));
    } else if c < j {
      LargestAscends(levelFiles, c - 1, c);
      LargestAscends(levelFiles, c, c);
      LargestAscends(levelFiles, c, j);
      FileIsNotReversed(levelFiles[c]);
      LessIsStrictTotalOrder(Smallest(levelFiles[c]), Largest(levelFiles[c]), Smallest(levelFiles[j]));
    }
  }

  lemma BoundaryIsLargest(files: seq<File>, largest: InternalKey, f: File)
    requires IsLargestOf(files, largest) && IsBoundary(f, largest)
    ensures IsLargestOf(files + [f], Largest(f))
    ensures forall levelFiles | f in levelFiles :: StartingAfter(levelFiles, Largest(f)) < StartingAfter(levelFiles, largest)
  {
    SmallestToLargest(f);
    assert f.entries[0] in f.entries && Less(largest, Largest(f)) by {
      LessIsStrictTotalOrder(largest, Smallest(f), Largest(f));
    }
    forall g | g in files + [f]
      ensures !Less(Largest(f), Largest(g))
    {
      LessIsStrictTotalOrder(largest, Largest(f), Largest(g));
      LessIsStrictTotalOrder(Largest(g), largest, Largest(g));
    }
    assert f in files + [f];
    forall levelFiles | f in levelFiles
      ensures StartingAfter(levelFiles, Largest(f)) < StartingAfter(levelFiles, largest)
    {
      assert f in StartingAfter(levelFiles, largest) && f !in StartingAfter(levelFiles, Largest(f));
      forall g | g in StartingAfter(levelFiles, Largest(f))
        ensures g in StartingAfter(levelFiles, largest)
      {
        LessIsStrictTotalOrder(largest, Largest(f), Smallest(g));
      }
    }
  }

  // Of the files of the level that start with the user key where `files` ends, the first one.
  ghost predicate IsNextBoundary(levelFiles: seq<File>, files: seq<File>, f: File) {
    exists k :: IsLargestOf(files, k) && f in levelFiles && IsBoundary(f, k)
                && forall g | g in levelFiles && IsBoundary(g, k) :: !Less(Smallest(g), Smallest(f))
  }

  // `to` is `from` and then one boundary file after another, until none is left.
  ghost predicate AddsBoundaries(levelFiles: seq<File>, from: seq<File>, to: seq<File>) {
    && from <= to
    && (forall n | |from| <= n < |to| :: IsNextBoundary(levelFiles, to[..n], to[n]))
    && exists k :: IsLargestOf(to, k) && forall f | f in levelFiles :: !IsBoundary(f, k)
  }

  lemma BoundaryAdded(levelFiles: seq<File>, from: seq<File>, to: seq<File>, f: File)
    requires from <= to && forall n | |from| <= n < |to| :: IsNextBoundary(levelFiles, to[..n], to[n])
    requires IsNextBoundary(levelFiles, to, f)
    ensures var more := to + [f];
            from <= more && forall n | |from| <= n < |more| :: IsNextBoundary(levelFiles, more[..n], more[n])
  {
    hide IsNextBoundary;
    var more := to + [f];
    forall n | |from| <= n < |more|
      ensures IsNextBoundary(levelFiles, more[..n], more[n])
    {
      assert more[..n] == to[..n];
      if n == |to| {
        assert to[..n] == to;
      }
    }
  }

  method AddBoundaryInputs(levelFiles: seq<File>, compactionFiles: seq<File>) returns (r: seq<File>)
    requires compactionFiles != []
    ensures AddsBoundaries(levelFiles, compactionFiles, r)
    ensures (forall f, k | IsLargestOf(compactionFiles, k) && f in levelFiles :: !IsBoundary(f, k)) ==> r == compactionFiles
    ensures SortedFiles(levelFiles) ==> GrowsRun(levelFiles, compactionFiles, r)
  {
    hide GrowsRun, IsLargestOf, IsBoundary, SortedFiles, StartingAfter, Less, Sorted;
    var largest := FindLargestKey(compactionFiles);
    r := compactionFiles;
    NothingGrown(levelFiles, r);
    while true
      invariant compactionFiles <= r && forall n | |compactionFiles| <= n < |r| :: IsNextBoundary(levelFiles, r[..n], r[n])
      invariant IsLargestOf(r, largest)
      invariant r == compactionFiles || exists f, k :: IsLargestOf(compactionFiles, k) && f in levelFiles && IsBoundary(f, k)
      invariant SortedFiles(levelFiles) ==> GrowsRun(levelFiles, compactionFiles, r)
      decreases StartingAfter(levelFiles, largest)
    {
      var boundary := FindSmallestBoundaryFile(levelFiles, largest);
      if boundary.None? {
        break;
      }
      var f := boundary.value;
      if SortedFiles(levelFiles) {
        BoundaryFollows(levelFiles, compactionFiles, r, largest, f);
      }
      BoundaryIsLargest(r, largest, f);
      BoundaryAdded(levelFiles, compactionFiles, r, f);
      r := r + [f];
      largest := Largest(f);
    }
  }

  lemma NothingGrown(levelFiles: seq<File>, files: seq<File>)
    ensures GrowsRun(levelFiles, files, files)
  {
    forall a, b | 0 <= a < b <= |levelFiles| && files == levelFiles[a..b]
      ensures exists c :: IsStretch(levelFiles, a, b, c, files)
    {
      assert IsStretch(levelFiles, a, b, b, files);
    }
  }

  // ---- Ranges without gaps

  ghost predicate Between(files: seq<File>, u: UserKey) {
    (exists f :: f in files && Smallest(f).user <= u) && (exists g :: g in files && u <= Largest(g).user)
  }

  ghost predicate SomeCovers(files: seq<File>, u: UserKey) {
    exists h :: h in files && Covers(h, u)
  }

  // Every user key between the least and the greatest is covered by some file.
  ghost predicate Gapless(files: seq<File>) {
    forall u :: Between(files, u) ==> SomeCovers(files, u)
  }

  ghost predicate Touches(files: seq<File>, f: File) {
    exists g, h :: g in files && h in files && Smallest(g).user <= Largest(f).user && Smallest(f).user <= Largest(h).user
  }

  lemma TouchingKeepsGapless(a: seq<File>, b: seq<File>)
    requires Gapless(a) && forall f | f in b :: Touches(a, f)
    ensures Gapless(a + b)
  {
    forall u | Between(a + b, u)
      ensures SomeCovers(a + b, u)
    {
      var f :| f in a + b && Smallest(f).user <= u;
      var g :| g in a + b && u <= Largest(g).user;
      if !Covers(f, u) && !Covers(g, u) {
        assert exists x :: x in a && Smallest(x).user <= u by {
          assert f in a || Touches(a, f);
        }
        assert exists y :: y in a && u <= Largest(y).user by {
          assert g in a || Touches(a, g);
        }
        assert Between(a, u) && SomeCovers(a, u);
        var h :| h in a && Covers(h, u);
        assert h in a + b;
      }
    }
  }

  lemma GaplessIsOfSets(a: seq<File>, b: seq<File>)
    requires Gapless(a) && forall f :: f in a <==> f in b
    ensures Gapless(b)
  {
    forall u | Between(b, u)
      ensures SomeCovers(b, u)
    {
      assert Between(a, u) && SomeCovers(a, u);
    }
  }

  lemma OverlappingTouches(files: seq<File>, r: Range, f: File)
    requires IsRangeOf(files, r) && Overlaps(f, r)
    ensures Touches(files, f)
  {
    var g :| g in files && Smallest(g).user == r.begin.value;
    var h :| h in files && Largest(h).user == r.end.value;
  }

  // A closure of the range of gapless files adds no gap.
  lemma ClosureIsGapless(files: seq<File>, inner: seq<File>, r: Range, least: Range)
    requires Gapless(inner) && IsRangeOf(inner, r) && IsClosure(files, r, least)
    ensures Gapless(inner + Select(files, least))
  {
    var all := inner + Select(files, least);
    forall u | Between(all, u)
      ensures SomeCovers(all, u)
    {
      assert least.Includes(u) by {
        InputsWithinClosure(files, inner, r, least);
      }
      if r.Includes(u) {
        assert Between(inner, u) && SomeCovers(inner, u);
        var h :| h in inner && Covers(h, u);
        assert h in all;
      } else {
        var h :| h in Select(files, least) && Covers(h, u);
        assert h in all;
      }
    }
  }

  lemma InputsWithinClosure(files: seq<File>, inner: seq<File>, r: Range, least: Range)
    requires IsRangeOf(inner, r) && IsClosure(files, r, least)
    ensures forall f | f in inner + Select(files, least) :: Within(f, least)
  {
    SelectMembers(files, least);
    forall f | f in inner
      ensures Within(f, least)
    {
      assert Within(f, r);
    }
  }

  // ---- The inputs of a compaction

  // `inputs0` at `level` is merged with `inputs1` at the level below.
  datatype Compaction = Compaction(level: nat, inputs0: seq<File>, inputs1: seq<File>, grandparents: seq<File>)

  // Whatever stays behind in the level is newer than what was chosen.
  ghost predicate LeavesOnlyNewer(files: seq<File>, chosen: seq<File>) {
    forall f, g | f in chosen && g in files && g !in chosen :: Newer(g.entries, f.entries)
  }

  ghost predicate WellChosen(v: Version, c: Compaction) {
    && c.level + 1 < NUM_LEVELS
    && c.inputs0 != []
    && (forall f | f in c.inputs0 :: f in v[c.level])
    && LeavesOnlyNewer(v[c.level], c.inputs0)
    && exists r :: IsRangeOf(c.inputs0, r) && c.inputs1 == Select(v[c.level+1], r)
  }

  // A set of level files that a compaction may start from: at level 0, a set closed under
  // overlap; above, consecutive files.
  ghost predicate Startable(v: Version, level: nat, inputs: seq<File>)
    requires level < NUM_LEVELS
  {
    && inputs != []
    && if level == 0 then
         exists r, least :: IsClosure(v[0], r, least) && inputs == Select(v[0], least)
       else
         AreConsecutive(v[level], inputs)
  }

  ghost predicate AreConsecutive(files: seq<File>, run: seq<File>) {
    exists a, b :: 0 <= a < b <= |files| && run == files[a..b]
  }

  function Min(a: nat, b: nat): nat {
    if a < b then a else b
  }

  lemma {:induction false} SelectOfPrefix(files: seq<File>, r: Range, a: nat, b: nat, k: nat)
    requires a <= b <= |files| && forall i | 0 <= i < |files| :: Overlaps(files[i], r) <==> a <= i < b
    requires k <= |files|
    ensures Select(files[..k], r) == files[Min(a, k)..Min(b, k)]
  {
    hide Overlaps, Select;
    if k == 0 {
      SelectOfNone(r);
      assert files[..0] == [];
    } else {
      var f := files[k-1];
      SelectOfPrefix(files, r, a, b, k - 1);
      assert files[..k] == files[..k-1] + [f];
      SelectSnoc(files[..k-1], f, r);
      PrefixOfRun(files, a, b, k);
    }
  }

  lemma SelectOfNone(r: Range)
    ensures Select([], r) == []
  {
  }

  // The files of a run that lie among the first `k` are those among the first `k - 1`, and the
  // next one if it is in the run.
  lemma PrefixOfRun(files: seq<File>, a: nat, b: nat, k: nat)
    requires a <= b <= |files| && 0 < k <= |files|
    ensures files[Min(a, k)..Min(b, k)] == files[Min(a, k - 1)..Min(b, k - 1)] + if a <= k - 1 < b then [files[k-1]] else []
  {
  }

  lemma SelectOfRange(files: seq<File>, r: Range, a: nat, b: nat)
    requires a <= b <= |files| && forall i | 0 <= i < |files| :: Overlaps(files[i], r) <==> a <= i < b
    ensures Select(files, r) == files[a..b]
  {
    SelectOfPrefix(files, r, a, b, |files|);
    assert files[..|files|] == files;
  }

  lemma {:induction false} OverlapsAreConsecutive(files: seq<File>, r: Range) returns (a: nat, b: nat)
    requires SortedFiles(files)
    ensures a <= b <= |files| && forall i | 0 <= i < |files| :: Overlaps(files[i], r) <==> a <= i < b
  {
    a, b := 0, 0;
    if files != [] {
      var n := |files| - 1;
      a, b := OverlapsAreConsecutive(files[..n], r);
      assert forall i | 0 <= i < n :: Overlaps(files[..n][i], r) <==> Overlaps(files[i], r);
      assert forall i | 0 <= i < n :: Overlaps(files[i], r) <==> a <= i < b;
      if Overlaps(files[n], r) {
        if a == b {
          a, b := n, n;
        } else if b < n {
          AllBetweenOverlap(files, b - 1, b, n, r);
        }
        b := b + 1;
      }
    }
  }

  lemma AllBetweenOverlap(files: seq<File>, i: nat, j: nat, k: nat, r: Range)
    requires SortedFiles(files) && i <= j <= k < |files|
    requires Overlaps(files[i], r) && Overlaps(files[k], r)
    ensures Overlaps(files[j], r)
  {
    FileIsNotReversed(files[j]);
    assert i < j ==> Less(Largest(files[i]), Smallest(files[j]));
    assert j < k ==> Less(Largest(files[j]), Smallest(files[k]));
  }

  // Without a boundary file, file c-1 is the last one with its largest user key.
  lemma UserKeysEndAt(files: seq<File>, i: nat, c: nat, j: nat)
    requires SortedFiles(files) && i < c <= j < |files|
    requires forall f | f in files :: !IsBoundary(f, Largest(files[c-1]))
    ensures Largest(files[i]).user < Smallest(files[j]).user
  {
    assert Less(Largest(files[c-1]), Smallest(files[c])) && files[c] in files;
    FileIsNotReversed(files[c]);
    FileIsNotReversed(files[c-1]);
    assert i < c - 1 ==> Less(Largest(files[i]), Smallest(files[c-1]));
    assert c < j ==> Less(Largest(files[c]), Smallest(files[j]));
  }

  ghost predicate DistinctIn(files: seq<File>) {
    forall x, y | Holds(files, x) && Holds(files, y) && x.key.user == y.key.user && x.key.sequence == y.key.sequence :: x == y
  }

  // Chosen consecutive files with no boundary file after them leave only newer entries.
  lemma RunLeavesNewer(files: seq<File>, a: nat, c: nat, largest: InternalKey)
    requires SortedFiles(files) && a < c <= |files|
    requires DistinctIn(files)
    requires IsLargestOf(files[a..c], largest) && forall f | f in files :: !IsBoundary(f, largest)
    ensures LeavesOnlyNewer(files, files[a..c])
  {
    hide SortedFiles, DistinctIn, IsLargestOf, Newer, IsBoundary, Sorted, Less;
    LastOfRunIsLargest(files, a, c, largest);
    forall f, g | f in files[a..c] && g in files && g !in files[a..c]
      ensures Newer(g.entries, f.entries)
    {
      var i :| a <= i < c && files[i] == f;
      var j := IndexOutside(files, a, c, g);
      if j < a {
        EarlierFileIsNewer(files, j, i);
      } else {
        UserKeysEndAt(files, i, c, j);
        NothingShared(g, f);
      }
    }
  }

  lemma IndexOutside(files: seq<File>, a: nat, c: nat, g: File) returns (j: nat)
    requires a <= c <= |files| && g in files && g !in files[a..c]
    ensures j < |files| && files[j] == g && (j < a || c <= j)
  {
    j :| 0 <= j < |files| && files[j] == g;
  }

  lemma EarlierFileIsNewer(files: seq<File>, j: nat, i: nat)
    requires SortedFiles(files) && j < i < |files|
    requires DistinctIn(files)
    ensures Newer(files[j].entries, files[i].entries)
  {
    SmallestToLargest(files[i]);
    SmallestToLargest(files[j]);
    forall x, y | x in files[j].entries && y in files[i].entries && x.key.user == y.key.user
      ensures y.key.sequence < x.key.sequence
    {
      assert Holds(files, x) && Holds(files, y);
      LessIsStrictTotalOrder(x.key, Largest(files[j]), Smallest(files[i]));
      LessIsStrictTotalOrder(x.key, Smallest(files[i]), y.key);
    }
  }

  lemma NothingShared(g: File, f: File)
    requires Largest(f).user < Smallest(g).user || Largest(g).user < Smallest(f).user
    ensures Newer(g.entries, f.entries)
    ensures forall x, y | x in g.entries && y in f.entries :: x.key.user != y.key.user
  {
    SmallestToLargest(f);
    SmallestToLargest(g);
  }

  lemma ClosedLeavesNewer(files: seq<File>, r: Range)
    requires Closed(files, r)
    ensures LeavesOnlyNewer(files, Select(files, r))
  {
    SelectMembers(files, r);
    forall f, g | f in Select(files, r) && g in files && g !in Select(files, r)
      ensures Newer(g.entries, f.entries)
    {
      assert Within(f, r);
      FileIsNotReversed(f);
      FileIsNotReversed(g);
      NothingShared(g, f);
    }
  }

  lemma NoBoundaryOfClosed(files: seq<File>, r: Range, f: File, k: InternalKey)
    requires Closed(files, r) && f in files
    requires IsLargestOf(Select(files, r), k)
    ensures !IsBoundary(f, k)
  {
    SelectMembers(files, r);
    var g :| g in Select(files, r) && Largest(g) == k;
    assert Within(g, r);
    FileIsNotReversed(f);
    SmallestToLargest(f);
    assert f.entries[0] in f.entries;
    LessIsStrictTotalOrder(k, Smallest(f), Largest(f));
    assert IsBoundary(f, k) ==> f in Select(files, r);
  }

  lemma {:induction false} RunIsGapless(files: seq<File>, a: nat, b: nat, c: nat, rest: seq<File>)
    requires a < b <= c <= |files| && Gapless(files[a..b] + rest)
    requires forall k | b <= k < c :: Smallest(files[k]).user == Largest(files[k-1]).user
    ensures Gapless(files[a..c] + rest)
    decreases c - b
  {
    hide Gapless;
    if b < c {
      var f, run := files[b], files[a..b] + rest;
      assert files[a..b+1] == files[a..b] + [f];
      assert Touches(run, f) by {
        assert run[b-1-a] == files[b-1];
        FileIsNotReversed(f);
        FileIsNotReversed(files[b-1]);
      }
      TouchingKeepsGapless(run, [f]);
      GaplessIsOfSets(run + [f], files[a..b+1] + rest);
      RunIsGapless(files, a, b + 1, c, rest);
    }
  }

  lemma SingleIsGapless(f: File)
    ensures Gapless([f])
  {
    forall u | Between([f], u)
      ensures SomeCovers([f], u)
    {
      assert f in [f] && Covers(f, u);
    }
  }

  // ---- Assembling a compaction

  lemma StartableRange(v: Version, inputs: seq<File>)
    requires Startable(v, 0, inputs)
    ensures LeavesOnlyNewer(v[0], inputs)
    ensures forall f, k | IsLargestOf(inputs, k) && f in v[0] :: !IsBoundary(f, k)
  {
    var r, least :| IsClosure(v[0], r, least) && inputs == Select(v[0], least);
    ClosedLeavesNewer(v[0], least);
    forall f, k | IsLargestOf(inputs, k) && f in v[0]
      ensures !IsBoundary(f, k)
    {
      NoBoundaryOfClosed(v[0], least, f, k);
    }
  }

  lemma StartableMembers(v: Version, level: nat, inputs: seq<File>)
    requires level < NUM_LEVELS && Startable(v, level, inputs)
    ensures inputs != [] && forall f | f in inputs :: f in v[level]
  {
    if level == 0 {
      var r, least :| IsClosure(v[0], r, least) && inputs == Select(v[0], least);
      SelectMembers(v[0], least);
    }
  }

  lemma AddedAtEnd(levelFiles: seq<File>, from: seq<File>, to: seq<File>)
    requires AddsBoundaries(levelFiles, from, to)
    ensures from <= to
    ensures exists k :: IsLargestOf(to, k) && forall f | f in levelFiles :: !IsBoundary(f, k)
  {
  }

  // Completes a starting set with its boundary files.
  method Complete(v: Version, level: nat, inputs: seq<File>, ghost rest: seq<File>) returns (r: seq<File>)
    requires level < NUM_LEVELS && (1 <= level ==> SortedFiles(v[level]))
    requires DistinctIn(v[level])
    requires Startable(v, level, inputs)
    ensures AddsBoundaries(v[level], inputs, r)
    ensures inputs <= r && forall f | f in r :: f in v[level]
    ensures 1 <= level ==> AreConsecutive(v[level], r)
    ensures LeavesOnlyNewer(v[level], r)
    ensures Gapless(inputs + rest) ==> Gapless(r + rest)
  {
    hide SortedFiles, DistinctIn, Gapless, LeavesOnlyNewer, IsLargestOf, IsBoundary, AddsBoundaries;
    r := AddBoundaryInputs(v[level], inputs);
    AddedAtEnd(v[level], inputs, r);
    StartableMembers(v, level, inputs);
    if level == 0 {
      StartableRange(v, inputs);
    } else {
      ghost var a, b :| 0 <= a < b <= |v[level]| && inputs == v[level][a..b];
      ghost var c :| IsStretch(v[level], a, b, c, r);
      ghost var k :| IsLargestOf(r, k) && forall f | f in v[level] :: !IsBoundary(f, k);
      RunLeavesNewer(v[level], a, c, k);
      if Gapless(inputs + rest) {
        RunIsGapless(v[level], a, b, c, rest);
      }
    }
  }

  function TotalFileSize(files: seq<File>): nat {
    if files == [] then 0 else files[0].size + TotalFileSize(files[1..])
  }

  lemma {:induction false} SizesAdd(a: seq<File>, b: seq<File>)
    ensures TotalFileSize(a + b) == TotalFileSize(a) + TotalFileSize(b)
    ensures |a| == 1 ==> TotalFileSize(a) == a[0].size
  {
    if a == [] {
      assert a + b == b;
    } else {
      assert (a + b)[1..] == a[1..] + b;
      SizesAdd(a[1..], b);
    }
  }

  lemma {:induction false} WiderSelectsMore(files: seq<File>, r: Range, wider: Range)
    requires wider.Contains(r)
    ensures |Select(files, r)| <= |Select(files, wider)|
    ensures |Select(files, r)| == |Select(files, wider)| ==> Select(files, r) == Select(files, wider)
  {
    if files != [] {
      WiderSelectsMore(files[..|files|-1], r, wider);
    }
  }

  // The hull of all inputs: what the level-`level` inputs touch, widened by the files they met.
  lemma InputsCoverHull(v: Version, level: nat, inputs0: seq<File>, r: Range, all: Range)
    requires level + 1 < NUM_LEVELS
    requires IsRangeOf(inputs0, r) && IsRangeOf(inputs0 + Select(v[level+1], r), all)
    ensures all.Contains(r)
    ensures Gapless(inputs0) ==> Gapless(inputs0 + Select(v[level+1], r))
  {
    var f :| f in inputs0 && Smallest(f).user == r.begin.value;
    var g :| g in inputs0 && Largest(g).user == r.end.value;
    var files := inputs0 + Select(v[level+1], r);
    assert f in files && g in files && Within(f, all) && Within(g, all);
    SelectMembers(v[level+1], r);
    forall h | h in Select(v[level+1], r)
      ensures Touches(inputs0, h)
    {
      OverlappingTouches(inputs0, r, h);
    }
    if Gapless(inputs0) {
      TouchingKeepsGapless(inputs0, Select(v[level+1], r));
    }
  }

  // The level-`level` files overlapping the hull, found by GetOverlappingInputs, may start a
  // compaction, include the previous inputs, and add no gap.
  lemma ExpansionIsStartable(v: Version, level: nat, inputs0: seq<File>, inputs1: seq<File>, all: Range, expanded: seq<File>)
    requires level < NUM_LEVELS && (1 <= level ==> SortedFiles(v[level]))
    requires inputs0 != [] && forall f | f in inputs0 :: f in v[level]
    requires IsRangeOf(inputs0 + inputs1, all)
    requires level != 0 ==> expanded == Select(v[level], all)
    requires level == 0 ==> exists least :: IsClosure(v[0], all, least) && expanded == Select(v[0], least)
    ensures Startable(v, level, expanded)
    ensures forall f | f in inputs0 :: f in expanded
    ensures Gapless(inputs0 + inputs1) ==> Gapless(expanded + inputs1)
  {
    var least := all;
    if level == 0 {
      least :| IsClosure(v[0], all, least) && expanded == Select(v[0], least);
    }
    SelectMembers(v[level], least);
    forall f | f in inputs0
      ensures f in expanded
    {
      assert f in inputs0 + inputs1 && Within(f, all);
      FileIsNotReversed(f);
    }
    assert inputs0[0] in expanded;
    if level != 0 {
      var a, b := OverlapsAreConsecutive(v[level], all);
      SelectOfRange(v[level], all, a, b);
      assert a < b;
    }
    if Gapless(inputs0 + inputs1) {
      if level == 0 {
        ClosureIsGapless(v[0], inputs0 + inputs1, all, least);
      } else {
        forall f | f in expanded
          ensures Touches(inputs0 + inputs1, f)
        {
          OverlappingTouches(inputs0 + inputs1, all, f);
        }
        TouchingKeepsGapless(inputs0 + inputs1, expanded);
      }
      GaplessIsOfSets(inputs0 + inputs1 + expanded, expanded + inputs1);
    }
  }

  // What GetOverlappingInputs finds in a level.
  ghost predicate IsOverlapping(files: seq<File>, level: nat, r: Range, found: seq<File>) {
    if level != 0 then found == Select(files, r)
    else exists least :: IsClosure(files, r, least) && found == Select(files, least)
  }

  // The files a compaction could take from its level instead of `inputs0`: those that overlap
  // any of its inputs, and the boundary files after them.
  ghost predicate IsExpansion(v: Version, level: nat, inputs0: seq<File>, inputs1: seq<File>, expanded: seq<File>)
    requires level < NUM_LEVELS
  {
    exists all, overlapping ::
      && IsRangeOf(inputs0 + inputs1, all)
      && IsOverlapping(v[level], level, all, overlapping)
      && AddsBoundaries(v[level], overlapping, expanded)
  }

  // It takes them when they are more, few bytes in all, and meet no further file of the level
  // below.
  ghost predicate IsWorthwhile(v: Version, level: nat, inputs0: seq<File>, inputs1: seq<File>, maxFileSize: nat,
                               expanded: seq<File>)
    requires level + 1 < NUM_LEVELS
  {
    && |inputs0| < |expanded|
    && TotalFileSize(inputs1) + TotalFileSize(expanded) < 25 * maxFileSize
    && exists r :: IsRangeOf(expanded, r) && Select(v[level+1], r) == inputs1
  }

  ghost predicate IsGrown(v: Version, level: nat, inputs0: seq<File>, inputs1: seq<File>, maxFileSize: nat, grown0: seq<File>)
    requires level + 1 < NUM_LEVELS
  {
    if inputs1 == [] then grown0 == inputs0
    else exists expanded ::
           && IsExpansion(v, level, inputs0, inputs1, expanded)
           && grown0 == if IsWorthwhile(v, level, inputs0, inputs1, maxFileSize, expanded) then expanded else inputs0
  }

  // The other files are taken whenever that adds some, they and those below have less than 25
  // times the size of a file, and no further file below overlaps them.
  lemma GrowsIfCheap(v: Version, level: nat, inputs0: seq<File>, inputs1: seq<File>, maxFileSize: nat, grown0: seq<File>)
    requires level + 1 < NUM_LEVELS && IsGrown(v, level, inputs0, inputs1, maxFileSize, grown0)
    ensures inputs1 == [] ==> grown0 == inputs0
    ensures inputs1 != [] ==>
              exists expanded ::
                && IsExpansion(v, level, inputs0, inputs1, expanded)
                && grown0 == if && |inputs0| < |expanded|
                                && TotalFileSize(inputs1) + TotalFileSize(expanded) < 25 * maxFileSize
                                && exists q :: IsRangeOf(expanded, q) && Select(v[level+1], q) == inputs1
                             then expanded else inputs0
  {
    hide IsExpansion, IsRangeOf, Select, TotalFileSize;
  }

  lemma RangeIsUnique(files: seq<File>, a: Range, b: Range)
    requires IsRangeOf(files, a) && IsRangeOf(files, b)
    ensures a == b
  {
    var f, g :| f in files && g in files && Smallest(f).user == a.begin.value && Smallest(g).user == b.begin.value;
    var h, k :| h in files && k in files && Largest(h).user == a.end.value && Largest(k).user == b.end.value;
    assert Within(f, b) && Within(g, a) && Within(h, b) && Within(k, a);
  }

  lemma NotWorthwhile(v: Version, level: nat, inputs0: seq<File>, inputs1: seq<File>, maxFileSize: nat, expanded: seq<File>,
                      r: Range)
    requires level + 1 < NUM_LEVELS && IsRangeOf(expanded, r) && Select(v[level+1], r) != inputs1
    ensures !IsWorthwhile(v, level, inputs0, inputs1, maxFileSize, expanded)
  {
    hide IsRangeOf, Select;
    if q :| IsRangeOf(expanded, q) && Select(v[level+1], q) == inputs1 {
      RangeIsUnique(expanded, q, r);
    }
  }

  // Tries to take more level-`level` files without taking more from the level below.
  method Grow(v: Version, level: nat, inputs0: seq<File>, inputs1: seq<File>, ghost r: Range, maxFileSize: nat)
    returns (grown0: seq<File>, grown1: seq<File>)
    requires level + 1 < NUM_LEVELS && (1 <= level ==> SortedFiles(v[level]))
    requires DistinctIn(v[level])
    requires inputs0 != [] && forall f | f in inputs0 :: f in v[level]
    requires LeavesOnlyNewer(v[level], inputs0)
    requires 1 <= level ==> AreConsecutive(v[level], inputs0)
    requires IsRangeOf(inputs0, r) && inputs1 == Select(v[level+1], r)
    ensures grown1 == inputs1
    ensures IsGrown(v, level, inputs0, inputs1, maxFileSize, grown0)
    ensures grown0 != [] && forall f | f in inputs0 :: f in grown0
    ensures 1 <= level ==> AreConsecutive(v[level], grown0)
    ensures WellChosen(v, Compaction(level, grown0, grown1, []))
    ensures Gapless(inputs0) ==> Gapless(grown0 + grown1)
  {
    hide Gapless, LeavesOnlyNewer, SortedFiles, IsRangeOf, IsClosure, Startable, Select, AddsBoundaries, AreConsecutive, DistinctIn;
    grown0, grown1 := inputs0, inputs1;
    var all := GetUserRange(inputs0 + inputs1);
    InputsCoverHull(v, level, inputs0, r, all);
    if inputs1 != [] {
      var overlapping := GetOverlappingInputs(v[level], level, all);
      ExpansionIsStartable(v, level, inputs0, inputs1, all, overlapping);
      var expanded0 := Complete(v, level, overlapping, inputs1);
      assert IsExpansion(v, level, inputs0, inputs1, expanded0);
      if |expanded0| > |inputs0| && TotalFileSize(inputs1) + TotalFileSize(expanded0) < 25 * maxFileSize {
        var newRange := GetUserRange(expanded0);
        var expanded1 := GetOverlappingInputs(v[level+1], level + 1, newRange);
        WiderRange(inputs0, r, expanded0, newRange);
        WiderSelectsMore(v[level+1], r, newRange);
        if |expanded1| == |inputs1| {
          grown0, grown1 := expanded0, expanded1;
        } else {
          NotWorthwhile(v, level, inputs0, inputs1, maxFileSize, expanded0, newRange);
        }
      }
    }
  }

  lemma WiderRange(a: seq<File>, r: Range, b: seq<File>, wider: Range)
    requires IsRangeOf(a, r) && IsRangeOf(b, wider) && forall f | f in a :: f in b
    ensures wider.Contains(r)
  {
    var f :| f in a && Smallest(f).user == r.begin.value;
    var g :| g in a && Largest(g).user == r.end.value;
    assert Within(f, wider) && Within(g, wider);
  }

  // The files two levels down that overlap any input.
  ghost predicate AreGrandparents(v: Version, c: Compaction) {
    if c.level + 2 < NUM_LEVELS then
      exists all :: IsRangeOf(c.inputs0 + c.inputs1, all) && c.grandparents == Select(v[c.level+2], all)
    else
      c.grandparents == []
  }

  lemma GrandparentsAscend(v: Version, c: Compaction)
    requires AreGrandparents(v, c) && forall i | 1 <= i < NUM_LEVELS :: SortedFiles(v[i])
    ensures SortedFiles(c.grandparents)
  {
    hide Select, Overlaps, IsRangeOf, Less;
    if c.level + 2 < NUM_LEVELS {
      var all :| IsRangeOf(c.inputs0 + c.inputs1, all) && c.grandparents == Select(v[c.level+2], all);
      var a, b := OverlapsAreConsecutive(v[c.level+2], all);
      SelectOfRange(v[c.level+2], all, a, b);
    }
  }

  method Grandparents(v: Version, level: nat, inputs0: seq<File>, inputs1: seq<File>) returns (grandparents: seq<File>)
    requires level < NUM_LEVELS && inputs0 != []
    ensures AreGrandparents(v, Compaction(level, inputs0, inputs1, grandparents))
  {
    grandparents := [];
    if level + 2 < NUM_LEVELS {
      var all := GetUserRange(inputs0 + inputs1);
      grandparents := GetOverlappingInputs(v[level+2], level + 2, all);
    }
  }

  // A compaction made from starting files: their boundary files are added, the files of the level
  // below that they overlap are merged with them, and more of their own level is taken along
  // when that costs little.
  ghost predicate IsSetUp(v: Version, inputs: seq<File>, maxFileSize: nat, c: Compaction) {
    && c.level + 1 < NUM_LEVELS
    && AreGrandparents(v, c)
    && exists inputs0, r ::
         && AddsBoundaries(v[c.level], inputs, inputs0)
         && IsRangeOf(inputs0, r) && c.inputs1 == Select(v[c.level+1], r)
         && IsGrown(v, c.level, inputs0, c.inputs1, maxFileSize, c.inputs0)
  }

  method SetupOtherInputs(v: Version, level: nat, inputs: seq<File>, maxFileSize: nat) returns (c: Compaction)
    requires level + 1 < NUM_LEVELS && (1 <= level ==> SortedFiles(v[level]))
    requires DistinctIn(v[level])
    requires Startable(v, level, inputs)
    ensures c.level == level && IsSetUp(v, inputs, maxFileSize, c)
    ensures forall f | f in inputs :: f in c.inputs0
    ensures 1 <= level ==> AreConsecutive(v[level], c.inputs0)
    ensures c.inputs0 != [] && WellChosen(v, c)
    ensures Gapless(inputs) ==> Gapless(c.inputs0 + c.inputs1)
  {
    hide Gapless, LeavesOnlyNewer, SortedFiles, IsRangeOf, Startable, Select, DistinctIn, WellChosen, IsClosure,
         AddsBoundaries, AreConsecutive, IsGrown, AreGrandparents, IsSetUp;
    StartableMembers(v, level, inputs);
    assert inputs + [] == inputs;
    var inputs0 := Complete(v, level, inputs, []);
    assert inputs0 + [] == inputs0;
    PrefixMembers(inputs, inputs0);
    var r := GetUserRange(inputs0);
    var inputs1 := GetOverlappingInputs(v[level+1], level + 1, r);
    var grown0, grown1 := Grow(v, level, inputs0, inputs1, r, maxFileSize);
    var grandparents := Grandparents(v, level, grown0, grown1);
    c := Compaction(level, grown0, grown1, grandparents);
    GrandparentsDoNotMatter(v, Compaction(level, grown0, grown1, []), grandparents);
    SetUpIs(v, inputs, inputs0, r, maxFileSize, c);
  }

  lemma SetUpIs(v: Version, inputs: seq<File>, inputs0: seq<File>, r: Range, maxFileSize: nat, c: Compaction)
    requires c.level + 1 < NUM_LEVELS && AreGrandparents(v, c)
    requires AddsBoundaries(v[c.level], inputs, inputs0)
    requires IsRangeOf(inputs0, r) && c.inputs1 == Select(v[c.level+1], r)
    requires IsGrown(v, c.level, inputs0, c.inputs1, maxFileSize, c.inputs0)
    ensures IsSetUp(v, inputs, maxFileSize, c)
  {
  }

  lemma PrefixMembers(a: seq<File>, b: seq<File>)
    requires a <= b
    ensures forall f | f in a :: f in b
  {
  }

  lemma GrandparentsDoNotMatter(v: Version, c: Compaction, grandparents: seq<File>)
    requires WellChosen(v, c)
    ensures WellChosen(v, c.(grandparents := grandparents))
  {
  }

  // Where a compaction that a version needs begins: at the file charged with too many seeks, or
  // else at the first file that ends after the compaction pointer, wrapping around.
  ghost predicate IsFirstPick(files: seq<File>, charged: Option<File>, compactPointer: Option<InternalKey>, first: File) {
    if charged.Some? then first == charged.value
    else if compactPointer.Some? && (exists f :: f in files && Less(compactPointer.value, Largest(f))) then
      && Less(compactPointer.value, Largest(first))
      && exists i :: 0 <= i < |files| && files[i] == first && forall k | 0 <= k < i :: !Less(compactPointer.value, Largest(files[k]))
    else
      files != [] && first == files[0]
  }

  // At level 0, the files that overlap the first one come along.
  ghost predicate IsPicked(v: Version, level: nat, first: File, maxFileSize: nat, c: Compaction) {
    && c.level == level < NUM_LEVELS
    && if level == 0 then
         exists r, inputs :: IsRangeOf([first], r) && IsOverlapping(v[0], 0, r, inputs) && IsSetUp(v, inputs, maxFileSize, c)
       else
         IsSetUp(v, [first], maxFileSize, c)
  }

  method PickCompaction(v: Version, level: nat, charged: Option<File>, compactPointer: Option<InternalKey>, maxFileSize: nat)
    returns (c: Compaction)
    requires level + 1 < NUM_LEVELS && v[level] != [] && (1 <= level ==> SortedFiles(v[level]))
    requires DistinctIn(v[level])
    requires charged.Some? ==> charged.value in v[level]
    ensures exists first :: first in c.inputs0 && IsFirstPick(v[level], charged, compactPointer, first)
                            && IsPicked(v, level, first, maxFileSize, c)
    ensures charged.Some? ==> charged.value in c.inputs0
    ensures charged.None? ==>
              exists i ::
                && 0 <= i < |v[level]| && v[level][i] in c.inputs0
                && if compactPointer.Some? && exists f :: f in v[level] && Less(compactPointer.value, Largest(f)) then
                     && Less(compactPointer.value, Largest(v[level][i]))
                     && forall k | 0 <= k < i :: !Less(compactPointer.value, Largest(v[level][k]))
                   else i == 0
    ensures c.level == level && WellChosen(v, c)
    ensures Gapless(c.inputs0 + c.inputs1)
  {
    hide Gapless, LeavesOnlyNewer, SortedFiles, Select, DistinctIn, IsSetUp, WellChosen, IsClosure, IsRangeOf, Startable;
    var files := v[level];
    var i := FirstPick(files, charged, compactPointer);
    var inputs := [files[i]];
    SingleIsGapless(files[i]);
    if level == 0 {
      var r := GetUserRange(inputs);
      inputs := GetOverlappingInputs(files, 0, r);
      PickedClosure(v, files[i], r, inputs);
    } else {
      SingleIsStartable(v, level, i);
    }
    c := SetupOtherInputs(v, level, inputs, maxFileSize);
    assert files[i] in c.inputs0 && IsPicked(v, level, files[i], maxFileSize, c);
  }

  lemma SingleIsStartable(v: Version, level: nat, i: nat)
    requires 1 <= level < NUM_LEVELS && i < |v[level]|
    ensures Startable(v, level, [v[level][i]])
  {
    assert [v[level][i]] == v[level][i..i+1];
  }

  method FirstPick(files: seq<File>, charged: Option<File>, compactPointer: Option<InternalKey>) returns (i: nat)
    requires files != [] && (charged.Some? ==> charged.value in files)
    ensures i < |files| && IsFirstPick(files, charged, compactPointer, files[i])
  {
    hide Largest;
    i := 0;
    if charged.Some? {
      i :| 0 <= i < |files| && files[i] == charged.value;
    } else {
      while i < |files| && !(compactPointer.None? || Compare(Largest(files[i]), compactPointer.value) > 0)
        invariant 0 <= i <= |files|
        invariant 0 < i ==> compactPointer.Some?
        invariant forall k | 0 <= k < i :: !Less(compactPointer.value, Largest(files[k]))
      {
        i := i + 1;
      }
      if i == |files| {
        i := 0;
      }
    }
  }

  lemma PickedClosure(v: Version, f: File, r: Range, inputs: seq<File>)
    requires f in v[0] && IsRangeOf([f], r)
    requires exists least :: IsClosure(v[0], r, least) && inputs == Select(v[0], least)
    ensures f in inputs && Startable(v, 0, inputs) && Gapless(inputs)
  {
    var least :| IsClosure(v[0], r, least) && inputs == Select(v[0], least);
    SelectMembers(v[0], least);
    assert f in [f] && Within(f, r);
    FileIsNotReversed(f);
    SingleIsGapless(f);
    ClosureIsGapless(v[0], [f], r, least);
    GaplessIsOfSets([f] + inputs, inputs);
  }

  // The files a manual compaction begins with: those overlapping the range, but above level 0
  // only the first of them that together are large enough.
  ghost predicate IsManualStart(files: seq<File>, level: nat, r: Range, maxFileSize: nat, inputs: seq<File>) {
    if level == 0 then
      IsOverlapping(files, 0, r, inputs)
    else
      && [] < inputs <= Select(files, r)
      && (|inputs| == 1 || TotalFileSize(inputs[..|inputs|-1]) < maxFileSize)
      && (inputs == Select(files, r) || maxFileSize <= TotalFileSize(inputs))
  }

  method CompactRange(v: Version, level: nat, r: Range, maxFileSize: nat) returns (c: Option<Compaction>)
    requires level + 1 < NUM_LEVELS && (1 <= level ==> SortedFiles(v[level]))
    requires DistinctIn(v[level])
    ensures c.None? <==> forall f | f in v[level] :: !Overlaps(f, r)
    ensures c.Some? ==> c.value.level == level && c.value.inputs0 != [] && WellChosen(v, c.value)
    ensures c.Some? ==> exists inputs :: IsManualStart(v[level], level, r, maxFileSize, inputs) && IsSetUp(v, inputs, maxFileSize, c.value)
    ensures c.Some? && level == 0 ==> forall f | f in v[0] && Overlaps(f, r) :: f in c.value.inputs0
    ensures c.Some? && level > 0 ==>
              exists n ::
                && 0 < n <= |Select(v[level], r)|
                && (forall f | f in Select(v[level], r)[..n] :: f in c.value.inputs0)
                && (n == 1 || TotalFileSize(Select(v[level], r)[..n-1]) < maxFileSize)
                && (n == |Select(v[level], r)| || maxFileSize <= TotalFileSize(Select(v[level], r)[..n]))
    ensures c.Some? ==> forall f | f in v[level] && Overlaps(f, r) ::
                          || f in c.value.inputs0
                          || Largest(c.value.inputs0[|c.value.inputs0|-1]).user <= Smallest(f).user
  {
    hide Gapless, LeavesOnlyNewer, SortedFiles, DistinctIn, IsSetUp, WellChosen, Startable, Select, IsClosure, Overlaps, AreConsecutive,
         Largest, Smallest, TotalFileSize;
    var inputs := GetOverlappingInputs(v[level], level, r);
    ManualInputs(v, level, r, inputs);
    if inputs == [] {
      c := None;
      return;
    }
    if level > 0 {
      ghost var all := inputs;
      var total := 0;
      NoSize();
      for i := 0 to |inputs|
        invariant inputs == all
        invariant total == TotalFileSize(inputs[..i])
        invariant 0 < i ==> total < maxFileSize
      {
        total := total + inputs[i].size;
        SizeGrows(inputs, i);
        if total >= maxFileSize {
          ManualPrefix(v, level, inputs, i + 1);
          assert inputs[..i+1][..i] == inputs[..i];
          inputs := inputs[..i+1];
          break;
        }
      }
      SizeGrows(all, |all| - 1);
      assert all[..|all|] == all;
    }
    assert IsManualStart(v[level], level, r, maxFileSize, inputs);
    var picked := SetupOtherInputs(v, level, inputs, maxFileSize);
    ManualRest(v, level, r, inputs, picked.inputs0);
    c := Some(picked);
  }

  lemma NoSize()
    ensures TotalFileSize([]) == 0
  {
  }

  lemma SizeGrows(files: seq<File>, i: nat)
    requires i < |files|
    ensures TotalFileSize(files[..i+1]) == TotalFileSize(files[..i]) + files[i].size
    ensures TotalFileSize(files[..i]) <= TotalFileSize(files[..i+1])
  {
    assert files[..i+1] == files[..i] + [files[i]];
    SizesAdd(files[..i], [files[i]]);
    SizesAdd([files[i]], []);
  }

  // What a manual compaction leaves of its range comes after the last file it takes.
  lemma ManualRest(v: Version, level: nat, r: Range, inputs: seq<File>, inputs0: seq<File>)
    requires level < NUM_LEVELS && (1 <= level ==> SortedFiles(v[level]))
    requires level == 0 ==> IsOverlapping(v[0], 0, r, inputs)
    requires 1 <= level ==> [] < inputs <= Select(v[level], r)
    requires inputs0 != [] && (1 <= level ==> AreConsecutive(v[level], inputs0))
    requires forall f | f in inputs :: f in inputs0
    ensures level == 0 ==> forall f | f in v[0] && Overlaps(f, r) :: f in inputs0
    ensures forall f | f in v[level] && Overlaps(f, r) ::
              f in inputs0 || Largest(inputs0[|inputs0|-1]).user <= Smallest(f).user
  {
    hide SortedFiles, AreConsecutive, Overlaps, Less;
    if level == 0 {
      var least :| IsClosure(v[0], r, least) && inputs == Select(v[0], least);
      SelectMembers(v[0], least);
      WiderOverlaps(r, least);
    } else {
      var a, b := OverlapsAreConsecutive(v[level], r);
      SelectOfRange(v[level], r, a, b);
      assert inputs[0] in inputs0 && inputs[0] == v[level][a];
      RestFollowsRun(v[level], a, r, inputs0);
    }
  }

  lemma WiderOverlaps(r: Range, wider: Range)
    requires wider.Contains(r)
    ensures forall f :: Overlaps(f, r) ==> Overlaps(f, wider)
  {
  }

  lemma RestFollowsRun(files: seq<File>, a: nat, r: Range, run: seq<File>)
    requires SortedFiles(files) && AreConsecutive(files, run) && a < |files| && files[a] in run
    requires forall i | 0 <= i < |files| && Overlaps(files[i], r) :: a <= i
    ensures forall f | f in files && Overlaps(f, r) :: f in run || Largest(run[|run|-1]).user <= Smallest(f).user
  {
    hide Overlaps, SortedFiles, Largest, Smallest;
    var p, q :| 0 <= p < q <= |files| && run == files[p..q];
    FirstIsBefore(files, p, q, a);
    assert run[|run|-1] == files[q-1];
    forall f | f in files && Overlaps(f, r)
      ensures f in run || Largest(files[q-1]).user <= Smallest(f).user
    {
      OverlapFollowsRun(files, p, q, a, r, f);
    }
  }

  lemma OverlapFollowsRun(files: seq<File>, p: nat, q: nat, a: nat, r: Range, f: File)
    requires SortedFiles(files) && p < q <= |files| && p <= a && f in files && Overlaps(f, r)
    requires forall i | 0 <= i < |files| && Overlaps(files[i], r) :: a <= i
    ensures f in files[p..q] || Largest(files[q-1]).user <= Smallest(f).user
  {
    hide Overlaps, SortedFiles, Largest, Smallest;
    var j :| 0 <= j < |files| && files[j] == f;
    FollowsRun(files, p, q, j);
  }

  lemma FollowsRun(files: seq<File>, p: nat, q: nat, j: nat)
    requires SortedFiles(files) && p < q <= |files| && p <= j < |files|
    ensures files[j] in files[p..q] || Largest(files[q-1]).user <= Smallest(files[j]).user
  {
    if j < q {
      assert files[p..q][j-p] == files[j];
    } else {
      assert Less(Largest(files[q-1]), Smallest(files[j]));
    }
  }

  lemma FirstIsBefore(files: seq<File>, p: nat, q: nat, a: nat)
    requires SortedFiles(files) && p < q <= |files| && a < |files| && files[a] in files[p..q]
    ensures p <= a
  {
    var k :| p <= k < q && files[k] == files[a];
    if a < k {
      assert Less(Largest(files[a]), Smallest(files[k]));
      LargestAscends(files, a, a);
    }
  }

  lemma ManualInputs(v: Version, level: nat, r: Range, inputs: seq<File>)
    requires level < NUM_LEVELS && (1 <= level ==> SortedFiles(v[level]))
    requires level != 0 ==> inputs == Select(v[level], r)
    requires level == 0 ==> exists least :: IsClosure(v[0], r, least) && inputs == Select(v[0], least)
    ensures inputs == [] <==> forall f | f in v[level] :: !Overlaps(f, r)
    ensures inputs != [] ==> Startable(v, level, inputs)
  {
    hide Select, SortedFiles, Overlaps;
    if level == 0 {
      var least :| IsClosure(v[0], r, least) && inputs == Select(v[0], least);
      WiderOverlaps(r, least);
      SelectMembers(v[0], least);
      if forall f | f in v[0] :: !Overlaps(f, r) {
        assert Closed(v[0], r) && r.Contains(r);
        assert r.Contains(least) && least == r;
      }
      assert inputs != [] ==> inputs[0] in inputs;
      assert forall f | f in v[0] && Overlaps(f, r) :: f in inputs;
    } else {
      var a, b := OverlapsAreConsecutive(v[level], r);
      SelectOfRange(v[level], r, a, b);
      SelectMembers(v[level], r);
      assert inputs != [] ==> inputs[0] in inputs;
    }
  }

  lemma ManualPrefix(v: Version, level: nat, inputs: seq<File>, n: nat)
    requires 1 <= level < NUM_LEVELS && Startable(v, level, inputs) && 1 <= n <= |inputs|
    ensures Startable(v, level, inputs[..n])
  {
    var a, b :| 0 <= a < b <= |v[level]| && inputs == v[level][a..b];
    assert inputs[..n] == v[level][a..a+n];
  }

  predicate IsTrivialMove(c: Compaction, maxFileSize: nat) {
    |c.inputs0| == 1 && |c.inputs1| == 0 && TotalFileSize(c.grandparents) <= 10 * maxFileSize
  }
}
