// Table files arranged in levels, and the read path over them.

module Versions {
  import opened InternalKeys

  // A table file's metadata together with the entries its table holds.
  datatype FileMetaData = FileMetaData(number: nat, size: nat, entries: seq<Entry>)

  type File = f: FileMetaData | f.entries != [] && Sorted(f.entries)
    witness FileMetaData(0, 0, [Entry(InternalKey(0.0, 0, Put), "")])

  function Smallest(f: File): InternalKey {
    f.entries[0].key
  }

  function Largest(f: File): InternalKey {
    f.entries[|f.entries|-1].key
  }

  type Version = v: seq<seq<File>> | |v| == NUM_LEVELS
    witness [[], [], [], [], [], [], []]

  // ---- What a version must satisfy

  // Every entry of `a` is newer than every entry of `b` for the same user key.
  ghost predicate Newer(a: seq<Entry>, b: seq<Entry>) {
    forall x, y | x in a && y in b && x.key.user == y.key.user :: y.key.sequence < x.key.sequence
  }

  // Files in order, with disjoint ranges of internal keys.
  ghost predicate SortedFiles(files: seq<File>) {
    forall i, j | 0 <= i < j < |files| :: Less(Largest(files[i]), Smallest(files[j]))
  }

  // Level 0 may overlap: a file with a larger number holds newer entries.
  ghost predicate NumberedByAge(files: seq<File>) {
    && (forall i, j | 0 <= i < j < |files| :: files[i].number != files[j].number)
    && (forall f, g | f in files && g in files && g.number < f.number :: Newer(f.entries, g.entries))
  }

  ghost predicate LevelsByAge(v: Version) {
    forall i, j | 0 <= i < j < NUM_LEVELS :: forall f, g | f in v[i] && g in v[j] :: Newer(f.entries, g.entries)
  }

  ghost predicate ValidVersion(v: Version) {
    && NumberedByAge(v[0])
    && (forall i | 1 <= i < NUM_LEVELS :: SortedFiles(v[i]))
    && LevelsByAge(v)
  }

  ghost predicate Holds(files: seq<File>, e: Entry) {
    exists f :: f in files && e in f.entries
  }

  ghost function Contents(v: Version): set<Entry> {
    set i, f, e | 0 <= i < NUM_LEVELS && f in v[i] && e in f.entries :: e
  }

  ghost function Elements(es: seq<Entry>): set<Entry> {
    set e | e in es
  }

  // ---- Searching one sorted run of entries: a memtable, or a table file

  datatype SearchResult = NotFound | Found(value: Value) | Deleted

  function Search(es: seq<Entry>, user: UserKey, s: SequenceNumber): SearchResult {
    var i := SeekIndex(es, LookupKey(user, s));
    if i < |es| && es[i].key.user == user then
      if es[i].key.kind.Put? then Found(es[i].value) else Deleted
    else NotFound
  }

  // `r` is the outcome of a read in which `e` is the newest visible entry.
  predicate Reports(r: SearchResult, e: Entry) {
    r == if e.key.kind.Put? then Found(e.value) else Deleted
  }

  lemma SearchFindsNewest(es: seq<Entry>, user: UserKey, s: SequenceNumber)
    requires Sorted(es)
    ensures Search(es, user, s).NotFound? ==> forall e | e in es && e.key.user == user :: s < e.key.sequence
    ensures !Search(es, user, s).NotFound? ==>
              exists e :: IsNewest(Elements(es), user, s, e) && Reports(Search(es, user, s), e)
  {
    var lk := LookupKey(user, s);
    var r := SeekIndex(es, lk);
    SeekSplits(es, lk);
    forall i | 0 <= i < |es| && es[i].key.user == user && es[i].key.sequence <= s
      ensures r <= i && es[r].key.user == user && es[i].key.sequence <= es[r].key.sequence <= s
    {
      if r < i {
        assert Less(es[r].key, es[i].key);
      }
    }
    if r < |es| && es[r].key.user == user {
      assert es[r] in Visible(Elements(es), user, s);
      assert IsNewest(Elements(es), user, s, es[r]);
    }
  }

  // ---- Locating a file in a sorted level

  method FindFile(files: seq<File>, key: InternalKey) returns (right: nat)
    requires SortedFiles(files)
    ensures right <= |files|
    ensures forall i | 0 <= i < right :: Less(Largest(files[i]), key)
    ensures forall i | right <= i < |files| :: !Less(Largest(files[i]), key)
  {
    var left := 0;
    right := |files|;
    while left < right
      invariant left <= right <= |files|
      invariant forall i | 0 <= i < left :: Less(Largest(files[i]), key)
      invariant forall i | right <= i < |files| :: !Less(Largest(files[i]), key)
    {
      var mid := (left + right) / 2;
      LargestAscend(files, mid, key);
      if Compare(Largest(files[mid]), key) < 0 {
        left := mid + 1;
      } else {
        right := mid;
      }
    }
  }

  lemma SmallestToLargest(f: File)
    ensures forall e | e in f.entries :: !Less(e.key, Smallest(f)) && !Less(Largest(f), e.key)
  {
    forall i | 0 <= i < |f.entries|
      ensures !Less(f.entries[i].key, Smallest(f)) && !Less(Largest(f), f.entries[i].key)
    {
      if 0 < i {
        LessIsStrictTotalOrder(f.entries[0].key, f.entries[i].key, f.entries[i].key);
      }
    }
  }

  lemma LargestAscend(files: seq<File>, mid: nat, key: InternalKey)
    requires SortedFiles(files) && mid < |files|
    ensures Less(Largest(files[mid]), key) ==> forall i | 0 <= i <= mid :: Less(Largest(files[i]), key)
    ensures !Less(Largest(files[mid]), key) ==> forall i | mid <= i < |files| :: !Less(Largest(files[i]), key)
  {
    forall i, j | 0 <= i < j < |files|
      ensures Less(Largest(files[i]), Largest(files[j]))
    {
      SmallestToLargest(files[j]);
      LessIsStrictTotalOrder(Largest(files[i]), Smallest(files[j]), Largest(files[j]));
    }
    forall i | 0 <= i < |files|
      ensures i <= mid && Less(Largest(files[mid]), key) ==> Less(Largest(files[i]), key)
      ensures mid <= i && !Less(Largest(files[mid]), key) ==> !Less(Largest(files[i]), key)
    {
      LessIsStrictTotalOrder(Largest(files[i]), Largest(files[mid]), key);
      LessIsStrictTotalOrder(Largest(files[mid]), Largest(files[i]), key);
    }
  }

  // In a sorted level, the one file found by its largest key decides the read: also when the
  // user key is split across adjacent files.
  lemma OneFileDecides(files: seq<File>, user: UserKey, s: SequenceNumber, index: nat)
    requires SortedFiles(files) && index <= |files|
    requires forall i | 0 <= i < index :: Less(Largest(files[i]), LookupKey(user, s))
    requires index < |files| ==> !Less(Largest(files[index]), LookupKey(user, s))
    ensures forall e | Holds(files, e) && e.key.user == user && e.key.sequence <= s ::
              && index < |files| && Smallest(files[index]).user <= user
              && exists n :: n in files[index].entries && n.key.user == user && e.key.sequence <= n.key.sequence <= s
  {
    var lk := LookupKey(user, s);
    forall e | Holds(files, e) && e.key.user == user && e.key.sequence <= s
      ensures index < |files| && Smallest(files[index]).user <= user
      ensures exists n :: n in files[index].entries && n.key.user == user && e.key.sequence <= n.key.sequence <= s
    {
      var j :| 0 <= j < |files| && e in files[j].entries;
      SmallestToLargest(files[j]);
      assert !Less(e.key, lk);
      LessIsStrictTotalOrder(e.key, Largest(files[j]), lk);
      assert index <= j;
      if index < j {
        var n := files[index].entries[|files[index].entries|-1];
        assert n.key == Largest(files[index]);
        LessIsStrictTotalOrder(Largest(files[index]), Smallest(files[j]), e.key);
        assert Less(n.key, e.key) && !Less(n.key, lk);
        assert n in files[index].entries;
      }
    }
  }

  // ---- Reading a version

  // The files of `files`, newest (largest number) first.
  function NewestFirst(files: seq<File>): (r: seq<File>)
    ensures forall f :: f in r <==> f in files
    ensures forall i, j | 0 <= i < j < |r| :: r[j].number <= r[i].number
  {
    if files == [] then [] else InsertByNumber(files[0], NewestFirst(files[1..]))
  }

  function InsertByNumber(f: File, sorted: seq<File>): (r: seq<File>)
    requires forall i, j | 0 <= i < j < |sorted| :: sorted[j].number <= sorted[i].number
    ensures forall g :: g in r <==> g == f || g in sorted
    ensures forall i, j | 0 <= i < j < |r| :: r[j].number <= r[i].number
  {
    if sorted == [] || sorted[0].number <= f.number then [f] + sorted
    else
      var rest := InsertByNumber(f, sorted[1..]);
      assert forall g | g in sorted[1..] :: g.number <= sorted[0].number;
      assert forall k | 0 <= k < |rest| :: rest[k] in rest;
      [sorted[0]] + rest
  }

  // No entry is visible to a read of `user` at `s`.
  ghost predicate SilentRun(es: seq<Entry>, user: UserKey, s: SequenceNumber) {
    forall e | e in es && e.key.user == user :: s < e.key.sequence
  }

  ghost predicate Silent(files: seq<File>, user: UserKey, s: SequenceNumber) {
    forall f | f in files :: SilentRun(f.entries, user, s)
  }

  // A newest visible entry of level `level` is the newest of the version when the levels
  // above are silent.
  lemma NewestOfLevelWins(v: Version, level: nat, user: UserKey, s: SequenceNumber, f: File, e: Entry)
    requires ValidVersion(v) && level < NUM_LEVELS
    requires forall i | 0 <= i < level :: Silent(v[i], user, s)
    requires f in v[level] && e in f.entries && e.key.user == user && e.key.sequence <= s
    requires forall x | Holds(v[level], x) && x.key.user == user && x.key.sequence <= s :: x.key.sequence <= e.key.sequence
    ensures IsNewest(Contents(v), user, s, e)
  {
    forall x | x in Visible(Contents(v), user, s)
      ensures x.key.sequence <= e.key.sequence
    {
      var i, g :| 0 <= i < NUM_LEVELS && g in v[i] && x in g.entries;
      if i == level {
        assert Holds(v[level], x);
      } else if level < i {
        assert Newer(f.entries, g.entries);
      }
    }
    assert e in Contents(v);
  }

  // The level-0 files whose range covers the key, newest first.
  method Candidates(files: seq<File>, user: UserKey) returns (r: seq<File>)
    ensures forall f | f in r :: f in files
    ensures forall s, f | f in files :: f in r || SilentRun(f.entries, user, s)
    ensures forall i, j | 0 <= i < j < |r| :: r[j].number <= r[i].number
  {
    var tmp: seq<File> := [];
    for i := 0 to |files|
      invariant forall f | f in tmp :: f in files
      invariant forall s, j | 0 <= j < i :: files[j] in tmp || SilentRun(files[j].entries, user, s)
    {
      if Smallest(files[i]).user <= user <= Largest(files[i]).user {
        tmp := tmp + [files[i]];
      } else {
        SmallestToLargest(files[i]);
      }
    }
    r := NewestFirst(tmp);
  }

  method SearchLevel0(v: Version, user: UserKey, s: SequenceNumber) returns (r: SearchResult)
    requires ValidVersion(v)
    ensures r.NotFound? ==> Silent(v[0], user, s)
    ensures !r.NotFound? ==> exists e :: IsNewest(Contents(v), user, s, e) && Reports(r, e)
  {
    hide ValidVersion;
    var tmp := Candidates(v[0], user);
    for i := 0 to |tmp|
      invariant forall j | 0 <= j < i :: SilentRun(tmp[j].entries, user, s)
    {
      r := Search(tmp[i].entries, user, s);
      SearchFindsNewest(tmp[i].entries, user, s);
      if !r.NotFound? {
        ghost var e :| IsNewest(Elements(tmp[i].entries), user, s, e) && Reports(r, e);
        Level0NewestWins(v, tmp, i, user, s, e);
        return;
      }
    }
    r := NotFound;
  }

  lemma NewestFileFirst(files: seq<File>, tmp: seq<File>, i: nat, user: UserKey, s: SequenceNumber, e: Entry, x: Entry)
    requires NumberedByAge(files)
    requires forall f | f in tmp :: f in files
    requires forall f | f in files :: f in tmp || SilentRun(f.entries, user, s)
    requires forall a, b | 0 <= a < b < |tmp| :: tmp[b].number <= tmp[a].number
    requires i < |tmp| && forall j | 0 <= j < i :: SilentRun(tmp[j].entries, user, s)
    requires IsNewest(Elements(tmp[i].entries), user, s, e)
    requires Holds(files, x) && x.key.user == user && x.key.sequence <= s
    ensures x.key.sequence <= e.key.sequence
  {
    var g :| g in files && x in g.entries;
    assert !SilentRun(g.entries, user, s);
    var j :| 0 <= j < |tmp| && tmp[j] == g;
    if g == tmp[i] {
      assert x in Visible(Elements(tmp[i].entries), user, s);
    } else {
      var a :| 0 <= a < |files| && files[a] == g;
      var b :| 0 <= b < |files| && files[b] == tmp[i];
      assert g.number < tmp[i].number;
      assert Newer(tmp[i].entries, g.entries);
    }
  }

  lemma Level0NewestWins(v: Version, tmp: seq<File>, i: nat, user: UserKey, s: SequenceNumber, e: Entry)
    requires ValidVersion(v)
    requires forall f | f in tmp :: f in v[0]
    requires forall f | f in v[0] :: f in tmp || SilentRun(f.entries, user, s)
    requires forall a, b | 0 <= a < b < |tmp| :: tmp[b].number <= tmp[a].number
    requires i < |tmp| && forall j | 0 <= j < i :: SilentRun(tmp[j].entries, user, s)
    requires IsNewest(Elements(tmp[i].entries), user, s, e)
    ensures IsNewest(Contents(v), user, s, e)
  {
    hide LevelsByAge, SortedFiles, NumberedByAge, SilentRun;
    forall x | Holds(v[0], x) && x.key.user == user && x.key.sequence <= s
      ensures x.key.sequence <= e.key.sequence
    {
      NewestFileFirst(v[0], tmp, i, user, s, e, x);
    }
    NewestOfLevelWins(v, 0, user, s, tmp[i], e);
  }

  lemma SortedLevelNewestWins(v: Version, level: nat, user: UserKey, s: SequenceNumber, f: File, e: Entry)
    requires ValidVersion(v) && level < NUM_LEVELS
    requires forall i | 0 <= i < level :: Silent(v[i], user, s)
    requires f in v[level] && IsNewest(Elements(f.entries), user, s, e)
    requires forall x | Holds(v[level], x) && x.key.user == user && x.key.sequence <= s ::
               exists n :: n in f.entries && n.key.user == user && x.key.sequence <= n.key.sequence <= s
    ensures IsNewest(Contents(v), user, s, e)
  {
    forall x | Holds(v[level], x) && x.key.user == user && x.key.sequence <= s
      ensures x.key.sequence <= e.key.sequence
    {
      var n :| n in f.entries && n.key.user == user && x.key.sequence <= n.key.sequence <= s;
      assert n in Visible(Elements(f.entries), user, s);
    }
    NewestOfLevelWins(v, level, user, s, f, e);
  }

  method SearchSortedLevel(v: Version, level: nat, user: UserKey, s: SequenceNumber) returns (r: SearchResult)
    requires ValidVersion(v) && 1 <= level < NUM_LEVELS
    requires forall i | 0 <= i < level :: Silent(v[i], user, s)
    ensures r.NotFound? ==> Silent(v[level], user, s)
    ensures !r.NotFound? ==> exists e :: IsNewest(Contents(v), user, s, e) && Reports(r, e)
  {
    hide LevelsByAge, NumberedByAge, Search, IsNewest, Reports;
    var files := v[level];
    r := NotFound;
    var index := FindFile(files, LookupKey(user, s));
    OneFileDecides(files, user, s, index);
    if index < |files| && Smallest(files[index]).user <= user {
      r := Search(files[index].entries, user, s);
      SearchFindsNewest(files[index].entries, user, s);
    }
    if r.NotFound? {
      forall f, e | f in files && e in f.entries && e.key.user == user
        ensures s < e.key.sequence
      {
        assert Holds(files, e);
      }
    } else {
      ghost var e :| IsNewest(Elements(files[index].entries), user, s, e) && Reports(r, e);
      SortedLevelNewestWins(v, level, user, s, files[index], e);
    }
  }

  // Level by level: the first level that has the key answers.
  method Get(v: Version, user: UserKey, s: SequenceNumber) returns (r: SearchResult)
    requires ValidVersion(v)
    ensures r.NotFound? ==> Visible(Contents(v), user, s) == {}
    ensures !r.NotFound? ==> exists e :: IsNewest(Contents(v), user, s, e) && Reports(r, e)
  {
    for level := 0 to NUM_LEVELS
      invariant forall i | 0 <= i < level :: Silent(v[i], user, s)
    {
      if level == 0 {
        r := SearchLevel0(v, user, s);
      } else {
        r := SearchSortedLevel(v, level, user, s);
      }
      if !r.NotFound? {
        return;
      }
    }
    r := NotFound;
    forall e | e in Contents(v) && e.key.user == user
      ensures s < e.key.sequence
    {
      var i, f :| 0 <= i < NUM_LEVELS && f in v[i] && e in f.entries;
      assert Silent(v[i], user, s) && SilentRun(f.entries, user, s);
    }
  }
}
