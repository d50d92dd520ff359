// The merge: which entries it keeps, and exactly when every read survives it.

module Compactions {
  import opened InternalKeys
  import opened MergingIterators
  import opened Versions
  import opened CompactionInputs

  // ---- Is there older data for a user key below the output level?

  // No file below the output level `level + 1` covers `user`.
  ghost predicate IsBase(v: Version, level: nat, user: UserKey) {
    forall i, f | level + 2 <= i < NUM_LEVELS && f in v[i] :: !Covers(f, user)
  }

  // One pointer per level, which only moves forward while keys are asked about in order.
  class BaseLevelScan {
    const version: Version
    const level: nat
    const levelPtrs: array<nat>
    ghost var last: Option<UserKey>

    ghost predicate Valid()
      reads this, levelPtrs
    {
      && level + 1 < NUM_LEVELS == levelPtrs.Length
      && (forall i | 1 <= i < NUM_LEVELS :: SortedFiles(version[i]))
      && forall i | level + 2 <= i < NUM_LEVELS :: Behind(i, levelPtrs[i])
    }

    // Every file before pointer `p` ends before the last key asked about.
    ghost predicate Behind(i: nat, p: nat)
      requires i < NUM_LEVELS
      reads this
    {
      p <= |version[i]| && forall k | 0 <= k < p :: last.Some? && Largest(version[i][k]).user < last.value
    }

    constructor (version: Version, level: nat)
      requires level + 1 < NUM_LEVELS && forall i | 1 <= i < NUM_LEVELS :: SortedFiles(version[i])
      ensures Valid() && this.version == version && this.level == level && last == None && fresh(levelPtrs)
    {
      this.version, this.level, last := version, level, None;
      levelPtrs := new nat[NUM_LEVELS](_ => 0);
    }

    method IsBaseLevelForKey(user: UserKey) returns (r: bool)
      requires Valid() && (last.Some? ==> last.value <= user)
      modifies this, levelPtrs
      ensures Valid() && last == Some(user)
      ensures r <==> IsBase(version, level, user)
    {
      last := Some(user);
      for lvl := level + 2 to NUM_LEVELS
        invariant Valid() && last == Some(user)
        invariant forall i, f | level + 2 <= i < lvl && f in version[i] :: !Covers(f, user)
      {
        var files := version[lvl];
        while levelPtrs[lvl] < |files|
          invariant Valid() && last == Some(user)
          invariant forall k | 0 <= k < levelPtrs[lvl] :: Largest(files[k]).user < user
          decreases |files| - levelPtrs[lvl]
        {
          var f := files[levelPtrs[lvl]];
          if user <= Largest(f).user {
            if Smallest(f).user <= user {
              assert Covers(f, user);
              return false;
            }
            break;
          }
          levelPtrs[lvl] := levelPtrs[lvl] + 1;
        }
        NoneCovers(files, levelPtrs[lvl], user);
      }
      r := true;
    }
  }

  lemma NoneCovers(files: seq<File>, p: nat, user: UserKey)
    requires SortedFiles(files) && p <= |files|
    requires forall k | 0 <= k < p :: Largest(files[k]).user < user
    requires p < |files| ==> user < Smallest(files[p]).user
    ensures forall f | f in files :: !Covers(f, user)
  {
    forall k | p < k < |files|
      ensures user < Smallest(files[k]).user
    {
      FileIsNotReversed(files[p]);
      assert Less(Largest(files[p]), Smallest(files[k]));
    }
  }

  // ---- How much of the level below the output lies under an output file

  // The size of the files that end at or after `a` and before `b`.
  ghost function Spanned(files: seq<File>, a: InternalKey, b: InternalKey): nat {
    if files == [] then 0
    else
      var last := files[|files|-1];
      Spanned(files[..|files|-1], a, b) + if !Less(Largest(last), a) && Less(Largest(last), b) then last.size else 0
  }

  lemma SpannedMore(files: seq<File>, n: nat, a: InternalKey, b: InternalKey)
    requires n < |files|
    ensures Spanned(files[..n+1], a, b) ==
            Spanned(files[..n], a, b) + if !Less(Largest(files[n]), a) && Less(Largest(files[n]), b) then files[n].size else 0
  {
    assert files[..n+1][..n] == files[..n];
  }

  // Files that end before `b` span the same for a later end.
  lemma {:induction false} SpannedUpTo(files: seq<File>, a: InternalKey, b: InternalKey, c: InternalKey)
    requires !Less(c, b) && forall f | f in files :: Less(Largest(f), b)
    ensures Spanned(files, a, b) == Spanned(files, a, c)
    ensures forall f | f in files :: Less(Largest(f), c)
  {
    hide Less, Largest;
    forall f | f in files
      ensures Less(Largest(f), c)
    {
      LessIsStrictTotalOrder(Largest(f), b, c);
      LessIsStrictTotalOrder(b, c, b);
    }
    if files != [] {
      SpannedUpTo(files[..|files|-1], a, b, c);
    }
  }

  // Files that end at or after `b` add nothing.
  lemma {:induction false} SpannedPrefix(files: seq<File>, n: nat, a: InternalKey, b: InternalKey)
    requires n <= |files| && forall i | n <= i < |files| :: !Less(Largest(files[i]), b)
    ensures Spanned(files, a, b) == Spanned(files[..n], a, b)
  {
    hide Less, Largest;
    if n == |files| {
      assert files[..n] == files;
    } else {
      SpannedPrefix(files[..|files|-1], n, a, b);
      assert files[..|files|-1][..n] == files[..n];
    }
  }

  // A narrower range of keys spans no more.
  lemma {:induction false} SpansLess(files: seq<File>, a: InternalKey, b: InternalKey, c: InternalKey)
    requires !Less(b, a)
    ensures Spanned(files, b, c) <= Spanned(files, a, c)
  {
    hide Less, Largest;
    if files != [] {
      var last := files[|files|-1];
      SpansLess(files[..|files|-1], a, b, c);
      LessIsStrictTotalOrder(Largest(last), a, b);
      LessIsStrictTotalOrder(a, b, a);
    }
  }

  lemma {:induction false} SpansNothing(files: seq<File>, a: InternalKey)
    ensures Spanned(files, a, a) == 0
  {
    if files != [] {
      SpansNothing(files[..|files|-1], a);
    }
  }

  // A pointer that moves forward over the grandparents while keys are asked about in order.
  class GrandparentScan {
    const grandparents: seq<File>
    const limit: nat
    var index: nat
    var seenKey: bool
    var overlappedBytes: nat
    ghost var first: InternalKey   // the key asked about first since the last stop
    ghost var last: InternalKey    // the key asked about last

    ghost predicate Valid()
      reads this
    {
      && SortedFiles(grandparents) && index <= |grandparents|
      && (!seenKey ==> index == 0 && overlappedBytes == 0)
      && (seenKey ==>
            && !Less(last, first)
            && (forall i | 0 <= i < index :: Less(Largest(grandparents[i]), last))
            && (forall i | index <= i < |grandparents| :: !Less(Largest(grandparents[i]), last))
            && overlappedBytes == Spanned(grandparents, first, last))
    }

    constructor (grandparents: seq<File>, limit: nat)
      requires SortedFiles(grandparents)
      ensures Valid() && this.grandparents == grandparents && this.limit == limit && !seenKey
    {
      this.grandparents, this.limit, index, seenKey, overlappedBytes := grandparents, limit, 0, false, 0;
    }

    // Whether the grandparents passed since the last stop, at or after the first key since then
    // and before `key`, are too large together.
    method ShouldStopBefore(key: InternalKey) returns (stop: bool)
      requires Valid() && (seenKey ==> !Less(key, last))
      modifies this
      ensures Valid() && seenKey && last == key
      ensures stop <==> old(seenKey) && Spanned(grandparents, old(first), key) > limit
      ensures first == if stop || !old(seenKey) then key else old(first)
      ensures Spanned(grandparents, first, key) <= limit && !Less(key, first)
    {
      hide Spanned, SortedFiles, Largest, Less, Compare;
      ghost var from := first;
      if seenKey {
        Resumed(key);
      }
      while index < |grandparents| && Compare(key, Largest(grandparents[index])) > 0
        invariant index <= |grandparents| && seenKey == old(seenKey) && first == from && last == old(last)
        invariant forall i | 0 <= i < index :: Less(Largest(grandparents[i]), key)
        invariant seenKey ==> forall i | index <= i < |grandparents| :: !Less(Largest(grandparents[i]), from)
        invariant overlappedBytes == if seenKey then Spanned(grandparents[..index], from, key) else 0
      {
        CompareTurned(key, Largest(grandparents[index]));
        SpannedMore(grandparents, index, from, key);
        if seenKey {
          overlappedBytes := overlappedBytes + grandparents[index].size;
        }
        index := index + 1;
      }
      RestIsLater(key);
      SpannedPrefix(grandparents, index, from, key);
      SpansNothing(grandparents, key);
      LessIsStrictTotalOrder(key, key, key);
      stop := overlappedBytes > limit;
      if stop {
        overlappedBytes := 0;
      }
      if stop || !seenKey {
        first := key;
      } else {
        LessIsStrictTotalOrder(key, from, last);
        LessIsStrictTotalOrder(from, last, key);
      }
      seenKey, last := true, key;
    }

    // What was passed before the last key was passed before a later one.
    lemma Resumed(key: InternalKey)
      requires Valid() && seenKey && !Less(key, last)
      ensures forall i | 0 <= i < index :: Less(Largest(grandparents[i]), key)
      ensures forall i | index <= i < |grandparents| :: !Less(Largest(grandparents[i]), first)
      ensures overlappedBytes == Spanned(grandparents[..index], first, key)
    {
      hide Less, Largest, Spanned, SortedFiles;
      SpannedPrefix(grandparents, index, first, last);
      SpannedUpTo(grandparents[..index], first, last, key);
      forall i | 0 <= i < index
        ensures Less(Largest(grandparents[i]), key)
      {
        assert grandparents[i] in grandparents[..index];
      }
      forall i | index <= i < |grandparents|
        ensures !Less(Largest(grandparents[i]), first)
      {
        LessIsStrictTotalOrder(Largest(grandparents[i]), first, last);
        LessIsStrictTotalOrder(first, last, first);
      }
    }

    lemma RestIsLater(key: InternalKey)
      requires SortedFiles(grandparents) && index <= |grandparents|
      requires index < |grandparents| ==> Compare(key, Largest(grandparents[index])) <= 0
      ensures forall i | index <= i < |grandparents| :: !Less(Largest(grandparents[i]), key)
    {
      if index < |grandparents| {
        CompareTurned(key, Largest(grandparents[index]));
        LargestAscend(grandparents, index, key);
      }
    }
  }

  // From its first key to its last one, a run of entries spans no more than `limit`.
  ghost predicate SpansAtMost(files: seq<File>, limit: nat, run: seq<Entry>) {
    run != [] ==> Spanned(files, run[0].key, run[|run|-1].key) <= limit
  }

  // So does a run that is still open, from `first` on.
  ghost predicate OpenSpansAtMost(files: seq<File>, limit: nat, first: InternalKey, run: seq<Entry>) {
    run != [] ==> !Less(run[0].key, first) && Spanned(files, first, run[|run|-1].key) <= limit
  }

  lemma RunIsClosed(files: seq<File>, limit: nat, first: InternalKey, run: seq<Entry>)
    requires OpenSpansAtMost(files, limit, first, run)
    ensures SpansAtMost(files, limit, run)
  {
    if run != [] {
      SpansLess(files, first, run[0].key, run[|run|-1].key);
    }
  }

  lemma RunGrows(files: seq<File>, limit: nat, first: InternalKey, run: seq<Entry>, e: Entry)
    requires OpenSpansAtMost(files, limit, first, run)
    requires !Less(e.key, first) && Spanned(files, first, e.key) <= limit
    ensures OpenSpansAtMost(files, limit, first, run + [e])
  {
  }

  lemma NoRun(files: seq<File>, limit: nat, first: InternalKey)
    ensures OpenSpansAtMost(files, limit, first, [])
  {
  }

  lemma CompareTurned(a: InternalKey, b: InternalKey)
    ensures Compare(a, b) > 0 <==> Less(b, a)
  {
  }

  // ---- The entries kept

  // Dropped: hidden by a newer input entry that every live snapshot sees, or a deletion that
  // every live snapshot sees with nothing below the output level. At the largest possible
  // sequence number the loop's "no entry seen yet" marker drops everything.
  ghost predicate Dropped(input: set<Entry>, ss: SequenceNumber, v: Version, level: nat, e: Entry) {
    || ss == MAX_SEQUENCE
    || (exists t :: t in input && t.key.user == e.key.user && e.key.sequence < t.key.sequence <= ss)
    || (e.key.kind.Deletion? && e.key.sequence <= ss && IsBase(v, level, e.key.user))
  }

  ghost function Kept(input: seq<Entry>, n: nat, ss: SequenceNumber, v: Version, level: nat): seq<Entry>
    requires n <= |input|
  {
    if n == 0 then []
    else Kept(input, n - 1, ss, v, level)
         + if Dropped(Elements(input), ss, v, level, input[n-1]) then [] else [input[n-1]]
  }

  function Flatten(outputs: seq<seq<Entry>>): seq<Entry> {
    if outputs == [] then [] else Flatten(outputs[..|outputs|-1]) + outputs[|outputs|-1]
  }

  lemma FlattenNothing()
    ensures Flatten([]) == []
  {
  }

  lemma FlattenSnoc(outputs: seq<seq<Entry>>, last: seq<Entry>)
    ensures Flatten(outputs + [last]) == Flatten(outputs) + last
  {
    assert (outputs + [last])[..|outputs|] == outputs;
  }

  // In the input order, an earlier entry of the same user key at or below the snapshot is
  // seen exactly when the entry just before is one.
  lemma PreviousDecides(input: seq<Entry>, i: nat, ss: SequenceNumber)
    requires Sorted(input) && i < |input| && DistinctStamps(Elements(input))
    ensures (exists t :: t in Elements(input) && t.key.user == input[i].key.user && input[i].key.sequence < t.key.sequence <= ss)
            <==> 0 < i && input[i-1].key.user == input[i].key.user && input[i-1].key.sequence <= ss
  {
    var e := input[i];
    forall t | t in Elements(input) && t.key.user == e.key.user && e.key.sequence < t.key.sequence <= ss
      ensures 0 < i && input[i-1].key.user == e.key.user && input[i-1].key.sequence <= ss
    {
      var j :| 0 <= j < |input| && input[j] == t;
      assert j < i by {
        assert i < j ==> Less(e.key, t.key);
      }
      assert j < i - 1 ==> Less(t.key, input[i-1].key);
      assert Less(input[i-1].key, e.key);
    }
    if 0 < i && input[i-1].key.user == e.key.user && input[i-1].key.sequence <= ss {
      assert Less(input[i-1].key, e.key);
      assert input[i-1] in Elements(input) && e in Elements(input);
      LessIsStrictTotalOrder(e.key, e.key, e.key);
    }
  }

  // What the loop has in last_sequence_for_key when it decides about entry `i`.
  function LastSequenceForKey(input: seq<Entry>, i: nat): SequenceNumber
    requires i < |input|
  {
    if i == 0 || input[i-1].key.user != input[i].key.user then MAX_SEQUENCE else input[i-1].key.sequence
  }

  lemma DropDecision(input: seq<Entry>, i: nat, ss: SequenceNumber, v: Version, level: nat)
    requires Sorted(input) && i < |input| && DistinctStamps(Elements(input))
    ensures Dropped(Elements(input), ss, v, level, input[i]) <==>
              || LastSequenceForKey(input, i) <= ss
              || (input[i].key.kind.Deletion? && input[i].key.sequence <= ss && IsBase(v, level, input[i].key.user))
  {
    hide IsBase, Sorted, DistinctStamps;
    PreviousDecides(input, i, ss);
  }

  lemma {:induction false} KeptMembers(input: seq<Entry>, n: nat, ss: SequenceNumber, v: Version, level: nat)
    requires n <= |input|
    ensures forall e :: e in Kept(input, n, ss, v, level) <==> e in input[..n] && !Dropped(Elements(input), ss, v, level, e)
  {
    hide Dropped;
    if n != 0 {
      KeptMembers(input, n - 1, ss, v, level);
      assert input[..n] == input[..n-1] + [input[n-1]];
    }
  }

  lemma {:induction false} KeptIsSorted(input: seq<Entry>, n: nat, ss: SequenceNumber, v: Version, level: nat)
    requires Sorted(input) && n <= |input|
    ensures Sorted(Kept(input, n, ss, v, level))
  {
    hide Dropped;
    if n != 0 {
      KeptIsSorted(input, n - 1, ss, v, level);
      KeptMembers(input, n - 1, ss, v, level);
      var kept := Kept(input, n - 1, ss, v, level);
      forall i | 0 <= i < |kept|
        ensures Less(kept[i].key, input[n-1].key)
      {
        assert kept[i] in input[..n-1];
      }
    }
  }

  // The output of a merge, said of the entries themselves and in order. An entry of the input
  // stays unless a newer one of its user key is at or below the snapshot, or it is a deletion at
  // or below the snapshot and no file below the output level covers its user key.
  ghost predicate IsMerged(input: set<Entry>, ss: SequenceNumber, v: Version, level: nat, output: seq<Entry>) {
    && Sorted(output)
    && forall e :: e in output <==>
         && e in input && ss < MAX_SEQUENCE
         && (forall t | t in input && t.key.user == e.key.user && e.key.sequence < t.key.sequence :: ss < t.key.sequence)
         && (e.key.kind.Deletion? && e.key.sequence <= ss ==>
               exists i, f :: level + 2 <= i < NUM_LEVELS && f in v[i] && Smallest(f).user <= e.key.user <= Largest(f).user)
  }

  lemma NotBase(v: Version, level: nat, user: UserKey)
    ensures !IsBase(v, level, user) <==>
              exists i, f :: level + 2 <= i < NUM_LEVELS && f in v[i] && Smallest(f).user <= user <= Largest(f).user
  {
    if i, f :| level + 2 <= i < NUM_LEVELS && f in v[i] && Smallest(f).user <= user <= Largest(f).user {
      assert Covers(f, user);
    }
    if !IsBase(v, level, user) {
      var i, f :| level + 2 <= i < NUM_LEVELS && f in v[i] && Covers(f, user);
    }
  }

  lemma KeptIsMerged(input: seq<Entry>, ss: SequenceNumber, v: Version, level: nat)
    requires Sorted(input)
    ensures IsMerged(Elements(input), ss, v, level, Kept(input, |input|, ss, v, level))
  {
    hide Sorted, Smallest, Largest;
    KeptIsSorted(input, |input|, ss, v, level);
    KeptMembers(input, |input|, ss, v, level);
    assert input[..|input|] == input;
    forall e | e in input
      ensures !Dropped(Elements(input), ss, v, level, e) <==>
                && ss < MAX_SEQUENCE
                && (forall t | t in Elements(input) && t.key.user == e.key.user && e.key.sequence < t.key.sequence :: ss < t.key.sequence)
                && (e.key.kind.Deletion? && e.key.sequence <= ss ==>
                      exists i, f :: level + 2 <= i < NUM_LEVELS && f in v[i] && Smallest(f).user <= e.key.user <= Largest(f).user)
    {
      NotBase(v, level, e.key.user);
    }
  }

  // Of one user key, a merge leaves at most one entry at or below the snapshot. What it takes
  // away is hidden by a newer input entry there, or is a deletion with nothing beneath it.
  lemma MergedLeavesOne(input: set<Entry>, ss: SequenceNumber, v: Version, level: nat, output: seq<Entry>)
    requires DistinctStamps(input) && IsMerged(input, ss, v, level, output)
    ensures Sorted(output) && Elements(output) <= input
    ensures forall d, e | d in output && e in output && d.key.user == e.key.user
                          && d.key.sequence <= ss && e.key.sequence <= ss :: d == e
    ensures ss < MAX_SEQUENCE ==>
              forall e :: e in input && e !in output <==>
                && e in input && e.key.sequence <= ss
                && (|| (exists t :: t in input && t.key.user == e.key.user && e.key.sequence < t.key.sequence <= ss)
                    || (e.key.kind.Deletion?
                        && !exists i, f :: level + 2 <= i < NUM_LEVELS && f in v[i] && Smallest(f).user <= e.key.user <= Largest(f).user))
  {
    hide Sorted, Smallest, Largest;
  }

  // Walks the merged input once and cuts the kept entries into output runs: before one that would
  // lie over too much of the grandparents, and when a table is big enough.
  method DoCompactionWork(input: seq<Entry>, scan: BaseLevelScan, stops: GrandparentScan, smallestSnapshot: SequenceNumber)
    returns (outputs: seq<seq<Entry>>)
    requires Sorted(input) && DistinctStamps(Elements(input))
    requires scan.Valid() && scan.last == None && stops.Valid() && !stops.seenKey
    modifies scan, scan.levelPtrs, stops
    ensures forall o | o in outputs :: o != [] && SpansAtMost(stops.grandparents, stops.limit, o)
    ensures Flatten(outputs) == Kept(input, |input|, smallestSnapshot, scan.version, scan.level)
    ensures IsMerged(Elements(input), smallestSnapshot, scan.version, scan.level, Flatten(outputs))
    ensures forall d, e | d in Flatten(outputs) && e in Flatten(outputs) && d.key.user == e.key.user
                          && d.key.sequence <= smallestSnapshot && e.key.sequence <= smallestSnapshot :: d == e
  {
    hide Sorted, DistinctStamps, scan.Valid, stops.Valid, IsBase, Dropped, Flatten, Smallest, Largest, IsMerged, Spanned, SpansAtMost, OpenSpansAtMost, Less;
    assert Flatten([]) == [] by { FlattenNothing(); }
    NoRun(stops.grandparents, stops.limit, stops.first);
    outputs := [];
    var builder: seq<Entry> := [];  // the output being built; empty when none is open
    var currentUserKey: Option<UserKey> := None;
    var lastSequenceForKey: SequenceNumber := MAX_SEQUENCE;
    for i := 0 to |input|
      invariant scan.Valid() && stops.Valid()
      invariant if i == 0 then !stops.seenKey else stops.seenKey && stops.last == input[i-1].key
      invariant builder != [] ==> 0 < i
      invariant OpenSpansAtMost(stops.grandparents, stops.limit, stops.first, builder)
      invariant scan.last.Some? ==> 0 < i && scan.last.value <= input[i-1].key.user
      invariant if i == 0 then currentUserKey == None && lastSequenceForKey == MAX_SEQUENCE
                else currentUserKey == Some(input[i-1].key.user) && lastSequenceForKey == input[i-1].key.sequence
      invariant Flatten(outputs) + builder == Kept(input, i, smallestSnapshot, scan.version, scan.level)
      invariant forall o | o in outputs :: o != [] && SpansAtMost(stops.grandparents, stops.limit, o)
    {
      var e := input[i];
      InOrder(input, i);
      RunIsClosed(stops.grandparents, stops.limit, stops.first, builder);
      ghost var first := stops.first;
      var shouldStopBefore := stops.ShouldStopBefore(e.key);
      if shouldStopBefore && builder != [] {
        FlattenSnoc(outputs, builder);
        outputs, builder := outputs + [builder], [];
      }
      NoRun(stops.grandparents, stops.limit, stops.first);
      assert builder != [] ==> stops.first == first;
      RunGrows(stops.grandparents, stops.limit, stops.first, builder, e);
      var drop := false;
      if currentUserKey != Some(e.key.user) {
        currentUserKey, lastSequenceForKey := Some(e.key.user), MAX_SEQUENCE;
      }
      DropDecision(input, i, smallestSnapshot, scan.version, scan.level);
      UsersAscend(input, i);
      if lastSequenceForKey <= smallestSnapshot {
        drop := true;
      } else if e.key.kind.Deletion? && e.key.sequence <= smallestSnapshot {
        drop := scan.IsBaseLevelForKey(e.key.user);
      }
      lastSequenceForKey := e.key.sequence;
      if !drop {
        builder := builder + [e];
        var bigEnough: bool := *;
        if bigEnough {
          RunIsClosed(stops.grandparents, stops.limit, stops.first, builder);
          NoRun(stops.grandparents, stops.limit, stops.first);
          FlattenSnoc(outputs, builder);
          outputs, builder := outputs + [builder], [];
        }
      }
    }
    if builder != [] {
      RunIsClosed(stops.grandparents, stops.limit, stops.first, builder);
      FlattenSnoc(outputs, builder);
      outputs := outputs + [builder];
    }
    assert Flatten(outputs) == Kept(input, |input|, smallestSnapshot, scan.version, scan.level);
    KeptIsMerged(input, smallestSnapshot, scan.version, scan.level);
    MergedLeavesOne(Elements(input), smallestSnapshot, scan.version, scan.level, Flatten(outputs));
  }

  lemma InOrder(input: seq<Entry>, i: nat)
    requires Sorted(input) && i < |input|
    ensures 0 < i ==> !Less(input[i].key, input[i-1].key)
  {
    if 0 < i {
      assert Less(input[i-1].key, input[i].key);
      LessIsStrictTotalOrder(input[i-1].key, input[i].key, input[i-1].key);
    }
  }

  lemma UsersAscend(input: seq<Entry>, i: nat)
    requires Sorted(input) && i < |input|
    ensures 0 < i ==> input[i-1].key.user <= input[i].key.user
  {
    if 0 < i {
      assert Less(input[i-1].key, input[i].key);
    }
  }

  // ---- Reads across the merge, as sets of entries

  ghost function KeptSet(input: set<Entry>, ss: SequenceNumber, v: Version, level: nat): set<Entry> {
    set e | e in input && !Dropped(input, ss, v, level, e)
  }

  // The one way a read can change: the newest entry visible at the snapshot is a deletion
  // that is merged away, and it was hiding a put that is not part of the merge.
  ghost predicate Resurrects(rest: set<Entry>, input: set<Entry>, ss: SequenceNumber, v: Version, level: nat,
                             user: UserKey, gone: Entry, back: Entry) {
    && gone in input && gone.key.kind.Deletion?
    && IsNewest(rest + input, user, ss, gone)
    && IsBase(v, level, user)
    && IsNewest(rest, user, ss, back) && back.key.kind.Put?
  }

  // Dropping entries changes no read that is answered by what stays.
  lemma KeptAnswersSame(rest: set<Entry>, input: set<Entry>, ss: SequenceNumber, v: Version, level: nat,
                        user: UserKey, s: SequenceNumber, e: Entry)
    requires DistinctStamps(rest + input) && ss <= s
    requires IsNewest(rest + input, user, s, e)
    requires e in rest || !Dropped(input, ss, v, level, e)
    ensures Lookup(rest + KeptSet(input, ss, v, level), user, s) == Lookup(rest + input, user, s)
  {
    var after := rest + KeptSet(input, ss, v, level);
    assert after <= rest + input;
    assert IsNewest(after, user, s, e) by {
      assert forall x | x in Visible(after, user, s) :: x in Visible(rest + input, user, s);
      assert e in after;
    }
    LookupIs(rest + input, user, s, e);
    LookupIs(after, user, s, e);
  }

  // A dropped entry that answered a read was a deletion seen by every snapshot, and what the
  // read finds instead is the newest entry outside the merge.
  lemma DroppedAnswer(rest: set<Entry>, input: set<Entry>, ss: SequenceNumber, v: Version, level: nat,
                      user: UserKey, s: SequenceNumber, e: Entry)
    requires DistinctStamps(rest + input) && ss <= s && ss < MAX_SEQUENCE
    requires IsNewest(rest + input, user, s, e) && e in input && e !in rest
    requires Dropped(input, ss, v, level, e)
    ensures e.key.kind.Deletion? && IsNewest(rest + input, user, ss, e) && IsBase(v, level, user)
    ensures Visible(rest + KeptSet(input, ss, v, level), user, s) == Visible(rest, user, ss)
  {
    forall t | t in input && t.key.user == user && t.key.sequence <= ss
      ensures t.key.sequence <= e.key.sequence
    {
      assert t in Visible(rest + input, user, s);
    }
    assert e.key.kind.Deletion? && e.key.sequence <= ss && IsBase(v, level, user);
    assert forall x | x in Visible(rest + input, user, ss) :: x in Visible(rest + input, user, s);
    var after := rest + KeptSet(input, ss, v, level);
    forall x | x in Visible(after, user, s)
      ensures x in Visible(rest, user, ss)
    {
      assert x in Visible(rest + input, user, s) && x.key.sequence <= e.key.sequence;
      assert x in input && x.key.sequence < e.key.sequence ==> Dropped(input, ss, v, level, x);
      assert x in input && x.key.sequence == e.key.sequence ==> x == e;
    }
    assert forall x | x in Visible(rest, user, ss) :: x in Visible(after, user, s);
  }

  // Every read at every snapshot the merge knows of is unchanged, if and only if no user key
  // is resurrected.
  lemma MergePreservesReads(rest: set<Entry>, input: set<Entry>, ss: SequenceNumber, v: Version, level: nat)
    requires DistinctStamps(rest + input) && rest !! input && ss < MAX_SEQUENCE
    ensures (forall user, s | ss <= s :: Lookup(rest + KeptSet(input, ss, v, level), user, s) == Lookup(rest + input, user, s))
            <==> !exists user, gone, back :: Resurrects(rest, input, ss, v, level, user, gone, back)
  {
    var after := rest + KeptSet(input, ss, v, level);
    if user, gone, back :| Resurrects(rest, input, ss, v, level, user, gone, back) {
      ResurrectedReadChanges(rest, input, ss, v, level, user, gone, back);
    } else {
      forall user, s | ss <= s
        ensures Lookup(after, user, s) == Lookup(rest + input, user, s)
      {
        UnresurrectedReadStays(rest, input, ss, v, level, user, s);
      }
    }
  }

  lemma ResurrectedReadChanges(rest: set<Entry>, input: set<Entry>, ss: SequenceNumber, v: Version, level: nat,
                               user: UserKey, gone: Entry, back: Entry)
    requires DistinctStamps(rest + input) && rest !! input && ss < MAX_SEQUENCE
    requires Resurrects(rest, input, ss, v, level, user, gone, back)
    ensures Lookup(rest + input, user, ss) == None
    ensures Lookup(rest + KeptSet(input, ss, v, level), user, ss) == Some(back.value)
  {
    var after := rest + KeptSet(input, ss, v, level);
    LookupIs(rest + input, user, ss, gone);
    DroppedAnswer(rest, input, ss, v, level, user, ss, gone);
    assert IsNewest(after, user, ss, back);
    LookupIs(after, user, ss, back);
  }

  lemma UnresurrectedReadStays(rest: set<Entry>, input: set<Entry>, ss: SequenceNumber, v: Version, level: nat,
                               user: UserKey, s: SequenceNumber)
    requires DistinctStamps(rest + input) && rest !! input && ss <= s && ss < MAX_SEQUENCE
    requires !exists gone, back :: Resurrects(rest, input, ss, v, level, user, gone, back)
    ensures Lookup(rest + KeptSet(input, ss, v, level), user, s) == Lookup(rest + input, user, s)
  {
    var after := rest + KeptSet(input, ss, v, level);
    if Visible(rest + input, user, s) == {} {
      assert Visible(after, user, s) == {} by {
        assert forall x | x in Visible(after, user, s) :: x in Visible(rest + input, user, s);
      }
    } else {
      NewestExists(rest + input, user, s);
      var e :| IsNewest(rest + input, user, s, e);
      if e in rest || !Dropped(input, ss, v, level, e) {
        KeptAnswersSame(rest, input, ss, v, level, user, s, e);
      } else {
        DroppedAnswer(rest, input, ss, v, level, user, s, e);
        LookupIs(rest + input, user, s, e);
        if Visible(rest, user, ss) != {} {
          NewestExists(rest, user, ss);
          var back :| IsNewest(rest, user, ss, back);
          assert IsNewest(after, user, s, back);
          LookupIs(after, user, s, back);
          assert !Resurrects(rest, input, ss, v, level, user, e, back);
        }
      }
    }
  }
}
