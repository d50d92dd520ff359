// Version edits, and the builder that applies a sequence of them to a version.

module VersionEdits {
  import opened InternalKeys
  import opened Versions

  // The table files an edit removes (level, number) and adds (level, file).
  datatype VersionEdit = VersionEdit(deleted: set<(nat, nat)>, added: seq<(nat, File)>)

  predicate WellFormedEdit(edit: VersionEdit) {
    && (forall d | d in edit.deleted :: d.0 < NUM_LEVELS)
    && (forall a | a in edit.added :: a.0 < NUM_LEVELS)
  }

  // ---- The order of files within a level

  predicate BySmallestKey(f: File, g: File) {
    var r := Compare(Smallest(f), Smallest(g));
    if r != 0 then r < 0 else f.number < g.number
  }

  ghost predicate Ordered(files: seq<File>) {
    forall i, j | 0 <= i < j < |files| :: BySmallestKey(files[i], files[j])
  }

  lemma OrderIsStrict(a: File, b: File, c: File)
    ensures !BySmallestKey(a, a)
    ensures BySmallestKey(a, b) && BySmallestKey(b, c) ==> BySmallestKey(a, c)
    ensures BySmallestKey(a, b) ==> !BySmallestKey(b, a)
  {
    LessIsStrictTotalOrder(Smallest(a), Smallest(b), Smallest(c));
    LessIsStrictTotalOrder(Smallest(c), Smallest(b), Smallest(a));
    LessIsStrictTotalOrder(Smallest(a), Smallest(c), Smallest(a));
  }

  // Ordered levels with the same files are the same level.
  lemma {:induction false} OrderedIsUnique(a: seq<File>, b: seq<File>)
    requires Ordered(a) && Ordered(b) && forall f :: f in a <==> f in b
    ensures a == b
  {
    assert b != [] ==> b[0] in b;
    if a != [] {
      assert a[0] in b && b[0] in a;
      var i :| 0 <= i < |b| && b[i] == a[0];
      var j :| 0 <= j < |a| && a[j] == b[0];
      assert i == 0 by {
        OrderIsStrict(a[0], b[0], a[0]);
      }
      assert a == [a[0]] + a[1..] && b == [b[0]] + b[1..];
      forall f
        ensures f in a[1..] <==> f in b[1..]
      {
        OrderIsStrict(f, f, f);
        assert f in a <==> f == a[0] || f in a[1..];
        assert f in b <==> f == b[0] || f in b[1..];
      }
      OrderedIsUnique(a[1..], b[1..]);
    }
  }

  // ---- std::set insertion, and the merge of base and added files

  predicate Equivalent(f: File, g: File) {
    !BySmallestKey(f, g) && !BySmallestKey(g, f)
  }

  method InsertOrdered(files: seq<File>, f: File) returns (r: seq<File>)
    requires Ordered(files)
    ensures Ordered(r)
    ensures forall g :: g in r <==> g in files || (g == f && forall h | h in files :: !Equivalent(h, f))
  {
    var i := 0;
    while i < |files| && BySmallestKey(files[i], f)
      invariant 0 <= i <= |files|
      invariant forall k | 0 <= k < i :: BySmallestKey(files[k], f)
    {
      i := i + 1;
    }
    if i < |files| && !BySmallestKey(f, files[i]) {
      assert Equivalent(files[i], f) && files[i] in files;
      r := files;
    } else {
      r := files[..i] + [f] + files[i..];
      InsertedIsOrdered(files, i, f);
      assert files == files[..i] + files[i..];
    }
  }

  lemma InsertedIsOrdered(files: seq<File>, i: nat, f: File)
    requires Ordered(files) && i <= |files|
    requires forall k | 0 <= k < i :: BySmallestKey(files[k], f)
    requires i < |files| ==> BySmallestKey(f, files[i])
    ensures Ordered(files[..i] + [f] + files[i..])
    ensures forall h | h in files :: !Equivalent(h, f)
  {
    forall k | i <= k < |files|
      ensures BySmallestKey(f, files[k])
    {
      OrderIsStrict(f, files[i], files[k]);
    }
  }

  // Merges a base level with added files, leaving out deleted numbers.
  method SaveLevel(base: seq<File>, added: seq<File>, deleted: set<nat>) returns (files: seq<File>)
    requires Ordered(base) && Ordered(added)
    requires forall f, g | f in base && g in added :: !Equivalent(f, g)
    ensures Ordered(files)
    ensures forall f :: f in files <==> (f in base || f in added) && f.number !in deleted
  {
    files := [];
    var baseIter := 0;
    for addedIter := 0 to |added|
      invariant 0 <= baseIter <= |base|
      invariant Merged(files, base, baseIter, added, addedIter, deleted)
    {
      while baseIter < |base| && !BySmallestKey(added[addedIter], base[baseIter])
        invariant 0 <= baseIter <= |base|
        invariant Merged(files, base, baseIter, added, addedIter, deleted)
      {
        TakeBase(files, base, baseIter, added, addedIter, deleted);
        if base[baseIter].number !in deleted {
          files := files + [base[baseIter]];
        }
        baseIter := baseIter + 1;
      }
      TakeAdded(files, base, baseIter, added, addedIter, deleted);
      if added[addedIter].number !in deleted {
        files := files + [added[addedIter]];
      }
    }
    while baseIter < |base|
      invariant 0 <= baseIter <= |base|
      invariant Merged(files, base, baseIter, added, |added|, deleted)
    {
      TakeBase(files, base, baseIter, added, |added|, deleted);
      if base[baseIter].number !in deleted {
        files := files + [base[baseIter]];
      }
      baseIter := baseIter + 1;
    }
    assert base[..baseIter] == base && added[..|added|] == added;
  }

  // `files` is the ordered merge of what was taken, and precedes everything left.
  ghost predicate Merged(files: seq<File>, base: seq<File>, i: nat, added: seq<File>, j: nat, deleted: set<nat>) {
    && i <= |base| && j <= |added|
    && Ordered(files)
    && (forall f :: f in files <==> (f in base[..i] || f in added[..j]) && f.number !in deleted)
    && (forall f, k | f in files && i <= k < |base| :: BySmallestKey(f, base[k]))
    && (forall f, k | f in files && j <= k < |added| :: BySmallestKey(f, added[k]))
  }

  ghost function Taken(files: seq<File>, f: File, deleted: set<nat>): seq<File> {
    if f.number !in deleted then files + [f] else files
  }

  lemma TakeBase(files: seq<File>, base: seq<File>, i: nat, added: seq<File>, j: nat, deleted: set<nat>)
    requires Ordered(base) && Ordered(added)
    requires forall f, g | f in base && g in added :: !Equivalent(f, g)
    requires Merged(files, base, i, added, j, deleted) && i < |base|
    requires j < |added| ==> !BySmallestKey(added[j], base[i])
    ensures Merged(Taken(files, base[i], deleted), base, i + 1, added, j, deleted)
  {
    assert base[..i+1] == base[..i] + [base[i]];
    forall k | j <= k < |added|
      ensures BySmallestKey(base[i], added[k])
    {
      assert base[i] in base && added[j] in added && !Equivalent(base[i], added[j]);
      OrderIsStrict(base[i], added[j], added[k]);
    }
  }

  lemma TakeAdded(files: seq<File>, base: seq<File>, i: nat, added: seq<File>, j: nat, deleted: set<nat>)
    requires Ordered(base) && Ordered(added)
    requires Merged(files, base, i, added, j, deleted) && j < |added|
    requires i < |base| ==> BySmallestKey(added[j], base[i])
    ensures Merged(Taken(files, added[j], deleted), base, i, added, j + 1, deleted)
  {
    assert added[..j+1] == added[..j] + [added[j]];
    forall k | i <= k < |base|
      ensures BySmallestKey(added[j], base[k])
    {
      OrderIsStrict(added[j], base[i], base[k]);
    }
  }

  // ---- Edits as changes to what is pending

  // Per level: the numbers marked deleted, and the files added.
  datatype Pending = Pending(deleted: seq<set<nat>>, added: seq<set<File>>)

  ghost predicate WellFormedPending(p: Pending) {
    |p.deleted| == NUM_LEVELS == |p.added|
  }

  ghost function Members(files: seq<File>): set<File> {
    set f | f in files
  }

  ghost function AddsAt(adds: seq<(nat, File)>, level: nat): set<File> {
    set a | a in adds && a.0 == level :: a.1
  }

  ghost function NumbersAt(adds: seq<(nat, File)>, level: nat): set<nat> {
    set a | a in adds && a.0 == level :: a.1.number
  }

  ghost function DeletionsAt(deleted: set<(nat, nat)>, level: nat): set<nat> {
    set d | d in deleted && d.0 == level :: d.1
  }

  // A file equivalent to one already there is not added again.
  ghost function WithFile(files: set<File>, f: File): set<File> {
    if forall h | h in files :: !Equivalent(h, f) then files + {f} else files
  }

  ghost function Inserted(files: set<File>, adds: seq<(nat, File)>, level: nat): set<File> {
    if adds == [] then files
    else
      var before, last := Inserted(files, adds[..|adds|-1], level), adds[|adds|-1];
      if last.0 == level then WithFile(before, last.1) else before
  }

  lemma OneMoreAdd(adds: seq<(nat, File)>, i: nat)
    requires i < |adds|
    ensures forall files, l ::
              Inserted(files, adds[..i+1], l) ==
              if adds[i].0 == l then WithFile(Inserted(files, adds[..i], l), adds[i].1) else Inserted(files, adds[..i], l)
    ensures forall l ::
              NumbersAt(adds[..i+1], l) == NumbersAt(adds[..i], l) + if adds[i].0 == l then {adds[i].1.number} else {}
  {
    assert adds[..i+1] == adds[..i] + [adds[i]] && adds[..i+1][..i] == adds[..i];
    hide WithFile;
  }

  ghost function ApplyTo(p: Pending, edit: VersionEdit): (r: Pending)
    requires WellFormedPending(p)
    ensures WellFormedPending(r)
  {
    Pending(seq(NUM_LEVELS, l requires 0 <= l < NUM_LEVELS => p.deleted[l] + DeletionsAt(edit.deleted, l) - NumbersAt(edit.added, l)),
            seq(NUM_LEVELS, l requires 0 <= l < NUM_LEVELS => Inserted(p.added[l], edit.added, l)))
  }

  ghost function NothingPending(): (r: Pending)
    ensures WellFormedPending(r)
  {
    Pending(seq(NUM_LEVELS, _ => {}), seq(NUM_LEVELS, _ => {}))
  }

  ghost function ApplyAll(p: Pending, edits: seq<VersionEdit>): (r: Pending)
    requires WellFormedPending(p)
    ensures WellFormedPending(r)
  {
    if edits == [] then p else ApplyTo(ApplyAll(p, edits[..|edits|-1]), edits[|edits|-1])
  }

  // `v` is `base` with what is pending applied.
  ghost predicate Saves(base: Version, p: Pending, v: Version)
    requires WellFormedPending(p)
  {
    forall l | 0 <= l < NUM_LEVELS ::
      && Ordered(v[l])
      && forall f :: f in v[l] <==> (f in base[l] || f in p.added[l]) && f.number !in p.deleted[l]
  }

  ghost predicate OrderedVersion(v: Version) {
    forall l | 0 <= l < NUM_LEVELS :: Ordered(v[l])
  }

  // ---- The builder

  class Builder {
    const base: Version
    const deletedFiles: array<set<nat>>
    const addedFiles: array<seq<File>>

    ghost predicate Valid()
      reads deletedFiles, addedFiles
    {
      && deletedFiles.Length == NUM_LEVELS == addedFiles.Length
      && OrderedVersion(base)
      && forall l | 0 <= l < NUM_LEVELS :: Ordered(addedFiles[l])
    }

    ghost function State(): (p: Pending)
      requires Valid()
      reads deletedFiles, addedFiles
      ensures WellFormedPending(p)
    {
      Pending(deletedFiles[..], seq(NUM_LEVELS, l requires 0 <= l < NUM_LEVELS reads addedFiles requires addedFiles.Length == NUM_LEVELS => Members(addedFiles[l])))
    }

    constructor (base: Version)
      requires OrderedVersion(base)
      ensures Valid() && this.base == base && fresh(deletedFiles) && fresh(addedFiles)
      ensures State() == NothingPending()
    {
      this.base := base;
      deletedFiles := new set<nat>[NUM_LEVELS](_ => {});
      addedFiles := new seq<File>[NUM_LEVELS](_ => []);
      new;
      assert State().deleted == NothingPending().deleted;
      assert forall l | 0 <= l < NUM_LEVELS :: addedFiles[l] == [] && State().added[l] == {};
      assert State().added == NothingPending().added;
    }

    method MarkDeleted(deleted: set<(nat, nat)>)
      requires Valid() && forall d | d in deleted :: d.0 < NUM_LEVELS
      modifies deletedFiles
      ensures Valid()
      ensures forall l | 0 <= l < NUM_LEVELS :: deletedFiles[l] == old(deletedFiles[l]) + DeletionsAt(deleted, l)
    {
      var rest := deleted;
      while rest != {}
        invariant rest <= deleted
        invariant forall l | 0 <= l < NUM_LEVELS :: deletedFiles[l] == old(deletedFiles[l]) + DeletionsAt(deleted - rest, l)
      {
        var d :| d in rest;
        deletedFiles[d.0] := deletedFiles[d.0] + {d.1};
        rest := rest - {d};
      }
      assert deleted - {} == deleted;
    }

    method AddFiles(added: seq<(nat, File)>)
      requires Valid() && forall a | a in added :: a.0 < NUM_LEVELS
      modifies deletedFiles, addedFiles
      ensures Valid()
      ensures forall l | 0 <= l < NUM_LEVELS :: deletedFiles[l] == old(deletedFiles[l]) - NumbersAt(added, l)
      ensures forall l | 0 <= l < NUM_LEVELS :: Members(addedFiles[l]) == Inserted(old(Members(addedFiles[l])), added, l)
    {
      for i := 0 to |added|
        invariant Valid()
        invariant forall l | 0 <= l < NUM_LEVELS :: deletedFiles[l] == old(deletedFiles[l]) - NumbersAt(added[..i], l)
        invariant forall l | 0 <= l < NUM_LEVELS :: Members(addedFiles[l]) == Inserted(old(Members(addedFiles[l])), added[..i], l)
      {
        hide Ordered, Inserted, NumbersAt, Members, Equivalent, OrderedVersion;
        OneMoreAdd(added, i);
        AddFile(added[i].0, added[i].1);
      }
      assert added[..|added|] == added;
    }

    method AddFile(level: nat, f: File)
      requires Valid() && level < NUM_LEVELS
      modifies deletedFiles, addedFiles
      ensures Valid()
      ensures forall l | 0 <= l < NUM_LEVELS :: deletedFiles[l] == if l == level then old(deletedFiles[l]) - {f.number} else old(deletedFiles[l])
      ensures forall l | 0 <= l < NUM_LEVELS ::
                Members(addedFiles[l]) == if l == level then WithFile(old(Members(addedFiles[l])), f) else old(Members(addedFiles[l]))
    {
      deletedFiles[level] := deletedFiles[level] - {f.number};
      var inserted := InsertOrdered(addedFiles[level], f);
      addedFiles[level] := inserted;
    }

    method Apply(edit: VersionEdit)
      requires Valid() && WellFormedEdit(edit)
      modifies deletedFiles, addedFiles
      ensures Valid() && State() == ApplyTo(old(State()), edit)
    {
      MarkDeleted(edit.deleted);
      AddFiles(edit.added);
      assert State().deleted == ApplyTo(old(State()), edit).deleted;
      assert State().added == ApplyTo(old(State()), edit).added;
    }

    method SaveTo() returns (v: Version)
      requires Valid()
      requires forall l, f, g | 0 <= l < NUM_LEVELS && f in base[l] && g in addedFiles[l] :: !Equivalent(f, g)
      ensures Saves(base, State(), v)
    {
      var levels: seq<seq<File>> := [];
      for level := 0 to NUM_LEVELS
        invariant |levels| == level
        invariant forall l | 0 <= l < level :: Ordered(levels[l])
        invariant forall l | 0 <= l < level :: forall f ::
                    f in levels[l] <==> (f in base[l] || f in addedFiles[l]) && f.number !in deletedFiles[l]
      {
        var files := SaveLevel(base[level], addedFiles[level], deletedFiles[level]);
        levels := levels + [files];
      }
      v := levels;
    }
  }

  // ---- One builder over many edits, or one version after another

  // No (level, number) pair is added twice, counting the base.
  ghost predicate NeverReadded(base: Version, edits: seq<VersionEdit>) {
    forall k, a | 0 <= k < |edits| && a in edits[k].added && a.0 < NUM_LEVELS ::
      && (forall f | f in base[a.0] :: f.number != a.1.number)
      && (forall j, b | 0 <= j <= k && b in edits[j].added && b.0 == a.0 && b.1.number == a.1.number :: j == k && b == a)
  }

  // A run of versions, each the previous one with the next edit applied on its own.
  ghost predicate IsHistory(versions: seq<Version>, edits: seq<VersionEdit>) {
    && |versions| == |edits| + 1
    && OrderedVersion(versions[0])
    && forall k | 0 <= k < |edits| :: Saves(versions[k], ApplyTo(NothingPending(), edits[k]), versions[k+1])
  }

  ghost predicate AddedBy(edits: seq<VersionEdit>, k: nat, level: nat, f: File)
    requires k <= |edits|
  {
    exists j :: 0 <= j < k && (level, f) in edits[j].added
  }

  lemma {:induction false} InsertedMembers(files: set<File>, adds: seq<(nat, File)>, level: nat)
    requires forall a | a in adds && a.0 == level :: forall f | f in files :: f.number != a.1.number
    requires forall a, b | a in adds && b in adds && a.0 == level == b.0 && a.1.number == b.1.number :: a == b
    ensures Inserted(files, adds, level) == files + AddsAt(adds, level)
  {
    if adds != [] {
      var init, last := adds[..|adds|-1], adds[|adds|-1];
      assert adds == init + [last];
      InsertedMembers(files, init, level);
      if last.0 == level {
        var before := Inserted(files, init, level);
        forall h | h in before && Equivalent(h, last.1)
          ensures h == last.1
        {
          LessIsStrictTotalOrder(Smallest(h), Smallest(last.1), Smallest(h));
          assert h.number == last.1.number;
          assert h in AddsAt(init, level);
          assert (level, h) in adds && last in adds;
        }
        assert AddsAt(adds, level) == AddsAt(init, level) + {last.1};
      } else {
        assert AddsAt(adds, level) == AddsAt(init, level);
      }
    }
  }

  // What a builder holds after `k` edits.
  lemma {:induction false} PendingComesFromEdits(base: Version, edits: seq<VersionEdit>, k: nat)
    requires NeverReadded(base, edits) && k <= |edits|
    ensures forall l, f | 0 <= l < NUM_LEVELS ::
              f in ApplyAll(NothingPending(), edits[..k]).added[l] <==> AddedBy(edits, k, l, f)
  {
    hide Inserted, AddedBy, NeverReadded;
    if k == 0 {
      NothingAdded(edits);
    } else {
      PendingComesFromEdits(base, edits, k - 1);
      assert edits[..k][..k-1] == edits[..k-1];
      forall l, f | 0 <= l < NUM_LEVELS
        ensures f in ApplyAll(NothingPending(), edits[..k]).added[l] <==> AddedBy(edits, k, l, f)
      {
        OneMoreAdds(base, edits, k, ApplyAll(NothingPending(), edits[..k-1]), l, f);
      }
    }
  }

  lemma NothingAdded(edits: seq<VersionEdit>)
    ensures forall l, f | 0 <= l < NUM_LEVELS :: f !in ApplyAll(NothingPending(), edits[..0]).added[l] && !AddedBy(edits, 0, l, f)
  {
    assert edits[..0] == [];
  }

  lemma OneMoreAdds(base: Version, edits: seq<VersionEdit>, k: nat, p: Pending, l: nat, f: File)
    requires NeverReadded(base, edits) && 0 < k <= |edits| && l < NUM_LEVELS && WellFormedPending(p)
    requires forall g :: g in p.added[l] <==> AddedBy(edits, k - 1, l, g)
    ensures f in ApplyTo(p, edits[k-1]).added[l] <==> AddedBy(edits, k, l, f)
  {
    forall a, g | a in edits[k-1].added && a.0 == l && g in p.added[l]
      ensures g.number != a.1.number
    {
      var j :| 0 <= j < k - 1 && (l, g) in edits[j].added;
    }
    InsertedMembers(p.added[l], edits[k-1].added, l);
    assert AddedBy(edits, k, l, f) <==> AddedBy(edits, k - 1, l, f) || (l, f) in edits[k-1].added;
  }

  lemma {:induction false} HistoryMembers(versions: seq<Version>, edits: seq<VersionEdit>, k: nat, l: nat)
    requires IsHistory(versions, edits) && NeverReadded(versions[0], edits) && k <= |edits| && l < NUM_LEVELS
    ensures var p := ApplyAll(NothingPending(), edits[..k]);
            forall f :: f in versions[k][l] <==> (f in versions[0][l] || f in p.added[l]) && f.number !in p.deleted[l]
  {
    if k != 0 {
      HistoryMembers(versions, edits, k - 1, l);
      PendingComesFromEdits(versions[0], edits, k - 1);
      var p, e := ApplyAll(NothingPending(), edits[..k-1]), edits[k-1];
      assert edits[..k][..k-1] == edits[..k-1];
      var one, all := ApplyTo(NothingPending(), e), ApplyTo(p, e);
      InsertedMembers({}, e.added, l);
      forall a, g | a in e.added && a.0 == l && g in p.added[l]
        ensures g.number != a.1.number
      {
        var j :| 0 <= j < k - 1 && (l, g) in edits[j].added;
      }
      InsertedMembers(p.added[l], e.added, l);
      assert one.deleted[l] == DeletionsAt(e.deleted, l) - NumbersAt(e.added, l);
      forall f | f in versions[0][l] || f in p.added[l]
        ensures f.number !in NumbersAt(e.added, l)
      {
      }
      forall f | f in AddsAt(e.added, l)
        ensures f.number in NumbersAt(e.added, l)
      {
        assert (l, f) in e.added;
      }
    } else {
      assert edits[..0] == [];
    }
  }

  // Replaying every edit into one builder gives the levels that applying them one version at
  // a time gave.
  lemma ReplayEqualsHistory(versions: seq<Version>, edits: seq<VersionEdit>, v: Version)
    requires IsHistory(versions, edits) && NeverReadded(versions[0], edits)
    requires Saves(versions[0], ApplyAll(NothingPending(), edits), v)
    ensures v == versions[|edits|]
  {
    var n := |edits|;
    assert edits[..n] == edits;
    assert OrderedVersion(versions[n]) by {
      assert 0 < n ==> Saves(versions[n-1], ApplyTo(NothingPending(), edits[n-1]), versions[n]);
    }
    forall l | 0 <= l < NUM_LEVELS
      ensures v[l] == versions[n][l]
    {
      HistoryMembers(versions, edits, n, l);
      OrderedIsUnique(v[l], versions[n][l]);
    }
  }
}
