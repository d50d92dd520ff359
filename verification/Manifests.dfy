// The manifest: a snapshot of a version followed by the edits made since, and its replay.

module Manifests {
  import opened InternalKeys
  import opened Versions
  import opened VersionEdits
  import opened LevelInvariants

  function NoFiles(): Version {
    [[], [], [], [], [], [], []]
  }

  // Applied one after another to no files, the edits lead to `v`.
  ghost predicate Reaches(manifest: seq<VersionEdit>, v: Version) {
    exists versions :: IsHistory(versions, manifest) && versions[0] == NoFiles() && versions[|manifest|] == v
  }

  // No edit puts a file number back on a level where an earlier one had put it.
  ghost predicate IsManifest(manifest: seq<VersionEdit>, v: Version) {
    && Reaches(manifest, v) && NeverReadded(NoFiles(), manifest)
    && forall j | 0 <= j < |manifest| :: WellFormedEdit(manifest[j])
  }

  // Some edit put this file on this level.
  ghost predicate Mentions(manifest: seq<VersionEdit>, level: nat, f: File) {
    exists j :: 0 <= j < |manifest| && (level, f) in manifest[j].added
  }

  // The edit adds nothing twice, and nothing that the manifest added to the same level before.
  ghost predicate IsNews(manifest: seq<VersionEdit>, edit: VersionEdit) {
    && WellFormedEdit(edit)
    && (forall a, b | a in edit.added && b in edit.added && a.0 == b.0 && a.1.number == b.1.number :: a == b)
    && forall a, f | a in edit.added && Mentions(manifest, a.0, f) :: f.number != a.1.number
  }

  lemma MentionsMore(manifest: seq<VersionEdit>, edit: VersionEdit, level: nat, f: File)
    ensures Mentions(manifest + [edit], level, f) <==> Mentions(manifest, level, f) || (level, f) in edit.added
  {
    var more := manifest + [edit];
    if Mentions(manifest, level, f) {
      var j :| 0 <= j < |manifest| && (level, f) in manifest[j].added;
      assert (level, f) in more[j].added;
    }
    if (level, f) in edit.added {
      assert (level, f) in more[|manifest|].added;
    }
  }

  lemma ReachesMore(manifest: seq<VersionEdit>, v: Version, edit: VersionEdit, v': Version)
    requires Reaches(manifest, v) && Saves(v, ApplyTo(NothingPending(), edit), v')
    ensures Reaches(manifest + [edit], v')
  {
    hide ApplyTo, Saves, OrderedVersion;
    var versions :| IsHistory(versions, manifest) && versions[0] == NoFiles() && versions[|manifest|] == v;
    var more, edits := versions + [v'], manifest + [edit];
    forall k | 0 <= k < |edits|
      ensures Saves(more[k], ApplyTo(NothingPending(), edits[k]), more[k+1])
    {
      if k < |manifest| {
        assert Saves(versions[k], ApplyTo(NothingPending(), manifest[k]), versions[k+1]);
      }
    }
    assert IsHistory(more, edits);
  }

  lemma NewsIsNotReadded(manifest: seq<VersionEdit>, edit: VersionEdit)
    requires NeverReadded(NoFiles(), manifest) && IsNews(manifest, edit)
    ensures NeverReadded(NoFiles(), manifest + [edit])
  {
    var more := manifest + [edit];
    forall k, a, j, b | 0 <= k < |more| && a in more[k].added && a.0 < NUM_LEVELS && 0 <= j <= k && b in more[j].added && b.0 == a.0 && b.1.number == a.1.number
      ensures j == k && b == a
    {
      if k == |manifest| && j < k {
        assert b == (b.0, b.1) && Mentions(manifest, b.0, b.1);
      }
    }
  }

  lemma ManifestGrows(manifest: seq<VersionEdit>, v: Version, edit: VersionEdit, v': Version)
    requires IsManifest(manifest, v) && IsNews(manifest, edit) && Saves(v, ApplyTo(NothingPending(), edit), v')
    ensures IsManifest(manifest + [edit], v')
  {
    hide ApplyTo, Saves, Reaches, NeverReadded;
    ReachesMore(manifest, v, edit, v');
    NewsIsNotReadded(manifest, edit);
  }

  // The manifest of a new database names no files.
  lemma EmptyManifest(edit: VersionEdit)
    requires edit == VersionEdit({}, [])
    ensures IsManifest([edit], NoFiles())
  {
    NothingIsManifest();
    assert [] + [edit] == [edit];
    ManifestGrows([], NoFiles(), edit, NoFiles());
  }

  // A file that the manifest mentions has an old number, which is not among the numbers taken
  // for files to come, and only ever moves down from where it was put.
  ghost predicate IsSettled(manifest: seq<VersionEdit>, v: Version, nextFile: nat, taken: set<nat>) {
    && (forall l: nat, f | Mentions(manifest, l, f) :: f.number < nextFile && f.number !in taken)
    && (forall l: nat, f, k, g | Mentions(manifest, l, f) && 0 <= k < NUM_LEVELS && g in v[k] && g.number == f.number :: l <= k)
  }

  ghost predicate ManifestOk(manifest: seq<VersionEdit>, v: Version, nextFile: nat, taken: set<nat>) {
    IsManifest(manifest, v) && IsSettled(manifest, v, nextFile, taken)
  }

  // Numbers may be given back, or taken anew.
  lemma NumbersTaken(manifest: seq<VersionEdit>, v: Version, nextFile: nat, taken: set<nat>, nextFile': nat, taken': set<nat>)
    requires ManifestOk(manifest, v, nextFile, taken) && nextFile <= nextFile'
    requires forall n | n in taken' :: n in taken || nextFile <= n
    ensures ManifestOk(manifest, v, nextFile', taken')
  {
    hide IsManifest, Mentions;
  }

  // What an edit adds lies where the edit puts it and not above an earlier place.
  ghost predicate MovesDown(manifest: seq<VersionEdit>, edit: VersionEdit, after: Version) {
    forall a | a in edit.added ::
      && (forall k, g | 0 <= k < NUM_LEVELS && g in after[k] && g.number == a.1.number :: a.0 <= k)
      && (forall l: nat, f | Mentions(manifest, l, f) && f.number == a.1.number :: l <= a.0)
  }

  lemma {:induction false} InsertedAreAdded(files: set<File>, adds: seq<(nat, File)>, level: nat)
    ensures Inserted(files, adds, level) <= files + AddsAt(adds, level)
  {
    if adds != [] {
      var init, last := adds[..|adds|-1], adds[|adds|-1];
      assert adds == init + [last];
      InsertedAreAdded(files, init, level);
    }
  }

  // Whatever an edit does, a file it leaves was there or is one it adds.
  lemma SavedFiles(v: Version, edit: VersionEdit, v': Version)
    requires Saves(v, ApplyTo(NothingPending(), edit), v')
    ensures forall l, f | 0 <= l < NUM_LEVELS && f in v'[l] :: f in v[l] || (l, f) in edit.added
  {
    forall l, f | 0 <= l < NUM_LEVELS && f in v'[l]
      ensures f in v[l] || (l, f) in edit.added
    {
      InsertedAreAdded({}, edit.added, l);
    }
  }

  lemma SettledGrows(manifest: seq<VersionEdit>, v: Version, nextFile: nat, taken: set<nat>, edit: VersionEdit, v': Version, taken': set<nat>)
    requires ManifestOk(manifest, v, nextFile, taken) && taken' <= taken
    requires IsNews(manifest, edit) && MovesDown(manifest, edit, v') && Saves(v, ApplyTo(NothingPending(), edit), v')
    requires forall a | a in edit.added :: a.1.number < nextFile && a.1.number !in taken'
    ensures ManifestOk(manifest + [edit], v', nextFile, taken')
  {
    SavedFiles(v, edit, v');
    ManifestGrows(manifest, v, edit, v');
    hide IsManifest, Mentions, IsNews, Saves, ApplyTo;
    var more := manifest + [edit];
    forall l: nat, f | Mentions(more, l, f)
      ensures f.number < nextFile && f.number !in taken'
      ensures forall k, g | 0 <= k < NUM_LEVELS && g in v'[k] && g.number == f.number :: l <= k
    {
      MentionsMore(manifest, edit, l, f);
      if Mentions(manifest, l, f) {
        forall k, g | 0 <= k < NUM_LEVELS && g in v'[k] && g.number == f.number
          ensures l <= k
        {
          if g !in v[k] {
            assert (k, g) in edit.added && (k, g).1.number == f.number;
          }
        }
      } else {
        assert (l, f) in edit.added && (l, f).1 == f;
      }
    }
  }

  // ---- A snapshot

  function FilesUpTo(v: Version, levels: nat): seq<(nat, File)>
    requires levels <= NUM_LEVELS
  {
    if levels == 0 then []
    else FilesUpTo(v, levels - 1) + seq(|v[levels-1]|, i requires 0 <= i < |v[levels-1]| => (levels - 1, v[levels-1][i]))
  }

  // One edit that adds every file of a version.
  function SnapshotEdit(v: Version): VersionEdit {
    VersionEdit({}, FilesUpTo(v, NUM_LEVELS))
  }

  lemma {:induction false} FilesUpToAre(v: Version, levels: nat)
    requires levels <= NUM_LEVELS
    ensures forall l: nat, f :: (l, f) in FilesUpTo(v, levels) <==> l < levels && f in v[l]
  {
    if levels != 0 {
      FilesUpToAre(v, levels - 1);
      var more := seq(|v[levels-1]|, i requires 0 <= i < |v[levels-1]| => (levels - 1, v[levels-1][i]));
      forall l: nat, f
        ensures (l, f) in more <==> l == levels - 1 && f in v[l]
      {
        if l == levels - 1 && f in v[l] {
          var i :| 0 <= i < |v[l]| && v[l][i] == f;
          assert more[i] == (l, f);
        }
      }
    }
  }

  // A manifest that starts with the snapshot of a version names its files, once each.
  lemma SnapshotIsManifest(v: Version)
    requires Sound(v)
    ensures IsManifest([SnapshotEdit(v)], v)
    ensures forall l: nat, f :: Mentions([SnapshotEdit(v)], l, f) <==> l < NUM_LEVELS && f in v[l]
  {
    hide IsNews, IsHistory, Saves, ApplyTo, Sound, IsManifest, NeverReadded;
    var edit := SnapshotEdit(v);
    FilesUpToAre(v, NUM_LEVELS);
    hide FilesUpTo;
    SnapshotMentions(edit);
    hide Mentions;
    SnapshotSaves(v, edit);
    SnapshotIsNews(v, edit);
    NothingIsManifest();
    ManifestGrows([], NoFiles(), edit, v);
    assert [] + [edit] == [edit];
  }

  lemma SnapshotMentions(edit: VersionEdit)
    ensures forall l: nat, f :: Mentions([edit], l, f) <==> (l, f) in edit.added
  {
    assert [] + [edit] == [edit];
    forall l: nat, f
      ensures Mentions([edit], l, f) <==> (l, f) in edit.added
    {
      MentionsMore([], edit, l, f);
    }
  }

  lemma NothingIsManifest()
    ensures IsManifest([], NoFiles())
  {
    assert IsHistory([NoFiles()], []);
  }

  lemma SnapshotIsNews(v: Version, edit: VersionEdit)
    requires Sound(v) && edit.deleted == {} && forall l: nat, f :: (l, f) in edit.added <==> l < NUM_LEVELS && f in v[l]
    ensures IsNews([], edit)
  {
    assert UniqueNumbers(v);
    hide Sound;
    forall a | a in edit.added
      ensures a.0 < NUM_LEVELS && a.1 in v[a.0]
    {
      assert a == (a.0, a.1);
    }
  }

  lemma SnapshotSaves(v: Version, edit: VersionEdit)
    requires Sound(v) && edit.deleted == {} && forall l: nat, f :: (l, f) in edit.added <==> l < NUM_LEVELS && f in v[l]
    ensures Saves(NoFiles(), ApplyTo(NothingPending(), edit), v)
  {
    hide Ordered, ApplyTo, UniqueNumbers, LevelsApart, Level0ByAge, LevelsByAge;
    forall l: nat | l < NUM_LEVELS
      ensures ApplyTo(NothingPending(), edit).added[l] == Members(v[l]) && ApplyTo(NothingPending(), edit).deleted[l] == {}
    {
      SnapshotLevel(v, edit, l);
    }
  }

  lemma SnapshotLevel(v: Version, edit: VersionEdit, l: nat)
    requires UniqueNumbers(v) && l < NUM_LEVELS
    requires edit.deleted == {} && forall k: nat, f :: (k, f) in edit.added <==> k < NUM_LEVELS && f in v[k]
    ensures ApplyTo(NothingPending(), edit).added[l] == Members(v[l]) && ApplyTo(NothingPending(), edit).deleted[l] == {}
  {
    forall a | a in edit.added
      ensures a.0 < NUM_LEVELS && a.1 in v[a.0]
    {
      assert a == (a.0, a.1);
    }
    OneOfANumber(v, l);
    hide UniqueNumbers;
    InsertedMembers({}, edit.added, l);
    SnapshotAdds(v, edit, l);
  }

  lemma OneOfANumber(v: Version, l: nat)
    requires UniqueNumbers(v) && l < NUM_LEVELS
    ensures forall f, g | f in v[l] && g in v[l] && f.number == g.number :: f == g
  {
  }

  lemma SnapshotAdds(v: Version, edit: VersionEdit, l: nat)
    requires l < NUM_LEVELS && forall k: nat, f :: (k, f) in edit.added <==> k < NUM_LEVELS && f in v[k]
    ensures AddsAt(edit.added, l) == Members(v[l])
  {
    forall f
      ensures f in AddsAt(edit.added, l) <==> f in v[l]
    {
      if f in AddsAt(edit.added, l) {
        var a :| a in edit.added && a.0 == l && a.1 == f;
        assert a == (l, f);
      }
      if f in v[l] {
        assert (l, f) in edit.added;
      }
    }
  }

  // ---- Replay

  lemma NoFilesIsOrdered()
    ensures OrderedVersion(NoFiles())
  {
    assert forall l | 0 <= l < NUM_LEVELS :: NoFiles()[l] == [];
  }

  // Reads a manifest into one builder: the version that its edits led to comes back.
  method ReplayManifest(manifest: seq<VersionEdit>, ghost v: Version) returns (recovered: Version)
    requires IsManifest(manifest, v)
    ensures recovered == v
  {
    hide ApplyTo, Saves, Reaches, NeverReadded, Ordered, IsHistory;
    NoFilesIsOrdered();
    var builder := new Builder(NoFiles());
    for i := 0 to |manifest|
      invariant builder.Valid() && builder.base == NoFiles()
      invariant fresh(builder.deletedFiles) && fresh(builder.addedFiles)
      invariant builder.State() == ApplyAll(NothingPending(), manifest[..i])
    {
      builder.Apply(manifest[i]);
      assert manifest[..i+1][..i] == manifest[..i];
    }
    assert manifest[..|manifest|] == manifest;
    recovered := builder.SaveTo();
    ReplayIs(manifest, v, recovered);
  }

  lemma ReplayIs(manifest: seq<VersionEdit>, v: Version, recovered: Version)
    requires IsManifest(manifest, v) && Saves(NoFiles(), ApplyAll(NothingPending(), manifest), recovered)
    ensures recovered == v
  {
    hide ApplyAll, Saves, ApplyTo, NeverReadded;
    var versions :| IsHistory(versions, manifest) && versions[0] == NoFiles() && versions[|manifest|] == v;
    ReplayEqualsHistory(versions, manifest, recovered);
  }
}
