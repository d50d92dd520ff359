// Every run of the database keeps what is needed to recover from a crash, and recovery
// gives back everything that was logged.

module Recovery {
  import opened InternalKeys
  import opened Versions
  import opened VersionEdits
  import opened CompactionInputs
  import opened Compactions
  import opened LevelInvariants
  import opened MergeResults
  import opened Database
  import opened Manifests
  import opened Durability

  // ---- Reads of sets that grow by newer entries

  // Newer entries added to two sets that read the same leave them reading the same.
  lemma NewerAddedReadsSame(a: set<Entry>, b: set<Entry>, more: set<Entry>, user: UserKey, s: SequenceNumber)
    requires DistinctStamps(a + more) && DistinctStamps(b + more)
    requires forall x, e | x in a + b && e in more :: x.key.sequence < e.key.sequence
    requires Lookup(a, user, s) == Lookup(b, user, s)
    ensures Lookup(a + more, user, s) == Lookup(b + more, user, s)
  {
    if Visible(more, user, s) != {} {
      NewestExists(more, user, s);
      var n :| IsNewest(more, user, s, n);
      assert IsNewest(a + more, user, s, n) && IsNewest(b + more, user, s, n);
      LookupIs(a + more, user, s, n);
      LookupIs(b + more, user, s, n);
    } else {
      assert Visible(a + more, user, s) == Visible(a, user, s) + Visible(more, user, s);
      assert Visible(b + more, user, s) == Visible(b, user, s) + Visible(more, user, s);
      SubsetIsDistinct(a, a + more);
      SubsetIsDistinct(b, b + more);
      SameVisibleReadsSame(a, a + more, user, s);
      SameVisibleReadsSame(b, b + more, user, s);
    }
  }

  lemma BatchIsNewer(batch: seq<Entry>, last: nat, logged: set<Entry>)
    requires IsBatch(batch, last) && forall x | x in logged :: x.key.sequence <= last
    ensures forall x, e | x in logged && e in Elements(batch) :: x.key.sequence < e.key.sequence
    ensures forall e | e in Elements(batch) :: last < e.key.sequence <= last + |batch|
  {
  }

  lemma BatchIsDense(batch: seq<Entry>, last: nat, logged: set<Entry>)
    requires IsBatch(batch, last) && IsDense(logged, last)
    ensures IsDense(logged + Elements(batch), last + |batch|)
  {
    BatchIsNewer(batch, last, logged);
    var all := logged + Elements(batch);
    forall n | 1 <= n <= last + |batch|
      ensures Numbered(all, n)
    {
      if n <= last {
        assert Numbered(logged, n);
        var e :| e in logged && e.key.sequence == n;
        assert e in all;
      } else {
        var e := batch[n - last - 1];
        assert e in batch && e in all;
      }
    }
  }

  // ---- The disk on its own

  ghost predicate ReadsAlike(a: set<Entry>, b: set<Entry>, horizon: SequenceNumber) {
    forall user, s | horizon <= s :: Lookup(a, user, s) == Lookup(b, user, s)
  }

  lemma NewerAddedReadsAlike(a: set<Entry>, b: set<Entry>, more: set<Entry>, horizon: SequenceNumber)
    requires a <= b && DistinctStamps(b + more)
    requires forall x, e | x in b && e in more :: x.key.sequence < e.key.sequence
    requires ReadsAlike(a, b, horizon)
    ensures ReadsAlike(a + more, b + more, horizon)
  {
    SubsetIsDistinct(a + more, b + more);
    hide Lookup, DistinctStamps;
    forall user, s | horizon <= s
      ensures Lookup(a + more, user, s) == Lookup(b + more, user, s)
    {
      NewerAddedReadsSame(a, b, more, user, s);
    }
  }

  lemma HigherHorizonKeepsDisk(d: Disk, logged: set<Entry>, total: nat, h: SequenceNumber, h': SequenceNumber)
    requires DiskOk(d, logged, total, h) && h <= h' <= total
    ensures DiskOk(d, logged, total, h')
  {
    hide Lookup, Sound, IsDense, NumbersBelow;
  }

  lemma AppendToLog(d: Disk, log: nat, batch: seq<Entry>)
    requires log in d.logs && d.logNumber <= log
    ensures LogEntries(d.(logs := d.logs[log := d.logs[log] + batch])) == LogEntries(d) + Elements(batch)
  {
    var d' := d.(logs := d.logs[log := d.logs[log] + batch]);
    forall e
      ensures e in LogEntries(d') <==> e in LogEntries(d) || e in batch
    {
      if e in LogEntries(d) {
        var k :| k in d.logs && d.logNumber <= k && e in d.logs[k];
        assert k in d'.logs && e in d'.logs[k];
      }
      if e in batch {
        assert log in d'.logs && e in d'.logs[log];
      }
    }
  }

  lemma AppendKeepsOrder(d: Disk, total: nat, log: nat, batch: seq<Entry>)
    requires LogsInOrder(d.logs, d.logNumber) && log in d.logs && d.logNumber <= log && forall k | k in d.logs :: k <= log
    requires IsBatch(batch, total) && forall e | e in LogEntries(d) :: e.key.sequence <= total
    ensures LogsInOrder(d.logs[log := d.logs[log] + batch], d.logNumber)
  {
    forall k, e | k in d.logs && d.logNumber <= k && e in d.logs[k]
      ensures e.key.sequence <= total
    {
      assert e in LogEntries(d);
    }
    AppendIsRising(d.logs[log], batch, total);
    hide Rising, IsBatch;
    forall k | k in d.logs && d.logNumber <= k < log
      ensures AllOlder(d.logs[k], d.logs[log] + batch)
    {
      assert AllOlder(d.logs[k], d.logs[log]);
      BatchIsNewer(batch, total, Elements(d.logs[k]));
    }
  }

  lemma AppendIsRising(es: seq<Entry>, batch: seq<Entry>, total: nat)
    requires Rising(es) && IsBatch(batch, total) && forall e | e in es :: e.key.sequence <= total
    ensures Rising(es + batch)
  {
    assert forall i | 0 <= i < |es| :: es[i] in es;
  }

  // Appending a record to a log that recovery would replay.
  lemma AppendKeepsDisk(d: Disk, logged: set<Entry>, total: nat, h: SequenceNumber, log: nat, batch: seq<Entry>)
    requires DiskOk(d, logged, total, h) && log in d.logs && d.logNumber <= log && forall k | k in d.logs :: k <= log
    requires IsBatch(batch, total)
    ensures DiskOk(d.(logs := d.logs[log := d.logs[log] + batch]), logged + Elements(batch), total + |batch|, h)
  {
    var d' := d.(logs := d.logs[log := d.logs[log] + batch]);
    AppendToLog(d, log, batch);
    assert forall x | x in logged :: x.key.sequence <= total;
    BatchIsNewer(batch, total, logged);
    BatchIsDense(batch, total, logged);
    assert LogsInOrder(d'.logs, d'.logNumber) by {
      AppendKeepsOrder(d, total, log, batch);
    }
    hide LogsInOrder;
    assert DistinctStamps(logged + Elements(batch));
    hide Lookup, Sound, NumbersBelow, LogEntries, IsDense, DistinctStamps, IsBatch;
    assert |batch| == 0 || batch[0] in Elements(batch);
    NewerAddedReadsAlike(Recoverable(d), logged, Elements(batch), h);
    assert Recoverable(d') == Recoverable(d) + Elements(batch);
  }

  // A new empty log changes nothing that is replayed.
  lemma NewLogKeepsDisk(d: Disk, logged: set<Entry>, total: nat, h: SequenceNumber, log: nat)
    requires DiskOk(d, logged, total, h) && log !in d.logs
    ensures DiskOk(d.(logs := d.logs[log := []]), logged, total, h)
  {
    var d' := d.(logs := d.logs[log := []]);
    assert LogEntries(d') == LogEntries(d) by {
      forall e | e in LogEntries(d)
        ensures e in LogEntries(d')
      {
        var k :| k in d.logs && d.logNumber <= k && e in d.logs[k];
        assert k in d'.logs;
      }
    }
    hide Lookup, Sound, NumbersBelow, IsDense, LogEntries;
    assert Recoverable(d') == Recoverable(d);
  }

  lemma DroppedLogKeepsDisk(d: Disk, logged: set<Entry>, total: nat, h: SequenceNumber, log: nat)
    requires DiskOk(d, logged, total, h) && log < d.logNumber
    ensures DiskOk(d.(logs := map k | k in d.logs && k != log :: d.logs[k]), logged, total, h)
  {
    var d' := d.(logs := map k | k in d.logs && k != log :: d.logs[k]);
    forall e | e in LogEntries(d)
      ensures e in LogEntries(d')
    {
      var k :| k in d.logs && d.logNumber <= k && e in d.logs[k];
      assert k in d'.logs;
    }
    hide Lookup, Sound, NumbersBelow, IsDense, LogEntries;
    assert Recoverable(d') == Recoverable(d);
  }

  lemma OtherTablesKeepDisk(d: Disk, logged: set<Entry>, total: nat, h: SequenceNumber, tables: set<nat>)
    requires DiskOk(d, logged, total, h) && Numbers(d.version) <= tables
    ensures DiskOk(d.(tables := tables), logged, total, h)
  {
    var d' := d.(tables := tables);
    assert LogEntries(d') == LogEntries(d);
    hide Lookup, Sound, NumbersBelow, IsDense, LogEntries;
    assert Recoverable(d') == Recoverable(d);
  }

  // ---- What the logs hold

  lemma LogsHoldMemTables(d: Disk, log: nat, immLog: nat, db: State, pending: seq<Entry>, flushed: bool)
    requires LogsOk(d.logs, d.logNumber, log, immLog, db, pending, flushed)
    ensures LogEntries(d) == Elements(db.mem) + Elements(pending) + if flushed then {} else Elements(ImmEntries(db))
  {
    forall e
      ensures e in LogEntries(d) <==> e in Elements(d.logs[log]) || (!flushed && e in Elements(ImmEntries(db)))
    {
      if e in LogEntries(d) {
        var k :| k in d.logs && d.logNumber <= k && e in d.logs[k];
        assert k == log || (k == immLog && db.imm.Some? && !flushed);
        assert e in Elements(d.logs[k]);
      }
      if !flushed && e in Elements(ImmEntries(db)) {
        assert e in Elements(d.logs[immLog]);
      }
    }
  }

  // ---- An install that began can finish

  // `b` differs from `a` in its memtables, numbers and snapshots only.
  ghost predicate SameTables(a: State, b: State) {
    b.version == a.version && b.running == a.running && b.pendingOutputs == a.pendingOutputs && a.nextFile <= b.nextFile
  }

  lemma InstallIsStable(r: Run, r': Run, step: Step, after: Version)
    requires step.Flush? || step.Move? || step.FinishMerge?
    requires NextRun(r, step, Installed(r, step, after))
    requires SameTables(r.db, r'.db) && (step.Flush? ==> r'.db.imm == r.db.imm)
    ensures NextRun(r', step, Installed(r', step, after))
  {
    hide Saves, ApplyTo, WellChosen, IsMergeOutput, Sorted, FlushFits, NumbersBelow, MergeEdit, MoveEdit, FlushEdit;
  }

  lemma LaterInstall(install: Option<Install>, r: Run, log: nat, logNumber: nat, version: Version, first: nat, r': Run, log': nat)
    requires InstallOk(install, r, log, logNumber, version, first)
    requires if install.Some? then SameTables(r.db, r'.db) else r'.db.version == r.db.version
    requires FlushedOnDisk(install) ==> r'.db.imm == r.db.imm && log' == log
    ensures InstallOk(install, r', log', logNumber, version, first)
  {
    hide NextRun, SameTables;
    if install.Some? {
      InstallIsStable(r, r', install.value.step, install.value.after);
    }
  }

  lemma SameFilesInUse(s: State, s': State, pinned: set<Version>, tables: set<nat>)
    requires TablesOk(s, pinned, tables) && SameTables(s, s')
    ensures TablesOk(s', pinned, tables)
  {
  }

  // ---- The background tasks

  // What clients do leaves background tasks what they have in hand.
  lemma TasksAreSteady(bg: Background, install: Option<Install>, db: State, tables: set<nat>, db': State, tables': set<nat>)
    requires TasksOk(bg, install, db, tables) && SameTables(db, db') && tables <= tables'
    requires db.imm.Some? ==> db'.imm == db.imm
    ensures TasksOk(bg, install, db', tables')
  {
    hide NumbersBelow;
  }

  lemma TaskPhase(bg: Background, task: nat, install: Option<Install>, db: State, tables: set<nat>)
    requires TasksOk(bg, install, db, tables) && task in bg.tasks
    ensures PhaseOk(bg.tasks[task], bg.flushOutputs, install, db, tables)
    ensures bg.scheduled && bg.tasks == map[task := bg.tasks[task]]
  {
    hide PhaseOk;
  }

  // The one task enters another phase.
  lemma PhaseEntered(bg: Background, task: nat, phase: Phase, bg': Background, install: Option<Install>, db: State, tables: set<nat>)
    requires bg.scheduled && (forall i | i in bg.tasks :: i == task)
    requires bg' == EnterPhase(bg, task, phase).(flushOutputs := bg'.flushOutputs)
    requires PhaseOk(phase, bg'.flushOutputs, install, db, tables)
    ensures TasksOk(bg', install, db, tables)
  {
    hide PhaseOk;
    assert task in bg'.tasks;
  }

  lemma ScheduleKeeps(s: Store, task: nat, s': Store)
    requires StoreOk(s) && ScheduleAction(s, task, s')
    ensures StoreOk(s')
  {
    hide Inv, DiskOk, InstallOk, LogsOk, PendingOk, TablesOk, NumbersBelow, ManifestOk, Reserved;
    assert s.bg.tasks == map[];
    PhaseEntered(s.bg.(scheduled := true), task, Choosing, s'.bg, s.install, s.run.db, s.disk.tables);
    TaskReserves(s.bg, task, s'.bg, s.install, s.run.db.pendingOutputs);
    SameManifest(s, s');
  }

  lemma EndTaskKeeps(s: Store, task: nat, s': Store)
    requires StoreOk(s) && EndTaskAction(s, task, s')
    ensures StoreOk(s')
  {
    hide Inv, DiskOk, InstallOk, LogsOk, PendingOk, TablesOk, NumbersBelow, ManifestOk, Reserved;
    TaskPhase(s.bg, task, s.install, s.run.db, s.disk.tables);
    assert s'.bg.tasks == map[];
    TaskReserves(s.bg, task, s'.bg, s.install, s.run.db.pendingOutputs);
    SameManifest(s, s');
  }

  lemma ResumeKeeps(s: Store, task: nat, s': Store)
    requires StoreOk(s) && ResumeAction(s, task, s')
    ensures StoreOk(s')
  {
    hide Inv, DiskOk, InstallOk, LogsOk, PendingOk, TablesOk, NumbersBelow, ManifestOk, Reserved;
    TaskPhase(s.bg, task, s.install, s.run.db, s.disk.tables);
    PhaseEntered(s.bg, task, Merging, s'.bg, s.install, s.run.db, s.disk.tables);
    TaskReserves(s.bg, task, s'.bg, s.install, s.run.db.pendingOutputs);
    SameManifest(s, s');
  }

  lemma WriteTableKeeps(s: Store, task: nat, s': Store)
    requires StoreOk(s) && WriteTableAction(s, task, s')
    ensures StoreOk(s')
  {
    hide Inv, DiskOk, InstallOk, LogsOk, PendingOk, TablesOk, NumbersBelow, ManifestOk, Reserved;
    TaskPhase(s.bg, task, s.install, s.run.db, s.disk.tables);
    PhaseEntered(s.bg, task, s'.bg.tasks[task], s'.bg, s.install, s.run.db, s'.disk.tables);
    MoreTablesInUse(s.run.db, s.pinned, s.disk.tables, s'.disk.tables);
    OnDiskTables(s.disk, s.logged, Total(s.run.db, s.pending), s.run.horizon);
    OtherTablesKeepDisk(s.disk, s.logged, Total(s.run.db, s.pending), s.run.horizon, s'.disk.tables);
    TaskReserves(s.bg, task, s'.bg, s.install, s.run.db.pendingOutputs);
    SameManifest(s, s');
  }

  lemma EndBuildKeeps(s: Store, task: nat, s': Store)
    requires StoreOk(s) && EndBuildAction(s, task, s')
    ensures StoreOk(s')
  {
    hide Inv, DiskOk, InstallOk, LogsOk, PendingOk, TablesOk, NumbersBelow, ManifestOk, Reserved;
    TaskPhase(s.bg, task, s.install, s.run.db, s.disk.tables);
    PhaseEntered(s.bg, task, s'.bg.tasks[task], s'.bg, s.install, s.run.db, s.disk.tables);
    TaskReserves(s.bg, task, s'.bg, s.install, s.run.db.pendingOutputs);
    SameManifest(s, s');
  }

  // ---- The manifest

  // Numbers are taken from the next one on, or given back.
  ghost predicate TakesFresh(s: Store, s': Store) {
    && s.run.db.nextFile <= s'.run.db.nextFile
    && forall n | n in Reserved(s'.bg, s'.install, s'.run.db.pendingOutputs) ::
         n in Reserved(s.bg, s.install, s.run.db.pendingOutputs) || s.run.db.nextFile <= n
  }

  lemma SameManifest(s: Store, s': Store)
    requires ManifestOk(s.disk.manifest, s.disk.version, s.run.db.nextFile, Reserved(s.bg, s.install, s.run.db.pendingOutputs))
    requires s'.disk.manifest == s.disk.manifest && s'.disk.version == s.disk.version && TakesFresh(s, s')
    ensures ManifestOk(s'.disk.manifest, s'.disk.version, s'.run.db.nextFile, Reserved(s'.bg, s'.install, s'.run.db.pendingOutputs))
  {
    hide ManifestOk, Reserved;
    NumbersTaken(s.disk.manifest, s.disk.version, s.run.db.nextFile, Reserved(s.bg, s.install, s.run.db.pendingOutputs),
                 s'.run.db.nextFile, Reserved(s'.bg, s'.install, s'.run.db.pendingOutputs));
  }

  // A task that takes no new number reserves no more than before.
  lemma TaskReserves(bg: Background, task: nat, bg': Background, install: Option<Install>, outputs: set<nat>)
    requires forall t | t in bg'.tasks && t != task :: t in bg.tasks && bg'.tasks[t] == bg.tasks[t]
    requires task in bg'.tasks && (bg'.tasks[task].Building? || bg'.tasks[task].Built?) ==>
               task in bg.tasks && bg.tasks[task].Building? && bg.tasks[task].number == bg'.tasks[task].number
    ensures Reserved(bg', install, outputs) <= Reserved(bg, install, outputs)
  {
  }

  lemma WorkReserves(s: Store, task: nat, step: Step, s': Store)
    requires WorkAction(s, task, step, s')
    ensures TakesFresh(s, s')
  {
    hide WellChosen, GapsAreCovered, IsSafe;
  }

  lemma BuildReserves(s: Store, task: nat, s': Store)
    requires BeginBuildAction(s, task, s')
    ensures TakesFresh(s, s')
  {
  }

  lemma FinishInstallReserves(s: Store, task: nat, s': Store)
    requires FinishInstallAction(s, task, s')
    ensures TakesFresh(s, s')
  {
  }

  lemma EmptyIsNews(manifest: seq<VersionEdit>, v: Version)
    requires OrderedVersion(v)
    ensures IsNews(manifest, VersionEdit({}, [])) && MovesDown(manifest, VersionEdit({}, []), v)
    ensures Saves(v, ApplyTo(NothingPending(), VersionEdit({}, [])), v)
  {
    hide Ordered;
  }

  lemma FlushIsNews(s: State, level: nat, number: nat, size: nat, after: Version, manifest: seq<VersionEdit>, taken: set<nat>)
    requires s.imm.Some? && s.imm.value != [] && FlushStep(s, level, number, size, s.(imm := None, version := after))
    requires IsSettled(manifest, s.version, s.nextFile, taken) && number in taken
    ensures var edit := EditOf(s, Flush(level, number, size));
            && IsNews(manifest, edit) && MovesDown(manifest, edit, after)
            && Saves(s.version, ApplyTo(NothingPending(), edit), after)
            && forall a | a in edit.added :: a.1.number == number
  {
    hide Mentions, Saves, ApplyTo, Sorted, Overlaps;
    var edit := EditOf(s, Flush(level, number, size));
    assert forall a | a in edit.added :: a.0 == level && a.1.number == number;
    SavedFiles(s.version, edit, after);
    forall k, g | 0 <= k < NUM_LEVELS && g in after[k] && g.number == number
      ensures k == level
    {
      assert g !in s.version[k];
    }
  }

  lemma MoveIsNews(s: State, c: Compaction, after: Version, manifest: seq<VersionEdit>, taken: set<nat>)
    requires MoveStep(s, c, s.(version := after)) && UniqueNumbers(s.version)
    requires IsSettled(manifest, s.version, s.nextFile, taken)
    ensures var edit := EditOf(s, Move(c));
            && IsNews(manifest, edit) && MovesDown(manifest, edit, after)
            && Saves(s.version, ApplyTo(NothingPending(), edit), after)
            && forall a | a in edit.added :: a.1 == c.inputs0[0]
    ensures |c.inputs0| == 1 && c.level < NUM_LEVELS && c.inputs0[0] in s.version[c.level]
  {
    hide Mentions, MoveStep, Saves, ApplyTo;
    MoveParts(s, c, after);
    var edit, moved := EditOf(s, Move(c)), c.inputs0[0];
    assert forall a | a in edit.added :: a == (c.level + 1, moved);
    MovedAway(s.version, c, after);
    SavedFiles(s.version, edit, after);
    forall k, g | 0 <= k < NUM_LEVELS && g in after[k] && g.number == moved.number
      ensures k == c.level + 1
    {
      assert g in s.version[k] ==> k == c.level;
    }
  }

  lemma MoveParts(s: State, c: Compaction, after: Version)
    requires MoveStep(s, c, s.(version := after))
    ensures |c.inputs0| == 1 && c.level + 1 < NUM_LEVELS && c.inputs0[0] in s.version[c.level]
    ensures Saves(s.version, ApplyTo(NothingPending(), MoveEdit(c)), after)
  {
    hide LeavesOnlyNewer, Saves, ApplyTo;
    assert c.inputs0[0] in c.inputs0;
  }

  lemma MovedAway(v: Version, c: Compaction, after: Version)
    requires |c.inputs0| == 1 && c.level + 1 < NUM_LEVELS
    requires Saves(v, ApplyTo(NothingPending(), MoveEdit(c)), after)
    ensures forall g | g in after[c.level] :: g.number != c.inputs0[0].number
  {
    hide Ordered, Inserted;
    var edit, n := MoveEdit(c), c.inputs0[0].number;
    assert (c.level, n) in edit.deleted && n in DeletionsAt(edit.deleted, c.level);
    assert n !in NumbersAt(edit.added, c.level);
  }

  lemma MergeIsNews(s: State, outs: seq<File>, after: Version, manifest: seq<VersionEdit>, taken: set<nat>)
    requires FinishMergeStep(s, outs, s.(version := after, running := None, pendingOutputs := {}))
    requires NumbersAvoid(s.version, s.pendingOutputs) && s.running.value.compaction.level + 1 < NUM_LEVELS
    requires IsSettled(manifest, s.version, s.nextFile, taken) && s.pendingOutputs <= taken
    ensures var edit := EditOf(s, FinishMerge(outs));
            && IsNews(manifest, edit) && MovesDown(manifest, edit, after)
            && Saves(s.version, ApplyTo(NothingPending(), edit), after)
            && forall a | a in edit.added :: a.1.number in s.pendingOutputs
  {
    hide Mentions, Saves, ApplyTo, IsMergeOutput;
    var edit, level := EditOf(s, FinishMerge(outs)), s.running.value.compaction.level + 1;
    forall a | a in edit.added
      ensures exists i :: 0 <= i < |outs| && a == (level, outs[i])
    {
      var i :| 0 <= i < |edit.added| && edit.added[i] == a;
      assert a == (level, outs[i]);
    }
    assert WellFormedEdit(edit);
    SavedFiles(s.version, edit, after);
    forall k, g, a | a in edit.added && 0 <= k < NUM_LEVELS && g in after[k] && g.number == a.1.number
      ensures k == level
    {
      assert g !in s.version[k];
    }
  }

  // The record that an install writes: its tables are new, or move down.
  lemma InstallIsNews(r: Run, step: Step, after: Version, manifest: seq<VersionEdit>, taken: set<nat>, taken': set<nat>)
    requires Structure(r.db) && MergeOk(r) && NextRun(r, step, Installed(r, step, after))
    requires step.Flush? || step.Move? || step.FinishMerge?
    requires ManifestOk(manifest, r.db.version, r.db.nextFile, taken) && taken' <= taken && r.db.pendingOutputs <= taken
    requires step.Flush? ==> step.number in taken
    requires taken' == if step.FinishMerge? then {} else r.db.pendingOutputs
    ensures ManifestOk(manifest + [EditOf(r.db, step)], after, r.db.nextFile, taken')
  {
    hide Structure, MergeOk, IsManifest, IsSettled, IsNews, MovesDown, Saves, ApplyTo, FlushStep, MoveStep, FinishMergeStep, NextRun, Installed, EditOf;
    hide OrderedVersion, UniqueNumbers, NumbersAvoid;
    var s, edit := r.db, EditOf(r.db, step);
    InstallStep(r, step, after);
    VersionParts(r);
    match step {
      case Flush(level, number, size) =>
        if ImmEntries(s) == [] {
          EmptyIsNews(manifest, s.version);
          assert edit == VersionEdit({}, []) by { NothingIsFlushed(s, level, number, size); }
        } else {
          FlushNumber(s, level, number, size, s.(imm := None, version := after));
          FlushIsNews(s, level, number, size, after, manifest, taken);
        }
      case Move(c) =>
        MoveIsNews(s, c, after, manifest, taken);
        MovedNumber(s, c.level, c.inputs0[0]);
      case FinishMerge(outs) =>
        assert s.running.Some? by { MergeIsRunning(s, outs, s.(version := after, running := None, pendingOutputs := {})); }
        MergeIsNews(s, outs, after, manifest, taken);
        PendingIsBelow(s);
    }
    SettledGrows(manifest, s.version, s.nextFile, taken, edit, after, taken');
  }

  lemma VersionParts(r: Run)
    requires Structure(r.db) && MergeOk(r)
    ensures OrderedVersion(r.db.version) && UniqueNumbers(r.db.version) && NumbersAvoid(r.db.version, r.db.pendingOutputs)
    ensures r.db.running.Some? ==> r.db.running.value.compaction.level + 1 < NUM_LEVELS
  {
    hide OrderedVersion, UniqueNumbers, NumbersAvoid, GapsAreCovered, Resurrects;
  }

  lemma NothingIsFlushed(s: State, level: nat, number: nat, size: nat)
    requires ImmEntries(s) == []
    ensures EditOf(s, Flush(level, number, size)) == VersionEdit({}, [])
  {
  }

  lemma MovedNumber(s: State, level: nat, f: File)
    requires Structure(s) && level < NUM_LEVELS && f in s.version[level]
    ensures f.number < s.nextFile && f.number !in s.pendingOutputs
  {
    hide Sound, Sorted, ByAge;
  }

  lemma MergeIsRunning(s: State, outs: seq<File>, s': State)
    requires FinishMergeStep(s, outs, s')
    ensures s.running.Some?
  {
    hide IsMergeOutput, Saves, ApplyTo;
  }

  lemma PendingIsBelow(s: State)
    requires Structure(s)
    ensures forall n | n in s.pendingOutputs :: n < s.nextFile
  {
    hide Sound, Sorted, ByAge;
  }

  lemma InstallStep(r: Run, step: Step, after: Version)
    requires NextRun(r, step, Installed(r, step, after))
    ensures match step
            case Flush(level, number, size) =>
              FlushStep(r.db, level, number, size, r.db.(imm := None, version := after)) && (ImmEntries(r.db) == [] ==> after == r.db.version)
            case Move(c) => MoveStep(r.db, c, r.db.(version := after))
            case FinishMerge(outs) => FinishMergeStep(r.db, outs, r.db.(version := after, running := None, pendingOutputs := {}))
            case _ => true
  {
    hide Saves, ApplyTo, WellChosen, IsMergeOutput, FlushFits;
  }

  lemma FlushNumber(s: State, level: nat, number: nat, size: nat, s': State)
    requires FlushStep(s, level, number, size, s') && ImmEntries(s) != []
    ensures number < s.nextFile && number !in s.pendingOutputs
  {
    hide Saves, ApplyTo, FlushFits;
  }

  lemma InstallReserves(s: Store, task: nat, step: Step, after: Version, s': Store)
    requires BeginInstallAction(s, task, step, after, s') && TasksOk(s.bg, s.install, s.run.db, s.disk.tables)
    ensures s.install.None? && (step.Flush? || step.Move? || step.FinishMerge?)
    ensures var taken, taken' := Reserved(s.bg, s.install, s.run.db.pendingOutputs), Reserved(s'.bg, s'.install, s'.run.db.pendingOutputs);
            && taken' == (if step.FinishMerge? then {} else s.run.db.pendingOutputs)
            && s.run.db.pendingOutputs <= taken && (step.Flush? ==> step.number in taken)
  {
    hide NextRun, NumbersBelow, EditOf;
    TaskPhase(s.bg, task, s.install, s.run.db, s.disk.tables);
    assert forall t | t in s.bg.tasks :: t == task;
    assert forall t | t in s'.bg.tasks :: s'.bg.tasks[t].Installing?;
  }

  lemma InstallManifest(s: Store, task: nat, step: Step, after: Version, s': Store)
    requires StoreOk(s) && BeginInstallAction(s, task, step, after, s')
    ensures ManifestOk(s'.disk.manifest, s'.disk.version, s'.run.db.nextFile, Reserved(s'.bg, s'.install, s'.run.db.pendingOutputs))
  {
    hide Inv, DiskOk, LogsOk, TablesOk, TasksOk, PendingOk, NextRun, Installed, ManifestOk, Reserved, EditOf;
    InstallReserves(s, task, step, after, s');
    InvParts(s.run);
    hide Structure, HistoryOk, ReadsKept, MergeOk;
    InstallIsNews(s.run, step, after, s.disk.manifest, Reserved(s.bg, s.install, s.run.db.pendingOutputs),
                  Reserved(s'.bg, s'.install, s'.run.db.pendingOutputs));
  }

  // ---- Writes

  lemma LogRecordKeeps(s: Store, batch: seq<Entry>, s': Store)
    requires StoreOk(s) && LogRecordAction(s, batch, s')
    ensures StoreOk(s')
  {
    hide Inv, DiskOk, IsBatch, TablesOk, InstallOk, TasksOk, ManifestOk;
    AppendKeepsDisk(s.disk, s.logged, Total(s.run.db, []), s.run.horizon, s.log, batch);
    assert Elements(s.disk.logs[s.log] + batch) == Elements(s.disk.logs[s.log]) + Elements(batch);
  }

  lemma InsertedNext(r: Run, e: Entry, r': Run)
    requires NextRun(r, Insert(e.key.user, e.key.kind, e.value), r')
    requires e.key.sequence == r.db.lastSequence + r.db.inserted + 1 && (e.key.kind.Deletion? ==> e.value == "")
    ensures r' == Run(r.db.(mem := InsertEntry(r.db.mem, e), inserted := r.db.inserted + 1), r.history + {e}, r.horizon)
  {
    hide InsertEntry;
    assert NewEntry(r.db, e.key.user, e.key.kind, e.value) == e;
  }

  lemma InsertedElements(es: seq<Entry>, e: Entry)
    ensures Elements(InsertEntry(es, e)) == Elements(es) + {e}
  {
    var i := SeekIndex(es, e.key);
    BetweenMembers(es[..i], e, es[i..]);
    assert es == es[..i] + es[i..];
  }

  lemma InsertKeepsPending(r: Run, pending: seq<Entry>, logged: set<Entry>, acked: nat, e: Entry, r': Run)
    requires PendingOk(r, pending, logged, acked) && pending != [] && e == pending[0]
    requires r' == Run(r.db.(mem := InsertEntry(r.db.mem, e), inserted := r.db.inserted + 1), r.history + {e}, r.horizon)
    ensures PendingOk(r', pending[1..], logged, acked)
    ensures Elements(r'.db.mem) + Elements(pending[1..]) == Elements(r.db.mem) + Elements(pending)
  {
    hide InsertEntry;
    InsertedElements(r.db.mem, e);
    assert Elements(pending) == {e} + Elements(pending[1..]);
    forall x | x in r.db.mem || x == e
      ensures x in r'.db.mem
    {
      assert x in Elements(r'.db.mem);
    }
  }

  // Entries move from pending to the memtable, or become visible.
  lemma WrittenKeeps(s: Store, s': Store)
    requires StoreOk(s) && Inv(s'.run) && PendingOk(s'.run, s'.pending, s.logged, s'.acked)
    requires s' == s.(run := s'.run, pending := s'.pending, acked := s'.acked)
    requires SameTables(s.run.db, s'.run.db) && s'.run.db.imm == s.run.db.imm && s'.run.horizon == s.run.horizon
    requires Total(s'.run.db, s'.pending) == Total(s.run.db, s.pending)
    requires Elements(s'.run.db.mem) + Elements(s'.pending) == Elements(s.run.db.mem) + Elements(s.pending)
    ensures StoreOk(s')
  {
    hide Inv, DiskOk, InstallOk, TablesOk, TasksOk, PendingOk, Elements, Total, ManifestOk, Reserved;
    TasksAreSteady(s.bg, s.install, s.run.db, s.disk.tables, s'.run.db, s.disk.tables);
    LaterInstall(s.install, s.run, s.log, s.logNumber, s.disk.version, s.disk.logNumber, s'.run, s'.log);
    SameFilesInUse(s.run.db, s'.run.db, s.pinned, s.disk.tables);
    SameManifest(s, s');
  }

  lemma InsertPendingFacts(s: Store, s': Store) returns (e: Entry)
    requires PendingOk(s.run, s.pending, s.logged, s.acked) && InsertPendingAction(s, s')
    ensures s.pending != [] && e == s.pending[0]
    ensures e.key.sequence == s.run.db.lastSequence + s.run.db.inserted + 1
    ensures s' == s.(run := Run(s.run.db.(mem := InsertEntry(s.run.db.mem, e), inserted := s.run.db.inserted + 1), s.run.history + {e}, s.run.horizon),
                     pending := s.pending[1..])
    ensures NextRun(s.run, Insert(e.key.user, e.key.kind, e.value), s'.run)
  {
    e := s.pending[0];
    hide NextRun, InsertEntry;
    InsertedNext(s.run, e, s'.run);
  }

  lemma InsertPendingKeeps(s: Store, s': Store)
    requires StoreOk(s) && InsertPendingAction(s, s')
    ensures StoreOk(s')
  {
    hide Inv, DiskOk, InstallOk, TablesOk, TasksOk, LogsOk, PendingOk, InsertPendingAction, NextRun, InsertEntry, Elements, ManifestOk;
    var e := InsertPendingFacts(s, s');
    StepKeepsInv(s.run, Insert(e.key.user, e.key.kind, e.value), s'.run);
    InsertKeepsPending(s.run, s.pending, s.logged, s.acked, e, s'.run);
    WrittenKeeps(s, s');
  }

  lemma HistoryIsOk(r: Run)
    requires Inv(r)
    ensures HistoryOk(r)
  {
  }

  lemma OnlyImmIsFlushed(install: Option<Install>, r: Run, log: nat, logNumber: nat, version: Version, first: nat)
    requires InstallOk(install, r, log, logNumber, version, first)
    ensures r.db.imm.None? ==> !FlushedOnDisk(install)
  {
    hide NextRun;
  }

  lemma PublishedNext(r: Run, r': Run)
    requires NextRun(r, Publish, r')
    ensures r' == Run(r.db.(lastSequence := r'.db.lastSequence, inserted := 0), r.history, r.horizon)
    ensures r'.db.lastSequence == r.db.lastSequence + r.db.inserted
  {
  }

  lemma AcknowledgeKeeps(s: Store, s': Store)
    requires StoreOk(s) && AcknowledgeAction(s, s')
    ensures StoreOk(s')
  {
    hide DiskOk, NextRun, InstallOk, TablesOk, TasksOk, LogsOk, ManifestOk;
    StepKeepsInv(s.run, Publish, s'.run);
    PublishedNext(s.run, s'.run);
    hide Inv;
    HistoryIsOk(s.run);
    assert PendingOk(s'.run, s'.pending, s.logged, s'.acked);
    WrittenKeeps(s, s');
  }

  lemma SwitchedNext(s: Store, s': Store)
    requires SwitchLogAction(s, s')
    ensures s.pending == [] && s.run.db.imm.None? && s.run.db.inserted == 0
    ensures var r, n := s.run, s.run.db.nextFile;
            s' == s.(run := Run(r.db.(mem := [], imm := Some(r.db.mem), nextFile := n + 1), r.history, r.horizon),
                     log := n, immLog := s.log, disk := s.disk.(logs := s.disk.logs[n := []]))
    ensures Inv(s.run) ==> Inv(s'.run)
  {
    var r1 := s.run.(db := s.run.db.(nextFile := s.run.db.nextFile + 1));
    assert NextRun(s.run, AllocateNumber, r1);
    hide Inv;
    if Inv(s.run) {
      StepKeepsInv(s.run, AllocateNumber, r1);
      StepKeepsInv(r1, SwitchMemTable, s'.run);
    }
  }

  lemma SwitchedLogs(logs: map<nat, seq<Entry>>, first: nat, log: nat, immLog: nat, db: State, flushed: bool)
    requires LogsOk(logs, first, log, immLog, db, [], flushed) && db.imm.None? && !flushed
    ensures var n := db.nextFile;
            && n !in logs
            && LogsOk(logs[n := []], first, n, log, db.(mem := [], imm := Some(db.mem), nextFile := n + 1), [], false)
  {
    assert Elements(db.mem) + Elements([]) == Elements(db.mem);
  }

  // Once nothing is pending, everything logged is visible.
  lemma SwitchedPending(r: Run, logged: set<Entry>, acked: nat, r': Run)
    requires HistoryOk(r) && r.db.inserted == 0
    requires PendingOk(r, [], logged, acked)
    requires r'.history == r.history && r'.db.lastSequence == r.db.lastSequence && r'.db.inserted == 0
    ensures PendingOk(r', [], logged, acked)
  {
    hide DistinctStamps, Live;
  }

  lemma SwitchLogKeeps(s: Store, s': Store)
    requires StoreOk(s) && SwitchLogAction(s, s')
    ensures StoreOk(s')
  {
    hide Inv, HistoryOk, DiskOk, InstallOk, TablesOk, TasksOk, LogsOk, PendingOk, SwitchLogAction, NextRun, ManifestOk, Reserved;
    HistoryIsOk(s.run);
    SwitchedNext(s, s');
    OnlyImmIsFlushed(s.install, s.run, s.log, s.logNumber, s.disk.version, s.disk.logNumber);
    hide FlushedOnDisk;
    SwitchedPending(s.run, s.logged, s.acked, s'.run);
    SwitchedLogs(s.disk.logs, s.disk.logNumber, s.log, s.immLog, s.run.db, FlushedOnDisk(s.install));
    LaterInstall(s.install, s.run, s.log, s.logNumber, s.disk.version, s.disk.logNumber, s'.run, s'.log);
    SameFilesInUse(s.run.db, s'.run.db, s.pinned, s.disk.tables);
    TasksAreSteady(s.bg, s.install, s.run.db, s.disk.tables, s'.run.db, s.disk.tables);
    NewLogKeepsDisk(s.disk, s.logged, Total(s.run.db, s.pending), s.run.horizon, s.run.db.nextFile);
    SameManifest(s, s');
  }

  // ---- Steps away from logs and manifest

  lemma PinKeeps(s: Store, s': Store)
    requires StoreOk(s) && s' == s.(pinned := s.pinned + {s.run.db.version})
    ensures StoreOk(s')
  {
    hide Inv, DiskOk, InstallOk, LogsOk, TasksOk, PendingOk, Numbers, ManifestOk;
  }

  lemma UnpinKeeps(s: Store, v: Version, s': Store)
    requires StoreOk(s) && s' == s.(pinned := s.pinned - {v})
    ensures StoreOk(s')
  {
    hide Inv, DiskOk, InstallOk, LogsOk, TasksOk, PendingOk, Numbers, ManifestOk;
  }

  // Whoever removes files is the only background task, so no version is being installed and no
  // table is being built.
  lemma CollectsAlone(bg: Background, task: nat, install: Option<Install>, db: State, tables: set<nat>)
    requires TasksOk(bg, install, db, tables) && IsIn(bg, task, {Collecting})
    ensures install.None? && bg.flushOutputs == {} && forall tables' :: TasksOk(bg, install, db, tables')
  {
    TaskPhase(bg, task, install, db, tables);
    hide NumbersBelow;
  }

  lemma DeleteLogKeeps(s: Store, task: nat, number: nat, s': Store)
    requires StoreOk(s) && DeleteLogAction(s, task, number, s')
    ensures StoreOk(s')
  {
    hide Inv, DiskOk, TablesOk, TasksOk, PendingOk, ManifestOk;
    CollectsAlone(s.bg, task, s.install, s.run.db, s.disk.tables);
    DroppedLogKeepsDisk(s.disk, s.logged, Total(s.run.db, s.pending), s.run.horizon, number);
  }

  lemma DeleteTableKeeps(s: Store, task: nat, number: nat, s': Store)
    requires StoreOk(s) && DeleteTableAction(s, task, number, s')
    ensures StoreOk(s')
  {
    hide Inv, DiskOk, PendingOk, LogsOk, TasksOk, Numbers, ManifestOk;
    CollectsAlone(s.bg, task, s.install, s.run.db, s.disk.tables);
    OtherTablesKeepDisk(s.disk, s.logged, Total(s.run.db, s.pending), s.run.horizon, s'.disk.tables);
  }

  // What a step that touches neither log nor manifest leaves as it was.
  lemma QuietNext(r: Run, step: Step, r': Run)
    requires NextRun(r, step, r') && Inv(r) && Inv(r')
    requires step.TakeSnapshot? || step.ReleaseSnapshot? || step.BeginMerge? || step.OpenOutput? || step.AbandonMerge? || step.AllocateNumber?
    ensures r'.history == r.history && r.horizon <= r'.horizon <= r.db.lastSequence
    ensures r'.db.mem == r.db.mem && r'.db.imm == r.db.imm && r'.db.version == r.db.version
    ensures r'.db.lastSequence == r.db.lastSequence && r'.db.inserted == r.db.inserted && r.db.nextFile <= r'.db.nextFile
    ensures step.TakeSnapshot? || step.ReleaseSnapshot? || step.AllocateNumber? ==> SameTables(r.db, r'.db)
    ensures step.AllocateNumber? ==> r'.db == r.db.(nextFile := r.db.nextFile + 1)
    ensures r'.db.pendingOutputs <= r.db.pendingOutputs + if step.OpenOutput? then {r.db.nextFile} else {}
    ensures r'.db.running.Some? ==> r'.db.running == r.db.running || r'.db.running.value.base == r.db.version
  {
    hide IsSafe, WellChosen, Structure, HistoryOk, ReadsKept, MergeOk;
  }

  lemma QuietFilesInUse(s: State, s': State, pinned: set<Version>, tables: set<nat>, tables': set<nat>, created: set<nat>)
    requires TablesOk(s, pinned, tables) && s'.version == s.version && tables' == tables + created
    requires s'.pendingOutputs <= s.pendingOutputs + created
    requires s'.running.Some? ==> s'.running == s.running || s'.running.value.base == s.version
    ensures TablesOk(s', pinned, tables')
  {
    hide Numbers;
  }

  lemma QuietPending(r: Run, pending: seq<Entry>, logged: set<Entry>, acked: nat, r': Run)
    requires PendingOk(r, pending, logged, acked)
    requires r'.history == r.history && r'.db.mem == r.db.mem
    requires r'.db.lastSequence == r.db.lastSequence && r'.db.inserted == r.db.inserted
    ensures PendingOk(r', pending, logged, acked)
    ensures Total(r'.db, pending) == Total(r.db, pending) && r.db.lastSequence <= Total(r.db, pending)
  {
  }

  lemma QuietLogs(logs: map<nat, seq<Entry>>, first: nat, log: nat, immLog: nat, db: State, pending: seq<Entry>, flushed: bool, db': State)
    requires LogsOk(logs, first, log, immLog, db, pending, flushed)
    requires db'.mem == db.mem && db'.imm == db.imm && db.nextFile <= db'.nextFile
    ensures LogsOk(logs, first, log, immLog, db', pending, flushed)
  {
    hide Elements;
  }

  // The part of the invariant that does not depend on background tasks, after such a step.
  ghost predicate RestOk(s: Store) {
    && Inv(s.run)
    && PendingOk(s.run, s.pending, s.logged, s.acked)
    && LogsOk(s.disk.logs, s.disk.logNumber, s.log, s.immLog, s.run.db, s.pending, FlushedOnDisk(s.install))
    && TablesOk(s.run.db, s.pinned, s.disk.tables)
    && DiskOk(s.disk, s.logged, Total(s.run.db, s.pending), s.run.horizon)
  }

  lemma QuietKeepsRest(s: Store, step: Step, s': Store)
    requires RestOk(s) && NextRun(s.run, step, s'.run)
    requires step.TakeSnapshot? || step.ReleaseSnapshot? || step.BeginMerge? || step.OpenOutput? || step.AbandonMerge? || step.AllocateNumber?
    requires s' == s.(run := s'.run, disk := s.disk.(tables := s.disk.tables + Created(s.run.db, step)), bg := s'.bg)
    ensures RestOk(s') && s'.run.db.version == s.run.db.version && s.disk.tables <= s'.disk.tables
    ensures step.TakeSnapshot? || step.ReleaseSnapshot? || step.AllocateNumber? ==>
              SameTables(s.run.db, s'.run.db) && s'.run.db.imm == s.run.db.imm
    ensures step.AllocateNumber? ==> s'.run.db == s.run.db.(nextFile := s.run.db.nextFile + 1)
  {
    hide Inv, DiskOk, TablesOk, NextRun;
    StepKeepsInv(s.run, step, s'.run);
    QuietNext(s.run, step, s'.run);
    QuietFilesInUse(s.run.db, s'.run.db, s.pinned, s.disk.tables, s'.disk.tables, Created(s.run.db, step));
    QuietPending(s.run, s.pending, s.logged, s.acked, s'.run);
    QuietLogs(s.disk.logs, s.disk.logNumber, s.log, s.immLog, s.run.db, s.pending, FlushedOnDisk(s.install), s'.run.db);
    hide PendingOk, LogsOk, Total, FlushedOnDisk;
    OnDiskTables(s.disk, s.logged, Total(s.run.db, s.pending), s.run.horizon);
    OtherTablesKeepDisk(s.disk, s.logged, Total(s.run.db, s.pending), s.run.horizon, s'.disk.tables);
    HigherHorizonKeepsDisk(s'.disk, s.logged, Total(s.run.db, s.pending), s.run.horizon, s'.run.horizon);
  }

  lemma QuietKeeps(s: Store, step: Step, s': Store)
    requires StoreOk(s) && QuietAction(s, step, s')
    ensures StoreOk(s')
  {
    hide Inv, DiskOk, InstallOk, LogsOk, PendingOk, TablesOk, TasksOk, NextRun, ManifestOk, Reserved;
    assert s.disk.tables + {} == s.disk.tables;
    QuietKeepsRest(s, step, s');
    LaterInstall(s.install, s.run, s.log, s.logNumber, s.disk.version, s.disk.logNumber, s'.run, s'.log);
    TasksAreSteady(s.bg, s.install, s.run.db, s.disk.tables, s'.run.db, s'.disk.tables);
    SameManifest(s, s');
  }

  // Whoever merges is not installing.
  lemma WorkPhase(s: Store, task: nat, step: Step, s': Store)
    requires TasksOk(s.bg, s.install, s.run.db, s.disk.tables) && WorkAction(s, task, step, s')
    ensures s.install.None? && TasksOk(s'.bg, s'.install, s'.run.db, s'.disk.tables)
  {
    hide NumbersBelow, WellChosen, GapsAreCovered, IsSafe;
    TaskPhase(s.bg, task, s.install, s.run.db, s.disk.tables);
    PhaseEntered(s.bg, task, PhaseAfter(step), s'.bg, s'.install, s'.run.db, s'.disk.tables);
  }

  lemma WorkIsNext(s: Store, task: nat, step: Step, s': Store)
    requires WorkAction(s, task, step, s') && (step.BeginMerge? ==> IsSafe(s.run.db, step.compaction))
    ensures NextRun(s.run, step, s'.run)
  {
    hide Extends, IsSafe;
  }

  lemma WorkKeeps(s: Store, task: nat, step: Step, s': Store)
    requires StoreOk(s) && WorkAction(s, task, step, s') && NextRun(s.run, step, s'.run)
    ensures StoreOk(s')
  {
    hide Inv, DiskOk, InstallOk, LogsOk, PendingOk, TablesOk, TasksOk, NextRun, ManifestOk, Reserved;
    WorkPhase(s, task, step, s');
    QuietKeepsRest(s, step, s');
    LaterInstall(s.install, s.run, s.log, s.logNumber, s.disk.version, s.disk.logNumber, s'.run, s'.log);
    WorkReserves(s, task, step, s');
    SameManifest(s, s');
  }

  lemma BeginBuildKeeps(s: Store, task: nat, s': Store)
    requires StoreOk(s) && BeginBuildAction(s, task, s')
    ensures StoreOk(s')
  {
    hide Inv, DiskOk, InstallOk, LogsOk, PendingOk, TablesOk, TasksOk, NextRun, ManifestOk, Reserved;
    assert s.disk.tables + {} == s.disk.tables;
    QuietKeepsRest(s, AllocateNumber, s');
    LaterInstall(s.install, s.run, s.log, s.logNumber, s.disk.version, s.disk.logNumber, s'.run, s'.log);
    TaskPhase(s.bg, task, s.install, s.run.db, s.disk.tables);
    InvParts(s.run);
    NextIsNotPending(s.run.db);
    hide NumbersBelow, Structure, ReadsKept, HistoryOk, MergeOk;
    PhaseEntered(s.bg, task, s'.bg.tasks[task], s'.bg, s'.install, s'.run.db, s'.disk.tables);
    BuildReserves(s, task, s');
    SameManifest(s, s');
  }

  lemma NextIsNotPending(s: State)
    requires Structure(s)
    ensures s.nextFile !in s.pendingOutputs
  {
  }

  lemma OnDiskTables(d: Disk, logged: set<Entry>, total: nat, h: SequenceNumber)
    requires DiskOk(d, logged, total, h)
    ensures Numbers(d.version) <= d.tables
  {
  }

  // ---- Installing a version

  lemma ManifestOrder(d: Disk, r: Run, pending: seq<Entry>, logged: set<Entry>, acked: nat)
    requires Structure(r.db) && HistoryOk(r) && PendingOk(r, pending, logged, acked)
    requires d.version == r.db.version && d.lastSequence == r.db.lastSequence
    requires LogEntries(d) == Elements(r.db.mem) + Elements(pending) + Elements(ImmEntries(r.db))
    ensures Recoverable(d) == Live(r.db) + Elements(pending) && Recoverable(d) <= logged
    ensures forall x, y | x in LogEntries(d) && y in Contents(d.version) :: y.key.sequence < x.key.sequence
    ensures forall e | e in logged :: e.key.sequence <= d.lastSequence || e in LogEntries(d)
  {
    hide Sound, Contents, Sorted, NumbersBelow, NumbersAvoid, DistinctStamps, LogEntries;
    BatchIsNewer(pending, r.db.lastSequence + r.db.inserted, r.history);
    forall x, y | x in Elements(pending) && y in Contents(d.version)
      ensures y.key.sequence < x.key.sequence
    {
      assert y in Live(r.db);
    }
  }

  lemma ManifestReads(r: Run, pending: seq<Entry>, logged: set<Entry>, acked: nat)
    requires HistoryOk(r) && ReadsKept(r) && PendingOk(r, pending, logged, acked)
    requires IsDense(logged, Total(r.db, pending))
    ensures ReadsAlike(Live(r.db) + Elements(pending), logged, r.horizon)
  {
    BatchIsNewer(pending, r.db.lastSequence + r.db.inserted, r.history);
    assert ReadsAlike(Live(r.db), r.history, r.horizon);
    hide Lookup, DistinctStamps, Live, IsBatch, ReadsAlike;
    NewerAddedReadsAlike(Live(r.db), r.history, Elements(pending), r.horizon);
  }

  lemma InvParts(r: Run)
    requires Inv(r)
    ensures Structure(r.db) && HistoryOk(r) && ReadsKept(r) && MergeOk(r)
    ensures Sound(r.db.version) && NumbersBelow(r.db.version, r.db.nextFile) && r.horizon <= r.db.lastSequence
  {
    hide Sound, NumbersBelow, HistoryOk, ReadsKept, MergeOk;
  }

  // What the memtables and a version hold together, the version on disk and the logs hold.
  lemma ManifestKeepsDisk(d: Disk, r: Run, pending: seq<Entry>, logged: set<Entry>, acked: nat)
    requires Inv(r) && PendingOk(r, pending, logged, acked)
    requires d.version == r.db.version && d.lastSequence == r.db.lastSequence && d.nextFile == r.db.nextFile
    requires Numbers(d.version) <= d.tables
    requires LogEntries(d) == Elements(r.db.mem) + Elements(pending) + Elements(ImmEntries(r.db))
    requires IsDense(logged, Total(r.db, pending)) && Total(r.db, pending) < MAX_SEQUENCE
    requires LogsInOrder(d.logs, d.logNumber) && d.logNumber < d.nextFile
    ensures DiskOk(d, logged, Total(r.db, pending), r.horizon)
  {
    hide Inv;
    InvParts(r);
    ManifestOrder(d, r, pending, logged, acked);
    ManifestReads(r, pending, logged, acked);
    hide Structure, HistoryOk, ReadsKept, MergeOk, PendingOk, Sound, NumbersBelow, Numbers, IsDense, LogsInOrder, Lookup, Live, Elements, Contents, LogEntries, Recoverable;
  }

  // The files of the installed version were there, or are new ones.
  lemma InstalledNumbers(r: Run, step: Step, after: Version)
    requires NextRun(r, step, Installed(r, step, after))
    requires step.Flush? || step.Move? || step.FinishMerge?
    ensures Numbers(after) <= Numbers(r.db.version) + r.db.pendingOutputs + NewTables(r.db, step)
  {
    var v := r.db.version;
    hide Saves, ApplyTo, IsMergeOutput, FlushFits, GapsAreCovered;
    match step {
      case Flush(level, number, size) =>
        if ImmEntries(r.db) != [] {
          SavedFiles(v, FlushEdit(level, FileMetaData(number, size, r.db.imm.value)), after);
        }
      case Move(c) =>
        SavedFiles(v, MoveEdit(c), after);
        assert c.inputs0[0] in v[c.level];
      case FinishMerge(outs) =>
        SavedFiles(v, MergeEdit(r.db.running.value.compaction, outs), after);
    }
  }

  lemma InstalledLeavesRest(r: Run, step: Step, after: Version)
    requires step.Flush? || step.Move? || step.FinishMerge?
    requires NextRun(r, step, Installed(r, step, after))
    ensures var i := Installed(r, step, after);
            && i.history == r.history && i.horizon == r.horizon && i.db.version == after && i.db.mem == r.db.mem
            && i.db.lastSequence == r.db.lastSequence && i.db.inserted == r.db.inserted && i.db.nextFile == r.db.nextFile
            && i.db.imm == (if step.Flush? then None else r.db.imm)
            && i.db.pendingOutputs <= r.db.pendingOutputs && (i.db.running.None? || i.db.running == r.db.running)
    ensures step.Flush? ==> r.db.imm.Some?
  {
    hide Saves, ApplyTo, IsMergeOutput, FlushFits, GapsAreCovered, WellChosen;
  }

  lemma BeganLogs(logs: map<nat, seq<Entry>>, first: nat, log: nat, immLog: nat, db: State, pending: seq<Entry>, flush: bool)
    requires LogsOk(logs, first, log, immLog, db, pending, false)
    ensures LogsOk(logs, if flush then log else first, log, immLog, db, pending, flush)
  {
    hide Elements;
  }

  lemma DiskNumbering(d: Disk, logged: set<Entry>, total: nat, h: SequenceNumber)
    requires DiskOk(d, logged, total, h)
    ensures IsDense(logged, total) && total < MAX_SEQUENCE && LogsInOrder(d.logs, d.logNumber)
  {
    hide Lookup, Sound, IsDense, LogsInOrder;
  }

  lemma LaterLogsInOrder(logs: map<nat, seq<Entry>>, first: nat, later: nat)
    requires LogsInOrder(logs, first) && first <= later
    ensures LogsInOrder(logs, later)
  {
  }

  // Whoever installs is the one that built or merged, and is alone.
  lemma InstallPhase(s: Store, task: nat, step: Step, after: Version, s': Store)
    requires BeginInstallAction(s, task, step, after, s')
    requires TasksOk(s.bg, s.install, s.run.db, s.disk.tables)
    ensures s.install.None? && TasksOk(s'.bg, s'.install, s'.run.db, s'.disk.tables)
    ensures NewTables(s.run.db, step) <= s.disk.tables
  {
    hide NumbersBelow, NextRun;
    TaskPhase(s.bg, task, s.install, s.run.db, s.disk.tables);
    PhaseEntered(s.bg, task, Installing, s'.bg, s'.install, s'.run.db, s'.disk.tables);
  }

  lemma BeginInstallFacts(s: Store, task: nat, step: Step, after: Version, s': Store)
    requires BeginInstallAction(s, task, step, after, s') && TablesOk(s.run.db, s.pinned, s.disk.tables)
    requires s.install.None? && NewTables(s.run.db, step) <= s.disk.tables
    requires LogsOk(s.disk.logs, s.disk.logNumber, s.log, s.immLog, s.run.db, s.pending, FlushedOnDisk(s.install))
    requires InstallOk(s.install, s.run, s.log, s.logNumber, s.disk.version, s.disk.logNumber)
    ensures step.Flush? || step.Move? || step.FinishMerge?
    ensures NextRun(s.run, step, Installed(s.run, step, after))
    ensures s' == s.(install := s'.install, disk := s'.disk, bg := s'.bg)
    ensures s'.disk.logNumber < s'.disk.nextFile
    ensures s'.disk.version == after && s'.disk.lastSequence == s.run.db.lastSequence && s'.disk.nextFile == s.run.db.nextFile
    ensures s'.disk.logs == s.disk.logs && s.disk.logNumber <= s'.disk.logNumber && s'.disk.tables == s.disk.tables && Numbers(after) <= s'.disk.tables
    ensures LogsOk(s'.disk.logs, s'.disk.logNumber, s'.log, s'.immLog, s'.run.db, s'.pending, FlushedOnDisk(s'.install))
    ensures FlushedOnDisk(s'.install) == step.Flush?
    ensures InstallOk(s'.install, s'.run, s'.log, s'.logNumber, s'.disk.version, s'.disk.logNumber)
  {
    hide NextRun, Numbers, LogsOk, NewTables;
    InstalledNumbers(s.run, step, after);
    InstalledLeavesRest(s.run, step, after);
    BeganLogs(s.disk.logs, s.disk.logNumber, s.log, s.immLog, s.run.db, s.pending, step.Flush?);
    LogIsLast(s.disk.logs, s.disk.logNumber, s.log, s.immLog, s.run.db, s.pending, false);
  }

  lemma LogIsLast(logs: map<nat, seq<Entry>>, first: nat, log: nat, immLog: nat, db: State, pending: seq<Entry>, flushed: bool)
    requires LogsOk(logs, first, log, immLog, db, pending, flushed)
    ensures first <= log < db.nextFile
  {
  }

  lemma BeginInstallKeeps(s: Store, task: nat, step: Step, after: Version, s': Store)
    requires StoreOk(s) && BeginInstallAction(s, task, step, after, s')
    ensures StoreOk(s')
  {
    var i, d' := Installed(s.run, step, after), s'.disk;
    hide Inv, DiskOk, InstallOk, TablesOk, TasksOk, LogsOk, PendingOk, BeginInstallAction, NextRun, Installed, Total, FlushedOnDisk, NewTables, ManifestOk, Reserved, EditOf;
    InstallPhase(s, task, step, after, s');
    BeginInstallFacts(s, task, step, after, s');
    StepKeepsInv(s.run, step, i);
    InstalledLeavesRest(s.run, step, after);
    LogsHoldMemTables(d', s.log, s.immLog, s.run.db, s.pending, step.Flush?);
    QuietPending(s.run, s.pending, s.logged, s.acked, i);
    DiskNumbering(s.disk, s.logged, Total(s.run.db, s.pending), s.run.horizon);
    LaterLogsInOrder(d'.logs, s.disk.logNumber, d'.logNumber);
    ManifestKeepsDisk(d', i, s.pending, s.logged, s.acked);
    InstallManifest(s, task, step, after, s');
  }

  lemma MoreTablesInUse(s: State, pinned: set<Version>, tables: set<nat>, tables': set<nat>)
    requires TablesOk(s, pinned, tables) && tables <= tables'
    ensures TablesOk(s, pinned, tables')
  {
  }

  lemma InstalledTables(s: State, s': State, pinned: set<Version>, tables: set<nat>)
    requires TablesOk(s, pinned, tables) && Numbers(s'.version) <= tables
    requires s'.pendingOutputs <= s.pendingOutputs && (s'.running.None? || s'.running == s.running)
    ensures TablesOk(s', pinned, tables)
  {
    hide Numbers;
  }

  lemma InstalledLogs(logs: map<nat, seq<Entry>>, first: nat, log: nat, immLog: nat, db: State, pending: seq<Entry>, flushed: bool, db': State)
    requires LogsOk(logs, first, log, immLog, db, pending, flushed)
    requires db'.mem == db.mem && db'.nextFile == db.nextFile && db'.imm == (if flushed then None else db.imm)
    ensures LogsOk(logs, first, log, immLog, db', pending, false)
  {
    hide Elements;
  }

  lemma InstallParts(i: Install, r: Run, log: nat, logNumber: nat, version: Version, first: nat)
    requires InstallOk(Some(i), r, log, logNumber, version, first)
    ensures i.step.Flush? || i.step.Move? || i.step.FinishMerge?
    ensures NextRun(r, i.step, Installed(r, i.step, i.after)) && version == i.after && first == i.logNumber
  {
    hide NextRun;
  }

  lemma FinishInstallPhase(s: Store, task: nat, s': Store)
    requires TasksOk(s.bg, s.install, s.run.db, s.disk.tables) && FinishInstallAction(s, task, s')
    ensures TasksOk(s'.bg, s'.install, s'.run.db, s'.disk.tables)
  {
    hide Installed, NumbersBelow;
    TaskPhase(s.bg, task, s.install, s.run.db, s.disk.tables);
    PhaseEntered(s.bg, task, Collecting, s'.bg, s'.install, s'.run.db, s'.disk.tables);
  }

  lemma FinishInstallKeeps(s: Store, task: nat, s': Store)
    requires StoreOk(s) && FinishInstallAction(s, task, s')
    ensures StoreOk(s')
  {
    var i := s.install.value;
    hide Inv, DiskOk, InstallOk, TablesOk, TasksOk, LogsOk, PendingOk, NextRun, Installed, Total, ManifestOk, Reserved;
    FinishInstallPhase(s, task, s');
    InstallParts(i, s.run, s.log, s.logNumber, s.disk.version, s.disk.logNumber);
    StepKeepsInv(s.run, i.step, s'.run);
    InstalledLeavesRest(s.run, i.step, i.after);
    QuietPending(s.run, s.pending, s.logged, s.acked, s'.run);
    InstalledLogs(s.disk.logs, s.disk.logNumber, s.log, s.immLog, s.run.db, s.pending, i.step.Flush?, s'.run.db);
    OnDiskTables(s.disk, s.logged, Total(s.run.db, s.pending), s.run.horizon);
    InstalledTables(s.run.db, s'.run.db, s.pinned, s.disk.tables);
    NothingToInstall(s'.run, s'.log, s'.logNumber);
    FinishInstallReserves(s, task, s');
    SameManifest(s, s');
  }

  lemma NothingToInstall(r: Run, log: nat, logNumber: nat)
    ensures InstallOk(None, r, log, logNumber, r.db.version, logNumber)
  {
  }

  // ---- Recovery

  // Version `v'` is `v` with tables added to level 0.
  ghost predicate AddsTables(v: Version, tables: seq<File>, v': Version) {
    && OrderedVersion(v')
    && forall l, f | 0 <= l < NUM_LEVELS :: f in v'[l] <==> f in v[l] || (l == 0 && f in tables)
  }

  // The tables of replayed logs are newer than `v`, and numbered by age.
  ghost predicate Replayable(v: Version, tables: seq<File>) {
    && (forall l, f, g | 0 <= l < NUM_LEVELS && f in v[l] && g in tables :: f.number < g.number && Newer(g.entries, f.entries))
    && (forall f, g | f in tables && g in tables && f.number == g.number :: f == g)
    && (forall f, g | f in tables && g in tables && g.number < f.number :: Newer(f.entries, g.entries))
  }

  lemma ReplayedIsReplayable(d: Disk, tables: seq<File>)
    requires AreReplayed(d, tables) && NumbersBelow(d.version, d.nextFile)
    requires forall x, y | x in LogEntries(d) && y in Contents(d.version) :: y.key.sequence < x.key.sequence
    ensures Replayable(d.version, tables)
  {
    var v := d.version;
    forall l, f, g | 0 <= l < NUM_LEVELS && f in v[l] && g in tables
      ensures f.number < g.number && Newer(g.entries, f.entries)
    {
      forall x, y | x in g.entries && y in f.entries
        ensures y.key.sequence < x.key.sequence
      {
        assert Holds(tables, x) && x in LogEntries(d) && y in Contents(v);
      }
    }
    forall f, g | f in tables && g in tables
      ensures f.number == g.number ==> f == g
      ensures g.number < f.number ==> Newer(f.entries, g.entries)
    {
      var i :| 0 <= i < |tables| && tables[i] == f;
      var j :| 0 <= j < |tables| && tables[j] == g;
    }
  }

  lemma RecoverEditAdds(v: Version, tables: seq<File>, v': Version)
    requires Replayable(v, tables) && Saves(v, ApplyTo(NothingPending(), RecoverEdit(tables)), v')
    ensures AddsTables(v, tables, v')
  {
    hide Newer, Ordered, Saves, ApplyTo;
    var edit := RecoverEdit(tables);
    forall l, f
      ensures (l, f) in edit.added <==> l == 0 && f in tables
    {
      if l == 0 && f in tables {
        var i :| 0 <= i < |tables| && tables[i] == f;
        assert edit.added[i] == (l, f);
      }
    }
    assert FreshAdds(v, edit);
    EditMembers(v, edit, v');
  }

  lemma TablesKeepSound(v: Version, tables: seq<File>, v': Version)
    requires Sound(v) && Replayable(v, tables) && AddsTables(v, tables, v')
    ensures Sound(v')
  {
    hide Newer, Apart, Ordered;
    forall i, j | 0 <= i < j < NUM_LEVELS
      ensures forall f, g | f in v'[i] && g in v'[j] :: Newer(f.entries, g.entries)
    {
      forall f, g | f in v'[i] && g in v'[j]
        ensures Newer(f.entries, g.entries)
      {
        assert f in v[i] || (i == 0 && f in tables);
        assert g in v[j];
      }
    }
    assert LevelsByAge(v');
    hide LevelsByAge;
    forall f, g | f in v'[0] && g in v'[0] && g.number < f.number
      ensures Newer(f.entries, g.entries)
    {
      assert f in v[0] || f in tables;
      assert g in v[0] || g in tables;
    }
    forall i, f, g | 1 <= i < NUM_LEVELS && f in v'[i] && g in v'[i] && f != g
      ensures Apart(f, g)
    {
      assert f in v[i] && g in v[i];
    }
    TablesAreUnique(v, tables, v');
  }

  lemma TablesAreUnique(v: Version, tables: seq<File>, v': Version)
    requires UniqueNumbers(v) && Replayable(v, tables) && AddsTables(v, tables, v')
    ensures UniqueNumbers(v')
  {
    hide Newer, Ordered;
    forall i, j, f, g | 0 <= i < NUM_LEVELS && 0 <= j < NUM_LEVELS && f in v'[i] && g in v'[j] && f.number == g.number
      ensures i == j && f == g
    {
      assert f in v[i] || (i == 0 && f in tables);
      assert g in v[j] || (j == 0 && g in tables);
    }
  }

  lemma TablesContents(v: Version, tables: seq<File>, v': Version)
    requires AddsTables(v, tables, v')
    ensures Contents(v') == Contents(v) + EntriesOf(tables)
  {
    hide Ordered;
    assert forall f | f in tables :: f in v'[0];
  }

  lemma RecoveredVersion(d: Disk, tables: seq<File>, v': Version)
    requires Sound(d.version) && NumbersBelow(d.version, d.nextFile) && AreReplayed(d, tables)
    requires forall x, y | x in LogEntries(d) && y in Contents(d.version) :: y.key.sequence < x.key.sequence
    requires Saves(d.version, ApplyTo(NothingPending(), RecoverEdit(tables)), v')
    ensures Sound(v') && Contents(v') == Recoverable(d)
    ensures Numbers(v') <= Numbers(d.version) + set f | f in tables :: f.number
  {
    ReplayedIsReplayable(d, tables);
    assert EntriesOf(tables) == LogEntries(d) by {
      forall e
        ensures e in EntriesOf(tables) <==> e in LogEntries(d)
      {
        assert e in LogEntries(d) <==> Holds(tables, e);
      }
    }
    hide Sound, LogEntries, AreReplayed, Replayable, AddsTables, Saves, ApplyTo, NumbersBelow, EntriesOf, Contents;
    RecoverEditAdds(d.version, tables, v');
    TablesKeepSound(d.version, tables, v');
    TablesContents(d.version, tables, v');
    TablesNumbers(d.version, tables, v');
  }

  lemma TablesNumbers(v: Version, tables: seq<File>, v': Version)
    requires AddsTables(v, tables, v')
    ensures Numbers(v') <= Numbers(v) + set f | f in tables :: f.number
  {
  }

  // Recovery resumes numbering where logging stopped.
  lemma RecoversLastSequence(d: Disk, logged: set<Entry>, total: nat, h: SequenceNumber, last: SequenceNumber)
    requires DiskOk(d, logged, total, h) && IsRecoveredSequence(d, last)
    ensures last == total
  {
    hide Lookup, Sound, NumbersBelow;
    if total != 0 {
      assert Numbered(logged, total);
      var e :| e in logged && e.key.sequence == total;
      assert e.key.sequence <= last;
    }
    if last != d.lastSequence {
      var e :| e in LogEntries(d) && e.key.sequence == last;
      assert e in Recoverable(d) && e in logged;
    }
  }

  lemma DiskParts(d: Disk, logged: set<Entry>, total: nat, h: SequenceNumber)
    requires DiskOk(d, logged, total, h)
    ensures Sound(d.version) && NumbersBelow(d.version, d.nextFile) && Numbers(d.version) <= d.tables
    ensures IsDense(logged, total) && h <= total < MAX_SEQUENCE
    ensures Recoverable(d) <= logged && ReadsAlike(Recoverable(d), logged, h)
    ensures forall x, y | x in LogEntries(d) && y in Contents(d.version) :: y.key.sequence < x.key.sequence
  {
    hide Lookup, Sound, NumbersBelow, Numbers, IsDense, LogEntries, Contents;
  }

  lemma RecoveredIsInv(v: Version, last: SequenceNumber, logged: set<Entry>, h: SequenceNumber, newLog: nat)
    requires Sound(v) && NumbersBelow(v, newLog + 1) && IsDense(logged, last) && h <= last < MAX_SEQUENCE
    requires Contents(v) <= logged && ReadsAlike(Contents(v), logged, h)
    ensures Inv(Run(State([], None, v, last, 0, [], None, {}, newLog + 1), logged, h))
  {
    var r := Run(State([], None, v, last, 0, [], None, {}, newLog + 1), logged, h);
    hide Sound, NumbersBelow, Contents, Lookup, DistinctStamps;
    assert Live(r.db) == Contents(v);
    assert NumbersAvoid(v, {});
    assert Structure(r.db);
    hide Structure, Live, NumbersAvoid;
  }

  lemma NonemptyLogIsReplayed(d: Disk, k: nat)
    requires k in d.logs && d.logNumber <= k
    ensures d.logs[k] != [] ==> LogEntries(d) != {}
  {
    if d.logs[k] != [] {
      assert d.logs[k][0] in d.logs[k];
      assert d.logs[k][0] in LogEntries(d);
    }
  }

  lemma RecoveredDisk(d: Disk, logged: set<Entry>, h: SequenceNumber)
    requires Sound(d.version) && NumbersBelow(d.version, d.nextFile) && Numbers(d.version) <= d.tables
    requires IsDense(logged, d.lastSequence) && h <= d.lastSequence < MAX_SEQUENCE
    requires Contents(d.version) <= logged && ReadsAlike(Contents(d.version), logged, h)
    requires LogEntries(d) == {} && d.logNumber < d.nextFile
    ensures DiskOk(d, logged, d.lastSequence, h)
  {
    forall k | k in d.logs && d.logNumber <= k
      ensures d.logs[k] == []
    {
      NonemptyLogIsReplayed(d, k);
    }
    assert LogsInOrder(d.logs, d.logNumber);
    hide LogsInOrder;
    assert Recoverable(d) == Contents(d.version);
    hide Sound, NumbersBelow, Contents, Lookup, DistinctStamps, Numbers, LogEntries, Recoverable;
  }

  lemma RecoverFacts(w: World, tables: seq<File>, recovered: Version, last: SequenceNumber, newLog: nat, w': World)
    requires WorldOk(w) && w.Down? && RecoverAction(w, tables, recovered, last, newLog, w')
    ensures last == w.total && Sound(recovered) && Contents(recovered) == Recoverable(w.disk)
    ensures NumbersBelow(recovered, newLog + 1)
    ensures Numbers(recovered) <= w.disk.tables + set f | f in tables :: f.number
  {
    var d := w.disk;
    hide DiskOk, AreReplayed, Saves, ApplyTo, Sound, Contents, LogEntries, IsRecoveredSequence, Numbers, NumbersBelow, ReadsAlike, IsDense;
    DiskParts(d, w.logged, w.total, w.horizon);
    RecoversLastSequence(d, w.logged, w.total, w.horizon, last);
    RecoveredVersion(d, tables, recovered);
    NumbersStayBelow(d.version, tables, recovered, d.nextFile, newLog);
  }

  lemma NumbersStayBelow(v: Version, tables: seq<File>, v': Version, m: nat, n: nat)
    requires NumbersBelow(v, m) && m <= n && forall i | 0 <= i < |tables| :: tables[i].number < n
    requires Numbers(v') <= Numbers(v) + set f | f in tables :: f.number
    ensures NumbersBelow(v', n + 1)
  {
    forall l, f | 0 <= l < NUM_LEVELS && f in v'[l]
      ensures f.number < n + 1
    {
      assert f.number in Numbers(v');
    }
  }

  lemma RecoverIs(w: World, tables: seq<File>, recovered: Version, last: SequenceNumber, newLog: nat, w': World)
    requires w.Down? && RecoverAction(w, tables, recovered, last, newLog, w')
    ensures w'.Up?
    ensures var s, d := w'.store, w'.store.disk;
            && s.run == Run(State([], None, recovered, last, 0, [], None, {}, newLog + 1), w.logged, w.horizon)
            && s.log == newLog && s.immLog == 0 && s.logNumber == newLog && s.pending == [] && s.install == None
            && s.pinned == {} && s.logged == w.logged && s.acked == w.acked && s.bg == Opening()
            && d.version == recovered && d.lastSequence == last && d.nextFile == newLog + 1 && d.logNumber == newLog
            && d.tables == w.disk.tables + (set f | f in tables :: f.number)
            && LogEntries(d) == {} && newLog in d.logs && d.logs[newLog] == [] && forall k | k in d.logs :: k <= newLog
  {
    hide AreReplayed, IsRecoveredSequence, Saves, ApplyTo;
  }

  lemma RecoverKeeps(w: World, tables: seq<File>, recovered: Version, last: SequenceNumber, newLog: nat, w': World)
    requires WorldOk(w) && w.Down? && RecoverAction(w, tables, recovered, last, newLog, w')
    ensures WorldOk(w')
  {
    hide DiskOk, RecoverAction, Sound, Contents, LogEntries, NumbersBelow, Numbers, Inv, ReadsAlike, IsDense, TablesOk, TasksOk, InstallOk, LogsOk, PendingOk, ManifestOk, IsManifest, Reserved, AreReplayed, Saves, ApplyTo;
    RecoverIs(w, tables, recovered, last, newLog, w');
    var d, s := w.disk, w'.store;
    RecoverFacts(w, tables, recovered, last, newLog, w');
    DiskParts(d, w.logged, w.total, w.horizon);
    RecoveredIsInv(recovered, last, w.logged, w.horizon, newLog);
    RecoveredDisk(s.disk, w.logged, w.horizon);
    NothingToInstall(s.run, newLog, newLog);
    OneVersionInUse(s.run.db, s.disk.tables);
    OneEmptyLog(s.disk.logs, newLog, s.run.db);
    RecoveredPending(s.run, w.logged, w.acked);
    OpeningCollects(s.run.db, s.disk.tables);
    RecoveredManifest(w, tables, recovered, last, newLog, w');
  }

  // A recovery's new manifest: a snapshot of the version it found, then the replayed logs.
  lemma RecoverIsNews(v: Version, nextFile: nat, tables: seq<File>)
    requires NumbersBelow(v, nextFile)
    requires forall i | 0 <= i < |tables| :: nextFile <= tables[i].number
    requires forall i, j | 0 <= i < j < |tables| :: tables[i].number < tables[j].number
    requires forall l: nat, f :: Mentions([SnapshotEdit(v)], l, f) <==> l < NUM_LEVELS && f in v[l]
    ensures IsNews([SnapshotEdit(v)], RecoverEdit(tables))
  {
    hide Mentions, SnapshotEdit;
    var edit := RecoverEdit(tables);
    forall a | a in edit.added
      ensures exists i :: 0 <= i < |tables| && a == (0, tables[i])
    {
      var i :| 0 <= i < |edit.added| && edit.added[i] == a;
      assert a == (0, tables[i]);
    }
  }

  // Every file is where its manifest record put it.
  lemma RecoveredSettled(v: Version, tables: seq<File>, v': Version, n: nat)
    requires Sound(v') && Saves(v, ApplyTo(NothingPending(), RecoverEdit(tables)), v') && NumbersBelow(v', n)
    requires forall l: nat, f :: Mentions([SnapshotEdit(v)], l, f) <==> l < NUM_LEVELS && f in v[l]
    requires AddsTables(v, tables, v')
    ensures IsSettled([SnapshotEdit(v), RecoverEdit(tables)], v', n, {})
  {
    var edit, manifest := RecoverEdit(tables), [SnapshotEdit(v), RecoverEdit(tables)];
    assert manifest == [SnapshotEdit(v)] + [edit];
    assert UniqueNumbers(v');
    hide Mentions, SnapshotEdit, Sound, Saves, ApplyTo;
    forall l: nat, f | Mentions(manifest, l, f)
      ensures l < NUM_LEVELS && f in v'[l]
    {
      MentionsMore([SnapshotEdit(v)], edit, l, f);
      if (l, f) in edit.added {
        var i :| 0 <= i < |edit.added| && edit.added[i] == (l, f);
        assert (l, f) == (0, tables[i]) && f in tables;
        assert f in v'[0];
      } else {
        assert f in v[l];
      }
    }
  }

  lemma RecoveredManifest(w: World, tables: seq<File>, recovered: Version, last: SequenceNumber, newLog: nat, w': World)
    requires WorldOk(w) && w.Down? && RecoverAction(w, tables, recovered, last, newLog, w')
    ensures w'.Up?
    ensures var s := w'.store;
            ManifestOk(s.disk.manifest, s.disk.version, s.run.db.nextFile, Reserved(s.bg, s.install, s.run.db.pendingOutputs))
  {
    hide DiskOk, AreReplayed, IsRecoveredSequence, RecoverAction, Saves, ApplyTo, Sound, NumbersBelow, Numbers, IsManifest, IsSettled, Mentions, IsNews, AddsTables, Replayable, LogEntries, Contents, ReadsAlike, IsDense, Reserved, Recoverable, SnapshotEdit, RecoverEdit;
    var d := w.disk;
    RecoverNumbers(w, tables, recovered, last, newLog, w');
    RecoverFacts(w, tables, recovered, last, newLog, w');
    DiskParts(d, w.logged, w.total, w.horizon);
    ReplayedIsReplayable(d, tables);
    RecoverEditAdds(d.version, tables, recovered);
    SnapshotIsManifest(d.version);
    RecoverIsNews(d.version, d.nextFile, tables);
    ManifestGrows([SnapshotEdit(d.version)], d.version, RecoverEdit(tables), recovered);
    RecoveredSettled(d.version, tables, recovered, newLog + 1);
    assert [SnapshotEdit(d.version)] + [RecoverEdit(tables)] == [SnapshotEdit(d.version), RecoverEdit(tables)];
  }

  lemma RecoverNumbers(w: World, tables: seq<File>, recovered: Version, last: SequenceNumber, newLog: nat, w': World)
    requires w.Down? && RecoverAction(w, tables, recovered, last, newLog, w')
    ensures AreReplayed(w.disk, tables) && Saves(w.disk.version, ApplyTo(NothingPending(), RecoverEdit(tables)), recovered)
    ensures forall i | 0 <= i < |tables| :: w.disk.nextFile <= tables[i].number
    ensures forall i, j | 0 <= i < j < |tables| :: tables[i].number < tables[j].number
    ensures w'.Up?
    ensures var s := w'.store;
            && s.disk.manifest == [SnapshotEdit(w.disk.version), RecoverEdit(tables)] && s.disk.version == recovered
            && s.run.db.nextFile == newLog + 1 && Reserved(s.bg, s.install, s.run.db.pendingOutputs) == {}
  {
    hide Saves, ApplyTo, IsRecoveredSequence, LogEntries, SnapshotEdit;
  }

  lemma OpeningCollects(db: State, tables: set<nat>)
    ensures TasksOk(Opening(), None, db, tables)
  {
    assert 0 in Opening().tasks;
  }

  lemma OneVersionInUse(s: State, tables: set<nat>)
    requires Numbers(s.version) <= tables && s.running.None? && s.pendingOutputs == {}
    ensures TablesOk(s, {}, tables)
  {
    hide Numbers;
  }

  lemma OneEmptyLog(logs: map<nat, seq<Entry>>, log: nat, s: State)
    requires log in logs && logs[log] == [] && (forall k | k in logs :: k <= log) && log < s.nextFile
    requires s.mem == [] && s.imm.None?
    ensures LogsOk(logs, log, log, 0, s, [], false)
  {
    assert Elements([]) + Elements([]) == Elements([]);
  }

  lemma RecoveredPending(r: Run, logged: set<Entry>, acked: nat)
    requires r.history == logged && r.db.inserted == 0 && r.db.lastSequence < MAX_SEQUENCE
    requires IsDense(logged, r.db.lastSequence) && acked <= r.db.lastSequence
    ensures PendingOk(r, [], logged, acked)
  {
    hide DistinctStamps;
  }

  lemma CrashInRecoveryKeeps(w: World, tables: seq<File>, newLog: nat, w': World)
    requires WorldOk(w) && w.Down? && CrashInRecoveryAction(w, tables, newLog, w')
    ensures WorldOk(w')
  {
    var d := w.disk;
    hide DiskOk, Numbers, IsManifest;
    OnDiskTables(d, w.logged, w.total, w.horizon);
    OtherTablesKeepDisk(d, w.logged, w.total, w.horizon, w'.disk.tables);
    NewLogKeepsDisk(d.(tables := w'.disk.tables), w.logged, w.total, w.horizon, newLog);
  }

  lemma CrashKeeps(s: Store)
    requires StoreOk(s)
    ensures WorldOk(Down(s.disk, s.logged, Total(s.run.db, s.pending), s.acked, s.run.horizon))
  {
    hide DiskOk, Inv, LogsOk, InstallOk, TablesOk, TasksOk, IsManifest, IsSettled;
  }

  // ---- Every run

  lemma ActKeepsWorldOk(w: World, a: Action, w': World)
    requires WorldOk(w) && Act(w, a, w')
    ensures WorldOk(w')
  {
    hide StoreOk, DiskOk, LogRecordAction, InsertPendingAction, AcknowledgeAction, SwitchLogAction, QuietAction;
    hide ScheduleAction, EndTaskAction, WorkAction, BeginBuildAction, WriteTableAction, EndBuildAction, ResumeAction;
    hide BeginInstallAction, FinishInstallAction, DeleteLogAction, DeleteTableAction, RecoverAction, CrashInRecoveryAction, Total;
    match a
    case LogRecord(batch) => LogRecordKeeps(w.store, batch, w'.store);
    case InsertPending => InsertPendingKeeps(w.store, w'.store);
    case Acknowledge => AcknowledgeKeeps(w.store, w'.store);
    case SwitchLog => SwitchLogKeeps(w.store, w'.store);
    case Quiet(step) => QuietKeeps(w.store, step, w'.store);
    case Schedule(t) => ScheduleKeeps(w.store, t, w'.store);
    case EndTask(t) => EndTaskKeeps(w.store, t, w'.store);
    case Work(t, step) =>
      WorkIsNext(w.store, t, step, w'.store);
      WorkKeeps(w.store, t, step, w'.store);
    case BeginBuild(t) => BeginBuildKeeps(w.store, t, w'.store);
    case WriteTable(t) => WriteTableKeeps(w.store, t, w'.store);
    case EndBuild(t) => EndBuildKeeps(w.store, t, w'.store);
    case BeginInstall(t, step, after) => BeginInstallKeeps(w.store, t, step, after, w'.store);
    case FinishInstall(t) => FinishInstallKeeps(w.store, t, w'.store);
    case Resume(t) => ResumeKeeps(w.store, t, w'.store);
    case Pin => PinKeeps(w.store, w'.store);
    case Unpin(v) => UnpinKeeps(w.store, v, w'.store);
    case DeleteLog(t, n) => DeleteLogKeeps(w.store, t, n, w'.store);
    case DeleteTable(t, n) => DeleteTableKeeps(w.store, t, n, w'.store);
    case Crash => CrashKeeps(w.store);
    case Recover(tables, recovered, last, newLog) => RecoverKeeps(w, tables, recovered, last, newLog, w');
    case CrashInRecovery(tables, newLog) => CrashInRecoveryKeeps(w, tables, newLog, w');
  }

  lemma FreshIsOk(w: World)
    requires Fresh(w)
    ensures WorldOk(w)
  {
    var d := w.disk;
    EmptyManifest(d.manifest[0]);
    assert forall i | 0 <= i < NUM_LEVELS :: d.version[i] == [];
    EmptyIsSound(d.version);
    hide Sound, Contents, Lookup, IsManifest;
    assert LogEntries(d) == {} && Recoverable(d) == {};
  }

  ghost predicate IsHistoryOfWorlds(worlds: seq<World>, actions: seq<Action>) {
    && |worlds| == |actions| + 1
    && Fresh(worlds[0])
    && forall i | 0 <= i < |actions| :: Act(worlds[i], actions[i], worlds[i+1])
  }

  lemma {:induction false} EveryWorldIsOk(worlds: seq<World>, actions: seq<Action>, n: nat)
    requires IsHistoryOfWorlds(worlds, actions) && n < |worlds|
    ensures WorldOk(worlds[n])
  {
    hide WorldOk, Act;
    if n == 0 {
      FreshIsOk(worlds[0]);
    } else {
      EveryWorldIsOk(worlds, actions, n - 1);
      ActKeepsWorldOk(worlds[n-1], actions[n-1], worlds[n]);
    }
  }

  function Logged(w: World): set<Entry> {
    if w.Up? then w.store.logged else w.logged
  }

  function Acked(w: World): nat {
    if w.Up? then w.store.acked else w.acked
  }

  // Nothing logged or acknowledged is ever forgotten, crash or not.
  lemma {:induction false} LoggedOnlyGrows(worlds: seq<World>, actions: seq<Action>, m: nat, n: nat)
    requires IsHistoryOfWorlds(worlds, actions) && m <= n < |worlds|
    ensures Logged(worlds[m]) <= Logged(worlds[n]) && Acked(worlds[m]) <= Acked(worlds[n])
  {
    hide WorldOk, Act, Fresh, Logged, Acked;
    if m < n {
      LoggedOnlyGrows(worlds, actions, m, n - 1);
      EveryWorldIsOk(worlds, actions, n - 1);
      OneActionGrows(worlds[n-1], actions[n-1], worlds[n]);
    }
  }

  lemma OneActionGrows(w: World, a: Action, w': World)
    requires Act(w, a, w') && WorldOk(w)
    ensures Logged(w) <= Logged(w') && Acked(w) <= Acked(w')
  {
    hide WorldOk, AcknowledgeAction, NextRun, Extends, Installed, EditOf, SnapshotEdit, Saves, ApplyTo, AreReplayed, IsRecoveredSequence, IsBatch, IsSafe, LiveFiles;
    if a.Acknowledge? {
      UpIsOk(w);
      AcknowledgedGrows(w.store, w'.store);
    }
  }

  lemma UpIsOk(w: World)
    requires WorldOk(w) && w.Up?
    ensures StoreOk(w.store)
  {
    hide StoreOk;
  }

  lemma AcknowledgedGrows(s: Store, s': Store)
    requires StoreOk(s) && AcknowledgeAction(s, s')
    ensures s.logged <= s'.logged && s.acked <= s'.acked
  {
    hide NextRun, DiskOk, Inv, LogsOk, InstallOk, TablesOk, TasksOk, ManifestOk;
    PublishedNext(s.run, s'.run);
  }

  // ---- The main results

  // The database after any run, with any number of crashes and recoveries in it: what was
  // logged is the entries numbered 1, 2, 3 and so on without a gap, every acknowledged number
  // is among them, and a read at the last sequence number or a held snapshot is a read of
  // exactly what was logged.
  lemma ReadsAreOfWhatWasLogged(worlds: seq<World>, actions: seq<Action>, n: nat, user: UserKey, s: SequenceNumber)
    requires IsHistoryOfWorlds(worlds, actions) && n < |worlds| && worlds[n].Up?
    requires var db := worlds[n].store.run.db; s == db.lastSequence || s in db.snapshots
    ensures var st := worlds[n].store;
            && Lookup(Live(st.run.db), user, s) == Lookup(st.logged, user, s)
            && IsDense(st.logged, Total(st.run.db, st.pending))
            && st.acked <= st.run.db.lastSequence
  {
    hide IsHistoryOfWorlds, DiskOk, LogsOk, InstallOk, TablesOk, Inv, Lookup, Live, IsDense, DistinctStamps;
    EveryWorldIsOk(worlds, actions, n);
    var st := worlds[n].store;
    DiskNumbering(st.disk, st.logged, Total(st.run.db, st.pending), st.run.horizon);
    SnapshotIsAboveHorizon(st.run, s);
    InvParts(st.run);
    PendingIsInvisible(st.run, st.pending, st.logged, st.acked, user, s);
  }

  lemma SnapshotIsAboveHorizon(r: Run, s: SequenceNumber)
    requires Inv(r) && (s == r.db.lastSequence || s in r.db.snapshots)
    ensures r.horizon <= s <= r.db.lastSequence
  {
    hide Structure, HistoryOk, ReadsKept, MergeOk;
    if s in r.db.snapshots {
      var i :| 0 <= i < |r.db.snapshots| && r.db.snapshots[i] == s;
    }
  }

  lemma PendingIsInvisible(r: Run, pending: seq<Entry>, logged: set<Entry>, acked: nat, user: UserKey, s: SequenceNumber)
    requires HistoryOk(r) && ReadsKept(r) && PendingOk(r, pending, logged, acked) && IsDense(logged, Total(r.db, pending))
    requires r.horizon <= s <= r.db.lastSequence
    ensures Lookup(Live(r.db), user, s) == Lookup(logged, user, s)
  {
    BatchIsNewer(pending, r.db.lastSequence + r.db.inserted, r.history);
    assert Visible(logged, user, s) == Visible(r.history, user, s);
    hide Lookup, Live, DistinctStamps, IsBatch;
    SameVisibleReadsSame(r.history, logged, user, s);
  }

  // Right after recovery everything logged before the crash is visible, and nothing else is.
  lemma RecoveryRestoresEverything(worlds: seq<World>, actions: seq<Action>, n: nat, user: UserKey)
    requires IsHistoryOfWorlds(worlds, actions) && n < |actions| && actions[n].Recover?
    ensures var st := worlds[n+1].store;
            && worlds[n+1].Up? && st.logged == Logged(worlds[n])
            && st.run.db.lastSequence == Total(st.run.db, st.pending)
            && IsDense(st.logged, st.run.db.lastSequence)
            && Acked(worlds[n]) <= st.run.db.lastSequence
            && Lookup(Live(st.run.db), user, st.run.db.lastSequence) == Lookup(Logged(worlds[n]), user, st.run.db.lastSequence)
  {
    assert Act(worlds[n], actions[n], worlds[n+1]);
    ReadsAreOfWhatWasLogged(worlds, actions, n + 1, user, worlds[n+1].store.run.db.lastSequence);
  }

  // What a world's readers can find: in a running database all live entries, and after a crash
  // what recovery would find.
  ghost function Holdings(w: World): set<Entry> {
    if w.Up? then Live(w.store.run.db) else Recoverable(w.disk)
  }

  // Sequence numbers at which the world can still be read.
  ghost predicate IsReadable(w: World, s: SequenceNumber) {
    if w.Up? then s == w.store.run.db.lastSequence || s in w.store.run.db.snapshots else w.horizon <= s
  }

  lemma OkReadsAsLogged(w: World, user: UserKey, s: SequenceNumber)
    requires WorldOk(w) && IsReadable(w, s)
    ensures Lookup(Holdings(w), user, s) == Lookup(Logged(w), user, s) && DistinctStamps(Logged(w))
  {
    hide DiskOk, LogsOk, InstallOk, TablesOk, TasksOk, ManifestOk, IsManifest, Inv, Lookup, Live, Recoverable, DistinctStamps;
    if w.Up? {
      var st := w.store;
      DiskNumbering(st.disk, st.logged, Total(st.run.db, st.pending), st.run.horizon);
      SnapshotIsAboveHorizon(st.run, s);
      InvParts(st.run);
      PendingIsInvisible(st.run, st.pending, st.logged, st.acked, user, s);
    } else {
      DiskParts(w.disk, w.logged, w.total, w.horizon);
    }
  }

  lemma HoldingsReadAsLogged(worlds: seq<World>, actions: seq<Action>, n: nat, user: UserKey, s: SequenceNumber)
    requires IsHistoryOfWorlds(worlds, actions) && n < |worlds| && IsReadable(worlds[n], s)
    ensures Lookup(Holdings(worlds[n]), user, s) == Lookup(Logged(worlds[n]), user, s) && DistinctStamps(Logged(worlds[n]))
  {
    hide IsHistoryOfWorlds, WorldOk, Lookup, Holdings, Logged;
    EveryWorldIsOk(worlds, actions, n);
    OkReadsAsLogged(worlds[n], user, s);
  }

  // A write acknowledged at step `m` is read at every later step, by the database while it is up
  // and by recovery while it is down: a read of its user key gives it, or the newest of the
  // writes logged over it since.
  lemma AcknowledgedWritesSurvive(worlds: seq<World>, actions: seq<Action>, m: nat, n: nat, e: Entry, s: SequenceNumber)
    requires IsHistoryOfWorlds(worlds, actions) && m <= n < |worlds|
    requires e in Logged(worlds[m]) && e.key.sequence <= Acked(worlds[m])
    requires IsReadable(worlds[n], s) && e.key.sequence <= s
    ensures exists x :: IsNewest(Logged(worlds[n]), e.key.user, s, x) && e.key.sequence <= x.key.sequence
                        && Lookup(Holdings(worlds[n]), e.key.user, s) == Reading(x)
    ensures IsNewest(Logged(worlds[n]), e.key.user, s, e) ==> Lookup(Holdings(worlds[n]), e.key.user, s) == Reading(e)
  {
    hide IsHistoryOfWorlds, DistinctStamps, Lookup, Holdings, IsReadable, Logged, Acked;
    LoggedOnlyGrows(worlds, actions, m, n);
    HoldingsReadAsLogged(worlds, actions, n, e.key.user, s);
    var logged := Logged(worlds[n]);
    assert e in Visible(logged, e.key.user, s);
    NewestExists(logged, e.key.user, s);
    var x :| IsNewest(logged, e.key.user, s, x);
    LookupIs(logged, e.key.user, s, x);
    if IsNewest(logged, e.key.user, s, e) {
      LookupIs(logged, e.key.user, s, e);
    }
  }

  // A task that has built the table of a flush, chosen a file to move or merged to the end can
  // begin to install the result.
  lemma InstallIsPossible(s: Store, task: nat, step: Step, after: Version)
    requires task in s.bg.tasks && NextRun(s.run, step, Installed(s.run, step, after))
    requires match s.bg.tasks[task]
             case Built(number) => step.Flush? && step.number == number
             case Choosing => step.Move?
             case Merging => step.FinishMerge?
             case _ => false
    ensures exists s' :: BeginInstallAction(s, task, step, after, s')
  {
    hide NextRun;
    var logNumber := if step.Flush? then s.log else s.logNumber;
    var s' := s.(install := Some(Install(step, after, logNumber)),
                 bg := EnterPhase(s.bg, task, Installing),
                 disk := s.disk.(manifest := s.disk.manifest + [EditOf(s.run.db, step)], version := after, logNumber := logNumber,
                                 lastSequence := s.run.db.lastSequence, nextFile := s.run.db.nextFile));
    assert BeginInstallAction(s, task, step, after, s');
  }

  // An acknowledgement covers everything logged so far.
  lemma AcknowledgesAll(worlds: seq<World>, actions: seq<Action>, n: nat)
    requires IsHistoryOfWorlds(worlds, actions) && n < |actions| && actions[n].Acknowledge?
    ensures forall e | e in Logged(worlds[n+1]) :: e.key.sequence <= Acked(worlds[n+1])
  {
    hide DiskOk, Inv, LogsOk, InstallOk, TablesOk;
    EveryWorldIsOk(worlds, actions, n + 1);
    assert Act(worlds[n], actions[n], worlds[n+1]);
    AllAtOrBelow(worlds[n+1].store);
  }

  lemma AllAtOrBelow(s: Store)
    requires StoreOk(s) && s.pending == [] && s.run.db.inserted == 0
    ensures forall e | e in s.logged :: e.key.sequence <= s.run.db.lastSequence
  {
    hide Inv, LogsOk, InstallOk, TablesOk, PendingOk, TasksOk, ManifestOk;
  }

  // While the database is up, the last sequence number covers everything acknowledged.
  lemma AcknowledgedIsReadable(worlds: seq<World>, actions: seq<Action>, m: nat, n: nat)
    requires IsHistoryOfWorlds(worlds, actions) && m <= n < |worlds|
    ensures worlds[n].Up? ==> Acked(worlds[m]) <= worlds[n].store.run.db.lastSequence
    ensures worlds[n].Down? ==> Acked(worlds[m]) <= worlds[n].total < MAX_SEQUENCE && IsReadable(worlds[n], worlds[n].total)
  {
    hide IsHistoryOfWorlds, DiskOk, Inv, LogsOk, InstallOk, TablesOk, Logged;
    LoggedOnlyGrows(worlds, actions, m, n);
    EveryWorldIsOk(worlds, actions, n);
    if worlds[n].Down? {
      DiskParts(worlds[n].disk, worlds[n].logged, worlds[n].total, worlds[n].horizon);
    }
  }

  // The number of a flush whose table is written and is in no version yet.
  function FlushUnderWay(phase: Phase): set<nat> {
    match phase
    case Building(number, written) => if written then {number} else {}
    case Built(number) => {number}
    case _ => {}
  }

  // No table of the current version, of a version a reader holds, of a running merge's inputs
  // or of an unfinished output is ever missing; nor is one that the manifest names, nor the one
  // that a flush has written, also when its number is not protected any more.
  lemma FilesInUseAreKept(worlds: seq<World>, actions: seq<Action>, n: nat)
    requires IsHistoryOfWorlds(worlds, actions) && n < |worlds|
    ensures worlds[n].Up? ==>
              var st := worlds[n].store;
              && LiveFiles(st.run.db, st.pinned) + st.run.db.pendingOutputs <= st.disk.tables
              && (ImmEntries(st.run.db) != [] ==>
                    forall t | t in st.bg.tasks :: FlushUnderWay(st.bg.tasks[t]) <= st.disk.tables)
    ensures var d := if worlds[n].Up? then worlds[n].store.disk else worlds[n].disk;
            Numbers(d.version) <= d.tables
  {
    hide IsHistoryOfWorlds, DiskOk, LogsOk, InstallOk, Inv, PendingOk, LiveFiles, NumbersBelow;
    EveryWorldIsOk(worlds, actions, n);
    if worlds[n].Up? {
      var st := worlds[n].store;
      OnDiskTables(st.disk, st.logged, Total(st.run.db, st.pending), st.run.horizon);
    } else {
      OnDiskTables(worlds[n].disk, worlds[n].logged, worlds[n].total, worlds[n].horizon);
    }
  }

  // The scheduled flag keeps background tasks apart: there is at most one, and while it waits
  // for a manifest write, or builds a table, nobody removes files, merges or installs.
  lemma OneTaskAtATime(worlds: seq<World>, actions: seq<Action>, n: nat, t: nat, u: nat)
    requires IsHistoryOfWorlds(worlds, actions) && n < |worlds| && worlds[n].Up?
    requires t in worlds[n].store.bg.tasks && u in worlds[n].store.bg.tasks
    ensures t == u && worlds[n].store.bg.scheduled
    ensures worlds[n].store.install.Some? <==> worlds[n].store.bg.tasks[t].Installing?
  {
    hide IsHistoryOfWorlds, DiskOk, LogsOk, InstallOk, Inv, PendingOk, LiveFiles, NumbersBelow;
    EveryWorldIsOk(worlds, actions, n);
  }

  // A built table can be named by the manifest: its number is below the next one, above those
  // of all tables in the version, and promised to nobody else.
  lemma BuiltTableIsNewest(worlds: seq<World>, actions: seq<Action>, n: nat, t: nat)
    requires IsHistoryOfWorlds(worlds, actions) && n < |worlds| && worlds[n].Up?
    requires t in worlds[n].store.bg.tasks && worlds[n].store.bg.tasks[t].Built?
    ensures var db, number := worlds[n].store.run.db, worlds[n].store.bg.tasks[t].number;
            db.imm.Some? && NumbersBelow(db.version, number) && number < db.nextFile && number !in db.pendingOutputs
  {
    hide IsHistoryOfWorlds, DiskOk, LogsOk, InstallOk, Inv, PendingOk, LiveFiles, NumbersBelow;
    EveryWorldIsOk(worlds, actions, n);
  }

  // Replaying the manifest, at any moment, gives the version that was last made durable.
  lemma ManifestGivesVersion(worlds: seq<World>, actions: seq<Action>, n: nat, v: Version)
    requires IsHistoryOfWorlds(worlds, actions) && n < |worlds|
    requires var d := if worlds[n].Up? then worlds[n].store.disk else worlds[n].disk;
             Saves(NoFiles(), ApplyAll(NothingPending(), d.manifest), v)
    ensures var d := if worlds[n].Up? then worlds[n].store.disk else worlds[n].disk;
            && v == d.version && NeverReadded(NoFiles(), d.manifest)
            && (worlds[n].Up? && worlds[n].store.install.None? ==> v == worlds[n].store.run.db.version)
  {
    hide IsHistoryOfWorlds, DiskOk, LogsOk, Inv, PendingOk, TablesOk, TasksOk, IsSettled, Reaches, NeverReadded, Saves, ApplyAll;
    EveryWorldIsOk(worlds, actions, n);
    var d := if worlds[n].Up? then worlds[n].store.disk else worlds[n].disk;
    ReplayIs(d.manifest, d.version, v);
  }

  // The logs that the manifest would have replayed hold every entry that is in no table yet.
  lemma LogsInUseAreKept(worlds: seq<World>, actions: seq<Action>, n: nat)
    requires IsHistoryOfWorlds(worlds, actions) && n < |worlds| && worlds[n].Up?
    ensures var st := worlds[n].store;
            LogEntries(st.disk) == Elements(st.run.db.mem) + Elements(st.pending)
                                   + if FlushedOnDisk(st.install) then {} else Elements(ImmEntries(st.run.db))
  {
    hide IsHistoryOfWorlds, DiskOk, LogsOk, InstallOk, Inv, PendingOk, TablesOk;
    EveryWorldIsOk(worlds, actions, n);
    var st := worlds[n].store;
    LogsHoldMemTables(st.disk, st.log, st.immLog, st.run.db, st.pending, FlushedOnDisk(st.install));
  }

  // While the lock is released during a manifest write, nothing happens that would make the
  // version being installed anything other than the next step of the current one.
  lemma InstallsAreSteps(worlds: seq<World>, actions: seq<Action>, n: nat)
    requires IsHistoryOfWorlds(worlds, actions) && n < |actions| && actions[n].FinishInstall?
    ensures worlds[n].Up? && worlds[n+1].Up? && worlds[n].store.install.Some?
    ensures var s, s' := worlds[n].store, worlds[n+1].store;
            NextRun(s.run, s.install.value.step, s'.run) && s'.run.db.version == s'.disk.version
  {
    hide DiskOk, LogsOk, InstallOk, Inv, PendingOk, TablesOk, NextRun, Installed, Fresh;
    assert Act(worlds[n], actions[n], worlds[n+1]);
    EveryWorldIsOk(worlds, actions, n);
    var s := worlds[n].store;
    InstallParts(s.install.value, s.run, s.log, s.logNumber, s.disk.version, s.disk.logNumber);
    InstalledLeavesRest(s.run, s.install.value.step, s.install.value.after);
  }
}
