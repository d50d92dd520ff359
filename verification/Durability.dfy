// Logs, the manifest, obsolete files, crashes and recovery, around the database state machine.

module Durability {
  import opened InternalKeys
  import opened Versions
  import opened VersionEdits
  import opened LevelInvariants
  import opened Manifests
  import opened Database

  // What survives a crash. `version` is what replaying the current manifest yields, and the
  // numbers are those of its last record; a log is the entries of its records in order.
  datatype Disk = Disk(
    manifest: seq<VersionEdit>,
    version: Version,
    logNumber: nat,
    lastSequence: SequenceNumber,
    nextFile: nat,
    tables: set<nat>,
    logs: map<nat, seq<Entry>>)

  // A manifest record that is written but whose version is not current yet: the mutex is
  // released in between.
  datatype Install = Install(step: Step, after: Version, logNumber: nat)

  // What a background task is doing. The lock is released while it is merging, building and
  // installing.
  datatype Phase =
    | Choosing
    | Merging
    | Building(number: nat, written: bool) // the table of the immutable memtable
    | Built(number: nat)                   // its number is not protected any more
    | Installing
    | Collecting                           // removing obsolete files

  // Background tasks by thread. A flush's table number is protected while the table is built.
  datatype Background = Background(scheduled: bool, tasks: map<nat, Phase>, flushOutputs: set<nat>)

  datatype Store = Store(
    run: Run,
    log: nat,                 // number of the log of the memtable
    immLog: nat,              // number of the log of the immutable memtable
    logNumber: nat,           // the version set's log number
    pending: seq<Entry>,      // logged and not yet in the memtable
    install: Option<Install>,
    pinned: set<Version>,     // versions held by readers
    disk: Disk,
    logged: set<Entry>,       // every entry whose record reached a log
    acked: nat,               // the largest acknowledged sequence number
    bg: Background)

  datatype World =
    | Up(store: Store)
    | Down(disk: Disk, logged: set<Entry>, total: nat, acked: nat, horizon: SequenceNumber)

  datatype Action =
    | LogRecord(batch: seq<Entry>)
    | InsertPending
    | Acknowledge
    | SwitchLog
    | Quiet(step: Step)
    | Schedule(task: nat)
    | EndTask(task: nat)
    | Work(task: nat, step: Step)
    | BeginBuild(task: nat)
    | WriteTable(task: nat)
    | EndBuild(task: nat)
    | BeginInstall(task: nat, step: Step, after: Version)
    | FinishInstall(task: nat)
    | Resume(task: nat)
    | DeleteLog(task: nat, number: nat)
    | DeleteTable(task: nat, number: nat)
    | Pin
    | Unpin(version: Version)
    | Crash
    | Recover(tables: seq<File>, recovered: Version, last: SequenceNumber, newLog: nat)
    | CrashInRecovery(tables: seq<File>, newLog: nat)

  function Numbers(v: Version): set<nat> {
    set i, f | 0 <= i < NUM_LEVELS && f in v[i] :: f.number
  }

  // The entries of the logs that recovery replays.
  ghost function LogEntries(d: Disk): set<Entry> {
    set k, e | k in d.logs && d.logNumber <= k && e in d.logs[k] :: e
  }

  ghost function Recoverable(d: Disk): set<Entry> {
    Contents(d.version) + LogEntries(d)
  }

  function Total(s: State, pending: seq<Entry>): nat {
    s.lastSequence + s.inserted + |pending|
  }

  // ---- The actions

  // A batch's entries are numbered from the next sequence number on.
  ghost predicate IsBatch(batch: seq<Entry>, last: nat) {
    && last + |batch| < MAX_SEQUENCE
    && forall i | 0 <= i < |batch| ::
         batch[i].key.sequence == last + 1 + i && (batch[i].key.kind.Deletion? ==> batch[i].value == "")
  }

  ghost predicate LogRecordAction(s: Store, batch: seq<Entry>, s': Store) {
    && s.pending == [] && s.run.db.inserted == 0 && s.log in s.disk.logs
    && IsBatch(batch, s.run.db.lastSequence)
    && s' == s.(pending := batch, logged := s.logged + Elements(batch),
                disk := s.disk.(logs := s.disk.logs[s.log := s.disk.logs[s.log] + batch]))
  }

  ghost predicate InsertPendingAction(s: Store, s': Store) {
    && s.pending != []
    && var e := s.pending[0];
    && NextRun(s.run, Insert(e.key.user, e.key.kind, e.value), s'.run)
    && s' == s.(run := s'.run, pending := s.pending[1..])
  }

  ghost predicate AcknowledgeAction(s: Store, s': Store) {
    && s.pending == []
    && NextRun(s.run, Publish, s'.run)
    && s' == s.(run := s'.run, acked := s'.run.db.lastSequence)
  }

  ghost predicate SwitchLogAction(s: Store, s': Store) {
    && s.pending == []
    && var number := s.run.db.nextFile;
    && NextRun(s.run.(db := s.run.db.(nextFile := number + 1)), SwitchMemTable, s'.run)
    && s' == s.(run := s'.run, log := number, immLog := s.log, disk := s.disk.(logs := s.disk.logs[number := []]))
  }

  // Steps of clients that touch no log and no manifest.
  ghost predicate QuietAction(s: Store, step: Step, s': Store) {
    && (step.TakeSnapshot? || step.ReleaseSnapshot? || step.AllocateNumber?)
    && NextRun(s.run, step, s'.run)
    && s' == s.(run := s'.run)
  }

  // ---- The background tasks

  predicate IsIn(bg: Background, task: nat, phases: set<Phase>) {
    task in bg.tasks && bg.tasks[task] in phases
  }

  function EnterPhase(bg: Background, task: nat, phase: Phase): Background {
    bg.(tasks := bg.tasks[task := phase])
  }

  // A task is scheduled only while none is.
  ghost predicate ScheduleAction(s: Store, task: nat, s': Store) {
    && !s.bg.scheduled && task !in s.bg.tasks
    && s' == s.(bg := EnterPhase(s.bg, task, Choosing).(scheduled := true))
  }

  ghost predicate EndTaskAction(s: Store, task: nat, s': Store) {
    && IsIn(s.bg, task, {Choosing, Collecting}) && s.run.db.running.None?
    && s' == s.(bg := s.bg.(scheduled := false, tasks := s.bg.tasks - {task}))
  }

  function PhaseAfter(step: Step): Phase {
    if step.AbandonMerge? then Collecting else Merging
  }

  // The steps of a merge before its install. Opening an output creates its table.
  ghost predicate WorkAction(s: Store, task: nat, step: Step, s': Store) {
    && (step.BeginMerge? || step.OpenOutput? || step.AbandonMerge?)
    && IsIn(s.bg, task, {if step.BeginMerge? then Choosing else Merging})
    && Extends(s.run, step, s'.run)
    && s' == s.(run := s'.run,
                bg := EnterPhase(s.bg, task, PhaseAfter(step)),
                disk := s.disk.(tables := s.disk.tables + Created(s.run.db, step)))
  }

  function Created(s: State, step: Step): set<nat> {
    if step.OpenOutput? then {s.nextFile} else {}
  }

  // Takes a number for the table of the immutable memtable, also in the middle of a merge.
  ghost predicate BeginBuildAction(s: Store, task: nat, s': Store) {
    && IsIn(s.bg, task, {Choosing, Merging}) && s.run.db.imm.Some?
    && var number := s.run.db.nextFile;
    && NextRun(s.run, AllocateNumber, s'.run)
    && s' == s.(run := s'.run,
                bg := EnterPhase(s.bg, task, Building(number, false)).(flushOutputs := s.bg.flushOutputs + {number}))
  }

  // An empty memtable gets no table.
  ghost predicate WriteTableAction(s: Store, task: nat, s': Store) {
    && task in s.bg.tasks && s.bg.tasks[task].Building? && ImmEntries(s.run.db) != []
    && var number := s.bg.tasks[task].number;
    && s' == s.(bg := EnterPhase(s.bg, task, Building(number, true)),
                disk := s.disk.(tables := s.disk.tables + {number}))
  }

  ghost predicate EndBuildAction(s: Store, task: nat, s': Store) {
    && task in s.bg.tasks && s.bg.tasks[task].Building?
    && (ImmEntries(s.run.db) != [] ==> s.bg.tasks[task].written)
    && var number := s.bg.tasks[task].number;
    && s' == s.(bg := EnterPhase(s.bg, task, Built(number)).(flushOutputs := s.bg.flushOutputs - {number}))
  }

  // The run in which the version that `step` makes has become current.
  function Installed(r: Run, step: Step, after: Version): Run {
    var s := r.db.(version := after);
    r.(db := if step.Flush? then s.(imm := None)
             else if step.FinishMerge? then s.(running := None, pendingOutputs := {})
             else s)
  }

  // The table of a flush, unless the memtable was empty.
  function NewTables(s: State, step: Step): set<nat> {
    if step.Flush? && ImmEntries(s) != [] then {step.number} else {}
  }

  // A flush is installed by the thread that built its table, a merge by the one that merged.
  predicate MayInstall(phase: Phase, step: Step) {
    match step
    case Flush(_, number, _) => phase == Built(number)
    case Move(_) => phase == Choosing
    case FinishMerge(_) => phase == Merging
    case _ => false
  }

  // The manifest record of a step. The flush of an empty memtable adds no table.
  ghost function EditOf(s: State, step: Step): VersionEdit {
    match step
    case Flush(level, number, size) =>
      if ImmEntries(s) != [] && Sorted(ImmEntries(s)) then FlushEdit(level, FileMetaData(number, size, ImmEntries(s)))
      else VersionEdit({}, [])
    case Move(c) =>
      if |c.inputs0| == 1 then MoveEdit(c) else VersionEdit({}, [])
    case FinishMerge(outs) =>
      if s.running.Some? then MergeEdit(s.running.value.compaction, outs) else VersionEdit({}, [])
    case _ => VersionEdit({}, [])
  }

  // The manifest record of a flush says that earlier logs are no longer needed.
  ghost predicate BeginInstallAction(s: Store, task: nat, step: Step, after: Version, s': Store) {
    && task in s.bg.tasks && MayInstall(s.bg.tasks[task], step)
    && NextRun(s.run, step, Installed(s.run, step, after))
    && var logNumber := if step.Flush? then s.log else s.logNumber;
    && s' == s.(install := Some(Install(step, after, logNumber)),
                bg := EnterPhase(s.bg, task, Installing),
                disk := s.disk.(manifest := s.disk.manifest + [EditOf(s.run.db, step)], version := after, logNumber := logNumber,
                                lastSequence := s.run.db.lastSequence, nextFile := s.run.db.nextFile))
  }

  ghost predicate FinishInstallAction(s: Store, task: nat, s': Store) {
    && IsIn(s.bg, task, {Installing}) && s.install.Some?
    && var i := s.install.value;
    && s' == s.(run := Installed(s.run, i.step, i.after), logNumber := i.logNumber, install := None,
                bg := EnterPhase(s.bg, task, Collecting))
  }

  // A merge goes on after a flush in the middle of it.
  ghost predicate ResumeAction(s: Store, task: nat, s': Store) {
    && IsIn(s.bg, task, {Collecting}) && s.run.db.running.Some?
    && s' == s.(bg := EnterPhase(s.bg, task, Merging))
  }

  // Files in use: those of the current version, of versions held by readers, and of the
  // version a running merge reads.
  function LiveFiles(s: State, pinned: set<Version>): set<nat> {
    Numbers(s.version)
    + (set v, n | v in pinned && n in Numbers(v) :: n)
    + (if s.running.Some? then Numbers(s.running.value.base) else {})
  }

  ghost predicate DeleteLogAction(s: Store, task: nat, number: nat, s': Store) {
    && IsIn(s.bg, task, {Collecting}) && number < s.logNumber
    && s' == s.(disk := s.disk.(logs := map k | k in s.disk.logs && k != number :: s.disk.logs[k]))
  }

  // Files whose numbers protect them, besides those in use.
  function Protected(s: Store): set<nat> {
    s.run.db.pendingOutputs + s.bg.flushOutputs
  }

  ghost predicate DeleteTableAction(s: Store, task: nat, number: nat, s': Store) {
    && IsIn(s.bg, task, {Collecting}) && number !in LiveFiles(s.run.db, s.pinned) && number !in Protected(s)
    && s' == s.(disk := s.disk.(tables := s.disk.tables - {number}))
  }

  function RecoverEdit(tables: seq<File>): VersionEdit {
    VersionEdit({}, seq(|tables|, i requires 0 <= i < |tables| => (0, tables[i])))
  }

  // The replayed logs as level-0 tables, in log order, cut where the memtable filled up.
  ghost predicate AreReplayed(d: Disk, tables: seq<File>) {
    && (forall e :: e in LogEntries(d) <==> Holds(tables, e))
    && (forall i | 0 <= i < |tables| :: d.nextFile <= tables[i].number)
    && (forall i, j | 0 <= i < j < |tables| :: tables[i].number < tables[j].number)
    && (forall i, j, x, y | 0 <= i < j < |tables| && x in tables[i].entries && y in tables[j].entries ::
          x.key.sequence < y.key.sequence)
  }

  ghost predicate IsRecoveredSequence(d: Disk, last: SequenceNumber) {
    && d.lastSequence <= last
    && (forall e | e in LogEntries(d) :: e.key.sequence <= last)
    && (last == d.lastSequence || exists e :: e in LogEntries(d) && e.key.sequence == last)
  }

  // The thread that opens the database removes obsolete files before any task is scheduled.
  function Opening(): Background {
    Background(true, map[0 := Collecting], {})
  }

  ghost predicate RecoverAction(w: World, tables: seq<File>, recovered: Version, last: SequenceNumber, newLog: nat, w': World)
    requires w.Down?
  {
    var d := w.disk;
    && AreReplayed(d, tables) && IsRecoveredSequence(d, last)
    && Saves(d.version, ApplyTo(NothingPending(), RecoverEdit(tables)), recovered)
    && d.nextFile <= newLog && d.logNumber < newLog
    && (forall k | k in d.logs :: k < newLog)
    && (forall i | 0 <= i < |tables| :: tables[i].number < newLog)
    && var d' := Disk([SnapshotEdit(d.version), RecoverEdit(tables)], recovered, newLog, last, newLog + 1, d.tables + (set f | f in tables :: f.number), d.logs[newLog := []]);
    && w' == Up(Store(Run(State([], None, recovered, last, 0, [], None, {}, newLog + 1), w.logged, w.horizon),
                      newLog, 0, newLog, [], None, {}, d', w.logged, w.acked, Opening()))
  }

  // Stopped before the new manifest is in place: tables and an empty log are left behind.
  ghost predicate CrashInRecoveryAction(w: World, tables: seq<File>, newLog: nat, w': World)
    requires w.Down?
  {
    && (forall k | k in w.disk.logs :: k < newLog)
    && w' == w.(disk := w.disk.(tables := w.disk.tables + (set f | f in tables :: f.number),
                                logs := w.disk.logs[newLog := []]))
  }

  // A merge begins that would resurrect a key, or whose gaps a flush can land in.
  ghost predicate BeginsHarm(w: World, a: Action) {
    w.Up? && a.Work? && a.step.BeginMerge? && !IsSafe(w.store.run.db, a.step.compaction)
  }

  ghost predicate Act(w: World, a: Action, w': World) {
    MayAct(w, a, w') && !BeginsHarm(w, a)
  }

  // What the code can do, harmful merges included.
  ghost predicate MayAct(w: World, a: Action, w': World) {
    match a
    case Crash =>
      w.Up? && w' == Down(w.store.disk, w.store.logged, Total(w.store.run.db, w.store.pending), w.store.acked, w.store.run.horizon)
    case Recover(tables, recovered, last, newLog) =>
      w.Down? && RecoverAction(w, tables, recovered, last, newLog, w')
    case CrashInRecovery(tables, newLog) =>
      w.Down? && CrashInRecoveryAction(w, tables, newLog, w')
    case _ =>
      && w.Up? && w'.Up?
      && var s, s' := w.store, w'.store;
      match a
      case LogRecord(batch) => LogRecordAction(s, batch, s')
      case InsertPending => InsertPendingAction(s, s')
      case Acknowledge => AcknowledgeAction(s, s')
      case SwitchLog => SwitchLogAction(s, s')
      case Quiet(step) => QuietAction(s, step, s')
      case Schedule(t) => ScheduleAction(s, t, s')
      case EndTask(t) => EndTaskAction(s, t, s')
      case Work(t, step) => WorkAction(s, t, step, s')
      case BeginBuild(t) => BeginBuildAction(s, t, s')
      case WriteTable(t) => WriteTableAction(s, t, s')
      case EndBuild(t) => EndBuildAction(s, t, s')
      case BeginInstall(t, step, after) => BeginInstallAction(s, t, step, after, s')
      case FinishInstall(t) => FinishInstallAction(s, t, s')
      case Resume(t) => ResumeAction(s, t, s')
      case Pin => s' == s.(pinned := s.pinned + {s.run.db.version})
      case Unpin(v) => s' == s.(pinned := s.pinned - {v})
      case DeleteLog(t, n) => DeleteLogAction(s, t, n, s')
      case DeleteTable(t, n) => DeleteTableAction(s, t, n, s')
  }

  // A new database is an empty one that is then recovered.
  ghost predicate Fresh(w: World) {
    w == Down(Disk([VersionEdit({}, [])], NoFiles(), 0, 0, 2, {}, map[]), {}, 0, 0, 0)
  }

  // ---- What every run keeps

  // Exactly the sequence numbers 1 to `total` were logged: a prefix without gaps.
  ghost predicate IsDense(logged: set<Entry>, total: nat) {
    && DistinctStamps(logged)
    && (forall e | e in logged :: 1 <= e.key.sequence <= total)
    && (forall n | 1 <= n <= total :: Numbered(logged, n))
  }

  ghost predicate Numbered(logged: set<Entry>, n: nat) {
    exists e :: e in logged && e.key.sequence == n
  }

  ghost predicate Rising(es: seq<Entry>) {
    forall i, j | 0 <= i < j < |es| :: es[i].key.sequence < es[j].key.sequence
  }

  ghost predicate AllOlder(a: seq<Entry>, b: seq<Entry>) {
    forall x, y | x in a && y in b :: x.key.sequence < y.key.sequence
  }

  // Sequence numbers grow along each log, and from one log to the next.
  ghost predicate LogsInOrder(logs: map<nat, seq<Entry>>, first: nat) {
    && (forall k | k in logs && first <= k :: Rising(logs[k]))
    && (forall k, l | k in logs && l in logs && first <= k < l :: AllOlder(logs[k], logs[l]))
  }

  // What is on disk reads like everything logged.
  ghost predicate DiskOk(d: Disk, logged: set<Entry>, total: nat, horizon: SequenceNumber) {
    && IsDense(logged, total) && total < MAX_SEQUENCE
    && Sound(d.version) && NumbersBelow(d.version, d.nextFile) && Numbers(d.version) <= d.tables
    && Recoverable(d) <= logged
    && (forall x, y | x in LogEntries(d) && y in Contents(d.version) :: y.key.sequence < x.key.sequence)
    && (forall e | e in logged :: e.key.sequence <= d.lastSequence || e in LogEntries(d))
    && LogsInOrder(d.logs, d.logNumber) && d.logNumber < d.nextFile
    && d.lastSequence <= total && horizon <= total
    && forall user, s | horizon <= s :: Lookup(Recoverable(d), user, s) == Lookup(logged, user, s)
  }

  predicate FlushedOnDisk(install: Option<Install>) {
    install.Some? && install.value.step.Flush?
  }

  // The logs that recovery would replay are those of the memtables not yet on disk.
  ghost predicate LogsOk(logs: map<nat, seq<Entry>>, first: nat, log: nat, immLog: nat, db: State, pending: seq<Entry>, flushed: bool) {
    && log in logs && first <= log < db.nextFile
    && (forall k | k in logs :: k <= log)
    && Elements(logs[log]) == Elements(db.mem) + Elements(pending)
    && (forall k | k in logs && first <= k < log :: db.imm.Some? && !flushed && k == immLog)
    && (db.imm.Some? && !flushed ==>
          && immLog in logs && first <= immLog < log
          && Elements(logs[immLog]) == Elements(db.imm.value))
  }

  ghost predicate InstallOk(install: Option<Install>, r: Run, log: nat, logNumber: nat, version: Version, first: nat) {
    if install.None? then
      version == r.db.version && first == logNumber
    else
      var i := install.value;
      && version == i.after && first == i.logNumber
      && logNumber <= i.logNumber
      && (i.step.Flush? ==> r.db.imm.Some? && i.logNumber == log)
      && (i.step.Flush? || i.step.Move? || i.step.FinishMerge?)
      && NextRun(r, i.step, Installed(r, i.step, i.after))
  }

  // No table in use is missing.
  ghost predicate TablesOk(s: State, pinned: set<Version>, tables: set<nat>) {
    LiveFiles(s, pinned) <= tables && s.pendingOutputs <= tables
  }

  // What a task has in hand, by its phase.
  ghost predicate PhaseOk(phase: Phase, flushOutputs: set<nat>, install: Option<Install>, db: State, tables: set<nat>) {
    && (install.Some? <==> phase.Installing?)
    && flushOutputs == (if phase.Building? then {phase.number} else {})
    && (phase.Choosing? ==> db.running.None?)
    && (phase.Merging? ==> db.running.Some?)
    && (phase.Building? || phase.Built? ==>
          && db.imm.Some? && phase.number < db.nextFile
          && NumbersBelow(db.version, phase.number) && phase.number !in db.pendingOutputs)
    && (phase.Building? && phase.written ==> phase.number in tables)
    && (phase.Built? && ImmEntries(db) != [] ==> phase.number in tables)
  }

  // At most one task is under way, and without one nothing is.
  ghost predicate TasksOk(bg: Background, install: Option<Install>, db: State, tables: set<nat>) {
    && (forall i, j | i in bg.tasks && j in bg.tasks :: i == j)
    && (bg.scheduled <==> bg.tasks != map[])
    && (forall i | i in bg.tasks :: PhaseOk(bg.tasks[i], bg.flushOutputs, install, db, tables))
    && (!bg.scheduled ==> install.None? && bg.flushOutputs == {} && db.running.None?)
  }

  // Numbers taken for tables that no manifest record names yet.
  function Reserved(bg: Background, install: Option<Install>, pendingOutputs: set<nat>): set<nat> {
    (set t | t in bg.tasks && (bg.tasks[t].Building? || bg.tasks[t].Built?) :: bg.tasks[t].number)
    + (if install.Some? && install.value.step.FinishMerge? then {} else pendingOutputs)
  }

  ghost predicate PendingOk(r: Run, pending: seq<Entry>, logged: set<Entry>, acked: nat) {
    && logged == r.history + Elements(pending)
    && IsBatch(pending, r.db.lastSequence + r.db.inserted)
    && (forall e | e in r.history && r.db.lastSequence < e.key.sequence :: e in r.db.mem)
    && acked <= r.db.lastSequence
  }

  ghost predicate StoreOk(s: Store) {
    && Inv(s.run)
    && PendingOk(s.run, s.pending, s.logged, s.acked)
    && LogsOk(s.disk.logs, s.disk.logNumber, s.log, s.immLog, s.run.db, s.pending, FlushedOnDisk(s.install))
    && InstallOk(s.install, s.run, s.log, s.logNumber, s.disk.version, s.disk.logNumber)
    && TablesOk(s.run.db, s.pinned, s.disk.tables)
    && TasksOk(s.bg, s.install, s.run.db, s.disk.tables)
    && ManifestOk(s.disk.manifest, s.disk.version, s.run.db.nextFile, Reserved(s.bg, s.install, s.run.db.pendingOutputs))
    && DiskOk(s.disk, s.logged, Total(s.run.db, s.pending), s.run.horizon)
  }

  ghost predicate WorldOk(w: World) {
    match w
    case Up(s) => StoreOk(s)
    case Down(d, logged, total, acked, horizon) => DiskOk(d, logged, total, horizon) && IsManifest(d.manifest, d.version) && acked <= total
  }
}
