// The writer queue on top of the logs: what crashes and recoveries leave of the writers' batches.

module Commits {
  import opened InternalKeys
  import opened Versions
  import opened VersionEdits
  import opened LevelInvariants
  import opened CompactionInputs
  import opened MergeResults
  import opened Manifests
  import opened Database
  import opened Durability
  import opened Recovery
  import GroupCommit

  type Op = GroupCommit.Op

  // `before` holds the operations logged before the database was opened the last time.
  datatype System = System(queue: GroupCommit.Run, before: seq<Op>, world: World)

  // Every operation that was ever logged, in order.
  function Ops(s: System): seq<Op> {
    s.before + GroupCommit.AllOps(GroupCommit.LoggedWriters(s.queue.served, s.queue.q))
  }

  datatype Move =
    | Queue(step: GroupCommit.Step)
    | Other(action: Action)
    | Reopen(action: Action)

  // A leader's steps write the log, fill the memtable and publish the sequence number.
  ghost predicate QueueMove(s: System, step: GroupCommit.Step, s': System) {
    && s.world.Up? && s'.before == s.before
    && GroupCommit.NextRun(s.queue, step, s'.queue)
    && match step
       case AddRecord =>
         && s'.queue.q.log != []
         && var record := s'.queue.q.log[|s'.queue.q.log|-1];
         && record.first + |record.ops| <= MAX_SEQUENCE
         && Act(s.world, LogRecord(GroupCommit.Stamped(record.ops, record.first)), s'.world)
       case InsertNext => Act(s.world, InsertPending, s'.world)
       case Finish => if s.queue.q.phase.Inserting? then Act(s.world, Acknowledge, s'.world) else s'.world == s.world
       case _ => s'.world == s.world
  }

  // Everything else goes on beside the queue, crashes included.
  ghost predicate OtherMove(s: System, a: Action, s': System) {
    && !a.LogRecord? && !a.InsertPending? && !a.Acknowledge? && !a.Recover?
    && Act(s.world, a, s'.world) && s'.queue == s.queue && s'.before == s.before
  }

  // A recovered database has a new queue, which numbers on from the sequence number found.
  ghost predicate ReopenMove(s: System, a: Action, s': System) {
    && a.Recover? && Act(s.world, a, s'.world) && s'.world.Up?
    && s'.before == Ops(s)
    && GroupCommit.Init(s'.queue) && s'.queue.base == s'.world.store.run.db.lastSequence
  }

  ghost predicate NextSystem(s: System, move: Move, s': System) {
    match move
    case Queue(step) => QueueMove(s, step, s')
    case Other(a) => OtherMove(s, a, s')
    case Reopen(a) => ReopenMove(s, a, s')
  }

  ghost predicate InitSystem(s: System) {
    Fresh(s.world) && GroupCommit.Init(s.queue) && s.queue.base == 0 && s.before == []
  }

  // ---- What every run keeps

  // Where the leader is, the database is.
  ghost predicate InStep(q: GroupCommit.State, st: Store) {
    && st.run.db.lastSequence == q.lastSequence
    && if q.phase.Inserting? then
         && q.log != []
         && var record := q.log[|q.log|-1];
         && record.first + |record.ops| <= MAX_SEQUENCE && q.phase.inserted <= |record.ops|
         && st.run.db.inserted == q.phase.inserted
         && st.pending == GroupCommit.Stamped(record.ops, record.first)[q.phase.inserted..]
       else
         st.run.db.inserted == 0 && st.pending == []
  }

  ghost function Entries(ops: seq<Op>): set<Entry>
    requires |ops| < MAX_SEQUENCE
  {
    Elements(GroupCommit.Stamped(ops, 1))
  }

  ghost predicate LoggedAre(logged: set<Entry>, ops: seq<Op>) {
    |ops| < MAX_SEQUENCE && logged == Entries(ops)
  }

  ghost predicate SystemOk(s: System) {
    && GroupCommit.Inv(s.queue) && WorldOk(s.world)
    && s.queue.base == |s.before|
    && LoggedAre(Logged(s.world), Ops(s))
    && (if s.world.Up? then InStep(s.queue.q, s.world.store) else s.world.total == |Ops(s)|)
  }

  lemma MoreEntries(ops: seq<Op>, more: seq<Op>)
    requires |ops| + |more| < MAX_SEQUENCE
    ensures Entries(ops + more) == Entries(ops) + Elements(GroupCommit.Stamped(more, |ops| + 1))
  {
    var all, a, b := GroupCommit.Stamped(ops + more, 1), GroupCommit.Stamped(ops, 1), GroupCommit.Stamped(more, |ops| + 1);
    assert all == a + b;
    hide GroupCommit.Stamped;
    assert forall e :: e in a + b <==> e in a || e in b;
  }

  // ---- The queue's moves

  lemma QueueInv(r: GroupCommit.Run)
    requires GroupCommit.Inv(r)
    ensures GroupCommit.PhaseOk(r.q) && r.q.lastSequence == r.base + |GroupCommit.AllOps(GroupCommit.Writers(r.served))|
    ensures !r.q.phase.Inserting? ==> GroupCommit.LoggedWriters(r.served, r.q) == GroupCommit.Writers(r.served)
  {
    hide GroupCommit.PhaseOk, GroupCommit.AllOps, GroupCommit.RecordsAre, GroupCommit.AppliedAre, GroupCommit.AllDurable, GroupCommit.LedRequests, GroupCommit.Writers;
  }

  // The next record's operations are numbered from behind all operations logged before.
  lemma RecordGoesOn(s: System, s': System)
    requires SystemOk(s) && QueueMove(s, GroupCommit.Step.AddRecord, s')
    ensures var record := s'.queue.q.log[|s'.queue.q.log|-1];
            && record.first == |Ops(s)| + 1 && Ops(s') == Ops(s) + record.ops && |Ops(s')| < MAX_SEQUENCE
            && s'.queue.q.phase.Inserting? && s'.queue.q.phase.inserted == 0 && s'.queue.q.lastSequence == s.queue.q.lastSequence
  {
    hide GroupCommit.AllOps, GroupCommit.Inv, GroupCommit.LoggedWriters, GroupCommit.Writers, GroupCommit.Stamped, Act, WorldOk, LoggedAre;
    QueueInv(s.queue);
    GroupCommit.OnlyRecordsAreLogged(s.queue, GroupCommit.Step.AddRecord, s'.queue);
    var more := GroupCommit.AllOps(GroupCommit.LoggedWriters(s.queue.served, s.queue.q));
    assert s.before + (more + s'.queue.q.log[|s'.queue.q.log|-1].ops) == (s.before + more) + s'.queue.q.log[|s'.queue.q.log|-1].ops;
  }

  lemma AddRecordKeeps(s: System, s': System)
    requires SystemOk(s) && QueueMove(s, GroupCommit.Step.AddRecord, s')
    ensures LoggedAre(Logged(s'.world), Ops(s')) && s'.world.Up? && InStep(s'.queue.q, s'.world.store)
  {
    hide GroupCommit.Inv, GroupCommit.NextRun, GroupCommit.Stamped, WorldOk, Ops, IsBatch;
    RecordGoesOn(s, s');
    var record := s'.queue.q.log[|s'.queue.q.log|-1];
    MoreEntries(Ops(s), record.ops);
    assert LogRecordAction(s.world.store, GroupCommit.Stamped(record.ops, record.first), s'.world.store);
    var batch := GroupCommit.Stamped(record.ops, record.first);
    assert batch[0..] == batch;
  }

  // The other steps of the queue log nothing.
  lemma OtherStepsLogNothing(s: System, step: GroupCommit.Step, s': System)
    requires SystemOk(s) && QueueMove(s, step, s') && !step.AddRecord?
    ensures Ops(s') == Ops(s)
  {
    hide GroupCommit.AllOps, GroupCommit.Inv, GroupCommit.NextRun, GroupCommit.LoggedWriters, Act, WorldOk, LoggedAre, InStep;
    QueueInv(s.queue);
    GroupCommit.OnlyRecordsAreLogged(s.queue, step, s'.queue);
    var more := GroupCommit.AllOps(GroupCommit.LoggedWriters(s.queue.served, s.queue.q));
    assert more + [] == more;
  }

  lemma InsertNextKeeps(s: System, s': System)
    requires SystemOk(s) && QueueMove(s, GroupCommit.Step.InsertNext, s')
    ensures Logged(s'.world) == Logged(s.world) && s'.world.Up? && InStep(s'.queue.q, s'.world.store)
  {
    hide GroupCommit.Inv, GroupCommit.Stamped, GroupCommit.Stamp, StoreOk, WorldOk, Act, PendingOk, NextRun, Ops, LoggedAre, InsertPendingAction;
    UpActs(s.world, InsertPending, s'.world);
    var st, st' := s.world.store, s'.world.store;
    StoreParts(st);
    var e := InsertPendingFacts(st, st');
    var record := s.queue.q.log[|s.queue.q.log|-1];
    var batch, k := GroupCommit.Stamped(record.ops, record.first), s.queue.q.phase.inserted;
    assert batch[k..][1..] == batch[k+1..];
  }

  lemma StoreParts(st: Store)
    requires StoreOk(st)
    ensures PendingOk(st.run, st.pending, st.logged, st.acked)
  {
    hide Inv, DiskOk, LogsOk, InstallOk, TablesOk, TasksOk, ManifestOk;
  }

  lemma UpActs(w: World, a: Action, w': World)
    requires WorldOk(w) && Act(w, a, w')
    ensures a.InsertPending? ==> w.Up? && w'.Up? && StoreOk(w.store) && InsertPendingAction(w.store, w'.store)
    ensures a.Acknowledge? ==> w.Up? && w'.Up? && AcknowledgeAction(w.store, w'.store)
  {
    hide StoreOk, InsertPendingAction, AcknowledgeAction;
  }

  lemma FinishKeeps(s: System, s': System)
    requires SystemOk(s) && QueueMove(s, GroupCommit.Step.Finish, s')
    ensures Logged(s'.world) == Logged(s.world) && s'.world.Up? && InStep(s'.queue.q, s'.world.store)
  {
    hide GroupCommit.Inv, GroupCommit.Stamped, GroupCommit.Acks, WorldOk, NextRun, Ops, LoggedAre, Act;
    if s.queue.q.phase.Inserting? {
      UpActs(s.world, Acknowledge, s'.world);
      var st, st' := s.world.store, s'.world.store;
      PublishedNext(st.run, st'.run);
    }
  }

  lemma StandingStepKeeps(s: System, step: GroupCommit.Step, s': System)
    requires SystemOk(s) && QueueMove(s, step, s') && (step.Enter? || step.Lead?)
    ensures s'.world == s.world && s'.world.Up? && InStep(s'.queue.q, s'.world.store)
  {
    hide GroupCommit.Inv, GroupCommit.Stamped, GroupCommit.IsGroup, GroupCommit.AllOps, WorldOk, Act, Ops, LoggedAre;
  }

  lemma QueueWorld(s: System, step: GroupCommit.Step, s': System)
    requires SystemOk(s) && QueueMove(s, step, s')
    ensures WorldOk(s'.world) && GroupCommit.Inv(s'.queue) && s'.queue.base == s.queue.base
  {
    hide GroupCommit.Inv, GroupCommit.Next, GroupCommit.Stamped, GroupCommit.Acks, WorldOk, Act, Ops, LoggedAre, InStep;
    GroupCommit.StepKeepsInv(s.queue, step, s'.queue);
    match step
    case AddRecord =>
      var record := s'.queue.q.log[|s'.queue.q.log|-1];
      ActKeepsWorldOk(s.world, LogRecord(GroupCommit.Stamped(record.ops, record.first)), s'.world);
    case InsertNext => ActKeepsWorldOk(s.world, InsertPending, s'.world);
    case Finish =>
      if s.queue.q.phase.Inserting? {
        ActKeepsWorldOk(s.world, Acknowledge, s'.world);
      }
    case _ =>
  }

  lemma QueueKeeps(s: System, step: GroupCommit.Step, s': System)
    requires SystemOk(s) && QueueMove(s, step, s')
    ensures SystemOk(s')
  {
    hide GroupCommit.Inv, WorldOk, QueueMove, Ops, LoggedAre, InStep, Logged;
    QueueWorld(s, step, s');
    assert s'.before == s.before by { SameBefore(s, step, s'); }
    if step.AddRecord? {
      AddRecordKeeps(s, s');
    } else {
      OtherStepsLogNothing(s, step, s');
      if step.InsertNext? {
        InsertNextKeeps(s, s');
      } else if step.Finish? {
        FinishKeeps(s, s');
      } else {
        StandingStepKeeps(s, step, s');
      }
    }
  }

  lemma SameBefore(s: System, step: GroupCommit.Step, s': System)
    requires QueueMove(s, step, s')
    ensures s'.before == s.before
  {
    hide GroupCommit.NextRun, GroupCommit.Stamped, Act;
  }

  // ---- The other moves

  // Steps other than writes leave the numbering as it is.
  lemma OtherStepCounts(s: State, step: Step, s': State)
    requires Next(s, step, s') && !step.Insert? && !step.Publish?
    ensures s'.lastSequence == s.lastSequence && s'.inserted == s.inserted
  {
    hide InsertEntry, Saves, ApplyTo, WellChosen, IsMergeOutput, FlushFits;
  }

  lemma OtherActionCounts(w: World, a: Action, w': World)
    requires Act(w, a, w') && w.Up? && w'.Up?
    requires !a.LogRecord? && !a.InsertPending? && !a.Acknowledge?
    ensures w'.store.logged == w.store.logged && w'.store.pending == w.store.pending
    ensures w'.store.run.db.lastSequence == w.store.run.db.lastSequence && w'.store.run.db.inserted == w.store.run.db.inserted
  {
    hide Next, Saves, ApplyTo, EditOf, IsSafe, LiveFiles, NewTables;
    var s, s' := w.store, w'.store;
    match a
    case SwitchLog =>
      OtherStepCounts(s.run.db.(nextFile := s.run.db.nextFile + 1), SwitchMemTable, s'.run.db);
    case Quiet(step) => OtherStepCounts(s.run.db, step, s'.run.db);
    case Work(_, step) => OtherStepCounts(s.run.db, step, s'.run.db);
    case BeginBuild(_) => OtherStepCounts(s.run.db, AllocateNumber, s'.run.db);
    case _ =>
  }

  lemma CrashedTotal(s: System)
    requires SystemOk(s) && s.world.Up?
    ensures Total(s.world.store.run.db, s.world.store.pending) == |Ops(s)|
  {
    hide GroupCommit.Inv, GroupCommit.AllOps, GroupCommit.Writers, GroupCommit.Stamped, WorldOk, LoggedAre;
    QueueInv(s.queue);
    var q := s.queue.q;
    if q.phase.Inserting? {
      GroupCommit.AllOpsOfBoth(GroupCommit.Writers(s.queue.served), q.writers[..q.phase.group]);
    }
  }

  lemma OtherKeeps(s: System, a: Action, s': System)
    requires SystemOk(s) && OtherMove(s, a, s')
    ensures SystemOk(s')
  {
    hide GroupCommit.Inv, WorldOk, Act, Ops, LoggedAre, GroupCommit.Stamped;
    SameOps(s, s');
    ActKeepsWorldOk(s.world, a, s'.world);
    if s.world.Up? && s'.world.Up? {
      OtherActionCounts(s.world, a, s'.world);
    } else if s.world.Up? {
      CrashedTotal(s);
      CrashIsOnly(s.world, a, s'.world);
    } else {
      StaysDown(s.world, a, s'.world);
    }
  }

  lemma SameOps(s: System, s': System)
    requires s'.queue == s.queue && s'.before == s.before
    ensures Ops(s') == Ops(s)
  {
  }

  lemma CrashIsOnly(w: World, a: Action, w': World)
    requires Act(w, a, w') && w.Up? && !w'.Up?
    ensures w' == Down(w.store.disk, w.store.logged, Total(w.store.run.db, w.store.pending), w.store.acked, w.store.run.horizon)
  {
    hide Total;
  }

  lemma StaysDown(w: World, a: Action, w': World)
    requires Act(w, a, w') && w.Down? && !a.Recover?
    ensures w'.Down? && w'.logged == w.logged && w'.total == w.total
  {
  }

  lemma ReopenKeeps(s: System, a: Action, s': System)
    requires SystemOk(s) && ReopenMove(s, a, s')
    ensures SystemOk(s')
  {
    hide GroupCommit.Inv, WorldOk, Act, GroupCommit.Stamped, Ops, LoggedAre;
    ActKeepsWorldOk(s.world, a, s'.world);
    Recovered(s.world, a, s'.world);
    GroupCommit.StartKeepsInv(s'.queue);
    assert Ops(s') == s'.before by { NewQueue(s'); }
  }

  lemma NewQueue(s: System)
    requires GroupCommit.Init(s.queue)
    ensures Ops(s) == s.before
  {
    assert s.before + [] == s.before;
  }

  lemma RecoverActs(w: World, a: Action, w': World)
    requires a.Recover? && Act(w, a, w')
    ensures w.Down? && RecoverAction(w, a.tables, a.recovered, a.last, a.newLog, w')
  {
    hide RecoverAction;
  }

  lemma Recovered(w: World, a: Action, w': World)
    requires WorldOk(w) && a.Recover? && Act(w, a, w')
    ensures w.Down? && w'.Up? && w'.store.logged == w.logged && w'.store.pending == []
    ensures w'.store.run.db.lastSequence == w.total && w'.store.run.db.inserted == 0
  {
    hide Act, RecoverAction, WorldOk;
    assert w.Down? && RecoverAction(w, a.tables, a.recovered, a.last, a.newLog, w') by { RecoverActs(w, a, w'); }
    RecoverIs(w, a.tables, a.recovered, a.last, a.newLog, w');
    RecoverFacts(w, a.tables, a.recovered, a.last, a.newLog, w');
  }

  // ---- Runs

  ghost predicate IsSystemRun(systems: seq<System>, moves: seq<Move>) {
    && |systems| == |moves| + 1
    && InitSystem(systems[0])
    && forall i | 0 <= i < |moves| :: NextSystem(systems[i], moves[i], systems[i+1])
  }

  lemma StartIsOk(s: System)
    requires InitSystem(s)
    ensures SystemOk(s)
  {
    NewQueue(s);
    GroupCommit.StartKeepsInv(s.queue);
    FreshIsOk(s.world);
    assert GroupCommit.Stamped([], 1) == [];
    hide GroupCommit.Inv, WorldOk;
  }

  lemma {:induction false} EverySystemIsOk(systems: seq<System>, moves: seq<Move>, n: nat)
    requires IsSystemRun(systems, moves) && n < |systems|
    ensures SystemOk(systems[n])
  {
    hide SystemOk, InitSystem, QueueMove, OtherMove, ReopenMove;
    if n == 0 {
      StartIsOk(systems[0]);
    } else {
      EverySystemIsOk(systems, moves, n - 1);
      assert NextSystem(systems[n-1], moves[n-1], systems[n]);
      match moves[n-1]
      case Queue(step) => QueueKeeps(systems[n-1], step, systems[n]);
      case Other(a) => OtherKeeps(systems[n-1], a, systems[n]);
      case Reopen(a) => ReopenKeeps(systems[n-1], a, systems[n]);
    }
  }

  lemma MoveKeepsOps(s: System, move: Move, s': System)
    requires SystemOk(s) && NextSystem(s, move, s')
    ensures Ops(s) <= Ops(s')
  {
    hide SystemOk, Ops, QueueMove;
    match move
    case Queue(step) =>
      if step.AddRecord? {
        RecordGoesOn(s, s');
      } else {
        OtherStepsLogNothing(s, step, s');
      }
    case Other(a) => SameOps(s, s');
    case Reopen(a) => NewQueue(s');
  }

  // ---- The main results

  // In every run with any number of crashes and recoveries, what was logged is the operations of
  // whole batches in the order of their writers, numbered 1, 2, 3 and so on. Since the last
  // opening these are the batches of a prefix of the writers that arrived, with every writer that
  // was served among them.
  lemma LoggedIsPrefixOfWriters(systems: seq<System>, moves: seq<Move>, n: nat)
    requires IsSystemRun(systems, moves) && n < |systems|
    ensures var s := systems[n];
            var writers := GroupCommit.LoggedWriters(s.queue.served, s.queue.q);
            && LoggedAre(Logged(s.world), s.before + GroupCommit.AllOps(writers))
            && writers <= s.queue.arrived && GroupCommit.Writers(s.queue.served) <= writers
  {
    hide IsSystemRun, GroupCommit.Inv, WorldOk, LoggedAre, InStep, GroupCommit.AllOps, GroupCommit.Writers;
    EverySystemIsOk(systems, moves, n);
    ServedArePrefix(systems[n].queue);
  }

  lemma ServedArePrefix(r: GroupCommit.Run)
    requires GroupCommit.Inv(r)
    ensures var writers := GroupCommit.LoggedWriters(r.served, r.q);
            writers <= r.arrived && GroupCommit.Writers(r.served) <= writers
  {
    hide GroupCommit.AllOps, GroupCommit.RecordsAre, GroupCommit.AppliedAre, GroupCommit.AllDurable, GroupCommit.LedRequests, GroupCommit.Writers;
    if r.q.phase.Inserting? {
      var k := r.q.phase.group;
      assert r.arrived == (GroupCommit.Writers(r.served) + r.q.writers[..k]) + r.q.writers[k..];
    }
  }

  // Nothing once logged is ever lost or reordered.
  lemma {:induction false} OpsOnlyGrow(systems: seq<System>, moves: seq<Move>, m: nat, n: nat)
    requires IsSystemRun(systems, moves) && m <= n < |systems|
    ensures Ops(systems[m]) <= Ops(systems[n])
  {
    hide SystemOk, NextSystem, InitSystem, Ops;
    if m < n {
      OpsOnlyGrow(systems, moves, m, n - 1);
      EverySystemIsOk(systems, moves, n - 1);
      MoveKeepsOps(systems[n-1], moves[n-1], systems[n]);
    }
  }

  // ---- The map that operations leave

  // A put sets its key to its value, a deletion takes its key out.
  ghost function Applied(ops: seq<Op>): map<UserKey, Value> {
    if ops == [] then map[]
    else
      var before, last := Applied(ops[..|ops|-1]), ops[|ops|-1];
      if last.kind.Put? then before[last.user := last.value] else before - {last.user}
  }

  ghost function ValueIn(m: map<UserKey, Value>, user: UserKey): Option<Value> {
    if user in m then Some(m[user]) else None
  }

  lemma EntriesAreDistinct(ops: seq<Op>)
    requires |ops| < MAX_SEQUENCE
    ensures DistinctStamps(Entries(ops)) && forall e | e in Entries(ops) :: 1 <= e.key.sequence <= |ops|
  {
    var es := GroupCommit.Stamped(ops, 1);
    forall a, b | a in Entries(ops) && b in Entries(ops) && a.key.sequence == b.key.sequence
      ensures a == b
    {
      var i :| 0 <= i < |es| && es[i] == a;
      var j :| 0 <= j < |es| && es[j] == b;
    }
  }

  lemma LastEntry(ops: seq<Op>)
    requires ops != [] && |ops| < MAX_SEQUENCE
    ensures var last := ops[|ops|-1];
            exists e :: Entries(ops) == Entries(ops[..|ops|-1]) + {e}
                        && e.key.user == last.user && e.key.sequence == |ops| && Reading(e) == if last.kind.Put? then Some(last.value) else None
  {
    var init, last := ops[..|ops|-1], ops[|ops|-1];
    assert ops == init + [last];
    MoreEntries(init, [last]);
    var e := GroupCommit.Stamped([last], |ops|)[0];
    assert Elements(GroupCommit.Stamped([last], |ops|)) == {e};
  }

  // A read at a sequence number is a look into the map that so many of the operations leave.
  lemma {:induction false} ReadsAreApplied(ops: seq<Op>, user: UserKey, q: SequenceNumber)
    requires |ops| < MAX_SEQUENCE
    ensures Lookup(Entries(ops), user, q) == ValueIn(Applied(if q < |ops| then ops[..q] else ops), user)
  {
    hide Lookup, Entries;
    EntriesAreDistinct(ops);
    if ops == [] {
      NothingToRead(user, q);
      return;
    }
    var init, last := ops[..|ops|-1], ops[|ops|-1];
    EntriesAreDistinct(init);
    ReadsAreApplied(init, user, q);
    LastEntry(ops);
    var e :| Entries(ops) == Entries(init) + {e}
             && e.key.user == last.user && e.key.sequence == |ops| && Reading(e) == if last.kind.Put? then Some(last.value) else None;
    if q < |ops| || last.user != user {
      assert Visible(Entries(ops), user, q) == Visible(Entries(init), user, q);
      SameVisibleReadsSame(Entries(init), Entries(ops), user, q);
      assert q < |ops| ==> ops[..q] == if q < |init| then init[..q] else init;
    } else {
      assert IsNewest(Entries(ops), user, q, e);
      LookupIs(Entries(ops), user, q, e);
    }
  }

  lemma NothingToRead(user: UserKey, q: SequenceNumber)
    ensures Lookup(Entries([]), user, q) == None
  {
    assert Visible(Entries([]), user, q) == {};
  }

  // What a running database holds, and what recovery would find after a crash, reads as exactly
  // these operations applied in order, as many as the sequence number says.
  lemma ReadsAreOfLoggedWriters(systems: seq<System>, moves: seq<Move>, n: nat, user: UserKey, q: SequenceNumber)
    requires IsSystemRun(systems, moves) && n < |systems| && IsReadable(systems[n].world, q)
    ensures |Ops(systems[n])| < MAX_SEQUENCE
    ensures Lookup(Holdings(systems[n].world), user, q) == Lookup(Entries(Ops(systems[n])), user, q)
    ensures var ops := Ops(systems[n]);
            Lookup(Holdings(systems[n].world), user, q) == ValueIn(Applied(if q < |ops| then ops[..q] else ops), user)
  {
    hide IsSystemRun, GroupCommit.Inv, WorldOk, InStep, Ops, IsReadable, Lookup, Holdings, Logged, Applied;
    EverySystemIsOk(systems, moves, n);
    OkReadsAsLogged(systems[n].world, user, q);
    ReadsAreApplied(Ops(systems[n]), user, q);
  }

  // Opening the database again keeps all of them, and nothing of a group that was not logged.
  lemma ReopeningKeepsOps(systems: seq<System>, moves: seq<Move>, n: nat)
    requires IsSystemRun(systems, moves) && n < |moves| && moves[n].Reopen?
    ensures Ops(systems[n+1]) == Ops(systems[n]) && systems[n+1].world.Up?
    ensures systems[n+1].world.store.run.db.lastSequence == |Ops(systems[n])|
  {
    hide NextSystem, GroupCommit.Inv, WorldOk, Act, Ops, LoggedAre, InStep;
    assert NextSystem(systems[n], moves[n], systems[n+1]);
    EverySystemIsOk(systems, moves, n);
    ReopenIs(systems[n], moves[n], systems[n+1]);
    NewQueue(systems[n+1]);
    Recovered(systems[n].world, moves[n].action, systems[n+1].world);
  }

  lemma ReopenIs(s: System, move: Move, s': System)
    requires NextSystem(s, move, s') && move.Reopen?
    ensures ReopenMove(s, move.action, s')
  {
    hide ReopenMove;
  }
}
