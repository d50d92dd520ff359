// Histories with crashes and recoveries whose merges meet the condition on files.

module CarefulWorlds {
  import opened InternalKeys
  import opened Versions
  import opened CompactionInputs
  import opened LevelInvariants
  import opened Database
  import opened CarefulRuns
  import opened Durability
  import opened Recovery

  // Whatever the code can do, with merges that leave no older entry behind in the output level.
  ghost predicate ActCarefully(w: World, a: Action, w': World) {
    && MayAct(w, a, w')
    && (w.Up? && a.Work? && a.step.BeginMerge? ==>
          IsCareful(w.store.run.db.version, a.step.compaction) && GapsAreCovered(w.store.run.db.version, a.step.compaction))
  }

  ghost predicate IsCarefulHistory(worlds: seq<World>, actions: seq<Action>) {
    && |worlds| == |actions| + 1
    && Fresh(worlds[0])
    && forall i | 0 <= i < |actions| :: ActCarefully(worlds[i], actions[i], worlds[i+1])
  }

  lemma BeginsWellChosen(s: Store, task: nat, step: Step, s': Store)
    requires StoreOk(s) && WorkAction(s, task, step, s') && step.BeginMerge?
    ensures Structure(s.run.db) && WellChosen(s.run.db.version, step.compaction)
  {
    hide Structure, WellChosen, HistoryOk, ReadsKept, MergeOk, DiskOk, LogsOk, TablesOk, TasksOk, PendingOk, InstallOk;
    assert BeginMergeStep(s.run.db, step.compaction, s'.run.db);
  }

  lemma CarefulAction(w: World, a: Action, w': World)
    requires WorldOk(w) && ActCarefully(w, a, w')
    ensures Act(w, a, w')
  {
    hide StoreOk, WorkAction, Harmless, GapsAreCovered, IsCareful, Structure, WellChosen;
    if w.Up? && a.Work? && a.step.BeginMerge? {
      BeginsWellChosen(w.store, a.task, a.step, w'.store);
      CarefulIsHarmless(w.store.run.db, a.step.compaction);
    }
  }

  lemma {:induction false} CarefulIsHistory(worlds: seq<World>, actions: seq<Action>)
    requires IsCarefulHistory(worlds, actions)
    ensures IsHistoryOfWorlds(worlds, actions)
  {
    hide Act, ActCarefully, Fresh, WorldOk;
    if actions != [] {
      var n := |actions| - 1;
      var worlds', actions' := worlds[..n+1], actions[..n];
      assert forall i | 0 <= i < n :: ActCarefully(worlds'[i], actions'[i], worlds'[i+1]);
      CarefulIsHistory(worlds', actions');
      EveryWorldIsOk(worlds', actions', n);
      CarefulAction(worlds[n], actions[n], worlds[n+1]);
      forall i | 0 <= i < |actions|
        ensures Act(worlds[i], actions[i], worlds[i+1])
      {
        if i < n {
          assert Act(worlds'[i], actions'[i], worlds'[i+1]);
        }
      }
    }
  }

  // Under a condition on the chosen files alone, after any number of crashes: what the database
  // holds, or recovery would find, reads as everything logged, and every table in use is there.
  lemma CarefulHoldingsReadAsLogged(worlds: seq<World>, actions: seq<Action>, n: nat, user: UserKey, s: SequenceNumber)
    requires IsCarefulHistory(worlds, actions) && n < |worlds| && IsReadable(worlds[n], s)
    ensures Lookup(Holdings(worlds[n]), user, s) == Lookup(Logged(worlds[n]), user, s)
    ensures worlds[n].Up? ==>
              var st := worlds[n].store; LiveFiles(st.run.db, st.pinned) + st.run.db.pendingOutputs <= st.disk.tables
  {
    hide IsCarefulHistory, IsHistoryOfWorlds, IsReadable, Lookup, Holdings, Logged, LiveFiles;
    CarefulIsHistory(worlds, actions);
    HoldingsReadAsLogged(worlds, actions, n, user, s);
    FilesInUseAreKept(worlds, actions, n);
  }
}
