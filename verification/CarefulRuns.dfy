// Runs whose merges leave no older entry behind in the output level: a condition on files
// under which no merge resurrects anything.

module CarefulRuns {
  import opened InternalKeys
  import opened Versions
  import opened CompactionInputs
  import opened LevelInvariants
  import opened Compactions
  import opened MergeHazards
  import opened Database

  // The unchosen files of the output level hold only newer entries of keys they share with the
  // chosen ones.
  ghost predicate IsCareful(v: Version, c: Compaction) {
    c.level + 1 < NUM_LEVELS && LeavesOnlyNewer(v[c.level+1], c.inputs1)
  }

  // What the memtables hold is newer than any input, and brings nothing back.
  lemma MemTablesResurrectNothing(s: State, c: Compaction, ss: SequenceNumber, user: UserKey, gone: Entry, back: Entry)
    requires Structure(s) && Mergeable(s.version, c) && Rest(s.version, c) !! MergeInput(c)
    requires Resurrects(Live(s) - MergeInput(c), MergeInput(c), ss, s.version, c.level, user, gone, back)
    ensures Resurrects(Rest(s.version, c), MergeInput(c), ss, s.version, c.level, user, gone, back)
  {
    hide Sound, Mergeable, Sorted, NumbersBelow, NumbersAvoid, Rest, EntriesOf, IsBase, Contents;
    var v, input := s.version, MergeInput(c);
    ContentsSplit(v, c);
    assert gone in Contents(v) && back in Live(s) && back.key.sequence <= gone.key.sequence by {
      NewestOfAllIsOver(Live(s), input, ss, user, gone, back);
    }
    BackIsInVersion(s, gone, back);
    hide Structure, ByAge;
    assert Rest(v, c) <= Live(s) - input;
  }

  lemma NewestOfAllIsOver(live: set<Entry>, input: set<Entry>, ss: SequenceNumber, user: UserKey, gone: Entry, back: Entry)
    requires IsNewest((live - input) + input, user, ss, gone) && IsNewest(live - input, user, ss, back)
    ensures back in live && back.key.sequence <= gone.key.sequence
  {
    assert back in Visible((live - input) + input, user, ss);
  }

  lemma BackIsInVersion(s: State, gone: Entry, back: Entry)
    requires ByAge(s) && gone in Contents(s.version) && back in Live(s) && back.key.sequence <= gone.key.sequence
    ensures back in Contents(s.version)
  {
    hide Contents;
  }

  // A careful merge is harmless.
  lemma CarefulIsHarmless(s: State, c: Compaction)
    requires Structure(s) && WellChosen(s.version, c) && IsCareful(s.version, c)
    ensures Harmless(s, c)
  {
    var v := s.version;
    assert Sound(v);
    hide Structure, Sound, WellChosen, IsCareful, Mergeable, Live, Rest, EntriesOf, Resurrects, LeavesOnlyNewer;
    WellChosenIsMergeable(v, c);
    RestIsDisjoint(v, c);
    forall user, gone, back
      ensures !Resurrects(Live(s) - MergeInput(c), MergeInput(c), OldestSnapshot(s), v, c.level, user, gone, back)
    {
      if Resurrects(Live(s) - MergeInput(c), MergeInput(c), OldestSnapshot(s), v, c.level, user, gone, back) {
        MemTablesResurrectNothing(s, c, OldestSnapshot(s), user, gone, back);
        assert IsCareful(v, c) ==> LeavesOnlyNewer(v[c.level+1], c.inputs1) by { CarefulParts(v, c); }
        LeavingNewerResurrectsNothing(v, c, OldestSnapshot(s), user, gone, back);
        assert false;
      }
    }
  }

  lemma CarefulParts(v: Version, c: Compaction)
    requires IsCareful(v, c)
    ensures c.level + 1 < NUM_LEVELS && LeavesOnlyNewer(v[c.level+1], c.inputs1)
  {
  }

  // So is a merge that splits no user key between a chosen and an unchosen file.
  lemma NoSplitIsHarmless(s: State, c: Compaction)
    requires Structure(s) && WellChosen(s.version, c)
    requires forall user :: !IsSplit(s.version, c, user)
    ensures Harmless(s, c)
  {
    hide Structure, IsSplit, WellChosen, LeavesOnlyNewer, Harmless;
    assert c.level + 1 < NUM_LEVELS by { ChosenLevel(s.version, c); }
    NoSplitLeavesNewer(s.version, c);
    CarefulIsHarmless(s, c);
  }

  lemma ChosenLevel(v: Version, c: Compaction)
    requires WellChosen(v, c)
    ensures c.level + 1 < NUM_LEVELS
  {
  }

  ghost predicate NextCareful(r: Run, step: Step, r': Run) {
    && Extends(r, step, r')
    && (step.BeginMerge? ==> IsCareful(r.db.version, step.compaction) && GapsAreCovered(r.db.version, step.compaction))
  }

  ghost predicate IsCarefulRun(runs: seq<Run>, steps: seq<Step>) {
    && |runs| == |steps| + 1
    && Init(runs[0])
    && forall i | 0 <= i < |steps| :: NextCareful(runs[i], steps[i], runs[i+1])
  }

  lemma CarefulStep(r: Run, step: Step, r': Run)
    requires Inv(r) && NextCareful(r, step, r')
    ensures NextRun(r, step, r')
  {
    if step.BeginMerge? {
      assert BeginMergeStep(r.db, step.compaction, r'.db);
      hide Extends, Structure, WellChosen, IsCareful, Harmless, GapsAreCovered, HistoryOk, ReadsKept, MergeOk;
      CarefulIsHarmless(r.db, step.compaction);
    }
  }

  lemma {:induction false} CarefulIsRun(runs: seq<Run>, steps: seq<Step>)
    requires IsCarefulRun(runs, steps)
    ensures IsRun(runs, steps)
  {
    hide NextRun, NextCareful, Init;
    if steps != [] {
      var n := |steps| - 1;
      var runs', steps' := runs[..n+1], steps[..n];
      assert forall i | 0 <= i < n :: NextCareful(runs'[i], steps'[i], runs'[i+1]);
      CarefulIsRun(runs', steps');
      RunKeepsInv(runs', steps', n);
      CarefulStep(runs[n], steps[n], runs[n+1]);
      forall i | 0 <= i < |steps|
        ensures NextRun(runs[i], steps[i], runs[i+1])
      {
        if i < n {
          assert NextRun(runs'[i], steps'[i], runs'[i+1]);
        }
      }
    }
  }

  // In every careful run, a read at the last published sequence number or at any snapshot still
  // held returns what a read of everything ever written returns, and levels stay valid.
  lemma EveryCarefulReadIsOfTheHistory(runs: seq<Run>, steps: seq<Step>, n: nat, user: UserKey, s: SequenceNumber)
    requires IsCarefulRun(runs, steps) && n < |runs|
    requires s == runs[n].db.lastSequence || s in runs[n].db.snapshots
    ensures Lookup(Live(runs[n].db), user, s) == Lookup(runs[n].history, user, s)
    ensures ValidVersion(runs[n].db.version)
  {
    hide IsCarefulRun, IsRun, Live, Lookup, ValidVersion;
    CarefulIsRun(runs, steps);
    EveryReadIsOfTheHistory(runs, steps, n, user, s);
    EveryVersionIsValid(runs, steps, n);
  }
}
