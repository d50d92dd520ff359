// Runs whose merges have covered gaps, whether or not they bring anything back: the versions stay
// valid.

module CoveredRuns {
  import opened InternalKeys
  import opened Versions
  import opened VersionEdits
  import opened CompactionInputs
  import opened LevelInvariants
  import opened Compactions
  import opened MergeResults
  import opened Database

  ghost predicate NextCovered(s: State, step: Step, s': State) {
    Next(s, step, s') && (step.BeginMerge? ==> GapsAreCovered(s.version, step.compaction))
  }

  // No entry has a number that was not given out yet.
  ghost predicate NumbersGivenOut(s: State) {
    && s.lastSequence + s.inserted < MAX_SEQUENCE
    && forall e | e in Live(s) :: e.key.sequence <= s.lastSequence + s.inserted
  }

  ghost predicate RunningOk(s: State) {
    s.running.Some? ==> Mergeable(s.version, s.running.value.compaction) && GapsAreCovered(s.version, s.running.value.compaction)
  }

  ghost predicate StateOk(s: State) {
    Structure(s) && NumbersGivenOut(s) && RunningOk(s)
  }

  lemma SameLiveKeepsNumbers(s: State, s': State)
    requires NumbersGivenOut(s) && Live(s') <= Live(s)
    requires s'.lastSequence + s'.inserted == s.lastSequence + s.inserted
    ensures NumbersGivenOut(s')
  {
    hide Live;
  }

  lemma InsertKeeps(s: State, step: Step, s': State)
    requires StateOk(s) && step.Insert? && NextCovered(s, step, s')
    ensures StateOk(s')
  {
    var e := NewEntry(s, step.user, step.kind, step.value);
    assert e.key.sequence == s.lastSequence + s.inserted + 1;
    assert s' == s.(mem := InsertEntry(s.mem, e), inserted := s.inserted + 1);
    hide Structure, InsertEntry, Mergeable, GapsAreCovered, Live, NextCovered, Next;
    InsertKeepsStructure(s, e, s');
  }

  // Steps that leave the version and everything live as they are.
  lemma QuietKeeps(s: State, step: Step, s': State)
    requires StateOk(s) && NextCovered(s, step, s')
    requires step.Publish? || step.SwitchMemTable? || step.AllocateNumber? || step.TakeSnapshot? || step.ReleaseSnapshot? || step.OpenOutput? || step.AbandonMerge?
    ensures StateOk(s')
  {
    hide Sound, Contents, Mergeable, GapsAreCovered;
    assert Live(s') == Live(s);
    SameLiveKeepsNumbers(s, s');
  }

  lemma FlushKeeps(s: State, step: Step, s': State)
    requires StateOk(s) && step.Flush? && NextCovered(s, step, s')
    ensures StateOk(s')
  {
    hide Sound, Contents, Mergeable, GapsAreCovered, FlushFits, Saves, ApplyTo;
    assert s' == s.(imm := None, version := s'.version);
    if s.imm.value == [] {
      assert Live(s') == Live(s);
    } else {
      FlushKeepsStructure(s, step.level, step.number, step.size, s');
    }
    hide Structure;
    SameLiveKeepsNumbers(s, s');
  }

  lemma MoveKeeps(s: State, step: Step, s': State)
    requires StateOk(s) && step.Move? && NextCovered(s, step, s')
    ensures StateOk(s')
  {
    hide Structure, Live, Mergeable, GapsAreCovered, WellChosen, Saves, ApplyTo;
    MoveKeepsStructure(s, step.compaction, s');
    SameLiveKeepsNumbers(s, s');
  }

  lemma BeginMergeKeeps(s: State, step: Step, s': State)
    requires StateOk(s) && step.BeginMerge? && NextCovered(s, step, s')
    ensures StateOk(s')
  {
    hide Structure, Live, Mergeable, GapsAreCovered, WellChosen;
    OnlyRunningChanges(s, s');
    SameLiveKeepsNumbers(s, s');
    assert Sound(s.version) by { StructureIsSound(s); }
    WellChosenIsMergeable(s.version, step.compaction);
  }

  lemma StructureIsSound(s: State)
    requires Structure(s)
    ensures Sound(s.version)
  {
  }

  lemma FinishMergeKeeps(s: State, step: Step, s': State)
    requires StateOk(s) && step.FinishMerge? && NextCovered(s, step, s')
    ensures StateOk(s')
  {
    assert FinishMergeStep(s, step.outs, s');
    assert s'.running.None? && s'.lastSequence == s.lastSequence && s'.inserted == s.inserted;
    hide Structure, Live, Mergeable, GapsAreCovered, FinishMergeStep, MergeInput, KeptSet, NextCovered, Next;
    FinishedStructure(s, step.outs, s');
    var m := s.running.value;
    KeptIsSubset(MergeInput(m.compaction), m.smallestSnapshot, m.base, m.compaction.level);
    SameLiveKeepsNumbers(s, s');
  }

  lemma StepKeeps(s: State, step: Step, s': State)
    requires StateOk(s) && NextCovered(s, step, s')
    ensures StateOk(s')
  {
    hide StateOk, NextCovered;
    match step
    case Insert(_, _, _) => InsertKeeps(s, step, s');
    case Flush(_, _, _) => FlushKeeps(s, step, s');
    case Move(_) => MoveKeeps(s, step, s');
    case BeginMerge(_) => BeginMergeKeeps(s, step, s');
    case FinishMerge(_) => FinishMergeKeeps(s, step, s');
    case _ => QuietKeeps(s, step, s');
  }

  ghost predicate IsCoveredRun(states: seq<State>, steps: seq<Step>) {
    && |states| == |steps| + 1
    && Init(Run(states[0], {}, 0))
    && forall i | 0 <= i < |steps| :: NextCovered(states[i], steps[i], states[i+1])
  }

  lemma StartIsOk(s: State)
    requires Init(Run(s, {}, 0))
    ensures StateOk(s)
  {
    InitKeepsInv(Run(s, {}, 0));
    hide Structure, Live, ReadsKept;
  }

  lemma {:induction false} EveryStateIsOk(states: seq<State>, steps: seq<Step>, n: nat)
    requires IsCoveredRun(states, steps) && n < |states|
    ensures StateOk(states[n])
  {
    hide StateOk, NextCovered, Init;
    if n == 0 {
      StartIsOk(states[0]);
    } else {
      EveryStateIsOk(states, steps, n - 1);
      StepKeeps(states[n-1], steps[n-1], states[n]);
    }
  }

  // Levels stay sorted and disjoint and newer entries stay in higher levels, and what a merge under
  // way has chosen can still be replaced by its output.
  lemma EveryCoveredVersionIsValid(states: seq<State>, steps: seq<Step>, n: nat)
    requires IsCoveredRun(states, steps) && n < |states|
    ensures ValidVersion(states[n].version) && RunningOk(states[n])
  {
    hide IsCoveredRun, NumbersGivenOut, RunningOk, ValidVersion;
    EveryStateIsOk(states, steps, n);
    StructureIsSound(states[n]);
    SoundIsValid(states[n].version);
  }
}
