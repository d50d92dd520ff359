// The database as a state machine: every run of writes, flushes, moves, merges and snapshots
// keeps every read that can still be asked for.

module Database {
  import opened InternalKeys
  import opened Versions
  import opened VersionEdits
  import opened CompactionInputs
  import opened LevelInvariants
  import opened Compactions
  import opened MergeResults

  datatype Merge = Merge(compaction: Compaction, base: Version, smallestSnapshot: SequenceNumber)

  datatype State = State(
    mem: seq<Entry>,
    imm: Option<seq<Entry>>,
    version: Version,
    lastSequence: SequenceNumber,   // the last published sequence number
    inserted: nat,                  // entries in `mem` that are not published yet
    snapshots: seq<SequenceNumber>, // oldest first
    running: Option<Merge>,
    pendingOutputs: set<nat>,
    nextFile: nat)

  // A state with what the run did so far: every entry ever written, and the largest snapshot
  // that a merge was allowed to forget entries below.
  datatype Run = Run(db: State, history: set<Entry>, horizon: SequenceNumber)

  datatype Step =
    | Insert(user: UserKey, kind: Kind, value: Value)
    | Publish
    | SwitchMemTable
    | AllocateNumber
    | Flush(level: nat, number: nat, size: nat)
    | TakeSnapshot
    | ReleaseSnapshot(index: nat)
    | Move(compaction: Compaction)
    | BeginMerge(compaction: Compaction)
    | OpenOutput
    | FinishMerge(outs: seq<File>)
    | AbandonMerge

  function ImmEntries(s: State): seq<Entry> {
    if s.imm.Some? then s.imm.value else []
  }

  // Every entry a read can find.
  ghost function Live(s: State): set<Entry> {
    Elements(s.mem) + Elements(ImmEntries(s)) + Contents(s.version)
  }

  // ---- The steps

  function InsertEntry(es: seq<Entry>, e: Entry): seq<Entry> {
    var i := SeekIndex(es, e.key);
    es[..i] + [e] + es[i..]
  }

  function NewEntry(s: State, user: UserKey, kind: Kind, value: Value): Entry
    requires s.lastSequence + s.inserted < MAX_SEQUENCE
  {
    Entry(InternalKey(user, s.lastSequence + s.inserted + 1, kind), if kind.Put? then value else "")
  }

  function OldestSnapshot(s: State): SequenceNumber {
    if s.snapshots == [] then s.lastSequence else s.snapshots[0]
  }

  ghost function MergeInput(c: Compaction): set<Entry> {
    EntriesOf(Inputs(c))
  }

  // The table of an empty memtable is not kept. Otherwise its number is newer than those of
  // all tables in the version and is not promised to a merge output.
  ghost predicate FlushStep(s: State, level: nat, number: nat, size: nat, s': State) {
    && s.imm.Some?
    && if s.imm.value == [] then
         s' == s.(imm := None)
       else
         && Sorted(s.imm.value)
         && var file: File := FileMetaData(number, size, s.imm.value);
         && NumbersBelow(s.version, number) && number < s.nextFile && number !in s.pendingOutputs
         && FlushFits(s.version, level, file)
         && Saves(s.version, ApplyTo(NothingPending(), FlushEdit(level, file)), s'.version)
         && s' == s.(imm := None, version := s'.version)
  }

  ghost predicate MoveStep(s: State, c: Compaction, s': State) {
    && s.running.None?
    && WellChosen(s.version, c) && |c.inputs0| == 1 && c.inputs1 == []
    && Saves(s.version, ApplyTo(NothingPending(), MoveEdit(c)), s'.version)
    && s' == s.(version := s'.version)
  }

  ghost predicate BeginMergeStep(s: State, c: Compaction, s': State) {
    && s.running.None?
    && WellChosen(s.version, c)
    && s' == s.(running := Some(Merge(c, s.version, OldestSnapshot(s))))
  }

  ghost predicate FinishMergeStep(s: State, outs: seq<File>, s': State) {
    && s.running.Some?
    && var m := s.running.value;
    && IsMergeOutput(m.compaction, m.base, m.smallestSnapshot, outs)
    && (forall i | 0 <= i < |outs| :: outs[i].number in s.pendingOutputs)
    && (forall i, j | 0 <= i < j < |outs| :: outs[i].number != outs[j].number)
    && Saves(s.version, ApplyTo(NothingPending(), MergeEdit(m.compaction, outs)), s'.version)
    && s' == s.(version := s'.version, running := None, pendingOutputs := {})
  }

  ghost predicate Next(s: State, step: Step, s': State) {
    match step
    case Insert(user, kind, value) =>
      && s.lastSequence + s.inserted + 1 < MAX_SEQUENCE
      && s' == s.(mem := InsertEntry(s.mem, NewEntry(s, user, kind, value)), inserted := s.inserted + 1)
    case Publish =>
      && s.lastSequence + s.inserted < MAX_SEQUENCE
      && s' == s.(lastSequence := s.lastSequence + s.inserted, inserted := 0)
    case SwitchMemTable =>
      s.imm.None? && s.inserted == 0 && s' == s.(imm := Some(s.mem), mem := [])
    case AllocateNumber =>
      s' == s.(nextFile := s.nextFile + 1)
    case Flush(level, number, size) =>
      FlushStep(s, level, number, size, s')
    case TakeSnapshot =>
      s' == s.(snapshots := s.snapshots + [s.lastSequence])
    case ReleaseSnapshot(i) =>
      i < |s.snapshots| && s' == s.(snapshots := s.snapshots[..i] + s.snapshots[i+1..])
    case Move(c) =>
      MoveStep(s, c, s')
    case BeginMerge(c) =>
      BeginMergeStep(s, c, s')
    case OpenOutput =>
      s.running.Some? && s' == s.(pendingOutputs := s.pendingOutputs + {s.nextFile}, nextFile := s.nextFile + 1)
    case FinishMerge(outs) =>
      FinishMergeStep(s, outs, s')
    case AbandonMerge =>
      s.running.Some? && s' == s.(running := None, pendingOutputs := {})
  }

  // No user key would be resurrected by merging `c` now.
  ghost predicate Harmless(s: State, c: Compaction) {
    forall user, gone, back ::
      !Resurrects(Live(s) - MergeInput(c), MergeInput(c), OldestSnapshot(s), s.version, c.level, user, gone, back)
  }

  // Merging `c` now resurrects nothing, and no flush can land between its inputs.
  ghost predicate IsSafe(s: State, c: Compaction) {
    Harmless(s, c) && GapsAreCovered(s.version, c)
  }

  // A step, recorded in the run.
  ghost predicate Extends(r: Run, step: Step, r': Run) {
    && Next(r.db, step, r'.db)
    && r'.history ==
       (if step.Insert? && r.db.lastSequence + r.db.inserted < MAX_SEQUENCE then r.history + {NewEntry(r.db, step.user, step.kind, step.value)} else r.history)
    && r'.horizon == if step.BeginMerge? && r.horizon < OldestSnapshot(r.db) then OldestSnapshot(r.db) else r.horizon
  }

  ghost predicate NextRun(r: Run, step: Step, r': Run) {
    Extends(r, step, r') && (step.BeginMerge? ==> IsSafe(r.db, step.compaction))
  }

  ghost predicate Init(r: Run) {
    r == Run(State([], None, [[], [], [], [], [], [], []], 0, 0, [], None, {}, 2), {}, 0)
  }

  // ---- What every run keeps

  // Sequence numbers grow from tables to the immutable memtable to the memtable.
  ghost predicate ByAge(s: State) {
    && (forall x, y | x in s.mem && y in ImmEntries(s) :: y.key.sequence < x.key.sequence)
    && (forall x, y | x in s.mem && y in Contents(s.version) :: y.key.sequence < x.key.sequence)
    && (forall x, y | x in ImmEntries(s) && y in Contents(s.version) :: y.key.sequence < x.key.sequence)
  }

  ghost predicate NumbersBelow(v: Version, n: nat) {
    forall i, f | 0 <= i < NUM_LEVELS && f in v[i] :: f.number < n
  }

  ghost predicate NumbersAvoid(v: Version, ns: set<nat>) {
    forall i, f | 0 <= i < NUM_LEVELS && f in v[i] :: f.number !in ns
  }

  ghost predicate Structure(s: State) {
    && Sorted(s.mem) && Sorted(ImmEntries(s))
    && Sound(s.version)
    && ByAge(s)
    && NumbersBelow(s.version, s.nextFile) && NumbersAvoid(s.version, s.pendingOutputs)
    && (forall n | n in s.pendingOutputs :: n < s.nextFile)
  }

  ghost predicate SnapshotsInOrder(snapshots: seq<SequenceNumber>, horizon: SequenceNumber, last: SequenceNumber) {
    && (forall i, j | 0 <= i < j < |snapshots| :: snapshots[i] <= snapshots[j])
    && (forall i | 0 <= i < |snapshots| :: horizon <= snapshots[i] <= last)
    && horizon <= last < MAX_SEQUENCE
  }

  // Every read at or above the horizon is a read of everything ever written.
  ghost predicate ReadsKept(r: Run) {
    forall user, s | r.horizon <= s :: Lookup(Live(r.db), user, s) == Lookup(r.history, user, s)
  }

  ghost predicate HistoryOk(r: Run) {
    && DistinctStamps(r.history)
    && Live(r.db) <= r.history
    && r.db.lastSequence + r.db.inserted < MAX_SEQUENCE
    && forall e | e in r.history :: e.key.sequence <= r.db.lastSequence + r.db.inserted
  }

  // A merge that is under way can still be installed.
  ghost predicate MergeOk(r: Run) {
    r.db.running.Some? ==>
      var m := r.db.running.value;
      && Mergeable(r.db.version, m.compaction) && GapsAreCovered(r.db.version, m.compaction)
      && m.smallestSnapshot <= r.horizon && m.smallestSnapshot < MAX_SEQUENCE
      && forall user, gone, back ::
           !Resurrects(Live(r.db) - MergeInput(m.compaction), MergeInput(m.compaction), m.smallestSnapshot, m.base, m.compaction.level, user, gone, back)
  }

  ghost predicate Inv(r: Run) {
    Structure(r.db) && SnapshotsInOrder(r.db.snapshots, r.horizon, r.db.lastSequence) && HistoryOk(r) && ReadsKept(r) && MergeOk(r)
  }

  lemma EmptyIsSound(v: Version)
    requires forall i | 0 <= i < NUM_LEVELS :: v[i] == []
    ensures Sound(v) && Contents(v) == {}
  {
  }

  lemma InitKeepsInv(r: Run)
    requires Init(r)
    ensures Inv(r)
  {
    var v := r.db.version;
    assert forall i | 0 <= i < NUM_LEVELS :: v[i] == [];
    EmptyIsSound(v);
    hide Sound, Contents, Lookup;
    assert Live(r.db) == {};
    assert Structure(r.db);
  }

  // ---- Insert

  lemma BetweenIsSorted(a: seq<Entry>, e: Entry, b: seq<Entry>)
    requires Sorted(a + b)
    requires forall i | 0 <= i < |a| :: Less(a[i].key, e.key)
    requires forall i | 0 <= i < |b| :: Less(e.key, b[i].key)
    ensures Sorted(a + [e] + b)
  {
    hide Less;
    var r := a + [e] + b;
    forall i, j | 0 <= i < j < |r|
      ensures Less(r[i].key, r[j].key)
    {
      var old_i := if i <= |a| then i else i - 1;
      var old_j := if j <= |a| then j else j - 1;
      assert i != |a| && j != |a| ==> r[i] == (a + b)[old_i] && r[j] == (a + b)[old_j];
    }
  }

  lemma BetweenMembers(a: seq<Entry>, e: Entry, b: seq<Entry>)
    ensures forall x :: x in a + [e] + b <==> x in a + b || x == e
  {
  }

  lemma InsertPosition(es: seq<Entry>, e: Entry)
    requires Sorted(es) && forall i | 0 <= i < |es| :: es[i].key != e.key
    ensures forall i | 0 <= i < |es| :: if i < SeekIndex(es, e.key) then Less(es[i].key, e.key) else Less(e.key, es[i].key)
  {
    SeekSplits(es, e.key);
    forall i | 0 <= i < |es|
      ensures if i < SeekIndex(es, e.key) then Less(es[i].key, e.key) else Less(e.key, es[i].key)
    {
      LessIsStrictTotalOrder(e.key, es[i].key, e.key);
    }
  }

  lemma InsertIsSorted(es: seq<Entry>, e: Entry)
    requires Sorted(es) && forall x | x in es :: x.key != e.key
    ensures Sorted(InsertEntry(es, e))
    ensures forall x :: x in InsertEntry(es, e) <==> x in es || x == e
  {
    hide Less, Compare, Sorted, SeekIndex;
    InsertPosition(es, e);
    var i := SeekIndex(es, e.key);
    var a, b := es[..i], es[i..];
    assert es == a + b;
    BetweenMembers(a, e, b);
    assert forall j | 0 <= j < |b| :: b[j] == es[i+j];
    BetweenIsSorted(a, e, b);
  }

  // A newest entry added to two sets that read the same leaves them reading the same.
  lemma NewestAddedReadsSame(a: set<Entry>, b: set<Entry>, e: Entry, user: UserKey, s: SequenceNumber)
    requires DistinctStamps(a + {e}) && DistinctStamps(b + {e})
    requires forall x | x in a + b :: x.key.sequence < e.key.sequence
    requires Lookup(a, user, s) == Lookup(b, user, s)
    ensures Lookup(a + {e}, user, s) == Lookup(b + {e}, user, s)
  {
    if e.key.user == user && e.key.sequence <= s {
      assert IsNewest(a + {e}, user, s, e) && IsNewest(b + {e}, user, s, e);
      LookupIs(a + {e}, user, s, e);
      LookupIs(b + {e}, user, s, e);
    } else {
      assert Visible(a + {e}, user, s) == Visible(a, user, s);
      assert Visible(b + {e}, user, s) == Visible(b, user, s);
      SameVisibleReadsSame(a, a + {e}, user, s);
      SameVisibleReadsSame(b, b + {e}, user, s);
    }
  }

  lemma SameVisibleReadsSame(a: set<Entry>, b: set<Entry>, user: UserKey, s: SequenceNumber)
    requires Visible(a, user, s) == Visible(b, user, s)
    requires DistinctStamps(b)
    requires DistinctStamps(a)
    ensures Lookup(a, user, s) == Lookup(b, user, s)
  {
    if Visible(a, user, s) != {} {
      NewestExists(a, user, s);
      var n :| IsNewest(a, user, s, n);
      assert IsNewest(b, user, s, n);
      LookupIs(a, user, s, n);
      LookupIs(b, user, s, n);
    }
  }

  lemma SubsetIsDistinct(a: set<Entry>, b: set<Entry>)
    requires a <= b && DistinctStamps(b)
    ensures DistinctStamps(a)
  {
  }

  lemma ResurrectsIgnoresLater(rest: set<Entry>, input: set<Entry>, ss: SequenceNumber, v: Version, level: nat,
                               user: UserKey, gone: Entry, back: Entry, e: Entry)
    requires ss < e.key.sequence
    ensures Resurrects(rest + {e}, input, ss, v, level, user, gone, back) ==> Resurrects(rest, input, ss, v, level, user, gone, back)
  {
    assert Visible(rest + {e} + input, user, ss) == Visible(rest + input, user, ss);
    assert Visible(rest + {e}, user, ss) == Visible(rest, user, ss);
  }

  lemma InsertKeepsMergeOk(r: Run, r': Run, e: Entry)
    requires Inv(r) && r'.db.running == r.db.running && r'.db.version == r.db.version && r'.horizon == r.horizon
    requires Live(r'.db) == Live(r.db) + {e} && r.db.lastSequence < e.key.sequence
    requires e !in Live(r.db)
    ensures MergeOk(r')
  {
    hide Structure, ReadsKept, HistoryOk, Resurrects, Live, GapsAreCovered, Mergeable, MergeInput, Contents;
    if r.db.running.Some? {
      var m := r.db.running.value;
      var input := MergeInput(m.compaction);
      assert input <= Live(r.db) by {
        InputIsLive(r.db, m.compaction);
      }
      assert Live(r'.db) - input == (Live(r.db) - input) + {e};
      forall user, gone, back
        ensures !Resurrects(Live(r'.db) - input, input, m.smallestSnapshot, m.base, m.compaction.level, user, gone, back)
      {
        ResurrectsIgnoresLater(Live(r.db) - input, input, m.smallestSnapshot, m.base, m.compaction.level, user, gone, back, e);
      }
    }
  }

  lemma InputIsLive(s: State, c: Compaction)
    requires Mergeable(s.version, c)
    ensures MergeInput(c) <= Contents(s.version) <= Live(s)
  {
    ContentsSplit(s.version, c);
  }

  lemma InsertedIsNewest(r: Run, e: Entry)
    requires HistoryOk(r) && r.db.lastSequence + r.db.inserted < e.key.sequence
    ensures forall x | x in r.history :: x.key.sequence < e.key.sequence
    ensures forall x | x in Live(r.db) :: x.key.sequence < e.key.sequence
    ensures DistinctStamps(r.history + {e}) && DistinctStamps(Live(r.db) + {e})
  {
  }

  lemma InsertKeepsStructure(s: State, e: Entry, s': State)
    requires Structure(s) && s' == s.(mem := InsertEntry(s.mem, e), inserted := s.inserted + 1)
    requires forall x | x in Live(s) :: x.key.sequence < e.key.sequence
    ensures Structure(s') && Live(s') == Live(s) + {e}
  {
    hide Sound, NumbersBelow, NumbersAvoid, Contents, Less, InsertEntry;
    assert forall x | x in s.mem :: x in Live(s);
    assert forall x | x in ImmEntries(s) :: x in Live(s);
    InsertIsSorted(s.mem, e);
    hide Sorted;
  }

  // Entries have sequence numbers of their own, up to the last one given out.
  ghost predicate IsNumbered(s: State) {
    && DistinctStamps(Live(s)) && s.lastSequence + s.inserted < MAX_SEQUENCE
    && forall e | e in Live(s) :: e.key.sequence <= s.lastSequence + s.inserted
  }

  // An entry with a new largest number is read by its user key at that number, and changes no
  // read below it.
  lemma InsertedIsRead(s: State, e: Entry, s': State)
    requires IsNumbered(s) && Live(s') == Live(s) + {e}
    requires e.key.sequence == s.lastSequence + s.inserted + 1 == s'.lastSequence + s'.inserted < MAX_SEQUENCE
    ensures IsNumbered(s') && Lookup(Live(s'), e.key.user, e.key.sequence) == Reading(e)
    ensures forall user, q: SequenceNumber | q < e.key.sequence :: Lookup(Live(s'), user, q) == Lookup(Live(s), user, q)
  {
    var before, after := Live(s), Live(s');
    hide Live, Lookup;
    assert IsNewest(after, e.key.user, e.key.sequence, e);
    LookupIs(after, e.key.user, e.key.sequence, e);
    forall user, q: SequenceNumber | q < e.key.sequence
      ensures Lookup(after, user, q) == Lookup(before, user, q)
    {
      assert Visible(after, user, q) == Visible(before, user, q);
      SameVisibleReadsSame(before, after, user, q);
    }
  }

  lemma InsertKeepsReads(r: Run, e: Entry)
    requires HistoryOk(r) && ReadsKept(r) && r.db.lastSequence + r.db.inserted < e.key.sequence
    ensures forall user, s | r.horizon <= s :: Lookup(Live(r.db) + {e}, user, s) == Lookup(r.history + {e}, user, s)
  {
    InsertedIsNewest(r, e);
    hide Lookup, HistoryOk, Live, DistinctStamps;
    forall user, s | r.horizon <= s
      ensures Lookup(Live(r.db) + {e}, user, s) == Lookup(r.history + {e}, user, s)
    {
      NewestAddedReadsSame(Live(r.db), r.history, e, user, s);
    }
  }

  lemma InsertKeepsHistory(r: Run, e: Entry, r': Run)
    requires HistoryOk(r) && r'.history == r.history + {e} && Live(r'.db) == Live(r.db) + {e}
    requires e.key.sequence == r.db.lastSequence + r.db.inserted + 1 < MAX_SEQUENCE
    requires r'.db.lastSequence == r.db.lastSequence && r'.db.inserted == r.db.inserted + 1
    ensures HistoryOk(r')
  {
    InsertedIsNewest(r, e);
    hide Live, DistinctStamps;
  }

  lemma InsertKeepsInv(r: Run, step: Step, r': Run)
    requires Inv(r) && step.Insert? && NextRun(r, step, r')
    ensures Inv(r')
  {
    var s, s', e := r.db, r'.db, NewEntry(r.db, step.user, step.kind, step.value);
    assert r'.history == r.history + {e} && r'.horizon == r.horizon;
    assert s' == s.(mem := InsertEntry(s.mem, e), inserted := s.inserted + 1);
    assert e.key.sequence == s.lastSequence + s.inserted + 1 < MAX_SEQUENCE;
    hide Lookup, GapsAreCovered, Resurrects, Mergeable, Structure, Live, InsertEntry, DistinctStamps, MergeOk, Next, NextRun, NewEntry, SnapshotsInOrder;
    InsertedIsNewest(r, e);
    InsertKeepsStructure(s, e, s');
    InsertKeepsReads(r, e);
    InsertKeepsHistory(r, e, r');
    hide HistoryOk;
    InsertKeepsMergeOk(r, r', e);
  }

  // ---- Steps that move entries without changing what is live

  lemma SameLiveKeepsReads(r: Run, r': Run)
    requires Inv(r) && Live(r'.db) == Live(r.db) && r'.history == r.history && r.horizon <= r'.horizon
    requires r'.db.lastSequence + r'.db.inserted == r.db.lastSequence + r.db.inserted
    ensures HistoryOk(r') && ReadsKept(r')
  {
    hide Live, Lookup, DistinctStamps, Structure, MergeOk;
  }

  lemma SameLiveKeepsMergeOk(r: Run, r': Run)
    requires MergeOk(r) && Live(r'.db) == Live(r.db) && r'.db.running == r.db.running && r'.horizon == r.horizon
    requires r.db.running.Some? && Mergeable(r.db.version, r.db.running.value.compaction) ==>
               Mergeable(r'.db.version, r.db.running.value.compaction)
    requires r.db.running.Some? && GapsAreCovered(r.db.version, r.db.running.value.compaction) ==>
               GapsAreCovered(r'.db.version, r.db.running.value.compaction)
    ensures MergeOk(r')
  {
    hide Live, Resurrects, Mergeable, GapsAreCovered;
  }

  lemma PublishKeepsInv(r: Run, step: Step, r': Run)
    requires Inv(r) && step.Publish? && NextRun(r, step, r')
    ensures Inv(r')
  {
    assert r'.db == r.db.(lastSequence := r.db.lastSequence + r.db.inserted, inserted := 0);
    hide Contents, Sound, Lookup, Resurrects, Mergeable, GapsAreCovered, DistinctStamps;
    assert Live(r'.db) == Live(r.db);
    SameLiveKeepsReads(r, r');
    SameLiveKeepsMergeOk(r, r');
  }

  lemma SwitchKeepsInv(r: Run, step: Step, r': Run)
    requires Inv(r) && step.SwitchMemTable? && NextRun(r, step, r')
    ensures Inv(r')
  {
    assert r'.db == r.db.(imm := Some(r.db.mem), mem := []);
    hide Contents, Sound, Lookup, Resurrects, Mergeable, GapsAreCovered, DistinctStamps;
    assert Live(r'.db) == Live(r.db);
    SameLiveKeepsReads(r, r');
    SameLiveKeepsMergeOk(r, r');
  }

  lemma SnapshotKeepsInv(r: Run, step: Step, r': Run)
    requires Inv(r) && (step.TakeSnapshot? || step.ReleaseSnapshot?) && NextRun(r, step, r')
    ensures Inv(r')
  {
    hide Contents, Sound, Lookup, Resurrects, Mergeable, GapsAreCovered, DistinctStamps;
    assert Live(r'.db) == Live(r.db);
    SameLiveKeepsReads(r, r');
    SameLiveKeepsMergeOk(r, r');
  }

  lemma OutputKeepsInv(r: Run, step: Step, r': Run)
    requires Inv(r) && (step.OpenOutput? || step.AbandonMerge? || step.AllocateNumber?) && NextRun(r, step, r')
    ensures Inv(r')
  {
    hide Contents, Sound, Lookup, Resurrects, Mergeable, GapsAreCovered, DistinctStamps;
    assert Live(r'.db) == Live(r.db);
    SameLiveKeepsReads(r, r');
    if !step.AbandonMerge? {
      SameLiveKeepsMergeOk(r, r');
    }
  }

  // ---- Flush and move

  lemma FlushedIsNewest(s: State, number: nat, size: nat)
    requires Structure(s) && s.imm.Some? && s.imm.value != [] && NumbersBelow(s.version, number)
    ensures Sorted(s.imm.value) && NewestOfAll(s.version, FileMetaData(number, size, s.imm.value))
  {
    assert ImmEntries(s) == s.imm.value;
    forall i, f, x | 0 <= i < NUM_LEVELS && f in s.version[i] && x in f.entries
      ensures x in Contents(s.version)
    {
    }
  }

  lemma FlushFresh(v: Version, level: nat, file: File)
    requires level < NUM_LEVELS && NumbersBelow(v, file.number)
    ensures FreshAdds(v, FlushEdit(level, file))
  {
  }

  lemma FlushLevel(v: Version, level: nat, file: File)
    requires FlushFits(v, level, file)
    ensures level < NUM_LEVELS
  {
  }

  lemma FlushVersion(v: Version, level: nat, file: File, v': Version)
    requires Sound(v) && FlushFits(v, level, file) && NewestOfAll(v, file)
    requires NumbersBelow(v, file.number)
    requires Saves(v, ApplyTo(NothingPending(), FlushEdit(level, file)), v')
    ensures AddsOne(v, level, file, v') && Sound(v') && Contents(v') == Contents(v) + Elements(file.entries)
    ensures NumbersBelow(v', file.number + 1)
    ensures forall ns | NumbersAvoid(v, ns) && file.number !in ns :: NumbersAvoid(v', ns)
  {
    hide Sound, FlushFits, NewestOfAll, Saves, Contents, Elements, ApplyTo, FlushEdit, Ordered, Edited;
    FlushLevel(v, level, file);
    FlushFresh(v, level, file);
    EditMembers(v, FlushEdit(level, file), v');
    FlushKeepsSound(v, level, file, v');
    forall i, f | 0 <= i < NUM_LEVELS && f in v'[i]
      ensures f in v[i] || f == file
    {
    }
  }

  lemma FlushedState(s: State, s': State)
    requires Structure(s) && s.imm.Some?
    requires s' == s.(imm := None, version := s'.version)
    requires Sound(s'.version) && Contents(s'.version) == Contents(s.version) + Elements(s.imm.value)
    requires NumbersBelow(s'.version, s.nextFile) && NumbersAvoid(s'.version, s.pendingOutputs)
    ensures Structure(s') && Live(s') == Live(s)
  {
    hide Sound, Contents, Sorted, NumbersBelow, NumbersAvoid;
    assert Sorted(ImmEntries(s')) by { NothingIsSorted(); }
  }

  lemma BelowIsMonotone(v: Version, m: nat, n: nat)
    requires NumbersBelow(v, m) && m <= n
    ensures NumbersBelow(v, n)
  {
  }

  lemma NothingIsSorted()
    ensures Sorted([])
  {
  }

  lemma FlushKeepsStructure(s: State, level: nat, number: nat, size: nat, s': State)
    requires Structure(s) && FlushStep(s, level, number, size, s') && s.imm.value != []
    ensures Structure(s') && Live(s') == Live(s)
    ensures forall c | Mergeable(s.version, c) && GapsAreCovered(s.version, c) :: Mergeable(s'.version, c) && GapsAreCovered(s'.version, c)
  {
    FlushedIsNewest(s, number, size);
    var file: File := FileMetaData(number, size, s.imm.value);
    hide Sound, Contents, Saves, Mergeable, Sorted, FlushFits, NewestOfAll, Edited, GapsAreCovered, NumbersBelow, NumbersAvoid, AddsOne, ApplyTo, Live, ByAge;
    FlushVersion(s.version, level, file, s'.version);
    forall c | Mergeable(s.version, c) && GapsAreCovered(s.version, c)
      ensures Mergeable(s'.version, c) && GapsAreCovered(s'.version, c)
    {
      FlushKeepsMergeable(s.version, c, level, file, s'.version);
    }
    BelowIsMonotone(s'.version, number + 1, s.nextFile);
    FlushedState(s, s');
  }

  lemma FlushKeepsInv(r: Run, step: Step, r': Run)
    requires Inv(r) && step.Flush? && NextRun(r, step, r')
    ensures Inv(r')
  {
    hide Contents, Sound, Lookup, Resurrects, Mergeable, GapsAreCovered, DistinctStamps, FlushFits, Saves;
    if r.db.imm.value == [] {
      assert r'.db == r.db.(imm := None);
      assert Live(r'.db) == Live(r.db);
    } else {
      FlushKeepsStructure(r.db, step.level, step.number, step.size, r'.db);
    }
    hide Structure;
    SameLiveKeepsReads(r, r');
    SameLiveKeepsMergeOk(r, r');
  }

  lemma MoveVersion(v: Version, c: Compaction, v': Version)
    requires Sound(v) && WellChosen(v, c) && |c.inputs0| == 1 && c.inputs1 == []
    requires Saves(v, ApplyTo(NothingPending(), MoveEdit(c)), v')
    ensures Sound(v') && Contents(v') == Contents(v)
    ensures forall n | NumbersBelow(v, n) :: NumbersBelow(v', n)
    ensures forall ns | NumbersAvoid(v, ns) :: NumbersAvoid(v', ns)
  {
    hide Sound, Contents, Saves, WellChosen, Mergeable, Replaced, OutputsFit, Rest, EntriesOf, UniqueNumbers, ApplyTo;
    SoundIsUnique(v);
    WellChosenIsMergeable(v, c);
    MoveEditReplaces(v, c, v');
    ReplaceKeepsSound(v, c, c.inputs0, v');
    assert Inputs(c) == c.inputs0;
    forall i, f | 0 <= i < NUM_LEVELS && f in v'[i]
      ensures exists j :: 0 <= j < NUM_LEVELS && f in v[j]
    {
      ReplacedMember(v, c, c.inputs0, v', i, f);
    }
  }

  lemma MoveKeepsStructure(s: State, c: Compaction, s': State)
    requires Structure(s) && MoveStep(s, c, s')
    ensures Structure(s') && Live(s') == Live(s)
  {
    hide Sound, Contents, Saves, WellChosen, ApplyTo, NumbersBelow, NumbersAvoid, Sorted;
    MoveVersion(s.version, c, s'.version);
  }

  lemma MoveKeepsInv(r: Run, step: Step, r': Run)
    requires Inv(r) && step.Move? && NextRun(r, step, r')
    ensures Inv(r')
  {
    hide Contents, Sound, Lookup, Resurrects, Mergeable, GapsAreCovered, DistinctStamps, WellChosen, Saves;
    MoveKeepsStructure(r.db, step.compaction, r'.db);
    hide Structure;
    SameLiveKeepsReads(r, r');
  }

  // ---- Merge

  lemma OldestIsAboveHorizon(r: Run)
    requires SnapshotsInOrder(r.db.snapshots, r.horizon, r.db.lastSequence)
    ensures r.horizon <= OldestSnapshot(r.db) <= r.db.lastSequence < MAX_SEQUENCE
    ensures SnapshotsInOrder(r.db.snapshots, OldestSnapshot(r.db), r.db.lastSequence)
  {
  }

  lemma OnlyRunningChanges(s: State, s': State)
    requires Structure(s) && s' == s.(running := s'.running)
    ensures Structure(s') && Live(s') == Live(s)
  {
    hide Sound, Contents, Sorted, NumbersBelow, NumbersAvoid;
  }

  lemma BeginMergeOk(r: Run, c: Compaction, r': Run)
    requires Structure(r.db) && WellChosen(r.db.version, c) && GapsAreCovered(r.db.version, c) && Harmless(r.db, c)
    requires r'.db == r.db.(running := Some(Merge(c, r.db.version, OldestSnapshot(r.db))))
    requires OldestSnapshot(r.db) <= r'.horizon && OldestSnapshot(r.db) < MAX_SEQUENCE
    ensures MergeOk(r')
  {
    assert Sound(r.db.version);
    hide Sound, WellChosen, Structure, GapsAreCovered, Resurrects, Contents;
    WellChosenIsMergeable(r.db.version, c);
    hide Mergeable;
    assert Live(r'.db) == Live(r.db);
  }

  lemma BeginMergeFacts(r: Run, step: Step, r': Run)
    requires step.BeginMerge? && NextRun(r, step, r')
    ensures BeginMergeStep(r.db, step.compaction, r'.db) && Harmless(r.db, step.compaction) && GapsAreCovered(r.db.version, step.compaction)
    ensures r'.history == r.history
    ensures r'.horizon == if r.horizon < OldestSnapshot(r.db) then OldestSnapshot(r.db) else r.horizon
  {
    hide Harmless, GapsAreCovered, BeginMergeStep;
  }

  lemma BeginMergeKeepsInv(r: Run, step: Step, r': Run)
    requires Inv(r) && step.BeginMerge? && NextRun(r, step, r')
    ensures Inv(r')
  {
    hide Next, NextRun;
    var s, c := r.db, step.compaction;
    BeginMergeFacts(r, step, r');
    hide Structure, Live, GapsAreCovered, WellChosen, Harmless, HistoryOk, ReadsKept, MergeOk;
    OldestIsAboveHorizon(r);
    hide OldestSnapshot, SnapshotsInOrder;
    OnlyRunningChanges(s, r'.db);
    SameLiveKeepsReads(r, r');
    BeginMergeOk(r, c, r');
  }

  lemma MergeVersion(v: Version, c: Compaction, base: Version, ss: SequenceNumber, outs: seq<File>, v': Version)
    requires Sound(v) && Mergeable(v, c) && IsMergeOutput(c, base, ss, outs)
    requires forall i, j | 0 <= i < j < |outs| :: outs[i].number != outs[j].number
    requires forall i | 0 <= i < |outs| :: NumbersAvoid(v, {outs[i].number})
    requires Saves(v, ApplyTo(NothingPending(), MergeEdit(c, outs)), v')
    ensures Sound(v') && Replaced(v, c, outs, v')
    ensures Contents(v) == Rest(v, c) + MergeInput(c) && Rest(v, c) !! MergeInput(c)
    ensures Contents(v') == Rest(v, c) + KeptSet(MergeInput(c), ss, base, c.level)
  {
    assert UniqueNumbers(v) && c.level + 1 < NUM_LEVELS;
    hide Sound, Contents, Mergeable, IsMergeOutput, Saves, Rest, EntriesOf, KeptSet, ApplyTo, Replaced, OutputsFit, MergeEdit, UniqueNumbers;
    forall o, l, f | o in outs && 0 <= l < NUM_LEVELS && f in v[l]
      ensures f.number != o.number
    {
      var i :| 0 <= i < |outs| && outs[i] == o;
      assert NumbersAvoid(v, {outs[i].number});
    }
    hide NumbersAvoid;
    forall o, p | o in outs && p in outs && o.number == p.number
      ensures o == p
    {
      var i :| 0 <= i < |outs| && outs[i] == o;
      var j :| 0 <= j < |outs| && outs[j] == p;
    }
    MergeOutputFits(v, c, base, ss, outs);
    MergeOutputIs(c, base, ss, outs);
    MergeEditReplaces(v, c, outs, v');
    ReplaceKeepsSound(v, c, outs, v');
  }

  lemma MergedNumbers(v: Version, c: Compaction, outs: seq<File>, v': Version, n: nat)
    requires Replaced(v, c, outs, v') && NumbersBelow(v, n)
    requires forall i | 0 <= i < |outs| :: outs[i].number < n
    ensures NumbersBelow(v', n) && NumbersAvoid(v', {})
  {
    forall l, f | 0 <= l < NUM_LEVELS && f in v'[l]
      ensures f.number < n
    {
      ReplacedMember(v, c, outs, v', l, f);
    }
  }

  lemma FinishedState(s: State, c: Compaction, kept: set<Entry>, s': State)
    requires Structure(s) && s' == s.(version := s'.version, running := None, pendingOutputs := {})
    requires Contents(s.version) == Rest(s.version, c) + MergeInput(c) && Rest(s.version, c) !! MergeInput(c)
    requires Contents(s'.version) == Rest(s.version, c) + kept && kept <= MergeInput(c)
    requires Sound(s'.version) && NumbersBelow(s'.version, s.nextFile) && NumbersAvoid(s'.version, {})
    ensures Structure(s')
    ensures Live(s') == (Live(s) - MergeInput(c)) + kept
    ensures (Live(s) - MergeInput(c)) + MergeInput(c) == Live(s)
  {
    hide Sound, Contents, Sorted, NumbersBelow, NumbersAvoid, Rest, EntriesOf, MergeInput;
    assert ImmEntries(s') == ImmEntries(s);
    forall e | e in MergeInput(c)
      ensures e !in s.mem && e !in ImmEntries(s)
    {
      assert e in Contents(s.version);
    }
  }

  lemma FinishedReads(r: Run, r': Run, c: Compaction, ss: SequenceNumber, base: Version)
    requires HistoryOk(r) && ReadsKept(r) && r'.history == r.history && r'.horizon == r.horizon
    requires ss <= r.horizon && ss < MAX_SEQUENCE
    requires (Live(r.db) - MergeInput(c)) + MergeInput(c) == Live(r.db)
    requires Live(r'.db) == (Live(r.db) - MergeInput(c)) + KeptSet(MergeInput(c), ss, base, c.level)
    requires forall user, gone, back ::
               !Resurrects(Live(r.db) - MergeInput(c), MergeInput(c), ss, base, c.level, user, gone, back)
    ensures ReadsKept(r')
  {
    SubsetIsDistinct(Live(r.db), r.history);
    hide Live, MergeInput, KeptSet, Lookup, Resurrects, DistinctStamps, HistoryOk;
    MergePreservesReads(Live(r.db) - MergeInput(c), MergeInput(c), ss, base, c.level);
    forall user, q | r'.horizon <= q
      ensures Lookup(Live(r'.db), user, q) == Lookup(r'.history, user, q)
    {
      assert Lookup(Live(r'.db), user, q) == Lookup(Live(r.db), user, q);
    }
  }

  lemma KeptIsSubset(input: set<Entry>, ss: SequenceNumber, v: Version, level: nat)
    ensures KeptSet(input, ss, v, level) <= input
  {
  }

  lemma FinishedStructure(s: State, outs: seq<File>, s': State)
    requires Structure(s) && FinishMergeStep(s, outs, s')
    requires Mergeable(s.version, s.running.value.compaction)
    ensures var m := s.running.value;
            var input := MergeInput(m.compaction);
            && Structure(s')
            && input <= Live(s) && (Live(s) - input) + input == Live(s)
            && Live(s') == (Live(s) - input) + KeptSet(input, m.smallestSnapshot, m.base, m.compaction.level)
  {
    var m := s.running.value;
    var c, ss := m.compaction, m.smallestSnapshot;
    forall i | 0 <= i < |outs|
      ensures NumbersAvoid(s.version, {outs[i].number}) && outs[i].number < s.nextFile
    {
    }
    hide Sound, Contents, Mergeable, IsMergeOutput, Saves, Rest, EntriesOf, KeptSet, ApplyTo, MergeInput, MergeEdit, Sorted, ByAge, NumbersBelow, NumbersAvoid, Live, Replaced;
    KeptIsSubset(MergeInput(c), ss, m.base, c.level);
    MergeVersion(s.version, c, m.base, ss, outs, s'.version);
    MergedNumbers(s.version, c, outs, s'.version, s.nextFile);
    FinishedState(s, c, KeptSet(MergeInput(c), ss, m.base, c.level), s');
    InputIsLive(s, c);
  }

  lemma FinishMergeFacts(r: Run, step: Step, r': Run)
    requires step.FinishMerge? && NextRun(r, step, r')
    ensures FinishMergeStep(r.db, step.outs, r'.db)
    ensures r'.history == r.history && r'.horizon == r.horizon
    ensures r'.db.running.None? && r'.db.lastSequence == r.db.lastSequence && r'.db.inserted == r.db.inserted
    ensures r'.db.snapshots == r.db.snapshots
  {
    hide IsMergeOutput, Saves, ApplyTo;
  }

  lemma FinishMergeKeepsInv(r: Run, step: Step, r': Run)
    requires Inv(r) && step.FinishMerge? && NextRun(r, step, r')
    ensures Inv(r')
  {
    hide Next, NextRun;
    FinishMergeFacts(r, step, r');
    assert r.db.running.Some?;
    var s, s', m := r.db, r'.db, r.db.running.value;
    var c, ss := m.compaction, m.smallestSnapshot;
    hide Structure, Live, MergeInput, KeptSet, Mergeable, FinishMergeStep, Resurrects, GapsAreCovered, HistoryOk, ReadsKept, SnapshotsInOrder;
    FinishedStructure(s, step.outs, s');
    KeptIsSubset(MergeInput(c), ss, m.base, c.level);
    MergeKeepsHistory(r, r', MergeInput(c), KeptSet(MergeInput(c), ss, m.base, c.level));
    FinishedReads(r, r', c, ss, m.base);
  }

  lemma MergeKeepsHistory(r: Run, r': Run, input: set<Entry>, kept: set<Entry>)
    requires HistoryOk(r) && r'.history == r.history && kept <= input <= Live(r.db)
    requires Live(r'.db) == (Live(r.db) - input) + kept
    requires r'.db.lastSequence == r.db.lastSequence && r'.db.inserted == r.db.inserted
    ensures HistoryOk(r')
  {
    hide Live, DistinctStamps;
  }

  // ---- Runs

  lemma StepKeepsInv(r: Run, step: Step, r': Run)
    requires Inv(r) && NextRun(r, step, r')
    ensures Inv(r')
  {
    hide Inv, NextRun;
    match step
    case Insert(_, _, _) => InsertKeepsInv(r, step, r');
    case Publish => PublishKeepsInv(r, step, r');
    case SwitchMemTable => SwitchKeepsInv(r, step, r');
    case AllocateNumber => OutputKeepsInv(r, step, r');
    case Flush(_, _, _) => FlushKeepsInv(r, step, r');
    case TakeSnapshot => SnapshotKeepsInv(r, step, r');
    case ReleaseSnapshot(_) => SnapshotKeepsInv(r, step, r');
    case Move(_) => MoveKeepsInv(r, step, r');
    case BeginMerge(_) => BeginMergeKeepsInv(r, step, r');
    case OpenOutput => OutputKeepsInv(r, step, r');
    case FinishMerge(_) => FinishMergeKeepsInv(r, step, r');
    case AbandonMerge => OutputKeepsInv(r, step, r');
  }

  ghost predicate IsRun(runs: seq<Run>, steps: seq<Step>) {
    && |runs| == |steps| + 1
    && Init(runs[0])
    && forall i | 0 <= i < |steps| :: NextRun(runs[i], steps[i], runs[i+1])
  }

  lemma {:induction false} RunKeepsInv(runs: seq<Run>, steps: seq<Step>, n: nat)
    requires IsRun(runs, steps) && n < |runs|
    ensures Inv(runs[n])
  {
    hide Inv, NextRun;
    if n == 0 {
      InitKeepsInv(runs[0]);
    } else {
      RunKeepsInv(runs, steps, n - 1);
      StepKeepsInv(runs[n-1], steps[n-1], runs[n]);
    }
  }

  // In every run, a read at the last published sequence number or at any snapshot still held
  // returns what a read of everything ever written returns.
  lemma EveryReadIsOfTheHistory(runs: seq<Run>, steps: seq<Step>, n: nat, user: UserKey, s: SequenceNumber)
    requires IsRun(runs, steps) && n < |runs|
    requires s == runs[n].db.lastSequence || s in runs[n].db.snapshots
    ensures Lookup(Live(runs[n].db), user, s) == Lookup(runs[n].history, user, s)
  {
    RunKeepsInv(runs, steps, n);
    hide IsRun, Structure, HistoryOk, MergeOk, Live, Lookup;
    if s in runs[n].db.snapshots {
      var i :| 0 <= i < |runs[n].db.snapshots| && runs[n].db.snapshots[i] == s;
    }
  }

  // In every run, levels are sorted and disjoint and newer entries are in higher levels.
  lemma EveryVersionIsValid(runs: seq<Run>, steps: seq<Step>, n: nat)
    requires IsRun(runs, steps) && n < |runs|
    ensures ValidVersion(runs[n].db.version)
  {
    RunKeepsInv(runs, steps, n);
    SoundIsValid(runs[n].db.version);
  }

  // ---- The read path over a whole state

  ghost predicate Answers(r: SearchResult, es: set<Entry>, user: UserKey, s: SequenceNumber) {
    && (r.NotFound? ==> Visible(es, user, s) == {})
    && (!r.NotFound? ==> exists e :: IsNewest(es, user, s, e) && Reports(r, e))
  }

  // A newer part that has an answer answers for the whole.
  lemma NewerPartAnswers(newer: set<Entry>, older: set<Entry>, r: SearchResult, user: UserKey, s: SequenceNumber)
    requires forall x, y | x in newer && y in older :: y.key.sequence < x.key.sequence
    requires Answers(r, newer, user, s) && !r.NotFound?
    ensures Answers(r, newer + older, user, s)
  {
    var e :| IsNewest(newer, user, s, e) && Reports(r, e);
    assert IsNewest(newer + older, user, s, e);
  }

  lemma SilentPartIsSkipped(newer: set<Entry>, older: set<Entry>, r: SearchResult, user: UserKey, s: SequenceNumber)
    requires Visible(newer, user, s) == {}
    requires Answers(r, older, user, s)
    ensures Answers(r, newer + older, user, s)
  {
    assert Visible(newer + older, user, s) == Visible(newer, user, s) + Visible(older, user, s);
    if !r.NotFound? {
      var e :| IsNewest(older, user, s, e) && Reports(r, e);
      assert IsNewest(newer + older, user, s, e);
    }
  }

  lemma SearchAnswers(es: seq<Entry>, user: UserKey, s: SequenceNumber)
    requires Sorted(es)
    ensures Answers(Search(es, user, s), Elements(es), user, s)
  {
    SearchFindsNewest(es, user, s);
  }

  // Memtable, then immutable memtable, then the tables.
  method GetEntry(st: State, user: UserKey, s: SequenceNumber) returns (r: SearchResult)
    requires Structure(st)
    ensures Answers(r, Live(st), user, s)
  {
    hide Contents, Sound, Sorted, Search, NumbersBelow, NumbersAvoid, Visible, IsNewest, Reports;
    SoundIsValid(st.version);
    hide ValidVersion;
    var imm := ImmEntries(st);
    r := Search(st.mem, user, s);
    SearchAnswers(st.mem, user, s);
    assert Live(st) == Elements(st.mem) + (Elements(imm) + Contents(st.version));
    if !r.NotFound? {
      NewerPartAnswers(Elements(st.mem), Elements(imm) + Contents(st.version), r, user, s);
      return;
    }
    r := Search(imm, user, s);
    SearchAnswers(imm, user, s);
    if !r.NotFound? {
      NewerPartAnswers(Elements(imm), Contents(st.version), r, user, s);
    } else {
      r := Versions.Get(st.version, user, s);
      SilentPartIsSkipped(Elements(imm), Contents(st.version), r, user, s);
    }
    SilentPartIsSkipped(Elements(st.mem), Elements(imm) + Contents(st.version), r, user, s);
  }

  method Get(st: State, user: UserKey, s: SequenceNumber) returns (value: Option<Value>)
    requires Structure(st) && DistinctStamps(Live(st))
    ensures value == Lookup(Live(st), user, s)
  {
    hide Structure, Live, DistinctStamps;
    var r := GetEntry(st, user, s);
    value := if r.Found? then Some(r.value) else None;
    if r.NotFound? {
      LookupNone(Live(st), user, s);
    } else {
      ghost var e :| IsNewest(Live(st), user, s, e) && Reports(r, e);
      LookupIs(Live(st), user, s, e);
    }
  }
}
