// The writer queue: the writer at the front logs and applies the batches of a group of
// writers behind it, under one record and one sync.

module GroupCommit {
  import opened InternalKeys

  datatype Op = Op(user: UserKey, kind: Kind, value: Value)

  // `size` is the byte size of the encoded batch.
  datatype Batch = Batch(ops: seq<Op>, size: nat)

  // A writer without a batch asks for the memtable to be switched.
  datatype Writer = Writer(batch: Option<Batch>, sync: bool)

  datatype Record = Record(first: nat, ops: seq<Op>, synced: bool)

  // What the leader of the first `group` writers has done so far.
  datatype Phase =
    | Idle
    | Leading(group: nat)
    | Inserting(group: nat, inserted: nat)

  datatype State = State(
    writers: seq<Writer>,
    phase: Phase,
    lastSequence: nat,
    log: seq<Record>,
    applied: seq<Entry>,    // in the order of insertion into the memtable
    switches: nat)          // forced memtable switches

  // How a writer was served.
  datatype Ack = Ack(writer: Writer, leads: bool, record: Option<nat>)

  // A state with every writer that arrived, and every one served, in order. `base` is the last
  // sequence number when the database was opened.
  datatype Run = Run(q: State, arrived: seq<Writer>, served: seq<Ack>, base: nat)

  datatype Step =
    | Enter(writer: Writer)
    | Lead(group: nat)
    | AddRecord
    | InsertNext
    | Finish

  // ---- Choosing a group

  function OpsOf(w: Writer): seq<Op> {
    if w.batch.Some? then w.batch.value.ops else []
  }

  function SizeOf(w: Writer): nat {
    if w.batch.Some? then w.batch.value.size else 0
  }

  function AllOps(ws: seq<Writer>): seq<Op> {
    if ws == [] then [] else AllOps(ws[..|ws|-1]) + OpsOf(ws[|ws|-1])
  }

  function TotalSize(ws: seq<Writer>): nat {
    if ws == [] then 0 else TotalSize(ws[..|ws|-1]) + SizeOf(ws[|ws|-1])
  }

  // A small first write is not slowed down by a large group.
  function MaxSize(first: nat): nat {
    if first <= 0x2_0000 then first + 0x2_0000 else 0x10_0000
  }

  // Writer `i` may join the writers before it.
  predicate MayJoin(ws: seq<Writer>, i: nat)
    requires 0 < i < |ws|
  {
    && (ws[i].sync ==> ws[0].sync)
    && (ws[i].batch.Some? ==> TotalSize(ws[..i+1]) <= MaxSize(SizeOf(ws[0])))
  }

  // The longest prefix of the queue in which every writer may join those before it.
  ghost predicate IsGroup(ws: seq<Writer>, n: nat) {
    && 1 <= n <= |ws|
    && (forall i | 1 <= i < n :: MayJoin(ws, i))
    && (n < |ws| ==> !MayJoin(ws, n))
  }

  // A group takes in no writer that wants a sync the first one does not, and grows to a megabyte,
  // or by 128 kilobytes if the first write has no more than that. It ends only where the next
  // writer would break one of these rules.
  lemma GroupExactly(ws: seq<Writer>, n: nat)
    requires ws != [] && ws[0].batch.Some?
    ensures var first := ws[0].batch.value.size;
            var limit := if first <= 128 * 1024 then first + 128 * 1024 else 1024 * 1024;
            IsGroup(ws, n) <==>
              && 1 <= n <= |ws|
              && (forall i | 1 <= i < n :: (ws[i].sync ==> ws[0].sync) && (ws[i].batch.Some? ==> TotalSize(ws[..i+1]) <= limit))
              && (n < |ws| ==> (ws[n].sync && !ws[0].sync) || (ws[n].batch.Some? && TotalSize(ws[..n+1]) > limit))
    ensures TotalSize([]) == 0
    ensures forall i | 0 <= i < |ws| ::
              TotalSize(ws[..i+1]) == TotalSize(ws[..i]) + if ws[i].batch.Some? then ws[i].batch.value.size else 0
  {
    hide TotalSize, AllOps;
    NoSize();
    var first := ws[0].batch.value.size;
    var limit := if first <= 128 * 1024 then first + 128 * 1024 else 1024 * 1024;
    assert MaxSize(SizeOf(ws[0])) == limit;
    assert forall i | 0 < i < |ws| ::
             MayJoin(ws, i) <==> (ws[i].sync ==> ws[0].sync) && (ws[i].batch.Some? ==> TotalSize(ws[..i+1]) <= limit);
    forall i | 0 <= i < |ws|
      ensures TotalSize(ws[..i+1]) == TotalSize(ws[..i]) + if ws[i].batch.Some? then ws[i].batch.value.size else 0
    {
      PrefixSums(ws, i);
    }
  }

  lemma NoSize()
    ensures TotalSize([]) == 0
  {
  }

  lemma PrefixSums(ws: seq<Writer>, i: nat)
    requires i < |ws|
    ensures AllOps(ws[..i+1]) == AllOps(ws[..i]) + OpsOf(ws[i])
    ensures TotalSize(ws[..i+1]) == TotalSize(ws[..i]) + SizeOf(ws[i])
  {
    assert ws[..i+1][..i] == ws[..i];
  }

  lemma JoinIs(ws: seq<Writer>, i: nat)
    requires 0 < i < |ws|
    ensures MayJoin(ws, i) <==>
              && (ws[i].sync ==> ws[0].sync)
              && (ws[i].batch.Some? ==> TotalSize(ws[..i]) + ws[i].batch.value.size <= MaxSize(SizeOf(ws[0])))
    ensures TotalSize(ws[..i+1]) == TotalSize(ws[..i]) + SizeOf(ws[i])
    ensures AllOps(ws[..i+1]) == if ws[i].batch.Some? then AllOps(ws[..i]) + ws[i].batch.value.ops else AllOps(ws[..i])
  {
    PrefixSums(ws, i);
    assert AllOps(ws[..i]) + [] == AllOps(ws[..i]);
  }

  lemma FirstSums(ws: seq<Writer>)
    requires ws != []
    ensures AllOps(ws[..1]) == OpsOf(ws[0]) && TotalSize(ws[..1]) == SizeOf(ws[0])
  {
    assert ws[..1] == [ws[0]];
    assert AllOps([]) + OpsOf(ws[0]) == OpsOf(ws[0]);
  }

  method BuildBatchGroup(ws: seq<Writer>) returns (result: seq<Op>, group: nat)
    requires ws != [] && ws[0].batch.Some?
    ensures IsGroup(ws, group) && result == AllOps(ws[..group])
  {
    hide AllOps, TotalSize, MayJoin;
    result := ws[0].batch.value.ops;
    var size := ws[0].batch.value.size;
    var maxSize := 1024 * 1024;
    if size <= 128 * 1024 {
      maxSize := size + 128 * 1024;
    }
    group := 1;
    FirstSums(ws);
    while group < |ws|
      invariant 1 <= group <= |ws|
      invariant result == AllOps(ws[..group]) && size == TotalSize(ws[..group])
      invariant forall i | 1 <= i < group :: MayJoin(ws, i)
    {
      var w := ws[group];
      JoinIs(ws, group);
      if w.sync && !ws[0].sync {
        break;
      }
      if w.batch.Some? {
        size := size + w.batch.value.size;
        if size > maxSize {
          break;
        }
        result := result + w.batch.value.ops;
      }
      group := group + 1;
    }
  }

  // ---- The steps

  function Stamp(op: Op, sequence: SequenceNumber): Entry {
    Entry(InternalKey(op.user, sequence, op.kind), if op.kind.Put? then op.value else "")
  }

  // The operations as entries numbered from `first` on.
  ghost function Stamped(ops: seq<Op>, first: nat): (es: seq<Entry>)
    requires first + |ops| <= MAX_SEQUENCE
    ensures |es| == |ops|
  {
    seq(|ops|, i requires 0 <= i < |ops| => Stamp(ops[i], first + i))
  }

  // A forced switch serves one writer; a batch is served with the group that it leads.
  ghost predicate LeadStep(s: State, n: nat, s': State) {
    && s.phase.Idle? && s.writers != []
    && if s.writers[0].batch.None? then
         n == 1 && s' == s.(phase := Leading(1), switches := s.switches + 1)
       else
         && IsGroup(s.writers, n)
         && s.lastSequence + |AllOps(s.writers[..n])| < MAX_SEQUENCE
         && s' == s.(phase := Leading(n))
  }

  ghost predicate AddRecordStep(s: State, s': State) {
    && s.phase.Leading? && s.phase.group <= |s.writers| && 0 < s.phase.group && s.writers[0].batch.Some?
    && s' == s.(log := s.log + [Record(s.lastSequence + 1, AllOps(s.writers[..s.phase.group]), s.writers[0].sync)],
                phase := Inserting(s.phase.group, 0))
  }

  ghost predicate InsertNextStep(s: State, s': State) {
    && s.phase.Inserting? && s.log != []
    && var record := s.log[|s.log|-1];
    && s.phase.inserted < |record.ops| && record.first + s.phase.inserted <= MAX_SEQUENCE
    && s' == s.(applied := s.applied + [Stamp(record.ops[s.phase.inserted], record.first + s.phase.inserted)],
                phase := Inserting(s.phase.group, s.phase.inserted + 1))
  }

  // The new last sequence number is set, then the group leaves the queue.
  ghost predicate FinishStep(s: State, s': State) {
    && !s.phase.Idle? && 0 < s.phase.group <= |s.writers|
    && if s.phase.Leading? then
         s.writers[0].batch.None? && s' == s.(phase := Idle, writers := s.writers[s.phase.group..])
       else
         && s.log != [] && s.phase.inserted == |s.log[|s.log|-1].ops|
         && s' == s.(phase := Idle, writers := s.writers[s.phase.group..], lastSequence := s.lastSequence + s.phase.inserted)
  }

  ghost predicate Next(s: State, step: Step, s': State) {
    match step
    case Enter(w) => s' == s.(writers := s.writers + [w])
    case Lead(n) => LeadStep(s, n, s')
    case AddRecord => AddRecordStep(s, s')
    case InsertNext => InsertNextStep(s, s')
    case Finish => FinishStep(s, s')
  }

  ghost function Acks(s: State): seq<Ack>
    requires !s.phase.Idle? && s.phase.group <= |s.writers| && (s.phase.Inserting? ==> s.log != [])
  {
    seq(s.phase.group, i requires 0 <= i < s.phase.group =>
      Ack(s.writers[i], i == 0, if s.phase.Inserting? then Some(|s.log| - 1) else None))
  }

  ghost predicate NextRun(r: Run, step: Step, r': Run) {
    && Next(r.q, step, r'.q)
    && r'.arrived == (if step.Enter? then r.arrived + [step.writer] else r.arrived)
    && r'.served == (if step.Finish? then r.served + Acks(r.q) else r.served)
    && r'.base == r.base
  }

  ghost predicate Init(r: Run) {
    r.base < MAX_SEQUENCE && r == Run(State([], Idle, r.base, [], [], 0), [], [], r.base)
  }

  // ---- What every run keeps

  function Writers(served: seq<Ack>): (ws: seq<Writer>)
    ensures |ws| == |served|
  {
    seq(|served|, i requires 0 <= i < |served| => served[i].writer)
  }

  // The writers whose batches are in the log.
  function LoggedWriters(served: seq<Ack>, q: State): seq<Writer> {
    if q.phase.Inserting? && q.phase.group <= |q.writers| then Writers(served) + q.writers[..q.phase.group] else Writers(served)
  }

  // The records hold `ops` in order, numbered upwards from behind `base`.
  ghost predicate RecordsAre(base: nat, log: seq<Record>, ops: seq<Op>) {
    if log == [] then ops == []
    else
      var last := log[|log|-1];
      var before := last.first - 1 - base;
      && before >= 0 && before + |last.ops| == |ops|
      && last.ops == ops[before..]
      && RecordsAre(base, log[..|log|-1], ops[..before])
  }

  ghost predicate AppliedAre(base: nat, applied: seq<Entry>, ops: seq<Op>, n: nat) {
    n <= |ops| && base + |ops| < MAX_SEQUENCE && applied == Stamped(ops, base + 1)[..n]
  }

  function Inserted(q: State): nat {
    if q.phase.Inserting? then q.phase.inserted else 0
  }

  // The group in progress, and what its leader did for it.
  ghost predicate PhaseOk(q: State) {
    !q.phase.Idle? ==>
      var n := q.phase.group;
      && 1 <= n <= |q.writers|
      && (forall i | 0 <= i < n && q.writers[i].sync :: q.writers[0].sync)
      && (if q.writers[0].batch.None? then n == 1 && q.phase.Leading?
          else q.lastSequence + |AllOps(q.writers[..n])| < MAX_SEQUENCE)
      && (q.phase.Inserting? ==>
            && q.log != []
            && q.log[|q.log|-1] == Record(q.lastSequence + 1, AllOps(q.writers[..n]), q.writers[0].sync)
            && q.phase.inserted <= |AllOps(q.writers[..n])|)
  }

  // Writer `i`'s operations are in the record it names, synced if it asked for that.
  ghost predicate IsDurable(base: nat, served: seq<Ack>, log: seq<Record>, i: nat)
    requires i < |served|
  {
    served[i].writer.batch.Some? ==>
      && served[i].record.Some? && served[i].record.value < |log|
      && var record := log[served[i].record.value];
      && (served[i].writer.sync ==> record.synced)
      && record.first <= base + |AllOps(Writers(served[..i]))| + 1
      && base + |AllOps(Writers(served[..i+1]))| < record.first + |record.ops|
  }

  ghost predicate AllDurable(base: nat, served: seq<Ack>, log: seq<Record>) {
    forall i | 0 <= i < |served| :: IsDurable(base, served, log, i)
  }

  ghost predicate Inv(r: Run) {
    var ops := AllOps(LoggedWriters(r.served, r.q));
    && PhaseOk(r.q)
    && r.q.lastSequence == r.base + |AllOps(Writers(r.served))| < MAX_SEQUENCE
    && RecordsAre(r.base, r.q.log, ops)
    && AppliedAre(r.base, r.q.applied, ops, r.q.lastSequence - r.base + Inserted(r.q))
    && AllDurable(r.base, r.served, r.q.log)
    && r.arrived == Writers(r.served) + r.q.writers
    && r.q.switches == LedRequests(r.served) + if Switching(r.q) then 1 else 0
  }

  // The requests for a memtable switch that were served by leading, not as members of a group.
  function LedRequests(served: seq<Ack>): nat {
    if served == [] then 0
    else
      var last := served[|served|-1];
      LedRequests(served[..|served|-1]) + if last.leads && last.writer.batch.None? then 1 else 0
  }

  predicate Switching(q: State) {
    q.phase.Leading? && q.writers != [] && q.writers[0].batch.None?
  }

  lemma {:induction false} AllOpsOfBoth(a: seq<Writer>, b: seq<Writer>)
    ensures AllOps(a + b) == AllOps(a) + AllOps(b)
  {
    if b == [] {
      assert a + b == a;
    } else {
      var init := b[..|b|-1];
      AllOpsOfBoth(a, init);
      assert (a + b)[..|a + b|-1] == a + init && (a + b)[|a + b|-1] == b[|b|-1];
      assert AllOps(a) + AllOps(init) + OpsOf(b[|b|-1]) == AllOps(a) + (AllOps(init) + OpsOf(b[|b|-1]));
    }
  }

  lemma AllOpsOfPrefix(ws: seq<Writer>, i: nat, n: nat)
    requires i <= n <= |ws|
    ensures |AllOps(ws[..i])| <= |AllOps(ws[..n])|
  {
    assert ws[..n] == ws[..i] + ws[i..n];
    AllOpsOfBoth(ws[..i], ws[i..n]);
  }

  lemma GroupIgnoresBack(served: seq<Ack>, q: State, w: Writer)
    requires PhaseOk(q)
    ensures var q' := q.(writers := q.writers + [w]);
            && PhaseOk(q') && LoggedWriters(served, q') == LoggedWriters(served, q) && Switching(q') == Switching(q)
  {
    hide AllOps, Writers;
    if !q.phase.Idle? {
      assert (q.writers + [w])[..q.phase.group] == q.writers[..q.phase.group];
    }
  }

  lemma EnterKeepsInv(r: Run, w: Writer, r': Run)
    requires Inv(r) && NextRun(r, Enter(w), r')
    ensures Inv(r')
  {
    hide AllOps, RecordsAre, AllDurable, Writers, AppliedAre, LedRequests, PhaseOk, LoggedWriters, Switching;
    GroupIgnoresBack(r.served, r.q, w);
    assert r.arrived + [w] == Writers(r.served) + (r.q.writers + [w]);
  }

  lemma LeadKeepsInv(r: Run, n: nat, r': Run)
    requires Inv(r) && NextRun(r, Lead(n), r')
    ensures Inv(r')
  {
    hide AllOps, RecordsAre, AllDurable, Writers, AppliedAre, LedRequests, TotalSize;
    if r.q.writers[0].batch.Some? {
      forall i | 0 <= i < n && r.q.writers[i].sync
        ensures r.q.writers[0].sync
      {
        assert i != 0 ==> MayJoin(r.q.writers, i);
      }
    }
  }

  lemma RecordAdded(base: nat, log: seq<Record>, ops: seq<Op>, record: Record)
    requires RecordsAre(base, log, ops) && record.first == base + |ops| + 1
    ensures RecordsAre(base, log + [record], ops + record.ops)
  {
    assert (log + [record])[..|log|] == log;
    assert (ops + record.ops)[..|ops|] == ops;
  }

  lemma LongerLogIsDurable(base: nat, served: seq<Ack>, log: seq<Record>, record: Record)
    requires AllDurable(base, served, log)
    ensures AllDurable(base, served, log + [record])
  {
    forall i | 0 <= i < |served|
      ensures IsDurable(base, served, log + [record], i)
    {
      assert IsDurable(base, served, log, i);
    }
  }

  lemma MoreOpsAreApplied(base: nat, applied: seq<Entry>, ops: seq<Op>, more: seq<Op>)
    requires AppliedAre(base, applied, ops, |ops|) && base + |ops| + |more| < MAX_SEQUENCE
    ensures AppliedAre(base, applied, ops + more, |ops|)
  {
  }

  lemma AddRecordKeepsInv(r: Run, r': Run)
    requires Inv(r) && NextRun(r, AddRecord, r')
    ensures Inv(r')
  {
    hide AllOps, RecordsAre, AllDurable, Writers, AppliedAre, LedRequests;
    var group := r.q.writers[..r.q.phase.group];
    AllOpsOfBoth(Writers(r.served), group);
    LongerLogIsDurable(r.base, r.served, r.q.log, r'.q.log[|r.q.log|]);
    RecordAdded(r.base, r.q.log, AllOps(Writers(r.served)), Record(r.q.lastSequence + 1, AllOps(group), r.q.writers[0].sync));
    MoreOpsAreApplied(r.base, r.q.applied, AllOps(Writers(r.served)), AllOps(group));
  }

  lemma OneMoreIsApplied(base: nat, applied: seq<Entry>, ops: seq<Op>, n: nat)
    requires AppliedAre(base, applied, ops, n) && n < |ops|
    ensures AppliedAre(base, applied + [Stamp(ops[n], base + 1 + n)], ops, n + 1)
  {
    var all := Stamped(ops, base + 1);
    assert all[..n+1] == all[..n] + [all[n]];
  }

  lemma InsertNextKeepsInv(r: Run, r': Run)
    requires Inv(r) && NextRun(r, InsertNext, r')
    ensures Inv(r')
  {
    hide AllOps, RecordsAre, AllDurable, Writers, AppliedAre, LedRequests;
    var group := r.q.writers[..r.q.phase.group];
    AllOpsOfBoth(Writers(r.served), group);
    OneMoreIsApplied(r.base, r.q.applied, AllOps(Writers(r.served) + group), r.q.lastSequence - r.base + r.q.phase.inserted);
  }

  lemma EarlierIsDurable(base: nat, served: seq<Ack>, more: seq<Ack>, log: seq<Record>, i: nat)
    requires i < |served| && IsDurable(base, served, log, i)
    ensures IsDurable(base, served + more, log, i)
  {
    assert (served + more)[..i] == served[..i] && (served + more)[..i+1] == served[..i+1];
  }

  lemma MemberIsDurable(base: nat, served: seq<Ack>, q: State, j: nat)
    requires PhaseOk(q) && q.lastSequence == base + |AllOps(Writers(served))|
    requires !q.phase.Idle? && (q.phase.Leading? ==> q.writers[0].batch.None?)
    requires j < q.phase.group
    ensures IsDurable(base, served + Acks(q), q.log, |served| + j)
  {
    hide AllOps, Writers;
    var all := served + Acks(q);
    assert all[|served|+j] == Acks(q)[j];
    GroupPrefix(served, q, j);
    GroupPrefix(served, q, j + 1);
    AllOpsOfPrefix(q.writers, j + 1, q.phase.group);
    assert |served| + (j + 1) == |served| + j + 1;
  }

  lemma GroupPrefix(served: seq<Ack>, q: State, j: nat)
    requires !q.phase.Idle? && j <= q.phase.group <= |q.writers| && (q.phase.Inserting? ==> q.log != [])
    ensures |AllOps(Writers((served + Acks(q))[..|served|+j]))| == |AllOps(Writers(served))| + |AllOps(q.writers[..j])|
  {
    assert Writers((served + Acks(q))[..|served|+j]) == Writers(served) + q.writers[..j];
    AllOpsOfBoth(Writers(served), q.writers[..j]);
  }

  // A group led to the end is durable as a whole.
  lemma GroupIsDurable(base: nat, served: seq<Ack>, q: State)
    requires PhaseOk(q) && q.lastSequence == base + |AllOps(Writers(served))|
    requires !q.phase.Idle? && (q.phase.Leading? ==> q.writers[0].batch.None?)
    requires AllDurable(base, served, q.log)
    ensures AllDurable(base, served + Acks(q), q.log)
  {
    hide IsDurable, AllOps, Writers;
    forall i | 0 <= i < |served + Acks(q)|
      ensures IsDurable(base, served + Acks(q), q.log, i)
    {
      if i < |served| {
        EarlierIsDurable(base, served, Acks(q), q.log, i);
      } else {
        MemberIsDurable(base, served, q, i - |served|);
      }
    }
  }

  // Serving the group in progress moves its operations from logged to served.
  lemma ServedOps(served: seq<Ack>, q: State)
    requires PhaseOk(q) && !q.phase.Idle? && (q.phase.Leading? ==> q.writers[0].batch.None?)
    ensures var group := q.writers[..q.phase.group];
            && Writers(served + Acks(q)) == Writers(served) + group
            && AllOps(LoggedWriters(served, q)) == AllOps(Writers(served) + group)
            && |AllOps(Writers(served) + group)| == |AllOps(Writers(served))| + if q.phase.Inserting? then |q.log[|q.log|-1].ops| else 0
  {
    var group := q.writers[..q.phase.group];
    assert Writers(served + Acks(q)) == Writers(served) + group;
    hide Writers;
    AllOpsOfBoth(Writers(served), group);
    if q.phase.Leading? {
      FirstSums(q.writers);
      hide AllOps;
      assert AllOps(Writers(served)) + [] == AllOps(Writers(served));
    }
  }

  lemma {:induction false} GroupRequests(served: seq<Ack>, q: State, j: nat)
    requires !q.phase.Idle? && j <= q.phase.group <= |q.writers| && (q.phase.Inserting? ==> q.log != [])
    ensures LedRequests(served + Acks(q)[..j]) == LedRequests(served) + if j != 0 && q.writers[0].batch.None? then 1 else 0
  {
    if j == 0 {
      assert served + Acks(q)[..0] == served;
    } else {
      GroupRequests(served, q, j - 1);
      assert (served + Acks(q)[..j])[..|served|+j-1] == served + Acks(q)[..j-1];
    }
  }

  lemma FinishKeepsInv(r: Run, r': Run)
    requires Inv(r) && NextRun(r, Finish, r')
    ensures Inv(r')
  {
    hide AllOps, RecordsAre, AllDurable, Writers, AppliedAre, LedRequests;
    GroupIsDurable(r.base, r.served, r.q);
    ServedOps(r.served, r.q);
    var n := r.q.phase.group;
    GroupRequests(r.served, r.q, n);
    assert Acks(r.q)[..n] == Acks(r.q);
    assert r.arrived == (Writers(r.served) + r.q.writers[..n]) + r.q.writers[n..];
  }

  // Only logging a group adds operations to the log: those of its record.
  lemma OnlyRecordsAreLogged(r: Run, step: Step, r': Run)
    requires PhaseOk(r.q) && NextRun(r, step, r')
    ensures step.AddRecord? ==> r'.q.log != [] && !r.q.phase.Inserting? && r'.q.phase == Inserting(r.q.phase.group, 0)
    ensures AllOps(LoggedWriters(r'.served, r'.q)) ==
            AllOps(LoggedWriters(r.served, r.q)) + if step.AddRecord? then r'.q.log[|r'.q.log|-1].ops else []
  {
    hide AllOps, Writers, TotalSize, Stamp;
    assert AllOps(LoggedWriters(r.served, r.q)) + [] == AllOps(LoggedWriters(r.served, r.q));
    match step
    case Enter(w) => GroupIgnoresBack(r.served, r.q, w);
    case Lead(n) =>
    case AddRecord => AllOpsOfBoth(Writers(r.served), r.q.writers[..r.q.phase.group]);
    case InsertNext =>
    case Finish => ServedOps(r.served, r.q);
  }

  lemma StepKeepsInv(r: Run, step: Step, r': Run)
    requires Inv(r) && NextRun(r, step, r')
    ensures Inv(r')
  {
    hide Inv, NextRun;
    match step
    case Enter(w) => EnterKeepsInv(r, w, r');
    case Lead(n) => LeadKeepsInv(r, n, r');
    case AddRecord => AddRecordKeepsInv(r, r');
    case InsertNext => InsertNextKeepsInv(r, r');
    case Finish => FinishKeepsInv(r, r');
  }

  ghost predicate IsQueueRun(runs: seq<Run>, steps: seq<Step>) {
    && |runs| == |steps| + 1
    && Init(runs[0])
    && forall i | 0 <= i < |steps| :: NextRun(runs[i], steps[i], runs[i+1])
  }

  lemma StartKeepsInv(r: Run)
    requires Init(r)
    ensures Inv(r)
  {
    hide RecordsAre, AppliedAre, AllDurable, AllOps, LedRequests;
    NothingLogged(r.base);
    assert Writers([]) + [] == [];
  }

  lemma NothingLogged(base: nat)
    requires base < MAX_SEQUENCE
    ensures AllOps([]) == [] && RecordsAre(base, [], []) && AllDurable(base, [], []) && LedRequests([]) == 0
    ensures AppliedAre(base, [], [], 0)
  {
    hide Stamp;
    assert Stamped([], base + 1)[..0] == [];
  }

  lemma {:induction false} RunKeepsInv(runs: seq<Run>, steps: seq<Step>, n: nat)
    requires IsQueueRun(runs, steps) && n < |runs|
    ensures Inv(runs[n])
  {
    hide Inv, NextRun, Init;
    if n == 0 {
      StartKeepsInv(runs[0]);
    } else {
      RunKeepsInv(runs, steps, n - 1);
      StepKeepsInv(runs[n-1], steps[n-1], runs[n]);
    }
  }

  // ---- The main results

  // Writers are served in the order they arrived, none twice and none skipped; the records of
  // the log hold the batches of the served writers, and of the group in progress once logged,
  // each once, in queue order, with consecutive sequence numbers from the first free one on.
  lemma BatchesAreLoggedOnceInOrder(runs: seq<Run>, steps: seq<Step>, n: nat)
    requires IsQueueRun(runs, steps) && n < |runs|
    ensures var r := runs[n];
            && r.arrived == Writers(r.served) + r.q.writers
            && LoggedWriters(r.served, r.q) <= r.arrived
            && RecordsAre(r.base, r.q.log, AllOps(LoggedWriters(r.served, r.q)))
  {
    hide IsQueueRun, RecordsAre, AllOps, AppliedAre, AllDurable, Writers, LedRequests;
    RunKeepsInv(runs, steps, n);
    var r := runs[n];
    if r.q.phase.Inserting? {
      var k := r.q.phase.group;
      assert r.arrived == (Writers(r.served) + r.q.writers[..k]) + r.q.writers[k..];
    }
  }

  // A snapshot taken at any moment sees the batches of the writers served by then, whole, and
  // nothing of the group in progress.
  lemma SnapshotSeesWholeGroups(runs: seq<Run>, steps: seq<Step>, n: nat)
    requires IsQueueRun(runs, steps) && n < |runs|
    ensures var r := runs[n];
            var last, ops := r.q.lastSequence, AllOps(Writers(r.served));
            && last == r.base + |ops| < MAX_SEQUENCE && |ops| <= |r.q.applied|
            && r.q.applied[..|ops|] == Stamped(ops, r.base + 1)
            && forall i | |ops| <= i < |r.q.applied| :: last < r.q.applied[i].key.sequence
  {
    hide IsQueueRun, RecordsAre, AllOps, AllDurable, Writers, AppliedAre, LedRequests, LoggedWriters, PhaseOk, Switching;
    RunKeepsInv(runs, steps, n);
    var r := runs[n];
    var more := LoggedOps(r.served, r.q);
    AppliedPrefix(r.base, r.q.applied, AllOps(Writers(r.served)), more, r.q.lastSequence - r.base + Inserted(r.q));
  }

  lemma LoggedOps(served: seq<Ack>, q: State) returns (more: seq<Op>)
    ensures AllOps(LoggedWriters(served, q)) == AllOps(Writers(served)) + more
  {
    hide AllOps, Writers;
    if q.phase.Inserting? && q.phase.group <= |q.writers| {
      AllOpsOfBoth(Writers(served), q.writers[..q.phase.group]);
      more := AllOps(q.writers[..q.phase.group]);
    } else {
      more := [];
    }
  }

  lemma AppliedPrefix(base: nat, applied: seq<Entry>, ops: seq<Op>, more: seq<Op>, n: nat)
    requires AppliedAre(base, applied, ops + more, n) && |ops| <= n
    ensures |ops| <= |applied| && applied[..|ops|] == Stamped(ops, base + 1)
    ensures forall i | |ops| <= i < |applied| :: base + |ops| < applied[i].key.sequence
  {
  }

  // A writer that asked for a sync is served only after a synced record holds its batch.
  lemma SyncWritersAreSynced(runs: seq<Run>, steps: seq<Step>, n: nat, i: nat)
    requires IsQueueRun(runs, steps) && n < |runs| && i < |runs[n].served|
    ensures IsDurable(runs[n].base, runs[n].served, runs[n].q.log, i)
  {
    RunKeepsInv(runs, steps, n);
    hide IsQueueRun, RecordsAre, AllOps, Writers, AppliedAre;
  }

  // The memtable was switched on request exactly once for each request that led.
  lemma OnlyLeadersSwitch(runs: seq<Run>, steps: seq<Step>, n: nat)
    requires IsQueueRun(runs, steps) && n < |runs|
    ensures var r := runs[n];
            r.q.switches == LedRequests(r.served) + if Switching(r.q) then 1 else 0
  {
    RunKeepsInv(runs, steps, n);
  }

  // ---- Which requests are switched

  // After `step` the writer that arrived as number `a` waits behind a batch and may join its
  // group, and so may every writer in between.
  ghost predicate IsJoinedAt(r: Run, step: Step, a: nat) {
    && step.Lead? && r.q.writers != [] && r.q.writers[0].batch.Some?
    && |r.served| < a < |r.served| + |r.q.writers|
    && forall j | 1 <= j <= a - |r.served| :: MayJoin(r.q.writers, j)
  }

  // The group led from `lead` on is in progress in `r`.
  ghost predicate IsLeading(lead: Run, group: nat, r: Run) {
    && !r.q.phase.Idle? && r.q.phase.group == group && r.served == lead.served
    && lead.q.writers <= r.q.writers
  }

  // The group led from `lead` on has been served in `r`, by the first of it.
  ghost predicate IsLed(lead: Run, group: nat, r: Run) {
    && group <= |lead.q.writers| && |lead.served| + group <= |r.served|
    && forall a {:trigger r.served[a]} | |lead.served| <= a < |lead.served| + group ::
         r.served[a].leads == (a == |lead.served|) && r.served[a].writer == lead.q.writers[a-|lead.served|]
  }

  lemma {:induction false} ServedOnlyGrows(runs: seq<Run>, steps: seq<Step>, m: nat, n: nat)
    requires IsQueueRun(runs, steps) && m <= n < |runs|
    ensures runs[m].served <= runs[n].served && runs[m].arrived <= runs[n].arrived
  {
    hide Next, Init, Acks;
    if m < n {
      ServedOnlyGrows(runs, steps, m, n - 1);
      assert NextRun(runs[n-1], steps[n-1], runs[n]);
    }
  }

  lemma LeadFinishes(lead: Run, group: nat, r: Run, r': Run)
    requires NextRun(r, Finish, r') && PhaseOk(r.q) && IsLeading(lead, group, r) && group <= |lead.q.writers|
    ensures IsLed(lead, group, r')
  {
    hide AllOps, LedRequests;
    var acks := Acks(r.q);
    assert r'.served == lead.served + acks && |acks| == group;
    forall a | |lead.served| <= a < |lead.served| + group
      ensures r'.served[a].leads == (a == |lead.served|) && r'.served[a].writer == lead.q.writers[a-|lead.served|]
    {
      var i := a - |lead.served|;
      assert r'.served[a] == acks[i];
      assert acks[i].writer == r.q.writers[i] == lead.q.writers[i];
    }
  }

  lemma LeadingGoesOn(lead: Run, group: nat, r: Run, step: Step, r': Run)
    requires NextRun(r, step, r') && PhaseOk(r.q) && !step.Finish? && IsLeading(lead, group, r)
    ensures IsLeading(lead, group, r')
  {
    hide AllOps, IsGroup;
  }

  lemma LedStays(lead: Run, group: nat, r: Run, r': Run)
    requires IsLed(lead, group, r) && r.served <= r'.served
    ensures IsLed(lead, group, r')
  {
  }

  lemma LeadGoesOn(lead: Run, group: nat, r: Run, step: Step, r': Run)
    requires NextRun(r, step, r') && PhaseOk(r.q) && group <= |lead.q.writers|
    requires IsLeading(lead, group, r) || IsLed(lead, group, r)
    ensures IsLeading(lead, group, r') || IsLed(lead, group, r')
  {
    assert r.served <= r'.served;
    hide NextRun, IsLeading, IsLed, PhaseOk;
    if IsLed(lead, group, r) {
      LedStays(lead, group, r, r');
    } else if step.Finish? {
      LeadFinishes(lead, group, r, r');
    } else {
      LeadingGoesOn(lead, group, r, step, r');
    }
  }

  lemma InvPhase(r: Run)
    requires Inv(r)
    ensures PhaseOk(r.q)
  {
    hide PhaseOk, AllOps, RecordsAre, AllDurable, Writers, AppliedAre, LedRequests;
  }

  // A group that is led is served whole before any other.
  lemma {:induction false} LeadServesGroup(runs: seq<Run>, steps: seq<Step>, m: nat, n: nat)
    requires IsQueueRun(runs, steps) && m < n < |runs| && steps[m].Lead?
    ensures steps[m].group <= |runs[m].q.writers|
    ensures IsLeading(runs[m], steps[m].group, runs[n]) || IsLed(runs[m], steps[m].group, runs[n])
  {
    hide NextRun, Inv, Init, IsLeading, IsLed, PhaseOk, IsGroup;
    assert NextRun(runs[m], steps[m], runs[m+1]);
    LeadBegins(runs[m], steps[m], runs[m+1]);
    if n != m + 1 {
      LeadServesGroup(runs, steps, m, n - 1);
      RunKeepsInv(runs, steps, n - 1);
      InvPhase(runs[n-1]);
      LeadGoesOn(runs[m], steps[m].group, runs[n-1], steps[n-1], runs[n]);
    }
  }

  lemma LeadBegins(r: Run, step: Step, r': Run)
    requires step.Lead? && NextRun(r, step, r')
    ensures step.group <= |r.q.writers| && 1 <= step.group && IsLeading(r, step.group, r')
    ensures r.q.writers[0].batch.None? ==> step.group == 1
    ensures r.q.writers[0].batch.Some? ==> IsGroup(r.q.writers, step.group)
  {
    hide MayJoin, AllOps;
  }

  ghost predicate LedFrom(runs: seq<Run>, steps: seq<Step>, m: nat, n: nat)
    requires n < |runs| && |runs| == |steps| + 1
  {
    m < n && steps[m].Lead? && IsLeading(runs[m], steps[m].group, runs[n])
  }

  // A group in progress was led by some step before.
  lemma {:induction false} GroupWasLed(runs: seq<Run>, steps: seq<Step>, n: nat)
    requires IsQueueRun(runs, steps) && n < |runs| && !runs[n].q.phase.Idle?
    ensures exists m: nat :: LedFrom(runs, steps, m, n)
  {
    hide AllOps, IsGroup, MayJoin;
    assert n != 0;
    assert NextRun(runs[n-1], steps[n-1], runs[n]);
    if steps[n-1].Lead? {
      LeadBegins(runs[n-1], steps[n-1], runs[n]);
      assert LedFrom(runs, steps, n - 1, n);
    } else {
      GroupWasLed(runs, steps, n - 1);
      var m: nat :| LedFrom(runs, steps, m, n - 1);
      assert LedFrom(runs, steps, m, n);
    }
  }

  ghost predicate ServedFrom(runs: seq<Run>, steps: seq<Step>, m: nat, n: nat, a: nat)
    requires n < |runs| && |runs| == |steps| + 1
  {
    && m < n && steps[m].Lead? && |runs[m].served| <= a < |runs[m].served| + steps[m].group
    && IsLed(runs[m], steps[m].group, runs[n])
  }

  // Everyone served was served by a group, which some step led.
  lemma {:induction false} ServedWasLed(runs: seq<Run>, steps: seq<Step>, n: nat, a: nat) returns (m: nat)
    requires IsQueueRun(runs, steps) && n < |runs| && a < |runs[n].served|
    ensures ServedFrom(runs, steps, m, n, a)
  {
    hide Next, Init, IsLeading, IsLed, Acks;
    assert n != 0 by { StartsUnserved(runs[0]); }
    assert NextRun(runs[n-1], steps[n-1], runs[n]);
    if a < |runs[n-1].served| {
      m := ServedWasLed(runs, steps, n - 1, a);
    } else {
      FinishServes(runs[n-1], steps[n-1], runs[n]);
      GroupWasLed(runs, steps, n - 1);
      m :| LedFrom(runs, steps, m, n - 1);
      LeadingParts(runs[m], steps[m].group, runs[n-1]);
    }
    LeadServesGroup(runs, steps, m, n);
    NotLeading(runs[m], steps[m].group, runs[n], a);
  }

  lemma StartsUnserved(r: Run)
    ensures Init(r) ==> r.served == []
  {
  }

  lemma FinishServes(r: Run, step: Step, r': Run)
    requires NextRun(r, step, r') && |r.served| < |r'.served|
    ensures !r.q.phase.Idle? && |r'.served| == |r.served| + r.q.phase.group
  {
  }

  lemma LeadingParts(lead: Run, group: nat, r: Run)
    requires IsLeading(lead, group, r)
    ensures !r.q.phase.Idle? && r.q.phase.group == group && r.served == lead.served
  {
  }

  lemma NotLeading(lead: Run, group: nat, r: Run, a: nat)
    requires |lead.served| <= a < |r.served|
    ensures !IsLeading(lead, group, r)
  {
  }

  lemma LedIs(lead: Run, group: nat, r: Run, a: nat)
    requires IsLed(lead, group, r) && |lead.served| <= a < |lead.served| + group
    ensures a < |r.served| && r.served[a].leads == (a == |lead.served|)
    ensures r.served[a].writer == lead.q.writers[a - |lead.served|]
  {
  }

  // Exactly those who wait behind a batch, with nobody in between who may not join its group,
  // are served without leading: such a request for a switch is swallowed.
  lemma SwallowedIfJoined(runs: seq<Run>, steps: seq<Step>, n: nat, a: nat)
    requires IsQueueRun(runs, steps) && n < |runs| && a < |runs[n].served|
    ensures !runs[n].served[a].leads <==> exists m | 0 <= m < n :: IsJoinedAt(runs[m], steps[m], a)
  {
    hide NextRun, Init, IsLeading, IsLed, MayJoin;
    if !runs[n].served[a].leads {
      var m := ServedWasLed(runs, steps, n, a);
      LedIs(runs[m], steps[m].group, runs[n], a);
      assert NextRun(runs[m], steps[m], runs[m+1]);
      LeadBegins(runs[m], steps[m], runs[m+1]);
      assert IsJoinedAt(runs[m], steps[m], a);
    }
    forall m | 0 <= m < n && IsJoinedAt(runs[m], steps[m], a)
      ensures !runs[n].served[a].leads
    {
      assert NextRun(runs[m], steps[m], runs[m+1]);
      LeadBegins(runs[m], steps[m], runs[m+1]);
      LeadServesGroup(runs, steps, m, n);
      NotLeading(runs[m], steps[m].group, runs[n], a);
      LedIs(runs[m], steps[m].group, runs[n], a);
    }
  }

  lemma {:induction false} LedRequestsGrow(served: seq<Ack>, a: nat, more: nat)
    requires a < |served| && a + 1 + more == |served|
    ensures LedRequests(served[..a]) + (if served[a].leads && served[a].writer.batch.None? then 1 else 0) <= LedRequests(served)
  {
    if more == 0 {
      assert served[..|served|-1] == served[..a];
    } else {
      var init := served[..|served|-1];
      LedRequestsGrow(init, a, more - 1);
      assert init[..a] == served[..a];
    }
  }

  // A request that enters an empty queue leads, and the memtable is switched for it.
  lemma LoneRequestSwitches(runs: seq<Run>, steps: seq<Step>, m: nat, n: nat)
    requires IsQueueRun(runs, steps) && m < n < |runs|
    requires steps[m].Enter? && steps[m].writer.batch.None? && runs[m].q.writers == []
    ensures var a := |runs[m].served|;
            a < |runs[n].served| ==>
              && runs[n].served[a] == Ack(steps[m].writer, true, runs[n].served[a].record)
              && runs[m].q.switches + 1 <= runs[n].q.switches
  {
    var a := |runs[m].served|;
    RunKeepsInv(runs, steps, m);
    RunKeepsInv(runs, steps, n);
    assert NextRun(runs[m], steps[m], runs[m+1]);
    assert runs[m+1].arrived == runs[m].arrived + [steps[m].writer] && |runs[m].arrived| == a;
    ServedOnlyGrows(runs, steps, m, n);
    ServedOnlyGrows(runs, steps, m + 1, n);
    assert !Switching(runs[m].q) && runs[m].q.phase.Idle?;
    hide NextRun, Init, IsJoinedAt, RecordsAre, AppliedAre, AllDurable, AllOps, LoggedWriters, PhaseOk;
    if a < |runs[n].served| {
      assert runs[n].arrived[a] == steps[m].writer;
      assert Writers(runs[n].served)[a] == runs[n].arrived[a];
      SwallowedIfJoined(runs, steps, n, a);
      forall k | 0 <= k < n
        ensures !IsJoinedAt(runs[k], steps[k], a)
      {
        LaterIsNotJoined(runs, steps, m, n, k);
      }
      LedRequestsGrow(runs[n].served, a, |runs[n].served| - a - 1);
      assert runs[n].served[..a] == runs[m].served;
    }
  }

  // Nobody was waiting when it entered, and nobody entered in front of it since.
  lemma LaterIsNotJoined(runs: seq<Run>, steps: seq<Step>, m: nat, n: nat, k: nat)
    requires IsQueueRun(runs, steps) && m < n < |runs| && k < n
    requires runs[m].q.writers == [] && runs[m].q.phase.Idle?
    ensures !IsJoinedAt(runs[k], steps[k], |runs[m].served|)
  {
    var a := |runs[m].served|;
    hide NextRun, Init, MayJoin;
    if m <= k {
      ServedOnlyGrows(runs, steps, m, k);
    } else if IsJoinedAt(runs[k], steps[k], a) {
      RunKeepsInv(runs, steps, k);
      RunKeepsInv(runs, steps, m);
      assert NextRun(runs[k], steps[k], runs[k+1]);
      LeadBegins(runs[k], steps[k], runs[k+1]);
      LeadServesGroup(runs, steps, k, m);
      assert false;
    }
  }

  lemma RequestJoinsGroup(w: Writer, request: Writer, op: Op) returns (runs: seq<Run>, steps: seq<Step>)
    requires w == Writer(Some(Batch([op], 20)), false) && request == Writer(None, false)
    ensures IsQueueRun(runs, steps)
    ensures runs[|runs|-1] == Run(State([w, request], Leading(2), 0, [], [], 0), [w, request], [], 0)
  {
    BothMayJoin(op, [w, request]);
    hide IsQueueRun, AllOps, IsGroup;
    assert [] + [w] == [w] && [w] + [request] == [w, request];
    runs, steps := [Run(State([], Idle, 0, [], [], 0), [], [], 0)], [];
    StartIsRun(runs);
    runs, steps := Extended(runs, steps, Enter(w), Run(State([w], Idle, 0, [], [], 0), [w], [], 0));
    runs, steps := Extended(runs, steps, Enter(request), Run(State([w, request], Idle, 0, [], [], 0), [w, request], [], 0));
    runs, steps := Extended(runs, steps, Lead(2), Run(State([w, request], Leading(2), 0, [], [], 0), [w, request], [], 0));
  }

  // A request that waits behind a batch is served as a member of that batch's group: it
  // returns although no switch was made.
  lemma RequestIsSwallowed(op: Op) returns (runs: seq<Run>, steps: seq<Step>)
    ensures IsQueueRun(runs, steps)
    ensures var r := runs[|runs|-1];
            && |r.served| == 2 && r.served[1].writer.batch.None? && r.q.writers == []
            && r.q.switches == 0
  {
    var w, request := Writer(Some(Batch([op], 20)), false), Writer(None, false);
    var ws, record, e := [w, request], Record(1, [op], false), Stamp(op, 1);
    runs, steps := RequestJoinsGroup(w, request, op);
    BothMayJoin(op, ws);
    hide IsQueueRun, AllOps, Acks, Stamp;
    assert ws[2..] == [] && [] + [e] == [e];
    runs, steps := Extended(runs, steps, AddRecord, Run(State(ws, Inserting(2, 0), 0, [record], [], 0), ws, [], 0));
    var last := State(ws, Inserting(2, 1), 0, [record], [e], 0);
    runs, steps := Extended(runs, steps, InsertNext, Run(last, ws, [], 0));
    var acks := [Ack(w, true, Some(0)), Ack(request, false, Some(0))];
    TwoAcks(last, acks);
    runs, steps := Extended(runs, steps, Finish, Run(State([], Idle, 1, [record], [e], 0), ws, acks, 0));
  }

  lemma TwoAcks(q: State, acks: seq<Ack>)
    requires q.phase.Inserting? && q.phase.group == 2 == |q.writers| && |q.log| == 1
    requires acks == [Ack(q.writers[0], true, Some(0)), Ack(q.writers[1], false, Some(0))]
    ensures [] + Acks(q) == acks
  {
  }

  lemma StartIsRun(runs: seq<Run>)
    requires |runs| == 1 && Init(runs[0])
    ensures IsQueueRun(runs, [])
  {
  }

  lemma Extended(runs: seq<Run>, steps: seq<Step>, step: Step, r: Run) returns (runs': seq<Run>, steps': seq<Step>)
    requires IsQueueRun(runs, steps) && NextRun(runs[|runs|-1], step, r)
    ensures IsQueueRun(runs', steps') && runs' == runs + [r]
  {
    runs', steps' := runs + [r], steps + [step];
    hide NextRun, Init;
    forall i | 0 <= i < |steps'|
      ensures NextRun(runs'[i], steps'[i], runs'[i+1])
    {
      assert i < |steps| ==> NextRun(runs[i], steps[i], runs[i+1]);
    }
  }

  lemma BothMayJoin(op: Op, ws: seq<Writer>)
    requires ws == [Writer(Some(Batch([op], 20)), false), Writer(None, false)]
    ensures IsGroup(ws, 2) && AllOps(ws[..2]) == [op]
  {
    FirstSums(ws);
    PrefixSums(ws, 1);
    assert MayJoin(ws, 1);
  }

  // ---- The leader's part of a write, one critical section after another. Other writers may
  // enter between any two of these calls.

  // Every writer of the group that asked for a sync gets one.
  ghost predicate GroupIsSynced(q: State) {
    && !q.phase.Idle? && q.phase.group <= |q.writers| && q.log != []
    && forall i | 0 <= i < q.phase.group && q.writers[i].sync :: q.log[|q.log|-1].synced
  }

  lemma RecordContinues(log: seq<Record>, record: Record)
    ensures forall base: nat, ops | RecordsAre(base, log, ops) && base + |ops| + 1 == record.first :: RecordsAre(base, log + [record], ops + record.ops)
  {
    hide RecordsAre;
    forall base: nat, ops | RecordsAre(base, log, ops) && base + |ops| + 1 == record.first
      ensures RecordsAre(base, log + [record], ops + record.ops)
    {
      RecordAdded(base, log, ops, record);
    }
  }

  lemma RecordKeepsPhase(q: State, q': State)
    requires AddRecordStep(q, q')
    ensures PhaseOk(q) ==> PhaseOk(q') && GroupIsSynced(q')
  {
    hide AllOps;
  }

  class WriteQueue {
    var writers: seq<Writer>
    var phase: Phase
    var lastSequence: nat
    var log: seq<Record>
    var applied: seq<Entry>
    var switches: nat

    ghost function Value(): State
      reads this
    {
      State(writers, phase, lastSequence, log, applied, switches)
    }

    // A database is opened with the sequence number that recovery found.
    constructor (lastSequence: nat)
      requires lastSequence < MAX_SEQUENCE
      ensures Init(Run(Value(), [], [], lastSequence)) && this.lastSequence == lastSequence
    {
      this.lastSequence := lastSequence;
      writers, phase, log, applied, switches := [], Idle, [], [], 0;
    }

    method Enter(w: Writer)
      modifies this`writers
      ensures Next(old(Value()), Step.Enter(w), Value())
    {
      writers := writers + [w];
    }

    // Returns the batch to log, and the number of writers it serves.
    method Lead() returns (updates: seq<Op>, group: nat)
      requires phase.Idle? && writers != [] && lastSequence + |AllOps(writers)| < MAX_SEQUENCE
      modifies this`phase, this`switches
      ensures Next(old(Value()), Step.Lead(group), Value())
      ensures group <= |writers| && updates == AllOps(writers[..group])
    {
      if writers[0].batch.None? {
        switches := switches + 1;
        updates, group := [], 1;
        FirstSums(writers);
      } else {
        updates, group := BuildBatchGroup(writers);
        AllOpsOfPrefix(writers, group, |writers|);
        assert writers[..|writers|] == writers;
      }
      phase := Leading(group);
    }

    method AddRecord(updates: seq<Op>)
      requires phase.Leading? && 0 < phase.group <= |writers| && writers[0].batch.Some?
      requires updates == AllOps(writers[..phase.group])
      modifies this`phase, this`log
      ensures Next(old(Value()), Step.AddRecord, Value())
      ensures forall base: nat, ops | RecordsAre(base, old(log), ops) && base + |ops| == lastSequence ::
                RecordsAre(base, log, ops + AllOps(writers[..phase.group]))
      ensures old(PhaseOk(Value())) ==> PhaseOk(Value()) && GroupIsSynced(Value())
    {
      hide AllOps, RecordsAre, PhaseOk, GroupIsSynced;
      ghost var before := Value();
      RecordContinues(log, Record(lastSequence + 1, updates, writers[0].sync));
      log := log + [Record(lastSequence + 1, updates, writers[0].sync)];
      phase := Inserting(phase.group, 0);
      RecordKeepsPhase(before, Value());
    }

    method InsertNext(op: Op, sequence: SequenceNumber)
      requires phase.Inserting? && log != []
      requires var record := log[|log|-1];
               phase.inserted < |record.ops| && op == record.ops[phase.inserted] && sequence == record.first + phase.inserted
      modifies this`phase, this`applied
      ensures Next(old(Value()), Step.InsertNext, Value())
    {
      applied := applied + [Stamp(op, sequence)];
      phase := Inserting(phase.group, phase.inserted + 1);
    }

    // The inserter gives the operations of the last record consecutive sequence numbers.
    method InsertInto()
      requires phase.Inserting? && phase.inserted == 0 && log != []
      requires var record := log[|log|-1]; record.first + |record.ops| <= MAX_SEQUENCE
      modifies this`phase, this`applied
      ensures phase == Inserting(old(phase.group), |log[|log|-1].ops|)
      ensures applied == old(applied) + Stamped(log[|log|-1].ops, log[|log|-1].first)
    {
      var updates, sequence := log[|log|-1].ops, log[|log|-1].first;
      for i := 0 to |updates|
        invariant phase == Inserting(old(phase.group), i) && sequence == log[|log|-1].first + i
        invariant applied == old(applied) + Stamped(updates, log[|log|-1].first)[..i]
      {
        InsertNext(updates[i], sequence);
        sequence := sequence + 1;
      }
    }

    // Pops writers from the front until the last one of the group is served.
    method Finish()
      requires !phase.Idle? && 0 < phase.group <= |writers|
      requires phase.Leading? ==> writers[0].batch.None?
      requires phase.Inserting? ==> log != [] && phase.inserted == |log[|log|-1].ops|
      modifies this`phase, this`writers, this`lastSequence
      ensures Next(old(Value()), Step.Finish, Value())
    {
      if phase.Inserting? {
        lastSequence := lastSequence + phase.inserted;
      }
      ghost var last := lastSequence;
      var left := phase.group;
      while left != 0
        invariant 0 <= left <= old(phase.group) && writers == old(writers)[old(phase.group) - left..]
        invariant phase == old(phase) && lastSequence == last
      {
        writers := writers[1..];
        left := left - 1;
      }
      phase := Idle;
    }
  }
}
