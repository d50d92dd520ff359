// Opening a database: replaying its logs into tables, and garbage collection of files.

module LogReplay {
  import opened InternalKeys
  import opened Versions
  import opened VersionEdits
  import opened LevelInvariants
  import opened Database
  import opened Manifests
  import opened Durability
  import opened Recovery

  // The tables hold exactly `es`, in age order, numbered upwards within [lo, hi).
  ghost predicate HoldExactly(tables: seq<File>, es: seq<Entry>, lo: nat, hi: nat) {
    && (forall e :: Holds(tables, e) <==> e in es)
    && (forall i | 0 <= i < |tables| :: lo <= tables[i].number < hi)
    && (forall i, j | 0 <= i < j < |tables| :: tables[i].number < tables[j].number)
    && (forall i, j | 0 <= i < j < |tables| :: AllOlder(tables[i].entries, tables[j].entries))
  }

  lemma CoverBoth(t: seq<File>, a: seq<Entry>, lo: nat, u: seq<File>, b: seq<Entry>, mid: nat, hi: nat)
    requires HoldExactly(t, a, lo, mid) && HoldExactly(u, b, mid, hi) && AllOlder(a, b) && lo <= mid <= hi
    ensures HoldExactly(t + u, a + b, lo, hi)
  {
    var all := t + u;
    forall e
      ensures Holds(all, e) <==> e in a + b
    {
      assert Holds(all, e) <==> Holds(t, e) || Holds(u, e) by {
        assert forall f :: f in all <==> f in t || f in u;
      }
    }
    forall i, j | 0 <= i < j < |all|
      ensures AllOlder(all[i].entries, all[j].entries)
    {
      if i < |t| <= j {
        forall x, y | x in all[i].entries && y in all[j].entries
          ensures x.key.sequence < y.key.sequence
        {
          assert Holds(t, x) && Holds(u, y);
        }
      }
    }
  }

  lemma CoverOne(file: File, es: seq<Entry>)
    requires Elements(file.entries) == Elements(es)
    ensures HoldExactly([file], es, file.number, file.number + 1)
  {
    forall e
      ensures Holds([file], e) <==> e in es
    {
      assert file in [file];
      assert e in file.entries <==> e in Elements(file.entries);
      assert e in es <==> e in Elements(es);
    }
  }

  lemma CoverNone(n: nat)
    ensures HoldExactly([], [], n, n)
  {
  }

  lemma CoverWider(t: seq<File>, es: seq<Entry>, lo: nat, hi: nat, hi': nat)
    requires HoldExactly(t, es, lo, hi) && hi <= hi'
    ensures HoldExactly(t, es, lo, hi')
  {
  }

  // `max` is the largest of `start` and the sequence numbers in `es`.
  ghost predicate IsMaxSequence(max: nat, start: nat, es: seq<Entry>) {
    && start <= max
    && (forall e | e in es :: e.key.sequence <= max)
    && (max == start || exists e :: e in es && e.key.sequence == max)
  }

  // Adds a replayed entry to a memtable holding log[from..i].
  lemma ReplayEntry(log: seq<Entry>, from: nat, i: nat, mem: seq<Entry>)
    requires Rising(log) && from <= i < |log|
    requires Sorted(mem) && Elements(mem) == Elements(log[from..i])
    ensures InsertEntry(mem, log[i]) != [] && Sorted(InsertEntry(mem, log[i])) && Elements(InsertEntry(mem, log[i])) == Elements(log[from..i+1])
  {
    forall x | x in mem
      ensures x.key != log[i].key
    {
      assert x in Elements(log[from..i]);
    }
    InsertIsSorted(mem, log[i]);
    assert log[from..i+1] == log[from..i] + [log[i]];
    InsertedElements(mem, log[i]);
  }

  lemma NothingLeft(es: seq<Entry>)
    ensures Elements(es) == {} ==> es == []
  {
    if es != [] {
      assert es[0] in Elements(es);
    }
  }

  lemma NothingReplayed(start: nat)
    ensures Sorted([]) && IsMaxSequence(start, start, [])
  {
  }

  lemma MaxOfOneMore(max: nat, start: nat, es: seq<Entry>, e: Entry)
    requires IsMaxSequence(max, start, es)
    ensures IsMaxSequence(if e.key.sequence > max then e.key.sequence else max, start, es + [e])
  {
    var all := es + [e];
    assert e in all && forall x | x in es :: x in all;
  }

  // Replays one log into a memtable that becomes a table whenever it has filled up, and at
  // the end of the log.
  method RecoverLogFile(log: seq<Entry>, nextFile: nat, maxSequence: SequenceNumber)
    returns (tables: seq<File>, next: nat, max: SequenceNumber)
    requires Rising(log)
    ensures next == nextFile + |tables| && HoldExactly(tables, log, nextFile, next)
    ensures IsMaxSequence(max, maxSequence, log)
  {
    hide Sorted, HoldExactly, InsertEntry, Less, IsMaxSequence, Rising;
    tables, next, max := [], nextFile, maxSequence;
    var mem: seq<Entry> := [];
    ghost var from := 0;
    CoverNone(nextFile);
    NothingReplayed(maxSequence);
    assert log[..0] == [] && log[0..0] == [];
    for i := 0 to |log|
      invariant from <= i && next == nextFile + |tables|
      invariant Sorted(mem) && Elements(mem) == Elements(log[from..i])
      invariant HoldExactly(tables, log[..from], nextFile, next)
      invariant IsMaxSequence(max, maxSequence, log[..i])
    {
      ReplayEntry(log, from, i, mem);
      MaxOfOneMore(max, maxSequence, log[..i], log[i]);
      mem := InsertEntry(mem, log[i]);
      assert log[..i+1] == log[..i] + [log[i]];
      if log[i].key.sequence > max {
        max := log[i].key.sequence;
      }
      var full: bool := *;
      if full {
        tables, next := WriteLevel0Table(tables, next, mem, log, from, i + 1, nextFile);
        mem, from := [], i + 1;
        assert log[i+1..i+1] == [];
      }
    }
    assert log[..|log|] == log;
    if mem != [] {
      tables, next := WriteLevel0Table(tables, next, mem, log, from, |log|, nextFile);
    } else {
      NothingLeft(log[from..|log|]);
      assert log[..from] == log;
    }
  }

  function NewTable(number: nat, size: nat, mem: seq<Entry>): File
    requires mem != [] && Sorted(mem)
  {
    FileMetaData(number, size, mem)
  }

  method WriteLevel0Table(tables: seq<File>, next: nat, mem: seq<Entry>, ghost log: seq<Entry>, ghost from: nat, ghost i: nat, ghost lo: nat)
    returns (tables': seq<File>, next': nat)
    requires Rising(log) && from <= i <= |log| && lo <= next
    requires mem != [] && Sorted(mem) && Elements(mem) == Elements(log[from..i])
    requires HoldExactly(tables, log[..from], lo, next)
    ensures HoldExactly(tables', log[..i], lo, next') && next' == next + 1 && |tables'| == |tables| + 1
  {
    var size: nat := *;
    var file: File := NewTable(next, size, mem);
    hide HoldExactly;
    tables', next' := tables + [file], next + 1;
    CoverOne(file, log[from..i]);
    CoverBoth(tables, log[..from], lo, [file], log[from..i], next, next + 1);
    assert log[..from] + log[from..i] == log[..i];
  }

  // ---- All logs

  ghost predicate Ascending(ns: seq<nat>) {
    forall i, j | 0 <= i < j < |ns| :: ns[i] < ns[j]
  }

  method InsertNumber(sorted: seq<nat>, n: nat) returns (r: seq<nat>)
    requires Ascending(sorted) && n !in sorted
    ensures Ascending(r) && forall m :: m in r <==> m == n || m in sorted
  {
    var i := 0;
    while i < |sorted| && sorted[i] < n
      invariant 0 <= i <= |sorted| && forall k | 0 <= k < i :: sorted[k] < n
    {
      i := i + 1;
    }
    r := sorted[..i] + [n] + sorted[i..];
    InsertedAscending(sorted, i, n);
  }

  lemma InsertedAscending(sorted: seq<nat>, i: nat, n: nat)
    requires Ascending(sorted) && i <= |sorted| && n !in sorted
    requires forall k | 0 <= k < i :: sorted[k] < n
    requires i < |sorted| ==> n <= sorted[i]
    ensures Ascending(sorted[..i] + [n] + sorted[i..])
    ensures forall m :: m in sorted[..i] + [n] + sorted[i..] <==> m == n || m in sorted
  {
    var a, b := sorted[..i], sorted[i..];
    assert sorted == a + b;
    forall k | 0 <= k < |b|
      ensures n < b[k]
    {
      assert b[k] == sorted[i+k] && sorted[i+k] in sorted;
    }
  }

  method SortNumbers(numbers: set<nat>) returns (sorted: seq<nat>)
    ensures Ascending(sorted) && forall n :: n in sorted <==> n in numbers
  {
    sorted := [];
    var rest := numbers;
    while rest != {}
      invariant rest <= numbers && Ascending(sorted)
      invariant forall n :: n in sorted <==> n in numbers && n !in rest
    {
      var n :| n in rest;
      rest := rest - {n};
      sorted := InsertNumber(sorted, n);
    }
  }

  ghost function Joined(logs: map<nat, seq<Entry>>, numbers: seq<nat>): seq<Entry>
    requires forall n | n in numbers :: n in logs
  {
    if numbers == [] then [] else Joined(logs, numbers[..|numbers|-1]) + logs[numbers[|numbers|-1]]
  }

  lemma {:induction false} JoinedMembers(logs: map<nat, seq<Entry>>, numbers: seq<nat>, e: Entry)
    requires forall n | n in numbers :: n in logs
    ensures e in Joined(logs, numbers) <==> exists n :: n in numbers && e in logs[n]
  {
    if numbers != [] {
      var init, last := numbers[..|numbers|-1], numbers[|numbers|-1];
      assert numbers == init + [last];
      JoinedMembers(logs, init, e);
    }
  }

  lemma JoinedIsOlder(logs: map<nat, seq<Entry>>, first: nat, numbers: seq<nat>, i: nat)
    requires LogsInOrder(logs, first) && Ascending(numbers) && i < |numbers|
    requires forall n | n in numbers :: n in logs && first <= n
    ensures AllOlder(Joined(logs, numbers[..i]), logs[numbers[i]]) && Rising(logs[numbers[i]])
  {
    assert numbers[i] in numbers;
    forall x, y | x in Joined(logs, numbers[..i]) && y in logs[numbers[i]]
      ensures x.key.sequence < y.key.sequence
    {
      JoinedMembers(logs, numbers[..i], x);
      var n :| n in numbers[..i] && x in logs[n];
      var k :| 0 <= k < i && numbers[k] == n;
      assert AllOlder(logs[n], logs[numbers[i]]);
    }
  }

  lemma MaxOfBoth(max: nat, mid: nat, start: nat, a: seq<Entry>, b: seq<Entry>)
    requires IsMaxSequence(mid, start, a) && IsMaxSequence(max, mid, b)
    ensures IsMaxSequence(max, start, a + b)
  {
    if max != mid {
      var e :| e in b && e.key.sequence == max;
      assert e in a + b;
    } else if mid != start {
      var e :| e in a && e.key.sequence == mid;
      assert e in a + b;
    }
  }

  // The least number to go on from.
  function MarkFileNumberUsed(next: nat, number: nat): (r: nat)
    ensures next <= r && number < r && (r == next || r == number + 1)
  {
    if next <= number then number + 1 else next
  }

  // Replays every log that the manifest does not rule out, oldest first.
  method RecoverLogFiles(logs: map<nat, seq<Entry>>, first: nat, numbers: seq<nat>, nextFile: nat, ghost lo: nat)
    returns (tables: seq<File>, next: nat, max: SequenceNumber)
    requires LogsInOrder(logs, first) && Ascending(numbers) && lo <= nextFile
    requires forall n | n in numbers :: n in logs && first <= n
    ensures nextFile <= next && HoldExactly(tables, Joined(logs, numbers), lo, next)
    ensures forall n | n in numbers :: n < next
    ensures IsMaxSequence(max, 0, Joined(logs, numbers))
  {
    tables, next, max := [], nextFile, 0;
    CoverNone(lo);
    CoverWider([], [], lo, lo, nextFile);
    for i := 0 to |numbers|
      invariant nextFile <= next && forall k | 0 <= k < i :: numbers[k] < next
      invariant HoldExactly(tables, Joined(logs, numbers[..i]), lo, next)
      invariant IsMaxSequence(max, 0, Joined(logs, numbers[..i]))
    {
      var n := numbers[i];
      assert numbers[..i+1][..i] == numbers[..i];
      JoinedIsOlder(logs, first, numbers, i);
      hide HoldExactly, Rising, AllOlder, IsMaxSequence, LogsInOrder, Ascending;
      ghost var before, all := Joined(logs, numbers[..i]), Joined(logs, numbers[..i+1]);
      assert all == before + logs[n];
      hide Joined;
      var more, next', max' := RecoverLogFile(logs[n], next, max);
      CoverBoth(tables, before, lo, more, logs[n], next, next');
      MaxOfBoth(max', max, 0, before, logs[n]);
      tables, next, max := tables + more, MarkFileNumberUsed(next', n), max';
      CoverWider(tables, all, lo, next', next);
    }
    assert numbers[..|numbers|] == numbers;
  }

  // The replayed tables have numbers of their own.
  lemma NothingEquivalent(d: Disk, tables: seq<File>, builder: Builder)
    requires builder.Valid() && builder.base == d.version && NumbersBelow(d.version, d.nextFile)
    requires forall i | 0 <= i < |tables| :: d.nextFile <= tables[i].number
    requires builder.State() == ApplyTo(NothingPending(), RecoverEdit(tables))
    ensures forall l, f, g | 0 <= l < NUM_LEVELS && f in builder.base[l] && g in builder.addedFiles[l] :: !Equivalent(f, g)
  {
    forall l, f, g | 0 <= l < NUM_LEVELS && f in builder.base[l] && g in builder.addedFiles[l]
      ensures !Equivalent(f, g)
    {
      assert g in Members(builder.addedFiles[l]) && builder.State().added[l] == Members(builder.addedFiles[l]);
      InsertedAreAdded({}, RecoverEdit(tables).added, l);
      assert (l, g) in RecoverEdit(tables).added;
      assert g in tables;
    }
  }

  // Everything a recovery finds on disk: the version that the manifest leads to, and the logs
  // that are not in it yet.
  method Recover(d: Disk) returns (version: Version, tables: seq<File>, recovered: Version, last: SequenceNumber, newLog: nat)
    requires LogsInOrder(d.logs, d.logNumber) && d.logNumber < d.nextFile
    requires IsManifest(d.manifest, d.version) && Sound(d.version) && NumbersBelow(d.version, d.nextFile)
    ensures version == d.version
    ensures AreReplayed(d, tables) && IsRecoveredSequence(d, last)
    ensures Saves(d.version, ApplyTo(NothingPending(), RecoverEdit(tables)), recovered)
    ensures d.nextFile <= newLog && d.logNumber < newLog
    ensures forall k | k in d.logs && d.logNumber <= k :: k < newLog
    ensures forall i | 0 <= i < |tables| :: tables[i].number < newLog
  {
    hide Sound, NumbersBelow, LogsInOrder, Ascending, IsMaxSequence, HoldExactly, IsManifest, Joined, AreReplayed, IsRecoveredSequence, Saves, ApplyTo;
    var numbers := SortNumbers(set k | k in d.logs && d.logNumber <= k);
    var max;
    tables, newLog, max := RecoverLogFiles(d.logs, d.logNumber, numbers, d.nextFile + 1, d.nextFile);
    last := if d.lastSequence < max then max else d.lastSequence;
    ReplayedAll(d, numbers, tables, newLog, max);
    version := ReplayManifest(d.manifest, d.version);
    SoundIsOrdered(version);
    var builder := new Builder(version);
    builder.Apply(RecoverEdit(tables));
    NothingEquivalent(d, tables, builder);
    recovered := builder.SaveTo();
  }

  lemma ReplayedAll(d: Disk, numbers: seq<nat>, tables: seq<File>, hi: nat, max: SequenceNumber)
    requires forall n :: n in numbers <==> n in d.logs && d.logNumber <= n
    requires HoldExactly(tables, Joined(d.logs, numbers), d.nextFile, hi) && IsMaxSequence(max, 0, Joined(d.logs, numbers))
    ensures AreReplayed(d, tables)
    ensures IsRecoveredSequence(d, if d.lastSequence < max then max else d.lastSequence)
    ensures forall i | 0 <= i < |tables| :: d.nextFile <= tables[i].number < hi
  {
    forall e
      ensures e in Joined(d.logs, numbers) <==> e in LogEntries(d)
    {
      JoinedMembers(d.logs, numbers, e);
    }
    hide LogEntries, Joined;
    forall i, j, x, y | 0 <= i < j < |tables| && x in tables[i].entries && y in tables[j].entries
      ensures x.key.sequence < y.key.sequence
    {
      assert AllOlder(tables[i].entries, tables[j].entries);
    }
  }

  lemma DownParts(w: World)
    requires WorldOk(w) && w.Down?
    ensures var d := w.disk;
            && LogsInOrder(d.logs, d.logNumber) && d.logNumber < d.nextFile && Sound(d.version) && NumbersBelow(d.version, d.nextFile)
            && IsManifest(d.manifest, d.version)
  {
    hide LogsInOrder, Sound, NumbersBelow, Lookup, IsDense, IsManifest;
  }

  // Opens a database after a crash: its logs are replayed, and a manifest of the recovered
  // version with a new log is installed. Every read of what was logged comes back.
  method Open(w: World) returns (w': World)
    requires WorldOk(w) && w.Down?
    ensures exists a: Action :: a.Recover? && Act(w, a, w')
    ensures w'.Up? && WorldOk(w') && w'.store.run.db.lastSequence == w.total
    ensures forall user :: Lookup(Live(w'.store.run.db), user, w'.store.run.db.lastSequence) == Lookup(w.logged, user, w'.store.run.db.lastSequence)
  {
    hide WorldOk, IsManifest, SnapshotEdit, LogsInOrder, Sound, NumbersBelow, AreReplayed, IsRecoveredSequence, ApplyTo, Saves, Lookup, Live;
    DownParts(w);
    var d := w.disk;
    var version, tables, recovered, last, newLog := Recover(d);
    var added := set f | f in tables :: f.number;
    var d' := Disk([SnapshotEdit(version), RecoverEdit(tables)], recovered, newLog, last, newLog + 1, d.tables + added, d.logs[newLog := []]);
    var db := State([], None, recovered, last, 0, [], None, {}, newLog + 1);
    w' := Up(Store(Run(db, w.logged, w.horizon), newLog, 0, newLog, [], None, {}, d', w.logged, w.acked, Opening()));
    assert Act(w, Action.Recover(tables, recovered, last, newLog), w');
    hide Act, RecoverAction;
    ActKeepsWorldOk(w, Action.Recover(tables, recovered, last, newLog), w');
    OpenedReads(w, tables, recovered, last, newLog, w');
  }

  lemma OpenedReads(w: World, tables: seq<File>, recovered: Version, last: SequenceNumber, newLog: nat, w': World)
    requires WorldOk(w) && WorldOk(w') && w.Down? && Act(w, Action.Recover(tables, recovered, last, newLog), w')
    ensures w'.Up? && w'.store.run.db.lastSequence == w.total
    ensures var db := w'.store.run.db;
            forall user :: Lookup(Live(db), user, db.lastSequence) == Lookup(w.logged, user, db.lastSequence)
  {
    assert RecoverAction(w, tables, recovered, last, newLog, w');
    hide Act, WorldOk, RecoverAction, Lookup, Live, Inv;
    RecoverIs(w, tables, recovered, last, newLog, w');
    RecoverFacts(w, tables, recovered, last, newLog, w');
    var r := w'.store.run;
    assert Inv(r) by { UpIsInv(w'); }
    InvParts(r);
  }

  lemma UpIsInv(w: World)
    requires WorldOk(w) && w.Up?
    ensures Inv(w.store.run)
  {
    hide Inv, DiskOk, LogsOk, InstallOk, TablesOk, PendingOk;
  }

  // ---- Garbage collection

  // A table of the current version, of one that a reader holds or that a merge reads, or one that
  // is being written.
  ghost predicate IsInUse(s: Store, number: nat) {
    || (exists i, f :: 0 <= i < NUM_LEVELS && f in s.run.db.version[i] && f.number == number)
    || (exists v: Version, i, f :: v in s.pinned && 0 <= i < NUM_LEVELS && f in v[i] && f.number == number)
    || (s.run.db.running.Some? && exists i, f :: 0 <= i < NUM_LEVELS && f in s.run.db.running.value.base[i] && f.number == number)
    || number in s.run.db.pendingOutputs || number in s.bg.flushOutputs
  }

  lemma InUseIs(s: Store, number: nat)
    ensures IsInUse(s, number) <==> number in LiveFiles(s.run.db, s.pinned) + Protected(s)
  {
    if v: Version, i, f :| v in s.pinned && 0 <= i < NUM_LEVELS && f in v[i] && f.number == number {
      assert number in Numbers(v);
    }
  }

  // Removes every log older than the one the version set names, and every table that is in
  // no version in use and whose number is not protected. The thread that collects is alone.
  method DeleteObsoleteFiles(s: Store, task: nat) returns (s': Store)
    requires StoreOk(s) && IsIn(s.bg, task, {Collecting})
    ensures StoreOk(s') && s' == s.(disk := s.disk.(tables := s'.disk.tables, logs := s'.disk.logs))
    ensures forall n :: n in s'.disk.tables <==> n in s.disk.tables && IsInUse(s, n)
    ensures s'.disk.logs == map k | k in s.disk.logs && s.logNumber <= k :: s.disk.logs[k]
  {
    hide StoreOk, LiveFiles, IsInUse;
    var live := Protected(s) + LiveFiles(s.run.db, s.pinned);
    s' := s;
    var children := s.disk.tables;
    while children != {}
      invariant StoreOk(s') && children <= s.disk.tables
      invariant s' == s.(disk := s.disk.(tables := s'.disk.tables))
      invariant s'.disk.tables == children + s.disk.tables * live
    {
      var number :| number in children;
      children := children - {number};
      if number !in live {
        ghost var before := s';
        s' := s'.(disk := s'.disk.(tables := s'.disk.tables - {number}));
        DeleteTableKeeps(before, task, number, s');
      }
    }
    var logs := s.disk.logs.Keys;
    while logs != {}
      invariant StoreOk(s') && logs <= s.disk.logs.Keys
      invariant s' == s.(disk := s.disk.(tables := s'.disk.tables, logs := s'.disk.logs))
      invariant s'.disk.tables == s.disk.tables * live
      invariant s'.disk.logs == map k | k in s.disk.logs && (k in logs || s.logNumber <= k) :: s.disk.logs[k]
    {
      var number :| number in logs;
      logs := logs - {number};
      if number < s.logNumber {
        ghost var before := s';
        s' := s'.(disk := s'.disk.(logs := map k | k in s'.disk.logs && k != number :: s'.disk.logs[k]));
        DeleteLogKeeps(before, task, number, s');
      }
    }
    forall n
      ensures n in live <==> IsInUse(s, n)
    {
      InUseIs(s, n);
    }
  }
}
