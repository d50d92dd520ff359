// A message as records, each behind its tag, in any order and with more that the schema does not
// know.

module PbRecords {
  import opened Bytes
  import opened Coding
  import opened PbFormat

  // A value of a field, numbers of it packed together, a submessage by its own records, or
  // something that the schema has no field for.
  datatype Record =
    | Single(i: nat, v: Value)
    | Packed(i: nat, vs: seq<Value>)
    | Nested(i: nat, rs: seq<Record>)
    | Unknown(tag: nat, wireType: nat, body: seq<Byte>)

  // What is passed over knowing only the wire type: a number, eight bytes, a length and as much
  // after it, or four bytes.
  ghost predicate IsSkipped(wireType: nat, body: seq<Byte>) {
    || (wireType == 0 && EndsVarint(body))
    || (wireType == 1 && |body| == 8)
    || (wireType == 2 && exists s :: |s| < LIMIT32 && body == Prefixed(s))
    || (wireType == 5 && |body| == 4)
  }

  ghost predicate IsOfSchema(fields: seq<Field>, r: Record)
    decreases r
  {
    match r
    case Unknown(tag, wireType, body) =>
      0 < tag <= MAX_TAG && (forall j | 0 <= j < |fields| :: fields[j].tag != tag) && IsSkipped(wireType, body)
    case Nested(i, rs) => i < |fields| && fields[i].kind.Submessage? && InSchema(fields[i].kind.fields, rs)
    case _ => r.i < |fields|
  }

  ghost predicate InSchema(fields: seq<Field>, rs: seq<Record>)
    decreases rs
  {
    forall m | 0 <= m < |rs| :: IsOfSchema(fields, rs[m])
  }

  ghost function RecordTag(fields: seq<Field>, r: Record): nat
    requires IsOfSchema(fields, r)
  {
    if r.Unknown? then r.tag else fields[r.i].tag
  }

  ghost function RecordWire(fields: seq<Field>, r: Record): (w: nat)
    requires IsOfSchema(fields, r)
    ensures w < 8
  {
    if r.Unknown? then r.wireType else if r.Single? then WireType(fields[r.i].kind) else 2
  }

  // What follows the tag.
  ghost function RecordBody(fields: seq<Field>, r: Record): seq<Byte>
    requires IsOfSchema(fields, r)
    decreases r, 0
  {
    match r
    case Single(i, v) => ValueBytes(fields[i].kind, v)
    case Packed(i, vs) => Prefixed(NumbersBytes(fields[i].kind, vs))
    case Nested(i, rs) => Prefixed(RecordsBytes(fields[i].kind.fields, rs))
    case Unknown(_, _, body) => body
  }

  ghost function RecordBytes(fields: seq<Field>, r: Record): seq<Byte>
    requires IsOfSchema(fields, r)
    decreases r, 1
  {
    TagBytes(RecordTag(fields, r), RecordWire(fields, r)) + RecordBody(fields, r)
  }

  ghost function RecordsBytes(fields: seq<Field>, rs: seq<Record>): seq<Byte>
    requires InSchema(fields, rs)
    decreases rs, 2
  {
    if rs == [] then [] else RecordBytes(fields, rs[0]) + RecordsBytes(fields, rs[1..])
  }

  lemma {:induction false} BytesOfBoth(fields: seq<Field>, a: seq<Record>, b: seq<Record>)
    requires InSchema(fields, a) && InSchema(fields, b)
    ensures RecordsBytes(fields, a + b) == RecordsBytes(fields, a) + RecordsBytes(fields, b)
  {
    hide RecordBytes;
    if a == [] {
      assert a + b == b;
    } else {
      assert (a + b)[1..] == a[1..] + b;
      BytesOfBoth(fields, a[1..], b);
    }
  }

  ghost function Singles(i: nat, vs: seq<Value>): (rs: seq<Record>)
    ensures |rs| == |vs| && forall m | 0 <= m < |rs| :: rs[m] == Single(i, vs[m])
  {
    seq(|vs|, m requires 0 <= m < |vs| => Single(i, vs[m]))
  }

  ghost function SlotRecords(f: Field, i: nat, s: Slot): (rs: seq<Record>)
    ensures forall m | 0 <= m < |rs| :: (rs[m].Single? || rs[m].Packed?) && rs[m].i == i
  {
    if !IsPresent(f, s) then []
    else if s.Many? then
      if Packable(f.kind) then [Packed(i, s.vs)] else Singles(i, s.vs)
    else [Single(i, s.v)]
  }

  ghost function MessageRecords(fields: seq<Field>, slots: seq<Slot>, n: nat): (rs: seq<Record>)
    requires n <= |slots| == |fields|
    ensures forall m | 0 <= m < |rs| :: (rs[m].Single? || rs[m].Packed?) && rs[m].i < n
  {
    if n == 0 then [] else MessageRecords(fields, slots, n - 1) + SlotRecords(fields[n-1], n - 1, slots[n-1])
  }

  lemma {:induction false} ItemsAreRecords(fields: seq<Field>, i: nat, s: Slot, n: nat)
    requires i < |fields| && s.Many? && n <= |s.vs|
    ensures ItemsBytes(fields[i], s, n) == RecordsBytes(fields, Singles(i, s.vs[..n]))
  {
    hide ValueBytes, TagBytes;
    if n > 0 {
      ItemsAreRecords(fields, i, s, n - 1);
      assert Singles(i, s.vs[..n]) == Singles(i, s.vs[..n-1]) + [Single(i, s.vs[n-1])];
      BytesOfBoth(fields, Singles(i, s.vs[..n-1]), [Single(i, s.vs[n-1])]);
      OneRecord(fields, Single(i, s.vs[n-1]));
    }
  }

  lemma OneRecord(fields: seq<Field>, r: Record)
    requires IsOfSchema(fields, r)
    ensures RecordsBytes(fields, [r]) == RecordBytes(fields, r)
  {
    hide RecordBytes;
    assert [r][1..] == [];
  }

  lemma SlotIsRecords(fields: seq<Field>, i: nat, s: Slot)
    requires i < |fields|
    ensures SlotBytes(fields[i], s) == RecordsBytes(fields, SlotRecords(fields[i], i, s))
  {
    hide ValueBytes, TagBytes, IsPresent, NumbersBytes, Packable, WireType;
    var f := fields[i];
    if IsPresent(f, s) {
      if s.Many? {
        if Packable(f.kind) {
          OneRecord(fields, Packed(i, s.vs));
        } else {
          ItemsAreRecords(fields, i, s, |s.vs|);
          assert s.vs[..|s.vs|] == s.vs;
        }
      } else {
        OneRecord(fields, Single(i, s.v));
      }
    }
  }

  lemma NoRecords(fields: seq<Field>)
    ensures RecordsBytes(fields, []) == []
  {
  }

  lemma {:induction false} MessageIsRecords(fields: seq<Field>, v: Value, n: nat)
    requires v.Message? && n <= |v.slots| == |fields|
    ensures MessageBytes(fields, v, n) == RecordsBytes(fields, MessageRecords(fields, v.slots, n))
  {
    hide SlotBytes, SlotRecords, RecordsBytes;
    NoRecords(fields);
    if n > 0 {
      MessageIsRecords(fields, v, n - 1);
      SlotIsRecords(fields, n - 1, v.slots[n-1]);
      BytesOfBoth(fields, MessageRecords(fields, v.slots, n - 1), SlotRecords(fields[n-1], n - 1, v.slots[n-1]));
    }
  }

  // ---- What records make of a message

  // The slots so far, and which field that is not counted was read last, or -1.
  datatype State = State(slots: seq<Slot>, fixed: int)

  function ValuesIn(s: Slot): seq<Value> {
    if s.Many? then s.vs else []
  }

  // The last field that is not counted has all its values.
  predicate FixedDone(fields: seq<Field>, st: State) {
    0 <= st.fixed < |fields| && st.fixed < |st.slots| && fields[st.fixed].rule.Repeated? ==>
      |ValuesIn(st.slots[st.fixed])| == fields[st.fixed].rule.max
  }

  // A field that is not counted begins anew when another one was read in between.
  function Begun(fields: seq<Field>, st: State, i: nat): State
    requires i < |fields| == |st.slots|
  {
    if fields[i].rule.Repeated? && !fields[i].rule.counted && st.fixed != i then State(st.slots[i := Many([])], i) else st
  }

  function Chosen(fields: seq<Field>, slots: seq<Slot>, i: nat, v: Value): seq<Slot>
    requires i < |fields| == |slots|
  {
    seq(|slots|, j requires 0 <= j < |slots| =>
      if j == i then Choice(true, v) else if SameGroup(fields[i], fields[j]) then ZeroSlot(fields[j]) else slots[j])
  }

  function Filled(fields: seq<Field>, slots: seq<Slot>, i: nat, v: Value): seq<Slot>
    requires i < |fields| == |slots|
  {
    match fields[i].rule
    case Required => slots[i := One(v)]
    case Optional(hasFlag) => slots[i := if hasFlag then Maybe(true, v) else One(v)]
    case Repeated(_, _) => slots[i := Many(ValuesIn(slots[i]) + [v])]
    case Oneof(_) => Chosen(fields, slots, i, v)
  }

  // What to begin with where a message is read into.
  function StartOf(k: Kind, v: Value): Value {
    if k.Submessage? && !(v.Message? && |v.slots| == |k.fields|) then Zero(k) else v
  }

  function ValueIn(s: Slot): Value {
    if s.Many? then Blob([]) else s.v
  }

  // An item of a repeated field and a choice are read into defaults, other values into what is there.
  function StartIn(f: Field, s: Slot): Value {
    if f.rule.Repeated? || f.rule.Oneof? then Zero(f.kind) else ValueIn(s)
  }

  ghost function FilledBy(fields: seq<Field>, slots: seq<Slot>, r: Record): (slots': seq<Slot>)
    requires IsOfSchema(fields, r) && !r.Unknown? && |slots| == |fields|
    ensures |slots'| == |slots|
    decreases r, 0
  {
    match r
    case Single(i, v) => Filled(fields, slots, i, v)
    case Packed(i, vs) => slots[i := Many(ValuesIn(slots[i]) + vs)]
    case Nested(i, rs) => Filled(fields, slots, i, Made(fields[i].kind, StartIn(fields[i], slots[i]), rs))
  }

  // What is unknown leaves no trace.
  ghost function Take(fields: seq<Field>, st: State, r: Record): (st': State)
    requires IsOfSchema(fields, r) && |st.slots| == |fields|
    ensures |st'.slots| == |st.slots|
    decreases r, 1
  {
    if r.Unknown? then st
    else
      var st1 := Begun(fields, st, r.i);
      st1.(slots := FilledBy(fields, st1.slots, r))
  }

  ghost function TakeAll(fields: seq<Field>, st: State, rs: seq<Record>): (st': State)
    requires InSchema(fields, rs) && |st.slots| == |fields|
    ensures |st'.slots| == |st.slots|
    decreases rs, 2
  {
    if rs == [] then st else TakeAll(fields, Take(fields, st, rs[0]), rs[1..])
  }

  function StateOf(k: Kind, start: Value): (st: State)
    requires k.Submessage?
    ensures |st.slots| == |k.fields|
  {
    State(StartOf(k, start).slots, -1)
  }

  // The submessage that these records make of what is there.
  ghost function Made(k: Kind, start: Value, rs: seq<Record>): Value
    requires k.Submessage? && InSchema(k.fields, rs)
    decreases rs, 3
  {
    Message(TakeAll(k.fields, StateOf(k, start), rs).slots)
  }

  // ---- When they are taken

  const MAX_REQUIRED: nat := 64

  // How many of the first `n` fields are required.
  function RequiredBefore(fields: seq<Field>, n: nat): nat
    requires n <= |fields|
  {
    if n == 0 then 0 else RequiredBefore(fields, n - 1) + if fields[n-1].rule.Required? then 1 else 0
  }

  // Of the required fields, as many as are tracked were seen or have a record left.
  ghost predicate RequiredCovered(fields: seq<Field>, seen: set<nat>, left: seq<Record>) {
    forall i: nat | i < |fields| && fields[i].rule.Required? && RequiredBefore(fields, i) < MAX_REQUIRED ::
      RequiredBefore(fields, i) in seen || HasRecord(left, i)
  }

  ghost predicate HasRecord(rs: seq<Record>, i: nat) {
    exists m :: 0 <= m < |rs| && !rs[m].Unknown? && rs[m].i == i
  }

  // Nothing is missing at the end.
  ghost predicate IsComplete(fields: seq<Field>, st: State, rs: seq<Record>) {
    FixedDone(fields, st) && RequiredCovered(fields, {}, rs)
  }

  // There is room for the record, and it is of the kind of its field.
  ghost predicate CanFill(fields: seq<Field>, slots: seq<Slot>, r: Record)
    requires IsOfSchema(fields, r) && !r.Unknown? && |slots| == |fields|
    decreases r, 0
  {
    var f := fields[r.i];
    && (f.rule.Repeated? ==> |ValuesIn(slots[r.i])| + (if r.Packed? then |r.vs| else 1) <= f.rule.max)
    && match r
       case Single(_, v) => Fits(f.kind, v) && (f.kind.Submessage? ==> StartIn(f, slots[r.i]) == Zero(f.kind))
       case Packed(_, vs) => f.rule.Repeated? && Packable(f.kind) && forall m | 0 <= m < |vs| :: Fits(f.kind, vs[m])
       case Nested(_, rs) => CanMake(f.kind, StartIn(f, slots[r.i]), rs)
  }

  // The decoder takes the record as it is meant.
  ghost predicate CanTake(fields: seq<Field>, st: State, r: Record)
    requires IsOfSchema(fields, r) && |st.slots| == |fields|
    decreases r, 1
  {
    r.Unknown?
    || (&& (fields[r.i].rule.Repeated? && !fields[r.i].rule.counted && st.fixed != r.i ==> FixedDone(fields, st))
        && CanFill(fields, Begun(fields, st, r.i).slots, r))
  }

  ghost predicate CanTakeAll(fields: seq<Field>, st: State, rs: seq<Record>)
    requires InSchema(fields, rs) && |st.slots| == |fields|
    decreases rs, 2
  {
    rs != [] ==> CanTake(fields, st, rs[0]) && CanTakeAll(fields, Take(fields, st, rs[0]), rs[1..])
  }

  ghost predicate CanMake(k: Kind, start: Value, rs: seq<Record>)
    requires k.Submessage? && InSchema(k.fields, rs)
    decreases rs, 3
  {
    var st := StateOf(k, start);
    CanTakeAll(k.fields, st, rs) && IsComplete(k.fields, TakeAll(k.fields, st, rs), rs)
  }

  lemma {:induction false} TakesLast(fields: seq<Field>, st: State, init: seq<Record>, last: Record)
    requires InSchema(fields, init + [last]) && |st.slots| == |fields|
    ensures InSchema(fields, init) && IsOfSchema(fields, last)
    ensures TakeAll(fields, st, init + [last]) == Take(fields, TakeAll(fields, st, init), last)
    decreases |init|
  {
    hide Take, IsOfSchema;
    assert forall m | 0 <= m < |init| :: (init + [last])[m] == init[m];
    assert (init + [last])[|init|] == last;
    if init == [] {
      assert ([] + [last])[1..] == [];
    } else {
      assert (init + [last])[1..] == init[1..] + [last];
      TakesLast(fields, Take(fields, st, init[0]), init[1..], last);
    }
  }

  // A field that is not counted and read last must have all its values.
  lemma TooFewIsRefused(k: Kind, start: Value, rs: seq<Record>)
    requires k.Submessage? && InSchema(k.fields, rs) && rs != []
    requires !rs[|rs|-1].Unknown? ==> rs[|rs|-1].i < |k.fields|
    ensures var r, made := rs[|rs|-1], Made(k, start, rs);
            !r.Unknown? && k.fields[r.i].rule.Repeated? && !k.fields[r.i].rule.counted
            && |made.slots| == |k.fields| && |ValuesIn(made.slots[r.i])| != k.fields[r.i].rule.max ==>
              !CanMake(k, start, rs)
  {
    hide FilledBy, CanTakeAll, IsOfSchema;
    assert rs == rs[..|rs|-1] + [rs[|rs|-1]];
    TakesLast(k.fields, StateOf(k, start), rs[..|rs|-1], rs[|rs|-1]);
  }

  lemma {:induction false} TakeBoth(fields: seq<Field>, st: State, a: seq<Record>, b: seq<Record>)
    requires InSchema(fields, a) && InSchema(fields, b) && |st.slots| == |fields|
    requires CanTakeAll(fields, st, a) && CanTakeAll(fields, TakeAll(fields, st, a), b)
    ensures CanTakeAll(fields, st, a + b) && TakeAll(fields, st, a + b) == TakeAll(fields, TakeAll(fields, st, a), b)
    decreases |a|
  {
    hide Take;
    if a == [] {
      assert a + b == b;
    } else {
      assert (a + b)[1..] == a[1..] + b;
      TakeBoth(fields, Take(fields, st, a[0]), a[1..], b);
    }
  }

  lemma TakeOne(fields: seq<Field>, st: State, r: Record)
    requires IsOfSchema(fields, r) && |st.slots| == |fields| && CanTake(fields, st, r)
    ensures CanTakeAll(fields, st, [r]) && TakeAll(fields, st, [r]) == Take(fields, st, r)
  {
    hide CanTake, Take;
    assert [r][1..] == [];
  }

  // The first `n` fields of the message, and defaults for the others.
  function Mixed(fields: seq<Field>, slots: seq<Slot>, n: nat): (r: seq<Slot>)
    requires n <= |slots| == |fields|
    ensures |r| == |slots| && forall j | 0 <= j < |r| :: r[j] == if j < n then slots[j] else ZeroSlot(fields[j])
  {
    seq(|slots|, j requires 0 <= j < |slots| => if j < n then slots[j] else ZeroSlot(fields[j]))
  }

  // Reading the first `m` values of a repeated field one by one.
  lemma TakesNothing(fields: seq<Field>, st: State)
    requires |st.slots| == |fields|
    ensures CanTakeAll(fields, st, []) && TakeAll(fields, st, []) == st
  {
  }

  // One more item of a repeated field.
  lemma ItemIsTaken(fields: seq<Field>, slots: seq<Slot>, i: nat, fixed: int, had: seq<Value>, item: Value)
    requires i < |fields| == |slots| && fields[i].rule.Repeated? && slots[i] == Many(had)
    requires |had| < fields[i].rule.max && Fits(fields[i].kind, item)
    requires if fields[i].rule.counted then fixed < i
             else if had == [] then fixed < i && FixedDone(fields, State(slots, fixed)) else fixed == i
    ensures var st, r := State(slots, fixed), Single(i, item);
            && CanTake(fields, st, r)
            && Take(fields, st, r) == State(slots[i := Many(had + [item])], if fields[i].rule.counted then fixed else i)
  {
    hide Fits;
    assert slots[i := Many([])][i := Many([item])] == slots[i := Many([item])];
    assert had == [] ==> had + [item] == [item];
  }

  lemma {:induction false} ItemsAreTaken(k: Kind, v: Value, n: nat, fixed: int, m: nat)
    requires Fits(k, v) && v.Message? && n < |v.slots| && fixed < n && FixedDone(k.fields, State(Mixed(k.fields, v.slots, n), fixed))
    requires k.fields[n].rule.Repeated? && v.slots[n].Many? && m <= |v.slots[n].vs|
    ensures var st, rs, vs := State(Mixed(k.fields, v.slots, n), fixed), Singles(n, v.slots[n].vs[..m]), v.slots[n].vs[..m];
            && CanTakeAll(k.fields, st, rs)
            && TakeAll(k.fields, st, rs) == State(st.slots[n := Many(vs)], if k.fields[n].rule.counted || m == 0 then fixed else n)
  {
    hide Fits, SlotFits, CanTake, Take, CanTakeAll, TakeAll, FixedDone;
    SlotFitsAt(k, v, n);
    var fields, f, vs := k.fields, k.fields[n], v.slots[n].vs;
    var st := State(Mixed(fields, v.slots, n), fixed);
    if m == 0 {
      assert st.slots[n] == Many([]) && st.slots[n := Many([])] == st.slots;
      assert Singles(n, vs[..0]) == [];
      TakesNothing(fields, st);
    } else {
      var item, had := vs[m-1], vs[..m-1];
      ItemsAreTaken(k, v, n, fixed, m - 1);
      var st1 := TakeAll(fields, st, Singles(n, had));
      assert Fits(f.kind, item) && m <= f.rule.max by { ItemFits(f, v.slots[n], m - 1); }
      assert m == 1 ==> st1 == st && had == [];
      assert had + [item] == vs[..m];
      ItemIsTaken(fields, st1.slots, n, st1.fixed, had, item);
      TakeOne(fields, st1, Single(n, item));
      TakeBoth(fields, st, Singles(n, had), [Single(n, item)]);
      assert Singles(n, vs[..m]) == Singles(n, had) + [Single(n, item)];
    }
  }

  lemma ItemFits(f: Field, s: Slot, i: nat)
    requires SlotFits(f, s) && f.rule.Repeated? && s.Many? && i < |s.vs|
    ensures Fits(f.kind, s.vs[i]) && |s.vs| <= f.rule.max
  {
  }

  lemma PackedIsTaken(k: Kind, v: Value, n: nat, fixed: int)
    requires Fits(k, v) && v.Message? && n < |v.slots| && fixed < n && FixedDone(k.fields, State(Mixed(k.fields, v.slots, n), fixed))
    requires k.fields[n].rule.Repeated? && v.slots[n].Many? && Packable(k.fields[n].kind)
    ensures var st, r := State(Mixed(k.fields, v.slots, n), fixed), Packed(n, v.slots[n].vs);
            && CanTake(k.fields, st, r)
            && Take(k.fields, st, r) == State(st.slots[n := v.slots[n]], if k.fields[n].rule.counted then fixed else n)
  {
    assert SlotFits(k.fields[n], v.slots[n]);
    assert [] + v.slots[n].vs == v.slots[n].vs;
  }

  lemma SingleIsTaken(k: Kind, v: Value, n: nat, fixed: int)
    requires Fits(k, v) && v.Message? && n < |v.slots| && !v.slots[n].Many? && IsPresent(k.fields[n], v.slots[n])
    ensures var st, r := State(Mixed(k.fields, v.slots, n), fixed), Single(n, v.slots[n].v);
            CanTake(k.fields, st, r) && Take(k.fields, st, r) == State(st.slots[n := v.slots[n]], fixed)
  {
    hide IsDefault;
    var fields := k.fields;
    var slots := Mixed(fields, v.slots, n);
    assert SlotFits(fields[n], v.slots[n]);
    if fields[n].rule.Oneof? {
      forall j | 0 <= j < |slots| && j != n && SameGroup(fields[n], fields[j])
        ensures slots[j] == ZeroSlot(fields[j])
      {
        assert SlotFits(fields[j], v.slots[j]);
        assert j < n ==> SameGroup(fields[j], fields[n]);
      }
      assert Chosen(fields, slots, n, v.slots[n].v) == slots[n := v.slots[n]];
    }
  }

  lemma NextMixed(fields: seq<Field>, slots: seq<Slot>, n: nat)
    requires n < |slots| == |fields|
    ensures Mixed(fields, slots, n + 1) == Mixed(fields, slots, n)[n := slots[n]]
  {
  }

  // Reading a field's records after those of the fields before it.
  lemma SlotIsTaken(k: Kind, v: Value, n: nat, fixed: int)
    requires Fits(k, v) && v.Message? && n < |v.slots| && fixed < n && FixedDone(k.fields, State(Mixed(k.fields, v.slots, n), fixed))
    ensures var st, rs := State(Mixed(k.fields, v.slots, n), fixed), SlotRecords(k.fields[n], n, v.slots[n]);
            && CanTakeAll(k.fields, st, rs)
            && var st' := TakeAll(k.fields, st, rs);
               st'.slots == Mixed(k.fields, v.slots, n + 1) && st'.fixed <= n && FixedDone(k.fields, st')
  {
    hide Take, CanTake, IsPresent, Packable, Fits, IsDefault;
    SlotFitsAt(k, v, n);
    var fields, f, s := k.fields, k.fields[n], v.slots[n];
    var st := State(Mixed(fields, v.slots, n), fixed);
    NextMixed(fields, v.slots, n);
    if !IsPresent(f, s) {
      AbsentIsZero(f, s);
      assert st.slots == Mixed(fields, v.slots, n + 1);
    } else if !s.Many? {
      SingleIsTaken(k, v, n, fixed);
      TakeOne(fields, st, Single(n, s.v));
    } else if Packable(f.kind) {
      PackedIsTaken(k, v, n, fixed);
      TakeOne(fields, st, Packed(n, s.vs));
    } else {
      ItemsAreTaken(k, v, n, fixed, |s.vs|);
      assert s.vs[..|s.vs|] == s.vs;
    }
  }

  lemma SlotFitsAt(k: Kind, v: Value, n: nat)
    requires Fits(k, v) && v.Message? && n < |v.slots|
    ensures k.Submessage? && |v.slots| == |k.fields| && SlotFits(k.fields[n], v.slots[n])
  {
  }

  // The records of a message, read into defaults, make the message.
  lemma {:induction false} MessageIsTaken(k: Kind, v: Value, n: nat)
    requires Fits(k, v) && v.Message? && n <= |v.slots|
    ensures var st, rs := State(Zero(k).slots, -1), MessageRecords(k.fields, v.slots, n);
            && CanTakeAll(k.fields, st, rs)
            && var st' := TakeAll(k.fields, st, rs);
               st'.slots == Mixed(k.fields, v.slots, n) && st'.fixed < n && FixedDone(k.fields, st')
  {
    hide SlotRecords, Take, CanTake, SlotFits, AtMostOne;
    var st := State(Zero(k).slots, -1);
    if n == 0 {
      assert Zero(k).slots == Mixed(k.fields, v.slots, 0);
    } else {
      MessageIsTaken(k, v, n - 1);
      var st1 := TakeAll(k.fields, st, MessageRecords(k.fields, v.slots, n - 1));
      SlotIsTaken(k, v, n - 1, st1.fixed);
      TakeBoth(k.fields, st, MessageRecords(k.fields, v.slots, n - 1), SlotRecords(k.fields[n-1], n - 1, v.slots[n-1]));
    }
  }

  lemma AbsentIsZero(f: Field, s: Slot)
    requires SlotFits(f, s) && !IsPresent(f, s)
    ensures s == ZeroSlot(f)
  {
    if s.One? {
      DefaultIsZero(f, s);
    }
  }

  // The records that make up a message.
  lemma WholeMessage(k: Kind, v: Value) returns (rs: seq<Record>)
    requires k.Submessage? && Fits(k, v)
    ensures v.Message? && |v.slots| == |k.fields| && rs == MessageRecords(k.fields, v.slots, |v.slots|)
    ensures InSchema(k.fields, rs) && RecordsBytes(k.fields, rs) == MessageOf(k, v)
    ensures CanMake(k, Zero(k), rs) && Made(k, Zero(k), rs) == v
  {
    hide MessageBytes, MessageRecords, RecordsBytes, CanTakeAll, TakeAll, FixedDone, SlotFits, AtMostOne;
    var n := |v.slots|;
    rs := MessageRecords(k.fields, v.slots, n);
    MessageIsTaken(k, v, n);
    MessageIsRecords(k.fields, v, n);
    assert Mixed(k.fields, v.slots, n) == v.slots;
    forall i: nat | i < |k.fields| && k.fields[i].rule.Required?
      ensures HasRecord(rs, i)
    {
      RequiredHasRecord(k, v, i, n);
    }
  }

  lemma {:induction false} RequiredHasRecord(k: Kind, v: Value, i: nat, n: nat)
    requires Fits(k, v) && v.Message? && i < n <= |v.slots| && k.fields[i].rule.Required?
    ensures HasRecord(MessageRecords(k.fields, v.slots, n), i)
  {
    var before := MessageRecords(k.fields, v.slots, n - 1);
    var rs := MessageRecords(k.fields, v.slots, n);
    if i < n - 1 {
      RequiredHasRecord(k, v, i, n - 1);
      var m :| 0 <= m < |before| && before[m].i == i;
      assert rs[m].i == i;
    } else {
      assert SlotFits(k.fields[i], v.slots[i]);
      assert rs[|before|].i == i;
    }
  }

  // ---- Unknown records, and the order of records

  function KnownOf(rs: seq<Record>): seq<Record> {
    if rs == [] then [] else (if rs[0].Unknown? then [] else [rs[0]]) + KnownOf(rs[1..])
  }

  // Records that the schema does not know change nothing, wherever they are.
  lemma {:induction false} UnknownLeavesNoTrace(fields: seq<Field>, st: State, rs: seq<Record>)
    requires InSchema(fields, rs) && |st.slots| == |fields|
    ensures InSchema(fields, KnownOf(rs))
    ensures CanTakeAll(fields, st, rs) <==> CanTakeAll(fields, st, KnownOf(rs))
    ensures TakeAll(fields, st, rs) == TakeAll(fields, st, KnownOf(rs))
    decreases |rs|
  {
    hide Take, CanTake;
    if rs != [] {
      var r := rs[0];
      if r.Unknown? {
        UnknownIsTaken(fields, st, r);
        UnknownLeavesNoTrace(fields, st, rs[1..]);
        assert KnownOf(rs) == KnownOf(rs[1..]);
      } else {
        UnknownLeavesNoTrace(fields, Take(fields, st, r), rs[1..]);
        assert KnownOf(rs)[0] == r && KnownOf(rs)[1..] == KnownOf(rs[1..]);
      }
    }
  }

  lemma UnknownIsTaken(fields: seq<Field>, st: State, r: Record)
    requires IsOfSchema(fields, r) && r.Unknown? && |st.slots| == |fields|
    ensures CanTake(fields, st, r) && Take(fields, st, r) == st
  {
  }

  lemma {:induction false} KnownHaveRecords(rs: seq<Record>, i: nat)
    ensures HasRecord(KnownOf(rs), i) <==> HasRecord(rs, i)
  {
    if rs != [] {
      var first := if rs[0].Unknown? then [] else [rs[0]];
      KnownHaveRecords(rs[1..], i);
      BothHaveRecords(first, KnownOf(rs[1..]), i);
      BothHaveRecords([rs[0]], rs[1..], i);
      assert rs == [rs[0]] + rs[1..];
    }
  }

  lemma BothHaveRecords(a: seq<Record>, b: seq<Record>, i: nat)
    ensures HasRecord(a + b, i) <==> HasRecord(a, i) || HasRecord(b, i)
  {
    if HasRecord(b, i) {
      var m :| 0 <= m < |b| && !b[m].Unknown? && b[m].i == i;
      assert (a + b)[|a|+m] == b[m];
    }
    if HasRecord(a, i) {
      var m :| 0 <= m < |a| && !a[m].Unknown? && a[m].i == i;
      assert (a + b)[m] == a[m];
    }
  }

  // So the message is made of the known ones alone.
  lemma MadeOfKnown(k: Kind, start: Value, rs: seq<Record>)
    requires k.Submessage? && InSchema(k.fields, rs)
    ensures InSchema(k.fields, KnownOf(rs)) && Made(k, start, rs) == Made(k, start, KnownOf(rs))
    ensures CanMake(k, start, rs) <==> CanMake(k, start, KnownOf(rs))
  {
    hide TakeAll, CanTakeAll, FixedDone, HasRecord, KnownOf, RequiredBefore;
    UnknownLeavesNoTrace(k.fields, StateOf(k, start), rs);
    forall i: nat
      ensures HasRecord(KnownOf(rs), i) <==> HasRecord(rs, i)
    {
      KnownHaveRecords(rs, i);
    }
  }

  // Two records next to each other may change places if they are of different fields, not of one
  // group, and the fields are counted.
  lemma NeighboursCommute(fields: seq<Field>, st: State, a: Record, b: Record)
    requires IsOfSchema(fields, a) && IsOfSchema(fields, b) && |st.slots| == |fields|
    requires !a.Unknown? && !b.Unknown? ==>
               && a.i != b.i && !SameGroup(fields[a.i], fields[b.i])
               && (fields[a.i].rule.Repeated? ==> fields[a.i].rule.counted)
               && (fields[b.i].rule.Repeated? ==> fields[b.i].rule.counted)
    ensures Take(fields, Take(fields, st, a), b) == Take(fields, Take(fields, st, b), a)
    ensures CanTake(fields, st, a) && CanTake(fields, Take(fields, st, a), b) <==>
              CanTake(fields, st, b) && CanTake(fields, Take(fields, st, b), a)
  {
    hide FilledBy, CanFill, FixedDone;
    if !a.Unknown? && !b.Unknown? {
      FillsCommute(fields, st.slots, a, b);
      FillsApart(fields, st.slots, a, b);
      FillsApart(fields, st.slots, b, a);
      RoomIsTheSame(fields, st.slots, FilledBy(fields, st.slots, a), b);
      RoomIsTheSame(fields, st.slots, FilledBy(fields, st.slots, b), a);
    }
  }

  // What filling a field makes of slot `j`, from that slot alone.
  ghost function SlotAfter(fields: seq<Field>, s: Slot, r: Record, j: nat): Slot
    requires IsOfSchema(fields, r) && !r.Unknown? && j < |fields|
  {
    var f := fields[r.i];
    if j != r.i then
      if !r.Packed? && SameGroup(f, fields[j]) then ZeroSlot(fields[j]) else s
    else if r.Packed? then Many(ValuesIn(s) + r.vs)
    else
      var v := if r.Single? then r.v else Made(f.kind, StartIn(f, s), r.rs);
      match f.rule
      case Required => One(v)
      case Optional(hasFlag) => if hasFlag then Maybe(true, v) else One(v)
      case Repeated(_, _) => Many(ValuesIn(s) + [v])
      case Oneof(_) => Choice(true, v)
  }

  lemma FilledAt(fields: seq<Field>, slots: seq<Slot>, r: Record, j: nat)
    requires IsOfSchema(fields, r) && !r.Unknown? && |slots| == |fields| && j < |fields|
    ensures FilledBy(fields, slots, r)[j] == SlotAfter(fields, slots[j], r, j)
  {
    hide Made;
  }

  lemma FillsCommute(fields: seq<Field>, slots: seq<Slot>, a: Record, b: Record)
    requires IsOfSchema(fields, a) && IsOfSchema(fields, b) && !a.Unknown? && !b.Unknown? && |slots| == |fields|
    requires a.i != b.i && !SameGroup(fields[a.i], fields[b.i])
    ensures FilledBy(fields, FilledBy(fields, slots, a), b) == FilledBy(fields, FilledBy(fields, slots, b), a)
  {
    hide FilledBy, Made;
    var ab, ba := FilledBy(fields, FilledBy(fields, slots, a), b), FilledBy(fields, FilledBy(fields, slots, b), a);
    forall j | 0 <= j < |fields|
      ensures ab[j] == ba[j]
    {
      FilledAt(fields, slots, a, j);
      FilledAt(fields, slots, b, j);
      FilledAt(fields, FilledBy(fields, slots, a), b, j);
      FilledAt(fields, FilledBy(fields, slots, b), a, j);
    }
    assert ab == ba;
  }

  // The slot of another field stays as it was.
  lemma FillsApart(fields: seq<Field>, slots: seq<Slot>, a: Record, b: Record)
    requires IsOfSchema(fields, a) && IsOfSchema(fields, b) && !a.Unknown? && !b.Unknown? && |slots| == |fields|
    requires a.i != b.i && !SameGroup(fields[a.i], fields[b.i])
    ensures FilledBy(fields, slots, a)[b.i] == slots[b.i]
  {
    hide Made;
  }

  lemma RoomIsTheSame(fields: seq<Field>, slots: seq<Slot>, slots': seq<Slot>, r: Record)
    requires IsOfSchema(fields, r) && !r.Unknown? && |slots| == |slots'| == |fields| && slots[r.i] == slots'[r.i]
    ensures CanFill(fields, slots, r) <==> CanFill(fields, slots', r)
  {
    hide CanMake, Fits;
  }
}
