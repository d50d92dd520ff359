// A batch of updates as bytes: built update by update, appended to another, and read again.

module WriteBatches {
  import opened Bytes
  import opened Coding

  const HEADER: nat := 12
  const MAX_COUNT: nat := 0x7fff_ffff

  datatype Update = Put(key: seq<Byte>, value: seq<Byte>) | Delete(key: seq<Byte>)

  predicate UpdateFits(u: Update) {
    |u.key| < LIMIT32 && (u.Put? ==> |u.value| < LIMIT32)
  }

  // Deletions are marked 0 and puts 1.
  function UpdateBytes(u: Update): (r: seq<Byte>)
    ensures |r| > 0
  {
    match u
    case Put(key, value) => [1] + (Prefixed(key) + Prefixed(value))
    case Delete(key) => [0] + Prefixed(key)
  }

  function AllBytes(us: seq<Update>): seq<Byte> {
    if us == [] then [] else UpdateBytes(us[0]) + AllBytes(us[1..])
  }

  // A put of "a" with "bc" and a deletion of "d", in bytes.
  lemma KnownUpdates()
    ensures AllBytes([Put([0x61], [0x62, 0x63]), Delete([0x64])]) == [1, 1, 0x61, 2, 0x62, 0x63, 0, 1, 0x64]
  {
    var put, del := Put([0x61], [0x62, 0x63]), Delete([0x64]);
    assert UpdateBytes(put) == [1, 1, 0x61, 2, 0x62, 0x63] && UpdateBytes(del) == [0, 1, 0x64];
    assert [put, del][1..] == [del] && [del][1..] == [];
  }

  // ---- Any bytes read as updates

  // An update stands at `p` and ends at `next`: its kind, its key and, of a put, its value.
  ghost predicate ReadsUpdate(rep: seq<Byte>, p: nat, u: Update, next: nat) {
    && p < |rep|
    && match u
       case Put(key, value) =>
         rep[p] == 1 && exists mid :: ReadsPrefixed(rep, p + 1, |rep|, key, mid) && ReadsPrefixed(rep, mid, |rep|, value, next)
       case Delete(key) =>
         rep[p] == 0 && ReadsPrefixed(rep, p + 1, |rep|, key, next)
  }

  // Updates stand one after another from `p` to `end`.
  ghost predicate ReadsUpdates(rep: seq<Byte>, p: nat, us: seq<Update>, end: nat) {
    if us == [] then end == p
    else
      var init, last := us[..|us|-1], us[|us|-1];
      exists mid :: ReadsUpdates(rep, p, init, mid) && ReadsUpdate(rep, mid, last, end)
  }

  lemma ReadsOneMore(rep: seq<Byte>, p: nat, us: seq<Update>, mid: nat, u: Update, end: nat)
    requires ReadsUpdates(rep, p, us, mid) && ReadsUpdate(rep, mid, u, end)
    ensures ReadsUpdates(rep, p, us + [u], end)
  {
    hide ReadsUpdate;
    assert (us + [u])[..|us|] == us;
  }

  // After a key that ends at `mid` there is no value, so there is no put.
  lemma NoValueFollows(rep: seq<Byte>, p: nat, key: seq<Byte>, mid: nat)
    requires p < |rep| && rep[p] == 1 && ReadsPrefixed(rep, p + 1, |rep|, key, mid)
    requires forall x, n :: !ReadsPrefixed(rep, mid, |rep|, x, n)
    ensures forall u, n :: !ReadsUpdate(rep, p, u, n)
  {
    var q := p + 1;
    forall x, m | ReadsPrefixed(rep, q, |rep|, x, m)
      ensures m == mid
    {
      PrefixedOnce(rep, q, |rep|, key, mid, x, m);
    }
    hide ReadsPrefixed;
  }

  lemma {:induction false} BytesOfBoth(a: seq<Update>, b: seq<Update>)
    ensures AllBytes(a + b) == AllBytes(a) + AllBytes(b)
  {
    hide UpdateBytes;
    if a == [] {
      assert a + b == b;
    } else {
      assert (a + b)[1..] == a[1..] + b;
      BytesOfBoth(a[1..], b);
    }
  }

  lemma OneMore(us: seq<Update>, u: Update)
    ensures AllBytes(us + [u]) == AllBytes(us) + UpdateBytes(u)
  {
    hide UpdateBytes;
    BytesOfBoth(us, [u]);
    assert [u][1..] == [];
    assert UpdateBytes(u) + [] == UpdateBytes(u);
  }

  // The bytes of a batch: sequence number, count, updates.
  ghost predicate IsBatchOf(rep: seq<Byte>, sequence: nat, us: seq<Update>) {
    && sequence < LIMIT64 && |us| <= MAX_COUNT && |rep| >= HEADER
    && rep[..8] == Fixed64(sequence) && rep[8..HEADER] == Fixed32(|us|) && rep[HEADER..] == AllBytes(us)
    && forall i | 0 <= i < |us| :: UpdateFits(us[i])
  }

  function CountOf(rep: seq<Byte>): nat
    requires |rep| >= HEADER
  {
    FixedValue(rep[8..HEADER])
  }

  function SequenceOf(rep: seq<Byte>): nat
    requires |rep| >= HEADER
  {
    Fixed64Value(rep[..8])
  }

  lemma HeaderOf(rep: seq<Byte>, sequence: nat, us: seq<Update>)
    requires IsBatchOf(rep, sequence, us)
    ensures CountOf(rep) == |us| && SequenceOf(rep) == sequence
  {
    hide Fixed32, FixedValue, AllBytes;
    FixedRoundTrip(|us|);
    Fixed64RoundTrip(sequence);
  }

  lemma BatchIsLong(rep: seq<Byte>, sequence: nat, us: seq<Update>)
    requires IsBatchOf(rep, sequence, us)
    ensures |rep| >= HEADER
  {
  }

  // A batch with one more update at its end and in its count.
  lemma OneMoreIsBatch(rep: seq<Byte>, sequence: nat, us: seq<Update>, u: Update)
    requires IsBatchOf(rep, sequence, us) && |us| < MAX_COUNT && UpdateFits(u)
    ensures IsBatchOf(rep[..8] + Fixed32(|us| + 1) + rep[HEADER..] + UpdateBytes(u), sequence, us + [u])
  {
    hide AllBytes, Fixed64, Fixed32, UpdateBytes;
    OneMore(us, u);
    FixedIsFour(|us| + 1);
    var r := rep[..8] + Fixed32(|us| + 1) + rep[HEADER..] + UpdateBytes(u);
    assert r[..8] == rep[..8] && r[8..HEADER] == Fixed32(|us| + 1) && r[HEADER..] == rep[HEADER..] + UpdateBytes(u);
  }

  class WriteBatch {
    var rep: seq<Byte>
    ghost var updates: seq<Update>
    ghost var sequence: nat

    ghost predicate Valid()
      reads this
    {
      IsBatchOf(rep, sequence, updates)
    }

    constructor ()
      ensures Valid() && updates == [] && sequence == 0
    {
      rep, updates, sequence := seq(HEADER, _ => 0), [], 0;
      new;
      ZeroHeader();
    }

    method Clear()
      modifies this
      ensures Valid() && updates == [] && sequence == 0
    {
      rep, updates, sequence := seq(HEADER, _ => 0), [], 0;
      ZeroHeader();
    }

    // Takes over the bytes of a record. Expected, if anything: the batch `us` numbered from `first`.
    method SetContents(contents: seq<Byte>, ghost first: nat, ghost us: seq<Update>)
      requires |contents| >= HEADER
      modifies this
      ensures rep == contents && (IsBatchOf(contents, first, us) ==> Valid() && updates == us && sequence == first)
    {
      rep, updates, sequence := contents, us, first;
    }

    method SetCount(n: nat)
      requires |rep| >= HEADER && n < LIMIT32
      modifies this`rep
      ensures rep == old(rep[..8]) + Fixed32(n) + old(rep[HEADER..])
    {
      rep := rep[..8] + Fixed32(n) + rep[HEADER..];
    }

    method SetSequence(s: nat)
      requires Valid() && s < LIMIT64
      modifies this`rep, this`sequence
      ensures Valid() && sequence == s
    {
      hide Fixed32, FixedValue, AllBytes;
      Fixed64RoundTrip(s);
      rep, sequence := Fixed64(s) + rep[8..], s;
    }

    method Put(key: seq<Byte>, value: seq<Byte>)
      requires Valid() && |updates| < MAX_COUNT && |key| < LIMIT32 && |value| < LIMIT32
      modifies this`rep, this`updates
      ensures Valid() && updates == old(updates) + [Update.Put(key, value)]
    {
      hide Fixed32, FixedValue, AllBytes, Prefixed, Fixed64, IsBatchOf;
      ghost var u := Update.Put(key, value);
      BatchIsLong(rep, sequence, updates);
      HeaderOf(rep, sequence, updates);
      OneMoreIsBatch(rep, sequence, updates, u);
      SetCount(CountOf(rep) + 1);
      ghost var counted := rep;
      rep := rep + [1];
      rep := PutLengthPrefixedSlice(rep, key);
      rep := PutLengthPrefixedSlice(rep, value);
      updates := updates + [u];
      assert rep == counted + ([1] + (Prefixed(key) + Prefixed(value)));
    }

    method Delete(key: seq<Byte>)
      requires Valid() && |updates| < MAX_COUNT && |key| < LIMIT32
      modifies this`rep, this`updates
      ensures Valid() && updates == old(updates) + [Update.Delete(key)]
    {
      hide Fixed32, FixedValue, AllBytes, Prefixed, Fixed64, IsBatchOf;
      ghost var u := Update.Delete(key);
      BatchIsLong(rep, sequence, updates);
      HeaderOf(rep, sequence, updates);
      OneMoreIsBatch(rep, sequence, updates, u);
      SetCount(CountOf(rep) + 1);
      ghost var counted := rep;
      rep := rep + [0];
      rep := PutLengthPrefixedSlice(rep, key);
      updates := updates + [u];
      assert rep == counted + ([0] + Prefixed(key));
    }

    // The updates of `source` after its own; appending a batch to itself doubles it.
    method Append(source: WriteBatch)
      requires Valid() && source.Valid() && |updates| + |source.updates| <= MAX_COUNT
      modifies this`rep, this`updates
      ensures Valid() && updates == old(updates + source.updates)
    {
      hide Fixed32, FixedValue, AllBytes, Fixed64;
      HeaderOf(rep, sequence, updates);
      HeaderOf(source.rep, source.sequence, source.updates);
      BytesOfBoth(updates, source.updates);
      FixedIsFour(|updates| + |source.updates|);
      SetCount(CountOf(rep) + CountOf(source.rep));
      rep := rep + source.rep[HEADER..];
      updates := updates + source.updates;
      assert rep[HEADER..] == old(rep[HEADER..] + source.rep[HEADER..]);
      assert rep[..8] == old(rep[..8]) && rep[8..HEADER] == Fixed32(|updates|);
    }

    // Handles update after update. Of bytes that are no batch, it handles what can be read.
    method Iterate() returns (ok: bool, handled: seq<Update>, ghost end: nat)
      ensures Valid() ==> ok && handled == updates
      ensures |rep| < HEADER ==> !ok && handled == []
      ensures |rep| >= HEADER ==>
                && ReadsUpdates(rep, HEADER, handled, end) && HEADER <= end <= |rep|
                && (ok <==> end == |rep| && |handled| == CountOf(rep))
                && (end < |rep| ==> forall u, n :: !ReadsUpdate(rep, end, u, n))
    {
      hide Fixed32, FixedValue, AllBytes, UpdateBytes, UpdateFits, Fixed64, ReadsUpdate, ReadsUpdates;
      ok, handled, end := false, [], HEADER;
      if |rep| < HEADER {
        return;
      }
      ghost var expected := Valid();
      if expected {
        HeaderOf(rep, sequence, updates);
      }
      var p := HEADER;
      var found := 0;
      assert updates[0..] == updates;
      NothingToRead(rep);
      while p < |rep|
        invariant HEADER <= p <= |rep| && found == |handled| && end == p
        invariant ReadsUpdates(rep, HEADER, handled, p)
        invariant expected ==> found <= |updates| && handled == updates[..found] && rep[p..] == AllBytes(updates[found..])
        decreases |rep| - p
      {
        ghost var u := Update.Delete([]);
        if expected {
          FirstUpdate(rep, p, updates[found..]);
          u := updates[found];
          assert updates[found..][1..] == updates[found+1..];
        }
        found := found + 1;
        var some, update, next := DecodeUpdate(rep, p, u);
        if !some {
          return;
        }
        ReadsOneMore(rep, HEADER, handled, p, update, next);
        handled, p, end := handled + [update], next, next;
      }
      if expected {
        NoneLeft(updates[found..]);
      }
      if found != CountOf(rep) {
        return;
      }
      ok := true;
    }

    // Into a memtable, numbered from the number of the batch on.
    method InsertInto(mem: seq<(nat, Update)>) returns (ok: bool, mem': seq<(nat, Update)>)
      requires |rep| >= HEADER
      ensures Valid() ==> ok && mem' == mem + Numbered(sequence, updates)
      ensures exists handled, end: nat ::
                && ReadsUpdates(rep, HEADER, handled, end) && mem' == mem + Numbered(SequenceOf(rep), handled)
                && (ok <==> end == |rep| && |handled| == CountOf(rep))
                && (end < |rep| ==> forall u, n :: !ReadsUpdate(rep, end, u, n))
    {
      hide Fixed32, FixedValue, AllBytes, Fixed64, Fixed64Value, ReadsUpdate, ReadsUpdates;
      if Valid() {
        HeaderOf(rep, sequence, updates);
      }
      var next := SequenceOf(rep);
      var handled;
      ghost var end;
      ok, handled, end := Iterate();
      mem' := mem;
      for i := 0 to |handled|
        invariant next == SequenceOf(rep) + i && mem' == mem + Numbered(SequenceOf(rep), handled[..i])
      {
        mem' := mem' + [(next, handled[i])];
        next := next + 1;
      }
      assert handled[..|handled|] == handled;
    }
  }

  function Numbered(sequence: nat, us: seq<Update>): (r: seq<(nat, Update)>)
    ensures |r| == |us| && forall i | 0 <= i < |r| :: r[i] == (sequence + i, us[i])
  {
    seq(|us|, i requires 0 <= i < |us| => (sequence + i, us[i]))
  }

  lemma ZeroHeader()
    ensures IsBatchOf(seq(HEADER, _ => 0), 0, [])
  {
    assert Fixed32(0) == [0, 0, 0, 0];
    assert seq<Byte>(HEADER, _ => 0)[..8] == Fixed64(0);
    assert seq<Byte>(HEADER, _ => 0)[8..HEADER] == Fixed32(0);
  }

  lemma NothingToRead(rep: seq<Byte>)
    ensures ReadsUpdates(rep, HEADER, [], HEADER)
  {
  }

  lemma NoneLeft(us: seq<Update>)
    requires AllBytes(us) == []
    ensures us == []
  {
    hide UpdateBytes;
  }

  lemma FirstUpdate(rep: seq<Byte>, p: nat, us: seq<Update>)
    requires p < |rep| && rep[p..] == AllBytes(us)
    ensures us != [] && IsAt(rep, p, |rep|, UpdateBytes(us[0]))
    ensures rep[p+|UpdateBytes(us[0])|..] == AllBytes(us[1..])
  {
    hide UpdateBytes;
    var first := UpdateBytes(us[0]);
    assert rep[p..p+|first|] == rep[p..][..|first|] == first;
    assert rep[p+|first|..] == rep[p..][|first|..];
  }

  // One update. Expected, if anything: `u`.
  method DecodeUpdate(rep: seq<Byte>, p: nat, ghost u: Update) returns (ok: bool, update: Update, next: nat)
    requires p < |rep|
    ensures ok ==> p < next <= |rep|
    ensures if ok then ReadsUpdate(rep, p, update, next) else forall x, n :: !ReadsUpdate(rep, p, x, n)
    ensures UpdateFits(u) && IsAt(rep, p, |rep|, UpdateBytes(u)) ==> ok && update == u && next == p + |UpdateBytes(u)|
  {
    hide Prefixed, IsAt, ReadsPrefixed;
    if IsAt(rep, p, |rep|, UpdateBytes(u)) {
      UpdateParts(rep, p, u);
    }
    var tag := rep[p];
    var key, value;
    update, next := Update.Delete([]), p;
    if tag == 1 {
      ok, key, next := GetLengthPrefixedSlice(rep, p + 1, |rep|, u.key);
      if ok {
        ghost var mid := next;
        ok, value, next := GetLengthPrefixedSlice(rep, next, |rep|, if u.Put? then u.value else []);
        update := Update.Put(key, value);
        if !ok {
          NoValueFollows(rep, p, key, mid);
        }
      }
    } else if tag == 0 {
      ok, key, next := GetLengthPrefixedSlice(rep, p + 1, |rep|, u.key);
      update := Update.Delete(key);
    } else {
      ok := false;
    }
  }

  lemma UpdateParts(rep: seq<Byte>, p: nat, u: Update)
    requires IsAt(rep, p, |rep|, UpdateBytes(u))
    ensures p < |rep| && rep[p] == (if u.Put? then 1 else 0)
    ensures IsAt(rep, p + 1, |rep|, Prefixed(u.key))
    ensures u.Put? ==> IsAt(rep, p + 1 + |Prefixed(u.key)|, |rep|, Prefixed(u.value))
    ensures p + |UpdateBytes(u)| == p + 1 + |Prefixed(u.key)| + if u.Put? then |Prefixed(u.value)| else 0
  {
    hide Prefixed, IsAt;
    FirstAt(rep, p, |rep|, UpdateBytes(u));
    if u.Put? {
      PartsAt(rep, p, |rep|, [1], Prefixed(u.key) + Prefixed(u.value));
      PartsAt(rep, p + 1, |rep|, Prefixed(u.key), Prefixed(u.value));
    } else {
      PartsAt(rep, p, |rep|, [0], Prefixed(u.key));
    }
  }
}
