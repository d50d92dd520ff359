// Internal keys, their order, and what a read at a sequence number means.
//
// A user key is represented by its position under the user comparator. Keys are byte
// strings, so there are countably many, and every total order on a countable set embeds
// into the reals: a statement proved for every `real` holds for every comparator.

module InternalKeys {

  type UserKey = real

  type Value = string

  const NUM_LEVELS: nat := 7

  const MAX_SEQUENCE: nat := 0xFF_FFFF_FFFF_FFFF  // 2^56 - 1

  type SequenceNumber = n: nat | n <= MAX_SEQUENCE

  datatype Option<+T> = None | Some(value: T)

  datatype Kind = Deletion | Put

  datatype InternalKey = InternalKey(user: UserKey, sequence: SequenceNumber, kind: Kind)

  datatype Entry = Entry(key: InternalKey, value: Value)

  // The low eight bits of the packed number hold the kind: deletion is 0, put is 1.
  function PackSequenceAndType(sequence: SequenceNumber, kind: Kind): nat {
    sequence * 256 + if kind.Put? then 1 else 0
  }

  // User keys ascending; for one user key, packed numbers descending.
  function Compare(a: InternalKey, b: InternalKey): int {
    if a.user < b.user then -1
    else if a.user > b.user then 1
    else
      var anum, bnum := PackSequenceAndType(a.sequence, a.kind), PackSequenceAndType(b.sequence, b.kind);
      if anum > bnum then -1 else if anum < bnum then 1 else 0
  }

  predicate Less(a: InternalKey, b: InternalKey) {
    Compare(a, b) < 0
  }

  lemma LessIsStrictTotalOrder(a: InternalKey, b: InternalKey, c: InternalKey)
    ensures !Less(a, a)
    ensures Less(a, b) && Less(b, c) ==> Less(a, c)
    ensures a != b <==> Less(a, b) || Less(b, a)
    ensures !(Less(a, b) && Less(b, a))
  {
    if a.user == b.user && PackSequenceAndType(a.sequence, a.kind) == PackSequenceAndType(b.sequence, b.kind) {
      assert a.sequence == b.sequence && a.kind == b.kind;
    }
  }

  // The key with which a read of `user` at sequence number `sequence` searches: it sorts before
  // every entry of `user` numbered at most `sequence`, and after every later one.
  function LookupKey(user: UserKey, sequence: SequenceNumber): InternalKey {
    InternalKey(user, sequence, Put)
  }

  predicate Sorted(es: seq<Entry>) {
    forall i, j | 0 <= i < j < |es| :: Less(es[i].key, es[j].key)
  }

  // The index of the first entry at or after `k`: where every Seek lands.
  function SeekIndex(es: seq<Entry>, k: InternalKey): (r: nat)
    ensures r <= |es|
    ensures forall i | 0 <= i < r :: Less(es[i].key, k)
    ensures r < |es| ==> !Less(es[r].key, k)
  {
    if es == [] || !Less(es[0].key, k) then 0 else 1 + SeekIndex(es[1..], k)
  }

  lemma SeekSplits(es: seq<Entry>, k: InternalKey)
    requires Sorted(es)
    ensures forall i | 0 <= i < |es| :: i < SeekIndex(es, k) <==> Less(es[i].key, k)
  {
    var r := SeekIndex(es, k);
    forall i | r <= i < |es|
      ensures !Less(es[i].key, k)
    {
      if r < i {
        LessIsStrictTotalOrder(es[r].key, es[i].key, k);
      }
    }
  }

  lemma SeekIs(es: seq<Entry>, k: InternalKey, r: nat)
    requires Sorted(es) && r <= |es|
    requires 0 < r ==> Less(es[r-1].key, k)
    requires r < |es| ==> !Less(es[r].key, k)
    ensures SeekIndex(es, k) == r
  {
    SeekSplits(es, k);
  }

  // ---- Reads, as a function of a set of entries

  ghost function Visible(es: set<Entry>, user: UserKey, s: SequenceNumber): set<Entry> {
    set e | e in es && e.key.user == user && e.key.sequence <= s
  }

  ghost predicate IsNewest(es: set<Entry>, user: UserKey, s: SequenceNumber, e: Entry) {
    e in Visible(es, user, s) && forall x | x in Visible(es, user, s) :: x.key.sequence <= e.key.sequence
  }

  // No two entries of one user key carry the same sequence number.
  ghost predicate DistinctStamps(es: set<Entry>) {
    forall a, b | a in es && b in es && a.key.user == b.key.user && a.key.sequence == b.key.sequence :: a == b
  }

  function Reading(e: Entry): Option<Value> {
    if e.key.kind.Put? then Some(e.value) else None
  }

  lemma {:induction false} MaxExists(es: set<Entry>) returns (m: Entry)
    requires es != {}
    ensures m in es && forall x | x in es :: x.key.sequence <= m.key.sequence
  {
    m :| m in es;
    var rest := es - {m};
    if rest != {} {
      var r := MaxExists(rest);
      if m.key.sequence < r.key.sequence {
        m := r;
      }
    }
    assert forall x | x in es :: x == m || x in rest || m in rest;
  }

  lemma NewestExists(es: set<Entry>, user: UserKey, s: SequenceNumber)
    requires Visible(es, user, s) != {}
    ensures exists e :: IsNewest(es, user, s, e)
  {
    var m := MaxExists(Visible(es, user, s));
    assert IsNewest(es, user, s, m);
  }

  // What a read of `user` at `s` must return: the value of the entry with the largest
  // sequence number not above `s`, and nothing if there is none or it is a deletion.
  ghost function Lookup(es: set<Entry>, user: UserKey, s: SequenceNumber): Option<Value> {
    if Visible(es, user, s) == {} then None
    else
      NewestExists(es, user, s);
      var e :| IsNewest(es, user, s, e);
      Reading(e)
  }

  lemma LookupIs(es: set<Entry>, user: UserKey, s: SequenceNumber, e: Entry)
    requires DistinctStamps(es)
    requires IsNewest(es, user, s, e)
    ensures Lookup(es, user, s) == Reading(e)
  {
  }

  lemma LookupNone(es: set<Entry>, user: UserKey, s: SequenceNumber)
    requires Visible(es, user, s) == {}
    ensures Lookup(es, user, s) == None
  {
  }
}
