// What a search of a table's bytes means: the search of its entries that the levels rest on.

module TableReads {
  import opened Bytes
  import opened Coding
  import opened KeyOrders
  import opened Blocks
  import opened BlockIterators
  import opened Tables
  import opened InternalKeys
  import Versions
  import TableBuilders

  // ---- Byte strings as positions in an order

  // A fraction in base 257, so that a string comes before its extensions.
  function Rank(s: seq<Byte>): (r: real)
    ensures 0.0 <= r < 1.0
  {
    if s == [] then 0.0 else
      NextNumber(s[0]);
      (NumberOf(s[0]) as real + 1.0 + Rank(s[1..])) / 257.0
  }

  lemma {:induction false} RankOrders(a: seq<Byte>, b: seq<Byte>)
    requires BytesLess(a, b)
    ensures Rank(a) < Rank(b)
  {
    hide NumberOf;
    if a != [] {
      if a[0] < b[0] {
        SmallerNumber(a[0], b[0]);
      } else {
        RankOrders(a[1..], b[1..]);
      }
    }
  }

  lemma SmallerNumber(a: Byte, b: Byte)
    requires a < b
    ensures NumberOf(a) < NumberOf(b)
  {
  }

  lemma RankIsOrder(a: seq<Byte>, b: seq<Byte>)
    ensures BytesLess(a, b) <==> Rank(a) < Rank(b)
    ensures a == b <==> Rank(a) == Rank(b)
  {
    hide BytesLess, Rank;
    BytesLessThree(a, b, a);
    if BytesLess(a, b) {
      RankOrders(a, b);
    }
    if BytesLess(b, a) {
      RankOrders(b, a);
    }
  }

  // ---- Internal keys

  predicate WellFormed(k: seq<Byte>) {
    |k| >= 8 && PackedPart(k) % 256 <= 1 && PackedPart(k) / 256 <= MAX_SEQUENCE
  }

  function KeyOf(k: seq<Byte>): InternalKey
    requires WellFormed(k)
  {
    InternalKey(Rank(UserPart(k)), PackedPart(k) / 256, if PackedPart(k) % 256 == 1 then InternalKeys.Put else Deletion)
  }

  // The bytewise order of internal keys is the order of what they stand for.
  lemma SameOrder(a: seq<Byte>, b: seq<Byte>)
    requires WellFormed(a) && WellFormed(b)
    ensures InternalLess(a, b) <==> Less(KeyOf(a), KeyOf(b))
  {
    hide BytesLess, Rank, UserPart, PackedPart;
    RankIsOrder(UserPart(a), UserPart(b));
    RankIsOrder(UserPart(b), UserPart(a));
    assert PackSequenceAndType(KeyOf(a).sequence, KeyOf(a).kind) == PackedPart(a);
    assert PackSequenceAndType(KeyOf(b).sequence, KeyOf(b).kind) == PackedPart(b);
  }

  function LookupBytes(user: seq<Byte>, s: SequenceNumber): seq<Byte> {
    user + Fixed64(s * 256 + 1)
  }

  lemma LookupBytesAre(user: seq<Byte>, s: SequenceNumber)
    ensures var k := LookupBytes(user, s); WellFormed(k) && UserPart(k) == user && KeyOf(k) == LookupKey(Rank(user), s)
  {
    hide Fixed64, Fixed64Value, Rank;
    Fixed64RoundTrip(s * 256 + 1);
    var k := LookupBytes(user, s);
    assert k[|k|-8..] == Fixed64(s * 256 + 1) && UserPart(k) == user;
  }

  // ---- Entries; values are told apart by `text`

  ghost predicate AllWellFormed(es: seq<KeyValue>) {
    forall i | 0 <= i < |es| :: WellFormed(es[i].key)
  }

  function EntryOf(text: seq<Byte> -> Value, e: KeyValue): Entry
    requires WellFormed(e.key)
  {
    Entry(KeyOf(e.key), text(e.value))
  }

  ghost function TableEntries(text: seq<Byte> -> Value, es: seq<KeyValue>): (r: seq<Entry>)
    requires AllWellFormed(es)
    ensures |r| == |es| && forall i | 0 <= i < |r| :: r[i] == EntryOf(text, es[i])
  {
    seq(|es|, i requires 0 <= i < |es| => EntryOf(text, es[i]))
  }

  lemma EntriesAreSorted(text: seq<Byte> -> Value, es: seq<KeyValue>)
    requires AllWellFormed(es) && KeysAscend(es, InternalLess)
    ensures Sorted(TableEntries(text, es))
  {
    hide InternalLess, Less, KeyOf, WellFormed;
    forall i, j | 0 <= i < j < |es|
      ensures Less(TableEntries(text, es)[i].key, TableEntries(text, es)[j].key)
    {
      SameOrder(es[i].key, es[j].key);
    }
  }

  lemma SeekAgrees(text: seq<Byte> -> Value, es: seq<KeyValue>, k: seq<Byte>)
    requires AllWellFormed(es) && KeysAscend(es, InternalLess) && WellFormed(k)
    ensures SeekIndex(TableEntries(text, es), KeyOf(k)) == FirstAtLeast(es, InternalLess, k)
  {
    hide InternalLess, Less, KeyOf, WellFormed, KeysAscend;
    EntriesAreSorted(text, es);
    var r := FirstAtLeast(es, InternalLess, k);
    if r > 0 {
      SameOrder(es[r-1].key, k);
    }
    if r < |es| {
      SameOrder(es[r].key, k);
    }
    SeekIs(TableEntries(text, es), KeyOf(k), r);
  }

  // ---- Reading

  datatype Saver = KeyNotFound | KeyFound(value: seq<Byte>) | KeyDeleted | KeyCorrupt

  // Whether the entry that a search ended at answers a read of `user`.
  function SaveValue(user: seq<Byte>, e: KeyValue): Saver {
    if |e.key| < 8 || PackedPart(e.key) % 256 > 1 then KeyCorrupt
    else if UserPart(e.key) != user then KeyNotFound
    else if PackedPart(e.key) % 256 == 1 then KeyFound(e.value) else KeyDeleted
  }

  predicate Means(text: seq<Byte> -> Value, saver: Saver, r: Versions.SearchResult) {
    match saver
    case KeyNotFound => r.NotFound?
    case KeyFound(v) => r == Versions.Found(text(v))
    case KeyDeleted => r.Deleted?
    case KeyCorrupt => false
  }

  // A read of a table gives what the search of its entries gives.
  method Get(table: Table, user: seq<Byte>, s: SequenceNumber, verifyChecksums: bool, ghost t: TableBuilders.TableInfo, ghost text: seq<Byte> -> Value)
    returns (ok: bool, saver: Saver)
    requires table.Valid()
    ensures table.Reads(t) && AllWellFormed(t.entries) ==>
              ok && Sorted(TableEntries(text, t.entries)) && Means(text, saver, Versions.Search(TableEntries(text, t.entries), Rank(user), s))
  {
    hide KeysAscend, Rank, KeyOf, WellFormed, UserPart, PackedPart;
    var k := LookupBytes(user, s);
    LookupBytesAre(user, s);
    var r;
    ok, r := table.InternalGet(k, verifyChecksums, t);
    saver := if r.Reported? then SaveValue(user, r.e) else KeyNotFound;
    if table.Reads(t) && AllWellFormed(t.entries) {
      EntriesAreSorted(text, t.entries);
      ResultMeans(text, t.entries, user, s, r);
    }
  }

  lemma ResultMeans(text: seq<Byte> -> Value, es: seq<KeyValue>, user: seq<Byte>, s: SequenceNumber, r: GetResult)
    requires AllWellFormed(es) && KeysAscend(es, InternalLess) && IsResult(es, LookupBytes(user, s), r)
    ensures Means(text, if r.Reported? then SaveValue(user, r.e) else KeyNotFound, Versions.Search(TableEntries(text, es), Rank(user), s))
  {
    hide KeysAscend, Rank, UserPart, PackedPart, LookupBytes;
    var k := LookupBytes(user, s);
    LookupBytesAre(user, s);
    SeekAgrees(text, es, k);
    var i := FirstAtLeast(es, InternalLess, k);
    if i < |es| {
      RankIsOrder(UserPart(es[i].key), user);
    }
  }
}
