// The bytes of an edit in the manifest.

module EditFormat {
  import opened InternalKeys
  import opened Bytes
  import opened Coding

  // Keys are kept as bytes.
  datatype FileFields = FileFields(number: nat, fileSize: nat, smallest: seq<Byte>, largest: seq<Byte>)

  // What an edit says; a number or name that it does not have is `None`.
  datatype Edit = Edit(
    comparator: Option<seq<Byte>>, logNumber: Option<nat>, prevLogNumber: Option<nat>,
    nextFileNumber: Option<nat>, lastSequence: Option<nat>,
    compactPointers: seq<(nat, seq<Byte>)>, deletedFiles: set<(nat, nat)>, newFiles: seq<(nat, FileFields)>)

  // One tagged field.
  datatype Item =
    | Comparator(name: seq<Byte>)
    | LogNumber(number: nat)
    | PrevLogNumber(number: nat)
    | NextFileNumber(number: nat)
    | LastSequence(number: nat)
    | CompactPointer(level: nat, key: seq<Byte>)
    | DeletedFile(level: nat, number: nat)
    | NewFile(level: nat, f: FileFields)

  function Tag(item: Item): (tag: nat)
    ensures 1 <= tag <= 9
  {
    match item
    case Comparator(_) => 1
    case LogNumber(_) => 2
    case NextFileNumber(_) => 3
    case LastSequence(_) => 4
    case CompactPointer(_, _) => 5
    case DeletedFile(_, _) => 6
    case NewFile(_, _) => 7
    case PrevLogNumber(_) => 9
  }

  // Of the widths the format has.
  predicate ItemFits(item: Item) {
    match item
    case Comparator(name) => |name| < LIMIT32
    case LogNumber(n) => n < LIMIT64
    case PrevLogNumber(n) => n < LIMIT64
    case NextFileNumber(n) => n < LIMIT64
    case LastSequence(n) => n < LIMIT64
    case CompactPointer(level, key) => level < NUM_LEVELS && |key| < LIMIT32
    case DeletedFile(level, n) => level < NUM_LEVELS && n < LIMIT64
    case NewFile(level, f) =>
      level < NUM_LEVELS && f.number < LIMIT64 && f.fileSize < LIMIT64 && |f.smallest| < LIMIT32 && |f.largest| < LIMIT32
  }

  function Body(item: Item): seq<Byte> {
    match item
    case Comparator(name) => Prefixed(name)
    case LogNumber(n) => Varint(n)
    case PrevLogNumber(n) => Varint(n)
    case NextFileNumber(n) => Varint(n)
    case LastSequence(n) => Varint(n)
    case CompactPointer(level, key) => Varint(level) + Prefixed(key)
    case DeletedFile(level, n) => Varint(level) + Varint(n)
    case NewFile(level, f) => Varint(level) + (Varint(f.number) + (Varint(f.fileSize) + (Prefixed(f.smallest) + Prefixed(f.largest))))
  }

  function ItemBytes(item: Item): seq<Byte> {
    Varint(Tag(item)) + Body(item)
  }

  function AllBytes(items: seq<Item>): seq<Byte> {
    if items == [] then [] else ItemBytes(items[0]) + AllBytes(items[1..])
  }

  // Every kind of field, in bytes.
  lemma KnownNumbers()
    ensures ItemBytes(LogNumber(10)) == [2, 10] && ItemBytes(PrevLogNumber(11)) == [9, 11]
    ensures ItemBytes(NextFileNumber(12)) == [3, 12] && ItemBytes(LastSequence(13)) == [4, 13]
  {
  }

  lemma KnownFields()
    ensures ItemBytes(Comparator([0x61])) == [1, 1, 0x61] && ItemBytes(CompactPointer(2, [0x62])) == [5, 2, 1, 0x62]
    ensures ItemBytes(DeletedFile(2, 4)) == [6, 2, 4]
    ensures ItemBytes(NewFile(3, FileFields(4, 5, [0x63], [0x64, 0x65]))) == [7, 3, 4, 5, 1, 0x63, 2, 0x64, 0x65]
  {
  }

  // What an edit says after one more field was read.
  function Take(e: Edit, item: Item): Edit {
    match item
    case Comparator(name) => e.(comparator := Some(name))
    case LogNumber(n) => e.(logNumber := Some(n))
    case PrevLogNumber(n) => e.(prevLogNumber := Some(n))
    case NextFileNumber(n) => e.(nextFileNumber := Some(n))
    case LastSequence(n) => e.(lastSequence := Some(n))
    case CompactPointer(level, key) => e.(compactPointers := e.compactPointers + [(level, key)])
    case DeletedFile(level, n) => e.(deletedFiles := e.deletedFiles + {(level, n)})
    case NewFile(level, f) => e.(newFiles := e.newFiles + [(level, f)])
  }

  function TakeAll(e: Edit, items: seq<Item>): Edit
    decreases |items|
  {
    if items == [] then e else TakeAll(Take(e, items[0]), items[1..])
  }

  lemma TakeNothing(e: Edit)
    ensures TakeAll(e, []) == e
  {
  }

  lemma TakeOneMore(e: Edit, items: seq<Item>, item: Item)
    ensures TakeAll(e, items + [item]) == Take(TakeAll(e, items), item)
  {
    hide Take;
    TakeBoth(e, items, [item]);
    assert [item][1..] == [];
  }

  // Clearing an edit leaves its compaction pointers.
  function Cleared(e: Edit): Edit {
    Edit(None, None, None, None, None, e.compactPointers, {}, [])
  }

  const EMPTY: Edit := Edit(None, None, None, None, None, [], {}, [])

  // ---- Any bytes read as fields

  ghost predicate ReadsLevel(data: seq<Byte>, p: nat, level: nat, next: nat) {
    Reads32(data, p, |data|, level, next) && level < NUM_LEVELS
  }

  ghost predicate ReadsKeys(data: seq<Byte>, p: nat, smallest: seq<Byte>, largest: seq<Byte>, next: nat) {
    exists at :: ReadsPrefixed(data, p, |data|, smallest, at) && ReadsPrefixed(data, at, |data|, largest, next)
  }

  ghost predicate ReadsFile(data: seq<Byte>, p: nat, f: FileFields, next: nat) {
    exists a, b :: Reads64(data, p, |data|, f.number, a) && Reads64(data, a, |data|, f.fileSize, b) && ReadsKeys(data, b, f.smallest, f.largest, next)
  }

  // The body of a field stands at `p` and ends at `next`.
  ghost predicate ReadsBody(data: seq<Byte>, p: nat, item: Item, next: nat) {
    match item
    case Comparator(name) => ReadsPrefixed(data, p, |data|, name, next)
    case LogNumber(n) => Reads64(data, p, |data|, n, next)
    case PrevLogNumber(n) => Reads64(data, p, |data|, n, next)
    case NextFileNumber(n) => Reads64(data, p, |data|, n, next)
    case LastSequence(n) => Reads64(data, p, |data|, n, next)
    case CompactPointer(level, key) => exists at :: ReadsLevel(data, p, level, at) && ReadsPrefixed(data, at, |data|, key, next)
    case DeletedFile(level, n) => exists at :: ReadsLevel(data, p, level, at) && Reads64(data, at, |data|, n, next)
    case NewFile(level, f) => exists at :: ReadsLevel(data, p, level, at) && ReadsFile(data, at, f, next)
  }

  ghost predicate ReadsItem(data: seq<Byte>, p: nat, item: Item, next: nat) {
    exists at :: Reads32(data, p, |data|, Tag(item), at) && ReadsBody(data, at, item, next)
  }

  // Fields stand one after another from `p` to `end`.
  ghost predicate ReadsItems(data: seq<Byte>, p: nat, items: seq<Item>, end: nat) {
    if items == [] then end == p
    else
      var init, last := items[..|items|-1], items[|items|-1];
      exists mid :: ReadsItems(data, p, init, mid) && ReadsItem(data, mid, last, end)
  }

  lemma ReadsOneMore(data: seq<Byte>, p: nat, items: seq<Item>, mid: nat, item: Item, end: nat)
    requires ReadsItems(data, p, items, mid) && ReadsItem(data, mid, item, end)
    ensures ReadsItems(data, p, items + [item], end)
  {
    hide ReadsItem;
    assert (items + [item])[..|items|] == items;
  }

  lemma NothingToRead(data: seq<Byte>, p: nat)
    ensures ReadsItems(data, p, [], p)
  {
  }

  // What is read at a place is read there once.
  lemma PartsOnce(data: seq<Byte>, p: nat)
    ensures forall l, a, m, b | ReadsLevel(data, p, l, a) && ReadsLevel(data, p, m, b) :: l == m && a == b
    ensures forall l, a, m, b | Reads64(data, p, |data|, l, a) && Reads64(data, p, |data|, m, b) :: l == m && a == b
    ensures forall l, a, m, b | ReadsPrefixed(data, p, |data|, l, a) && ReadsPrefixed(data, p, |data|, m, b) :: l == m && a == b
  {
    hide Reads32, Reads64, ReadsPrefixed;
    ReadsOnce(data, p, |data|);
    forall l, a, m, b | ReadsPrefixed(data, p, |data|, l, a) && ReadsPrefixed(data, p, |data|, m, b)
      ensures l == m && a == b
    {
      PrefixedOnce(data, p, |data|, l, a, m, b);
    }
  }

  lemma NoTag(data: seq<Byte>, p: nat)
    requires forall tag, n :: !Reads32(data, p, |data|, tag, n)
    ensures forall item, n :: !ReadsItem(data, p, item, n)
  {
    hide Reads32, ReadsBody;
  }

  lemma ItemIsRead(data: seq<Byte>, p: nat, tag: nat, at: nat, item: Item, next: nat)
    requires Reads32(data, p, |data|, tag, at) && Tag(item) == tag && ReadsBody(data, at, item, next)
    ensures ReadsItem(data, p, item, next)
  {
    hide Reads32, ReadsBody;
  }

  // No field can be read whose body cannot be read after its tag.
  lemma NoItem(data: seq<Byte>, p: nat, tag: nat, at: nat)
    requires Reads32(data, p, |data|, tag, at)
    requires forall item, n | Tag(item) == tag :: !ReadsBody(data, at, item, n)
    ensures forall item, n :: !ReadsItem(data, p, item, n)
  {
    hide Reads32, ReadsBody;
    ReadsOnce(data, p, |data|);
  }

  // No field of this kind can be read whose first part cannot be read, or is followed by nothing
  // that can.
  lemma NoBody(data: seq<Byte>, p: nat, tag: nat)
    requires tag == 1 ==> forall s, n :: !ReadsPrefixed(data, p, |data|, s, n)
    requires tag == 2 || tag == 3 || tag == 4 || tag == 9 ==> forall x, n :: !Reads64(data, p, |data|, x, n)
    requires tag == 5 || tag == 6 || tag == 7 ==> forall l, n :: !ReadsLevel(data, p, l, n)
    ensures forall item, n | Tag(item) == tag :: !ReadsBody(data, p, item, n)
  {
    hide ReadsPrefixed, Reads64, ReadsLevel, ReadsFile;
  }

  lemma NoSecond(data: seq<Byte>, p: nat, tag: nat, level: nat, at: nat)
    requires (tag == 5 || tag == 6) && ReadsLevel(data, p, level, at)
    requires tag == 5 ==> forall s, n :: !ReadsPrefixed(data, at, |data|, s, n)
    requires tag == 6 ==> forall x, n :: !Reads64(data, at, |data|, x, n)
    ensures forall item, n | Tag(item) == tag :: !ReadsBody(data, p, item, n)
  {
    hide ReadsPrefixed, Reads64, ReadsLevel, ReadsFile;
    PartsOnce(data, p);
  }

  lemma NoFile(data: seq<Byte>, p: nat)
    requires forall l, f, n :: !ReadsBody(data, p, NewFile(l, f), n)
    ensures forall item, n | Tag(item) == 7 :: !ReadsBody(data, p, item, n)
  {
    hide ReadsBody;
  }

  // ---- Decoding

  method GetLevel(data: seq<Byte>, p: nat, ghost level: nat) returns (ok: bool, value: nat, next: nat)
    requires p <= |data|
    ensures p <= next <= |data| && (ok ==> value < NUM_LEVELS)
    ensures if ok then ReadsLevel(data, p, value, next) else forall l, n :: !ReadsLevel(data, p, l, n)
    ensures level < NUM_LEVELS && IsAt(data, p, |data|, Varint(level)) ==> ok && value == level && next == p + |Varint(level)|
  {
    hide Varint, IsAt, Reads32;
    ReadsOnce(data, p, |data|);
    ok, value, next := GetVarint32Ptr(data, p, |data|, level);
    if !ok {
      return false, 0, p;
    }
    ok := value < NUM_LEVELS;
  }

  method GetKeys(data: seq<Byte>, p: nat, ghost s: seq<Byte>, ghost l: seq<Byte>) returns (ok: bool, smallest: seq<Byte>, largest: seq<Byte>, next: nat)
    requires p <= |data|
    ensures p <= next <= |data|
    ensures if ok then ReadsKeys(data, p, smallest, largest, next) else forall x, y, n :: !ReadsKeys(data, p, x, y, n)
    ensures |s| < LIMIT32 && |l| < LIMIT32 && IsAt(data, p, |data|, Prefixed(s)) && IsAt(data, p + |Prefixed(s)|, |data|, Prefixed(l)) ==>
              ok && smallest == s && largest == l && next == p + |Prefixed(s)| + |Prefixed(l)|
  {
    hide IsAt, Prefixed, ReadsPrefixed;
    largest := [];
    ok, smallest, next := GetLengthPrefixedSlice(data, p, |data|, s);
    if !ok {
      return;
    }
    PartsOnce(data, p);
    ok, largest, next := GetLengthPrefixedSlice(data, next, |data|, l);
  }

  method GetFile(data: seq<Byte>, p: nat, ghost f: FileFields) returns (ok: bool, g: FileFields, next: nat)
    requires p <= |data|
    ensures p <= next <= |data|
    ensures if ok then ReadsFile(data, p, g, next) else forall h, n :: !ReadsFile(data, p, h, n)
    ensures var a := p + |Varint(f.number)|;
            var b := a + |Varint(f.fileSize)|;
            ItemFits(NewFile(0, f)) && IsAt(data, p, |data|, Varint(f.number)) && IsAt(data, a, |data|, Varint(f.fileSize))
            && IsAt(data, b, |data|, Prefixed(f.smallest)) && IsAt(data, b + |Prefixed(f.smallest)|, |data|, Prefixed(f.largest)) ==>
              ok && g == f && next == b + |Prefixed(f.smallest)| + |Prefixed(f.largest)|
  {
    hide Varint, IsAt, Prefixed, Reads64, ReadsKeys;
    g := FileFields(0, 0, [], []);
    var number, fileSize, smallest, largest, at;
    PartsOnce(data, p);
    ok, number, next := GetVarint64(data, p, |data|, f.number);
    if !ok {
      next := p;
      return;
    }
    at := next;
    PartsOnce(data, at);
    ok, fileSize, next := GetVarint64(data, at, |data|, f.fileSize);
    if !ok {
      next := at;
      return;
    }
    ok, smallest, largest, next := GetKeys(data, next, f.smallest, f.largest);
    g := FileFields(number, fileSize, smallest, largest);
  }

  method GetNewFile(data: seq<Byte>, p: nat, ghost level: nat, ghost f: FileFields) returns (ok: bool, l: nat, g: FileFields, next: nat)
    requires p <= |data|
    ensures p <= next <= |data|
    ensures if ok then ReadsBody(data, p, NewFile(l, g), next) else forall x, h, n :: !ReadsBody(data, p, NewFile(x, h), n)
    ensures ItemFits(NewFile(level, f)) && IsAt(data, p, |data|, Body(NewFile(level, f))) ==>
              ok && l == level && g == f && next == p + |Body(NewFile(level, f))|
  {
    hide Varint, IsAt, Prefixed, ReadsLevel, ReadsFile;
    if IsAt(data, p, |data|, Body(NewFile(level, f))) {
      NewFileParts(data, p, level, f);
    }
    g := FileFields(0, 0, [], []);
    PartsOnce(data, p);
    ok, l, next := GetLevel(data, p, level);
    if !ok {
      return;
    }
    ok, g, next := GetFile(data, next, f);
  }

  lemma NewFileParts(data: seq<Byte>, p: nat, level: nat, f: FileFields)
    requires IsAt(data, p, |data|, Body(NewFile(level, f)))
    ensures var p1 := p + |Varint(level)|;
            var p2 := p1 + |Varint(f.number)|;
            var p3 := p2 + |Varint(f.fileSize)|;
            var p4 := p3 + |Prefixed(f.smallest)|;
            && IsAt(data, p, |data|, Varint(level)) && IsAt(data, p1, |data|, Varint(f.number))
            && IsAt(data, p2, |data|, Varint(f.fileSize)) && IsAt(data, p3, |data|, Prefixed(f.smallest))
            && IsAt(data, p4, |data|, Prefixed(f.largest)) && p4 + |Prefixed(f.largest)| == p + |Body(NewFile(level, f))|
  {
    hide Varint, IsAt, Prefixed;
    FiveParts(data, p, Varint(level), Varint(f.number), Varint(f.fileSize), Prefixed(f.smallest), Prefixed(f.largest));
  }

  lemma FiveParts(data: seq<Byte>, p: nat, a: seq<Byte>, b: seq<Byte>, c: seq<Byte>, d: seq<Byte>, e: seq<Byte>)
    requires IsAt(data, p, |data|, a + (b + (c + (d + e))))
    ensures IsAt(data, p, |data|, a) && IsAt(data, p + |a|, |data|, b) && IsAt(data, p + |a| + |b|, |data|, c)
    ensures IsAt(data, p + |a| + |b| + |c|, |data|, d) && IsAt(data, p + |a| + |b| + |c| + |d|, |data|, e)
    ensures |a + (b + (c + (d + e)))| == |a| + |b| + |c| + |d| + |e|
  {
    hide IsAt;
    PartsAt(data, p, |data|, a, b + (c + (d + e)));
    PartsAt(data, p + |a|, |data|, b, c + (d + e));
    PartsAt(data, p + |a| + |b|, |data|, c, d + e);
    PartsAt(data, p + |a| + |b| + |c|, |data|, d, e);
  }

  // What there is to expect of each kind in a field.
  ghost function NumberIn(item: Item): nat {
    match item
    case LogNumber(n) => n
    case PrevLogNumber(n) => n
    case NextFileNumber(n) => n
    case LastSequence(n) => n
    case DeletedFile(_, n) => n
    case _ => 0
  }

  ghost function StringIn(item: Item): seq<Byte> {
    match item
    case Comparator(name) => name
    case CompactPointer(_, key) => key
    case _ => []
  }

  ghost function LevelIn(item: Item): nat {
    match item
    case CompactPointer(level, _) => level
    case DeletedFile(level, _) => level
    case NewFile(level, _) => level
    case _ => 0
  }

  ghost function FileIn(item: Item): FileFields {
    if item.NewFile? then item.f else FileFields(0, 0, [], [])
  }

  lemma BodyParts(data: seq<Byte>, p: nat, item: Item)
    requires IsAt(data, p, |data|, Body(item))
    ensures item.CompactPointer? ==>
              && IsAt(data, p, |data|, Varint(item.level)) && IsAt(data, p + |Varint(item.level)|, |data|, Prefixed(item.key))
              && p + |Body(item)| == p + |Varint(item.level)| + |Prefixed(item.key)|
    ensures item.DeletedFile? ==>
              && IsAt(data, p, |data|, Varint(item.level)) && IsAt(data, p + |Varint(item.level)|, |data|, Varint(item.number))
              && p + |Body(item)| == p + |Varint(item.level)| + |Varint(item.number)|
  {
    hide Varint, IsAt, Prefixed;
    if item.CompactPointer? {
      PartsAt(data, p, |data|, Varint(item.level), Prefixed(item.key));
    }
    if item.DeletedFile? {
      PartsAt(data, p, |data|, Varint(item.level), Varint(item.number));
    }
  }

  // An edit that is filled by decoding, field by field.
  class VersionEdit {
    var e: Edit

    constructor ()
      ensures e == EMPTY
    {
      e := EMPTY;
    }

    // One field with this tag. Expected, if anything: `item`.
    method DecodeItem(data: seq<Byte>, tag: nat, p: nat, ghost item: Item) returns (ok: bool, next: nat, ghost read: Item)
      requires p <= |data|
      modifies this
      ensures p <= next <= |data|
      ensures ok ==> Tag(read) == tag && ReadsBody(data, p, read, next) && e == Take(old(e), read)
      ensures !ok ==> e == old(e) && forall x, n | Tag(x) == tag :: !ReadsBody(data, p, x, n)
      ensures tag == Tag(item) && ItemFits(item) && IsAt(data, p, |data|, Body(item)) ==>
                ok && e == Take(old(e), item) && next == p + |Body(item)|
    {
      hide Varint, IsAt, Prefixed, ReadsPrefixed, Reads64, ReadsLevel, ReadsFile;
      if tag == 5 || tag == 6 || tag == 7 {
        ok, next, read := DecodeOnLevel(data, tag, p, item);
        return;
      }
      read := item;
      match tag {
        case 1 =>
          var str;
          ok, str, next := GetLengthPrefixedSlice(data, p, |data|, StringIn(item));
          read := Comparator(str);
          if ok {
            e := e.(comparator := Some(str));
          }
        case 2 =>
          ok, next, read := DecodeNumber(data, p, tag, NumberIn(item));
        case 9 =>
          ok, next, read := DecodeNumber(data, p, tag, NumberIn(item));
        case 3 =>
          ok, next, read := DecodeNumber(data, p, tag, NumberIn(item));
        case 4 =>
          ok, next, read := DecodeNumber(data, p, tag, NumberIn(item));
        case _ =>
          ok, next := false, p;
      }
      if !ok {
        NoBody(data, p, tag);
      }
    }

    // The kinds of field that begin with a level.
    method DecodeOnLevel(data: seq<Byte>, tag: nat, p: nat, ghost item: Item) returns (ok: bool, next: nat, ghost read: Item)
      requires p <= |data| && (tag == 5 || tag == 6 || tag == 7)
      modifies this
      ensures p <= next <= |data|
      ensures ok ==> Tag(read) == tag && ReadsBody(data, p, read, next) && e == Take(old(e), read)
      ensures !ok ==> e == old(e) && forall x, n | Tag(x) == tag :: !ReadsBody(data, p, x, n)
      ensures tag == Tag(item) && ItemFits(item) && IsAt(data, p, |data|, Body(item)) ==>
                ok && e == Take(old(e), item) && next == p + |Body(item)|
    {
      hide Varint, IsAt, Prefixed, ReadsPrefixed, Reads64, ReadsLevel, ReadsFile;
      read := item;
      if tag == 7 {
        var l, f;
        ok, l, f, next := GetNewFile(data, p, LevelIn(item), FileIn(item));
        read := NewFile(l, f);
        if ok {
          e := e.(newFiles := e.newFiles + [(l, f)]);
        } else {
          NoFile(data, p);
        }
        return;
      }
      if IsAt(data, p, |data|, Body(item)) {
        BodyParts(data, p, item);
      }
      var level;
      ok, level, next := GetLevel(data, p, LevelIn(item));
      if !ok {
        NoBody(data, p, tag);
        return;
      }
      var at := next;
      if tag == 5 {
        var key;
        ok, key, next := GetLengthPrefixedSlice(data, at, |data|, StringIn(item));
        read := CompactPointer(level, key);
        if ok {
          e := e.(compactPointers := e.compactPointers + [(level, key)]);
        }
      } else {
        var number;
        ok, number, next := GetVarint64(data, at, |data|, NumberIn(item));
        read := DeletedFile(level, number);
        if ok {
          e := e.(deletedFiles := e.deletedFiles + {(level, number)});
        } else {
          next := at;
        }
      }
      if !ok {
        NoSecond(data, p, tag, level, at);
      }
    }

    method DecodeNumber(data: seq<Byte>, p: nat, tag: nat, ghost n: nat) returns (ok: bool, next: nat, ghost read: Item)
      requires p <= |data| && (tag == 2 || tag == 9 || tag == 3 || tag == 4)
      modifies this
      ensures p <= next <= |data|
      ensures ok ==> Tag(read) == tag && ReadsBody(data, p, read, next) && e == Take(old(e), read)
      ensures !ok ==> e == old(e) && forall x, m :: !Reads64(data, p, |data|, x, m)
      ensures n < LIMIT64 && IsAt(data, p, |data|, Varint(n)) ==> ok && next == p + |Varint(n)| && e == WithNumber(old(e), tag, n)
    {
      hide Varint, IsAt, Reads64;
      var number;
      ok, number, next := GetVarint64(data, p, |data|, n);
      read := if tag == 2 then LogNumber(number) else if tag == 9 then PrevLogNumber(number)
              else if tag == 3 then NextFileNumber(number) else LastSequence(number);
      if ok {
        e := WithNumber(e, tag, number);
      } else {
        next := p;
      }
    }

    // Field after field of the edit; the deleted files are in some order.
    method EncodeTo(dst: seq<Byte>) returns (r: seq<Byte>, ghost items: seq<Item>)
      requires Fits(e)
      ensures r == dst + AllBytes(items) && IsItemList(e, items)
    {
      hide AllBytes, ItemFits, PointerItems, DeletedItems, FileItems, AsSet;
      ghost var pointers, order;
      r, items := EncodeNumbers(dst);
      ghost var numbers := items;
      r, pointers := EncodePointers(r);
      BytesOfBoth(numbers, pointers);
      r, order := EncodeDeleted(r);
      BytesOfBoth(numbers + pointers, DeletedItems(order));
      r, items := EncodeFiles(r);
      BytesOfBoth(numbers + pointers + DeletedItems(order), items);
      items := numbers + pointers + DeletedItems(order) + items;
    }

    method EncodeNumbers(dst: seq<Byte>) returns (r: seq<Byte>, ghost items: seq<Item>)
      requires Fits(e)
      ensures r == dst + AllBytes(items) && items == NumberItems(e)
    {
      hide ItemBytes, ItemFits, AllBytes;
      NoBytes(dst);
      r, items := dst, [];
      ghost var a, b := if e.comparator.Some? then [Comparator(e.comparator.value)] else [], if e.logNumber.Some? then [LogNumber(e.logNumber.value)] else [];
      ghost var c, d := if e.prevLogNumber.Some? then [PrevLogNumber(e.prevLogNumber.value)] else [], if e.nextFileNumber.Some? then [NextFileNumber(e.nextFileNumber.value)] else [];
      if e.comparator.Some? {
        r, items := PutItem(r, Comparator(e.comparator.value), dst, items);
      }
      assert items == a;
      if e.logNumber.Some? {
        r, items := PutItem(r, LogNumber(e.logNumber.value), dst, items);
      }
      assert items == a + b;
      if e.prevLogNumber.Some? {
        r, items := PutItem(r, PrevLogNumber(e.prevLogNumber.value), dst, items);
      }
      assert items == a + b + c;
      if e.nextFileNumber.Some? {
        r, items := PutItem(r, NextFileNumber(e.nextFileNumber.value), dst, items);
      }
      assert items == a + b + c + d;
      if e.lastSequence.Some? {
        r, items := PutItem(r, LastSequence(e.lastSequence.value), dst, items);
      }
    }

    method EncodePointers(dst: seq<Byte>) returns (r: seq<Byte>, ghost items: seq<Item>)
      requires Fits(e)
      ensures r == dst + AllBytes(items) && items == PointerItems(e.compactPointers)
    {
      hide ItemBytes, ItemFits, AllBytes;
      NoBytes(dst);
      r, items := dst, [];
      for i := 0 to |e.compactPointers|
        invariant r == dst + AllBytes(items) && items == PointerItems(e.compactPointers[..i])
      {
        r, items := PutItem(r, CompactPointer(e.compactPointers[i].0, e.compactPointers[i].1), dst, items);
      }
    }

    method EncodeDeleted(dst: seq<Byte>) returns (r: seq<Byte>, ghost order: seq<(nat, nat)>)
      requires Fits(e)
      ensures r == dst + AllBytes(DeletedItems(order)) && AsSet(order) == e.deletedFiles
    {
      hide ItemBytes, ItemFits, AllBytes;
      NoBytes(dst);
      r, order := dst, [];
      assert DeletedItems(order) == [];
      var left := e.deletedFiles;
      while left != {}
        invariant r == dst + AllBytes(DeletedItems(order))
        invariant left <= e.deletedFiles && AsSet(order) == e.deletedFiles - left
      {
        var d :| d in left;
        ghost var items;
        r, items := PutItem(r, DeletedFile(d.0, d.1), dst, DeletedItems(order));
        ElementsOfBoth(order, d);
        order := order + [d];
        assert items == DeletedItems(order);
        left := left - {d};
      }
    }

    method EncodeFiles(dst: seq<Byte>) returns (r: seq<Byte>, ghost items: seq<Item>)
      requires Fits(e)
      ensures r == dst + AllBytes(items) && items == FileItems(e.newFiles)
    {
      hide ItemBytes, ItemFits, AllBytes;
      NoBytes(dst);
      r, items := dst, [];
      for i := 0 to |e.newFiles|
        invariant r == dst + AllBytes(items) && items == FileItems(e.newFiles[..i])
      {
        r, items := PutItem(r, NewFile(e.newFiles[i].0, e.newFiles[i].1), dst, items);
      }
    }

    // A tag and the field behind it. Expected, if anything: `item`.
    method DecodeField(src: seq<Byte>, p: nat, ghost item: Item) returns (some: bool, ok: bool, next: nat, ghost read: Item)
      requires p <= |src|
      modifies this
      ensures ok ==> some && p < next <= |src| && ReadsItem(src, p, read, next) && e == Take(old(e), read)
      ensures !ok ==> e == old(e) && forall x, n :: !ReadsItem(src, p, x, n)
      ensures some ==> p < |src|
      ensures ItemFits(item) && IsAt(src, p, |src|, ItemBytes(item)) ==> ok && e == Take(old(e), item) && next == p + |ItemBytes(item)|
    {
      hide Varint, ItemFits, Take, ReadsItem, Body, Tag, ReadsBody, IsAt;
      if IsAt(src, p, |src|, ItemBytes(item)) {
        PartsAt(src, p, |src|, Varint(Tag(item)), Body(item));
        assert Tag(item) < LIMIT32;
      }
      hide Reads32, ItemBytes;
      ok, read, next := false, item, p;
      var tag, after;
      some, tag, after := GetVarint32Ptr(src, p, |src|, Tag(item));
      if !some {
        NoTag(src, p);
        return;
      }
      ok, next, read := DecodeItem(src, tag, after, item);
      if ok {
        ItemIsRead(src, p, tag, after, read, next);
      } else {
        NoItem(src, p, tag, after);
      }
    }

    // Field after field, and nothing else. What was there before is dropped, but not the
    // compaction pointers.
    method DecodeFrom(src: seq<Byte>, ghost items: seq<Item>) returns (ok: bool, ghost read: seq<Item>, ghost end: nat)
      modifies this
      ensures ReadsItems(src, 0, read, end) && end <= |src| && e == TakeAll(Cleared(old(e)), read)
      ensures (ok <==> end == |src|) && (!ok ==> forall x, n :: !ReadsItem(src, end, x, n))
      ensures src == AllBytes(items) && (forall i | 0 <= i < |items| :: ItemFits(items[i])) ==> ok && e == TakeAll(Cleared(old(e)), items)
    {
      hide Varint, ItemFits, Take, ItemBytes, ReadsItem, ReadsItems, TakeAll, AllBytes, IsAt;
      ghost var expected := src == AllBytes(items) && forall i | 0 <= i < |items| :: ItemFits(items[i]);
      ghost var target := TakeAll(Cleared(e), items);
      ghost var left := items;
      e := Cleared(e);
      read, end := [], 0;
      var p, some := 0, true;
      ok := true;
      assert src[p..] == src;
      NothingToRead(src, 0);
      ghost var start := e;
      TakeNothing(start);
      while some && ok
        invariant p <= |src| && end == p && (!ok ==> p < |src|)
        invariant ReadsItems(src, 0, read, p) && e == TakeAll(start, read)
        invariant !(some && ok) ==> forall x, n :: !ReadsItem(src, p, x, n)
        invariant expected ==> ok && (some || left == []) && src[p..] == AllBytes(left) && target == TakeAll(e, left) && forall i | 0 <= i < |left| :: ItemFits(left[i])
        decreases |src| - p, some, ok
      {
        ghost var item := if left == [] then LogNumber(0) else left[0];
        if expected {
          NextItem(src, p, left);
          FirstTaken(e, left);
        }
        var next;
        ghost var found;
        some, ok, next, found := DecodeField(src, p, item);
        if ok {
          ReadsOneMore(src, 0, read, p, found, next);
          TakeOneMore(start, read, found);
          read, end, p := read + [found], next, next;
          left := if left == [] then [] else left[1..];
        } else {
          ok := !some;
        }
      }
      if expected {
        AllTaken(src, p, e, left);
      }
      if ok && p < |src| {
        ok := false;
      }
    }
  }

  function WithNumber(e: Edit, tag: nat, n: nat): Edit {
    if tag == 2 then e.(logNumber := Some(n))
    else if tag == 9 then e.(prevLogNumber := Some(n))
    else if tag == 3 then e.(nextFileNumber := Some(n))
    else e.(lastSequence := Some(n))
  }

  lemma NextItem(src: seq<Byte>, p: nat, left: seq<Item>)
    requires p <= |src| && src[p..] == AllBytes(left)
    ensures left == [] <==> p == |src|
    ensures left != [] ==> IsAt(src, p, |src|, ItemBytes(left[0])) && src[p+|ItemBytes(left[0])|..] == AllBytes(left[1..])
  {
    hide Body, Tag, Varint;
    if left != [] {
      var first, rest := ItemBytes(left[0]), AllBytes(left[1..]);
      assert src[p..] == first + rest && |first| > 0;
      assert src[p..p+|first|] == first;
      assert src[p+|first|..] == src[p..][|first|..] == rest;
    }
  }

  lemma FirstTaken(e: Edit, left: seq<Item>)
    ensures left != [] ==> TakeAll(e, left) == TakeAll(Take(e, left[0]), left[1..])
  {
    hide Take;
  }

  lemma AllTaken(src: seq<Byte>, p: nat, e: Edit, left: seq<Item>)
    requires left == [] && p <= |src| && src[p..] == AllBytes(left)
    ensures p == |src| && TakeAll(e, left) == e
  {
  }

  // ---- Encoding

  predicate Fits(e: Edit) {
    && (e.comparator.Some? ==> ItemFits(Comparator(e.comparator.value)))
    && (e.logNumber.Some? ==> ItemFits(LogNumber(e.logNumber.value)))
    && (e.prevLogNumber.Some? ==> ItemFits(PrevLogNumber(e.prevLogNumber.value)))
    && (e.nextFileNumber.Some? ==> ItemFits(NextFileNumber(e.nextFileNumber.value)))
    && (e.lastSequence.Some? ==> ItemFits(LastSequence(e.lastSequence.value)))
    && (forall i | 0 <= i < |e.compactPointers| :: ItemFits(CompactPointer(e.compactPointers[i].0, e.compactPointers[i].1)))
    && (forall d | d in e.deletedFiles :: ItemFits(DeletedFile(d.0, d.1)))
    && (forall i | 0 <= i < |e.newFiles| :: ItemFits(NewFile(e.newFiles[i].0, e.newFiles[i].1)))
  }

  ghost function PointerItems(ps: seq<(nat, seq<Byte>)>): seq<Item> {
    seq(|ps|, i requires 0 <= i < |ps| => CompactPointer(ps[i].0, ps[i].1))
  }

  ghost function DeletedItems(ds: seq<(nat, nat)>): seq<Item> {
    seq(|ds|, i requires 0 <= i < |ds| => DeletedFile(ds[i].0, ds[i].1))
  }

  ghost function FileItems(fs: seq<(nat, FileFields)>): seq<Item> {
    seq(|fs|, i requires 0 <= i < |fs| => NewFile(fs[i].0, fs[i].1))
  }

  ghost function NumberItems(e: Edit): seq<Item> {
    (if e.comparator.Some? then [Comparator(e.comparator.value)] else [])
    + (if e.logNumber.Some? then [LogNumber(e.logNumber.value)] else [])
    + (if e.prevLogNumber.Some? then [PrevLogNumber(e.prevLogNumber.value)] else [])
    + (if e.nextFileNumber.Some? then [NextFileNumber(e.nextFileNumber.value)] else [])
    + (if e.lastSequence.Some? then [LastSequence(e.lastSequence.value)] else [])
  }

  ghost function AsSet(ds: seq<(nat, nat)>): set<(nat, nat)> {
    set d | d in ds
  }

  // The fields of an edit, kind by kind.
  ghost predicate IsItemList(e: Edit, items: seq<Item>) {
    exists order ::
      && AsSet(order) == e.deletedFiles
      && items == NumberItems(e) + PointerItems(e.compactPointers) + DeletedItems(order) + FileItems(e.newFiles)
  }

  lemma ElementsOfBoth(order: seq<(nat, nat)>, d: (nat, nat))
    ensures AsSet(order + [d]) == AsSet(order) + {d}
  {
  }

  lemma NoBytes(dst: seq<Byte>)
    ensures dst == dst + AllBytes([])
  {
  }

  // One more field; `dst` and `items` are what the result is told in terms of.
  method PutItem(r: seq<Byte>, item: Item, ghost dst: seq<Byte>, ghost items: seq<Item>) returns (r': seq<Byte>, ghost items': seq<Item>)
    requires ItemFits(item) && r == dst + AllBytes(items)
    ensures items' == items + [item] && r' == dst + AllBytes(items')
  {
    hide Varint, Body, AllBytes;
    r' := PutVarint32(r, Tag(item));
    r' := PutBody(r', item);
    assert r' == r + ItemBytes(item);
    items' := items + [item];
    BytesOfBoth(items, [item]);
    OneItem(item);
  }

  method PutBody(r: seq<Byte>, item: Item) returns (r': seq<Byte>)
    requires ItemFits(item)
    ensures r' == r + Body(item)
  {
    hide Varint, Prefixed;
    match item {
      case Comparator(name) =>
        r' := PutLengthPrefixedSlice(r, name);
      case LogNumber(n) =>
        r' := PutVarint64(r, n);
      case PrevLogNumber(n) =>
        r' := PutVarint64(r, n);
      case NextFileNumber(n) =>
        r' := PutVarint64(r, n);
      case LastSequence(n) =>
        r' := PutVarint64(r, n);
      case CompactPointer(level, key) =>
        r' := PutVarint32(r, level);
        r' := PutLengthPrefixedSlice(r', key);
      case DeletedFile(level, n) =>
        r' := PutVarint32(r, level);
        r' := PutVarint64(r', n);
      case NewFile(level, f) =>
        r' := PutNewFile(r, level, f);
    }
  }

  method PutNewFile(r: seq<Byte>, level: nat, f: FileFields) returns (r': seq<Byte>)
    requires ItemFits(NewFile(level, f))
    ensures r' == r + Body(NewFile(level, f))
  {
    hide Varint, Prefixed;
    r' := PutVarint32(r, level);
    r' := PutVarint64(r', f.number);
    r' := PutVarint64(r', f.fileSize);
    r' := PutLengthPrefixedSlice(r', f.smallest);
    r' := PutLengthPrefixedSlice(r', f.largest);
  }

  lemma OneItem(item: Item)
    ensures AllBytes([item]) == ItemBytes(item)
  {
    hide ItemBytes;
  }

  lemma {:induction false} BytesOfBoth(a: seq<Item>, b: seq<Item>)
    ensures AllBytes(a + b) == AllBytes(a) + AllBytes(b)
  {
    hide ItemBytes;
    if a == [] {
      assert a + b == b;
    } else {
      assert (a + b)[1..] == a[1..] + b;
      BytesOfBoth(a[1..], b);
    }
  }

  // ---- The round trip

  lemma {:induction false} TakeBoth(e: Edit, a: seq<Item>, b: seq<Item>)
    ensures TakeAll(e, a + b) == TakeAll(TakeAll(e, a), b)
    decreases |a|
  {
    hide Take;
    if a == [] {
      assert a + b == b;
    } else {
      assert (a + b)[1..] == a[1..] + b;
      TakeBoth(Take(e, a[0]), a[1..], b);
    }
  }

  lemma {:induction false} TakePointers(e: Edit, ps: seq<(nat, seq<Byte>)>)
    ensures TakeAll(e, PointerItems(ps)) == e.(compactPointers := e.compactPointers + ps)
    decreases |ps|
  {
    if ps == [] {
      assert e.compactPointers + ps == e.compactPointers;
    } else {
      assert PointerItems(ps)[1..] == PointerItems(ps[1..]);
      TakePointers(Take(e, PointerItems(ps)[0]), ps[1..]);
      assert (e.compactPointers + [ps[0]]) + ps[1..] == e.compactPointers + ps;
    }
  }

  lemma {:induction false} TakeDeleted(e: Edit, ds: seq<(nat, nat)>)
    ensures TakeAll(e, DeletedItems(ds)) == e.(deletedFiles := e.deletedFiles + AsSet(ds))
    decreases |ds|
  {
    if ds == [] {
      assert e.deletedFiles + AsSet(ds) == e.deletedFiles;
    } else {
      assert DeletedItems(ds)[1..] == DeletedItems(ds[1..]);
      TakeDeleted(Take(e, DeletedItems(ds)[0]), ds[1..]);
      assert ds == [ds[0]] + ds[1..];
      assert (e.deletedFiles + {ds[0]}) + AsSet(ds[1..]) == e.deletedFiles + AsSet(ds);
    }
  }

  lemma {:induction false} TakeFiles(e: Edit, fs: seq<(nat, FileFields)>)
    ensures TakeAll(e, FileItems(fs)) == e.(newFiles := e.newFiles + fs)
    decreases |fs|
  {
    if fs == [] {
      assert e.newFiles + fs == e.newFiles;
    } else {
      assert FileItems(fs)[1..] == FileItems(fs[1..]);
      TakeFiles(Take(e, FileItems(fs)[0]), fs[1..]);
      assert (e.newFiles + [fs[0]]) + fs[1..] == e.newFiles + fs;
    }
  }

  lemma NumbersRestore(e: Edit, x: Edit)
    ensures TakeAll(Cleared(x), NumberItems(e)) == e.(compactPointers := x.compactPointers, deletedFiles := {}, newFiles := [])
  {
    var c := if e.comparator.Some? then [Comparator(e.comparator.value)] else [];
    var l := if e.logNumber.Some? then [LogNumber(e.logNumber.value)] else [];
    var p := if e.prevLogNumber.Some? then [PrevLogNumber(e.prevLogNumber.value)] else [];
    var n := if e.nextFileNumber.Some? then [NextFileNumber(e.nextFileNumber.value)] else [];
    var s := if e.lastSequence.Some? then [LastSequence(e.lastSequence.value)] else [];
    var x0 := Cleared(x);
    TakeBoth(x0, c + l + p + n, s);
    TakeBoth(x0, c + l + p, n);
    TakeBoth(x0, c + l, p);
    TakeBoth(x0, c, l);
    var x1 := x0.(comparator := e.comparator);
    TakeOne(x0, c, x1);
    var x2 := x1.(logNumber := e.logNumber);
    TakeOne(x1, l, x2);
    var x3 := x2.(prevLogNumber := e.prevLogNumber);
    TakeOne(x2, p, x3);
    var x4 := x3.(nextFileNumber := e.nextFileNumber);
    TakeOne(x3, n, x4);
    TakeOne(x4, s, x4.(lastSequence := e.lastSequence));
  }

  lemma TakeOne(x: Edit, items: seq<Item>, y: Edit)
    requires |items| <= 1 && y == if items == [] then x else Take(x, items[0])
    ensures TakeAll(x, items) == y
  {
  }

  // Read into an edit that was used before, the fields come back, after the compaction pointers
  // that were there already.
  lemma ItemsRestore(e: Edit, x: Edit, items: seq<Item>)
    requires Fits(e) && IsItemList(e, items)
    ensures TakeAll(Cleared(x), items) == e.(compactPointers := x.compactPointers + e.compactPointers)
    ensures forall i | 0 <= i < |items| :: ItemFits(items[i])
  {
    hide Take, TakeAll, NumberItems, PointerItems, DeletedItems, FileItems, AsSet, ItemFits;
    var order :| AsSet(order) == e.deletedFiles && items == NumberItems(e) + PointerItems(e.compactPointers) + DeletedItems(order) + FileItems(e.newFiles);
    var numbers, pointers, deleted, files := NumberItems(e), PointerItems(e.compactPointers), DeletedItems(order), FileItems(e.newFiles);
    TakeBoth(Cleared(x), numbers + pointers + deleted, files);
    TakeBoth(Cleared(x), numbers + pointers, deleted);
    TakeBoth(Cleared(x), numbers, pointers);
    NumbersRestore(e, x);
    var e1 := TakeAll(Cleared(x), numbers);
    TakePointers(e1, e.compactPointers);
    var e2 := TakeAll(e1, pointers);
    TakeDeleted(e2, order);
    TakeFiles(TakeAll(e2, deleted), e.newFiles);
    AllItemsFit(e, order);
  }

  lemma AllItemsFit(e: Edit, order: seq<(nat, nat)>)
    requires Fits(e) && AsSet(order) == e.deletedFiles
    ensures var items := NumberItems(e) + PointerItems(e.compactPointers) + DeletedItems(order) + FileItems(e.newFiles);
            forall i | 0 <= i < |items| :: ItemFits(items[i])
  {
    hide ItemFits;
    forall i | 0 <= i < |order|
      ensures ItemFits(DeletedItems(order)[i])
    {
      assert order[i] in AsSet(order);
    }
  }

  // Encoding and decoding.
  method RoundTrip(edit: VersionEdit, into: VersionEdit) returns (ok: bool)
    requires Fits(edit.e) && edit != into
    modifies into
    ensures ok && into.e == edit.e.(compactPointers := old(into.e.compactPointers) + edit.e.compactPointers)
    ensures old(into.e.compactPointers) == [] ==> into.e == edit.e
  {
    hide AllBytes, TakeAll, IsItemList, ItemFits, Fits;
    var bytes, items := edit.EncodeTo([]);
    assert bytes == AllBytes(items);
    ItemsRestore(edit.e, into.e, items);
    ghost var read, end;
    ok, read, end := into.DecodeFrom(bytes, items);
  }
}
