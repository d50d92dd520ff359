// Reading messages: tags in any order, values by kind, and what must be there at the end.

module PbDecode {
  import opened Bytes
  import opened Coding
  import opened PbFormat
  import opened PbRecords
  import PbEncode

  // ---- Room

  // Every number is in the range of its kind, every string and every repeated field in its room.
  ghost predicate InBounds(k: Kind, v: Value)
    decreases v
  {
    match v
    case Number(n) => NumberFits(k, n)
    case Blob(b) => BlobInBounds(k, b)
    case Message(slots) => k.Submessage? && |slots| == |k.fields| && forall i | 0 <= i < |slots| :: SlotInBounds(k.fields[i], slots[i])
  }

  predicate BlobInBounds(k: Kind, b: seq<Byte>) {
    match k
    case Binary(max) => |b| <= max
    case Text(max) => |b| + 1 <= max || b == []
    case FixedBinary(size) => |b| == size
    case _ => false
  }

  ghost predicate SlotInBounds(f: Field, s: Slot)
    decreases s
  {
    match s
    case Many(vs) => f.rule.Repeated? && |vs| <= f.rule.max && forall i | 0 <= i < |vs| :: InBounds(f.kind, vs[i])
    case One(v) => InBounds(f.kind, v)
    case Maybe(_, v) => InBounds(f.kind, v)
    case Choice(_, v) => InBounds(f.kind, v)
  }

  ghost predicate AllInBounds(fields: seq<Field>, slots: seq<Slot>)
    requires |fields| == |slots|
  {
    forall i | 0 <= i < |slots| :: SlotInBounds(fields[i], slots[i])
  }

  lemma {:induction false} ZeroInBounds(k: Kind)
    requires KindOk(k)
    ensures InBounds(k, Zero(k))
    decreases k
  {
    if k.Submessage? {
      forall i | 0 <= i < |k.fields|
        ensures SlotInBounds(k.fields[i], ZeroSlot(k.fields[i]))
      {
        ZeroInBounds(k.fields[i].kind);
      }
    }
  }

  // A value, in its place.
  lemma FilledInBounds(k: Kind, slots: seq<Slot>, i: nat, v: Value)
    requires KindOk(k) && k.Submessage? && i < |k.fields| == |slots| && AllInBounds(k.fields, slots) && InBounds(k.fields[i].kind, v)
    requires k.fields[i].rule.Repeated? ==> |ValuesIn(slots[i])| < k.fields[i].rule.max
    ensures AllInBounds(k.fields, Filled(k.fields, slots, i, v))
  {
    hide InBounds, Zero;
    var f, slots' := k.fields[i], Filled(k.fields, slots, i, v);
    assert SlotInBounds(f, slots[i]);
    forall j | 0 <= j < |slots'|
      ensures SlotInBounds(k.fields[j], slots'[j])
    {
      ZeroInBounds(k.fields[j].kind);
    }
  }

  lemma StartInBounds(k: Kind, slots: seq<Slot>, i: nat)
    requires KindOk(k) && k.Submessage? && i < |k.fields| == |slots| && AllInBounds(k.fields, slots)
    ensures KindOk(k.fields[i].kind) && InBounds(k.fields[i].kind, Zero(k.fields[i].kind))
    ensures InBounds(k.fields[i].kind, StartIn(k.fields[i], slots[i]))
  {
    assert SlotInBounds(k.fields[i], slots[i]);
    hide Zero;
    ZeroInBounds(k.fields[i].kind);
  }

  lemma BegunInBounds(fields: seq<Field>, st: State, i: nat)
    requires i < |fields| == |st.slots| && AllInBounds(fields, st.slots)
    ensures AllInBounds(fields, Begun(fields, st, i).slots)
  {
    hide InBounds;
  }

  // ---- Numbers

  // A byte after the fifth that adds nothing: it is empty, or part of the sign of a negative number.
  predicate IsFiller(value: nat, i: nat, b: Byte) {
    NumberOf(b) % 128 == 0 || (value >= 0x8000_0000 && NumberOf(b) == if i < 9 then 0xff else 0x01)
  }

  // The bytes of a number stand for one of 32 bits: in five bytes, or with fillers after them.
  ghost predicate Fits32(b: seq<Byte>) {
    if |b| <= 5 then VarintValue(b) < LIMIT32
    else forall i | 5 <= i < |b| :: IsFiller(VarintValue(b) % LIMIT32, i, b[i])
  }

  lemma ValueBeyond32(b: seq<Byte>, x: Byte)
    requires |b| >= 5
    ensures VarintValue(b + [x]) % LIMIT32 == VarintValue(b) % LIMIT32
  {
    hide NumberOf, VarintValue, Power128;
    ValueOfOneMore(b, x);
    var q := PowerBeyond32(|b|);
    NoChange(VarintValue(b), q, NumberOf(x) % 128);
  }

  lemma {:induction false} PowerBeyond32(n: nat) returns (q: nat)
    requires n >= 5
    ensures Power128(n) == LIMIT32 * q
  {
    if n == 5 {
      assert Power128(3) == 0x20_0000;
      q := 8;
    } else {
      q := PowerBeyond32(n - 1);
      q := 128 * q;
    }
  }

  lemma NoChange(v: nat, q: nat, y: nat)
    ensures (v + (LIMIT32 * q) * y) % LIMIT32 == v % LIMIT32
  {
    var a, r := v / LIMIT32, v % LIMIT32;
    assert v + (LIMIT32 * q) * y == r + LIMIT32 * (a + q * y);
    Overflows32(r, a + q * y);
  }

  // One more byte of a number of 32 bits; the fifth has four that fit.
  lemma OneMore32(b: seq<Byte>, value: nat, x: Byte)
    requires 1 <= |b| && value == VarintValue(b) % LIMIT32 && (|b| <= 4 ==> value == VarintValue(b) < Shifted(1, 7 * |b|))
    ensures |b| <= 4 ==>
              var low := if |b| == 4 then NumberOf(x) % 16 else NumberOf(x) % 128;
              && VarintValue(b + [x]) % LIMIT32 == value + Shifted(low, 7 * |b|) < LIMIT32
              && (|b| < 4 ==> VarintValue(b + [x]) == value + Shifted(low, 7 * |b|) < Shifted(1, 7 * |b| + 7))
              && (|b| == 4 ==> (VarintValue(b + [x]) < LIMIT32 <==> NumberOf(x) % 128 < 16))
    ensures |b| >= 5 ==> VarintValue(b + [x]) % LIMIT32 == value
  {
    hide NumberOf, VarintValue, Shifted;
    if |b| >= 5 {
      ValueBeyond32(b, x);
    } else {
      var low := if |b| == 4 then NumberOf(x) % 16 else NumberOf(x) % 128;
      ShiftBound(value, low, 7 * |b|);
      ValueGrows32(b, value, x);
      if |b| == 4 {
        FifthByte(b, value, x);
      } else {
        Below32(value + Shifted(low, 7 * |b|));
      }
    }
  }

  lemma Below32(v: nat)
    ensures v < LIMIT32 ==> v % LIMIT32 == v
  {
  }

  lemma FifthByte(b: seq<Byte>, value: nat, x: Byte)
    requires |b| == 4 && value == VarintValue(b) < Shifted(1, 28)
    ensures VarintValue(b + [x]) < LIMIT32 <==> NumberOf(x) % 128 < 16
  {
    hide NumberOf, VarintValue;
    ValueOfOneMore(b, x);
    assert Power128(3) == 0x20_0000 && Power128(4) == 0x1000_0000;
  }

  // A number of 32 bits stands at `p` and ends at `next`, within the 37 bytes for which the position
  // of a bit is counted.
  ghost predicate ReadsVarint32(data: seq<Byte>, p: nat, limit: nat, v: nat, next: nat) {
    && p < next <= limit <= |data| && next - p <= 37
    && EndsVarint(data[p..next]) && Fits32(data[p..next]) && v == VarintValue(data[p..next]) % LIMIT32
  }

  lemma ReadsVarint32Once(data: seq<Byte>, p: nat, limit: nat)
    ensures forall v, n, x, m | ReadsVarint32(data, p, limit, v, n) && ReadsVarint32(data, p, limit, x, m) :: v == x && n == m
  {
    hide EndsVarint, VarintValue, Fits32;
    forall v, n, x, m | ReadsVarint32(data, p, limit, v, n) && ReadsVarint32(data, p, limit, x, m)
      ensures v == x && n == m
    {
      EndsOnce(data, p, n, m);
    }
  }

  // A number of 32 bits, of at most five bytes or with its sign extended. Expected, if anything: `v`.
  method DecodeVarint32(data: seq<Byte>, p: nat, limit: nat, ghost v: nat) returns (ok: bool, value: nat, next: nat)
    requires p <= limit <= |data|
    ensures ok ==> p < next <= limit && value < LIMIT32
    ensures if ok then ReadsVarint32(data, p, limit, value, next) else forall x, n :: !ReadsVarint32(data, p, limit, x, n)
    ensures p < limit && NumberOf(data[p]) < 128 ==> ok && value == NumberOf(data[p]) && next == p + 1
    ensures v < LIMIT32 && IsAt(data, p, limit, Varint(v)) ==> ok && value == v && next == p + |Varint(v)|
  {
    hide NumberOf, VarintValue, EndsVarint, Fits32, IsFiller, Shifted, Varint, IsAt;
    ok, value, next := false, 0, p;
    ExpectVarint(data, p, limit, v);
    if p == limit {
      return;
    }
    var byte := NumberOf(data[p]);
    FirstByte(data, p);
    next := p + 1;
    if byte < 128 {
      NumberEnds(data, p, next, limit, byte);
      return true, byte, next;
    }
    value := byte % 128;
    var bitPosition := 7;
    while byte >= 128
      invariant p < next <= limit && bitPosition == 7 * (next - p) <= 259 && byte == NumberOf(data[next-1])
      invariant forall j | p <= j < next - 1 :: NumberOf(data[j]) >= 128
      invariant value == VarintValue(data[p..next]) % LIMIT32
      invariant bitPosition <= 28 ==> value == VarintValue(data[p..next]) < Shifted(1, bitPosition)
      invariant bitPosition == 35 ==> (VarintValue(data[p..next]) < LIMIT32 <==> byte % 128 < 16)
      invariant forall i | 5 <= i < next - p :: IsFiller(value, i, data[p..next][i])
      decreases limit - next
    {
      ReadFurther(data, p, next, limit);
      if next == limit || bitPosition == 259 {
        return false, 0, p;
      }
      byte := NumberOf(data[next]);
      OneMore32(data[p..next], value, data[next]);
      next := next + 1;
      if bitPosition >= 32 {
        FillerIs(value, next - 1 - p, data[next-1]);
        var signExtension := if bitPosition < 63 then 0xff else 0x01;
        if byte % 128 != 0 && (value < 0x8000_0000 || byte != signExtension) {
          NotFiller(data, p, next, limit, value);
          return false, 0, p;
        }
      } else {
        var low := if bitPosition == 28 then byte % 16 else byte % 128;
        value := value + Shifted(low, bitPosition);
      }
      bitPosition := bitPosition + 7;
    }
    NumberEnds(data, p, next, limit, value);
    if bitPosition == 35 && byte % 128 >= 16 {
      return false, 0, p;
    }
    ok := true;
  }

  // A canonical number is the one that is read.
  lemma ExpectVarint(data: seq<Byte>, p: nat, limit: nat, v: nat)
    ensures v < LIMIT32 && IsAt(data, p, limit, Varint(v)) ==>
              var e := p + |Varint(v)|;
              p < e <= limit && |Varint(v)| <= 5 && EndsVarint(data[p..e]) && Fits32(data[p..e]) && VarintValue(data[p..e]) == v
  {
    hide Varint;
    VarintIsItsValue(v);
    if v < LIMIT32 {
      VarintLength(v);
    }
  }

  lemma FirstByte(data: seq<Byte>, p: nat)
    requires p < |data|
    ensures VarintValue(data[p..p+1]) == NumberOf(data[p]) % 128 < 128 == Shifted(1, 7)
    ensures NumberOf(data[p]) < 128 ==> NumberOf(data[p]) % 128 == NumberOf(data[p])
  {
    hide NumberOf;
    assert data[p..p+1] == [data[p]] && [data[p]][1..] == [];
  }

  // The number ends here, and nowhere else.
  lemma NumberEnds(data: seq<Byte>, p: nat, next: nat, limit: nat, value: nat)
    requires p < next <= limit <= |data| && NumberOf(data[next-1]) < 128 && forall j | p <= j < next - 1 :: NumberOf(data[j]) >= 128
    requires value == VarintValue(data[p..next]) % LIMIT32
    requires forall i | 5 <= i < next - p :: IsFiller(value, i, data[p..next][i])
    ensures EndsVarint(data[p..next]) && forall e | p < e <= limit && EndsVarint(data[p..e]) :: e == next
    ensures next - p > 5 ==> Fits32(data[p..next])
    ensures next - p <= 5 ==> (Fits32(data[p..next]) <==> VarintValue(data[p..next]) < LIMIT32)
    ensures next - p < 5 ==> Fits32(data[p..next])
  {
    hide NumberOf, IsFiller;
    forall e | p < e <= limit && EndsVarint(data[p..e])
      ensures e == next
    {
      assert data[p..e][e-1-p] == data[e-1];
      if next < e {
        EndsNoLater(data, p, next, e);
      }
    }
    if next - p < 5 {
      hide VarintValue;
      ShortIsSmall(data[p..next]);
    }
  }

  lemma EndsNoLater(data: seq<Byte>, p: nat, next: nat, e: nat)
    requires p < next < e <= |data| && NumberOf(data[next-1]) < 128
    ensures !EndsVarint(data[p..e])
  {
    hide NumberOf;
    assert data[p..e][next-1-p] == data[next-1];
  }

  lemma ShortIsSmall(b: seq<Byte>)
    requires |b| <= 4
    ensures VarintValue(b) < LIMIT32
  {
    BelowPower(b);
    assert Power128(3) == 0x20_0000 && Power128(4) == 0x1000_0000;
  }

  lemma {:induction false} BelowPower(b: seq<Byte>)
    ensures VarintValue(b) < Power128(|b|)
  {
    hide NumberOf;
    if b != [] {
      BelowPower(b[1..]);
    }
  }

  // So far no byte ends the number.
  lemma ReadFurther(data: seq<Byte>, p: nat, next: nat, limit: nat)
    requires p < next <= limit <= |data| && forall j | p <= j < next :: NumberOf(data[j]) >= 128
    ensures forall e | p < e <= limit && EndsVarint(data[p..e]) :: next < e
    ensures next < limit ==> data[p..next+1] == data[p..next] + [data[next]]
  {
    hide NumberOf;
    forall e | p < e <= limit && EndsVarint(data[p..e])
      ensures next < e
    {
      assert data[p..e][e-1-p] == data[e-1];
    }
  }

  lemma FillerIs(value: nat, i: nat, b: Byte)
    ensures IsFiller(value, i, b) <==> NumberOf(b) % 128 == 0 || (value >= 0x8000_0000 && NumberOf(b) == if i < 9 then 0xff else 0x01)
  {
  }

  // A byte that is no filler keeps the number from being one of 32 bits, however it ends.
  lemma NotFiller(data: seq<Byte>, p: nat, next: nat, limit: nat, value: nat)
    requires p + 6 <= next <= limit <= |data| && value == VarintValue(data[p..next]) % LIMIT32
    requires !IsFiller(value, next - 1 - p, data[next-1])
    ensures forall e | next <= e <= limit :: !Fits32(data[p..e])
  {
    hide NumberOf, IsFiller;
    forall e | next <= e <= limit
      ensures !Fits32(data[p..e])
    {
      SameLowBits(data, p, next, e);
      assert data[p..e][next-1-p] == data[next-1];
    }
  }

  lemma {:induction false} SameLowBits(data: seq<Byte>, p: nat, next: nat, e: nat)
    requires p + 5 <= next <= e <= |data|
    ensures VarintValue(data[p..e]) % LIMIT32 == VarintValue(data[p..next]) % LIMIT32
    decreases e
  {
    hide VarintValue, NumberOf;
    if next < e {
      SameLowBits(data, p, next, e - 1);
      ValueBeyond32(data[p..e-1], data[e-1]);
      assert data[p..e] == data[p..e-1] + [data[e-1]];
    }
  }

  // Bytes in place.
  lemma WhereItIs(data: seq<Byte>, p: nat, limit: nat, code: seq<Byte>)
    requires IsAt(data, p, limit, code)
    ensures p + |code| <= limit <= |data| && data[p..p+|code|] == code
  {
  }

  // The 64-bit number `value` as a signed one.
  function AsSigned64(value: nat): int {
    if value < LIMIT64 / 2 then value else value - LIMIT64
  }

  // Its low 32 bits as a signed number.
  function AsSigned32(value: nat): int {
    var low := value % LIMIT32;
    if low < LIMIT32 / 2 then low else low - LIMIT32
  }

  function UnZigZagged(value: nat): int {
    var half: int := value / 2;
    if value % 2 == 1 then -half - 1 else half
  }

  lemma SignedBack(size: nat, n: int)
    requires SizeOk(size) && -(Range(size) / 2) <= n < Range(size) / 2
    ensures AsSigned64(n % LIMIT64) == n
    ensures size != 8 ==> AsSigned32(n % LIMIT64) == n
  {
    Modulo64(n);
    if size != 8 {
      Modulo32(n);
    }
  }

  lemma Modulo64(n: int)
    requires 0 <= n + LIMIT64 && n < LIMIT64
    ensures n % LIMIT64 == if n < 0 then n + LIMIT64 else n
  {
  }

  lemma Modulo32(n: int)
    requires 0 <= n + LIMIT32 && n < LIMIT32
    ensures n % LIMIT64 % LIMIT32 == if n < 0 then n + LIMIT32 else n
  {
    Modulo64(n);
    if n < 0 {
      assert n + LIMIT64 == (LIMIT32 - 1) * LIMIT32 + (n + LIMIT32);
    }
  }

  // A number of this kind stands at `p` and ends at `next`.
  ghost predicate ReadsNumber(data: seq<Byte>, p: nat, limit: nat, k: Kind, m: int, next: nat) {
    match k
    case Bool => exists v :: ReadsVarint32(data, p, limit, v, next) && m == if v != 0 then 1 else 0
    case Word32 => next == p + 4 && next <= limit <= |data| && m == FixedValue(data[p..next])
    case Word64 => next == p + 8 && next <= limit <= |data| && m == Fixed64Value(data[p..next])
    case _ => NumberFits(k, m) && exists v :: Reads64(data, p, limit, v, next) && m == FromWire(k, v)
  }

  // A number of this kind, and none that does not fit. Expected, if anything: `n`.
  method DecodeNumber(data: seq<Byte>, p: nat, limit: nat, k: Kind, ghost n: int) returns (ok: bool, m: int, next: nat)
    requires p <= limit <= |data| && KindOk(k) && Packable(k)
    ensures ok ==> p < next <= limit && NumberFits(k, m)
    ensures if ok then ReadsNumber(data, p, limit, k, m, next) else forall x, e :: !ReadsNumber(data, p, limit, k, x, e)
    ensures NumberFits(k, n) && IsAt(data, p, limit, NumberBytes(k, n)) ==> ok && m == n && next == p + |NumberBytes(k, n)|
  {
    hide Varint, IsAt, Fixed32, Fixed64, ReadsVarint32, Reads64, FixedValue, Fixed64Value, FromWire;
    if k.Bool? {
      var value;
      ok, value, next := DecodeVarint32(data, p, limit, n % LIMIT64);
      m := if value != 0 then 1 else 0;
    } else if k.Word32? {
      ok, m, next := DecodeWord32(data, p, limit, n % LIMIT32);
    } else if k.Word64? {
      ok, m, next := DecodeWord64(data, p, limit, n % LIMIT64);
    } else {
      ok, m, next := DecodeSized(data, p, limit, k, n);
    }
  }

  method DecodeWord32(data: seq<Byte>, p: nat, limit: nat, ghost n: nat) returns (ok: bool, m: int, next: nat)
    requires p <= limit <= |data| && n < LIMIT32
    ensures ok ==> p < next <= limit && 0 <= m < LIMIT32
    ensures (ok <==> p + 4 <= limit) && (ok ==> next == p + 4 && m == FixedValue(data[p..next]))
    ensures IsAt(data, p, limit, Fixed32(n)) ==> ok && m == n && next == p + |Fixed32(n)|
  {
    hide IsAt, Fixed32, FixedValue;
    FixedIsFour(n);
    FixedRoundTrip(n);
    if IsAt(data, p, limit, Fixed32(n)) {
      WhereItIs(data, p, limit, Fixed32(n));
    }
    if limit - p < 4 {
      return false, 0, p;
    }
    FixedBack(data[p..p+4]);
    return true, FixedValue(data[p..p+4]), p + 4;
  }

  method DecodeWord64(data: seq<Byte>, p: nat, limit: nat, ghost n: nat) returns (ok: bool, m: int, next: nat)
    requires p <= limit <= |data| && n < LIMIT64
    ensures ok ==> p < next <= limit && 0 <= m < LIMIT64
    ensures (ok <==> p + 8 <= limit) && (ok ==> next == p + 8 && m == Fixed64Value(data[p..next]))
    ensures IsAt(data, p, limit, Fixed64(n)) ==> ok && m == n && next == p + |Fixed64(n)|
  {
    hide IsAt, Fixed64, Fixed64Value;
    Fixed64RoundTrip(n);
    if IsAt(data, p, limit, Fixed64(n)) {
      WhereItIs(data, p, limit, Fixed64(n));
    }
    if limit - p < 8 {
      return false, 0, p;
    }
    Fixed64Bound(data[p..p+8]);
    return true, Fixed64Value(data[p..p+8]), p + 8;
  }

  method DecodeSized(data: seq<Byte>, p: nat, limit: nat, k: Kind, ghost n: int) returns (ok: bool, m: int, next: nat)
    requires p <= limit <= |data| && KindOk(k) && (k.Signed? || k.Unsigned? || k.ZigZag?)
    ensures ok ==> p < next <= limit && NumberFits(k, m)
    ensures if ok then ReadsNumber(data, p, limit, k, m, next) else forall x, e :: !ReadsNumber(data, p, limit, k, x, e)
    ensures NumberFits(k, n) && IsAt(data, p, limit, NumberBytes(k, n)) ==> ok && m == n && next == p + |NumberBytes(k, n)|
  {
    hide Varint, IsAt, WireNumber, FromWire, NumberFits, Reads64;
    ReadsOnce(data, p, limit);
    if NumberFits(k, n) {
      WireNumberBack(k, n);
    }
    var value;
    ok, value, next := GetVarint64(data, p, limit, WireNumber(k, n));
    if !ok {
      return false, 0, p;
    }
    m := FromWire(k, value);
    ok := NumberFits(k, m);
  }

  // A number as 64 bits, and back.
  function WireNumber(k: Kind, n: int): nat {
    if k.ZigZag? then ZigZagged(n) else n % LIMIT64
  }

  function FromWire(k: Kind, value: nat): int {
    if k.Unsigned? then value
    else if k.ZigZag? then UnZigZagged(value)
    else if k.Signed? && k.size == 8 then AsSigned64(value)
    else AsSigned32(value)
  }

  lemma WireNumberBack(k: Kind, n: int)
    requires KindOk(k) && (k.Signed? || k.Unsigned? || k.ZigZag?) && NumberFits(k, n)
    ensures WireNumber(k, n) < LIMIT64 && FromWire(k, WireNumber(k, n)) == n
    ensures NumberBytes(k, n) == Varint(WireNumber(k, n))
  {
    hide Varint, AsSigned64, AsSigned32;
    if k.Signed? {
      SignedBack(k.size, n);
    }
  }

  lemma Fixed64Bound(b: seq<Byte>)
    requires |b| == 8
    ensures Fixed64Value(b) < LIMIT64
  {
    hide FixedValue;
    FixedBack(b[..4]);
    FixedBack(b[4..]);
  }

  // ---- Strings

  // A length stands at `p`, and as much after it, from `begin` to `end`.
  ghost predicate ReadsLength(data: seq<Byte>, p: nat, limit: nat, begin: nat, end: nat) {
    begin <= end <= limit && ReadsVarint32(data, p, limit, end - begin, begin)
  }

  // Where a length and as much after it stand. Expected, if anything: `s`.
  method MakeSubstream(data: seq<Byte>, p: nat, limit: nat, ghost s: seq<Byte>) returns (ok: bool, begin: nat, end: nat)
    requires p <= limit <= |data|
    ensures ok ==> p < begin <= end <= limit && end - begin < LIMIT32
    ensures if ok then ReadsLength(data, p, limit, begin, end) else forall b, e :: !ReadsLength(data, p, limit, b, e)
    ensures |s| < LIMIT32 && IsAt(data, p, limit, Prefixed(s)) ==>
              ok && end == p + |Prefixed(s)| && end - begin == |s| && data[begin..end] == s
  {
    hide Varint, IsAt, ReadsVarint32;
    ReadsVarint32Once(data, p, limit);
    if IsAt(data, p, limit, Prefixed(s)) {
      PartsAt(data, p, limit, Varint(|s|), s);
      WhereItIs(data, p + |Varint(|s|)|, limit, s);
    }
    var size;
    ok, size, begin := DecodeVarint32(data, p, limit, |s|);
    if !ok || limit - begin < size {
      return false, p, p;
    }
    end := begin + size;
  }

  // A string of this kind stands at `p` behind its length and ends at `next`: bytes with enough room,
  // text with one byte more, and a fixed number of bytes in full, or none of them for zeros.
  ghost predicate ReadsBlob(data: seq<Byte>, p: nat, limit: nat, k: Kind, blob: seq<Byte>, next: nat) {
    limit <= |data| && exists begin: nat :: ReadsLength(data, p, limit, begin, next) && IsBlob(k, data[begin..next], blob)
  }

  ghost predicate IsBlob(k: Kind, read: seq<Byte>, blob: seq<Byte>) {
    match k
    case Binary(max) => blob == read && |read| <= max
    case Text(max) => blob == read && |read| < max
    case FixedBinary(size) => if read == [] then blob == seq(size, _ => 0) else blob == read && |read| == size
    case _ => false
  }

  lemma ReadsLengthOnce(data: seq<Byte>, p: nat, limit: nat, begin: nat, end: nat)
    requires ReadsLength(data, p, limit, begin, end)
    ensures forall b, e | ReadsLength(data, p, limit, b, e) :: b == begin && e == end
  {
    hide ReadsVarint32;
    ReadsVarint32Once(data, p, limit);
  }

  method DecodeBlob(data: seq<Byte>, p: nat, limit: nat, k: Kind, ghost b: seq<Byte>) returns (ok: bool, blob: seq<Byte>, next: nat)
    requires p <= limit <= |data| && KindOk(k) && !Packable(k) && !k.Submessage?
    ensures ok ==> p < next <= limit && BlobInBounds(k, blob)
    ensures if ok then ReadsBlob(data, p, limit, k, blob, next) else forall b, n :: !ReadsBlob(data, p, limit, k, b, n)
    ensures |b| < LIMIT32 && BlobFits(k, b) && IsAt(data, p, limit, Prefixed(b)) ==> ok && blob == b && next == p + |Prefixed(b)|
  {
    hide IsAt, Prefixed, ReadsLength;
    var begin, end;
    blob, next := [], p;
    ok, begin, end := MakeSubstream(data, p, limit, b);
    if !ok {
      return;
    }
    ReadsLengthOnce(data, p, limit, begin, end);
    next := end;
    if k.FixedBinary? && begin == end {
      blob := seq(k.size, _ => 0);
      return;
    }
    ok := if k.FixedBinary? then end - begin == k.size else if k.Text? then end - begin + 1 <= k.max else k.Binary? && end - begin <= k.max;
    blob := data[begin..end];
  }

  // ---- Tags and fields

  // A tag with its wire type stands at `p`; zero is none.
  ghost predicate ReadsTag(data: seq<Byte>, p: nat, limit: nat, tag: nat, wireType: nat, next: nat) {
    wireType < 8 && tag * 8 + wireType != 0 && ReadsVarint32(data, p, limit, tag * 8 + wireType, next)
  }

  lemma ReadsTagOnce(data: seq<Byte>, p: nat, limit: nat, v: nat, next: nat)
    requires ReadsVarint32(data, p, limit, v, next)
    ensures forall t, w, n | ReadsTag(data, p, limit, t, w, n) :: t == v / 8 && w == v % 8 && n == next
    ensures v != 0 ==> ReadsTag(data, p, limit, v / 8, v % 8, next)
  {
    hide ReadsVarint32;
    ReadsVarint32Once(data, p, limit);
  }

  // At the end of the stream, or at a zero, there is no further tag.
  method DecodeTag(data: seq<Byte>, p: nat, limit: nat, ghost t: nat, ghost w: nat) returns (ok: bool, eof: bool, tag: nat, wireType: nat, next: nat)
    requires p <= limit <= |data| && w < 8
    ensures ok ==> p < next <= limit && wireType < 8
    ensures eof ==> !ok
    ensures p == limit || NumberOf(data[p]) == 0 ==> eof
    ensures if ok then ReadsTag(data, p, limit, tag, wireType, next) else forall t, w, n :: !ReadsTag(data, p, limit, t, w, n)
    ensures eof ==> p == limit || exists n :: ReadsVarint32(data, p, limit, 0, n)
    ensures 0 < t <= MAX_TAG && IsAt(data, p, limit, TagBytes(t, w)) ==> ok && tag == t && wireType == w && next == p + |TagBytes(t, w)|
  {
    hide Varint, IsAt, ReadsVarint32;
    var temp;
    tag, wireType, eof := 0, 0, false;
    ok, temp, next := DecodeVarint32(data, p, limit, t * 8 + w);
    if !ok {
      eof := p == limit;
      return;
    }
    ReadsTagOnce(data, p, limit, temp, next);
    if temp == 0 {
      eof, ok := true, false;
      return;
    }
    tag, wireType := temp / 8, temp % 8;
  }

  method SkipVarint(data: seq<Byte>, p: nat, limit: nat) returns (ok: bool, next: nat)
    requires p <= limit <= |data|
    ensures ok ==> p < next <= limit && NumberOf(data[next-1]) < 128 && forall j | p <= j < next - 1 :: NumberOf(data[j]) >= 128
    ensures if ok then EndsVarint(data[p..next]) else forall n | p < n <= limit :: !EndsVarint(data[p..n])
  {
    hide NumberOf;
    next := p;
    while next < limit
      invariant p <= next <= limit && forall j | p <= j < next :: NumberOf(data[j]) >= 128
    {
      next := next + 1;
      if NumberOf(data[next-1]) < 128 {
        return true, next;
      }
    }
    forall n | p < n <= limit
      ensures !EndsVarint(data[p..n])
    {
      assert data[p..n][n-p-1] == data[n-1];
    }
    return false, next;
  }

  lemma VarintEndsAt(data: seq<Byte>, p: nat, limit: nat, body: seq<Byte>)
    requires IsAt(data, p, limit, body) && EndsVarint(body)
    ensures p < p + |body| <= limit && NumberOf(data[p+|body|-1]) < 128
    ensures forall j | p <= j < p + |body| - 1 :: NumberOf(data[j]) >= 128
  {
    hide NumberOf;
    forall j | p <= j < p + |body|
      ensures data[j] == body[j-p]
    {
      assert data[p..p+|body|][j-p] == body[j-p];
    }
  }

  // What a field of this wire type takes up, from `p` to `next`.
  ghost predicate ReadsAny(data: seq<Byte>, p: nat, limit: nat, wireType: nat, next: nat) {
    match wireType
    case 0 => p < next <= limit <= |data| && EndsVarint(data[p..next])
    case 1 => next == p + 8 && next <= limit
    case 2 => exists begin :: ReadsLength(data, p, limit, begin, next)
    case 5 => next == p + 4 && next <= limit
    case _ => false
  }

  // Over a field of which only the wire type is known. Expected, if anything: `body`.
  method SkipField(data: seq<Byte>, p: nat, limit: nat, wireType: nat, ghost body: seq<Byte>) returns (ok: bool, next: nat)
    requires p <= limit <= |data|
    ensures ok ==> p < next <= limit
    ensures if ok then ReadsAny(data, p, limit, wireType, next) else forall n :: !ReadsAny(data, p, limit, wireType, n)
    ensures IsSkipped(wireType, body) && IsAt(data, p, limit, body) ==> ok && next == p + |body|
  {
    hide IsAt, NumberOf, Prefixed, EndsVarint, ReadsLength;
    ghost var expected := IsSkipped(wireType, body) && IsAt(data, p, limit, body);
    if expected {
      WhereItIs(data, p, limit, body);
    }
    if wireType == 0 {
      if expected {
        VarintEndsAt(data, p, limit, body);
      }
      ok, next := SkipVarint(data, p, limit);
    } else if wireType == 1 || wireType == 5 {
      var n := if wireType == 1 then 8 else 4;
      ok, next := limit - p >= n, p + n;
    } else if wireType == 2 {
      ghost var s: seq<Byte> := [];
      if expected {
        s :| |s| < LIMIT32 && body == Prefixed(s);
      }
      var begin;
      ok, begin, next := MakeSubstream(data, p, limit, s);
    } else {
      ok, next := false, p;
    }
  }

  // ---- The field iterator

  datatype Iter = Iter(pos: nat, required: nat)

  predicate IterOk(fields: seq<Field>, it: Iter) {
    && (if fields == [] then it.pos == 0 else it.pos < |fields|)
    && it.required == RequiredBefore(fields, it.pos)
  }

  // To the next field, or back to the first.
  method IterNext(fields: seq<Field>, it: Iter) returns (more: bool, it': Iter)
    requires IterOk(fields, it)
    ensures IterOk(fields, it') && more == (it.pos + 1 < |fields|) && it'.pos == if more then it.pos + 1 else 0
  {
    if fields == [] {
      return false, it;
    }
    if it.pos + 1 == |fields| {
      return false, Iter(0, 0);
    }
    it' := Iter(it.pos + 1, it.required + if fields[it.pos].rule.Required? then 1 else 0);
    more := true;
  }

  // The field with this tag, from where the iterator is on and around.
  method IterFind(fields: seq<Field>, it: Iter, tag: nat) returns (found: bool, it': Iter)
    requires IterOk(fields, it)
    ensures IterOk(fields, it') && (found ==> it'.pos < |fields| && fields[it'.pos].tag == tag)
    ensures !found ==> it' == it && forall i | 0 <= i < |fields| :: fields[i].tag != tag
  {
    if fields == [] {
      return false, it;
    }
    it' := it;
    var wrapped := false;
    while true
      invariant IterOk(fields, it') && (wrapped ==> it'.pos < it.pos) && (!wrapped ==> it.pos <= it'.pos)
      invariant forall i | it.pos <= i < (if wrapped then |fields| else it'.pos) :: fields[i].tag != tag
      invariant wrapped ==> forall i | 0 <= i < it'.pos :: fields[i].tag != tag
      decreases !wrapped, |fields| - it'.pos
    {
      if fields[it'.pos].tag == tag {
        return true, it';
      }
      var more;
      more, it' := IterNext(fields, it');
      wrapped := wrapped || !more;
      if it'.pos == it.pos {
        return false, it';
      }
    }
  }

  // ---- Values, fields and messages

  // A value of this kind, other than a message, stands at `p` and ends at `next`.
  ghost predicate ReadsValue(data: seq<Byte>, p: nat, limit: nat, k: Kind, u: Value, next: nat) {
    if Packable(k) then u.Number? && ReadsNumber(data, p, limit, k, u.n, next)
    else !k.Submessage? && u.Blob? && ReadsBlob(data, p, limit, k, u.bytes, next)
  }

  // One value. Expected, if anything: a value read into defaults, or a submessage by its records.
  method DecodeValue(data: seq<Byte>, p: nat, limit: nat, k: Kind, start: Value, ghost e: Record) returns (ok: bool, u: Value, next: nat)
    requires p <= limit <= |data| < LIMIT32 && KindOk(k)
    ensures ok ==> p < next <= limit && (InBounds(k, start) ==> InBounds(k, u))
    ensures !k.Submessage? ==> if ok then ReadsValue(data, p, limit, k, u, next) else forall x, n :: !ReadsValue(data, p, limit, k, x, n)
    ensures k.Submessage? && ok ==> exists begin :: ReadsLength(data, p, limit, begin, next)
    ensures e.Single? && Fits(k, e.v) && (k.Submessage? ==> start == Zero(k)) && IsAt(data, p, limit, ValueBytes(k, e.v)) ==>
              ok && u == e.v && next == p + |ValueBytes(k, e.v)|
    ensures e.Nested? && k.Submessage? && InSchema(k.fields, e.rs) && CanTakeAll(k.fields, StateOf(k, start), e.rs)
            && IsAt(data, p, limit, Prefixed(RecordsBytes(k.fields, e.rs))) ==>
              (ok <==> CanMake(k, start, e.rs)) && (ok ==> u == Made(k, start, e.rs) && next == p + |Prefixed(RecordsBytes(k.fields, e.rs))|)
    decreases k, 4
  {
    hide IsAt, Prefixed, NumberBytes, MessageBytes, InSchema, CanMake, CanTakeAll, Made, ReadsNumber, ReadsBlob, ReadsLength;
    u, next := start, p;
    if Packable(k) {
      var m;
      ok, m, next := DecodeNumber(data, p, limit, k, if e.Single? && e.v.Number? then e.v.n else 0);
      u := Number(m);
    } else if k.Submessage? {
      ok, u, next := DecodeSubmessage(data, p, limit, k, start, e);
    } else {
      var blob;
      ghost var b: seq<Byte> := if e.Single? && e.v.Blob? then e.v.bytes else [];
      if IsAt(data, p, limit, Prefixed(b)) {
        IsShort(data, p, limit, b);
      }
      ok, blob, next := DecodeBlob(data, p, limit, k, b);
      u := Blob(blob);
    }
  }

  method DecodeSubmessage(data: seq<Byte>, p: nat, limit: nat, k: Kind, start: Value, ghost e: Record) returns (ok: bool, u: Value, next: nat)
    requires p <= limit <= |data| < LIMIT32 && KindOk(k) && k.Submessage?
    ensures ok ==> p < next <= limit && (InBounds(k, start) ==> InBounds(k, u))
    ensures ok ==> exists begin :: ReadsLength(data, p, limit, begin, next)
    ensures e.Single? && Fits(k, e.v) && start == Zero(k) && IsAt(data, p, limit, ValueBytes(k, e.v)) ==>
              ok && u == e.v && next == p + |ValueBytes(k, e.v)|
    ensures e.Nested? && InSchema(k.fields, e.rs) && CanTakeAll(k.fields, StateOf(k, start), e.rs)
            && IsAt(data, p, limit, Prefixed(RecordsBytes(k.fields, e.rs))) ==>
              (ok <==> CanMake(k, start, e.rs)) && (ok ==> u == Made(k, start, e.rs) && next == p + |Prefixed(RecordsBytes(k.fields, e.rs))|)
    decreases k, 3
  {
    hide IsAt, Prefixed, MessageBytes, InSchema, CanMake, CanTakeAll, Made, Fits, RecordsBytes, ReadsLength;
    u, next := start, p;
    ghost var rs: seq<Record> := [];
    if e.Single? && Fits(k, e.v) && start == Zero(k) {
      rs := WholeMessage(k, e.v);
    } else if e.Nested? && InSchema(k.fields, e.rs) {
      rs := e.rs;
    }
    ghost var message: seq<Byte> := if InSchema(k.fields, rs) then RecordsBytes(k.fields, rs) else [];
    if IsAt(data, p, limit, Prefixed(message)) {
      IsShort(data, p, limit, message);
    }
    var begin, end;
    ok, begin, end := MakeSubstream(data, p, limit, message);
    if ok {
      assert message + [] == message;
      MadeFromStart(k, start, rs);
      ok, u := DecodeMessage(data, begin, end, k, StartOf(k, start), rs, []);
      next := end;
    }
  }

  lemma IsShort(data: seq<Byte>, p: nat, limit: nat, s: seq<Byte>)
    requires |data| < LIMIT32 && IsAt(data, p, limit, Prefixed(s))
    ensures |s| < LIMIT32
  {
    hide Varint;
  }

  // What is no message of this schema to begin with counts as the default.
  lemma MadeFromStart(k: Kind, start: Value, rs: seq<Record>)
    requires k.Submessage?
    ensures EndsHere([])
    ensures InSchema(k.fields, rs) ==>
              && Made(k, StartOf(k, start), rs) == Made(k, start, rs)
              && (CanMake(k, StartOf(k, start), rs) <==> CanMake(k, start, rs))
              && (CanMake(k, start, rs) ==> CanTakeAll(k.fields, StateOf(k, start), rs))
              && StateOf(k, StartOf(k, start)) == StateOf(k, start)
  {
    hide TakeAll, CanTakeAll, IsComplete, InSchema;
  }

  ghost predicate EachInBounds(k: Kind, vs: seq<Value>, max: nat) {
    |vs| <= max && forall m | 0 <= m < |vs| :: InBounds(k, vs[m])
  }

  ghost predicate EachFits(k: Kind, vs: seq<Value>) {
    forall m | 0 <= m < |vs| :: Fits(k, vs[m])
  }

  // Numbers stand one after another from `p` to `end`.
  ghost predicate ReadsNumbers(data: seq<Byte>, p: nat, k: Kind, vs: seq<Value>, end: nat, limit: nat) {
    if vs == [] then end == p
    else
      var init, last := vs[..|vs|-1], vs[|vs|-1];
      last.Number? && exists mid :: ReadsNumbers(data, p, k, init, mid, limit) && ReadsNumber(data, mid, limit, k, last.n, end)
  }

  lemma ReadsOneMore(data: seq<Byte>, p: nat, k: Kind, vs: seq<Value>, mid: nat, m: int, end: nat, limit: nat)
    requires ReadsNumbers(data, p, k, vs, mid, limit) && ReadsNumber(data, mid, limit, k, m, end)
    ensures ReadsNumbers(data, p, k, vs + [Number(m)], end, limit)
  {
    hide ReadsNumber;
    assert (vs + [Number(m)])[..|vs|] == vs;
  }

  lemma ReadsNone(data: seq<Byte>, p: nat, k: Kind, limit: nat)
    ensures ReadsNumbers(data, p, k, [], p, limit)
  {
  }

  // Numbers up to the end of the stream, as long as there is room. Expected, if anything: `vs`.
  method DecodePacked(data: seq<Byte>, p: nat, limit: nat, k: Kind, had: seq<Value>, max: nat, ghost vs: seq<Value>)
    returns (ok: bool, all: seq<Value>, ghost read: seq<Value>, ghost end: nat)
    requires p <= limit <= |data| && KindOk(k) && Packable(k)
    ensures end <= limit && ReadsNumbers(data, p, k, read, end, limit) && all == had + read
    ensures (ok <==> end == limit) && (|had| <= max ==> |all| <= max)
    ensures !ok ==> |all| >= max || forall m, n :: !ReadsNumber(data, end, limit, k, m, n)
    ensures EachInBounds(k, had, max) ==> EachInBounds(k, all, max)
    ensures EachFits(k, vs) && |had| <= max && data[p..limit] == NumbersBytes(k, vs) ==>
              (ok <==> |had| + |vs| <= max) && (ok ==> all == had + vs)
  {
    hide NumberBytes, NumbersBytes, EachInBounds, EachFits, ReadsNumber, ReadsNumbers;
    ok, all, read, end := true, had, [], p;
    var next := p;
    ReadsNone(data, p, k, limit);
    assert had + [] == had;
    ghost var left := vs;
    ghost var expected := EachFits(k, vs) && |had| <= max && data[p..limit] == NumbersBytes(k, vs);
    while next < limit && |all| < max
      invariant p <= next <= limit && (|had| <= max ==> |all| <= max)
      invariant end == next && ReadsNumbers(data, p, k, read, next, limit) && all == had + read
      invariant EachInBounds(k, had, max) ==> EachInBounds(k, all, max)
      invariant expected ==> EachFits(k, left) && all + left == had + vs && data[next..limit] == NumbersBytes(k, left)
      decreases limit - next
    {
      ghost var n := 0;
      if expected {
        FirstNumber(data, next, limit, k, left);
        n := left[0].n;
        MovedOver(all, left);
      }
      var m, after;
      ok, m, after := DecodeNumber(data, next, limit, k, n);
      if !ok {
        return;
      }
      ReadsOneMore(data, p, k, read, next, m, after, limit);
      OneMoreInBounds(k, all, max, m);
      assert had + read + [Number(m)] == had + (read + [Number(m)]);
      all, read, end, next := all + [Number(m)], read + [Number(m)], after, after;
      left := if left == [] then [] else left[1..];
    }
    if expected {
      assert |all| + |left| == |had| + |vs|;
      if next < limit {
        FirstNumber(data, next, limit, k, left);
      } else {
        NoNumbers(k, left);
        assert all + left == all;
      }
    }
    ok := next == limit;
  }

  lemma MovedOver(all: seq<Value>, left: seq<Value>)
    requires left != []
    ensures all + left == (all + [left[0]]) + left[1..]
  {
  }

  lemma OneMoreInBounds(k: Kind, all: seq<Value>, max: nat, m: int)
    requires |all| < max && NumberFits(k, m)
    ensures EachInBounds(k, all, max) ==> EachInBounds(k, all + [Number(m)], max)
  {
    hide NumberFits;
  }

  lemma FirstNumber(data: seq<Byte>, p: nat, limit: nat, k: Kind, vs: seq<Value>)
    requires p < limit <= |data| && EachFits(k, vs) && Packable(k)
    requires data[p..limit] == NumbersBytes(k, vs)
    ensures vs != [] && vs[0].Number? && IsAt(data, p, limit, NumberBytes(k, vs[0].n))
    ensures data[p+|NumberBytes(k, vs[0].n)|..limit] == NumbersBytes(k, vs[1..]) && EachFits(k, vs[1..])
    ensures NumberFits(k, vs[0].n)
  {
    hide NumberBytes, Fits;
    FitsAsNumber(k, vs[0]);
    FirstPart(data, p, limit, NumberBytes(k, vs[0].n), NumbersBytes(k, vs[1..]));
  }

  lemma FitsAsNumber(k: Kind, v: Value)
    requires Fits(k, v) && Packable(k)
    ensures v.Number? && NumberFits(k, v.n)
  {
  }

  lemma FirstPart(data: seq<Byte>, p: nat, limit: nat, first: seq<Byte>, rest: seq<Byte>)
    requires p <= limit <= |data| && data[p..limit] == first + rest
    ensures IsAt(data, p, limit, first) && data[p+|first|..limit] == rest
  {
    var all := data[p..limit];
    assert data[p..p+|first|] == all[..|first|] && data[p+|first|..limit] == all[|first|..];
  }

  lemma {:induction false} NoNumbers(k: Kind, vs: seq<Value>)
    requires Packable(k) && NumbersBytes(k, vs) == [] && EachFits(k, vs)
    ensures vs == []
  {
    if vs != [] {
      assert Fits(k, vs[0]);
      NumberIsNotEmpty(k, vs[0].n);
      hide NumberBytes;
    }
  }

  lemma NumberIsNotEmpty(k: Kind, n: int)
    ensures |NumberBytes(k, n)| > 0
  {
    hide Varint;
    FixedIsFour(n % LIMIT32);
    Fixed64RoundTrip(n % LIMIT64);
  }

  // Numbers read from one place on agree as far as both go, and where one stops the other goes on.
  lemma {:induction false} NumbersAgree(data: seq<Byte>, p: nat, k: Kind, a: seq<Value>, ea: nat, b: seq<Value>, eb: nat, limit: nat)
    requires Packable(k) && ReadsNumbers(data, p, k, a, ea, limit) && ReadsNumbers(data, p, k, b, eb, limit) && |a| <= |b|
    ensures a == b[..|a|] && (|a| == |b| ==> ea == eb)
    ensures |a| < |b| ==> exists m, n :: ReadsNumber(data, ea, limit, k, m, n)
    decreases |b|
  {
    hide ReadsNumber;
    if b == [] {
    } else {
      var init, last := b[..|b|-1], b[|b|-1];
      var mid :| ReadsNumbers(data, p, k, init, mid, limit) && ReadsNumber(data, mid, limit, k, last.n, eb);
      if |a| < |b| {
        NumbersAgree(data, p, k, a, ea, init, mid, limit);
        assert init[..|a|] == b[..|a|];
      } else {
        var ainit, alast := a[..|a|-1], a[|a|-1];
        var amid :| ReadsNumbers(data, p, k, ainit, amid, limit) && ReadsNumber(data, amid, limit, k, alast.n, ea);
        NumbersAgree(data, p, k, ainit, amid, init, mid, limit);
        NumberOnce(data, mid, limit, k);
        assert b == init + [last] && a == ainit + [alast];
      }
    }
  }

  lemma NumberOnce(data: seq<Byte>, p: nat, limit: nat, k: Kind)
    requires Packable(k)
    ensures forall m, n, x, e | ReadsNumber(data, p, limit, k, m, n) && ReadsNumber(data, p, limit, k, x, e) :: m == x && n == e
  {
    hide ReadsVarint32, Reads64, NumberFits, FromWire, FixedValue, Fixed64Value;
    ReadsVarint32Once(data, p, limit);
    ReadsOnce(data, p, limit);
  }

  lemma NothingAtEnd(data: seq<Byte>, end: nat, k: Kind)
    requires Packable(k)
    ensures forall m, n :: !ReadsNumber(data, end, end, k, m, n)
  {
  }

  // What follows the tag of field `i`, not a message, is taken: from `p` to `next`, with `slots'` then.
  ghost predicate ReadsField(data: seq<Byte>, p: nat, limit: nat, fields: seq<Field>, i: nat, slots: seq<Slot>, wireType: nat, slots': seq<Slot>, next: nat)
    requires i < |fields| == |slots|
  {
    var f, had := fields[i], ValuesIn(slots[i]);
    if f.rule.Repeated? && wireType == 2 && Packable(f.kind) then
      exists begin, vs :: ReadsLength(data, p, limit, begin, next) && ReadsNumbers(data, begin, f.kind, vs, next, next)
                          && |had| + |vs| <= f.rule.max && slots' == slots[i := Many(had + vs)]
    else
      && (f.rule.Repeated? ==> |had| < f.rule.max)
      && exists u :: ReadsValue(data, p, limit, f.kind, u, next) && slots' == Filled(fields, slots, i, u)
  }

  // A packed list that does not end where its bytes do cannot be read in full.
  lemma PackedIsRefused(data: seq<Byte>, p: nat, limit: nat, fields: seq<Field>, i: nat, slots: seq<Slot>, begin: nat, end: nat, read: seq<Value>, stop: nat)
    requires i < |fields| == |slots| && fields[i].rule.Repeated? && Packable(fields[i].kind)
    requires ReadsLength(data, p, limit, begin, end) && ReadsNumbers(data, begin, fields[i].kind, read, stop, end) && stop < end
    requires |ValuesIn(slots[i])| + |read| >= fields[i].rule.max || forall m, n :: !ReadsNumber(data, stop, end, fields[i].kind, m, n)
    ensures forall s, n :: !ReadsField(data, p, limit, fields, i, slots, 2, s, n)
  {
    hide ReadsLength, ReadsNumbers, ReadsNumber;
    ReadsLengthOnce(data, p, limit, begin, end);
    forall vs | ReadsNumbers(data, begin, fields[i].kind, vs, end, end)
      ensures |ValuesIn(slots[i])| + |vs| > fields[i].rule.max
    {
      if |vs| <= |read| {
        NumbersAgree(data, begin, fields[i].kind, vs, end, read, stop, end);
        NothingAtEnd(data, end, fields[i].kind);
      } else {
        NumbersAgree(data, begin, fields[i].kind, read, stop, vs, end, end);
      }
    }
  }

  method DecodePackedField(data: seq<Byte>, p: nat, limit: nat, fields: seq<Field>, i: nat, slots: seq<Slot>, ghost r: Record)
    returns (ok: bool, slots': seq<Slot>, next: nat)
    requires p <= limit <= |data| < LIMIT32 && i < |fields| == |slots| && fields[i].rule.Repeated? && KindOk(fields[i].kind) && Packable(fields[i].kind)
    ensures |slots'| == |slots| && (ok ==> p < next <= limit)
    ensures AllInBounds(fields, slots) ==> AllInBounds(fields, slots')
    ensures |ValuesIn(slots[i])| <= fields[i].rule.max ==>
              if ok then ReadsField(data, p, limit, fields, i, slots, 2, slots', next)
              else forall s, n :: !ReadsField(data, p, limit, fields, i, slots, 2, s, n)
    ensures r.Packed? && r.i == i && IsOfSchema(fields, r) && CanFill(fields, slots, r) && IsAt(data, p, limit, RecordBody(fields, r)) ==>
              ok && slots' == FilledBy(fields, slots, r) && next == p + |RecordBody(fields, r)|
  {
    hide IsAt, NumbersBytes, Prefixed, KindOk, Fits, AllInBounds, ReadsLength, ReadsNumber, ReadsNumbers;
    slots', next := slots, p;
    var f, had := fields[i], ValuesIn(slots[i]);
    ghost var vs := if r.Packed? then r.vs else [];
    if IsAt(data, p, limit, Prefixed(NumbersBytes(f.kind, vs))) {
      IsShort(data, p, limit, NumbersBytes(f.kind, vs));
    }
    var begin, end, all;
    ok, begin, end := MakeSubstream(data, p, limit, NumbersBytes(f.kind, vs));
    if !ok {
      return;
    }
    ghost var read, stop;
    ok, all, read, stop := DecodePacked(data, begin, end, f.kind, had, f.rule.max, vs);
    slots', next := slots[i := Many(all)], end;
    PackedInBounds(fields, slots, i, all);
    if ok && |had| <= f.rule.max {
      assert |had| + |read| <= f.rule.max && slots' == slots[i := Many(had + read)];
    } else if !ok {
      PackedIsRefused(data, p, limit, fields, i, slots, begin, end, read, stop);
    }
  }

  // What follows the tag of field `i`: a packed list, or a value. Expected, if anything: `r`.
  method DecodeField(data: seq<Byte>, p: nat, limit: nat, fields: seq<Field>, f: Field, i: nat, slots: seq<Slot>, wireType: nat, ghost r: Record)
    returns (ok: bool, slots': seq<Slot>, next: nat)
    requires p <= limit <= |data| < LIMIT32 && i < |fields| == |slots| && f == fields[i] && KindOk(Submessage(fields))
    ensures |slots'| == |slots| && (ok ==> p < next <= limit)
    ensures ok && AllInBounds(fields, slots) ==> AllInBounds(fields, slots')
    ensures !f.kind.Submessage? && (f.rule.Repeated? ==> |ValuesIn(slots[i])| <= f.rule.max) ==>
              if ok then ReadsField(data, p, limit, fields, i, slots, wireType, slots', next)
              else forall s, n :: !ReadsField(data, p, limit, fields, i, slots, wireType, s, n)
    ensures f.kind.Submessage? && ok ==>
              && (f.rule.Repeated? ==> |ValuesIn(slots[i])| < f.rule.max)
              && exists begin :: ReadsLength(data, p, limit, begin, next)
    ensures IsOfSchema(fields, r) && r.Nested? && r.i == i && IsAt(data, p, limit, RecordBody(fields, r))
            && (f.rule.Repeated? ==> |ValuesIn(slots[i])| < f.rule.max)
            && CanTakeAll(f.kind.fields, StateOf(f.kind, StartIn(f, slots[i])), r.rs) ==>
              (ok <==> CanMake(f.kind, StartIn(f, slots[i]), r.rs))
    ensures IsOfSchema(fields, r) && !r.Unknown? && r.i == i && CanFill(fields, slots, r) && wireType == RecordWire(fields, r)
            && IsAt(data, p, limit, RecordBody(fields, r)) ==>
              ok && slots' == FilledBy(fields, slots, r) && next == p + |RecordBody(fields, r)|
    decreases f, 4
  {
    hide IsAt, ValueBytes, NumbersBytes, Prefixed, KindOk, Fits, InSchema, CanTakeAll, CanMake, Made, AllInBounds, ReadsValue, ReadsLength, ReadsNumbers;
    slots', next := slots, p;
    if AllInBounds(fields, slots) {
      StartInBounds(Submessage(fields), slots, i);
    }
    FieldOk(Submessage(fields), i);
    if f.rule.Repeated? && wireType == 2 && Packable(f.kind) {
      NotSingle(fields, i, r);
      ok, slots', next := DecodePackedField(data, p, limit, fields, i, slots, r);
      return;
    }
    if f.rule.Repeated? && |ValuesIn(slots[i])| >= f.rule.max {
      return false, slots, p;
    }
    if r.Nested? && r.i == i && IsOfSchema(fields, r) {
      MadeFromStart(f.kind, StartIn(f, slots[i]), r.rs);
    }
    var u;
    ok, u, next := DecodeValue(data, p, limit, f.kind, StartIn(f, slots[i]), r);
    slots' := Filled(fields, slots, i, u);
    if ok && AllInBounds(fields, slots) {
      FilledInBounds(Submessage(fields), slots, i, u);
    }
  }

  // Behind a tag with the wire type of a string, a field of numbers has a packed list.
  lemma NotSingle(fields: seq<Field>, i: nat, r: Record)
    requires i < |fields| && Packable(fields[i].kind)
    ensures IsOfSchema(fields, r) && !r.Unknown? && r.i == i && RecordWire(fields, r) == 2 ==> r.Packed?
    ensures !fields[i].kind.Submessage?
  {
  }

  lemma PackedInBounds(fields: seq<Field>, slots: seq<Slot>, i: nat, all: seq<Value>)
    requires i < |fields| == |slots| && fields[i].rule.Repeated?
    requires var f := fields[i]; EachInBounds(f.kind, ValuesIn(slots[i]), f.rule.max) ==> EachInBounds(f.kind, all, f.rule.max)
    ensures AllInBounds(fields, slots) ==> AllInBounds(fields, slots[i := Many(all)])
  {
    hide InBounds;
    if AllInBounds(fields, slots) {
      assert SlotInBounds(fields[i], slots[i]);
    }
  }

  lemma FieldOk(k: Kind, i: nat)
    requires KindOk(k) && k.Submessage? && i < |k.fields|
    ensures KindOk(k.fields[i].kind) && 0 < k.fields[i].tag <= MAX_TAG
  {
  }

  lemma TagsDiffer(k: Kind, i: nat, j: nat)
    requires KindOk(k) && k.Submessage? && i < |k.fields| && j < |k.fields| && k.fields[i].tag == k.fields[j].tag
    ensures i == j
  {
  }

  // Where a message ends: at the end of its bytes, or at a zero in the place of a tag.
  ghost predicate EndsHere(rest: seq<Byte>) {
    rest != [] ==> NumberOf(rest[0]) == 0
  }

  // The record at this place: its tag, what follows it, and what is behind it.
  lemma NextRecord(data: seq<Byte>, p: nat, limit: nat, fields: seq<Field>, left: seq<Record>, end: seq<Byte>)
    requires p <= limit <= |data| && InSchema(fields, left) && data[p..limit] == RecordsBytes(fields, left) + end && left != []
    ensures IsOfSchema(fields, left[0]) && InSchema(fields, left[1..])
    ensures var r := left[0];
            var tag, body := TagBytes(RecordTag(fields, r), RecordWire(fields, r)), RecordBody(fields, r);
            && p < limit && IsAt(data, p, limit, tag) && IsAt(data, p + |tag|, limit, body)
            && data[p+|tag|+|body|..limit] == RecordsBytes(fields, left[1..]) + end
  {
    hide RecordBody, TagBytes, IsAt, RecordWire, RecordTag, IsOfSchema;
    var r := left[0];
    var tag, body := TagBytes(RecordTag(fields, r), RecordWire(fields, r)), RecordBody(fields, r);
    var rest := RecordsBytes(fields, left[1..]) + end;
    TagIsNotEmpty(RecordTag(fields, r), RecordWire(fields, r));
    assert data[p..limit] == tag + (body + rest);
    FirstPart(data, p, limit, tag, body + rest);
    WhereItIs(data, p, limit, tag);
    FirstPart(data, p + |tag|, limit, body, rest);
  }

  lemma TagIsNotEmpty(tag: nat, wireType: nat)
    ensures TagBytes(tag, wireType) != []
  {
  }

  // With no record left, there is the end.
  lemma AtTheEnd(data: seq<Byte>, p: nat, limit: nat, fields: seq<Field>, end: seq<Byte>)
    requires p <= limit <= |data| && data[p..limit] == RecordsBytes(fields, []) + end
    ensures EndsHere(end) ==> p == limit || NumberOf(data[p]) == 0
  {
    assert data[p..limit] == end;
  }

  // The tag of a record is that of its field, or of none.
  lemma TagFinds(fields: seq<Field>, r: Record)
    requires IsOfSchema(fields, r) && forall i | 0 <= i < |fields| :: 0 < fields[i].tag <= MAX_TAG
    ensures 0 < RecordTag(fields, r) <= MAX_TAG
    ensures r.Unknown? ==> IsSkipped(RecordWire(fields, r), RecordBody(fields, r))
    ensures if r.Unknown? then forall i | 0 <= i < |fields| :: fields[i].tag != RecordTag(fields, r)
            else r.i < |fields| && fields[r.i].tag == RecordTag(fields, r)
  {
  }

  // The first record may be taken here.
  lemma BeginsWell(fields: seq<Field>, st: State, left: seq<Record>)
    requires InSchema(fields, left) && |st.slots| == |fields| && left != [] && CanTakeAll(fields, st, left)
    ensures IsOfSchema(fields, left[0]) && InSchema(fields, left[1..]) && CanTake(fields, st, left[0])
    ensures CanTakeAll(fields, Take(fields, st, left[0]), left[1..])
    ensures TakeAll(fields, st, left) == TakeAll(fields, Take(fields, st, left[0]), left[1..])
  {
    hide Take, CanTake, IsOfSchema;
  }

  // How a record of a field is taken.
  lemma TakenSo(fields: seq<Field>, st: State, r: Record)
    requires IsOfSchema(fields, r) && |st.slots| == |fields| && CanTake(fields, st, r)
    ensures r.Unknown? ==> Take(fields, st, r) == st
    ensures !r.Unknown? ==>
              var st1 := Begun(fields, st, r.i);
              && (fields[r.i].rule.Repeated? && !fields[r.i].rule.counted && st.fixed != r.i ==> FixedDone(fields, st))
              && CanFill(fields, st1.slots, r) && Take(fields, st, r) == st1.(slots := FilledBy(fields, st1.slots, r))
  {
    hide CanFill, FilledBy, FixedDone;
  }

  // A record that was seen and one that is left cover the same.
  lemma CoversTheSame(fields: seq<Field>, seen: set<nat>, seen': set<nat>, left: seq<Record>)
    requires left != [] && (!left[0].Unknown? ==> left[0].i < |fields|)
    requires seen' == seen + if !left[0].Unknown? && IsTracked(fields, left[0].i) then {RequiredBefore(fields, left[0].i)} else {}
    ensures RequiredCovered(fields, seen', left[1..]) <==> RequiredCovered(fields, seen, left)
  {
    hide RequiredBefore;
    forall i: nat | i < |fields| && IsTracked(fields, i)
      ensures RequiredBefore(fields, i) in seen' || HasRecord(left[1..], i) <==> RequiredBefore(fields, i) in seen || HasRecord(left, i)
    {
      BothHaveRecords([left[0]], left[1..], i);
      assert [left[0]] + left[1..] == left;
      if HasRecord([left[0]], i) {
        assert left[0].i == i;
      }
      if !left[0].Unknown? && IsTracked(fields, left[0].i) && RequiredBefore(fields, i) == RequiredBefore(fields, left[0].i) {
        RequiredDiffer(fields, i, left[0].i);
        assert HasRecord([left[0]], i) by {
          assert [left[0]][0].i == i;
        }
      }
    }
    assert forall i: nat :: i < |fields| && fields[i].rule.Required? && RequiredBefore(fields, i) < MAX_REQUIRED <==> i < |fields| && IsTracked(fields, i);
  }

  predicate IsTracked(fields: seq<Field>, i: nat)
    requires i < |fields|
  {
    fields[i].rule.Required? && RequiredBefore(fields, i) < MAX_REQUIRED
  }

  lemma RequiredDiffer(fields: seq<Field>, i: nat, j: nat)
    requires i < |fields| && j < |fields| && fields[i].rule.Required? && fields[j].rule.Required?
    requires RequiredBefore(fields, i) == RequiredBefore(fields, j)
    ensures i == j
  {
    hide RequiredBefore;
    if i < j {
      RequiredRises(fields, i, j);
    } else if j < i {
      RequiredRises(fields, j, i);
    }
  }

  lemma RequiredRises(fields: seq<Field>, i: nat, j: nat)
    requires i < j <= |fields| && fields[i].rule.Required?
    ensures RequiredBefore(fields, i) < RequiredBefore(fields, j)
  {
    RequiredGrows(fields, i + 1, j);
  }

  lemma {:induction false} NthRequired(fields: seq<Field>, j: nat, n: nat) returns (i: nat)
    requires n <= |fields| && j < RequiredBefore(fields, n)
    ensures i < n && fields[i].rule.Required? && RequiredBefore(fields, i) == j
  {
    if j < RequiredBefore(fields, n - 1) {
      i := NthRequired(fields, j, n - 1);
    } else {
      i := n - 1;
    }
  }

  ghost predicate AllRequiredSeen(fields: seq<Field>, seen: set<nat>) {
    forall i: nat | i < |fields| && fields[i].rule.Required? && RequiredBefore(fields, i) < MAX_REQUIRED :: RequiredBefore(fields, i) in seen
  }

  lemma CoveredMeansSeen(fields: seq<Field>, seen: set<nat>)
    ensures RequiredCovered(fields, seen, []) <==> AllRequiredSeen(fields, seen)
  {
    hide RequiredBefore;
  }

  // Whether as many required fields as are tracked were seen, counted from where the iterator is.
  method CheckRequired(fields: seq<Field>, start: Iter, seen: set<nat>) returns (b: bool)
    requires IterOk(fields, start)
    ensures b == AllRequiredSeen(fields, seen)
  {
    var it, more := start, true;
    var count, last := 0, false;
    while more
      invariant IterOk(fields, it)
      invariant !more ==> count == (if fields == [] then 0 else RequiredBefore(fields, |fields| - 1)) && last == (fields != [] && fields[|fields|-1].rule.Required?)
      decreases more, |fields| - it.pos
    {
      count := it.required;
      last := it.pos < |fields| && fields[it.pos].rule.Required?;
      more, it := IterNext(fields, it);
    }
    if last {
      count := count + 1;
    }
    assert count == RequiredBefore(fields, |fields|);
    if count > MAX_REQUIRED {
      count := MAX_REQUIRED;
    }
    b := true;
    for j := 0 to count
      invariant b == forall m: nat | m < j :: m in seen
    {
      b := b && j in seen;
    }
    forall m: nat | m < count && m !in seen
      ensures !AllRequiredSeen(fields, seen)
    {
      var i := NthRequired(fields, m, |fields|);
    }
    forall i: nat | i < |fields| && fields[i].rule.Required?
      ensures RequiredBefore(fields, i) < RequiredBefore(fields, |fields|)
    {
      RequiredGrows(fields, i + 1, |fields|);
    }
  }

  lemma {:induction false} RequiredGrows(fields: seq<Field>, m: nat, n: nat)
    requires m <= n <= |fields|
    ensures RequiredBefore(fields, m) <= RequiredBefore(fields, n)
  {
    if m < n {
      RequiredGrows(fields, m, n - 1);
    }
  }

  // ---- What is refused

  // What follows the tag of field `i` cannot be taken: another field that is not counted lacks
  // values, there is no room, no value stands there that fits, or it is a submessage that lacks
  // something.
  ghost predicate RefusesField(data: seq<Byte>, p: nat, limit: nat, fields: seq<Field>, st: State, i: nat, wireType: nat)
    requires i < |fields| == |st.slots|
  {
    var f, slots := fields[i], Begun(fields, st, i).slots;
    if f.rule.Repeated? && !f.rule.counted && st.fixed != i && !FixedDone(fields, st) then true
    else if f.kind.Submessage? then
      || (f.rule.Repeated? && |ValuesIn(slots[i])| >= f.rule.max)
      || (forall begin, end :: !ReadsLength(data, p, limit, begin, end))
      || exists rs ::
           && InSchema(f.kind.fields, rs) && IsAt(data, p, limit, Prefixed(RecordsBytes(f.kind.fields, rs)))
           && CanTakeAll(f.kind.fields, StateOf(f.kind, StartIn(f, slots[i])), rs) && !CanMake(f.kind, StartIn(f, slots[i]), rs)
    else
      forall s, n :: !ReadsField(data, p, limit, fields, i, slots, wireType, s, n)
  }

  // No record can be taken at `p`, and it is not the end: no tag stands there, or what follows the
  // tag cannot be passed over or taken.
  ghost predicate Refuses(data: seq<Byte>, p: nat, limit: nat, fields: seq<Field>, st: State)
    requires |fields| == |st.slots|
  {
    && p < limit && (forall n :: !ReadsVarint32(data, p, limit, 0, n))
    && forall tag, wireType, q | ReadsTag(data, p, limit, tag, wireType, q) ::
         && ((forall i | 0 <= i < |fields| :: fields[i].tag != tag) ==> forall n :: !ReadsAny(data, q, limit, wireType, n))
         && forall i: nat | i < |fields| && fields[i].tag == tag :: RefusesField(data, q, limit, fields, st, i, wireType)
  }

  // A record that is refused is not decoded.
  lemma RefusedIs(data: seq<Byte>, p: nat, limit: nat, fields: seq<Field>, st: State, tag: nat, wireType: nat, q: nat)
    requires |fields| == |st.slots| && Refuses(data, p, limit, fields, st) && ReadsTag(data, p, limit, tag, wireType, q)
    ensures (forall i | 0 <= i < |fields| :: fields[i].tag != tag) ==> forall n :: !ReadsAny(data, q, limit, wireType, n)
    ensures forall i: nat | i < |fields| && fields[i].tag == tag :: RefusesField(data, q, limit, fields, st, i, wireType)
  {
    hide ReadsTag, ReadsAny, ReadsVarint32, RefusesField;
  }

  // The record with which a field that is refused is decoded.
  lemma RefusedFieldIs(data: seq<Byte>, p: nat, limit: nat, fields: seq<Field>, st: State, i: nat, wireType: nat) returns (r: Record)
    requires p <= limit <= |data| && i < |fields| == |st.slots| && RefusesField(data, p, limit, fields, st, i, wireType)
    requires fields[i].rule.Repeated? && !fields[i].rule.counted && st.fixed != i ==> FixedDone(fields, st)
    ensures var f, slots := fields[i], Begun(fields, st, i).slots;
            if f.kind.Submessage? then
              || (f.rule.Repeated? && |ValuesIn(slots[i])| >= f.rule.max)
              || (forall begin, end :: !ReadsLength(data, p, limit, begin, end))
              || (&& IsOfSchema(fields, r) && r.Nested? && r.i == i && IsAt(data, p, limit, RecordBody(fields, r))
                  && CanTakeAll(f.kind.fields, StateOf(f.kind, StartIn(f, slots[i])), r.rs)
                  && !CanMake(f.kind, StartIn(f, slots[i]), r.rs))
            else forall s, n :: !ReadsField(data, p, limit, fields, i, slots, wireType, s, n)
  {
    hide ReadsField, ReadsLength, IsAt, CanTakeAll, CanMake, InSchema, RecordsBytes, Prefixed, FixedDone;
    r := Unknown(0, 0, []);
    var f, slots := fields[i], Begun(fields, st, i).slots;
    if rs :| f.kind.Submessage?
             && InSchema(f.kind.fields, rs) && IsAt(data, p, limit, Prefixed(RecordsBytes(f.kind.fields, rs)))
             && CanTakeAll(f.kind.fields, StateOf(f.kind, StartIn(f, slots[i])), rs) && !CanMake(f.kind, StartIn(f, slots[i]), rs) {
      r := Nested(i, rs);
    }
  }

  // One record: a tag, and what follows it. Expected, if anything: the first of the records `left`,
  // before `end`. What is refused is not taken, and is not the end.
  method DecodeRecord(data: seq<Byte>, at: nat, limit: nat, k: Kind, st: State, it: Iter, seen: set<nat>, ghost left: seq<Record>, ghost end: seq<Byte>)
    returns (ok: bool, eof: bool, st': State, it': Iter, seen': set<nat>, next: nat)
    requires at < limit <= |data| < LIMIT32 && KindOk(k) && k.Submessage? && |st.slots| == |k.fields| && IterOk(k.fields, it)
    ensures IterOk(k.fields, it') && |st'.slots| == |k.fields| && (ok ==> at < next <= limit) && (eof ==> !ok && st' == st && seen' == seen)
    ensures AllInBounds(k.fields, st.slots) ==> AllInBounds(k.fields, st'.slots)
    ensures left != [] && InSchema(k.fields, left) && CanTakeAll(k.fields, st, left) && data[at..limit] == RecordsBytes(k.fields, left) + end ==>
              && ok && st' == Take(k.fields, st, left[0]) && InSchema(k.fields, left[1..])
              && data[next..limit] == RecordsBytes(k.fields, left[1..]) + end
              && (RequiredCovered(k.fields, seen', left[1..]) <==> RequiredCovered(k.fields, seen, left))
    ensures NumberOf(data[at]) == 0 ==> eof
    ensures left == [] && AllInBounds(k.fields, st.slots) && Refuses(data, at, limit, k.fields, st) ==> !ok && !eof
    decreases k, 1
  {
    hide IsAt, IsOfSchema, InSchema, RecordTag, RecordBody, RecordWire, TagBytes, Take, CanTake, RecordsBytes, KindOk, RequiredCovered,
         RequiredBefore, FixedDone, CanFill, FilledBy, CanTakeAll, TakeAll, Filled, AllInBounds, InBounds, CanMake, Refuses, RefusesField, ReadsTag,
         ReadsAny, ReadsField, ReadsVarint32, ReadsLength, NumberOf;
    var fields := k.fields;
    FieldsOk(k);
    ok, eof, st', it', seen', next := false, false, st, it, seen, at;
    ghost var t, w, body := 0, 0, [];
    ghost var coming := left != [] && InSchema(fields, left) && CanTakeAll(fields, st, left) && data[at..limit] == RecordsBytes(fields, left) + end;
    ghost var bad := left == [] && AllInBounds(fields, st.slots) && Refuses(data, at, limit, fields, st);
    if coming {
      NextRecord(data, at, limit, fields, left, end);
      BeginsWell(fields, st, left);
      TakenSo(fields, st, left[0]);
      TagFinds(fields, left[0]);
      t, w, body := RecordTag(fields, left[0]), RecordWire(fields, left[0]), RecordBody(fields, left[0]);
    }
    if bad {
      NotTheEnd(data, at, limit, fields, st);
    }
    var tag, wireType, found;
    ok, eof, tag, wireType, next := DecodeTag(data, at, limit, t, w);
    if !ok {
      return;
    }
    if bad {
      RefusedIs(data, at, limit, fields, st, tag, wireType, next);
    }
    found, it' := IterFind(fields, it, tag);
    if !found {
      ok, next := SkipField(data, next, limit, wireType, body);
      if coming {
        CoversTheSame(fields, seen, seen, left);
      }
      return;
    }
    var i := it'.pos;
    if coming {
      TagsDiffer(k, i, left[0].i);
    }
    if fields[i].rule.Repeated? && !fields[i].rule.counted && st.fixed != i && !FixedDone(fields, st) {
      return false, false, st, it', seen, next;
    }
    ghost var r := if coming then left[0] else Unknown(0, 0, []);
    if bad {
      r := RefusedFieldIs(data, next, limit, fields, st, i, wireType);
    }
    if AllInBounds(fields, st.slots) {
      BegunInBounds(fields, st, i);
    }
    st' := Begun(fields, st, i);
    if AllInBounds(fields, st'.slots) {
      RoomIsKept(fields, st'.slots, i);
    }
    if fields[i].rule.Required? && it'.required < MAX_REQUIRED {
      seen' := seen + {it'.required};
    }
    assert Submessage(fields) == k;
    var slots;
    ok, slots, next := DecodeField(data, next, limit, fields, fields[i], i, st'.slots, wireType, r);
    if ok {
      st' := st'.(slots := slots);
    }
    if coming {
      CoversTheSame(fields, seen, seen', left);
    }
  }

  // Records until the end of the message. Expected, if anything: `rs`, and `end` where it ends.
  // Then it succeeds exactly if nothing is missing, and the message is what the records make of
  // `start`. Or `end` begins with a record that is refused, and so is the message.
  method DecodeMessage(data: seq<Byte>, p: nat, limit: nat, k: Kind, start: Value, ghost rs: seq<Record>, ghost end: seq<Byte>)
    returns (ok: bool, u: Value)
    requires p <= limit <= |data| < LIMIT32 && KindOk(k) && k.Submessage? && start.Message? && |start.slots| == |k.fields|
    ensures u.Message? && |u.slots| == |k.fields| && (InBounds(k, start) ==> InBounds(k, u))
    ensures InSchema(k.fields, rs) && CanTakeAll(k.fields, StateOf(k, start), rs) && EndsHere(end)
            && data[p..limit] == RecordsBytes(k.fields, rs) + end ==>
              u == Made(k, start, rs) && (ok <==> CanMake(k, start, rs))
    ensures InBounds(k, start) && InSchema(k.fields, rs) && CanTakeAll(k.fields, StateOf(k, start), rs)
            && data[p..limit] == RecordsBytes(k.fields, rs) + end && |end| <= limit
            && Refuses(data, limit - |end|, limit, k.fields, TakeAll(k.fields, StateOf(k, start), rs)) ==>
              !ok
    decreases k, 2
  {
    hide IsAt, IsOfSchema, InSchema, Take, CanTake, RecordsBytes, KindOk, RequiredCovered, AllRequiredSeen, RequiredBefore, FixedDone, CanTakeAll,
         TakeAll, EndsHere, AllInBounds, InBounds, Made, CanMake, Refuses, NumberOf;
    var fields := k.fields;
    var st, seen: set<nat>, it, next := State(start.slots, -1), {}, Iter(0, 0), p;
    assert IterOk(fields, it) by { NoneBefore(fields); }
    BoundsOfMessage(k);
    ghost var known := InSchema(fields, rs) && CanTakeAll(fields, st, rs) && data[p..limit] == RecordsBytes(fields, rs) + end;
    ghost var refused := known && InBounds(k, start) && |end| <= limit && Refuses(data, limit - |end|, limit, fields, TakeAll(fields, st, rs));
    ghost var expected := known && (EndsHere(end) || refused);
    ghost var left := rs;
    if refused {
      NotTheEnd(data, limit - |end|, limit, fields, TakeAll(fields, st, rs));
    }
    while next < limit
      invariant p <= next <= limit && |st.slots| == |fields| && IterOk(fields, it)
      invariant InBounds(k, start) ==> AllInBounds(fields, st.slots)
      invariant expected ==>
                  && InSchema(fields, left) && CanTakeAll(fields, st, left)
                  && TakeAll(fields, st, left) == TakeAll(fields, StateOf(k, start), rs)
                  && data[next..limit] == RecordsBytes(fields, left) + end
                  && (RequiredCovered(fields, seen, left) <==> RequiredCovered(fields, {}, rs))
      decreases limit - next
    {
      if expected && left != [] {
        BeginsWell(fields, st, left);
      } else if expected {
        TakesNothing(fields, st);
        BytesOfNone(data, next, limit, fields, end);
        AtTheEnd(data, next, limit, fields, end);
      }
      var more, eof, st', after;
      more, eof, st', it, seen, after := DecodeRecord(data, next, limit, k, st, it, seen, left, end);
      if !more {
        u := Message(st'.slots);
        if eof {
          break;
        }
        return false, u;
      }
      st, next := st', after;
      left := if left == [] then [] else left[1..];
    }
    u := Message(st.slots);
    if expected && left != [] {
      NextRecord(data, next, limit, fields, left, end);
    }
    if expected {
      TakesNothing(fields, st);
      BytesOfNone(data, next, limit, fields, end);
      Finished(k, start, rs, st, seen);
    }
    if !FixedDone(fields, st) {
      return false, u;
    }
    ok := CheckRequired(fields, it, seen);
  }

  lemma NotTheEnd(data: seq<Byte>, p: nat, limit: nat, fields: seq<Field>, st: State)
    requires |fields| == |st.slots| && Refuses(data, p, limit, fields, st)
    ensures p < limit && forall n :: !ReadsVarint32(data, p, limit, 0, n)
  {
    hide ReadsVarint32, ReadsTag, ReadsAny, RefusesField;
  }

  lemma BytesOfNone(data: seq<Byte>, p: nat, limit: nat, fields: seq<Field>, end: seq<Byte>)
    requires p <= limit <= |data| && data[p..limit] == RecordsBytes(fields, []) + end
    ensures |end| == limit - p
  {
    assert data[p..limit] == end;
  }

  lemma RoomIsKept(fields: seq<Field>, slots: seq<Slot>, i: nat)
    requires i < |fields| == |slots| && AllInBounds(fields, slots)
    ensures (fields[i].rule.Repeated? ==> |ValuesIn(slots[i])| <= fields[i].rule.max)
  {
    hide InBounds;
    assert SlotInBounds(fields[i], slots[i]);
  }

  // With no record left.
  lemma Finished(k: Kind, start: Value, rs: seq<Record>, st: State, seen: set<nat>)
    requires k.Submessage? && InSchema(k.fields, rs) && CanTakeAll(k.fields, StateOf(k, start), rs) && |st.slots| == |k.fields|
    requires TakeAll(k.fields, st, []) == TakeAll(k.fields, StateOf(k, start), rs)
    requires RequiredCovered(k.fields, seen, []) <==> RequiredCovered(k.fields, {}, rs)
    ensures Message(st.slots) == Made(k, start, rs)
    ensures CanMake(k, start, rs) <==> FixedDone(k.fields, st) && AllRequiredSeen(k.fields, seen)
  {
    hide RequiredCovered, AllRequiredSeen, FixedDone;
    TakesNothing(k.fields, st);
    CoveredMeansSeen(k.fields, seen);
  }

  lemma BoundsOfMessage(k: Kind)
    requires k.Submessage?
    ensures forall slots :: |slots| == |k.fields| ==> (InBounds(k, Message(slots)) <==> AllInBounds(k.fields, slots))
  {
  }

  lemma NoneBefore(fields: seq<Field>)
    ensures RequiredBefore(fields, 0) == 0
  {
  }

  lemma FieldsOk(k: Kind)
    requires KindOk(k) && k.Submessage?
    ensures forall i | 0 <= i < |k.fields| :: 0 < k.fields[i].tag <= MAX_TAG
  {
  }

  // ---- Whole messages

  // Into a message of this schema, from defaults. Expected, if anything: `rs`, and `end` where
  // they end, or a record that is refused.
  method Decode(data: seq<Byte>, k: Kind, ghost rs: seq<Record>, ghost end: seq<Byte>) returns (ok: bool, u: Value)
    requires KindOk(k) && k.Submessage? && |data| < LIMIT32
    ensures u.Message? && |u.slots| == |k.fields| && InBounds(k, u)
    ensures InSchema(k.fields, rs) && CanTakeAll(k.fields, StateOf(k, Zero(k)), rs) && EndsHere(end)
            && data == RecordsBytes(k.fields, rs) + end ==>
              u == Made(k, Zero(k), rs) && (ok <==> CanMake(k, Zero(k), rs))
    ensures InSchema(k.fields, rs) && CanTakeAll(k.fields, StateOf(k, Zero(k)), rs) && data == RecordsBytes(k.fields, rs) + end
            && Refuses(data, |data| - |end|, |data|, k.fields, TakeAll(k.fields, StateOf(k, Zero(k)), rs)) ==>
              !ok
  {
    hide Refuses, RecordsBytes, TakeAll, CanTakeAll;
    assert data[0..|data|] == data;
    ZeroInBounds(k);
    ok, u := DecodeMessage(data, 0, |data|, k, Zero(k), rs, end);
  }

  // The records of a message are read back with any others in between that the schema does not
  // know, and with anything behind a zero.
  method DecodeAmongUnknown(data: seq<Byte>, k: Kind, v: Value, ghost rs: seq<Record>, ghost end: seq<Byte>) returns (ok: bool, u: Value)
    requires KindOk(k) && k.Submessage? && |data| < LIMIT32 && Fits(k, v)
    requires InSchema(k.fields, rs) && v.Message? && |v.slots| == |k.fields|
    requires KnownOf(rs) == MessageRecords(k.fields, v.slots, |v.slots|)
    requires data == RecordsBytes(k.fields, rs) + end && EndsHere(end)
    ensures ok && u == v
  {
    hide RecordsBytes, EndsHere, Fits, KnownOf, MessageRecords, TakeAll, CanTakeAll, IsComplete;
    ghost var whole := WholeMessage(k, v);
    MadeOfKnown(k, Zero(k), rs);
    ok, u := Decode(data, k, rs, end);
  }

  // What was encoded is decoded again, whatever is in the message and whatever its schema is. What
  // was absent is at its default afterwards; everything present comes back.
  method EncodeAndDecode(k: Kind, v: Value) returns (size: nat, ok: bool, u: Value)
    requires KindOk(k) && Encodable(k, v) && v.Message?
    ensures size < LIMIT32 ==> ok && u == Settled(k, v)
    ensures size < LIMIT32 && Fits(k, v) ==> u == v
  {
    hide MessageBytes, Fits, Encodable, RecordsBytes, CanTakeAll, TakeAll, IsComplete;
    ghost var settled := Settled(k, v);
    SettledFits(k, v);
    SettledMessage(k, v);
    if Fits(k, v) {
      SettledIsSame(k, v);
    }
    ghost var rs := WholeMessage(k, settled);
    var data;
    ok, size := PbEncode.GetEncodedSize(k, v);
    ok, data := PbEncode.Encode(k, v, size);
    assert data + [] == data;
    u := Zero(k);
    if size < LIMIT32 {
      ok, u := Decode(data, k, rs, []);
    }
  }

  lemma SettledMessage(k: Kind, v: Value)
    requires Encodable(k, v) && v.Message?
    ensures k.Submessage? && MessageOf(k, Settled(k, v)) == MessageOf(k, v)
  {
    SettledMessageBytes(k, v, |v.slots|);
  }
}
