// Messages by schema: fields, values, and the bytes they stand for.

module PbFormat {
  import opened Bytes
  import opened Coding

  // Sizes are in bytes; `max` of bytes is their room, and of a string its room with the end mark.
  datatype Kind =
    | Bool
    | Signed(size: nat)        // varint
    | Unsigned(size: nat)      // varint
    | ZigZag(size: nat)        // varint
    | Word32
    | Word64
    | Binary(max: nat)
    | Text(max: nat)
    | FixedBinary(size: nat)
    | Submessage(fields: seq<Field>)

  datatype Rule =
    | Required
    | Optional(hasFlag: bool)               // without a flag, present unless it has the default
    | Repeated(max: nat, counted: bool)     // not counted: always `max` of them
    | Oneof(group: nat)

  datatype Field = Field(tag: nat, kind: Kind, rule: Rule)

  datatype Value = Number(n: int) | Blob(bytes: seq<Byte>) | Message(slots: seq<Slot>)

  // What a message holds for one field.
  datatype Slot = One(v: Value) | Maybe(has: bool, v: Value) | Many(vs: seq<Value>) | Choice(chosen: bool, v: Value)

  const MAX_TAG: nat := 0x1fff_ffff

  predicate Packable(k: Kind) {
    k.Bool? || k.Signed? || k.Unsigned? || k.ZigZag? || k.Word32? || k.Word64?
  }

  function WireType(k: Kind): (w: nat)
    ensures w < 8
  {
    if k.Word64? then 1 else if k.Word32? then 5 else if Packable(k) then 0 else 2
  }

  // ---- What is well formed

  predicate SizeOk(size: nat) {
    size == 1 || size == 2 || size == 4 || size == 8
  }

  ghost predicate KindOk(k: Kind) {
    match k
    case Signed(size) => SizeOk(size)
    case Unsigned(size) => SizeOk(size)
    case ZigZag(size) => SizeOk(size)
    case Binary(max) => max < LIMIT32
    case Text(max) => max < LIMIT32
    case FixedBinary(size) => size < LIMIT32
    case Submessage(fields) =>
      && (forall i, j | 0 <= i < j < |fields| :: fields[i].tag != fields[j].tag)
      && (forall i | 0 <= i < |fields| :: 0 < fields[i].tag <= MAX_TAG && KindOk(fields[i].kind))
    case _ => true
  }

  // 2 to the power 8 * size.
  function Range(size: nat): nat {
    if size == 1 then 0x100 else if size == 2 then 0x1_0000 else if size == 4 then LIMIT32 else LIMIT64
  }

  predicate NumberFits(k: Kind, n: int) {
    match k
    case Bool => 0 <= n <= 1
    case Signed(size) => -(Range(size) / 2) <= n < Range(size) / 2
    case Unsigned(size) => 0 <= n < Range(size)
    case ZigZag(size) => -(Range(size) / 2) <= n < Range(size) / 2
    case Word32 => 0 <= n < LIMIT32
    case Word64 => 0 <= n < LIMIT64
    case _ => false
  }

  predicate BlobFits(k: Kind, b: seq<Byte>) {
    match k
    case Binary(max) => |b| <= max
    case Text(max) => |b| < max && 0 !in b
    case FixedBinary(size) => |b| == size
    case _ => false
  }

  // The value is one of this kind, with what is absent at its default.
  ghost predicate Fits(k: Kind, v: Value)
    decreases v, 1
  {
    match v
    case Number(n) => NumberFits(k, n)
    case Blob(b) => BlobFits(k, b)
    case Message(slots) =>
      && k.Submessage? && |slots| == |k.fields|
      && (forall i | 0 <= i < |slots| :: SlotFits(k.fields[i], slots[i]))
      && AtMostOne(k.fields, slots)
  }

  ghost predicate SlotFits(f: Field, s: Slot)
    decreases s, 0
  {
    match f.rule
    case Required => s.One? && Fits(f.kind, s.v)
    case Optional(hasFlag) =>
      if hasFlag then s.Maybe? && (if s.has then Fits(f.kind, s.v) else s.v == Zero(f.kind)) else s.One? && Fits(f.kind, s.v)
    case Repeated(max, counted) =>
      && s.Many? && |s.vs| <= max && (!counted ==> |s.vs| == max)
      && forall i | 0 <= i < |s.vs| :: Fits(f.kind, s.vs[i])
    case Oneof(_) => s.Choice? && if s.chosen then Fits(f.kind, s.v) else s.v == Zero(f.kind)
  }

  // The same, with anything in the place of what is absent.
  ghost predicate Encodable(k: Kind, v: Value)
    decreases v, 1
  {
    match v
    case Number(n) => NumberFits(k, n)
    case Blob(b) => BlobFits(k, b)
    case Message(slots) =>
      && k.Submessage? && |slots| == |k.fields|
      && (forall i | 0 <= i < |slots| :: SlotEncodable(k.fields[i], slots[i]))
      && AtMostOne(k.fields, slots)
  }

  ghost predicate SlotEncodable(f: Field, s: Slot)
    decreases s, 0
  {
    match f.rule
    case Required => s.One? && Encodable(f.kind, s.v)
    case Optional(hasFlag) => if hasFlag then s.Maybe? && (s.has ==> Encodable(f.kind, s.v)) else s.One? && Encodable(f.kind, s.v)
    case Repeated(max, counted) =>
      && s.Many? && |s.vs| <= max && (!counted ==> |s.vs| == max)
      && forall i | 0 <= i < |s.vs| :: Encodable(f.kind, s.vs[i])
    case Oneof(_) => s.Choice? && (s.chosen ==> Encodable(f.kind, s.v))
  }

  predicate SameGroup(f: Field, g: Field) {
    f.rule.Oneof? && f.rule == g.rule
  }

  // Of a group, at most one field is chosen.
  ghost predicate AtMostOne(fields: seq<Field>, slots: seq<Slot>)
    requires |fields| == |slots|
  {
    forall i, j | 0 <= i < j < |fields| && SameGroup(fields[i], fields[j]) ::
      !(slots[i].Choice? && slots[i].chosen && slots[j].Choice? && slots[j].chosen)
  }

  // ---- Defaults

  function Zero(k: Kind): Value {
    match k
    case Binary(_) => Blob([])
    case Text(_) => Blob([])
    case FixedBinary(size) => Blob(seq(size, _ => 0))
    case Submessage(fields) => Message(seq(|fields|, i requires 0 <= i < |fields| => ZeroSlot(fields[i])))
    case _ => Number(0)
  }

  function ZeroSlot(f: Field): Slot {
    match f.rule
    case Required => One(Zero(f.kind))
    case Optional(hasFlag) => if hasFlag then Maybe(false, Zero(f.kind)) else One(Zero(f.kind))
    case Repeated(_, _) => Many([])
    case Oneof(_) => Choice(false, Zero(f.kind))
  }

  // Whether a field without a flag is left out.
  ghost predicate IsDefault(f: Field, s: Slot)
    decreases s
  {
    match f.rule
    case Required => false
    case Repeated(_, counted) => counted && s.Many? && s.vs == []
    case Oneof(_) => s.Choice? && !s.chosen
    case Optional(hasFlag) =>
      if hasFlag then s.Maybe? && !s.has
      else
        && s.One?
        && match s.v {
             case Number(n) => n == 0
             case Blob(b) => if f.kind.FixedBinary? then f.kind.size == 0 else b == []
             case Message(slots) =>
               f.kind.Submessage? && |slots| == |f.kind.fields| && forall i | 0 <= i < |slots| :: IsDefault(f.kind.fields[i], slots[i])
           }
  }

  // What is left out is what decoding begins with.
  lemma {:induction false} DefaultIsZero(f: Field, s: Slot)
    requires IsDefault(f, s) && SlotFits(f, s)
    ensures s == ZeroSlot(f)
    decreases s
  {
    if f.rule.Optional? && !f.rule.hasFlag && s.v.Message? {
      forall i | 0 <= i < |s.v.slots|
        ensures s.v.slots[i] == ZeroSlot(f.kind.fields[i])
      {
        DefaultIsZero(f.kind.fields[i], s.v.slots[i]);
      }
      assert s.v.slots == Zero(f.kind).slots;
    }
  }

  // ---- Bytes

  function ZigZagged(n: int): nat {
    if n < 0 then -2 * n - 1 else 2 * n
  }

  // 0, -1, 1, -2, 2 and so on are numbered from 0.
  lemma ZigZagOrder(n: int)
    requires n >= 0
    ensures ZigZagged(0) == 0
    ensures ZigZagged(-n - 1) == ZigZagged(n) + 1 && ZigZagged(n + 1) == ZigZagged(-n - 1) + 1
  {
  }

  // Negative numbers as 64 bits in two's complement.
  function NumberBytes(k: Kind, n: int): seq<Byte> {
    if k.Word32? then Fixed32(n % LIMIT32)
    else if k.Word64? then Fixed64(n % LIMIT64)
    else if k.ZigZag? then Varint(ZigZagged(n))
    else Varint(n % LIMIT64)
  }

  function NumbersBytes(k: Kind, vs: seq<Value>): seq<Byte> {
    if vs == [] then [] else
      (if vs[0].Number? then NumberBytes(k, vs[0].n) else []) + NumbersBytes(k, vs[1..])
  }

  function TagBytes(tag: nat, wireType: nat): seq<Byte> {
    Varint(tag * 8 + wireType)
  }

  ghost function ValueBytes(k: Kind, v: Value): seq<Byte>
    decreases v, 2, 0
  {
    match v
    case Number(n) => NumberBytes(k, n)
    case Blob(b) => Prefixed(b)
    case Message(slots) => if k.Submessage? && |slots| == |k.fields| then Prefixed(MessageBytes(k.fields, v, |slots|)) else []
  }

  // The first `n` fields.
  ghost function MessageBytes(fields: seq<Field>, v: Value, n: nat): seq<Byte>
    requires v.Message? && n <= |v.slots| == |fields|
    decreases v, 1, n
  {
    if n == 0 then [] else MessageBytes(fields, v, n - 1) + SlotBytes(fields[n-1], v.slots[n-1])
  }

  ghost predicate IsPresent(f: Field, s: Slot) {
    match s
    case One(_) => !(f.rule.Optional? && IsDefault(f, s))
    case Maybe(has, _) => has
    case Choice(chosen, _) => chosen
    case Many(vs) => vs != []
  }

  ghost function SlotBytes(f: Field, s: Slot): seq<Byte>
    decreases s, 2, 0
  {
    if !IsPresent(f, s) then []
    else if s.Many? then
      if Packable(f.kind) then TagBytes(f.tag, 2) + Prefixed(NumbersBytes(f.kind, s.vs)) else ItemsBytes(f, s, |s.vs|)
    else TagBytes(f.tag, WireType(f.kind)) + ValueBytes(f.kind, s.v)
  }

  ghost function ItemsBytes(f: Field, s: Slot, n: nat): seq<Byte>
    requires s.Many? && n <= |s.vs|
    decreases s, 1, n
  {
    if n == 0 then [] else ItemsBytes(f, s, n - 1) + (TagBytes(f.tag, WireType(f.kind)) + ValueBytes(f.kind, s.vs[n-1]))
  }

  // The wire type of every kind.
  lemma WireTypes(k: Kind)
    ensures WireType(k) == 0 <==> k.Bool? || k.Signed? || k.Unsigned? || k.ZigZag?
    ensures WireType(k) == 1 <==> k.Word64?
    ensures WireType(k) == 2 <==> k.Binary? || k.Text? || k.FixedBinary? || k.Submessage?
    ensures WireType(k) == 5 <==> k.Word32?
  {
  }

  // The bytes of a whole message.
  ghost function MessageOf(k: Kind, v: Value): seq<Byte> {
    if v.Message? && k.Submessage? && |v.slots| == |k.fields| then MessageBytes(k.fields, v, |v.slots|) else []
  }

  // Field 1 with the number 150, and field 2 with the string "testing".
  lemma KnownNumber()
    ensures var bytes := SlotBytes(Field(1, Signed(4), Required), One(Number(150)));
            |bytes| == 3 && NumberOf(bytes[0]) == 0x08 && NumberOf(bytes[1]) == 0x96 && NumberOf(bytes[2]) == 0x01
  {
    hide ByteOf, NumberOf;
    ByteRoundTrip(8);
    VarintOfTwo(150);
    ByteRoundTrip(0x96);
    ByteRoundTrip(1);
  }

  lemma KnownString()
    ensures var testing: seq<Byte> := [0x74, 0x65, 0x73, 0x74, 0x69, 0x6e, 0x67];
            var bytes := SlotBytes(Field(2, Text(16), Required), One(Blob(testing)));
            |bytes| == 9 && NumberOf(bytes[0]) == 0x12 && NumberOf(bytes[1]) == 0x07 && bytes[2..] == testing
  {
    hide ByteOf, NumberOf;
    ByteRoundTrip(0x12);
    ByteRoundTrip(7);
  }

  // ---- What is absent

  // The value with what is absent at its default.
  function Settled(k: Kind, v: Value): Value
    decreases v
  {
    match v
    case Message(slots) =>
      if k.Submessage? && |slots| == |k.fields| then
        Message(seq(|slots|, i requires 0 <= i < |slots| => SettledSlot(k.fields[i], slots[i])))
      else v
    case _ => v
  }

  function SettledSlot(f: Field, s: Slot): Slot
    decreases s
  {
    match s
    case One(v) => One(Settled(f.kind, v))
    case Maybe(has, v) => Maybe(has, if has then Settled(f.kind, v) else Zero(f.kind))
    case Many(vs) => Many(seq(|vs|, i requires 0 <= i < |vs| => Settled(f.kind, vs[i])))
    case Choice(chosen, v) => Choice(chosen, if chosen then Settled(f.kind, v) else Zero(f.kind))
  }

  lemma {:induction false} SettledFits(k: Kind, v: Value)
    requires Encodable(k, v)
    ensures Fits(k, Settled(k, v))
    decreases v, 1
  {
    if v.Message? {
      forall i | 0 <= i < |v.slots|
        ensures SlotFits(k.fields[i], SettledSlot(k.fields[i], v.slots[i]))
      {
        SettledSlotFits(k.fields[i], v.slots[i]);
      }
    }
  }

  lemma {:induction false} SettledSlotFits(f: Field, s: Slot)
    requires SlotEncodable(f, s)
    ensures SlotFits(f, SettledSlot(f, s))
    decreases s, 0
  {
    match s
    case One(v) => SettledFits(f.kind, v);
    case Maybe(has, v) =>
      if has {
        SettledFits(f.kind, v);
      }
    case Many(vs) =>
      forall i | 0 <= i < |vs|
        ensures Fits(f.kind, Settled(f.kind, vs[i]))
      {
        SettledFits(f.kind, vs[i]);
      }
    case Choice(chosen, v) =>
      if chosen {
        SettledFits(f.kind, v);
      }
  }

  // Nothing else changes.
  lemma {:induction false} SettledIsSame(k: Kind, v: Value)
    requires Fits(k, v)
    ensures Settled(k, v) == v && Encodable(k, v)
    decreases v, 1
  {
    if v.Message? {
      forall i | 0 <= i < |v.slots|
        ensures SettledSlot(k.fields[i], v.slots[i]) == v.slots[i] && SlotEncodable(k.fields[i], v.slots[i])
      {
        SettledSlotIsSame(k.fields[i], v.slots[i]);
      }
      assert Settled(k, v).slots == v.slots;
    }
  }

  lemma {:induction false} SettledSlotIsSame(f: Field, s: Slot)
    requires SlotFits(f, s)
    ensures SettledSlot(f, s) == s && SlotEncodable(f, s)
    decreases s, 0
  {
    match s
    case One(v) => SettledIsSame(f.kind, v);
    case Maybe(has, v) =>
      if has {
        SettledIsSame(f.kind, v);
      }
    case Many(vs) =>
      forall i | 0 <= i < |vs|
        ensures Settled(f.kind, vs[i]) == vs[i] && Encodable(f.kind, vs[i])
      {
        SettledIsSame(f.kind, vs[i]);
      }
      assert SettledSlot(f, s).vs == vs;
    case Choice(chosen, v) =>
      if chosen {
        SettledIsSame(f.kind, v);
      }
  }

  lemma {:induction false} SettledDefault(f: Field, s: Slot)
    requires SlotEncodable(f, s)
    ensures IsDefault(f, SettledSlot(f, s)) <==> IsDefault(f, s)
    decreases s
  {
    if f.rule.Optional? && !f.rule.hasFlag && s.v.Message? {
      var slots := s.v.slots;
      forall i | 0 <= i < |slots|
        ensures IsDefault(f.kind.fields[i], SettledSlot(f.kind.fields[i], slots[i])) <==> IsDefault(f.kind.fields[i], slots[i])
      {
        SettledDefault(f.kind.fields[i], slots[i]);
      }
    }
  }

  // What is absent leaves no trace in the bytes.
  lemma {:induction false} SettledBytes(k: Kind, v: Value)
    requires Encodable(k, v)
    ensures ValueBytes(k, Settled(k, v)) == ValueBytes(k, v)
    decreases v, 2, 0
  {
    if v.Message? {
      SettledMessageBytes(k, v, |v.slots|);
    }
  }

  lemma {:induction false} SettledMessageBytes(k: Kind, v: Value, n: nat)
    requires Encodable(k, v) && v.Message? && n <= |v.slots|
    ensures k.Submessage? && |v.slots| == |k.fields| && Settled(k, v).Message? && |Settled(k, v).slots| == |v.slots|
    ensures MessageBytes(k.fields, Settled(k, v), n) == MessageBytes(k.fields, v, n)
    decreases v, 1, n
  {
    hide SlotBytes, SlotEncodable;
    if n > 0 {
      SettledMessageBytes(k, v, n - 1);
      assert SlotEncodable(k.fields[n-1], v.slots[n-1]);
      SettledSlotBytes(k.fields[n-1], v.slots[n-1]);
    }
  }

  lemma {:induction false} SettledSlotBytes(f: Field, s: Slot)
    requires SlotEncodable(f, s)
    ensures SlotBytes(f, SettledSlot(f, s)) == SlotBytes(f, s)
    decreases s, 2, 0
  {
    hide Prefixed, NumberBytes, TagBytes, Encodable;
    SettledDefault(f, s);
    hide IsDefault;
    match s
    case One(v) => SettledBytes(f.kind, v);
    case Maybe(has, v) =>
      if has {
        SettledBytes(f.kind, v);
      }
    case Many(vs) =>
      if Packable(f.kind) {
        SettledNumbers(f.kind, vs);
      } else {
        SettledItems(f, s, |vs|);
      }
    case Choice(chosen, v) =>
      if chosen {
        SettledBytes(f.kind, v);
      }
  }

  lemma SettledNumbers(k: Kind, vs: seq<Value>)
    requires Packable(k) && forall i | 0 <= i < |vs| :: Encodable(k, vs[i])
    ensures seq(|vs|, i requires 0 <= i < |vs| => Settled(k, vs[i])) == vs
  {
    forall i | 0 <= i < |vs|
      ensures Settled(k, vs[i]) == vs[i]
    {
      assert Encodable(k, vs[i]);
    }
  }

  lemma {:induction false} SettledItems(f: Field, s: Slot, n: nat)
    requires SlotEncodable(f, s) && s.Many? && n <= |s.vs|
    ensures ItemsBytes(f, SettledSlot(f, s), n) == ItemsBytes(f, s, n)
    decreases s, 1, n
  {
    hide ValueBytes, TagBytes, Encodable;
    if n > 0 {
      SettledItems(f, s, n - 1);
      SettledBytes(f.kind, s.vs[n-1]);
    }
  }
}
