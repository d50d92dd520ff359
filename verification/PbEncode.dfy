// Writing messages to a stream that counts only, or writes to a buffer of a given size.

module PbEncode {
  import opened Bytes
  import opened Coding
  import opened PbFormat

  datatype OStream = OStream(sizing: bool, maxSize: nat, written: nat, out: seq<Byte>)

  const SIZING: OStream := OStream(true, 0, 0, [])

  predicate Ready(s: OStream) {
    s.sizing || s.written <= s.maxSize
  }

  // These bytes were written, or counted, exactly if there was room for all of them.
  ghost predicate Wrote(s: OStream, ok: bool, s': OStream, bytes: seq<Byte>) {
    && (ok <==> s.sizing || s.written + |bytes| <= s.maxSize)
    && (ok ==> s' == s.(written := s.written + |bytes|, out := if s.sizing then s.out else s.out + bytes))
  }

  lemma WroteBoth(s: OStream, s1: OStream, ok: bool, s2: OStream, a: seq<Byte>, b: seq<Byte>)
    requires Wrote(s, true, s1, a) && Wrote(s1, ok, s2, b)
    ensures Wrote(s, ok, s2, a + b)
  {
    assert (s.out + a) + b == s.out + (a + b);
  }

  // What does not fit does not with more after it.
  lemma StillFails(s: OStream, s1: OStream, s2: OStream, a: seq<Byte>, all: seq<Byte>)
    requires Wrote(s, false, s1, a) && |a| <= |all|
    ensures Wrote(s, false, s2, all)
  {
  }

  lemma WroteNothing(s: OStream)
    requires Ready(s)
    ensures Wrote(s, true, s, [])
  {
    assert s.out + [] == s.out;
  }

  method Write(s: OStream, buf: seq<Byte>) returns (ok: bool, s': OStream)
    requires Ready(s)
    ensures Wrote(s, ok, s', buf)
  {
    s' := s;
    if |buf| > 0 && !s.sizing {
      if s.written + |buf| > s.maxSize {
        return false, s;
      }
      s' := s'.(out := s.out + buf);
    }
    assert s.out + [] == s.out;
    s' := s'.(written := s.written + |buf|);
    ok := true;
  }

  // ---- Numbers

  // Every byte gets the high bit first; the last loses it again.
  method EncodeVarint(s: OStream, value: nat) returns (ok: bool, s': OStream)
    requires Ready(s)
    ensures Wrote(s, ok, s', Varint(value))
  {
    hide ByteOf, NumberOf, Wrote, Varint;
    VarintStep(value);
    if value <= 0x7f {
      ok, s' := Write(s, [ByteOf(value)]);
      return;
    }
    var buffer: seq<Byte> := [];
    var left: nat := value;
    ghost var before: seq<Byte>, last: nat := [], value;
    while left > 0
      invariant if buffer == [] then left == value else
                  left == last / 128 && buffer == before + [ByteOf(last % 128 + 128)] && before + Varint(last) == Varint(value)
      invariant buffer != [] || left > 0
      decreases left
    {
      if buffer != [] {
        VarintStep(last);
        assert buffer + Varint(left) == before + ([ByteOf(last % 128 + 128)] + Varint(left));
      }
      before, last := buffer, left;
      assert [] + Varint(value) == Varint(value);
      buffer := buffer + [ByteOf(left % 128 + 128)];
      left := left / 128;
    }
    ByteRoundTrip(last + 128);
    VarintStep(last);
    buffer := buffer[|buffer|-1 := ByteOf(NumberOf(buffer[|buffer|-1]) - 128)];
    assert buffer == before + [ByteOf(last)];
    ok, s' := Write(s, buffer);
  }

  // In 64 bits: doubled, and inverted for a negative number.
  method EncodeSvarint(s: OStream, value: int) returns (ok: bool, s': OStream)
    requires Ready(s) && -(LIMIT64 / 2) <= value < LIMIT64 / 2
    ensures Wrote(s, ok, s', Varint(ZigZagged(value)))
  {
    hide Wrote, Varint;
    var zigzagged;
    if value < 0 {
      zigzagged := LIMIT64 - 1 - (2 * (value + LIMIT64)) % LIMIT64;
      assert 2 * (value + LIMIT64) == (2 * value + LIMIT64) + LIMIT64;
      assert zigzagged == -2 * value - 1;
    } else {
      zigzagged := 2 * value;
    }
    ok, s' := EncodeVarint(s, zigzagged);
  }

  method EncodeNumber(s: OStream, k: Kind, n: int) returns (ok: bool, s': OStream)
    requires Ready(s) && KindOk(k) && NumberFits(k, n)
    ensures Wrote(s, ok, s', NumberBytes(k, n))
  {
    hide Wrote, Varint, Fixed32, Fixed64;
    if k.Word32? {
      ok, s' := Write(s, Fixed32(n % LIMIT32));
    } else if k.Word64? {
      ok, s' := Write(s, Fixed64(n % LIMIT64));
    } else if k.ZigZag? {
      ok, s' := EncodeSvarint(s, n);
    } else if k.Bool? {
      ok, s' := EncodeVarint(s, if n != 0 then 1 else 0);
    } else {
      ok, s' := EncodeVarint(s, n % LIMIT64);
    }
  }

  method EncodeTag(s: OStream, wireType: nat, tag: nat) returns (ok: bool, s': OStream)
    requires Ready(s)
    ensures Wrote(s, ok, s', TagBytes(tag, wireType))
  {
    ok, s' := EncodeVarint(s, tag * 8 + wireType);
  }

  method EncodeString(s: OStream, buffer: seq<Byte>) returns (ok: bool, s': OStream)
    requires Ready(s)
    ensures Wrote(s, ok, s', Prefixed(buffer))
  {
    hide Varint;
    ok, s' := EncodeVarint(s, |buffer|);
    if !ok {
      StillFails(s, s', s', Varint(|buffer|), Prefixed(buffer));
      return;
    }
    var s1 := s';
    ok, s' := Write(s1, buffer);
    WroteBoth(s, s1, ok, s', Varint(|buffer|), buffer);
  }

  // The length of a string that ends with a zero byte.
  method StringLength(memory: seq<Byte>, max: nat, ghost text: seq<Byte>) returns (size: nat)
    requires memory == text + [0] && 0 !in text && |text| < max
    ensures size == |text|
  {
    size := 0;
    while size < max && memory[size] != 0
      invariant size <= |text|
    {
      size := size + 1;
    }
  }

  // ---- Fields and messages

  // Whether a field has its default, in which case it may be left out.
  method CheckDefault(f: Field, s: Slot) returns (b: bool)
    requires SlotEncodable(f, s)
    ensures b == IsDefault(f, s)
    decreases s
  {
    if f.rule.Required? {
      return false;
    } else if f.rule.Repeated? {
      return f.rule.counted && s.vs == [];
    } else if f.rule.Oneof? {
      return !s.chosen;
    } else if f.rule.hasFlag {
      return !s.has;
    }
    match s.v {
      case Number(n) =>
        b := n == 0;
      case Blob(bytes) =>
        b := if f.kind.FixedBinary? then f.kind.size == 0 else bytes == [];
      case Message(slots) =>
        for i := 0 to |slots|
          invariant forall j | 0 <= j < i :: IsDefault(f.kind.fields[j], slots[j])
        {
          b := CheckDefault(f.kind.fields[i], slots[i]);
          if !b {
            return;
          }
        }
        b := true;
    }
  }

  method EncodeBlob(s: OStream, k: Kind, b: seq<Byte>) returns (ok: bool, s': OStream)
    requires Ready(s) && BlobFits(k, b)
    ensures Wrote(s, ok, s', Prefixed(b))
  {
    hide Wrote, Prefixed;
    if k.Text? {
      var memory := b + [0];
      var size := StringLength(memory, k.max, b);
      assert memory[..size] == b;
      ok, s' := EncodeString(s, memory[..size]);
    } else {
      ok, s' := EncodeString(s, b);
    }
  }

  // A value behind its tag.
  method EncodeValue(s: OStream, k: Kind, v: Value) returns (ok: bool, s': OStream)
    requires Ready(s) && KindOk(k) && Encodable(k, v)
    ensures Wrote(s, ok, s', ValueBytes(k, v))
    decreases v, 3
  {
    hide Wrote, NumberBytes, Prefixed;
    match v {
      case Number(n) =>
        ok, s' := EncodeNumber(s, k, n);
      case Blob(b) =>
        ok, s' := EncodeBlob(s, k, b);
      case Message(_) =>
        ok, s' := EncodeSubmessage(s, k, v);
    }
  }

  // The size first, by a pass that only counts; then the message, for which there is exactly as
  // much room. The two passes never disagree.
  method EncodeSubmessage(s: OStream, k: Kind, v: Value) returns (ok: bool, s': OStream)
    requires Ready(s) && KindOk(k) && Encodable(k, v) && v.Message?
    ensures Wrote(s, ok, s', ValueBytes(k, v))
    decreases v, 2
  {
    hide Varint, MessageBytes, KindOk, Encodable;
    ghost var bytes := MessageOf(k, v);
    MessageShape(k, v);
    var counted, substream := EncodeMessage(SIZING, k, v);
    assert counted;
    var size := substream.written;
    ok, s' := EncodeVarint(s, size);
    if !ok {
      StillFails(s, s', s', Varint(|bytes|), Prefixed(bytes));
      return;
    }
    var s1 := s';
    if s1.sizing {
      s' := s1.(written := s1.written + size);
      WroteBoth(s, s1, ok, s', Varint(|bytes|), bytes);
      return;
    }
    if s1.written + size > s1.maxSize {
      ok := false;
      return;
    }
    substream := OStream(false, size, 0, s1.out);
    ok, substream := EncodeMessage(substream, k, v);
    s' := s1.(written := s1.written + substream.written, out := substream.out);
    if substream.written != size {
      assert false;
      ok := false;
    }
    WroteBoth(s, s1, ok, s', Varint(|bytes|), bytes);
  }

  lemma MessageShape(k: Kind, v: Value)
    requires Encodable(k, v) && v.Message?
    ensures k.Submessage? && |v.slots| == |k.fields| && ValueBytes(k, v) == Prefixed(MessageOf(k, v))
  {
    hide MessageBytes;
  }

  // Field after field.
  method EncodeMessage(s: OStream, k: Kind, v: Value) returns (ok: bool, s': OStream)
    requires Ready(s) && KindOk(k) && Encodable(k, v) && v.Message?
    ensures Wrote(s, ok, s', MessageOf(k, v))
    decreases v, 1
  {
    hide Wrote, SlotBytes, SlotEncodable, AtMostOne, MessageBytes, KindOk, Encodable;
    MessageShape(k, v);
    ok, s' := true, s;
    WroteNothing(s);
    MessageUnfolds(k.fields, v, 0);
    for i := 0 to |v.slots|
      invariant ok && Ready(s') && Wrote(s, ok, s', MessageBytes(k.fields, v, i))
    {
      ghost var s1 := s';
      FieldFits(k, v, i);
      MessageUnfolds(k.fields, v, i + 1);
      ok, s' := EncodeField(s', k.fields[i], v.slots[i]);
      WroteBoth(s, s1, ok, s', MessageBytes(k.fields, v, i), SlotBytes(k.fields[i], v.slots[i]));
      if !ok {
        BytesGrow(k.fields, v, i + 1, |v.slots|);
        StillFails(s, s', s', MessageBytes(k.fields, v, i + 1), MessageOf(k, v));
        return;
      }
      StaysReady(s, s', MessageBytes(k.fields, v, i + 1));
    }
  }

  lemma FieldFits(k: Kind, v: Value, i: nat)
    requires KindOk(k) && Encodable(k, v) && v.Message? && i < |v.slots|
    ensures k.Submessage? && i < |k.fields| && KindOk(k.fields[i].kind) && SlotEncodable(k.fields[i], v.slots[i])
  {
  }

  lemma MessageUnfolds(fields: seq<Field>, v: Value, n: nat)
    requires v.Message? && n <= |v.slots| == |fields|
    ensures MessageBytes(fields, v, n) == if n == 0 then [] else MessageBytes(fields, v, n - 1) + SlotBytes(fields[n-1], v.slots[n-1])
  {
  }

  lemma StaysReady(s: OStream, s': OStream, bytes: seq<Byte>)
    requires Wrote(s, true, s', bytes)
    ensures Ready(s')
  {
  }

  lemma {:induction false} BytesGrow(fields: seq<Field>, v: Value, i: nat, n: nat)
    requires v.Message? && i <= n <= |v.slots| == |fields|
    ensures |MessageBytes(fields, v, i)| <= |MessageBytes(fields, v, n)|
    decreases n
  {
    hide SlotBytes;
    if i < n {
      BytesGrow(fields, v, i, n - 1);
    }
  }

  method EncodeTagged(s: OStream, f: Field, v: Value) returns (ok: bool, s': OStream)
    requires Ready(s) && KindOk(f.kind) && Encodable(f.kind, v)
    ensures Wrote(s, ok, s', TagBytes(f.tag, WireType(f.kind)) + ValueBytes(f.kind, v))
    decreases v, 4
  {
    hide Wrote, TagBytes, ValueBytes, KindOk, Encodable;
    var wireType := WireType(f.kind);
    ok, s' := EncodeTag(s, wireType, f.tag);
    ghost var tag, value := TagBytes(f.tag, wireType), ValueBytes(f.kind, v);
    if !ok {
      StillFails(s, s', s', tag, tag + value);
      return;
    }
    var s1 := s';
    StaysReady(s, s1, tag);
    ok, s' := EncodeValue(s1, f.kind, v);
    WroteBoth(s, s1, ok, s', tag, value);
  }

  method EncodeField(s: OStream, f: Field, slot: Slot) returns (ok: bool, s': OStream)
    requires Ready(s) && KindOk(f.kind) && SlotEncodable(f, slot)
    ensures Wrote(s, ok, s', SlotBytes(f, slot))
    decreases slot, 1
  {
    hide Wrote, TagBytes, ValueBytes, KindOk, Encodable, IsDefault;
    var present := true;
    if f.rule.Optional? && !f.rule.hasFlag {
      var isDefault := CheckDefault(f, slot);
      present := !isDefault;
    } else if f.rule.Optional? {
      present := slot.has;
    } else if f.rule.Oneof? {
      present := slot.chosen;
    }
    if f.rule.Repeated? {
      ok, s' := EncodeArray(s, f, slot);
    } else if present {
      ok, s' := EncodeTagged(s, f, slot.v);
    } else {
      WroteNothing(s);
      ok, s' := true, s;
    }
  }

  method EncodeArray(s: OStream, f: Field, slot: Slot) returns (ok: bool, s': OStream)
    requires Ready(s) && KindOk(f.kind) && SlotEncodable(f, slot) && f.rule.Repeated?
    ensures Wrote(s, ok, s', SlotBytes(f, slot))
    decreases slot, 0
  {
    hide Wrote, TagBytes, ValueBytes, KindOk, Encodable, NumbersBytes;
    ok, s' := true, s;
    WroteNothing(s);
    if slot.vs == [] {
      return;
    }
    if |slot.vs| > f.rule.max {
      assert false;
      return false, s;
    }
    if Packable(f.kind) {
      ok, s' := EncodePacked(s, f, slot.vs);
      return;
    }
    for i := 0 to |slot.vs|
      invariant ok && Ready(s') && Wrote(s, ok, s', ItemsBytes(f, slot, i))
    {
      ghost var s1 := s';
      ok, s' := EncodeTagged(s', f, slot.vs[i]);
      WroteBoth(s, s1, ok, s', ItemsBytes(f, slot, i), TagBytes(f.tag, WireType(f.kind)) + ValueBytes(f.kind, slot.vs[i]));
      if !ok {
        ItemsGrow(f, slot, i + 1, |slot.vs|);
        StillFails(s, s', s', ItemsBytes(f, slot, i + 1), ItemsBytes(f, slot, |slot.vs|));
        return;
      }
      StaysReady(s, s', ItemsBytes(f, slot, i + 1));
    }
  }

  lemma {:induction false} ItemsGrow(f: Field, s: Slot, i: nat, n: nat)
    requires s.Many? && i <= n <= |s.vs|
    ensures |ItemsBytes(f, s, i)| <= |ItemsBytes(f, s, n)|
    decreases n
  {
    hide ValueBytes, TagBytes;
    if i < n {
      ItemsGrow(f, s, i, n - 1);
    }
  }

  // Numbers one after another behind one tag and their size in all.
  method EncodePacked(s: OStream, f: Field, vs: seq<Value>) returns (ok: bool, s': OStream)
    requires Ready(s) && KindOk(f.kind) && Packable(f.kind) && (forall i | 0 <= i < |vs| :: Encodable(f.kind, vs[i]))
    ensures Wrote(s, ok, s', TagBytes(f.tag, 2) + Prefixed(NumbersBytes(f.kind, vs)))
  {
    hide TagBytes, NumberBytes, NumbersBytes, Varint;
    ghost var tag, items := TagBytes(f.tag, 2), NumbersBytes(f.kind, vs);
    ok, s' := EncodeTag(s, 2, f.tag);
    if !ok {
      StillFails(s, s', s', tag, tag + Prefixed(items));
      return;
    }
    var s1 := s';
    var size := PackedSize(f.kind, vs);
    ok, s' := EncodeVarint(s1, size);
    var s2 := s';
    WroteBoth(s, s1, ok, s2, tag, Varint(size));
    assert (tag + Varint(size)) + items == tag + Prefixed(items);
    if !ok {
      StillFails(s, s', s', tag + Varint(size), tag + Prefixed(items));
      return;
    }
    if s2.sizing {
      s' := s2.(written := s2.written + size);
    } else {
      ok, s' := EncodeNumbers(s2, f.kind, vs);
    }
    WroteBoth(s, s2, ok, s', tag + Varint(size), items);
  }

  method PackedSize(k: Kind, vs: seq<Value>) returns (size: nat)
    requires KindOk(k) && Packable(k) && (forall i | 0 <= i < |vs| :: Encodable(k, vs[i]))
    ensures size == |NumbersBytes(k, vs)|
  {
    if k.Word32? || k.Word64? {
      size := if k.Word32? then 4 * |vs| else 8 * |vs|;
      FixedSizes(k, vs);
    } else {
      var ok, sizestream := EncodeNumbers(SIZING, k, vs);
      size := sizestream.written;
    }
  }

  lemma {:induction false} FixedSizes(k: Kind, vs: seq<Value>)
    requires (k.Word32? || k.Word64?) && forall i | 0 <= i < |vs| :: Encodable(k, vs[i])
    ensures |NumbersBytes(k, vs)| == (if k.Word32? then 4 else 8) * |vs|
  {
    hide Fixed32, Fixed64;
    if vs != [] {
      assert Encodable(k, vs[0]);
      FixedSizes(k, vs[1..]);
      FixedIsFour(vs[0].n % LIMIT32);
      Fixed64RoundTrip(vs[0].n % LIMIT64);
    }
  }

  method EncodeNumbers(s: OStream, k: Kind, vs: seq<Value>) returns (ok: bool, s': OStream)
    requires Ready(s) && KindOk(k) && Packable(k) && (forall i | 0 <= i < |vs| :: Encodable(k, vs[i]))
    ensures Wrote(s, ok, s', NumbersBytes(k, vs))
  {
    hide Wrote, NumberBytes;
    ok, s' := true, s;
    WroteNothing(s);
    for i := 0 to |vs|
      invariant ok && Ready(s') && Wrote(s, ok, s', NumbersBytes(k, vs[..i]))
    {
      ghost var s1, done := s', NumbersBytes(k, vs[..i]);
      assert Encodable(k, vs[i]);
      ok, s' := EncodeNumber(s', k, vs[i].n);
      OneMoreNumber(k, vs, i);
      WroteBoth(s, s1, ok, s', done, NumberBytes(k, vs[i].n));
      if !ok {
        NumbersGrow(k, vs, i + 1);
        StillFails(s, s', s', NumbersBytes(k, vs[..i+1]), NumbersBytes(k, vs));
        return;
      }
      StaysReady(s, s', NumbersBytes(k, vs[..i+1]));
    }
    assert vs[..|vs|] == vs;
  }

  lemma {:induction false} NumbersOfBoth(k: Kind, a: seq<Value>, b: seq<Value>)
    ensures NumbersBytes(k, a + b) == NumbersBytes(k, a) + NumbersBytes(k, b)
  {
    hide NumberBytes;
    if a == [] {
      assert a + b == b;
    } else {
      assert (a + b)[1..] == a[1..] + b;
      NumbersOfBoth(k, a[1..], b);
    }
  }

  lemma OneMoreNumber(k: Kind, vs: seq<Value>, i: nat)
    requires i < |vs| && vs[i].Number?
    ensures NumbersBytes(k, vs[..i+1]) == NumbersBytes(k, vs[..i]) + NumberBytes(k, vs[i].n)
  {
    hide NumberBytes;
    assert vs[..i+1] == vs[..i] + [vs[i]];
    NumbersOfBoth(k, vs[..i], [vs[i]]);
    assert [vs[i]][1..] == [];
  }

  lemma NumbersGrow(k: Kind, vs: seq<Value>, i: nat)
    requires i <= |vs|
    ensures |NumbersBytes(k, vs[..i])| <= |NumbersBytes(k, vs)|
  {
    hide NumberBytes, NumbersBytes;
    assert vs[..i] + vs[i..] == vs;
    NumbersOfBoth(k, vs[..i], vs[i..]);
  }

  // ---- Whole messages

  // The size a message will have.
  method GetEncodedSize(k: Kind, v: Value) returns (ok: bool, size: nat)
    requires KindOk(k) && Encodable(k, v) && v.Message?
    ensures ok && size == |MessageOf(k, v)|
  {
    var substream;
    ok, substream := EncodeMessage(SIZING, k, v);
    size := substream.written;
  }

  // Into a buffer: all of it exactly if there is room for that size.
  method Encode(k: Kind, v: Value, bufferSize: nat) returns (ok: bool, out: seq<Byte>)
    requires KindOk(k) && Encodable(k, v) && v.Message?
    ensures ok <==> |MessageOf(k, v)| <= bufferSize
    ensures ok ==> out == MessageOf(k, v)
  {
    var stream;
    ok, stream := EncodeMessage(OStream(false, bufferSize, 0, []), k, v);
    out := stream.out;
  }
}
