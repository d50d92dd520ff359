// CRC-32C (section 12.1 of RFC 3720): the definition, the masking of stored checksums, and
// the loop that works on four interleaved strides of words.

module Crc32c {
  import opened Bytes

  const XOR: bv32 := 0xffffffff
  const MASK_DELTA: bv32 := 0xa282ead8
  const POLYNOMIAL: bv32 := 0x82f63b78   // 0x11edc6f41, reflected

  // ---- The definition

  // One bit of zero input.
  function BitStep(l: bv32): bv32 {
    (l >> 1) ^ Feedback(l & 1)
  }

  function Feedback(low: bv32): bv32 {
    if low == 1 then POLYNOMIAL else 0
  }

  function Bits(n: nat, l: bv32): bv32 {
    if n == 0 then l else Bits(n - 1, BitStep(l))
  }

  // Exclusive or as a function, so that proofs can go by equations.
  function Xor(x: bv32, y: bv32): bv32 {
    x ^ y
  }

  function Widen(b: Byte): bv32 {
    b as bv32
  }

  // One byte of input.
  function Step(l: bv32, b: Byte): bv32 {
    Bits(8, Xor(l, Widen(b)))
  }

  function Fold(l: bv32, data: seq<Byte>): bv32 {
    if data == [] then l else Step(Fold(l, data[..|data|-1]), data[|data|-1])
  }

  function Extend(crc: bv32, data: seq<Byte>): bv32 {
    Fold(crc ^ XOR, data) ^ XOR
  }

  function Value(data: seq<Byte>): bv32 {
    Extend(0, data)
  }

  lemma {:induction false} FoldBoth(l: bv32, a: seq<Byte>, b: seq<Byte>)
    ensures Fold(l, a + b) == Fold(Fold(l, a), b)
  {
    if b == [] {
      assert a + b == a;
    } else {
      FoldBoth(l, a, b[..|b|-1]);
      assert (a + b)[..|a + b|-1] == a + b[..|b|-1];
    }
  }

  lemma XorTwice(l: bv32)
    ensures (l ^ XOR) ^ XOR == l
  {
  }

  // A checksum can be extended piece by piece.
  lemma ExtendBoth(crc: bv32, a: seq<Byte>, b: seq<Byte>)
    ensures Extend(Extend(crc, a), b) == Extend(crc, a + b)
  {
    FoldBoth(crc ^ XOR, a, b);
    hide Fold;
    XorTwice(Fold(crc ^ XOR, a));
    assert Extend(crc, a) ^ XOR == Fold(crc ^ XOR, a);
  }

  // The check value of CRC-32C: the checksum of the digits 1 to 9.
  lemma CheckValue()
    ensures Value([0x31, 0x32, 0x33, 0x34, 0x35, 0x36, 0x37, 0x38, 0x39]) == 0xe3069283
  {
    hide Fold, Step;
    var digits: seq<Byte> := [0x31, 0x32, 0x33, 0x34, 0x35, 0x36, 0x37, 0x38, 0x39];
    DigitSteps();
    EmptyFold(XOR, digits);
    FoldNext(digits, 0, 0xffffffff, 0x31, 0x6f0a661c);
    FoldNext(digits, 1, 0x6f0a661c, 0x32, 0x8caa3b9f);
    FoldNext(digits, 2, 0x8caa3b9f, 0x33, 0xef84d04d);
    FoldNext(digits, 3, 0xef84d04d, 0x34, 0x09c50b11);
    FoldNext(digits, 4, 0x09c50b11, 0x35, 0xe72edcca);
    FoldNext(digits, 5, 0xe72edcca, 0x36, 0xbeca8e79);
    FoldNext(digits, 6, 0xbeca8e79, 0x37, 0xedbd6815);
    FoldNext(digits, 7, 0xedbd6815, 0x38, 0x9f787f65);
    FoldNext(digits, 8, 0x9f787f65, 0x39, 0x1cf96d7c);
    assert digits[..9] == digits;
  }

  lemma DigitSteps()
    ensures Step(0xffffffff, 0x31) == 0x6f0a661c && Step(0x6f0a661c, 0x32) == 0x8caa3b9f && Step(0x8caa3b9f, 0x33) == 0xef84d04d
    ensures Step(0xef84d04d, 0x34) == 0x09c50b11 && Step(0x09c50b11, 0x35) == 0xe72edcca && Step(0xe72edcca, 0x36) == 0xbeca8e79
    ensures Step(0xbeca8e79, 0x37) == 0xedbd6815 && Step(0xedbd6815, 0x38) == 0x9f787f65 && Step(0x9f787f65, 0x39) == 0x1cf96d7c
  {
  }

  lemma FoldNext(data: seq<Byte>, i: nat, before: bv32, b: Byte, next: bv32)
    requires i < |data| && data[i] == b && Fold(XOR, data[..i]) == before && next == Step(before, b)
    ensures Fold(XOR, data[..i+1]) == next
  {
    hide Step;
    assert data[..i+1][..i] == data[..i];
  }

  // ---- Masking

  function RotateRight15(x: bv32): bv32 {
    (x >> 15) | (x << 17)
  }

  function RotateLeft15(x: bv32): bv32 {
    (x >> 17) | (x << 15)
  }

  function Mask(crc: bv32): bv32 {
    RotateRight15(crc) + MASK_DELTA
  }

  function Unmask(masked: bv32): bv32 {
    RotateLeft15(masked - MASK_DELTA)
  }

  lemma MaskOfZero()
    ensures Mask(0) == 0xa282ead8 && Mask(1) == 0xa284ead8
  {
  }

  lemma RotationsCancel(x: bv32)
    ensures RotateLeft15(RotateRight15(x)) == x && RotateRight15(RotateLeft15(x)) == x
  {
  }

  lemma SumsCancel(x: bv32)
    ensures (x + MASK_DELTA) - MASK_DELTA == x && (x - MASK_DELTA) + MASK_DELTA == x
  {
  }

  lemma MaskingCancels(x: bv32)
    ensures Unmask(Mask(x)) == x && Mask(Unmask(x)) == x
  {
    hide RotateRight15, RotateLeft15;
    RotationsCancel(x);
    RotationsCancel(x - MASK_DELTA);
    SumsCancel(RotateRight15(x));
    SumsCancel(x);
  }

  // ---- Advancing is linear

  lemma XorsCommute(a: bv32, b: bv32, c: bv32, d: bv32)
    ensures (a ^ b) ^ (c ^ d) == (a ^ c) ^ (b ^ d)
  {
  }

  lemma ShiftIsLinear(x: bv32, y: bv32)
    ensures (x ^ y) >> 1 == (x >> 1) ^ (y >> 1)
    ensures (x ^ y) & 1 == (x & 1) ^ (y & 1)
  {
  }

  lemma LowBit(x: bv32)
    ensures x & 1 == 0 || x & 1 == 1
  {
  }

  lemma FeedbackIsLinear(a: bv32, b: bv32)
    requires (a == 0 || a == 1) && (b == 0 || b == 1)
    ensures Feedback(a ^ b) == Feedback(a) ^ Feedback(b)
  {
  }

  lemma BitIsLinear(x: bv32, y: bv32)
    ensures BitStep(x ^ y) == BitStep(x) ^ BitStep(y)
  {
    ShiftIsLinear(x, y);
    LowBit(x);
    LowBit(y);
    FeedbackIsLinear(x & 1, y & 1);
    hide Feedback;
    XorsCommute(x >> 1, y >> 1, Feedback(x & 1), Feedback(y & 1));
  }

  lemma {:induction false} BitsAreLinear(n: nat, x: bv32, y: bv32)
    ensures Bits(n, Xor(x, y)) == Xor(Bits(n, x), Bits(n, y))
  {
    if n != 0 {
      assert BitStep(Xor(x, y)) == Xor(BitStep(x), BitStep(y)) by {
        BitIsLinear(x, y);
      }
      hide BitStep, Xor;
      BitsAreLinear(n - 1, BitStep(x), BitStep(y));
    }
  }

  lemma {:induction false} BitsAdd(m: nat, n: nat, x: bv32)
    ensures Bits(m, Bits(n, x)) == Bits(m + n, x)
  {
    if n != 0 {
      BitsAdd(m, n - 1, BitStep(x));
    }
  }

  lemma XorCommutes(x: bv32, y: bv32)
    ensures Xor(x, y) == Xor(y, x)
  {
  }

  lemma XorAssociates(x: bv32, y: bv32, z: bv32)
    ensures Xor(Xor(x, y), z) == Xor(x, Xor(y, z))
  {
  }

  // ---- The tables, as the linear maps they encode

  function ByteExtensionTable(c: bv32): bv32 {
    Bits(8, c)
  }

  function StrideExtensionTable3(c: bv32): bv32 {
    Bits(128, c)
  }

  function StrideExtensionTable2(c: bv32): bv32 {
    Bits(128, c << 8)
  }

  function StrideExtensionTable1(c: bv32): bv32 {
    Bits(128, c << 16)
  }

  function StrideExtensionTable0(c: bv32): bv32 {
    Bits(128, c << 24)
  }

  // The table's entries for single bits, which give all others, as the table is linear.
  lemma ByteTable()
    ensures ByteExtensionTable(0x01) == 0xf26b8303 && ByteExtensionTable(0x02) == 0xe13b70f7
    ensures ByteExtensionTable(0x04) == 0xc79a971f && ByteExtensionTable(0x08) == 0x8ad958cf
    ensures ByteExtensionTable(0x10) == 0x105ec76f && ByteExtensionTable(0x20) == 0x20bd8ede
    ensures ByteExtensionTable(0x40) == 0x417b1dbc && ByteExtensionTable(0x80) == 0x82f63b78
    ensures forall x, y :: ByteExtensionTable(Xor(x, y)) == Xor(ByteExtensionTable(x), ByteExtensionTable(y))
  {
    forall x, y
      ensures ByteExtensionTable(Xor(x, y)) == Xor(ByteExtensionTable(x), ByteExtensionTable(y))
    {
      hide Bits, Xor;
      BitsAreLinear(8, x, y);
    }
  }

  function Half(x: bv32): bv32 {
    x >> 1
  }

  predicate Even(x: bv32) {
    x & 1 == 0
  }

  lemma EvenStep(n: nat, x: bv32)
    requires 0 < n && Even(x)
    ensures Bits(n, x) == Bits(n - 1, Half(x))
  {
    EvenBit(x);
    hide BitStep, Half;
  }

  lemma EvenBit(x: bv32)
    requires Even(x)
    ensures BitStep(x) == Half(x)
  {
    assert Feedback(0) == 0;
  }

  lemma NoBits(x: bv32)
    ensures Bits(0, x) == x
  {
  }

  lemma EvenBits(x: bv32) returns (y: bv32)
    requires Even(x) && Even(Half(x)) && Even(Half(Half(x))) && Even(Half(Half(Half(x))))
    ensures Bits(4, x) == y == Half(Half(Half(Half(x))))
  {
    hide Bits, Even, Half;
    EvenStep(4, x);
    EvenStep(3, Half(x));
    EvenStep(2, Half(Half(x)));
    EvenStep(1, Half(Half(Half(x))));
    y := Half(Half(Half(Half(x))));
    NoBits(y);
  }

  // Advancing over a low byte of zeros is a shift.
  lemma ZeroByte(x: bv32)
    requires x & 0xff == 0
    ensures Bits(8, x) == x >> 8
  {
    hide Bits;
    EvenHalves(x);
    EvenHalves(x >> 4);
    ByteIsEightHalves(x);
    hide Even, Half;
    var y := EvenBits(x);
    var z := EvenBits(y);
    BitsAdd(4, 4, x);
  }

  lemma EvenHalves(x: bv32)
    ensures x & 15 == 0 ==> Even(x) && Even(Half(x)) && Even(Half(Half(x))) && Even(Half(Half(Half(x))))
    ensures Half(Half(Half(Half(x)))) == x >> 4
  {
  }

  lemma ByteIsEightHalves(x: bv32)
    requires x & 0xff == 0
    ensures x & 15 == 0 && (x >> 4) & 15 == 0 && (x >> 4) >> 4 == x >> 8
  {
  }

  lemma LowByte(x: bv32)
    ensures x == Xor(x & 0xff, x & 0xffffff00) && (x & 0xffffff00) & 0xff == 0 && (x & 0xffffff00) >> 8 == x >> 8
  {
  }

  // One table lookup advances by a byte.
  lemma TableStep(l: bv32)
    ensures Xor(l >> 8, ByteExtensionTable(l & 0xff)) == Bits(8, l)
  {
    LowByte(l);
    hide Bits, Xor;
    ZeroByte(l & 0xffffff00);
    BitsAreLinear(8, l & 0xff, l & 0xffffff00);
    XorCommutes(Bits(8, l & 0xff), l >> 8);
  }

  lemma FourBytes(x: bv32)
    ensures x == Xor(Xor(Xor(x & 0xff, ((x >> 8) & 0xff) << 8), ((x >> 16) & 0xff) << 16), (x >> 24) << 24)
  {
  }

  // Four table lookups advance a word by sixteen bytes.
  lemma StrideStep(x: bv32)
    ensures Xor(Xor(Xor(StrideExtensionTable3(x & 0xff), StrideExtensionTable2((x >> 8) & 0xff)),
                    StrideExtensionTable1((x >> 16) & 0xff)), StrideExtensionTable0(x >> 24))
            == Bits(128, x)
  {
    FourBytes(x);
    hide Bits, Xor;
    var b0, b1, b2, b3 := x & 0xff, ((x >> 8) & 0xff) << 8, ((x >> 16) & 0xff) << 16, (x >> 24) << 24;
    BitsAreLinear(128, b0, b1);
    BitsAreLinear(128, Xor(b0, b1), b2);
    BitsAreLinear(128, Xor(Xor(b0, b1), b2), b3);
  }

  // ---- Words

  // A byte as the k-th byte of a little-endian word.
  function Placed(b: Byte, k: nat): bv32
    requires k < 4
  {
    if k == 0 then b as bv32
    else if k == 1 then (b as bv32) << 8
    else if k == 2 then (b as bv32) << 16
    else (b as bv32) << 24
  }

  function ReadUint32LE(b: seq<Byte>): bv32
    requires |b| == 4
  {
    Xor(Xor(Xor(Placed(b[0], 0), Placed(b[1], 1)), Placed(b[2], 2)), Placed(b[3], 3))
  }

  // A byte read after `k` others is the byte read first, moved up by `k` places.
  lemma LaterByte(b: Byte)
    ensures Bits(0, Placed(b, 0)) == Bits(8, Placed(b, 1)) == Bits(16, Placed(b, 2)) == Bits(24, Placed(b, 3)) == Widen(b)
  {
    ByteShifts(b);
    hide Bits, Placed, Widen;
    ZeroByte(Placed(b, 1));
    ZeroByte(Placed(b, 2));
    ZeroByte(Placed(b, 3));
    NoBits(Placed(b, 0));
    BitsAdd(8, 8, Placed(b, 2));
    BitsAdd(16, 8, Placed(b, 3));
  }

  lemma ByteShifts(b: Byte)
    ensures Placed(b, 0) == Widen(b)
    ensures Placed(b, 1) & 0xff == 0 && Placed(b, 1) >> 8 == Widen(b)
    ensures Placed(b, 2) & 0xff == 0 && Placed(b, 2) >> 8 == Placed(b, 1)
    ensures Placed(b, 3) & 0xff == 0 && Placed(b, 3) >> 8 == Placed(b, 2)
  {
  }

  // Reading byte `b` after n bits: it may as well be read at the start, moved up.
  lemma StepLater(n: nat, y: bv32, b: Byte, moved: bv32)
    requires Bits(n, moved) == Widen(b)
    ensures Step(Bits(n, y), b) == Bits(n + 8, Xor(y, moved))
  {
    hide Bits, Xor, Widen;
    BitsAreLinear(n, y, moved);
    BitsAdd(8, n, Xor(y, moved));
  }

  // Four bytes at once.
  lemma FoldWord(l: bv32, b: seq<Byte>)
    requires |b| == 4
    ensures Fold(l, b) == Bits(32, Xor(l, ReadUint32LE(b)))
  {
    hide Bits, Xor, Step, Fold, Placed, Widen;
    FoldFour(l, b);
    var x0, x1, x2, x3 := Placed(b[0], 0), Placed(b[1], 1), Placed(b[2], 2), Placed(b[3], 3);
    LaterByte(b[0]);
    LaterByte(b[1]);
    LaterByte(b[2]);
    LaterByte(b[3]);
    NoBits(l);
    StepLater(0, l, b[0], x0);
    StepLater(8, Xor(l, x0), b[1], x1);
    StepLater(16, Xor(Xor(l, x0), x1), b[2], x2);
    StepLater(24, Xor(Xor(Xor(l, x0), x1), x2), b[3], x3);
    XorAssociates(l, x0, x1);
    XorAssociates(l, Xor(x0, x1), x2);
    XorAssociates(l, Xor(Xor(x0, x1), x2), x3);
  }

  lemma FoldFour(l: bv32, b: seq<Byte>)
    requires |b| == 4
    ensures Fold(l, b) == Step(Step(Step(Step(l, b[0]), b[1]), b[2]), b[3])
  {
    hide Step;
    assert b[..3][..2] == b[..2] && b[..2][..1] == b[..1] && b[..1][..0] == [];
    assert Fold(l, b[..1]) == Step(l, b[0]);
    assert Fold(l, b[..2]) == Step(Fold(l, b[..1]), b[1]);
    assert Fold(l, b[..3]) == Step(Fold(l, b[..2]), b[2]);
  }

  // ---- Four strides

  // What the four partial results combine to.
  function Combine(c0: bv32, c1: bv32, c2: bv32, c3: bv32): bv32 {
    Bits(32, Xor(c3, Bits(32, Xor(c2, Bits(32, Xor(c1, Bits(32, c0)))))))
  }

  lemma MovePast(x: bv32, y: bv32, z: bv32)
    ensures Xor(Bits(32, Xor(x, y)), Bits(32, z)) == Bits(32, Xor(x, Xor(y, z)))
  {
    hide Bits, Xor;
    BitsAreLinear(32, Xor(x, y), z);
    XorAssociates(x, y, z);
  }

  // Reading the next word into the oldest stride, which becomes the newest.
  lemma NextWord(c0: bv32, c1: bv32, c2: bv32, c3: bv32, w: bv32)
    ensures Combine(c1, c2, c3, Xor(w, Bits(128, c0))) == Bits(32, Xor(Combine(c0, c1, c2, c3), w))
  {
    hide Bits, Xor;
    var p1 := Bits(32, c0);
    var p2, p3 := Bits(32, p1), Bits(32, Bits(32, p1));
    var p4 := Bits(32, p3);
    BitsAdd(32, 32, c0);
    BitsAdd(32, 64, c0);
    BitsAdd(32, 96, c0);
    assert p4 == Bits(128, c0);
    var a := Bits(32, c1);
    var b := Bits(32, Xor(c2, a));
    var c := Bits(32, Xor(c3, b));
    BitsAreLinear(32, c1, p1);
    assert Xor(a, p2) == Bits(32, Xor(c1, p1));
    MovePast(c2, a, p2);
    MovePast(c3, b, p3);
    assert Xor(c, p4) == Combine(c0, c1, c2, c3);
    XorCommutes(w, p4);
    XorAssociates(c, p4, w);
    XorCommutes(Xor(w, p4), c);
  }

  // ---- The loops

  method Step1(l: bv32, b: Byte) returns (r: bv32)
    ensures r == Step(l, b)
  {
    var c := Xor(l & 0xff, Widen(b));
    r := Xor(ByteExtensionTable(c), l >> 8);
    ByteIntoLow(l, b);
    TableStep(Xor(l, Widen(b)));
    hide Bits, Xor, Widen;
    XorCommutes(ByteExtensionTable(c), l >> 8);
  }

  lemma ByteIntoLow(l: bv32, b: Byte)
    ensures Xor(l, Widen(b)) >> 8 == l >> 8 && Xor(l, Widen(b)) & 0xff == Xor(l & 0xff, Widen(b))
  {
  }

  method Step4(crc: bv32, word: bv32) returns (r: bv32)
    ensures r == Xor(word, Bits(128, crc))
  {
    StrideStep(crc);
    hide Bits, Xor, StrideExtensionTable0, StrideExtensionTable1, StrideExtensionTable2, StrideExtensionTable3;
    var t3, t2 := StrideExtensionTable3(crc & 0xff), StrideExtensionTable2((crc >> 8) & 0xff);
    var t1, t0 := StrideExtensionTable1((crc >> 16) & 0xff), StrideExtensionTable0(crc >> 24);
    r := Xor(Xor(Xor(Xor(word, t3), t2), t1), t0);
    XorAssociates(word, t3, t2);
    XorAssociates(word, Xor(t3, t2), t1);
    XorAssociates(word, Xor(Xor(t3, t2), t1), t0);
  }

  method Step4W(l: bv32, word: bv32) returns (r: bv32)
    ensures r == Bits(32, Xor(word, l))
  {
    hide Bits, Xor;
    r := Xor(word, l);
    NoBits(r);
    ghost var w := r;
    for i := 0 to 4
      invariant r == Bits(8 * i, w)
    {
      TableStep(r);
      BitsAdd(8, 8 * i, w);
      r := Xor(r >> 8, ByteExtensionTable(r & 0xff));
    }
  }

  lemma FoldMore(l: bv32, data: seq<Byte>, p: nat, n: nat)
    requires p + n <= |data|
    ensures Fold(l, data[..p+n]) == Fold(Fold(l, data[..p]), data[p..p+n])
  {
    assert data[..p+n] == data[..p] + data[p..p+n];
    FoldBoth(l, data[..p], data[p..p+n]);
  }

  lemma FoldOne(l: bv32, data: seq<Byte>, p: nat)
    requires p < |data|
    ensures Fold(l, data[..p+1]) == Step(Fold(l, data[..p]), data[p])
  {
    assert data[..p+1][..p] == data[..p];
  }

  // Reading one more word, by strides or at once, is the same.
  lemma StrideWord(start: bv32, data: seq<Byte>, p: nat, c0: bv32, c1: bv32, c2: bv32, c3: bv32)
    requires p + 4 <= |data| && Combine(c0, c1, c2, c3) == Fold(start, data[..p])
    ensures Combine(c1, c2, c3, Xor(ReadUint32LE(data[p..p+4]), Bits(128, c0))) == Fold(start, data[..p+4])
  {
    hide Bits, Xor, Fold, Combine, ReadUint32LE;
    FoldMore(start, data, p, 4);
    FoldWord(Fold(start, data[..p]), data[p..p+4]);
    NextWord(c0, c1, c2, c3, ReadUint32LE(data[p..p+4]));
  }

  // The first sixteen bytes are four words, the first of them with the state so far.
  lemma FirstWords(l: bv32, data: seq<Byte>, w0: bv32, w1: bv32, w2: bv32, w3: bv32)
    requires |data| == 16
    requires w0 == ReadUint32LE(data[0..4]) && w1 == ReadUint32LE(data[4..8])
    requires w2 == ReadUint32LE(data[8..12]) && w3 == ReadUint32LE(data[12..16])
    ensures Combine(Xor(w0, l), w1, w2, w3) == Fold(l, data)
  {
    hide Bits, Xor, Fold, ReadUint32LE;
    assert data[..4] == data[0..4] && data[..16] == data;
    FoldMore(l, data, 4, 4);
    FoldMore(l, data, 8, 4);
    FoldMore(l, data, 12, 4);
    FoldWord(l, data[0..4]);
    FoldWord(Fold(l, data[..4]), data[4..8]);
    FoldWord(Fold(l, data[..8]), data[8..12]);
    FoldWord(Fold(l, data[..12]), data[12..16]);
    XorCommutes(l, w0);
    XorCommutes(Fold(l, data[..4]), w1);
    XorCommutes(Fold(l, data[..8]), w2);
    XorCommutes(Fold(l, data[..12]), w3);
  }

  // The portable loop. `toAligned` bytes lie before the first word-aligned address.
  method ExtendByStrides(crc: bv32, data: seq<Byte>, toAligned: nat) returns (r: bv32)
    requires toAligned < 4
    ensures r == Extend(crc, data)
  {
    hide Bits, Xor, Fold, Combine, ReadUint32LE, Step;
    var start := crc ^ XOR;
    var l, p := start, 0;
    EmptyFold(start, data);
    if toAligned <= |data| {
      while p != toAligned
        invariant 0 <= p <= toAligned && l == Fold(start, data[..p])
      {
        FoldOne(start, data, p);
        l := Step1(l, data[p]);
        p := p + 1;
      }
    }
    if |data| - p >= 16 {
      l, p := Strides(start, data, p, l);
    }
    while p != |data|
      invariant 0 <= p <= |data| && l == Fold(start, data[..p])
    {
      FoldOne(start, data, p);
      l := Step1(l, data[p]);
      p := p + 1;
    }
    assert data[..|data|] == data;
    r := l ^ XOR;
  }

  lemma EmptyFold(l: bv32, data: seq<Byte>)
    ensures Fold(l, data[..0]) == l
  {
  }

  // Sixteen bytes at a time, then word by word, then the four results combined.
  method Strides(ghost start: bv32, data: seq<Byte>, p0: nat, l0: bv32) returns (l: bv32, p: nat)
    requires p0 + 16 <= |data| && l0 == Fold(start, data[..p0])
    ensures p <= |data| && l == Fold(start, data[..p]) && |data| - p < 4
  {
    hide Bits, Xor, Fold, ReadUint32LE;
    p := p0;
    var w0, crc1 := ReadUint32LE(data[p..p+4]), ReadUint32LE(data[p+4..p+8]);
    var crc2, crc3 := ReadUint32LE(data[p+8..p+12]), ReadUint32LE(data[p+12..p+16]);
    var crc0 := Xor(w0, l0);
    FoldMore(start, data, p, 16);
    SliceOfSlice(data, p, 16, 0, 4);
    SliceOfSlice(data, p, 16, 4, 8);
    SliceOfSlice(data, p, 16, 8, 12);
    SliceOfSlice(data, p, 16, 12, 16);
    FirstWords(l0, data[p..p+16], w0, crc1, crc2, crc3);
    p := p + 16;
    while |data| - p >= 16
      invariant p <= |data| && Combine(crc0, crc1, crc2, crc3) == Fold(start, data[..p])
    {
      crc0, crc1, crc2, crc3 := Step16(start, data, p, crc0, crc1, crc2, crc3);
      p := p + 16;
    }
    while |data| - p >= 4
      invariant p <= |data| && Combine(crc0, crc1, crc2, crc3) == Fold(start, data[..p])
    {
      StrideWord(start, data, p, crc0, crc1, crc2, crc3);
      var next := Step4(crc0, ReadUint32LE(data[p..p+4]));
      crc0, crc1, crc2, crc3 := crc1, crc2, crc3, next;
      p := p + 4;
    }
    CombineFromZero(crc0);
    l := 0;
    l := Step4W(l, crc0);
    l := Step4W(l, crc1);
    l := Step4W(l, crc2);
    l := Step4W(l, crc3);
  }

  lemma CombineFromZero(c: bv32)
    ensures Xor(c, 0) == c
  {
  }

  lemma SliceOfSlice(data: seq<Byte>, p: nat, n: nat, i: nat, j: nat)
    requires p + n <= |data| && i <= j <= n
    ensures data[p..p+n][i..j] == data[p+i..p+j]
  {
    var a, b := data[p..p+n][i..j], data[p+i..p+j];
    assert |a| == |b| && forall k | 0 <= k < |a| :: a[k] == data[p+i+k] == b[k];
  }

  method Step16(ghost start: bv32, data: seq<Byte>, p: nat, c0: bv32, c1: bv32, c2: bv32, c3: bv32)
    returns (r0: bv32, r1: bv32, r2: bv32, r3: bv32)
    requires p + 16 <= |data| && Combine(c0, c1, c2, c3) == Fold(start, data[..p])
    ensures Combine(r0, r1, r2, r3) == Fold(start, data[..p+16])
  {
    hide Bits, Xor, Fold, Combine, ReadUint32LE;
    r0 := Step4(c0, ReadUint32LE(data[p..p+4]));
    StrideWord(start, data, p, c0, c1, c2, c3);
    r1 := Step4(c1, ReadUint32LE(data[p+4..p+8]));
    StrideWord(start, data, p + 4, c1, c2, c3, r0);
    r2 := Step4(c2, ReadUint32LE(data[p+8..p+12]));
    StrideWord(start, data, p + 8, c2, c3, r0, r1);
    r3 := Step4(c3, ReadUint32LE(data[p+12..p+16]));
    StrideWord(start, data, p + 12, c3, r0, r1, r2);
  }
}
