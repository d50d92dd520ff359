// Variable-length and fixed-length numbers.

module Coding {
  import opened Bytes

  const LIMIT32: nat := 0x1_0000_0000

  // Seven bits a byte, low bits first; all bytes but the last have the high bit set.
  function Varint(v: nat): (r: seq<Byte>)
    ensures |r| >= 1
  {
    if v < 128 then [ByteOf(v)] else [ByteOf(v % 128 + 128)] + Varint(v / 128)
  }

  lemma VarintLength(v: nat)
    requires v < LIMIT32
    ensures |Varint(v)| <= 5
  {
    hide ByteOf;
    var v1, v2, v3, v4 := v / 128, v / 0x4000, v / 0x20_0000, v / 0x1000_0000;
    assert v1 / 128 == v2 && v2 / 128 == v3 && v3 / 128 == v4 && v4 < 16;
    assert |Varint(v4)| == 1;
    assert |Varint(v3)| <= 2;
    assert |Varint(v2)| <= 3;
    assert |Varint(v1)| <= 4;
  }

  lemma VarintStep(v: nat)
    ensures Varint(v) == if v < 128 then [ByteOf(v)] else [ByteOf(v % 128 + 128)] + Varint(v / 128)
  {
  }

  // By the size of the number, as for 32 bits.
  lemma VarintOfTwo(v: nat)
    requires 0x80 <= v < 0x4000
    ensures Varint(v) == [ByteOf(v % 128 + 128), ByteOf(v / 128)]
  {
    hide ByteOf, Varint;
    VarintStep(v);
    VarintStep(v / 128);
  }

  lemma VarintOfThree(v: nat)
    requires 0x4000 <= v < 0x20_0000
    ensures Varint(v) == [ByteOf(v % 128 + 128), ByteOf(v / 128 % 128 + 128), ByteOf(v / 0x4000)]
  {
    hide ByteOf, Varint;
    VarintStep(v);
    VarintOfTwo(v / 128);
    assert v / 128 / 128 == v / 0x4000;
  }

  lemma VarintOfFour(v: nat)
    requires 0x20_0000 <= v < 0x1000_0000
    ensures Varint(v) == [ByteOf(v % 128 + 128), ByteOf(v / 128 % 128 + 128), ByteOf(v / 0x4000 % 128 + 128), ByteOf(v / 0x20_0000)]
  {
    hide ByteOf, Varint;
    VarintStep(v);
    VarintOfThree(v / 128);
    assert v / 128 / 128 == v / 0x4000 && v / 128 / 0x4000 == v / 0x20_0000;
  }

  lemma VarintOfFive(v: nat)
    requires 0x1000_0000 <= v < LIMIT32
    ensures Varint(v) == [ByteOf(v % 128 + 128), ByteOf(v / 128 % 128 + 128), ByteOf(v / 0x4000 % 128 + 128),
                          ByteOf(v / 0x20_0000 % 128 + 128), ByteOf(v / 0x1000_0000)]
  {
    hide ByteOf, Varint;
    VarintStep(v);
    VarintOfFour(v / 128);
    assert v / 128 / 128 == v / 0x4000 && v / 128 / 0x4000 == v / 0x20_0000 && v / 128 / 0x20_0000 == v / 0x1000_0000;
  }

  // ---- Any bytes that end like a number, the shortest ones or not

  // The last byte is the first one below 128.
  ghost predicate EndsVarint(b: seq<Byte>) {
    && b != [] && NumberOf(b[|b|-1]) < 128
    && forall j | 0 <= j < |b| - 1 :: NumberOf(b[j]) >= 128
  }

  // Seven bits of each byte, low bits first.
  function VarintValue(b: seq<Byte>): nat {
    if b == [] then 0 else NumberOf(b[0]) % 128 + 128 * VarintValue(b[1..])
  }

  // 128 to the power `n`.
  function Power128(n: nat): (r: nat)
    ensures r > 0
  {
    if n == 0 then 1 else 128 * Power128(n - 1)
  }

  lemma {:induction false} ValueOfOneMore(b: seq<Byte>, x: Byte)
    ensures VarintValue(b + [x]) == VarintValue(b) + Power128(|b|) * (NumberOf(x) % 128)
  {
    hide NumberOf;
    if b != [] {
      ValueOfOneMore(b[1..], x);
      assert (b + [x])[1..] == b[1..] + [x];
      Distributes(VarintValue(b[1..]), Power128(|b| - 1), NumberOf(x) % 128);
    } else {
      assert ([] + [x])[1..] == [];
    }
  }

  lemma Distributes(v: nat, q: nat, y: nat)
    ensures 128 * (v + q * y) == 128 * v + (128 * q) * y
  {
  }

  lemma {:induction false} VarintIsItsValue(v: nat)
    ensures EndsVarint(Varint(v)) && VarintValue(Varint(v)) == v
  {
    hide ByteOf, NumberOf, Varint, VarintValue, EndsVarint;
    VarintStep(v);
    if v < 128 {
      ByteRoundTrip(v);
      LastByte(ByteOf(v));
    } else {
      ByteRoundTrip(v % 128 + 128);
      VarintIsItsValue(v / 128);
      ByteBefore(ByteOf(v % 128 + 128), Varint(v / 128));
    }
  }

  lemma LastByte(x: Byte)
    requires NumberOf(x) < 128
    ensures EndsVarint([x]) && VarintValue([x]) == NumberOf(x)
  {
    hide NumberOf;
    assert [x][1..] == [];
  }

  lemma ByteBefore(x: Byte, rest: seq<Byte>)
    requires NumberOf(x) >= 128 && EndsVarint(rest)
    ensures EndsVarint([x] + rest) && VarintValue([x] + rest) == NumberOf(x) % 128 + 128 * VarintValue(rest)
  {
    hide NumberOf;
    assert ([x] + rest)[1..] == rest;
  }

  method PutVarint32(dst: seq<Byte>, v: nat) returns (r: seq<Byte>)
    requires v < LIMIT32
    ensures r == dst + Varint(v)
  {
    hide ByteOf, Varint;
    var b0, b1, b2, b3 := v % 128 + 128, v / 128 % 128 + 128, v / 0x4000 % 128 + 128, v / 0x20_0000 % 128 + 128;
    var v1, v2, v3, v4 := v / 128, v / 0x4000, v / 0x20_0000, v / 0x1000_0000;
    if v < 0x80 {
      VarintStep(v);
      r := dst + [ByteOf(v)];
    } else if v < 0x4000 {
      VarintOfTwo(v);
      r := dst + [ByteOf(b0), ByteOf(v1)];
    } else if v < 0x20_0000 {
      VarintOfThree(v);
      r := dst + [ByteOf(b0), ByteOf(b1), ByteOf(v2)];
    } else if v < 0x1000_0000 {
      VarintOfFour(v);
      r := dst + [ByteOf(b0), ByteOf(b1), ByteOf(b2), ByteOf(v3)];
    } else {
      VarintOfFive(v);
      r := dst + [ByteOf(b0), ByteOf(b1), ByteOf(b2), ByteOf(b3), ByteOf(v4)];
    }
  }

  // `code` stands at `p` below `limit`.
  ghost predicate IsAt(data: seq<Byte>, p: nat, limit: nat, code: seq<Byte>) {
    p + |code| <= limit <= |data| && data[p..p+|code|] == code
  }

  lemma FirstAt(data: seq<Byte>, p: nat, limit: nat, code: seq<Byte>)
    requires IsAt(data, p, limit, code) && code != []
    ensures p < limit <= |data| && data[p] == code[0]
  {
    assert data[p] == data[p..p+|code|][0];
  }

  lemma PartsAt(data: seq<Byte>, p: nat, limit: nat, a: seq<Byte>, b: seq<Byte>)
    requires IsAt(data, p, limit, a + b)
    ensures IsAt(data, p, limit, a) && IsAt(data, p + |a|, limit, b)
    ensures p + |a| + |b| <= limit <= |data|
  {
    var all := data[p..p+|a+b|];
    assert data[p..p+|a|] == all[..|a|] && data[p+|a|..p+|a|+|b|] == all[|a|..];
  }

  // `x` moved up by `shift` bits.
  function Shifted(x: nat, shift: nat): nat {
    if shift == 0 then x else if shift == 7 then 0x80 * x else if shift == 14 then 0x4000 * x
    else if shift == 21 then 0x20_0000 * x else 0x1000_0000 * x
  }

  // What is left of a 32-bit number after so many bits is below this.
  function Left(shift: nat): nat {
    if shift == 0 then LIMIT32 else if shift == 7 then 0x200_0000 else if shift == 14 then 0x4_0000
    else if shift == 21 then 0x800 else if shift == 28 then 16 else 0
  }

  lemma ShiftStep(left: nat, shift: nat)
    requires shift % 7 == 0 && shift <= 28 && left < Left(shift)
    ensures left >= 128 ==> left / 128 < Left(shift + 7) && Shifted(left, shift) == Shifted(left % 128, shift) + Shifted(left / 128, shift + 7)
    ensures shift == 28 ==> left < 16
  {
    assert shift == 0 || shift == 7 || shift == 14 || shift == 21 || shift == 28;
    assert left == left % 128 + 128 * (left / 128);
  }

  lemma ShiftBound(value: nat, low: nat, shift: nat)
    requires shift % 7 == 0 && shift <= 28 && value < Shifted(1, shift) && low < (if shift == 28 then 16 else 128)
    ensures value + Shifted(low, shift) < if shift == 28 then LIMIT32 else Shifted(1, shift + 7)
    ensures shift < 28 ==> Shifted(1, shift + 7) <= LIMIT32
  {
    assert shift == 0 || shift == 7 || shift == 14 || shift == 21 || shift == 28;
  }

  // The fifth byte has only four bits that fit.
  lemma ValueGrows32(b: seq<Byte>, value: nat, x: Byte)
    requires |b| <= 4 && value == VarintValue(b)
    ensures |b| < 4 ==> VarintValue(b + [x]) == value + Shifted(NumberOf(x) % 128, 7 * |b|)
    ensures |b| == 4 && value + Shifted(NumberOf(x) % 16, 28) < LIMIT32 ==>
              VarintValue(b + [x]) % LIMIT32 == value + Shifted(NumberOf(x) % 16, 28)
  {
    hide NumberOf, VarintValue;
    ValueOfOneMore(b, x);
    assert Power128(3) == 0x20_0000 && Power128(4) == 0x1000_0000;
    var y := NumberOf(x) % 128;
    if |b| == 4 {
      assert y == y % 16 + 16 * (y / 16) && y % 16 == NumberOf(x) % 16;
      assert Shifted(y % 16, 28) == 0x1000_0000 * (y % 16);
      if value + 0x1000_0000 * (y % 16) < LIMIT32 {
        Overflows32(value + 0x1000_0000 * (y % 16), y / 16);
      }
    }
  }

  lemma Overflows32(low: nat, high: nat)
    requires low < LIMIT32
    ensures (low + LIMIT32 * high) % LIMIT32 == low
  {
  }

  lemma Overflows64(low: nat, high: nat)
    requires low < LIMIT64
    ensures (low + LIMIT64 * high) % LIMIT64 == low
  {
  }

  lemma ReadSoFar(data: seq<Byte>, p: nat, next: nat)
    requires p <= next < |data| && forall j | p <= j < next :: NumberOf(data[j]) >= 128
    ensures data[p..next+1] == data[p..next] + [data[next]]
    ensures NumberOf(data[next]) < 128 ==> EndsVarint(data[p..next+1])
  {
  }

  // A number of at most five bytes stands at `p` and ends at `next`; bits beyond 32 are lost.
  ghost predicate Reads32(data: seq<Byte>, p: nat, limit: nat, v: nat, next: nat) {
    p < next <= limit <= |data| && next <= p + 5 && EndsVarint(data[p..next]) && v == VarintValue(data[p..next]) % LIMIT32
  }

  // A number of at most ten bytes stands at `p` and ends at `next`; bits beyond 64 are lost.
  ghost predicate Reads64(data: seq<Byte>, p: nat, limit: nat, v: nat, next: nat) {
    p < next <= limit <= |data| && next <= p + 10 && EndsVarint(data[p..next]) && v == VarintValue(data[p..next]) % LIMIT64
  }

  // What an encoder wrote is read.
  lemma WrittenIsRead(data: seq<Byte>, p: nat, limit: nat, v: nat)
    requires v < LIMIT32 && IsAt(data, p, limit, Varint(v))
    ensures Reads32(data, p, limit, v, p + |Varint(v)|)
  {
    hide Varint, VarintValue, EndsVarint;
    VarintLength(v);
    VarintIsItsValue(v);
  }

  // A byte below 128 is a number by itself.
  lemma OneByteReads(data: seq<Byte>, p: nat, limit: nat)
    requires p < limit <= |data| && NumberOf(data[p]) < 128
    ensures Reads32(data, p, limit, NumberOf(data[p]), p + 1)
  {
    assert data[p..p+1] == [data[p]];
    LastByte(data[p]);
  }

  lemma EndsOnce(data: seq<Byte>, p: nat, a: nat, b: nat)
    requires p <= a <= |data| && p <= b <= |data| && EndsVarint(data[p..a]) && EndsVarint(data[p..b])
    ensures a == b
  {
    hide EndsVarint, NumberOf;
    EndIsFirst(data, p, a);
    EndIsFirst(data, p, b);
  }

  lemma EndIsFirst(data: seq<Byte>, p: nat, a: nat)
    requires p <= a <= |data| && EndsVarint(data[p..a])
    ensures p < a && NumberOf(data[a-1]) < 128 && forall j | p <= j < a - 1 :: NumberOf(data[j]) >= 128
  {
    hide NumberOf;
    assert data[a-1] == data[p..a][a-p-1];
    forall j | p <= j < a - 1
      ensures NumberOf(data[j]) >= 128
    {
      assert data[j] == data[p..a][j-p];
    }
  }

  // Nothing but one number can be read at a place.
  lemma ReadsOnce(data: seq<Byte>, p: nat, limit: nat)
    ensures forall v, n, x, m | Reads32(data, p, limit, v, n) && Reads32(data, p, limit, x, m) :: v == x && n == m
    ensures forall v, n, x, m | Reads64(data, p, limit, v, n) && Reads64(data, p, limit, x, m) :: v == x && n == m
  {
    hide EndsVarint, VarintValue;
    forall v, n, x, m | Reads32(data, p, limit, v, n) && Reads32(data, p, limit, x, m)
      ensures v == x && n == m
    {
      EndsOnce(data, p, n, m);
    }
    forall v, n, x, m | Reads64(data, p, limit, v, n) && Reads64(data, p, limit, x, m)
      ensures v == x && n == m
    {
      EndsOnce(data, p, n, m);
    }
  }

  // Without an end in reach, no number can be read.
  lemma NeverEnds(data: seq<Byte>, p: nat, limit: nat, reach: nat)
    requires p <= limit <= |data| && forall j | p <= j < limit && j < p + reach :: NumberOf(data[j]) >= 128
    ensures reach == 5 ==> forall v, n :: !Reads32(data, p, limit, v, n)
    ensures reach == 10 ==> forall v, n :: !Reads64(data, p, limit, v, n)
  {
    hide NumberOf, VarintValue;
    forall n | p < n <= limit && n <= p + reach
      ensures !EndsVarint(data[p..n])
    {
      assert data[p..n][n-p-1] == data[n-1];
    }
  }

  // Reads a number of at most five bytes, with the bits beyond 32 lost. Expected, if anything: `v`.
  method GetVarint32Ptr(data: seq<Byte>, p: nat, limit: nat, ghost v: nat) returns (ok: bool, value: nat, next: nat)
    requires p <= limit <= |data|
    ensures if ok then Reads32(data, p, limit, value, next) else forall x, n :: !Reads32(data, p, limit, x, n)
    ensures ok ==> p < next <= limit && value < LIMIT32
    ensures v < LIMIT32 && IsAt(data, p, limit, Varint(v)) ==> ok && value == v && next == p + |Varint(v)|
  {
    hide ByteOf, NumberOf, Varint, IsAt, Shifted, Left, VarintValue, EndsVarint;
    value, next := 0, p;
    var shift := 0;
    assert VarintValue(data[p..p]) == 0 by { NoValue(data, p); }
    ghost var left: nat := v;
    ghost var expected := v < LIMIT32 && IsAt(data, p, limit, Varint(v));
    NothingShifted(v);
    while shift <= 28 && next < limit
      invariant p <= next <= limit && shift == 7 * (next - p) <= 35 && (shift <= 28 ==> value < Shifted(1, shift))
      invariant shift <= 28 ==> value == VarintValue(data[p..next])
      invariant forall j | p <= j < next :: NumberOf(data[j]) >= 128
      invariant expected ==>
                  && shift <= 28 && v == value + Shifted(left, shift) && left < Left(shift)
                  && IsAt(data, next, limit, Varint(left)) && next + |Varint(left)| == p + |Varint(v)|
      decreases limit - next
    {
      var byte := NumberOf(data[next]);
      NumberRoundTrip(data[next]);
      if expected {
        VarintHead(data, next, limit, left);
        ShiftStep(left, shift);
      }
      ReadSoFar(data, p, next);
      ghost var read, first := data[p..next], data[next];
      next := next + 1;
      var low := if shift == 28 then byte % 16 else byte % 128;
      ShiftBound(value, low, shift);
      ValueGrows32(read, value, first);
      value := value + Shifted(low, shift);
      if byte < 128 {
        return true, value, next;
      }
      left, shift := left / 128, shift + 7;
    }
    if expected {
      VarintIsThere(data, next, limit, left);
    }
    NeverEnds(data, p, limit, 5);
    return false, 0, p;
  }

  lemma NoValue(data: seq<Byte>, p: nat)
    requires p <= |data|
    ensures VarintValue(data[p..p]) == 0
  {
  }

  lemma NothingShifted(v: nat)
    ensures v == Shifted(v, 0) && Left(0) == LIMIT32 && Shifted(1, 0) == 1
  {
  }

  lemma VarintIsThere(data: seq<Byte>, p: nat, limit: nat, v: nat)
    requires IsAt(data, p, limit, Varint(v))
    ensures p < limit
  {
  }

  lemma VarintHead(data: seq<Byte>, p: nat, limit: nat, v: nat)
    requires IsAt(data, p, limit, Varint(v))
    ensures p < limit
    ensures NumberOf(data[p]) == (if v < 128 then v else v % 128 + 128)
    ensures v >= 128 ==> IsAt(data, p + 1, limit, Varint(v / 128)) && |Varint(v)| == 1 + |Varint(v / 128)|
    ensures v < 128 ==> |Varint(v)| == 1
  {
    ByteRoundTrip(if v < 128 then v else v % 128 + 128);
    hide ByteOf, NumberOf;
    var code := Varint(v);
    assert data[p] == data[p..p+|code|][0];
    if v >= 128 {
      var rest := Varint(v / 128);
      assert code == [ByteOf(v % 128 + 128)] + rest && code[1..] == rest;
      assert data[p+1..p+1+|rest|] == data[p..p+|code|][1..];
    }
  }

  // ---- 64 bits

  const LIMIT64: nat := 0x1_0000_0000_0000_0000

  method PutVarint64(dst: seq<Byte>, v: nat) returns (r: seq<Byte>)
    requires v < LIMIT64
    ensures r == dst + Varint(v)
  {
    hide ByteOf;
    var left: nat := v;
    r := dst;
    while left >= 128
      invariant r + Varint(left) == dst + Varint(v)
      decreases left
    {
      assert Varint(left) == [ByteOf(left % 128 + 128)] + Varint(left / 128);
      r, left := r + [ByteOf(left % 128 + 128)], left / 128;
    }
    r := r + [ByteOf(left)];
  }

  lemma {:induction false} Varint64Length(v: nat, n: nat)
    requires v < 2 * Power128(n)
    ensures |Varint(v)| <= n + 1
  {
    hide ByteOf;
    if v >= 128 {
      assert n > 0;
      Varint64Length(v / 128, n - 1);
    }
  }

  lemma TenBytes(v: nat)
    requires v < LIMIT64
    ensures |Varint(v)| <= 10
  {
    PowerNine();
    Varint64Length(v, 9);
  }

  lemma PowerNine()
    ensures 2 * Power128(9) == LIMIT64
  {
    assert Power128(3) == 0x20_0000;
    assert Power128(6) == 0x20_0000 * 0x20_0000;
  }

  function Times(a: nat, b: nat): nat {
    a * b
  }

  // Adding the next seven bits, or at most one bit in the tenth byte.
  lemma ReadStep(n: nat, power: nat, value: nat, low: nat)
    requires n <= 9 && power == Power128(n) && value < power && low < (if n == 9 then 2 else 128)
    ensures value + Times(power, low) < LIMIT64
    ensures n < 9 ==> value + Times(power, low) < 128 * power
    ensures 128 * power == Power128(n + 1)
  {
    PowerNine();
    PowerUpTo(n);
    var bound := if n == 9 then 2 else 128;
    assert power * (low + 1) <= power * bound;
    assert power * (low + 1) == power * low + power;
  }

  lemma LeftStep(n: nat, power: nat, value: nat, left: nat)
    requires n <= 9 && left < 2 * Power128(9 - n)
    ensures left < 128 ==> left < (if n == 9 then 2 else 128)
    ensures left >= 128 ==> n < 9 && left / 128 < 2 * Power128(8 - n)
    ensures value + Times(power, left) == value + Times(power, left % 128) + Times(128 * power, left / 128)
  {
    var q := left / 128;
    assert left == left % 128 + 128 * q;
    assert power * (left % 128 + 128 * q) == power * (left % 128) + 128 * power * q;
  }

  lemma {:induction false} PowerUpTo(n: nat)
    ensures n <= 9 ==> Power128(n) <= Power128(9)
    ensures n < 9 ==> 128 * Power128(n) <= Power128(9)
    decreases 9 - n
  {
    if n < 9 {
      PowerUpTo(n + 1);
    }
  }

  // The tenth byte has only one bit that fits.
  lemma ValueGrows64(b: seq<Byte>, value: nat, power: nat, x: Byte)
    requires |b| <= 9 && value == VarintValue(b) && power == Power128(|b|)
    ensures |b| < 9 ==> VarintValue(b + [x]) == value + Times(power, NumberOf(x) % 128)
    ensures |b| == 9 && value + Times(power, NumberOf(x) % 2) < LIMIT64 ==>
              VarintValue(b + [x]) % LIMIT64 == value + Times(power, NumberOf(x) % 2)
  {
    hide NumberOf, VarintValue, Power128;
    ValueOfOneMore(b, x);
    var y := NumberOf(x) % 128;
    if |b| == 9 {
      PowerNine();
      assert y == y % 2 + 2 * (y / 2) && y % 2 == NumberOf(x) % 2;
      assert power * y == power * (y % 2) + LIMIT64 * (y / 2);
      if value + Times(power, NumberOf(x) % 2) < LIMIT64 {
        Overflows64(value + power * (y % 2), y / 2);
      }
    }
  }

  // Reads a number of at most ten bytes, with the bits beyond 64 lost. Expected, if anything: `v`.
  method GetVarint64(data: seq<Byte>, p: nat, limit: nat, ghost v: nat) returns (ok: bool, value: nat, next: nat)
    requires p <= limit <= |data|
    ensures if ok then Reads64(data, p, limit, value, next) else forall x, n :: !Reads64(data, p, limit, x, n)
    ensures ok ==> p < next <= limit && value < LIMIT64
    ensures v < LIMIT64 && IsAt(data, p, limit, Varint(v)) ==> ok && value == v && next == p + |Varint(v)|
  {
    hide ByteOf, NumberOf, Varint, IsAt, Power128, Times, VarintValue, EndsVarint;
    value, next := 0, p;
    var n, power := 0, 1;
    assert VarintValue(data[p..p]) == 0 by { NoValue(data, p); }
    ghost var left: nat := v;
    ghost var expected := v < LIMIT64 && IsAt(data, p, limit, Varint(v));
    PowerZero(v);
    while n <= 9 && next < limit
      invariant p <= next <= limit && n == next - p <= 10 && power == Power128(n) && (n <= 9 ==> value < power)
      invariant n <= 9 ==> value == VarintValue(data[p..next])
      invariant forall j | p <= j < next :: NumberOf(data[j]) >= 128
      invariant expected ==>
                  && n <= 9 && v == value + Times(power, left) && left < 2 * Power128(9 - n)
                  && IsAt(data, next, limit, Varint(left)) && next + |Varint(left)| == p + |Varint(v)|
      decreases limit - next
    {
      var byte := NumberOf(data[next]);
      NumberRoundTrip(data[next]);
      if expected {
        VarintHead(data, next, limit, left);
        LeftStep(n, power, value, left);
      }
      ReadSoFar(data, p, next);
      ghost var read, first := data[p..next], data[next];
      next := next + 1;
      var low := if n == 9 then byte % 2 else byte % 128;
      ReadStep(n, power, value, low);
      ValueGrows64(read, value, power, first);
      value := value + Times(power, low);
      if byte < 128 {
        return true, value, next;
      }
      left, n, power := left / 128, n + 1, 128 * power;
    }
    if expected {
      VarintIsThere(data, next, limit, left);
    }
    NeverEnds(data, p, limit, 10);
    return false, 0, p;
  }

  lemma PowerZero(v: nat)
    ensures Power128(0) == 1 && v == 0 + Times(1, v)
    ensures v < LIMIT64 ==> v < 2 * Power128(9)
  {
    PowerNine();
  }

  // ---- A string after its length

  function Prefixed(s: seq<Byte>): seq<Byte> {
    Varint(|s|) + s
  }

  method PutLengthPrefixedSlice(dst: seq<Byte>, value: seq<Byte>) returns (r: seq<Byte>)
    requires |value| < LIMIT32
    ensures r == dst + Prefixed(value)
  {
    hide Varint;
    r := PutVarint32(dst, |value|);
    r := r + value;
  }

  // A length stands at `p`, followed by as many bytes, which are `s` and end at `next`.
  ghost predicate ReadsPrefixed(data: seq<Byte>, p: nat, limit: nat, s: seq<Byte>, next: nat) {
    p + |s| < next <= limit <= |data| && Reads32(data, p, limit, |s|, next - |s|) && data[next-|s|..next] == s
  }

  lemma PrefixedOnce(data: seq<Byte>, p: nat, limit: nat, s: seq<Byte>, next: nat, x: seq<Byte>, n: nat)
    requires ReadsPrefixed(data, p, limit, s, next) && ReadsPrefixed(data, p, limit, x, n)
    ensures s == x && next == n
  {
    hide Reads32;
    ReadsOnce(data, p, limit);
  }

  lemma NoneFollows(data: seq<Byte>, p: nat, limit: nat, len: nat, at: nat)
    requires Reads32(data, p, limit, len, at) && limit < at + len
    ensures forall x, n :: !ReadsPrefixed(data, p, limit, x, n)
  {
    hide Reads32;
    ReadsOnce(data, p, limit);
  }

  // Expected, if anything: `s`.
  method GetLengthPrefixedSlice(data: seq<Byte>, p: nat, limit: nat, ghost s: seq<Byte>) returns (ok: bool, str: seq<Byte>, next: nat)
    requires p <= limit <= |data|
    ensures p <= next <= limit && (ok ==> p < next)
    ensures if ok then ReadsPrefixed(data, p, limit, str, next) else forall x, n :: !ReadsPrefixed(data, p, limit, x, n)
    ensures |s| < LIMIT32 && IsAt(data, p, limit, Prefixed(s)) ==> ok && str == s && next == p + |Prefixed(s)|
  {
    hide Varint, Reads32, EndsVarint, VarintValue;
    if IsAt(data, p, limit, Prefixed(s)) {
      PartsAt(data, p, limit, Varint(|s|), s);
    }
    var len;
    ok, len, next := GetVarint32Ptr(data, p, limit, |s|);
    if !ok {
      return false, [], p;
    }
    if limit - next < len {
      NoneFollows(data, p, limit, len, next);
      return false, [], next;
    }
    str, next := data[next..next+len], next + len;
  }

  // ---- Four bytes, low byte first

  function Fixed32(n: nat): seq<Byte>
    requires n < LIMIT32
  {
    [ByteOf(n % 256), ByteOf(n / 256 % 256), ByteOf(n / 256 / 256 % 256), ByteOf(n / 256 / 256 / 256)]
  }

  function FixedValue(b: seq<Byte>): nat
    requires |b| == 4
  {
    NumberOf(b[0]) + 256 * (NumberOf(b[1]) + 256 * (NumberOf(b[2]) + 256 * NumberOf(b[3])))
  }

  lemma FixedRoundTrip(n: nat)
    requires n < LIMIT32
    ensures FixedValue(Fixed32(n)) == n
  {
    hide ByteOf, NumberOf;
    var n1 := n / 256;
    var n2 := n1 / 256;
    var n3 := n2 / 256;
    ByteRoundTrip(n % 256);
    ByteRoundTrip(n1 % 256);
    ByteRoundTrip(n2 % 256);
    ByteRoundTrip(n3);
    assert n == n % 256 + 256 * n1 && n1 == n1 % 256 + 256 * n2 && n2 == n2 % 256 + 256 * n3;
  }

  lemma LowByteFirst(n: nat)
    requires n < LIMIT32
    ensures var b := Fixed32(n);
            && NumberOf(b[0]) == n % 0x100 && NumberOf(b[1]) == n / 0x100 % 0x100
            && NumberOf(b[2]) == n / 0x1_0000 % 0x100 && NumberOf(b[3]) == n / 0x100_0000
  {
    hide ByteOf, NumberOf;
    assert n / 256 / 256 == n / 0x1_0000 && n / 256 / 256 / 256 == n / 0x100_0000;
    ByteRoundTrip(n % 256);
    ByteRoundTrip(n / 256 % 256);
    ByteRoundTrip(n / 256 / 256 % 256);
    ByteRoundTrip(n / 256 / 256 / 256);
  }

  function FixedArray(ns: seq<nat>): seq<Byte> {
    if ns == [] then [] else FixedArray(ns[..|ns|-1]) + Fixed32(ns[|ns|-1] % LIMIT32)
  }

  lemma FixedIsFour(n: nat)
    requires n < LIMIT32
    ensures |Fixed32(n)| == 4
  {
  }

  lemma {:induction false} FixedArrayLength(ns: seq<nat>)
    ensures |FixedArray(ns)| == 4 * |ns|
  {
    hide Fixed32;
    if ns != [] {
      FixedArrayLength(ns[..|ns|-1]);
      FixedIsFour(ns[|ns|-1] % LIMIT32);
    }
  }

  lemma {:induction false} FixedArrayAt(ns: seq<nat>, k: nat)
    requires k < |ns| && ns[k] < LIMIT32
    ensures |FixedArray(ns)| == 4 * |ns|
    ensures FixedArray(ns)[4*k..4*k+4] == Fixed32(ns[k]) && FixedValue(FixedArray(ns)[4*k..4*k+4]) == ns[k]
  {
    hide Fixed32, FixedValue;
    FixedArrayLength(ns);
    FixedRoundTrip(ns[k]);
    FixedIsFour(ns[|ns|-1] % LIMIT32);
    var before, last := FixedArray(ns[..|ns|-1]), Fixed32(ns[|ns|-1] % LIMIT32);
    FixedArrayLength(ns[..|ns|-1]);
    if k < |ns| - 1 {
      FixedArrayAt(ns[..|ns|-1], k);
      assert (before + last)[4*k..4*k+4] == before[4*k..4*k+4];
    } else {
      assert (before + last)[4*k..4*k+4] == last;
    }
  }

  lemma FixedBack(b: seq<Byte>)
    requires |b| == 4
    ensures FixedValue(b) < LIMIT32 && Fixed32(FixedValue(b)) == b
  {
    hide ByteOf, NumberOf;
    NumberRoundTrip(b[0]);
    NumberRoundTrip(b[1]);
    NumberRoundTrip(b[2]);
    NumberRoundTrip(b[3]);
    var n2 := NumberOf(b[2]) + 256 * NumberOf(b[3]);
    var n1 := NumberOf(b[1]) + 256 * n2;
    LowByteOf(NumberOf(b[0]), n1);
    LowByteOf(NumberOf(b[1]), n2);
    LowByteOf(NumberOf(b[2]), NumberOf(b[3]));
  }

  lemma LowByteOf(low: nat, rest: nat)
    requires low < 256
    ensures (low + 256 * rest) % 256 == low && (low + 256 * rest) / 256 == rest
  {
  }

  // ---- Eight bytes

  function Fixed64(n: nat): seq<Byte>
    requires n < LIMIT64
  {
    Fixed32(n % LIMIT32) + Fixed32(n / LIMIT32)
  }

  function Fixed64Value(b: seq<Byte>): nat
    requires |b| == 8
  {
    FixedValue(b[..4]) + LIMIT32 * FixedValue(b[4..])
  }

  lemma Fixed64RoundTrip(n: nat)
    requires n < LIMIT64
    ensures |Fixed64(n)| == 8 && Fixed64Value(Fixed64(n)) == n
  {
    hide Fixed32, FixedValue;
    FixedIsFour(n % LIMIT32);
    FixedIsFour(n / LIMIT32);
    FixedRoundTrip(n % LIMIT32);
    FixedRoundTrip(n / LIMIT32);
    assert Fixed64(n)[..4] == Fixed32(n % LIMIT32) && Fixed64(n)[4..] == Fixed32(n / LIMIT32);
  }
}
