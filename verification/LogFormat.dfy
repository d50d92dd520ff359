// The log: records cut into checksummed fragments that never cross a block, and a reader that
// takes a torn end of file for the end of the log.

module LogFormat {
  import opened Bytes
  import opened Crc32c

  const BLOCK_SIZE: nat := 32768
  const HEADER_SIZE: nat := 7

  const ZERO_TYPE: nat := 0
  const FULL_TYPE: nat := 1
  const FIRST_TYPE: nat := 2
  const MIDDLE_TYPE: nat := 3
  const LAST_TYPE: nat := 4
  const END_OF_FILE: nat := 5    // returned by the reader only, like the next
  const BAD_RECORD: nat := 6

  // ---- The format

  function EncodeFixed32(v: bv32): seq<Byte> {
    [(v & 0xff) as bv8, ((v >> 8) & 0xff) as bv8, ((v >> 16) & 0xff) as bv8, (v >> 24) as bv8]
  }

  function DecodeFixed32(b: seq<Byte>): bv32
    requires |b| >= 4
  {
    (b[0] as bv32) | ((b[1] as bv32) << 8) | ((b[2] as bv32) << 16) | ((b[3] as bv32) << 24)
  }

  lemma FixedRoundTrip(v: bv32)
    ensures DecodeFixed32(EncodeFixed32(v)) == v
  {
  }

  function Checksum(t: nat, payload: seq<Byte>): bv32
    requires t < 256
  {
    Value([ByteOf(t)] + payload)
  }

  // Masked checksum, length in two bytes, type.
  function Header(t: nat, payload: seq<Byte>): (h: seq<Byte>)
    requires t < 256 && |payload| < 0x1_0000
    ensures |h| == HEADER_SIZE
  {
    EncodeFixed32(Mask(Checksum(t, payload))) + [ByteOf(|payload| % 256), ByteOf(|payload| / 256), ByteOf(t)]
  }

  function Physical(t: nat, payload: seq<Byte>): (r: seq<Byte>)
    requires t < 256 && |payload| < 0x1_0000
    ensures |r| == HEADER_SIZE + |payload|
  {
    Header(t, payload) + payload
  }

  function Zeros(n: nat): (z: seq<Byte>)
    ensures |z| == n && forall i | 0 <= i < n :: z[i] == 0
  {
    seq(n, _ => 0)
  }

  function Offset(p: nat): nat {
    p % BLOCK_SIZE
  }

  // Bytes to fill at position `p`, where no header fits into what is left of the block.
  function Trailer(p: nat): (n: nat)
    ensures n < HEADER_SIZE && Offset(p + n) + HEADER_SIZE <= BLOCK_SIZE
  {
    var leftover := BLOCK_SIZE - Offset(p);
    if leftover < HEADER_SIZE then leftover else 0
  }

  // Room for a payload at position `p`.
  function Avail(p: nat): nat {
    BLOCK_SIZE - HEADER_SIZE - Offset(p + Trailer(p))
  }

  function Min(a: nat, b: nat): nat {
    if a < b then a else b
  }

  function TypeOf(begin: bool, end: bool): nat {
    if begin && end then FULL_TYPE
    else if begin then FIRST_TYPE
    else if end then LAST_TYPE
    else MIDDLE_TYPE
  }

  // Byte by byte: the masked checksum of the type and the payload, low byte first, the length of
  // the payload, low byte first, the type, and the payload.
  lemma PhysicalLayout(t: nat, payload: seq<Byte>)
    requires t < 256 && |payload| < 0x1_0000
    ensures var r := Physical(t, payload);
            && |r| == 7 + |payload| && r[7..] == payload && NumberOf(r[6]) == t
            && NumberOf(r[4]) + 256 * NumberOf(r[5]) == |payload|
            && (r[0] as bv32) | ((r[1] as bv32) << 8) | ((r[2] as bv32) << 16) | ((r[3] as bv32) << 24) == Mask(Value([r[6]] + payload))
  {
    hide ByteOf, NumberOf, Value, Mask, EncodeFixed32, DecodeFixed32;
    ByteRoundTrip(t);
    ByteRoundTrip(|payload| % 256);
    ByteRoundTrip(|payload| / 256);
    FixedBytes(Mask(Checksum(t, payload)));
  }

  lemma FixedBytes(v: bv32)
    ensures var b := EncodeFixed32(v);
            |b| == 4 && v == (b[0] as bv32) | ((b[1] as bv32) << 8) | ((b[2] as bv32) << 16) | ((b[3] as bv32) << 24)
  {
  }

  // The fragment for `data` at position `p` lies in one block of 32 kilobytes, after at most six
  // bytes of filling at the end of the one before, and fills its block unless it is the last one.
  lemma FragmentFits(p: nat, data: seq<Byte>)
    ensures var start, n := p + Trailer(p), Min(|data|, Avail(p));
            && start % 32768 + 7 + n <= 32768
            && Trailer(p) < 7 && (Trailer(p) > 0 ==> start % 32768 == 0)
            && (n < |data| ==> start % 32768 + 7 + n == 32768)
  {
    assert Trailer(p) > 0 ==> Offset(p + Trailer(p)) == 0;
  }

  lemma TypesAre()
    ensures TypeOf(true, true) == 1 && TypeOf(true, false) == 2 && TypeOf(false, false) == 3 && TypeOf(false, true) == 4
  {
  }

  // What the writer puts at position `p` for the next fragment of `data`.
  function Chunk(p: nat, data: seq<Byte>, begin: bool): seq<Byte> {
    var n := Min(|data|, Avail(p));
    Zeros(Trailer(p)) + Physical(TypeOf(begin, n == |data|), data[..n])
  }

  // What the writer puts at position `p` for `data`, the rest of a record.
  function Written(p: nat, data: seq<Byte>, begin: bool): seq<Byte>
    decreases |data|, if Avail(p) == 0 then 1 else 0
  {
    var n := Min(|data|, Avail(p));
    var chunk := Chunk(p, data, begin);
    if n == |data| then chunk else chunk + Written(p + |chunk|, data[n..], false)
  }

  function WrittenAll(p: nat, records: seq<seq<Byte>>): seq<Byte>
    decreases |records|
  {
    if records == [] then []
    else
      var first := Written(p, records[0], true);
      first + WrittenAll(p + |first|, records[1..])
  }

  lemma {:induction false} WrittenAllBoth(p: nat, a: seq<seq<Byte>>, b: seq<seq<Byte>>)
    ensures WrittenAll(p, a + b) == WrittenAll(p, a) + WrittenAll(p + |WrittenAll(p, a)|, b)
    decreases |a|
  {
    hide Written;
    if a == [] {
      assert a + b == b;
    } else {
      var first := Written(p, a[0], true);
      var q := p + |first|;
      assert (a + b)[0] == a[0] && (a + b)[1..] == a[1..] + b;
      WrittenAllBoth(q, a[1..], b);
      var x, y := WrittenAll(q, a[1..]), WrittenAll(q + |WrittenAll(q, a[1..])|, b);
      assert first + (x + y) == (first + x) + y;
      assert WrittenAll(p, a) == first + x && p + |first + x| == q + |x|;
    }
  }

  lemma WrittenUnfolds(p: nat, data: seq<Byte>, begin: bool)
    ensures var n, chunk := Min(|data|, Avail(p)), Chunk(p, data, begin);
            Written(p, data, begin) == if n == |data| then chunk else chunk + Written(p + |chunk|, data[n..], false)
    ensures 0 < |Chunk(p, data, begin)| && |Chunk(p, data, begin)| == Trailer(p) + HEADER_SIZE + Min(|data|, Avail(p))
    ensures Avail(p) == 0 ==> Avail(p + |Chunk(p, data, begin)|) != 0
  {
    hide Physical, Zeros;
  }

  lemma WrittenOne(p: nat, record: seq<Byte>)
    ensures WrittenAll(p, [record]) == Written(p, record, true)
  {
    hide Written;
    assert [record][1..] == [];
  }

  // ---- The writer

  class Writer {
    var dest: seq<Byte>
    var blockOffset: nat

    ghost predicate Valid()
      reads this
    {
      blockOffset <= BLOCK_SIZE && Offset(blockOffset) == Offset(|dest|)
    }

    // Starts where earlier contents end.
    constructor (contents: seq<Byte>)
      ensures Valid() && dest == contents
    {
      dest, blockOffset := contents, Offset(|contents|);
    }

    method EmitPhysicalRecord(t: nat, payload: seq<Byte>)
      requires Valid() && t <= LAST_TYPE && |payload| <= 0xffff && blockOffset + HEADER_SIZE + |payload| <= BLOCK_SIZE
      modifies this
      ensures Valid() && dest == old(dest) + Physical(t, payload)
      ensures blockOffset == old(blockOffset) + HEADER_SIZE + |payload|
    {
      hide Value, Crc32c.Extend, Mask, EncodeFixed32, ByteOf, Header, Physical;
      var typeCrc := Value([ByteOf(t)]);
      var crc := Mask(Crc32c.Extend(typeCrc, payload));
      var buf := EncodeFixed32(crc) + [ByteOf(|payload| % 256), ByteOf(|payload| / 256), ByteOf(t)];
      PhysicalParts(t, payload);
      StaysAligned(blockOffset, |dest|, HEADER_SIZE + |payload|);
      hide Offset;
      assert dest + buf + payload == dest + (buf + payload);
      dest := dest + buf;
      dest := dest + payload;
      blockOffset := blockOffset + HEADER_SIZE + |payload|;
    }

    // Emits the next fragment of `data`, in a new block if need be.
    method AddFragment(data: seq<Byte>, begin: bool) returns (length: nat)
      requires Valid()
      modifies this
      ensures Valid() && length == Min(|data|, Avail(old(|dest|)))
      ensures dest == old(dest) + Chunk(old(|dest|), data, begin)
    {
      hide Physical, Zeros;
      ghost var p := |dest|;
      var leftover := BLOCK_SIZE - blockOffset;
      if leftover < HEADER_SIZE {
        if leftover > 0 {
          dest := dest + Zeros(leftover);
        }
        blockOffset := 0;
      }
      NoZeros();
      assert dest == old(dest) + Zeros(Trailer(p));
      var avail := BLOCK_SIZE - blockOffset - HEADER_SIZE;
      assert avail == Avail(p);
      length := if |data| < avail then |data| else avail;
      EmitPhysicalRecord(TypeOf(begin, |data| == length), data[..length]);
    }

    method AddRecord(slice: seq<Byte>)
      requires Valid()
      modifies this
      ensures Valid() && dest == old(dest) + Written(old(|dest|), slice, true)
    {
      hide Written, Chunk, Valid, Avail, Trailer;
      var rest, begin := slice, true;
      ghost var all := old(dest) + Written(old(|dest|), slice, true);
      while true
        invariant Valid() && dest + Written(|dest|, rest, begin) == all
        decreases |rest|, if Avail(|dest|) == 0 then 1 else 0
      {
        ghost var before := dest;
        WrittenUnfolds(|dest|, rest, begin);
        var length := AddFragment(rest, begin);
        if length == |rest| {
          return;
        }
        assert before + (Chunk(|before|, rest, begin) + Written(|dest|, rest[length..], false)) == dest + Written(|dest|, rest[length..], false);
        rest, begin := rest[length..], false;
      }
    }
  }

  lemma StaysAligned(p: nat, q: nat, n: nat)
    requires Offset(p) == Offset(q)
    ensures Offset(p + n) == Offset(q + n)
  {
  }

  lemma PhysicalParts(t: nat, payload: seq<Byte>)
    requires t < 256 && |payload| < 0x1_0000
    ensures Physical(t, payload) ==
            EncodeFixed32(Mask(Crc32c.Extend(Value([ByteOf(t)]), payload)))
            + [ByteOf(|payload| % 256), ByteOf(|payload| / 256), ByteOf(t)] + payload
  {
    hide Value, Crc32c.Extend, Mask, Checksum, EncodeFixed32, ByteOf;
    ChecksumByParts(t, payload);
  }

  lemma ChecksumByParts(t: nat, payload: seq<Byte>)
    requires t < 256
    ensures Crc32c.Extend(Value([ByteOf(t)]), payload) == Checksum(t, payload)
  {
    hide Crc32c.Extend, ByteOf;
    ExtendBoth(0, [ByteOf(t)], payload);
  }

  lemma NoZeros()
    ensures Zeros(0) == []
  {
  }
}
