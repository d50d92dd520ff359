// Blocks in a table file: handles, trailers with checksums, and the footer.

module TableFormat {
  import opened Bytes
  import opened Coding
  import Crc32c
  import LogFormat

  const BLOCK_TRAILER_SIZE: nat := 5
  const MAX_ENCODED_LENGTH: nat := 20
  const FOOTER_LENGTH: nat := 48
  const MAGIC_LOW: nat := 0x8b80_fb57
  const MAGIC_HIGH: nat := 0xdb47_7524

  // Where a block is.
  datatype BlockHandle = BlockHandle(offset: nat, size: nat)

  predicate Encodable(h: BlockHandle) {
    h.offset < LIMIT64 && h.size < LIMIT64
  }

  // Numbers of 64 bits.
  function HandleBytes(h: BlockHandle): seq<Byte> {
    Varint(h.offset % LIMIT64) + Varint(h.size % LIMIT64)
  }

  method EncodeHandle(h: BlockHandle, dst: seq<Byte>) returns (r: seq<Byte>)
    ensures r == dst + HandleBytes(h) && |HandleBytes(h)| <= MAX_ENCODED_LENGTH
  {
    hide Varint;
    HandleLength(h);
    r := PutVarint64(dst, h.offset % LIMIT64);
    r := PutVarint64(r, h.size % LIMIT64);
  }

  lemma HandleLength(h: BlockHandle)
    ensures |HandleBytes(h)| <= MAX_ENCODED_LENGTH
  {
    TenBytes(h.offset % LIMIT64);
    TenBytes(h.size % LIMIT64);
  }

  // The offset 5 and the size 6, in bytes.
  lemma KnownHandle()
    ensures HandleBytes(BlockHandle(5, 6)) == [5, 6]
  {
  }

  // Two numbers stand at `p`, and the second ends at `next`.
  ghost predicate ReadsHandle(input: seq<Byte>, p: nat, h: BlockHandle, next: nat) {
    exists at :: Reads64(input, p, |input|, h.offset, at) && Reads64(input, at, |input|, h.size, next)
  }

  lemma ReadsHandleOnce(input: seq<Byte>, p: nat)
    ensures forall h, n, g, m | ReadsHandle(input, p, h, n) && ReadsHandle(input, p, g, m) :: h == g && n == m
  {
    hide Reads64;
    forall h, n, g, m | ReadsHandle(input, p, h, n) && ReadsHandle(input, p, g, m)
      ensures h == g && n == m
    {
      ReadsOnce(input, p, |input|);
      var at :| Reads64(input, p, |input|, h.offset, at) && Reads64(input, at, |input|, h.size, n);
      ReadsOnce(input, at, |input|);
    }
  }

  // Expected, if anything: `h`.
  method DecodeHandle(input: seq<Byte>, p: nat, ghost h: BlockHandle) returns (ok: bool, handle: BlockHandle, next: nat)
    requires p <= |input|
    ensures p <= next <= |input|
    ensures if ok then ReadsHandle(input, p, handle, next) else forall g, n :: !ReadsHandle(input, p, g, n)
    ensures Encodable(h) && IsAt(input, p, |input|, HandleBytes(h)) ==> ok && handle == h && next == p + |HandleBytes(h)|
  {
    hide Varint, IsAt, Reads64;
    ReadsOnce(input, p, |input|);
    if Encodable(h) && IsAt(input, p, |input|, HandleBytes(h)) {
      PartsAt(input, p, |input|, Varint(h.offset), Varint(h.size));
    }
    var offset, size;
    handle, next := BlockHandle(0, 0), p;
    ok, offset, next := GetVarint64(input, p, |input|, h.offset);
    if !ok {
      next := p;
      return;
    }
    var after := next;
    ok, size, next := GetVarint64(input, after, |input|, h.size);
    if !ok {
      next := after;
      return;
    }
    handle := BlockHandle(offset, size);
  }

  // ---- The footer

  function Magic(): seq<Byte> {
    Fixed32(MAGIC_LOW) + Fixed32(MAGIC_HIGH)
  }

  // 0xdb4775248b80fb57, low byte first.
  lemma MagicBytes()
    ensures |Magic()| == 8
    ensures forall i | 0 <= i < 8 :: NumberOf(Magic()[i]) == [0x57, 0xfb, 0x80, 0x8b, 0x24, 0x75, 0x47, 0xdb][i]
  {
    hide ByteOf, NumberOf, Fixed32;
    FixedIsFour(MAGIC_LOW);
    FixedIsFour(MAGIC_HIGH);
    LowByteFirst(MAGIC_LOW);
    LowByteFirst(MAGIC_HIGH);
  }

  // Two handles, zeros up to where the magic number goes, and the magic number.
  ghost predicate IsFooter(footer: seq<Byte>, metaindex: BlockHandle, index: BlockHandle) {
    && |footer| == FOOTER_LENGTH
    && IsAt(footer, 0, FOOTER_LENGTH - 8, HandleBytes(metaindex) + HandleBytes(index))
    && footer[FOOTER_LENGTH-8..] == Magic()
  }

  method EncodeFooter(metaindex: BlockHandle, index: BlockHandle) returns (footer: seq<Byte>)
    ensures |footer| == FOOTER_LENGTH && IsFooter(footer, metaindex, index)
    ensures forall i | |HandleBytes(metaindex) + HandleBytes(index)| <= i < FOOTER_LENGTH - 8 :: footer[i] == 0
  {
    hide HandleBytes, Fixed32;
    HandleLength(index);
    footer := EncodeHandle(metaindex, []);
    footer := EncodeHandle(index, footer);
    var handles := footer;
    footer := footer + seq(2 * MAX_ENCODED_LENGTH - |footer|, _ => 0);
    footer := footer + Fixed32(MAGIC_LOW);
    footer := footer + Fixed32(MAGIC_HIGH);
    FixedIsFour(MAGIC_LOW);
    FixedIsFour(MAGIC_HIGH);
    assert handles == HandleBytes(metaindex) + HandleBytes(index);
    assert footer[0..|handles|] == handles;
    assert footer[FOOTER_LENGTH-8..] == Magic();
  }

  // Two handles stand at the beginning.
  ghost predicate ReadsHandles(footer: seq<Byte>, metaindex: BlockHandle, index: BlockHandle) {
    exists at, end :: ReadsHandle(footer, 0, metaindex, at) && ReadsHandle(footer, at, index, end)
  }

  // Expected, if anything: these handles.
  method DecodeFooter(footer: seq<Byte>, ghost m: BlockHandle, ghost i: BlockHandle)
    returns (ok: bool, metaindex: BlockHandle, index: BlockHandle)
    requires |footer| == FOOTER_LENGTH
    ensures IsFooter(footer, m, i) && Encodable(m) && Encodable(i) ==> ok && metaindex == m && index == i
    ensures if ok then footer[FOOTER_LENGTH-8..] == Magic() && ReadsHandles(footer, metaindex, index)
            else footer[FOOTER_LENGTH-8..] == Magic() ==> forall x, y :: !ReadsHandles(footer, x, y)
  {
    hide HandleBytes, Fixed32, FixedValue, IsAt, ReadsHandle;
    ReadsHandleOnce(footer, 0);
    metaindex, index := BlockHandle(0, 0), BlockHandle(0, 0);
    var low, high := FixedValue(footer[FOOTER_LENGTH-8..FOOTER_LENGTH-4]), FixedValue(footer[FOOTER_LENGTH-4..]);
    FixedIsFour(MAGIC_LOW);
    FixedIsFour(MAGIC_HIGH);
    FixedRoundTrip(MAGIC_LOW);
    FixedRoundTrip(MAGIC_HIGH);
    assert footer[FOOTER_LENGTH-8..] == footer[FOOTER_LENGTH-8..FOOTER_LENGTH-4] + footer[FOOTER_LENGTH-4..];
    if IsFooter(footer, m, i) {
      assert footer[FOOTER_LENGTH-8..FOOTER_LENGTH-4] == Magic()[..4] == Fixed32(MAGIC_LOW);
      assert footer[FOOTER_LENGTH-4..] == Magic()[4..] == Fixed32(MAGIC_HIGH);
      PartsAt(footer, 0, FOOTER_LENGTH - 8, HandleBytes(m), HandleBytes(i));
      WiderLimit(footer, 0, FOOTER_LENGTH - 8, HandleBytes(m));
      WiderLimit(footer, |HandleBytes(m)|, FOOTER_LENGTH - 8, HandleBytes(i));
    }
    if low != MAGIC_LOW || high != MAGIC_HIGH {
      return false, metaindex, index;
    }
    FixedBack(footer[FOOTER_LENGTH-8..FOOTER_LENGTH-4]);
    FixedBack(footer[FOOTER_LENGTH-4..]);
    var next;
    ok, metaindex, next := DecodeHandle(footer, 0, m);
    if ok {
      ok, index, next := DecodeHandle(footer, next, i);
    }
  }

  lemma WiderLimit(data: seq<Byte>, p: nat, limit: nat, code: seq<Byte>)
    requires IsAt(data, p, limit, code)
    ensures IsAt(data, p, |data|, code)
  {
  }

  // ---- Blocks with trailers

  // Contents, the type for no compression, and a masked checksum of both.
  function Framed(contents: seq<Byte>): (r: seq<Byte>)
    ensures |r| == |contents| + BLOCK_TRAILER_SIZE
  {
    contents + [0] + LogFormat.EncodeFixed32(Crc32c.Mask(Crc32c.Value(contents + [0])))
  }

  ghost predicate HasBlock(file: seq<Byte>, h: BlockHandle, contents: seq<Byte>) {
    h.size == |contents| && IsAt(file, h.offset, |file|, Framed(contents))
  }

  lemma AppendKeepsBlock(file: seq<Byte>, more: seq<Byte>, h: BlockHandle, contents: seq<Byte>)
    requires HasBlock(file, h, contents)
    ensures HasBlock(file + more, h, contents)
  {
    hide Framed;
    var end := h.offset + |Framed(contents)|;
    assert (file + more)[h.offset..end] == file[h.offset..end];
  }

  method WriteRawBlock(file: seq<Byte>, contents: seq<Byte>) returns (r: seq<Byte>, handle: BlockHandle)
    ensures r == file + Framed(contents)
    ensures handle == BlockHandle(|file|, |contents|) && HasBlock(r, handle, contents)
  {
    hide LogFormat.EncodeFixed32, Crc32c.Extend, Crc32c.Mask;
    handle := BlockHandle(|file|, |contents|);
    r := file + contents;
    var trailer: seq<Byte> := [0];
    var crc := Crc32c.Value(contents);
    crc := Crc32c.Extend(crc, trailer);
    Crc32c.ExtendBoth(0, contents, [0]);
    trailer := trailer + LogFormat.EncodeFixed32(Crc32c.Mask(crc));
    r := r + trailer;
    assert r == file + Framed(contents);
    assert r[|file|..|file|+|Framed(contents)|] == Framed(contents);
  }

  // Expected, if anything: `contents`. With checksums verified, nothing but a written block is read.
  method ReadBlock(file: seq<Byte>, handle: BlockHandle, verifyChecksums: bool, ghost contents: seq<Byte>)
    returns (ok: bool, data: seq<Byte>)
    ensures HasBlock(file, handle, contents) ==> ok && data == contents
    ensures ok ==>
              var end := handle.offset + handle.size;
              end + BLOCK_TRAILER_SIZE <= |file| && data == file[handle.offset..end] && file[end] == 0
    ensures ok && verifyChecksums ==> HasBlock(file, handle, data)
  {
    hide LogFormat.EncodeFixed32, LogFormat.DecodeFixed32, Crc32c.Extend, Crc32c.Mask, Crc32c.Unmask;
    var n, offset := handle.size, handle.offset;
    if HasBlock(file, handle, contents) {
      BlockParts(file, handle, contents);
    }
    if offset + n + BLOCK_TRAILER_SIZE > |file| {
      return false, [];
    }
    data := file[offset..offset+n];
    var trailer := file[offset+n..offset+n+BLOCK_TRAILER_SIZE];
    if verifyChecksums {
      var crc := Crc32c.Unmask(LogFormat.DecodeFixed32(trailer[1..]));
      var actual := Crc32c.Value(file[offset..offset+n+1]);
      if actual != crc {
        return false, [];
      }
      Crc32c.MaskingCancels(LogFormat.DecodeFixed32(trailer[1..]));
      EncodeBack(trailer[1..]);
      assert file[offset..offset+n+1] == data + [trailer[0]];
    }
    if trailer[0] != 0 {
      return false, [];
    }
    ok := true;
    assert file[offset..offset+n+BLOCK_TRAILER_SIZE] == data + [trailer[0]] + trailer[1..];
  }

  lemma EncodeBack(b: seq<Byte>)
    requires |b| == 4
    ensures LogFormat.EncodeFixed32(LogFormat.DecodeFixed32(b)) == b
  {
  }

  lemma BlockParts(file: seq<Byte>, h: BlockHandle, contents: seq<Byte>)
    requires HasBlock(file, h, contents)
    ensures var end := h.offset + h.size;
            && end + BLOCK_TRAILER_SIZE <= |file|
            && file[h.offset..end] == contents && file[h.offset..end+1] == contents + [0] && file[end] == 0
            && file[end+1..end+5] == LogFormat.EncodeFixed32(Crc32c.Mask(Crc32c.Value(contents + [0])))
            && Crc32c.Unmask(LogFormat.DecodeFixed32(file[end+1..end+5])) == Crc32c.Value(contents + [0])
  {
    var crc := Crc32c.Value(contents + [0]);
    assert |LogFormat.EncodeFixed32(Crc32c.Mask(crc))| == 4;
    hide LogFormat.EncodeFixed32, LogFormat.DecodeFixed32, Crc32c.Extend, Crc32c.Mask, Crc32c.Unmask;
    LogFormat.FixedRoundTrip(Crc32c.Mask(crc));
    Crc32c.MaskingCancels(crc);
    var end, all := h.offset + h.size, Framed(contents);
    assert file[h.offset..h.offset+|all|] == all;
    assert file[h.offset..end] == all[..h.size] && file[h.offset..end+1] == all[..h.size+1];
    assert all[..h.size+1] == contents + [0];
    assert file[end] == all[h.size];
    assert file[end+1..end+5] == all[h.size+1..];
  }
}
