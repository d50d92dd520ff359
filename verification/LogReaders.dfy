// The reader of a log.

module LogReaders {
  import opened Bytes
  import opened Crc32c
  import opened LogFormat

  datatype Report = Report(bytes: nat, reason: string)

  // What the parsed bytes of a header say.
  function LengthIn(buffer: seq<Byte>): nat
    requires |buffer| >= HEADER_SIZE
  {
    NumberOf(buffer[4]) + 256 * NumberOf(buffer[5])
  }

  predicate ChecksumMatches(buffer: seq<Byte>, length: nat)
    requires HEADER_SIZE + length <= |buffer|
  {
    Unmask(DecodeFixed32(buffer)) == Value(buffer[6..HEADER_SIZE+length])
  }

  // One of the two is a prefix of the other.
  ghost predicate Agree(a: seq<Byte>, b: seq<Byte>) {
    a <= b || b <= a
  }

  lemma LengthRoundTrip(n: nat)
    requires n < 0x1_0000
    ensures NumberOf(ByteOf(n % 256)) + 256 * NumberOf(ByteOf(n / 256)) == n
  {
    ByteRoundTrip(n % 256);
    ByteRoundTrip(n / 256);
    hide ByteOf, NumberOf;
  }

  // The header of a fragment parses back.
  lemma HeaderParses(buffer: seq<Byte>, t: nat, payload: seq<Byte>)
    requires t < 256 && |payload| < 0x1_0000
    requires |buffer| >= HEADER_SIZE && Agree(buffer, Physical(t, payload))
    ensures LengthIn(buffer) == |payload| && NumberOf(buffer[6]) == t
  {
    LengthRoundTrip(|payload|);
    ByteRoundTrip(t);
    hide ByteOf, NumberOf, EncodeFixed32, Mask, Checksum;
    var h := Header(t, payload);
    assert buffer[4] == h[4] && buffer[5] == h[5] && buffer[6] == h[6];
  }

  lemma ChecksumParses(buffer: seq<Byte>, t: nat, payload: seq<Byte>)
    requires t < 256 && |payload| < 0x1_0000
    requires Physical(t, payload) <= buffer
    ensures ChecksumMatches(buffer, |payload|) && buffer[HEADER_SIZE..HEADER_SIZE+|payload|] == payload
  {
    var code := EncodeFixed32(Mask(Checksum(t, payload)));
    MaskingCancels(Checksum(t, payload));
    FixedRoundTrip(Mask(Checksum(t, payload)));
    SamePrefix(buffer, code);
    hide ByteOf, EncodeFixed32, DecodeFixed32, Mask, Unmask, Value;
    var f := Physical(t, payload);
    assert f[..4] == code && buffer[..4] == f[..4];
    assert buffer[6..HEADER_SIZE+|payload|] == f[6..] == [ByteOf(t)] + payload;
    assert buffer[HEADER_SIZE..HEADER_SIZE+|payload|] == f[HEADER_SIZE..] == payload;
  }

  lemma SamePrefix(buffer: seq<Byte>, code: seq<Byte>)
    requires |buffer| >= 4 && |code| == 4
    ensures buffer[..4] == code ==> DecodeFixed32(buffer) == DecodeFixed32(code)
  {
    hide Mask;
    if buffer[..4] == code {
      assert buffer[0] == code[0] && buffer[1] == code[1] && buffer[2] == code[2] && buffer[3] == code[3];
    }
  }

  lemma StoredChecksum(buffer: seq<Byte>, payload: seq<Byte>)
    requires |buffer| >= HEADER_SIZE + |payload| && buffer[HEADER_SIZE..HEADER_SIZE+|payload|] == payload
    requires ChecksumMatches(buffer, |payload|)
    ensures NumberOf(buffer[6]) < 256 && EncodeFixed32(Mask(Checksum(NumberOf(buffer[6]), payload))) == buffer[..4]
  {
    NumberRoundTrip(buffer[6]);
    FixedIsFour(buffer);
    MaskingCancels(DecodeFixed32(buffer));
    hide ByteOf, NumberOf, EncodeFixed32, DecodeFixed32, Mask, Unmask, Value;
    assert buffer[6..HEADER_SIZE+|payload|] == [buffer[6]] + payload;
  }

  lemma HeaderBack(t: nat, payload: seq<Byte>, code: seq<Byte>, b4: Byte, b5: Byte, b6: Byte)
    requires t < 256 && t == NumberOf(b6) && |payload| == NumberOf(b4) + 256 * NumberOf(b5)
    requires code == EncodeFixed32(Mask(Checksum(t, payload)))
    ensures |payload| < 0x1_0000 && Header(t, payload) == code + [b4, b5, b6]
  {
    NumberRoundTrip(b4);
    NumberRoundTrip(b5);
    NumberRoundTrip(b6);
    hide ByteOf, NumberOf, EncodeFixed32, Mask, Checksum;
    assert |payload| % 256 == NumberOf(b4) && |payload| / 256 == NumberOf(b5);
  }

  lemma SplitHeader(buffer: seq<Byte>, n: nat)
    requires HEADER_SIZE + n <= |buffer|
    ensures buffer[..HEADER_SIZE+n] == buffer[..4] + [buffer[4], buffer[5], buffer[6]] + buffer[HEADER_SIZE..HEADER_SIZE+n]
  {
  }

  // Whatever parses is a fragment in the format.
  lemma ParsedIsPhysical(buffer: seq<Byte>)
    requires |buffer| >= HEADER_SIZE && HEADER_SIZE + LengthIn(buffer) <= |buffer|
    requires ChecksumMatches(buffer, LengthIn(buffer))
    ensures NumberOf(buffer[6]) < 256 && LengthIn(buffer) < 0x1_0000
    ensures Physical(NumberOf(buffer[6]), buffer[HEADER_SIZE..HEADER_SIZE+LengthIn(buffer)]) == buffer[..HEADER_SIZE+LengthIn(buffer)]
  {
    hide NumberOf, EncodeFixed32, Mask, ChecksumMatches, Checksum, Header;
    var n := LengthIn(buffer);
    var payload := buffer[HEADER_SIZE..HEADER_SIZE+n];
    StoredChecksum(buffer, payload);
    HeaderBack(NumberOf(buffer[6]), payload, buffer[..4], buffer[4], buffer[5], buffer[6]);
    SplitHeader(buffer, n);
  }

  lemma FixedIsFour(buffer: seq<Byte>)
    requires |buffer| >= 4
    ensures EncodeFixed32(DecodeFixed32(buffer)) == buffer[..4]
  {
    var b := buffer[..4];
    assert b == [buffer[0], buffer[1], buffer[2], buffer[3]];
    FourBytesBack(buffer[0], buffer[1], buffer[2], buffer[3]);
    hide EncodeFixed32, DecodeFixed32;
    SamePrefix(buffer, b);
  }

  lemma FourBytesBack(a: Byte, b: Byte, c: Byte, d: Byte)
    ensures EncodeFixed32(DecodeFixed32([a, b, c, d])) == [a, b, c, d]
  {
  }

  lemma ExpectedParses(buffer: seq<Byte>, t: nat, payload: seq<Byte>)
    requires |buffer| >= HEADER_SIZE && t < 256 && |payload| < 0x1_0000
    ensures Agree(buffer, Physical(t, payload)) ==>
              && LengthIn(buffer) == |payload| && NumberOf(buffer[6]) == t
              && (HEADER_SIZE + |payload| <= |buffer| ==>
                    ChecksumMatches(buffer, |payload|) && buffer[HEADER_SIZE..HEADER_SIZE+|payload|] == payload)
  {
    hide Physical, LengthIn, NumberOf, ChecksumMatches;
    if Agree(buffer, Physical(t, payload)) {
      HeaderParses(buffer, t, payload);
      if HEADER_SIZE + |payload| <= |buffer| {
        ChecksumParses(buffer, t, payload);
      }
    }
  }

  // ---- What a file holds, damaged or not

  // A fragment, checksum and all, and where it is.
  datatype Piece = Piece(at: nat, t: nat, payload: seq<Byte>)

  function PieceEnd(x: Piece): nat {
    x.at + HEADER_SIZE + |x.payload|
  }

  ghost predicate HoldsPiece(file: seq<Byte>, x: Piece) {
    && x.t < 256 && |x.payload| < 0x1_0000 && PieceEnd(x) <= |file|
    && file[x.at..PieceEnd(x)] == Physical(x.t, x.payload)
  }

  // One after the other, with nothing between them but the fillings of blocks.
  ghost predicate InARow(pieces: seq<Piece>) {
    forall i | 0 < i < |pieces| :: pieces[i].at == PieceEnd(pieces[i-1]) + Trailer(PieceEnd(pieces[i-1]))
  }

  // The beginning of a record: a first fragment, then middle ones.
  ghost predicate IsOpen(file: seq<Byte>, pieces: seq<Piece>) {
    && pieces != [] && InARow(pieces)
    && forall i | 0 <= i < |pieces| :: HoldsPiece(file, pieces[i]) && pieces[i].t == if i == 0 then FIRST_TYPE else MIDDLE_TYPE
  }

  // A whole record: one full fragment, or a beginning and a last fragment.
  ghost predicate IsWhole(file: seq<Byte>, pieces: seq<Piece>) {
    && pieces != [] && InARow(pieces)
    && var n := |pieces| - 1;
    && HoldsPiece(file, pieces[n])
    && if n == 0 then pieces[0].t == FULL_TYPE else pieces[n].t == LAST_TYPE && IsOpen(file, pieces[..n])
  }

  function Payloads(pieces: seq<Piece>): seq<Byte> {
    if pieces == [] then [] else Payloads(pieces[..|pieces|-1]) + pieces[|pieces|-1].payload
  }

  // The record was put together from these fragments, which begin at `begin` or later and end at `end`.
  ghost predicate IsMadeOf(file: seq<Byte>, record: seq<Byte>, pieces: seq<Piece>, begin: nat, end: nat) {
    IsWhole(file, pieces) && record == Payloads(pieces) && begin <= pieces[0].at && PieceEnd(pieces[|pieces|-1]) == end
  }

  // What was assembled so far is the beginning of a record up to `end`.
  ghost predicate IsBegun(file: seq<Byte>, scratch: seq<Byte>, pieces: seq<Piece>, begin: nat, end: nat) {
    IsOpen(file, pieces) && scratch == Payloads(pieces) && begin <= pieces[0].at && PieceEnd(pieces[|pieces|-1]) == end
  }

  // With a fragment of this type, the record is begun anew, goes on or is whole.
  lemma PieceAccepted(file: seq<Byte>, scratch: seq<Byte>, pieces: seq<Piece>, begun: bool, begin: nat, p: nat, x: Piece)
    requires HoldsPiece(file, x) && begin <= p && x.at == p + Trailer(p)
    requires begun ==> IsBegun(file, scratch, pieces, begin, p)
    ensures x.t == FULL_TYPE ==> IsMadeOf(file, x.payload, [x], begin, PieceEnd(x))
    ensures x.t == FIRST_TYPE ==> IsBegun(file, x.payload, [x], begin, PieceEnd(x))
    ensures begun && x.t == MIDDLE_TYPE ==> IsBegun(file, scratch + x.payload, pieces + [x], begin, PieceEnd(x))
    ensures begun && x.t == LAST_TYPE ==> IsMadeOf(file, scratch + x.payload, pieces + [x], begin, PieceEnd(x))
  {
    hide HoldsPiece, Trailer;
    assert Payloads([x]) == x.payload by {
      assert [x][..0] == [] && [] + x.payload == x.payload;
    }
    if begun {
      assert (pieces + [x])[..|pieces|] == pieces;
    }
  }

  // ---- The reader

  class Reader {
    const file: seq<Byte>
    var pos: nat              // bytes read from the file
    var buffer: seq<Byte>     // the unparsed end of what was read
    var eof: bool             // the last read came short of a block
    var reports: seq<Report>

    ghost predicate Valid()
      reads `pos, `buffer, `eof
    {
      && |buffer| <= pos <= |file| && buffer == file[pos-|buffer|..pos]
      && if eof then pos == |file| && |buffer| <= Offset(|file|)
         else Offset(pos) == 0 && |buffer| <= BLOCK_SIZE
    }

    // The position of the next unparsed byte.
    ghost function Position(): nat
      requires Valid()
      reads `pos, `buffer, `eof
    {
      pos - |buffer|
    }

    ghost function Unread(): seq<Byte>
      requires Valid()
      reads `pos, `buffer, `eof
    {
      file[Position()..]
    }

    lemma BufferIs()
      requires Valid()
      ensures |buffer| <= pos <= |file| && Position() == pos - |buffer| && buffer == file[Position()..pos]
    {
    }

    lemma UnreadIs()
      requires Valid()
      ensures Position() <= |file| && Unread() == file[Position()..]
    {
    }

    constructor (file: seq<Byte>)
      ensures Valid() && this.file == file && Position() == 0 && reports == []
    {
      this.file := file;
      pos, buffer, eof, reports := 0, [], false, [];
    }

    method ReportDrop(bytes: nat, reason: string)
      modifies this`reports
      ensures reports == old(reports) + [Report(bytes, reason)]
    {
      reports := reports + [Report(bytes, reason)];
    }

    method ReadBlock()
      requires Valid() && !eof
      modifies this`pos, this`buffer, this`eof
      ensures Valid() && Position() == old(pos) && old(pos) <= pos && (eof || old(pos) < pos)
    {
      hide Offset;
      var n := if |file| - pos < BLOCK_SIZE then |file| - pos else BLOCK_SIZE;
      NextBlock(pos, n);
      buffer := file[pos..pos+n];
      pos := pos + n;
      if n < BLOCK_SIZE {
        eof := true;
      }
    }

    // Reads on to where a header fits into the buffer; false at the end of the file.
    method FillBuffer() returns (more: bool)
      requires Valid()
      modifies this`pos, this`buffer, this`eof
      ensures Valid() && old(Position()) <= Position()
      ensures more ==> HEADER_SIZE <= |buffer| && Position() == old(Position()) + Trailer(old(Position()))
      ensures !more ==> Position() == |file| && |file| - old(Position()) < Trailer(old(Position())) + HEADER_SIZE
    {
      ghost var p := Position();
      hide Trailer, Offset;
      while |buffer| < HEADER_SIZE
        invariant Valid()
        invariant Position() == p || (Position() == p + Trailer(p) && Offset(Position()) == 0)
        decreases |file| - pos, !eof
      {
        if eof {
          buffer := [];
          return false;
        }
        if Position() == p {
          TrailerBeforeBlock(p, pos);
        } else {
          SameBlock(Position(), pos);
        }
        ReadBlock();
      }
      if Position() == p {
        NoTrailerInside(p, pos, eof);
      }
      return true;
    }

    method DropBuffer() returns (dropSize: nat)
      requires Valid() && 0 < |buffer|
      modifies this`buffer
      ensures Valid() && old(Position()) < Position() && buffer == [] && dropSize == old(|buffer|)
    {
      dropSize := |buffer|;
      buffer := [];
    }

    method TakeFragment(length: nat) returns (fragment: seq<Byte>)
      requires Valid() && HEADER_SIZE + length <= |buffer|
      requires length == LengthIn(buffer) && ChecksumMatches(buffer, length)
      modifies this`buffer
      ensures Valid() && Position() == old(Position()) + HEADER_SIZE + |fragment|
      ensures fragment == old(buffer)[HEADER_SIZE..HEADER_SIZE+length]
      ensures IsFragment(old(Position()), NumberOf(old(buffer)[6]), fragment)
    {
      hide Physical, LengthIn, NumberOf, ChecksumMatches, Offset;
      ParsedIsPhysical(buffer);
      ghost var p, n := Position(), HEADER_SIZE + length;
      SlicePrefix(file, p, pos, n);
      fragment := buffer[HEADER_SIZE..HEADER_SIZE+length];
      buffer := buffer[HEADER_SIZE+length..];
    }

    // Parses a fragment at the front of the buffer. Expected, if anything: a fragment of type
    // `t0` with contents `payload` that fits into its block.
    method ParseRecord(ghost t0: nat, ghost payload: seq<Byte>) returns (t: nat, fragment: seq<Byte>, ghost parsed: bool)
      requires Valid() && HEADER_SIZE <= |buffer|
      requires 0 < t0 <= LAST_TYPE && Offset(Position()) + HEADER_SIZE + |payload| <= BLOCK_SIZE
      modifies this
      ensures Valid() && old(Position()) < Position()
      ensures if parsed then IsFragment(old(Position()), t, fragment) && Position() == old(Position()) + HEADER_SIZE + |fragment|
              else t == END_OF_FILE || t == BAD_RECORD
      ensures var length := old(LengthIn(buffer));
              var fits, blank := HEADER_SIZE + length <= old(|buffer|), old(NumberOf(buffer[6])) == 0 && length == 0;
              && (parsed <==> fits && !blank && old(ChecksumMatches(buffer, length)))
              && (!parsed ==> buffer == [] && (t == BAD_RECORD <==> fits || !eof))
              && (if parsed || (if fits then blank else eof) then reports == old(reports)
                  else |reports| == old(|reports|) + 1 && reports[..old(|reports|)] == old(reports) && reports[old(|reports|)].bytes == old(|buffer|))
      ensures old(Agree(buffer, Physical(t0, payload))) ==>
                && reports == old(reports)
                && if HEADER_SIZE + |payload| <= |file| - old(Position()) then parsed && t == t0 && fragment == payload
                   else t == END_OF_FILE
    {
      hide Physical, LengthIn, NumberOf, ChecksumMatches, Agree, IsFragment;
      ExpectedParses(buffer, t0, payload);
      if !eof {
        RestOfBlock(Position(), pos);
      }
      hide Offset;
      var length := LengthIn(buffer);
      t, fragment, parsed := NumberOf(buffer[6]), [], false;
      if HEADER_SIZE + length > |buffer| {
        var dropSize := DropBuffer();
        t := END_OF_FILE;
        if !eof {
          ReportDrop(dropSize, "bad record length");
          t := BAD_RECORD;
        }
      } else if t == ZERO_TYPE && length == 0 {
        var _ := DropBuffer();
        t := BAD_RECORD;
      } else if !ChecksumMatches(buffer, length) {
        var dropSize := DropBuffer();
        ReportDrop(dropSize, "checksum mismatch");
        t := BAD_RECORD;
      } else {
        fragment := TakeFragment(length);
        parsed := true;
      }
    }

    // The next fragment. Expected, if anything: what the writer put here for `data`, torn or whole.
    method ReadPhysicalRecord(ghost data: seq<Byte>, ghost begin: bool) returns (t: nat, fragment: seq<Byte>, ghost parsed: bool)
      requires Valid()
      modifies this
      ensures Valid() && old(Position()) <= Position() && (t != END_OF_FILE ==> old(Position()) < Position())
      ensures if parsed then
                var q := old(Position()) + Trailer(old(Position()));
                IsFragment(q, t, fragment) && Position() == q + HEADER_SIZE + |fragment|
              else t == END_OF_FILE || t == BAD_RECORD
      ensures old(Agree(Unread(), Chunk(Position(), data, begin))) ==>
                reports == old(reports) && IsNext(|file|, old(Position()), data, begin, t, fragment, parsed, Position())
    {
      hide Physical, Offset, IsFragment, Trailer, Zeros, Avail, Agree, Chunk, IsNext, Min, TypeOf, Valid, Position, Unread;
      UnreadIs();
      ghost var p, n := Position(), Min(|data|, Avail(Position()));
      RoomForFragment(p, data, begin);
      ghost var t0, payload := TypeOf(begin, n == |data|), data[..n];
      NextIs(|file|, p, data, begin);
      var more := FillBuffer();
      BufferIs();
      if !more {
        return END_OF_FILE, [], false;
      }
      AgreeAfter(file, p, Zeros(Trailer(p)), Physical(t0, payload), pos);
      t, fragment, parsed := ParseRecord(t0, payload);
    }

    // Adds a fragment to the record being assembled. Only a full fragment, or a last one after a
    // first one, makes it whole.
    method Accept(t: nat, fragment: seq<Byte>, scratch: seq<Byte>, inFragmentedRecord: bool)
      returns (done: bool, record: seq<Byte>, scratch': seq<Byte>, inFragmentedRecord': bool)
      modifies this`reports
      ensures done <==> t == FULL_TYPE || (t == LAST_TYPE && inFragmentedRecord)
      ensures done ==> record == if t == FULL_TYPE then fragment else scratch + fragment
      ensures !done ==> inFragmentedRecord' == (t == FIRST_TYPE || (t == MIDDLE_TYPE && inFragmentedRecord))
      ensures !done && inFragmentedRecord' ==> scratch' == if t == FIRST_TYPE then fragment else scratch + fragment
      ensures !done && !inFragmentedRecord' ==> scratch' == [] || (scratch' == scratch && !inFragmentedRecord)
      ensures (t == FULL_TYPE || t == FIRST_TYPE) && !inFragmentedRecord ==> reports == old(reports)
      ensures (t == MIDDLE_TYPE || t == LAST_TYPE) && inFragmentedRecord ==> reports == old(reports)
      ensures t != BAD_RECORD && !done && !inFragmentedRecord' ==> exists r :: reports == old(reports) + [r] && r.bytes >= |fragment|
    {
      done, record, scratch', inFragmentedRecord' := false, [], scratch, inFragmentedRecord;
      if t == FULL_TYPE {
        if inFragmentedRecord && scratch != [] {
          ReportDrop(|scratch|, "partial record without end(1)");
        }
        done, record := true, fragment;
      } else if t == FIRST_TYPE {
        if inFragmentedRecord && scratch != [] {
          ReportDrop(|scratch|, "partial record without end(2)");
        }
        scratch', inFragmentedRecord' := fragment, true;
      } else if t == MIDDLE_TYPE {
        if !inFragmentedRecord {
          ReportDrop(|fragment|, "missing start of fragmented record(1)");
        } else {
          scratch' := scratch + fragment;
        }
      } else if t == LAST_TYPE {
        if !inFragmentedRecord {
          ReportDrop(|fragment|, "missing start of fragmented record(2)");
        } else {
          done, record := true, scratch + fragment;
        }
      } else if t == BAD_RECORD {
        if inFragmentedRecord {
          ReportDrop(|scratch|, "error in middle of record");
          scratch', inFragmentedRecord' := [], false;
        }
      } else {
        ReportDrop(|fragment| + if inFragmentedRecord then |scratch| else 0, "unknown record type");
        scratch', inFragmentedRecord' := [], false;
      }
    }

    // The next whole record, made of fragments with matching checksums whatever the file holds.
    // Expected, if anything: the records `rs`, torn or whole.
    method ReadRecord(ghost rs: seq<seq<Byte>>) returns (ok: bool, record: seq<Byte>)
      requires Valid()
      modifies this
      ensures Valid() && old(Position()) <= Position() && (ok ==> old(Position()) < Position())
      ensures ok ==> exists pieces :: IsMadeOf(file, record, pieces, old(Position()), Position())
      ensures old(Unread() <= WrittenAll(Position(), rs)) ==>
                && reports == old(reports)
                && (ok <==> rs != [] && EndOf(old(Position()), rs[0]) <= |file|)
                && (ok ==> record == rs[0] && Position() == EndOf(old(Position()), rs[0]) && Unread() <= WrittenAll(Position(), rs[1..]))
    {
      hide Chunk, Written, WrittenAll, IsNext, HoldsPiece, IsBegun, IsMadeOf, Assembling, EndOf, Agree, Offset, Trailer, Valid, Position, Unread;
      ghost var expected := Unread() <= WrittenAll(Position(), rs);
      ghost var first := if rs == [] then [] else rs[0];
      ghost var end := EndOf(Position(), first);
      ghost var tail := if rs == [] then [] else WrittenAll(end, rs[1..]);
      ghost var data, before := first, reports;
      UnreadIs();
      ExpectRecords(Position(), Unread(), rs);
      var scratch, inFragmentedRecord := [], false;
      ghost var begin, pieces: seq<Piece> := Position(), [];
      while true
        invariant Valid() && begin <= Position()
        invariant inFragmentedRecord ==> IsBegun(file, scratch, pieces, begin, Position())
        invariant Position() <= |file| && Unread() == file[Position()..]
        invariant expected ==> reports == before && Assembling(Position(), Unread(), scratch, inFragmentedRecord, data, first, end, tail)
        decreases |file| - Position()
      {
        ghost var p, unread := Position(), Unread();
        ExpectFragment(p, unread, scratch, inFragmentedRecord, data, first, end, tail);
        var t, fragment;
        ghost var parsed;
        t, fragment, parsed := ReadPhysicalRecord(data, !inFragmentedRecord);
        UnreadIs();
        if expected {
          AfterFragment(|file|, p, unread, scratch, inFragmentedRecord, data, first, end, tail, t, fragment, parsed, Position());
          assert unread[Position()-p..] == Unread();
        }
        if t == END_OF_FILE {
          return false, [];
        }
        ghost var x := Piece(p + Trailer(p), t, fragment);
        if parsed {
          PieceAccepted(file, scratch, pieces, inFragmentedRecord, begin, p, x);
          pieces := if inFragmentedRecord && t != FULL_TYPE && t != FIRST_TYPE then pieces + [x] else [x];
        }
        var done;
        done, record, scratch, inFragmentedRecord := Accept(t, fragment, scratch, inFragmentedRecord);
        if done {
          return true, record;
        }
        data := if |fragment| <= |data| then data[|fragment|..] else [];
      }
    }

    // The file holds the fragment at position `p`, checksum and all.
    ghost predicate IsFragment(p: nat, t: nat, fragment: seq<Byte>) {
      HoldsPiece(file, Piece(p, t, fragment))
    }
  }

  // What a read must return where the writer put the next fragment of `data`.
  ghost predicate IsNext(size: nat, p: nat, data: seq<Byte>, begin: bool, t: nat, fragment: seq<Byte>, parsed: bool, next: nat) {
    var n, chunk := Min(|data|, Avail(p)), Chunk(p, data, begin);
    if p + |chunk| <= size then parsed && t == TypeOf(begin, n == |data|) && fragment == data[..n] && next == p + |chunk|
    else t == END_OF_FILE
  }

  lemma NextIs(size: nat, p: nat, data: seq<Byte>, begin: bool)
    ensures var n, length := Min(|data|, Avail(p)), Trailer(p) + HEADER_SIZE + Min(|data|, Avail(p));
            && n <= |data|
            && (p + length <= size ==> IsNext(size, p, data, begin, TypeOf(begin, n == |data|), data[..n], true, p + length))
            && (size < p + length ==> forall fragment, parsed, next :: IsNext(size, p, data, begin, END_OF_FILE, fragment, parsed, next))
  {
    WrittenUnfolds(p, data, begin);
    hide Physical, Trailer, Avail;
  }

  function EndOf(p: nat, record: seq<Byte>): nat {
    p + |Written(p, record, true)|
  }

  // `scratch` is the start of record `first`, which ends at `end`; what is unread is part of
  // its rest, `data`, and of what follows.
  ghost predicate Assembling(p: nat, unread: seq<Byte>, scratch: seq<Byte>, inFragmented: bool,
                             data: seq<Byte>, first: seq<Byte>, end: nat, tail: seq<Byte>) {
    var rest := Written(p, data, !inFragmented);
    && unread <= rest + tail && p + |rest| == end
    && scratch + data == first && (!inFragmented ==> scratch == [])
  }

  lemma ExpectRecords(p: nat, unread: seq<Byte>, rs: seq<seq<Byte>>)
    ensures var first := if rs == [] then [] else rs[0];
            var end := EndOf(p, first);
            unread <= WrittenAll(p, rs) ==>
              && Assembling(p, unread, [], false, first, first, end, if rs == [] then [] else WrittenAll(end, rs[1..]))
              && (rs == [] ==> p + |unread| < end)
  {
    WrittenUnfolds(p, [], true);
    hide Written;
    var first := if rs == [] then [] else rs[0];
    assert [] + first == first;
  }

  lemma ExpectFragment(p: nat, unread: seq<Byte>, scratch: seq<Byte>, inFragmented: bool,
                       data: seq<Byte>, first: seq<Byte>, end: nat, tail: seq<Byte>)
    ensures Assembling(p, unread, scratch, inFragmented, data, first, end, tail) ==> Agree(unread, Chunk(p, data, !inFragmented))
  {
    WrittenUnfolds(p, data, !inFragmented);
    hide Chunk, Written;
    var all := Written(p, data, !inFragmented) + tail;
    assert all[..|Chunk(p, data, !inFragmented)|] == Chunk(p, data, !inFragmented);
  }

  // One fragment further: the record is complete, or the rest of it is expected.
  lemma AfterFragment(size: nat, p: nat, unread: seq<Byte>, scratch: seq<Byte>, inFragmented: bool,
                      data: seq<Byte>, first: seq<Byte>, end: nat, tail: seq<Byte>,
                      t: nat, fragment: seq<Byte>, parsed: bool, next: nat)
    requires Assembling(p, unread, scratch, inFragmented, data, first, end, tail) && p + |unread| == size
    requires IsNext(size, p, data, !inFragmented, t, fragment, parsed, next)
    ensures t == FULL_TYPE || t == FIRST_TYPE || t == MIDDLE_TYPE || t == LAST_TYPE || t == END_OF_FILE
    ensures t == END_OF_FILE ==> size < end
    ensures t != END_OF_FILE ==> p < next <= size && |fragment| <= |data|
    ensures t == FULL_TYPE || t == LAST_TYPE ==>
              && next == end && end <= size && unread[next-p..] <= tail
              && inFragmented == (t == LAST_TYPE) && first == if inFragmented then scratch + fragment else fragment
    ensures t == FIRST_TYPE || t == MIDDLE_TYPE ==>
              && inFragmented == (t == MIDDLE_TYPE)
              && Assembling(next, unread[next-p..], if inFragmented then scratch + fragment else fragment, true,
                            data[|fragment|..], first, end, tail)
  {
    WrittenUnfolds(p, data, !inFragmented);
    hide Chunk, Written, Avail, Trailer;
    var n, chunk := Min(|data|, Avail(p)), Chunk(p, data, !inFragmented);
    if p + |chunk| <= size {
      var rest := if n == |data| then [] else Written(p + |chunk|, data[n..], false);
      assert Written(p, data, !inFragmented) == chunk + rest;
      PrefixAdvances(unread, chunk, rest, tail);
      ScratchGrows(scratch, data, n);
      assert [] + tail == tail;
    }
  }

  lemma PrefixAdvances(unread: seq<Byte>, chunk: seq<Byte>, rest: seq<Byte>, tail: seq<Byte>)
    requires unread <= chunk + rest + tail && |chunk| <= |unread|
    ensures unread[|chunk|..] <= rest + tail
  {
    assert (chunk + rest + tail)[|chunk|..] == rest + tail;
  }

  lemma ScratchGrows(scratch: seq<Byte>, data: seq<Byte>, n: nat)
    requires n <= |data|
    ensures scratch + data == (scratch + data[..n]) + data[n..]
    ensures scratch == [] ==> scratch + data[..n] == data[..n]
    ensures n == |data| ==> data[..n] == data && data[n..] == [] && scratch + data[..n] == scratch + data
  {
  }

  lemma RoomForFragment(p: nat, data: seq<Byte>, begin: bool)
    ensures var n := Min(|data|, Avail(p));
            && n <= |data| && Offset(p + Trailer(p)) + HEADER_SIZE + n <= BLOCK_SIZE
            && 0 < TypeOf(begin, n == |data|) <= LAST_TYPE
            && Chunk(p, data, begin) == Zeros(Trailer(p)) + Physical(TypeOf(begin, n == |data|), data[..n])
  {
    hide Physical;
  }

  // Past a trailer that the file has in full, the file still agrees with what was expected.
  lemma AgreeAfter(file: seq<Byte>, p: nat, z: seq<Byte>, f: seq<Byte>, next: nat)
    requires p + |z| <= next <= |file|
    ensures Agree(file[p..], z + f) ==> Agree(file[p+|z|..next], f)
  {
    if Agree(file[p..], z + f) {
      assert forall i | 0 <= i < |z + f| && i < |file| - p :: file[p..][i] == (z + f)[i];
      assert forall i | 0 <= i < |f| && i < next - p - |z| :: file[p+|z|..next][i] == file[p..][|z|+i] == (z + f)[|z|+i] == f[i];
    }
  }

  lemma SlicePrefix(file: seq<Byte>, p: nat, next: nat, n: nat)
    requires p + n <= next <= |file|
    ensures file[p..next][..n] == file[p..p+n] && file[p..next][n..] == file[p+n..next]
  {
  }

  lemma RestOfBlock(p: nat, next: nat)
    requires p < next <= p + BLOCK_SIZE && Offset(next) == 0
    ensures next - p == BLOCK_SIZE - Offset(p)
  {
  }

  lemma TrailerBeforeBlock(p: nat, next: nat)
    requires p <= next <= p + BLOCK_SIZE && Offset(next) == 0
    ensures Trailer(p) == if next - p < HEADER_SIZE then next - p else 0
  {
  }

  lemma SameBlock(p: nat, q: nat)
    requires p <= q < p + BLOCK_SIZE && Offset(p) == 0 == Offset(q)
    ensures p == q
  {
  }

  lemma NextBlock(p: nat, n: nat)
    requires Offset(p) == 0 && n <= BLOCK_SIZE
    ensures Offset(p + n) == if n == BLOCK_SIZE then 0 else n
  {
  }

  lemma NoTrailerInside(p: nat, next: nat, eof: bool)
    requires HEADER_SIZE <= next - p
    requires if eof then next - p <= Offset(next) else next - p <= BLOCK_SIZE && Offset(next) == 0
    ensures Trailer(p) == 0
  {
  }

  // ---- Reading a whole log

  // How many of `rs`, written from position `p` on, are whole in a file of `size` bytes.
  function Whole(p: nat, rs: seq<seq<Byte>>, size: nat): (k: nat)
    ensures k <= |rs|
    decreases |rs|
  {
    if rs == [] || size < EndOf(p, rs[0]) then 0 else 1 + Whole(EndOf(p, rs[0]), rs[1..], size)
  }

  // Every prefix of the records that was written out in full is whole, and no longer one is.
  lemma {:induction false} WholeIsWrittenOut(p: nat, rs: seq<seq<Byte>>, size: nat, k: nat)
    requires k <= |rs| && p <= size
    ensures k <= Whole(p, rs, size) <==> p + |WrittenAll(p, rs[..k])| <= size
    decreases |rs|
  {
    hide Written;
    if k != 0 {
      var end := EndOf(p, rs[0]);
      assert rs[..k][0] == rs[0] && rs[..k][1..] == rs[1..][..k-1];
      assert WrittenAll(p, rs[..k]) == Written(p, rs[0], true) + WrittenAll(end, rs[1..][..k-1]);
      if end <= size {
        WholeIsWrittenOut(end, rs[1..], size, k - 1);
      }
    }
  }

  // The records found in a file: each is made of fragments with matching checksums, in their order.
  ghost predicate AreFound(file: seq<Byte>, records: seq<seq<Byte>>, begin: nat, end: nat) {
    if records == [] then begin <= end
    else
      var n := |records| - 1;
      exists from: nat, pieces, to: nat :: AreFound(file, records[..n], begin, from) && IsMadeOf(file, records[n], pieces, from, to) && to <= end
  }

  lemma OneMoreFound(file: seq<Byte>, records: seq<seq<Byte>>, record: seq<Byte>, begin: nat, from: nat, to: nat)
    requires AreFound(file, records, begin, from) && exists pieces :: IsMadeOf(file, record, pieces, from, to)
    ensures AreFound(file, records + [record], begin, to)
  {
    hide IsMadeOf;
    var all := records + [record];
    assert all[..|records|] == records && all[|records|] == record;
    var pieces :| IsMadeOf(file, record, pieces, from, to);
    assert AreFound(file, all[..|records|], begin, from) && IsMadeOf(file, all[|records|], pieces, from, to);
  }

  // Reads until the end. Whatever prefix of a written log the file holds, the records that
  // are whole in it come back, in order, and nothing is reported as corrupt.
  method ReadLog(file: seq<Byte>, ghost rs: seq<seq<Byte>>) returns (records: seq<seq<Byte>>, reports: seq<Report>)
    ensures AreFound(file, records, 0, |file|)
    ensures file <= WrittenAll(0, rs) ==> records == rs[..Whole(0, rs, |file|)] && reports == []
  {
    hide AreFound, IsMadeOf, WrittenAll, Whole, Reader.Valid, Reader.Position, Reader.Unread;
    var reader := new Reader(file);
    reader.UnreadIs();
    assert file[0..] == file;
    ghost var expected, left := file <= WrittenAll(0, rs), rs;
    records := [];
    NothingFound(file);
    assert rs[..Whole(0, rs, |file|)] == records + left[..Whole(0, left, |file|)];
    while true
      invariant reader.Valid() && reader.file == file && AreFound(file, records, 0, reader.Position())
      invariant expected ==>
                  && reader.reports == [] && reader.Unread() <= WrittenAll(reader.Position(), left)
                  && rs[..Whole(0, rs, |file|)] == records + left[..Whole(reader.Position(), left, |file|)]
      decreases |file| - reader.Position()
    {
      ghost var p := reader.Position();
      reader.UnreadIs();
      WholeStep(p, left, |file|);
      var ok, record := reader.ReadRecord(left);
      reader.UnreadIs();
      if !ok {
        FoundEarlier(file, records, 0, p);
        return records, reader.reports;
      }
      OneMoreFound(file, records, record, 0, p, reader.Position());
      records := records + [record];
      left := if left == [] then [] else left[1..];
    }
  }

  lemma NothingFound(file: seq<Byte>)
    ensures AreFound(file, [], 0, 0)
  {
  }

  lemma FoundEarlier(file: seq<Byte>, records: seq<seq<Byte>>, begin: nat, end: nat)
    requires AreFound(file, records, begin, end) && end <= |file|
    ensures AreFound(file, records, begin, |file|)
  {
    hide IsMadeOf;
  }

  lemma WholeStep(p: nat, rs: seq<seq<Byte>>, size: nat)
    ensures if rs == [] || size < EndOf(p, rs[0]) then rs[..Whole(p, rs, size)] == []
            else rs[..Whole(p, rs, size)] == [rs[0]] + rs[1..][..Whole(EndOf(p, rs[0]), rs[1..], size)]
  {
    hide EndOf;
  }

  // What a writer puts after earlier records, also one opened anew at the end of the file, is
  // what one writer would have put there.
  lemma ResumedLogIsOneLog(first: seq<seq<Byte>>, more: seq<seq<Byte>>)
    ensures WrittenAll(0, first + more) == WrittenAll(0, first) + WrittenAll(|WrittenAll(0, first)|, more)
  {
    hide WrittenAll;
    WrittenAllBoth(0, first, more);
  }

  // Writes `first` with one writer and `more` with another that resumes at the end, then reads
  // all of it back.
  method WriteAndRead(first: seq<seq<Byte>>, more: seq<seq<Byte>>) returns (records: seq<seq<Byte>>, reports: seq<Report>)
    ensures records == first + more && reports == []
  {
    hide WrittenAll, Whole, Writer.Valid;
    var bytes := WriteLog([], first);
    bytes := WriteLog(bytes, more);
    ResumedLogIsOneLog(first, more);
    EmptyLog();
    var all := first + more;
    WholeIsWrittenOut(0, all, |bytes|, |all|);
    assert all[..|all|] == all;
    records, reports := ReadLog(bytes, all);
  }

  lemma EmptyLog()
    ensures forall w: seq<Byte> :: [] + w == w
  {
  }

  method WriteLog(contents: seq<Byte>, records: seq<seq<Byte>>) returns (bytes: seq<Byte>)
    ensures bytes == contents + WrittenAll(|contents|, records)
  {
    hide Written, WrittenAll, Writer.Valid;
    var writer := new Writer(contents);
    NothingWritten(|contents|);
    for i := 0 to |records|
      invariant writer.Valid() && writer.dest == contents + WrittenAll(|contents|, records[..i])
    {
      WrittenMore(|contents|, records, i);
      writer.AddRecord(records[i]);
    }
    assert records[..|records|] == records;
    bytes := writer.dest;
  }

  lemma NothingWritten(p: nat)
    ensures WrittenAll(p, []) == []
  {
  }

  lemma WrittenMore(p: nat, records: seq<seq<Byte>>, i: nat)
    requires i < |records|
    ensures WrittenAll(p, records[..i+1]) == WrittenAll(p, records[..i]) + Written(p + |WrittenAll(p, records[..i])|, records[i], true)
  {
    hide Written, WrittenAll;
    assert records[..i+1] == records[..i] + [records[i]];
    WrittenAllBoth(p, records[..i], [records[i]]);
    WrittenOne(p + |WrittenAll(p, records[..i])|, records[i]);
  }
}
