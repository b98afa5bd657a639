/** The write-ahead log on disk (db/log_format.h): what a writer appends for a record, what a reader
    makes of any file, and what the two have to do with each other. */
module LogFormat {
  import opened Coding
  import opened Sequences
  import Crc32c

  const BLOCK_SIZE: nat := 32768
  const HEADER_SIZE: nat := 7

  /** The remainder of pos by the block size; written as repeated subtraction, which proofs can follow. */
  function BlockOffset(pos: nat): (o: nat)
    ensures o < BLOCK_SIZE && o <= pos
  {
    if pos < BLOCK_SIZE then pos else BlockOffset(pos - BLOCK_SIZE)
  }

  lemma {:induction false} BlockOffsetIsRemainder(pos: nat)
    ensures BlockOffset(pos) == pos % BLOCK_SIZE
  {
    if pos >= BLOCK_SIZE { BlockOffsetIsRemainder(pos - BLOCK_SIZE); }
  }

  lemma {:induction false} Advance(pos: nat, n: nat)
    requires BlockOffset(pos) + n <= BLOCK_SIZE
    ensures BlockOffset(pos + n) == if BlockOffset(pos) + n == BLOCK_SIZE then 0 else BlockOffset(pos) + n
  {
    if pos >= BLOCK_SIZE { Advance(pos - BLOCK_SIZE, n); }
  }

  const ZERO_TYPE: nat := 0
  const FULL_TYPE: nat := 1
  const FIRST_TYPE: nat := 2
  const MIDDLE_TYPE: nat := 3
  const LAST_TYPE: nat := 4
  // What ReadPhysicalRecord returns besides the types in the file.
  const EOF: nat := 5
  const BAD_RECORD: nat := 6

  type Record = seq<Byte>

  // ---------------------------------------------------------------- writing

  /** Checksum, length in two bytes, type, payload. */
  function Physical(typ: Byte, data: seq<Byte>): (bytes: seq<Byte>)
    requires |data| <= 0xffff
    ensures |bytes| == HEADER_SIZE + |data|
  {
    Fixed32(Crc32c.Mask(Crc32c.Value([typ] + data))) + [|data| % 256, |data| / 256, typ] + data
  }

  function Zeros(n: nat): seq<Byte> {
    seq(n, _ => 0)
  }

  function TypeOf(begin: bool, end: bool): Byte {
    if begin && end then FULL_TYPE else if begin then FIRST_TYPE else if end then LAST_TYPE else MIDDLE_TYPE
  }

  /** The trailer that fills up a block with no room for a header. */
  function Trailer(offset: nat): seq<Byte>
    requires offset <= BLOCK_SIZE
  {
    if BLOCK_SIZE - offset < HEADER_SIZE then Zeros(BLOCK_SIZE - offset) else []
  }

  /** The block offset at which the next header goes. */
  function HeaderOffset(offset: nat): (o: nat)
    requires offset <= BLOCK_SIZE
    ensures o + HEADER_SIZE <= BLOCK_SIZE
  {
    if BLOCK_SIZE - offset < HEADER_SIZE then 0 else offset
  }

  /** How much of the payload fits into the block. */
  function FragmentLength(offset: nat, left: nat): (n: nat)
    requires offset <= BLOCK_SIZE
    ensures n <= left && HeaderOffset(offset) + HEADER_SIZE + n <= BLOCK_SIZE
    ensures n < left ==> HeaderOffset(offset) + HEADER_SIZE + n == BLOCK_SIZE
  {
    var avail := BLOCK_SIZE - HeaderOffset(offset) - HEADER_SIZE;
    if left < avail then left else avail
  }

  /** One turn of AddRecord's loop. */
  function Fragment(offset: nat, data: seq<Byte>, begin: bool): (bytes: seq<Byte>)
    requires offset <= BLOCK_SIZE
    ensures |bytes| == |Trailer(offset)| + HEADER_SIZE + FragmentLength(offset, |data|)
  {
    var n := FragmentLength(offset, |data|);
    Trailer(offset) + Physical(TypeOf(begin, n == |data|), data[..n])
  }

  /** What AddRecord appends from the given block offset on: trailers and fragments. */
  function Emitted(offset: nat, data: seq<Byte>, begin: bool): (bytes: seq<Byte>)
    requires offset <= BLOCK_SIZE
    ensures |bytes| >= HEADER_SIZE
    decreases |data|, offset
  {
    var n := FragmentLength(offset, |data|);
    Fragment(offset, data, begin) + if n == |data| then [] else Emitted(0, data[n..], false)
  }

  /** Bytes 0 to 3 are the masked checksum of type and payload, 4 and 5 the length, 6 the type; the
      payload follows. */
  lemma HeaderBytes(typ: Byte, data: seq<Byte>)
    requires |data| <= 0xffff
    ensures var bytes := Physical(typ, data);
            && |bytes| == 7 + |data| && bytes[7..] == data
            && U32At(bytes, 0) == Crc32c.Mask(Crc32c.Value([typ] + data))
            && bytes[4] == |data| % 256 && bytes[5] == |data| / 256 && bytes[6] == typ
  {
    hide Crc32c.Mask, Crc32c.Value, Fixed, FromFixed;
    var bytes, crc := Physical(typ, data), Crc32c.Mask(Crc32c.Value([typ] + data));
    Fixed32RoundTrip(crc);
    assert bytes[0..4] == Fixed32(crc);
    FromFixedAt(bytes, 0);
  }

  lemma FragmentBytes(offset: nat, data: seq<Byte>, begin: bool)
    requires offset <= 32761
    ensures |data| <= 32761 - offset ==> Fragment(offset, data, begin) == Physical(if begin then 1 else 4, data)
    ensures |data| > 32761 - offset ==> Fragment(offset, data, begin) == Physical(if begin then 2 else 3, data[..32761 - offset])
  {
    hide Physical, Zeros;
    var n := FragmentLength(offset, |data|);
    assert n == |data| ==> data[..n] == data;
    var piece := Physical(TypeOf(begin, n == |data|), data[..n]);
    assert [] + piece == piece;
  }

  /** Blocks are 32768 bytes and headers 7.  From an offset in a block on, a record is one piece with type 1
      if it fits, and otherwise a first piece with type 2, pieces with type 3 and a last one with type 4. */
  lemma RecordBytes(offset: nat, data: seq<Byte>, begin: bool)
    requires offset <= 32761
    ensures |data| <= 32761 - offset ==> Emitted(offset, data, begin) == Physical(if begin then 1 else 4, data)
    ensures |data| > 32761 - offset ==>
              Emitted(offset, data, begin) ==
                Physical(if begin then 2 else 3, data[..32761 - offset]) + Emitted(0, data[32761 - offset..], false)
  {
    FragmentBytes(offset, data, begin);
    FragmentLengthIs(offset, |data|);
    hide Physical, Zeros, Fragment, FragmentLength, HeaderOffset, TypeOf;
    var x := Fragment(offset, data, begin);
    assert x + [] == x;
  }

  lemma FragmentLengthIs(offset: nat, left: nat)
    requires offset <= 32761
    ensures FragmentLength(offset, left) == if left <= 32761 - offset then left else 32761 - offset
  {
  }

  /** Where not even a header fits, zeros fill the block up. */
  lemma FillerBytes(offset: nat, data: seq<Byte>, begin: bool)
    requires 32761 < offset <= 32768
    ensures Emitted(offset, data, begin) == seq(32768 - offset, _ => 0) + Emitted(0, data, begin)
  {
    hide Physical, Zeros;
    var n := FragmentLength(0, |data|);
    assert FragmentLength(offset, |data|) == n;
    var piece := Physical(TypeOf(begin, n == |data|), data[..n]);
    assert Trailer(0) == [] && [] + piece == piece;
    ZerosAre(32768 - offset);
    FillerFirst(offset, data, begin, n, piece);
  }

  lemma ZerosAre(n: nat)
    ensures Zeros(n) == seq(n, _ => 0)
  {
  }

  lemma FillerFirst(offset: nat, data: seq<Byte>, begin: bool, n: nat, piece: seq<Byte>)
    requires 32761 < offset <= 32768 && n == FragmentLength(0, |data|) == FragmentLength(offset, |data|)
    requires Fragment(0, data, begin) == piece && Fragment(offset, data, begin) == Zeros(32768 - offset) + piece
    ensures Emitted(offset, data, begin) == Zeros(32768 - offset) + Emitted(0, data, begin)
  {
    hide Fragment, Zeros;
    var rest := if n == |data| then [] else Emitted(0, data[n..], false);
    assert Emitted(0, data, begin) == piece + rest;
    assert Emitted(offset, data, begin) == (Zeros(32768 - offset) + piece) + rest;
  }

  /** A block offset at the very end of a block is as good as one at the start. */
  lemma EmittedAtBlockEnd(data: seq<Byte>, begin: bool)
    ensures Emitted(BLOCK_SIZE, data, begin) == Emitted(0, data, begin)
  {
  }

  /** The file after adding the records rs, one after the other. */
  function LogBytes(rs: seq<Record>): seq<Byte> {
    if rs == [] then []
    else var file := LogBytes(rs[..|rs| - 1]); file + Emitted(BlockOffset(|file|), rs[|rs| - 1], true)
  }

  // ---------------------------------------------------------------- reading

  /** The end of the block that holds a position. */
  function BlockEnd(pos: nat): nat {
    pos - BlockOffset(pos) + BLOCK_SIZE
  }

  /** What is left of the block at a position of the file. */
  function RestOfBlock(f: seq<Byte>, pos: nat): seq<Byte>
    requires pos <= |f|
  {
    f[pos..if BlockEnd(pos) < |f| then BlockEnd(pos) else |f|]
  }

  /** One call of ReadPhysicalRecord: a type, a payload, the position after it, and the sizes of the
      drops that were reported. */
  function Length(low: Byte, high: Byte): nat {
    low as int + 256 * (high as int)
  }

  datatype Parsed = Parsed(typ: nat, data: seq<Byte>, pos: nat, dropped: seq<nat>)

  function Parse(f: seq<Byte>, pos: nat): (r: Parsed)
    requires pos <= |f|
    ensures r.pos <= |f| && (r.typ != EOF ==> r.pos > pos)
    decreases |f| - pos
  {
    var last := BlockEnd(pos) > |f|;
    var b := RestOfBlock(f, pos);
    if |b| < HEADER_SIZE then
      if last then Parsed(EOF, [], |f|, []) else Parse(f, BlockEnd(pos))
    else
      var length := Length(b[4], b[5]);
      if HEADER_SIZE + length > |b| then
        if last then Parsed(EOF, [], |f|, []) else Parsed(BAD_RECORD, [], pos + |b|, [|b|])
      else if b[6] == ZERO_TYPE && length == 0 then Parsed(BAD_RECORD, [], pos + |b|, [])
      else if Crc32c.Value(b[6..HEADER_SIZE + length]) != Crc32c.Unmask(FromFixed32(b[..4])) then
        Parsed(BAD_RECORD, [], pos + |b|, [|b|])
      else Parsed(b[6], b[HEADER_SIZE..HEADER_SIZE + length], pos + HEADER_SIZE + length, [])
  }

  datatype ReadResult = ReadResult(found: bool, record: Record, pos: nat, dropped: seq<nat>)

  /** What ReadRecord does with one physical record: return, or go on with other fragments so far. */
  datatype Turn =
    | Return(found: bool, record: Record, drops: seq<nat>)
    | Continue(inFragmented: bool, scratch: seq<Byte>, drops: seq<nat>)

  function Handle(typ: nat, data: seq<Byte>, inFragmented: bool, scratch: seq<Byte>): (t: Turn)
    ensures typ == EOF ==> t.Return? && !t.found
  {
    var unfinished := if inFragmented && scratch != [] then [|scratch|] else [];
    if typ == FULL_TYPE then Return(true, data, unfinished)
    else if typ == FIRST_TYPE then Continue(true, data, unfinished)
    else if typ == MIDDLE_TYPE then
      if inFragmented then Continue(true, scratch + data, []) else Continue(false, scratch, [|data|])
    else if typ == LAST_TYPE then
      if inFragmented then Return(true, scratch + data, []) else Continue(false, scratch, [|data|])
    else if typ == EOF then Return(false, [], [])
    else if typ == BAD_RECORD then
      if inFragmented then Continue(false, [], [|scratch|]) else Continue(false, scratch, [])
    else Continue(false, [], [|data| + if inFragmented then |scratch| else 0])
  }

  /** What the loop of ReadRecord does from here on. */
  function ReadFrom(f: seq<Byte>, pos: nat, inFragmented: bool, scratch: seq<Byte>): (r: ReadResult)
    requires pos <= |f|
    ensures r.pos <= |f| && (r.found ==> r.pos > pos)
    decreases |f| - pos
  {
    var p := Parse(f, pos);
    match Handle(p.typ, p.data, inFragmented, scratch)
    case Return(found, record, drops) => ReadResult(found, record, p.pos, p.dropped + drops)
    case Continue(inFragmented', scratch', drops) =>
      Reporting(p.dropped + drops, ReadFrom(f, p.pos, inFragmented', scratch'))
  }

  function Reporting(dropped: seq<nat>, r: ReadResult): ReadResult {
    r.(dropped := dropped + r.dropped)
  }

  /** All records of a file from a position on, and all drops reported on the way. */
  function ReadAll(f: seq<Byte>, pos: nat): (r: (seq<Record>, seq<nat>))
    requires pos <= |f|
    decreases |f| - pos
  {
    var r := ReadFrom(f, pos, false, []);
    if !r.found then ([], r.dropped)
    else var rest := ReadAll(f, r.pos); ([r.record] + rest.0, r.dropped + rest.1)
  }

  // ---------------------------------------------------------------- one physical record

  lemma InBlock(pos: nat, n: nat)
    requires BlockOffset(pos) + n <= BLOCK_SIZE
    ensures pos + n <= BlockEnd(pos)
  {
  }

  lemma PhysicalFields(typ: Byte, data: seq<Byte>)
    requires |data| <= 0xffff
    ensures var p := Physical(typ, data);
            Length(p[4], p[5]) == |data| && p[6] == typ && p[HEADER_SIZE..] == data && p[6..] == [typ] + data
            && Crc32c.Unmask(FromFixed32(p[..4])) == Crc32c.Value([typ] + data)
  {
    hide Crc32c.Value, Crc32c.Mask, Crc32c.Unmask, Fixed32, FromFixed32;
    var crc := Crc32c.Value([typ] + data);
    var p := Physical(typ, data);
    assert p[..4] == Fixed32(Crc32c.Mask(crc));
    Fixed32RoundTrip(Crc32c.Mask(crc));
    Crc32c.UnmaskMask(crc);
  }

  /** A physical record that is all there is parsed back, with nothing dropped. */
  lemma ParsePhysical(f: seq<Byte>, pos: nat, typ: Byte, data: seq<Byte>)
    requires typ != ZERO_TYPE && BlockOffset(pos) + HEADER_SIZE + |data| <= BLOCK_SIZE
    requires At(f, pos, Physical(typ, data))
    ensures Parse(f, pos) == Parsed(typ, data, pos + HEADER_SIZE + |data|, [])
  {
    hide Physical, Fixed32, FromFixed32, Crc32c.Value, Crc32c.Unmask, BlockOffset;
    InBlock(pos, HEADER_SIZE + |data|);
    PhysicalFields(typ, data);
    var b, p, n := RestOfBlock(f, pos), Physical(typ, data), HEADER_SIZE + |data|;
    assert b[..n] == p;
    assert b[4] == p[4] && b[5] == p[5] && b[6] == p[6];
    SliceOfSlice(b, 0, n, 0, 4);
    SliceOfSlice(b, 0, n, 6, n);
    SliceOfSlice(b, 0, n, HEADER_SIZE, n);
  }

  /** A physical record cut off by the end of the file reads as the end of the file. */
  lemma ParseCut(log: seq<Byte>, f: seq<Byte>, pos: nat, typ: Byte, data: seq<Byte>)
    requires f <= log && pos <= |f| < pos + HEADER_SIZE + |data|
    requires BlockOffset(pos) + HEADER_SIZE + |data| <= BLOCK_SIZE
    requires At(log, pos, Physical(typ, data))
    ensures Parse(f, pos) == Parsed(EOF, [], |f|, [])
  {
    InBlock(pos, HEADER_SIZE + |data|);
    PhysicalFields(typ, data);
    var b, p := RestOfBlock(f, pos), Physical(typ, data);
    assert b == f[pos..];
    if |b| >= HEADER_SIZE {
      assert b[4] == p[4] && b[5] == p[5];
    }
  }

  /** A trailer is skipped, or is the end of the file when it is cut off. */
  lemma ParseTrailer(f: seq<Byte>, pos: nat)
    requires pos <= |f| && BLOCK_SIZE - BlockOffset(pos) < HEADER_SIZE
    ensures Parse(f, pos) == if BlockEnd(pos) <= |f| then Parse(f, BlockEnd(pos)) else Parsed(EOF, [], |f|, [])
  {
    assert BlockEnd(pos) - pos < HEADER_SIZE;
  }

  lemma ParseAtEnd(f: seq<Byte>)
    ensures Parse(f, |f|) == Parsed(EOF, [], |f|, [])
  {
    assert BlockEnd(|f|) > |f|;
  }

  // ---------------------------------------------------------------- one record

  lemma ParseHeader(log: seq<Byte>, f: seq<Byte>, start: nat, typ: Byte, data: seq<Byte>)
    requires f <= log && start <= |f| && typ != ZERO_TYPE
    requires BlockOffset(start) + HEADER_SIZE + |data| <= BLOCK_SIZE
    requires At(log, start, Physical(typ, data))
    ensures var next := start + HEADER_SIZE + |data|;
            Parse(f, start) == if next <= |f| then Parsed(typ, data, next, []) else Parsed(EOF, [], |f|, [])
  {
    var next := start + HEADER_SIZE + |data|;
    if next <= |f| {
      AtPrefix(f, log, start, Physical(typ, data));
      ParsePhysical(f, start, typ, data);
    } else {
      ParseCut(log, f, start, typ, data);
    }
  }

  lemma SkipTrailer(f: seq<Byte>, pos: nat, offset: nat)
    requires pos <= |f| && offset <= BLOCK_SIZE && BlockOffset(offset) == BlockOffset(pos)
    ensures var start := pos + |Trailer(offset)|;
            BlockOffset(start) == HeaderOffset(offset)
            && Parse(f, pos) == if start <= |f| then Parse(f, start) else Parsed(EOF, [], |f|, [])
  {
    HeaderPosition(pos, offset);
    if Trailer(offset) != [] {
      ParseTrailer(f, pos);
    }
  }

  lemma HeaderPosition(pos: nat, offset: nat)
    requires offset <= BLOCK_SIZE && BlockOffset(offset) == BlockOffset(pos)
    ensures BlockOffset(pos + |Trailer(offset)|) == HeaderOffset(offset)
    ensures Trailer(offset) != [] ==> BlockEnd(pos) == pos + |Trailer(offset)| && BLOCK_SIZE - BlockOffset(pos) < HEADER_SIZE
  {
    Advance(pos, |Trailer(offset)|);
  }

  /** A fragment that is not the last one of its record ends with its block. */
  lemma FragmentEndsBlock(pos: nat, offset: nat, data: seq<Byte>, begin: bool)
    requires offset <= BLOCK_SIZE && BlockOffset(offset) == BlockOffset(pos)
    requires FragmentLength(offset, |data|) < |data|
    ensures BlockOffset(pos + |Fragment(offset, data, begin)|) == 0
  {
    hide Physical, BlockOffset;
    HeaderPosition(pos, offset);
    Advance(pos + |Trailer(offset)|, HEADER_SIZE + FragmentLength(offset, |data|));
  }

  /** What a reader sees at the start of a fragment: the fragment, or the end of a cut-off file. */
  lemma ParseFragment(log: seq<Byte>, f: seq<Byte>, pos: nat, offset: nat, typ: Byte, data: seq<Byte>)
    requires f <= log && pos <= |f| && offset <= BLOCK_SIZE && BlockOffset(offset) == BlockOffset(pos)
    requires HeaderOffset(offset) + HEADER_SIZE + |data| <= BLOCK_SIZE && typ != ZERO_TYPE
    requires At(log, pos, Trailer(offset) + Physical(typ, data))
    ensures var next := pos + |Trailer(offset)| + HEADER_SIZE + |data|;
            Parse(f, pos) == if next <= |f| then Parsed(typ, data, next, []) else Parsed(EOF, [], |f|, [])
  {
    hide At, Trailer, HeaderOffset, Parse, Physical, BlockOffset;
    var t, p := Trailer(offset), Physical(typ, data);
    var start := pos + |t|;
    SkipTrailer(f, pos, offset);
    if start <= |f| {
      SplitAt(log, pos, t, p);
      ParseHeader(log, f, start, typ, data);
    }
  }

  /** What ReadRecord makes of one fragment of a record. */
  lemma ReadFragment(f: seq<Byte>, pos: nat, begin: bool, end: bool, scratch: seq<Byte>, data: seq<Byte>, next: nat)
    requires pos < next <= |f| && Parse(f, pos) == Parsed(TypeOf(begin, end), data, next, [])
    requires begin ==> scratch == []
    ensures ReadFrom(f, pos, !begin, scratch) ==
              if end then ReadResult(true, scratch + data, next, []) else ReadFrom(f, next, true, scratch + data)
  {
    hide Parse;
    assert begin ==> scratch + data == data;
    if !end {
      NothingReported(ReadFrom(f, next, true, scratch + data));
    }
  }

  lemma ReportingTwice(d: seq<nat>, d': seq<nat>, r: ReadResult)
    ensures Reporting(d, Reporting(d', r)) == Reporting(d + d', r)
  {
    assert d + (d' + r.dropped) == (d + d') + r.dropped;
  }

  lemma NothingReported(r: ReadResult)
    ensures Reporting([], r) == Reporting([] + [], r) == r
  {
  }

  lemma ReadEof(f: seq<Byte>, pos: nat, inFragmented: bool, scratch: seq<Byte>)
    requires pos <= |f| && Parse(f, pos) == Parsed(EOF, [], |f|, [])
    ensures ReadFrom(f, pos, inFragmented, scratch) == ReadResult(false, [], |f|, [])
  {
  }

  /** Reading where a record was written returns the record if all of it is there, and otherwise
      ends quietly. */
  lemma {:induction false} ReadEmitted(log: seq<Byte>, f: seq<Byte>, pos: nat, offset: nat, data: seq<Byte>,
                                       begin: bool, scratch: seq<Byte>)
    requires f <= log && pos <= |f| && offset <= BLOCK_SIZE && BlockOffset(offset) == BlockOffset(pos)
    requires At(log, pos, Emitted(offset, data, begin))
    requires begin ==> scratch == []
    ensures var next := pos + |Emitted(offset, data, begin)|;
            ReadFrom(f, pos, !begin, scratch) ==
              if next <= |f| then ReadResult(true, scratch + data, next, []) else ReadResult(false, [], |f|, [])
    decreases |data|, offset
  {
    hide Parse, ReadFrom, Physical, BlockOffset, Trailer;
    var n := FragmentLength(offset, |data|);
    var fragment := Fragment(offset, data, begin);
    var rest := if n == |data| then [] else Emitted(0, data[n..], false);
    var next := pos + |fragment|;
    SplitAt(log, pos, fragment, rest);
    ParseFragment(log, f, pos, offset, TypeOf(begin, n == |data|), data[..n]);
    if next > |f| {
      ReadEof(f, pos, !begin, scratch);
    } else {
      ReadFragment(f, pos, begin, n == |data|, scratch, data[..n], next);
      Rejoin(scratch, data, n);
      if n < |data| {
        FragmentEndsBlock(pos, offset, data, begin);
        ReadEmitted(log, f, next, 0, data[n..], false, scratch + data[..n]);
      }
    }
  }

  lemma Rejoin<T>(s: seq<T>, t: seq<T>, n: nat)
    requires n <= |t|
    ensures (s + t[..n]) + t[n..] == s + t
    ensures n == |t| ==> t[..n] == t
  {
  }
}
