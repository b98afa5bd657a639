/** log::Reader (db/log_reader.cc), reading from the start of a file with checksums verified. */
module LogReader {
  import opened Coding
  import opened LogFormat
  import opened LogRoundTrip
  import Crc32c

  class Reader {
    const file: seq<Byte>
    var buffer: seq<Byte>
    var eof: bool
    var endOfBufferOffset: nat
    var dropped: seq<nat>  // what was reported to the reporter

    /** Where in the file the next physical record is looked for. */
    function Pos(): nat
      reads this
    {
      if |buffer| <= endOfBufferOffset then endOfBufferOffset - |buffer| else 0
    }

    ghost predicate Valid()
      reads this
    {
      && |buffer| <= endOfBufferOffset <= |file|
      && buffer == file[Pos()..endOfBufferOffset]
      && (eof ==> endOfBufferOffset == |file| && BlockEnd(Pos()) > |file|)
      && (!eof && buffer != [] ==> endOfBufferOffset == BlockEnd(Pos()))
      && (!eof && buffer == [] ==> BlockOffset(endOfBufferOffset) == 0)
    }

    constructor (file: seq<Byte>)
      ensures Valid() && this.file == file && Pos() == 0 && dropped == []
    {
      hide BlockOffset;
      this.file := file;
      buffer, eof, endOfBufferOffset, dropped := [], false, 0, [];
    }

    method ReportCorruption(bytes: nat)
      modifies `dropped
      ensures dropped == old(dropped) + [bytes]
    {
      dropped := dropped + [bytes];
    }

    /** Load the next block, or find out that there is none. */
    method FillBuffer()
      requires Valid() && |buffer| < HEADER_SIZE && !eof
      modifies `buffer, `eof, `endOfBufferOffset
      ensures Valid() && Parse(file, Pos()) == Parse(file, old(Pos())) && Pos() >= old(Pos())
      ensures eof || |buffer| >= HEADER_SIZE
    {
      ghost var pos := Pos();
      if buffer != [] {
        BlockEndIsStart(pos);
      }
      var n := if |file| - endOfBufferOffset < BLOCK_SIZE then |file| - endOfBufferOffset else BLOCK_SIZE;
      buffer := file[endOfBufferOffset..endOfBufferOffset + n];
      endOfBufferOffset := endOfBufferOffset + n;
      if n < BLOCK_SIZE {
        eof := true;
      }
    }

    method ReadPhysicalRecord() returns (typ: nat, data: seq<Byte>)
      requires Valid()
      modifies `buffer, `eof, `endOfBufferOffset, `dropped
      ensures Valid()
      ensures var p := Parse(file, old(Pos()));
              typ == p.typ && data == p.data && Pos() == p.pos && dropped == old(dropped) + p.dropped
    {
      hide Crc32c.Value, Crc32c.Unmask, FromFixed32, BlockOffset;
      data := [];
      if |buffer| < HEADER_SIZE && !eof {
        FillBuffer();
      }
      if |buffer| < HEADER_SIZE {
        buffer := [];
        return EOF, data;
      }
      typ, data := ParseBuffer();
    }

    /** The rest of ReadPhysicalRecord, with a header in the buffer. */
    method ParseBuffer() returns (typ: nat, data: seq<Byte>)
      requires Valid() && |buffer| >= HEADER_SIZE
      modifies `buffer, `dropped
      ensures Valid()
      ensures var p := Parse(file, old(Pos()));
              typ == p.typ && data == p.data && Pos() == p.pos && dropped == old(dropped) + p.dropped
    {
      hide Crc32c.Value, Crc32c.Unmask, FromFixed32, BlockOffset;
      data := [];
      assert buffer == RestOfBlock(file, Pos());
      ghost var pos := Pos();
      BlockEndIsStart(pos);
      var length := Length(buffer[4], buffer[5]);
      typ := buffer[6];
      if HEADER_SIZE + length > |buffer| {
        var dropSize := |buffer|;
        buffer := [];
        if !eof {
          ReportCorruption(dropSize);
          return BAD_RECORD, data;
        }
        return EOF, data;
      }
      if typ == ZERO_TYPE && length == 0 {
        buffer := [];
        return BAD_RECORD, data;
      }
      var expectedCrc := Crc32c.Unmask(FromFixed32(buffer[..4]));
      var actualCrc := Crc32c.Value(buffer[6..HEADER_SIZE + length]);
      if actualCrc != expectedCrc {
        var dropSize := |buffer|;
        buffer := [];
        ReportCorruption(dropSize);
        return BAD_RECORD, data;
      }
      data := buffer[HEADER_SIZE..HEADER_SIZE + length];
      Advance(pos, HEADER_SIZE + length);
      buffer := buffer[HEADER_SIZE + length..];
    }
  
    /** The switch in ReadRecord. */
    method HandleFragment(typ: nat, fragment: seq<Byte>, inFragmented: bool, scratch: seq<Byte>) returns (t: Turn)
      modifies `dropped
      ensures t == Handle(typ, fragment, inFragmented, scratch) && dropped == old(dropped) + t.drops
    {
      if typ == FULL_TYPE || typ == FIRST_TYPE {
        var drops := [];
        if inFragmented && scratch != [] {
          ReportCorruption(|scratch|);
          drops := [|scratch|];
        }
        t := if typ == FULL_TYPE then Return(true, fragment, drops) else Continue(true, fragment, drops);
      } else if typ == MIDDLE_TYPE || typ == LAST_TYPE {
        if !inFragmented {
          ReportCorruption(|fragment|);
          t := Continue(false, scratch, [|fragment|]);
        } else if typ == MIDDLE_TYPE {
          t := Continue(true, scratch + fragment, []);
        } else {
          t := Return(true, scratch + fragment, []);
        }
      } else if typ == EOF {
        t := Return(false, [], []);
      } else if typ == BAD_RECORD {
        if inFragmented {
          ReportCorruption(|scratch|);
          t := Continue(false, [], [|scratch|]);
        } else {
          t := Continue(false, scratch, []);
        }
      } else {
        var bytes := |fragment| + if inFragmented then |scratch| else 0;
        ReportCorruption(bytes);
        t := Continue(false, [], [bytes]);
      }
    }

    /** The next record, or none at the end of the file. */
    method ReadRecord() returns (found: bool, record: Record)
      requires Valid()
      modifies `buffer, `eof, `endOfBufferOffset, `dropped
      ensures Valid()
      ensures var r := ReadFrom(file, old(Pos()), false, []);
              found == r.found && record == r.record && Pos() == r.pos && dropped == old(dropped) + r.dropped
    {
      hide Parse, Handle;
      var inFragmented, scratch: seq<Byte> := false, [];
      ghost var all := Reporting(dropped, ReadFrom(file, Pos(), false, []));
      while true
        invariant Valid() && Reporting(dropped, ReadFrom(file, Pos(), inFragmented, scratch)) == all
        decreases |file| - Pos()
      {
        ghost var before, p := dropped, Parse(file, Pos());
        var typ, fragment := ReadPhysicalRecord();
        var t := HandleFragment(typ, fragment, inFragmented, scratch);
        assert dropped == before + (p.dropped + t.drops);
        match t
        case Return(f, r, _) =>
          return f, r;
        case Continue(i, s, drops) =>
          ReportingTwice(before, p.dropped + drops, ReadFrom(file, Pos(), i, s));
          inFragmented, scratch := i, s;
      }
    }
  }

  lemma BlockEndIsStart(pos: nat)
    ensures BlockOffset(BlockEnd(pos)) == 0
  {
    Advance(pos, BLOCK_SIZE - BlockOffset(pos));
  }

  /** Recovery after a crash: a reader of any prefix of a log gets every record that is completely in
      the prefix, in order, and nothing is reported as dropped. */
  method ReadTruncatedLog(ghost rs: seq<Record>, file: seq<Byte>) returns (records: seq<Record>, dropped: seq<nat>)
    requires file <= LogBytes(rs)
    ensures records == rs[..CompleteRecords(rs, |file|)] && dropped == []
  {
    hide LogBytes, Parse, ReadFrom, CompleteRecords;
    var reader := new Reader(file);
    records := [];
    TruncatedLogReadsPrefix(rs, |file|);
    assert LogBytes(rs)[..|file|] == file;
    var more := true;
    while more
      invariant reader.Valid() && fresh(reader) && reader.file == file
      invariant var rest := if more then ReadAll(file, reader.Pos()) else ([], []);
                records + rest.0 == rs[..CompleteRecords(rs, |file|)] && reader.dropped + rest.1 == []
      decreases more, |file| - reader.Pos()
    {
      var record;
      more, record := reader.ReadRecord();
      if more {
        records := records + [record];
      }
    }
    dropped := reader.dropped;
  }
}
