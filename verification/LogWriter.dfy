/** log::Writer (db/log_writer.cc). */
module LogWriter {
  import opened Coding
  import opened LogFormat
  import Crc32c

  class Writer {
    var dest: seq<Byte>
    var blockOffset: nat
    ghost var records: seq<Record>  // what the file holds

    ghost predicate Valid()
      reads this
    {
      && dest == LogBytes(records)
      && blockOffset <= BLOCK_SIZE && BlockOffset(blockOffset) == BlockOffset(|dest|)
    }

    /** A writer of a new file. */
    constructor ()
      ensures Valid() && records == []
    {
      dest, blockOffset, records := [], 0, [];
    }

    /** A writer that goes on at the end of an existing log, whose length is all it is told. */
    constructor Reopen(dest: seq<Byte>, ghost records: seq<Record>)
      requires dest == LogBytes(records)
      ensures Valid() && this.records == records
    {
      this.dest := dest;
      this.blockOffset := |dest| % BLOCK_SIZE;
      this.records := records;
      new;
      BlockOffsetIsRemainder(|dest|);
    }

    /** Whether the file was just created or reopened any number of times in between, adding a record
        makes it the log of the longer list. */
    method AddRecord(data: seq<Byte>)
      requires Valid()
      modifies this
      ensures Valid() && records == old(records) + [data]
    {
      ghost var file := dest;
      SameEmitted(blockOffset, |dest|, data);
      AddFragments(data);
      records := records + [data];
      assert records[..|records| - 1] == old(records);
    }

    /** The do-while loop of AddRecord. */
    method AddFragments(data: seq<Byte>)
      requires blockOffset <= BLOCK_SIZE && BlockOffset(blockOffset) == BlockOffset(|dest|)
      modifies `dest, `blockOffset
      ensures dest == old(dest) + Emitted(old(blockOffset), data, true)
      ensures blockOffset <= BLOCK_SIZE && BlockOffset(blockOffset) == BlockOffset(|dest|)
    {
      hide Fragment, BlockOffset, Physical;
      var left, begin, more := data, true, true;
      while more
        invariant blockOffset <= BLOCK_SIZE && BlockOffset(blockOffset) == BlockOffset(|dest|)
        invariant old(dest) + Emitted(old(blockOffset), data, true) ==
                  dest + if more then Emitted(blockOffset, left, begin) else []
        decreases more, |left|, if BLOCK_SIZE - blockOffset < HEADER_SIZE then 0 else blockOffset
      {
        ghost var before, offset := dest, blockOffset;
        var n := EmitFragment(left, begin);
        FragmentAdvances(|before|, offset, left, begin);
        ghost var rest := if n == |left| then [] else Emitted(0, left[n..], false);
        assert before + (Fragment(offset, left, begin) + rest) == (before + Fragment(offset, left, begin)) + rest;
        if n < |left| {
          EmittedAtBlockEnd(left[n..], false);
        }
        more := n < |left|;
        left := left[n..];
        begin := false;
      }
    }

    /** One turn of the loop: the trailer if there is no room for a header, then one physical record. */
    method EmitFragment(left: seq<Byte>, begin: bool) returns (n: nat)
      requires blockOffset <= BLOCK_SIZE
      modifies `dest, `blockOffset
      ensures n == FragmentLength(old(blockOffset), |left|)
      ensures dest == old(dest) + Fragment(old(blockOffset), left, begin)
      ensures blockOffset == HeaderOffset(old(blockOffset)) + HEADER_SIZE + n
    {
      hide Physical;
      var leftover := BLOCK_SIZE - blockOffset;
      if leftover < HEADER_SIZE {
        if leftover > 0 {
          dest := dest + Zeros(leftover);
        }
        blockOffset := 0;
      }
      var avail := BLOCK_SIZE - blockOffset - HEADER_SIZE;
      n := if |left| < avail then |left| else avail;
      var end := |left| == n;
      var typ: Byte;
      if begin && end {
        typ := FULL_TYPE;
      } else if begin {
        typ := FIRST_TYPE;
      } else if end {
        typ := LAST_TYPE;
      } else {
        typ := MIDDLE_TYPE;
      }
      assert dest == old(dest) + Trailer(old(blockOffset));
      EmitPhysicalRecord(typ, left[..n]);
      assert old(dest) + Trailer(old(blockOffset)) + Physical(typ, left[..n]) ==
             old(dest) + (Trailer(old(blockOffset)) + Physical(typ, left[..n]));
      assert dest == old(dest) + (Trailer(old(blockOffset)) + Physical(typ, left[..n]));
    }

    method EmitPhysicalRecord(typ: Byte, data: seq<Byte>)
      requires blockOffset + HEADER_SIZE + |data| <= BLOCK_SIZE
      modifies `dest, `blockOffset
      ensures dest == old(dest) + Physical(typ, data)
      ensures blockOffset == old(blockOffset) + HEADER_SIZE + |data|
    {
      hide Crc32c.Extended, Crc32c.Mask, Fixed32;
      var typeCrc := Crc32c.Value([typ]);
      var crc := Crc32c.Extend(typeCrc, data);
      Crc32c.ExtendConcat(0, [typ], data);
      var header: seq<Byte> := Fixed32(Crc32c.Mask(crc)) + [|data| % 256, |data| / 256, typ];
      assert Physical(typ, data) == header + data;
      dest := dest + header;
      dest := dest + data;
      blockOffset := blockOffset + (HEADER_SIZE + |data|);
    }
  }

  lemma SameEmitted(offset: nat, length: nat, data: seq<Byte>)
    requires offset <= BLOCK_SIZE && BlockOffset(offset) == BlockOffset(length)
    ensures Emitted(offset, data, true) == Emitted(BlockOffset(length), data, true)
  {
    hide Emitted;
    if offset == BLOCK_SIZE {
      EmittedAtBlockEnd(data, true);
    }
  }

  /** The block offset keeps step with the length of the file. */
  lemma FragmentAdvances(length: nat, offset: nat, left: seq<Byte>, begin: bool)
    requires offset <= BLOCK_SIZE && BlockOffset(offset) == BlockOffset(length)
    ensures BlockOffset(length + |Fragment(offset, left, begin)|) ==
              BlockOffset(HeaderOffset(offset) + HEADER_SIZE + FragmentLength(offset, |left|))
  {
    hide Physical;
    HeaderPosition(length, offset);
    Advance(length + |Trailer(offset)|, HEADER_SIZE + FragmentLength(offset, |left|));
  }
}
