/** The pieces of a table file: block handles, stored blocks with their trailers, and the footer
    (table/format.cc, table/format.h). */
module TableFormat {
  import opened Keys
  import opened Coding
  import opened Sequences
  import opened Varints
  import Crc32c

  const BLOCK_TRAILER_SIZE: nat := 5
  const MAX_ENCODED_LENGTH: nat := 20  // of a block handle
  const FOOTER_LENGTH: nat := 48
  // The two halves of kTableMagicNumber.
  const MAGIC_LOW: nat := 0x8b80_fb57
  const MAGIC_HIGH: nat := 0xdb47_7524
  const NO_COMPRESSION: Byte := 0

  datatype BlockHandle = BlockHandle(offset: nat, size: nat)

  ghost predicate HandleFits(h: BlockHandle) {
    Fits64(h.offset) && Fits64(h.size)
  }

  /** Both numbers as 64-bit varints. */
  function EncodeHandle(h: BlockHandle): (bytes: seq<Byte>)
    ensures |bytes| <= MAX_ENCODED_LENGTH
  {
    var offset, size := h.offset % 0x1_0000_0000_0000_0000, h.size % 0x1_0000_0000_0000_0000;
    Varint64RoundTrip(offset, []);
    Varint64RoundTrip(size, []);
    Varint(offset) + Varint(size)
  }

  /** A handle and the number of bytes it takes; what follows is ignored. */
  function DecodeHandle(input: seq<Byte>): (r: Option<(BlockHandle, nat)>)
    ensures r.Some? ==> r.value.1 <= |input|
  {
    var a := GetVarint64(input);
    if a.None? then None
    else
      var b := GetVarint64(input[a.value.1..]);
      if b.None? then None else Some((BlockHandle(a.value.0, b.value.0), a.value.1 + b.value.1))
  }

  lemma HandleRoundTrip(h: BlockHandle, rest: seq<Byte>)
    requires HandleFits(h)
    ensures DecodeHandle(EncodeHandle(h) + rest) == Some((h, |EncodeHandle(h)|))
  {
    hide Varint, GetVarint64;
    var a, b := Varint(h.offset), Varint(h.size);
    Varint64RoundTrip(h.offset, b + rest);
    Varint64RoundTrip(h.size, rest);
    assert (a + b) + rest == a + (b + rest);
    assert (a + (b + rest))[|a|..] == b + rest;
  }

  // ---------------------------------------------------------------- stored blocks

  /** The compression type, and a checksum of the contents and the type. */
  function BlockTrailer(contents: seq<Byte>): (t: seq<Byte>)
    ensures |t| == BLOCK_TRAILER_SIZE
  {
    [NO_COMPRESSION] + Fixed32(Crc32c.Mask(Crc32c.Value(contents + [NO_COMPRESSION])))
  }

  function Stored(contents: seq<Byte>): seq<Byte> {
    contents + BlockTrailer(contents)
  }

  /** The trailer: type 0 and the masked checksum of the contents and the type. */
  lemma TrailerBytes(contents: seq<Byte>)
    ensures var t := BlockTrailer(contents);
            Stored(contents) == contents + t && |t| == 5 && t[0] == 0 && U32At(t, 1) == Crc32c.Mask(Crc32c.Value(contents + [0]))
  {
    hide Crc32c.Mask, Crc32c.Value, Fixed, FromFixed;
    var t, crc := BlockTrailer(contents), Crc32c.Mask(Crc32c.Value(contents + [0]));
    Fixed32RoundTrip(crc);
    assert t[1..5] == Fixed32(crc);
    FromFixedAt(t, 1);
  }

  function ReadBlock(file: seq<Byte>, h: BlockHandle, verifyChecksums: bool): Option<seq<Byte>> {
    var n := h.size;
    if |file| < h.offset + n + BLOCK_TRAILER_SIZE then None
    else
      var data := file[h.offset..h.offset + n + BLOCK_TRAILER_SIZE];
      if verifyChecksums && Crc32c.Value(data[..n + 1]) != Crc32c.Unmask(FromFixed32(data[n + 1..])) then None
      else if data[n] != NO_COMPRESSION then None
      else Some(data[..n])
  }

  /** A stored block reads back, with or without checking. */
  lemma ReadStored(file: seq<Byte>, offset: nat, contents: seq<Byte>, verifyChecksums: bool)
    requires At(file, offset, Stored(contents))
    ensures ReadBlock(file, BlockHandle(offset, |contents|), verifyChecksums) == Some(contents)
  {
    hide Crc32c.Value, Crc32c.Mask, Crc32c.Unmask, Fixed32, FromFixed32;
    var n, data := |contents|, Stored(contents);
    var crc := Crc32c.Value(contents + [NO_COMPRESSION]);
    assert data[..n + 1] == contents + [NO_COMPRESSION] && data[..n] == contents;
    assert data[n + 1..] == Fixed32(Crc32c.Mask(crc));
    Fixed32RoundTrip(Crc32c.Mask(crc));
    Crc32c.UnmaskMask(crc);
  }

  /** With checking, only a stored block is read. */
  lemma ReadIsStored(file: seq<Byte>, h: BlockHandle, contents: seq<Byte>)
    ensures ReadBlock(file, h, true) == Some(contents) <==> h.size == |contents| && At(file, h.offset, Stored(contents))
  {
    hide Crc32c.Value, Crc32c.Mask, Crc32c.Unmask, Fixed, FromFixed;
    if h.size == |contents| && At(file, h.offset, Stored(contents)) {
      ReadStored(file, h.offset, contents, true);
    }
    if ReadBlock(file, h, true) == Some(contents) {
      var n, data := h.size, file[h.offset..h.offset + h.size + 5];
      assert data[..n + 1] == contents + [NO_COMPRESSION];
      Crc32c.MaskUnmask(FromFixed32(data[n + 1..]));
      BytesRoundTrip(data[n + 1..]);
      assert data == contents + ([NO_COMPRESSION] + data[n + 1..]);
    }
  }

  // ---------------------------------------------------------------- the footer

  /** string::resize */
  function Resized(s: seq<Byte>, n: nat): (r: seq<Byte>)
    ensures |r| == n
  {
    if |s| <= n then s + seq(n - |s|, _ => 0) else s[..n]
  }

  function EncodeFooter(metaindex: BlockHandle, index: BlockHandle): (f: seq<Byte>)
    ensures |f| == FOOTER_LENGTH
  {
    Resized(EncodeHandle(metaindex) + EncodeHandle(index), 2 * MAX_ENCODED_LENGTH)
      + (Fixed(MAGIC_LOW, FIXED32_BYTES) + Fixed(MAGIC_HIGH, FIXED32_BYTES))
  }

  /** 48 bytes: the handle of the metaindex block and that of the index block, offset before size, zeros,
      and the magic number in the last eight. */
  lemma FooterBytes(metaindex: BlockHandle, index: BlockHandle)
    requires HandleFits(metaindex) && HandleFits(index)
    ensures var f := EncodeFooter(metaindex, index);
            var handles := Varint(metaindex.offset) + Varint(metaindex.size) + Varint(index.offset) + Varint(index.size);
            && |f| == 48 && f[40..] == [0x57, 0xfb, 0x80, 0x8b, 0x24, 0x75, 0x47, 0xdb]
            && |handles| <= 40 && f[..|handles|] == handles && forall i :: |handles| <= i < 40 ==> f[i] == 0
  {
    hide Varint, Fixed;
    MagicBytes();
    var f, a, b := EncodeFooter(metaindex, index), EncodeHandle(metaindex), EncodeHandle(index);
    assert f[40..] == Fixed(MAGIC_LOW, 4) + Fixed(MAGIC_HIGH, 4);
    assert a + b == Varint(metaindex.offset) + Varint(metaindex.size) + Varint(index.offset) + Varint(index.size);
    assert f[..|a + b|] == a + b;
  }

  lemma MagicBytes()
    ensures Fixed(MAGIC_LOW, 4) + Fixed(MAGIC_HIGH, 4) == [0x57, 0xfb, 0x80, 0x8b, 0x24, 0x75, 0x47, 0xdb]
  {
    FixedBytes(MAGIC_LOW);
    FixedBytes(MAGIC_HIGH);
    hide Fixed;
  }

  /** The handles of the metaindex block and of the index block. */
  function DecodeFooter(input: seq<Byte>): Option<(BlockHandle, BlockHandle)>
    requires |input| == FOOTER_LENGTH
  {
    var magic := 2 * MAX_ENCODED_LENGTH;
    if FromFixed32(input[magic..magic + 4]) != MAGIC_LOW || FromFixed32(input[magic + 4..magic + 8]) != MAGIC_HIGH then None
    else
      var a := DecodeHandle(input);
      if a.None? then None
      else
        var b := DecodeHandle(input[a.value.1..]);
        if b.None? then None else Some((a.value.0, b.value.0))
  }

  lemma FooterRoundTrip(metaindex: BlockHandle, index: BlockHandle)
    requires HandleFits(metaindex) && HandleFits(index)
    ensures DecodeFooter(EncodeFooter(metaindex, index)) == Some((metaindex, index))
  {
    hide Fixed, FromFixed32, EncodeHandle, DecodeHandle;
    var f, a, b := EncodeFooter(metaindex, index), EncodeHandle(metaindex), EncodeHandle(index);
    var n := 2 * MAX_ENCODED_LENGTH;
    var rest := f[|a| + |b|..];
    assert f == a + (b + rest);
    HandleRoundTrip(metaindex, b + rest);
    assert f[|a|..] == b + rest;
    HandleRoundTrip(index, rest);
    FixedAt(f, n, MAGIC_LOW);
    FixedAt(f, n + 4, MAGIC_HIGH);
  }
}
