/** What a log reader returns for any file, damaged or not (db/log_reader.cc). */
module LogSoundness {
  import opened Coding
  import opened Sequences
  import opened LogFormat
  import Crc32c

  /** A physical record in a file: its checksum is right. */
  datatype Piece = Piece(pos: nat, typ: Byte, data: seq<Byte>)

  ghost predicate PieceAt(f: seq<Byte>, p: Piece) {
    |p.data| <= 0xffff && At(f, p.pos, Physical(p.typ, p.data))
  }

  function PieceEnd(p: Piece): nat {
    p.pos + HEADER_SIZE + |p.data|
  }

  /** Nothing is between the two but the filler at the end of a block, which is shorter than a header. */
  ghost predicate Follows(p: Piece, q: Piece) {
    PieceEnd(p) <= q.pos < PieceEnd(p) + 7
  }

  /** Pieces that follow each other in the file, from one position on and up to another. */
  ghost predicate PiecesAt(f: seq<Byte>, ps: seq<Piece>, start: nat, end: nat) {
    && (forall i :: 0 <= i < |ps| ==> PieceAt(f, ps[i]) && start <= ps[i].pos)
    && (forall i :: 0 < i < |ps| ==> Follows(ps[i - 1], ps[i]))
    && (ps != [] ==> PieceEnd(ps[|ps| - 1]) == end)
  }

  function Joined(ps: seq<Piece>): seq<Byte> {
    if ps == [] then [] else Joined(ps[..|ps| - 1]) + ps[|ps| - 1].data
  }

  /** A first piece and perhaps middle pieces. */
  ghost predicate IsBegun(ps: seq<Piece>) {
    ps != [] && ps[0].typ == 2 && forall i :: 0 < i < |ps| ==> ps[i].typ == 3
  }

  /** One full piece, or a first, middle ones and a last. */
  ghost predicate IsWhole(ps: seq<Piece>) {
    || (|ps| == 1 && ps[0].typ == 1)
    || (|ps| >= 2 && IsBegun(ps[..|ps| - 1]) && ps[|ps| - 1].typ == 4)
  }

  /** The record was put together from physical records of the file. */
  ghost predicate IsGenuine(f: seq<Byte>, start: nat, end: nat, record: Record) {
    exists ps :: PiecesAt(f, ps, start, end) && IsWhole(ps) && Joined(ps) == record
  }

  /** Whatever passes the checks is a physical record. */
  lemma PhysicalOfFields(b: seq<Byte>, length: nat)
    requires 7 + length <= |b| && length == Length(b[4], b[5])
    requires Crc32c.Value(b[6..7 + length]) == Crc32c.Unmask(FromFixed32(b[..4]))
    ensures length <= 0xffff && b[..7 + length] == Physical(b[6], b[7..7 + length])
  {
    hide Crc32c.Value, Crc32c.Mask, Crc32c.Unmask, Fixed, FromFixed;
    var data := b[7..7 + length];
    assert b[6..7 + length] == [b[6]] + data;
    Crc32c.MaskUnmask(FromFixed32(b[..4]));
    BytesRoundTrip(b[..4]);
    LengthBytes(b[4], b[5]);
    assert b[..7 + length] == b[..4] + [b[4], b[5], b[6]] + data;
  }

  lemma LengthBytes(low: Byte, high: Byte)
    ensures Length(low, high) <= 0xffff && Length(low, high) % 256 == low && Length(low, high) / 256 == high
  {
  }

  /** A wrong checksum drops the rest of the block, and so does a length that does not fit in it; the bytes
      dropped are reported.  A block that goes on with zeros is dropped without a report. */
  lemma DamageDropsBlock(f: seq<Byte>, pos: nat, end: nat)
    requires pos + 7 <= end <= |f| && end == (pos / 32768 + 1) * 32768
    ensures U16At(f, pos + 4) == 0 && f[pos + 6] == 0 ==> Parse(f, pos) == Parsed(6, [], end, [])
    ensures U16At(f, pos + 4) > end - pos - 7 ==> Parse(f, pos) == Parsed(6, [], end, [end - pos])
    ensures U16At(f, pos + 4) <= end - pos - 7 && (f[pos + 6] != 0 || U16At(f, pos + 4) != 0)
            && U32At(f, pos) != Crc32c.Mask(Crc32c.Value(f[pos + 6..pos + 7 + U16At(f, pos + 4)])) ==>
              Parse(f, pos) == Parsed(6, [], end, [end - pos])
  {
    hide Crc32c.Value, Crc32c.Mask, Crc32c.Unmask, FromFixed, U32At;
    BlockOffsetIsRemainder(pos);
    hide BlockOffset;
    assert BlockEnd(pos) == end;
    var b := RestOfBlock(f, pos);
    assert b == f[pos..end];
    var n := U16At(f, pos + 4);
    assert Length(b[4], b[5]) == n;
    if n <= end - pos - 7 {
      SliceOfSlice(f, pos, end, 6, 7 + n);
      SliceOfSlice(f, pos, end, 0, 4);
      FromFixedAt(f, pos);
      Crc32c.MaskUnmask(FromFixed32(b[..4]));
    }
  }

  /** The parser returns nothing else with one of the four types. */
  lemma {:induction false} ParseIsSound(f: seq<Byte>, pos: nat)
    requires pos <= |f|
    ensures var r := Parse(f, pos);
            1 <= r.typ <= 4 ==>
              pos + 7 + |r.data| <= r.pos < pos + 14 + |r.data| && PieceAt(f, Piece(r.pos - 7 - |r.data|, r.typ, r.data))
    decreases |f| - pos
  {
    hide Crc32c.Value, Crc32c.Unmask, FromFixed32, Physical, BlockOffset;
    var last, b := BlockEnd(pos) > |f|, RestOfBlock(f, pos);
    if |b| < HEADER_SIZE {
      if !last {
        assert BlockEnd(pos) < pos + 7;
        NextBlock(pos);
        ParseAtBlock(f, BlockEnd(pos));
        ParseIsSound(f, BlockEnd(pos));
      }
    } else {
      var r, length := Parse(f, pos), Length(b[4], b[5]);
      if 1 <= r.typ <= 4 {
        PhysicalOfFields(b, length);
        assert f[pos..pos + 7 + length] == b[..7 + length];
      }
    }
  }

  lemma NextBlock(pos: nat)
    ensures BlockOffset(BlockEnd(pos)) == 0
  {
    hide BlockOffset;
    BlockOffsetIsRemainder(pos);
    BlockOffsetIsRemainder(BlockEnd(pos));
  }

  /** At the start of a block nothing is skipped. */
  lemma ParseAtBlock(f: seq<Byte>, pos: nat)
    requires pos <= |f| && BlockOffset(pos) == 0
    ensures var r := Parse(f, pos); 1 <= r.typ <= 4 ==> r.pos == pos + 7 + |r.data|
  {
    hide Crc32c.Value, Crc32c.Unmask, FromFixed32, BlockOffset;
  }

  lemma Started(f: seq<Byte>, start: nat, p: Piece, end: nat)
    requires PieceAt(f, p) && start <= p.pos && PieceEnd(p) == end
    ensures PiecesAt(f, [p], start, end) && Joined([p]) == p.data
  {
    hide Physical;
    assert [p][..0] == [];
  }

  lemma OneMore(f: seq<Byte>, ps: seq<Piece>, start: nat, mid: nat, p: Piece, end: nat)
    requires ps != [] && PiecesAt(f, ps, start, mid) && PieceAt(f, p) && start <= mid <= p.pos < mid + 7 && PieceEnd(p) == end
    ensures PiecesAt(f, ps + [p], start, end) && Joined(ps + [p]) == Joined(ps) + p.data
    ensures (ps + [p])[..|ps|] == ps
  {
    hide PieceAt, PieceEnd, Joined, PiecesAt;
    assert (ps + [p])[..|ps|] == ps;
    PiecesOneMore(f, ps, start, mid, p, end);
    JoinedOneMore(ps, p);
  }

  lemma JoinedOneMore(ps: seq<Piece>, p: Piece)
    ensures Joined(ps + [p]) == Joined(ps) + p.data
  {
    assert (ps + [p])[..|ps|] == ps;
  }

  lemma PiecesOneMore(f: seq<Byte>, ps: seq<Piece>, start: nat, mid: nat, p: Piece, end: nat)
    requires ps != [] && PiecesAt(f, ps, start, mid) && PieceAt(f, p) && start <= mid <= p.pos < mid + 7 && PieceEnd(p) == end
    ensures PiecesAt(f, ps + [p], start, end)
  {
    hide PieceAt, PieceEnd;
    var ps' := ps + [p];
    forall i | 0 <= i < |ps'| ensures PieceAt(f, ps'[i]) && start <= ps'[i].pos {
      if i < |ps| { assert ps'[i] == ps[i]; }
    }
    forall i | 0 < i < |ps'| ensures Follows(ps'[i - 1], ps'[i]) {
      assert ps'[i - 1] == ps[i - 1];
      if i < |ps| { assert Follows(ps[i - 1], ps[i]); }
    }
  }

  /** The fragments in hand are pieces of the file; `ps` names them. */
  ghost predicate InHand(f: seq<Byte>, start: nat, pos: nat, inFragmented: bool, scratch: seq<Byte>, ps: seq<Piece>) {
    inFragmented ==> PiecesAt(f, ps, start, pos) && IsBegun(ps) && Joined(ps) == scratch
  }

  /** Handling one physical record. */
  lemma HandleIsSound(f: seq<Byte>, start: nat, pos: nat, inFragmented: bool, scratch: seq<Byte>, ps: seq<Piece>)
    returns (ps': seq<Piece>)
    requires start <= pos <= |f| && InHand(f, start, pos, inFragmented, scratch, ps)
    ensures var r := Parse(f, pos);
            match Handle(r.typ, r.data, inFragmented, scratch)
            case Return(found, record, _) => found ==> IsGenuine(f, start, r.pos, record)
            case Continue(inFragmented', scratch', _) => InHand(f, start, r.pos, inFragmented', scratch', ps')
  {
    hide Parse, PieceAt, PiecesAt, Joined;
    var r := Parse(f, pos);
    ps' := ps;
    ParseIsSound(f, pos);
    if 1 <= r.typ <= 4 {
      var p := Piece(r.pos - 7 - |r.data|, r.typ, r.data);
      if r.typ <= 2 {
        Started(f, start, p, r.pos);
        ps' := [p];
      } else if inFragmented {
        OneMore(f, ps, start, pos, p, r.pos);
        ps' := ps + [p];
      }
    }
  }

  /** Whatever a file holds, each record that is read from it is genuine: one full physical record, or the
      fragments of a first, middle ones and a last, in the order of the file, each with the right checksum. */
  lemma {:induction false} ReadIsSound(f: seq<Byte>, start: nat, pos: nat, inFragmented: bool, scratch: seq<Byte>, ps: seq<Piece>)
    requires start <= pos <= |f| && InHand(f, start, pos, inFragmented, scratch, ps)
    ensures var r := ReadFrom(f, pos, inFragmented, scratch); r.found ==> IsGenuine(f, start, r.pos, r.record)
    decreases |f| - pos
  {
    hide Parse, Handle, InHand, IsGenuine;
    var p := Parse(f, pos);
    var ps' := HandleIsSound(f, start, pos, inFragmented, scratch, ps);
    var t := Handle(p.typ, p.data, inFragmented, scratch);
    if t.Continue? {
      ReadIsSound(f, start, p.pos, t.inFragmented, t.scratch, ps');
    }
  }

  /** Record i comes from its own stretch of the file. */
  ghost predicate Placed(f: seq<Byte>, ends: seq<nat>, rs: seq<Record>, i: nat) {
    && i < |rs| && i + 1 < |ends| && ends[i] < ends[i + 1] <= |f|
    && IsGenuine(f, ends[i], ends[i + 1], rs[i])
  }

  /** All records of a file are genuine, and none uses bytes that another has used. */
  lemma {:induction false} AllRecordsAreGenuine(f: seq<Byte>, pos: nat) returns (ends: seq<nat>)
    requires pos <= |f|
    ensures var rs := ReadAll(f, pos).0;
            && |ends| == |rs| + 1 && ends[0] == pos
            && forall i :: 0 <= i < |rs| ==> Placed(f, ends, rs, i)
    decreases |f| - pos
  {
    hide Parse, Handle, IsGenuine, ReadFrom;
    var r := ReadFrom(f, pos, false, []);
    if r.found {
      ReadIsSound(f, pos, pos, false, [], []);
      var rest := AllRecordsAreGenuine(f, r.pos);
      ends := [pos] + rest;
      var rs := ReadAll(f, pos).0;
      forall i | 0 <= i < |rs| ensures Placed(f, ends, rs, i) {
        if i > 0 { assert Placed(f, rest, ReadAll(f, r.pos).0, i - 1); }
      }
    } else {
      ends := [pos];
    }
  }
}
