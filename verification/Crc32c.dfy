/** The checksum of log records and table blocks (util/crc32c.h, util/crc32c.cc), by the one-byte step
    that the source's faster paths speed up. */
module Crc32c {
  import opened Coding

  const BYTE_BITS: nat := 8
  const WORD_BITS: nat := 32
  const CRC32_XOR: Uint32 := 0xffff_ffff
  const POLYNOMIAL: Uint32 := 0x82f6_3b78
  const MASK_DELTA: Uint32 := 0xa282_ead8

  /** Exclusive or of the low n bits. */
  function XorBits(a: nat, b: nat, n: nat): (r: nat)
    ensures r < Power2(n)
  {
    if n == 0 then 0 else (a % 2 + b % 2) % 2 + 2 * XorBits(a / 2, b / 2, n - 1)
  }

  lemma XorStep(a: nat, b: nat, n: nat)
    requires n > 0
    ensures XorBits(a, b, n) == (a % 2 + b % 2) % 2 + 2 * XorBits(a / 2, b / 2, n - 1)
  {
  }

  lemma {:induction false} XorTwice(a: nat, b: nat, n: nat)
    requires a < Power2(n)
    ensures XorBits(XorBits(a, b, n), b, n) == a
  {
    if n > 0 {
      XorTwice(a / 2, b / 2, n - 1);
      XorStep(a, b, n);
      XorStep(XorBits(a, b, n), b, n);
      hide XorBits;
      LowBit((a % 2 + b % 2) % 2, XorBits(a / 2, b / 2, n - 1));
      BitTwice(a % 2, b % 2);
    }
  }

  lemma BitTwice(x: nat, y: nat)
    requires x < 2 && y < 2
    ensures ((x + y) % 2 + y) % 2 == x
  {
  }

  lemma LowBit(bit: nat, rest: nat)
    requires bit < 2
    ensures (bit + 2 * rest) % 2 == bit && (bit + 2 * rest) / 2 == rest
  {
  }

  lemma {:induction false} Power2Add(m: nat, n: nat)
    ensures Power2(m + n) == Power2(m) * Power2(n)
  {
    if m > 0 { Power2Add(m - 1, n); }
  }

  lemma WordRange()
    ensures Power2(WORD_BITS) == 0x1_0000_0000
  {
    assert Power2(8) == 256;
    Power2Add(8, 8);
    Power2Add(16, 16);
  }

  function Xor(a: Uint32, b: Uint32): Uint32 {
    WordRange();
    XorBits(a, b, WORD_BITS)
  }

  lemma XorCancels(a: Uint32, b: Uint32)
    ensures Xor(Xor(a, b), b) == a
  {
    WordRange();
    XorTwice(a, b, WORD_BITS);
  }

  /** One entry of kByteExtensionTable: eight shifts of a byte through the polynomial. */
  function TableEntry(c: Uint32, shifts: nat): Uint32
    decreases shifts
  {
    if shifts == 0 then c
    else TableEntry(if c % 2 == 1 then Xor(c / 2, POLYNOMIAL) else c / 2, shifts - 1)
  }

  /** STEP1 */
  function Step(l: Uint32, b: Byte): Uint32 {
    Xor(TableEntry(Xor(l % 256, b) % 256, BYTE_BITS), l / 256)
  }

  function Fold(l: Uint32, data: seq<Byte>): Uint32 {
    if data == [] then l else Step(Fold(l, data[..|data| - 1]), data[|data| - 1])
  }

  function Extended(crc: Uint32, data: seq<Byte>): Uint32 {
    Xor(Fold(Xor(crc, CRC32_XOR), data), CRC32_XOR)
  }

  function Value(data: seq<Byte>): Uint32 {
    Extended(0, data)
  }

  method Extend(crc: Uint32, data: seq<Byte>) returns (r: Uint32)
    ensures r == Extended(crc, data)
  {
    var l := Xor(crc, CRC32_XOR);
    for i := 0 to |data|
      invariant l == Fold(Xor(crc, CRC32_XOR), data[..i])
    {
      assert data[..i + 1][..i] == data[..i];
      l := Step(l, data[i]);
    }
    assert data[..|data|] == data;
    r := Xor(l, CRC32_XOR);
  }

  lemma {:induction false} FoldConcat(l: Uint32, a: seq<Byte>, b: seq<Byte>)
    ensures Fold(l, a + b) == Fold(Fold(l, a), b)
  {
    if b == [] {
      assert a + b == a;
    } else {
      FoldConcat(l, a, b[..|b| - 1]);
      assert (a + b)[..|a + b| - 1] == a + b[..|b| - 1];
    }
  }

  /** Extend really extends: it turns the checksum of a into the checksum of a followed by b. */
  lemma ExtendConcat(crc: Uint32, a: seq<Byte>, b: seq<Byte>)
    ensures Extended(Extended(crc, a), b) == Extended(crc, a + b)
  {
    XorCancels(Fold(Xor(crc, CRC32_XOR), a), CRC32_XOR);
    FoldConcat(Xor(crc, CRC32_XOR), a, b);
  }

  // ---------------------------------------------------------------- some of its values

  lemma {:induction false} XorZero(a: nat, n: nat)
    requires a < Power2(n)
    ensures XorBits(0, a, n) == a && XorBits(a, 0, n) == a
  {
    if n > 0 { XorZero(a / 2, n - 1); }
  }

  lemma {:induction false} XorSelf(a: nat, n: nat)
    ensures XorBits(a, a, n) == 0
  {
    if n > 0 { XorSelf(a / 2, n - 1); }
  }

  /** Exclusive or with all ones is the complement. */
  lemma {:induction false} XorOnes(a: nat, n: nat)
    requires a < Power2(n)
    ensures XorBits(a, Power2(n) - 1, n) == Power2(n) - 1 - a
  {
    if n > 0 {
      XorOnes(a / 2, n - 1);
      assert (Power2(n) - 1) / 2 == Power2(n - 1) - 1 && (Power2(n) - 1) % 2 == 1;
    }
  }

  /** An even number is only shifted. */
  lemma TableShift(c: Uint32, shifts: nat)
    requires c % 2 == 0
    ensures TableEntry(c, shifts + 1) == TableEntry(c / 2, shifts)
  {
  }

  lemma {:induction false} TableZero(shifts: nat)
    ensures TableEntry(0, shifts) == 0
  {
    if shifts > 0 { TableZero(shifts - 1); }
  }

  /** A one that is shifted out is replaced by the polynomial. */
  lemma TableOne(shifts: nat)
    ensures TableEntry(1, shifts + 1) == TableEntry(0x82f6_3b78, shifts)
  {
    hide XorBits;
    WordRange();
    XorZero(0x82f6_3b78, WORD_BITS);
    assert Xor(0, 0x82f6_3b78) == 0x82f6_3b78;
    hide Xor;
  }

  lemma TableSixteen(shifts: nat)
    ensures TableEntry(16, shifts + 5) == TableEntry(1, shifts + 1)
  {
    hide TableEntry;
    TableShift(16, shifts + 4);
    TableShift(8, shifts + 3);
    TableShift(4, shifts + 2);
    TableShift(2, shifts + 1);
  }

  /** Four entries of kByteExtensionTable. */
  lemma TableEntries()
    ensures TableEntry(128, 8) == 0x82f6_3b78
    ensures TableEntry(64, 8) == 0x417b_1dbc
    ensures TableEntry(32, 8) == 0x20bd_8ede
    ensures TableEntry(16, 8) == 0x105e_c76f
  {
    PolynomialShifted();
    hide TableEntry;
    TableSixteen(0);
    TableSixteen(1);
    TableSixteen(2);
    TableSixteen(3);
    TableShift(128, 7);
    TableShift(64, 6);
    TableShift(64, 7);
    TableShift(32, 5);
    TableShift(32, 6);
    TableShift(32, 7);
    TableOne(0);
    TableOne(1);
    TableOne(2);
    TableOne(3);
  }

  lemma PolynomialShifted()
    ensures TableEntry(0x82f6_3b78, 0) == 0x82f6_3b78
    ensures TableEntry(0x82f6_3b78, 1) == 0x417b_1dbc
    ensures TableEntry(0x82f6_3b78, 2) == 0x20bd_8ede
    ensures TableEntry(0x82f6_3b78, 3) == 0x105e_c76f
  {
    TableShift(0x82f6_3b78, 0);
    TableShift(0x82f6_3b78, 1);
    TableShift(0x82f6_3b78, 2);
    TableShift(0x417b_1dbc, 0);
    TableShift(0x417b_1dbc, 1);
    TableShift(0x20bd_8ede, 0);
  }

  /** Feeding in the low byte shifts it out. */
  lemma StepShifts(l: Uint32)
    ensures Step(l, l % 256) == l / 256
  {
    hide XorBits, TableEntry;
    WordRange();
    XorSelf(l % 256, WORD_BITS);
    XorZero(l / 256, WORD_BITS);
    TableZero(BYTE_BITS);
  }

  /** A byte that meets zeros is looked up. */
  lemma StepLooksUp(b: Byte)
    ensures Step(0, b) == TableEntry(b, 8)
  {
    hide XorBits, TableEntry;
    WordRange();
    XorZero(b, WORD_BITS);
    XorZero(TableEntry(b, BYTE_BITS), WORD_BITS);
  }

  /** Both ends of the computation are complemented. */
  lemma ComplementedEnds(b: Byte)
    ensures Extended(0xffff_ffff, [b]) == 0xffff_ffff - TableEntry(b, 8)
    ensures Extended(0, []) == 0
  {
    hide XorBits, TableEntry, Step;
    WordRange();
    XorSelf(0xffff_ffff, WORD_BITS);
    XorOnes(TableEntry(b, 8), WORD_BITS);
    StepLooksUp(b);
    XorCancels(0, CRC32_XOR);
    assert [b][..0] == [];
    assert Fold(0, [b]) == Step(Fold(0, []), b);
  }

  // ---------------------------------------------------------------- masking

  /** Rotate right by 15 bits and add a constant, in 32 bits. */
  function Mask(crc: Uint32): Uint32 {
    (crc / 0x8000 + (crc % 0x8000) * 0x2_0000 + MASK_DELTA) % 0x1_0000_0000
  }

  function Unmask(masked: Uint32): Uint32 {
    var rot := (masked - MASK_DELTA) % 0x1_0000_0000;
    rot / 0x2_0000 + (rot % 0x2_0000) * 0x8000
  }

  /** Rotate right by 15 bits and add 0xa282ead8. */
  lemma MaskValues(high: nat, low: nat)
    requires high < 0x2_0000 && low < 0x8000
    ensures Mask(high * 0x8000 + low) == (low * 0x2_0000 + high + 0xa282_ead8) % 0x1_0000_0000
  {
    var crc := high * 0x8000 + low;
    assert crc / 0x8000 == high;
    assert crc % 0x8000 == low;
  }

  lemma UnmaskMask(crc: Uint32)
    ensures Unmask(Mask(crc)) == crc
  {
    Digits(crc % 0x8000, crc / 0x8000);
    AddWraps(crc / 0x8000 + (crc % 0x8000) * 0x2_0000, MASK_DELTA);
  }

  lemma AddWraps(x: Uint32, d: Uint32)
    ensures ((x + d) % 0x1_0000_0000 - d) % 0x1_0000_0000 == x
  {
    if x + d < 0x1_0000_0000 {
      assert (x + d) % 0x1_0000_0000 == x + d;
    } else {
      assert (x + d) % 0x1_0000_0000 == x + d - 0x1_0000_0000;
    }
  }

  lemma Digits(high: nat, low: nat)
    requires low < 0x2_0000
    ensures (low + high * 0x2_0000) / 0x2_0000 == high && (low + high * 0x2_0000) % 0x2_0000 == low
  {
  }

  lemma MaskUnmask(masked: Uint32)
    ensures Mask(Unmask(masked)) == masked
  {
    var rot := (masked - MASK_DELTA) % 0x1_0000_0000;
    assert Unmask(masked) / 0x8000 == rot % 0x2_0000 && Unmask(masked) % 0x8000 == rot / 0x2_0000;
  }
}
