/** The constant tables of the encoder and of the decoder, entry by entry, and
    the facts that tie them to each other and to sections 3.2.5 and 3.2.6 of RFC 1951. */
module Tables {
  import opened Bits

  /** The encoder's table of bit-reversed bytes: four groups of eight rows of eight. */
  function MirrorRows0(h: nat): (row: seq<byte>)
    requires h < 8
    ensures |row| == 8
  {
    match h
    case 0 => [0x00, 0x80, 0x40, 0xc0, 0x20, 0xa0, 0x60, 0xe0]
    case 1 => [0x10, 0x90, 0x50, 0xd0, 0x30, 0xb0, 0x70, 0xf0]
    case 2 => [0x08, 0x88, 0x48, 0xc8, 0x28, 0xa8, 0x68, 0xe8]
    case 3 => [0x18, 0x98, 0x58, 0xd8, 0x38, 0xb8, 0x78, 0xf8]
    case 4 => [0x04, 0x84, 0x44, 0xc4, 0x24, 0xa4, 0x64, 0xe4]
    case 5 => [0x14, 0x94, 0x54, 0xd4, 0x34, 0xb4, 0x74, 0xf4]
    case 6 => [0x0c, 0x8c, 0x4c, 0xcc, 0x2c, 0xac, 0x6c, 0xec]
    case _ => [0x1c, 0x9c, 0x5c, 0xdc, 0x3c, 0xbc, 0x7c, 0xfc]
  }

  function MirrorRows1(h: nat): (row: seq<byte>)
    requires h < 8
    ensures |row| == 8
  {
    match h
    case 0 => [0x02, 0x82, 0x42, 0xc2, 0x22, 0xa2, 0x62, 0xe2]
    case 1 => [0x12, 0x92, 0x52, 0xd2, 0x32, 0xb2, 0x72, 0xf2]
    case 2 => [0x0a, 0x8a, 0x4a, 0xca, 0x2a, 0xaa, 0x6a, 0xea]
    case 3 => [0x1a, 0x9a, 0x5a, 0xda, 0x3a, 0xba, 0x7a, 0xfa]
    case 4 => [0x06, 0x86, 0x46, 0xc6, 0x26, 0xa6, 0x66, 0xe6]
    case 5 => [0x16, 0x96, 0x56, 0xd6, 0x36, 0xb6, 0x76, 0xf6]
    case 6 => [0x0e, 0x8e, 0x4e, 0xce, 0x2e, 0xae, 0x6e, 0xee]
    case _ => [0x1e, 0x9e, 0x5e, 0xde, 0x3e, 0xbe, 0x7e, 0xfe]
  }

  function MirrorRows2(h: nat): (row: seq<byte>)
    requires h < 8
    ensures |row| == 8
  {
    match h
    case 0 => [0x01, 0x81, 0x41, 0xc1, 0x21, 0xa1, 0x61, 0xe1]
    case 1 => [0x11, 0x91, 0x51, 0xd1, 0x31, 0xb1, 0x71, 0xf1]
    case 2 => [0x09, 0x89, 0x49, 0xc9, 0x29, 0xa9, 0x69, 0xe9]
    case 3 => [0x19, 0x99, 0x59, 0xd9, 0x39, 0xb9, 0x79, 0xf9]
    case 4 => [0x05, 0x85, 0x45, 0xc5, 0x25, 0xa5, 0x65, 0xe5]
    case 5 => [0x15, 0x95, 0x55, 0xd5, 0x35, 0xb5, 0x75, 0xf5]
    case 6 => [0x0d, 0x8d, 0x4d, 0xcd, 0x2d, 0xad, 0x6d, 0xed]
    case _ => [0x1d, 0x9d, 0x5d, 0xdd, 0x3d, 0xbd, 0x7d, 0xfd]
  }

  function MirrorRows3(h: nat): (row: seq<byte>)
    requires h < 8
    ensures |row| == 8
  {
    match h
    case 0 => [0x03, 0x83, 0x43, 0xc3, 0x23, 0xa3, 0x63, 0xe3]
    case 1 => [0x13, 0x93, 0x53, 0xd3, 0x33, 0xb3, 0x73, 0xf3]
    case 2 => [0x0b, 0x8b, 0x4b, 0xcb, 0x2b, 0xab, 0x6b, 0xeb]
    case 3 => [0x1b, 0x9b, 0x5b, 0xdb, 0x3b, 0xbb, 0x7b, 0xfb]
    case 4 => [0x07, 0x87, 0x47, 0xc7, 0x27, 0xa7, 0x67, 0xe7]
    case 5 => [0x17, 0x97, 0x57, 0xd7, 0x37, 0xb7, 0x77, 0xf7]
    case 6 => [0x0f, 0x8f, 0x4f, 0xcf, 0x2f, 0xaf, 0x6f, 0xef]
    case _ => [0x1f, 0x9f, 0x5f, 0xdf, 0x3f, 0xbf, 0x7f, 0xff]
  }

  function MirrorByte(x: byte): byte {
    var g, h, c := x / 64, x / 8 % 8, x % 8;
    if g == 0 then MirrorRows0(h)[c]
    else if g == 1 then MirrorRows1(h)[c]
    else if g == 2 then MirrorRows2(h)[c]
    else MirrorRows3(h)[c]
  }

  const REV3: seq<nat> := [0, 4, 2, 6, 1, 5, 3, 7]
  const REV2: seq<nat> := [0, 2, 1, 3]

  predicate IsMirrorRow(b: nat, row: seq<byte>)
    requires |row| == 8
  {
    && row[0] == b && row[1] == b + 128 && row[2] == b + 64 && row[3] == b + 192
    && row[4] == b + 32 && row[5] == b + 160 && row[6] == b + 96 && row[7] == b + 224
  }

  lemma MirrorRows0Ok()
    ensures forall h: nat | h < 8 :: IsMirrorRow(0 + 4 * REV3[h], MirrorRows0(h))
  {
    assert IsMirrorRow(0, MirrorRows0(0));
    assert IsMirrorRow(16, MirrorRows0(1));
    assert IsMirrorRow(8, MirrorRows0(2));
    assert IsMirrorRow(24, MirrorRows0(3));
    assert IsMirrorRow(4, MirrorRows0(4));
    assert IsMirrorRow(20, MirrorRows0(5));
    assert IsMirrorRow(12, MirrorRows0(6));
    assert IsMirrorRow(28, MirrorRows0(7));
  }

  lemma MirrorRows1Ok()
    ensures forall h: nat | h < 8 :: IsMirrorRow(2 + 4 * REV3[h], MirrorRows1(h))
  {
    assert IsMirrorRow(2, MirrorRows1(0));
    assert IsMirrorRow(18, MirrorRows1(1));
    assert IsMirrorRow(10, MirrorRows1(2));
    assert IsMirrorRow(26, MirrorRows1(3));
    assert IsMirrorRow(6, MirrorRows1(4));
    assert IsMirrorRow(22, MirrorRows1(5));
    assert IsMirrorRow(14, MirrorRows1(6));
    assert IsMirrorRow(30, MirrorRows1(7));
  }

  lemma MirrorRows2Ok()
    ensures forall h: nat | h < 8 :: IsMirrorRow(1 + 4 * REV3[h], MirrorRows2(h))
  {
    assert IsMirrorRow(1, MirrorRows2(0));
    assert IsMirrorRow(17, MirrorRows2(1));
    assert IsMirrorRow(9, MirrorRows2(2));
    assert IsMirrorRow(25, MirrorRows2(3));
    assert IsMirrorRow(5, MirrorRows2(4));
    assert IsMirrorRow(21, MirrorRows2(5));
    assert IsMirrorRow(13, MirrorRows2(6));
    assert IsMirrorRow(29, MirrorRows2(7));
  }

  lemma MirrorRows3Ok()
    ensures forall h: nat | h < 8 :: IsMirrorRow(3 + 4 * REV3[h], MirrorRows3(h))
  {
    assert IsMirrorRow(3, MirrorRows3(0));
    assert IsMirrorRow(19, MirrorRows3(1));
    assert IsMirrorRow(11, MirrorRows3(2));
    assert IsMirrorRow(27, MirrorRows3(3));
    assert IsMirrorRow(7, MirrorRows3(4));
    assert IsMirrorRow(23, MirrorRows3(5));
    assert IsMirrorRow(15, MirrorRows3(6));
    assert IsMirrorRow(31, MirrorRows3(7));
  }

  lemma MirrorEntry(x: byte)
    ensures MirrorByte(x) == REV2[x / 64] + 4 * (REV3[x / 8 % 8] + 8 * REV3[x % 8])
  {
    hide MirrorRows0, MirrorRows1, MirrorRows2, MirrorRows3;
    MirrorRows0Ok(); MirrorRows1Ok(); MirrorRows2Ok(); MirrorRows3Ok();
  }

  lemma ThreeBits(v: nat)
    ensures ToBits(v, 3) == [v % 2 == 1, v / 2 % 2 == 1, v / 2 / 2 % 2 == 1]
    ensures MsbBits(v, 3) == [v / 2 / 2 % 2 == 1, v / 2 % 2 == 1, v % 2 == 1]
    ensures ToBits(v, 2) == [v % 2 == 1, v / 2 % 2 == 1]
    ensures MsbBits(v, 2) == [v / 2 % 2 == 1, v % 2 == 1]
  {
    assert ToBits(v / 2 / 2, 1) == [v / 2 / 2 % 2 == 1];
    assert MsbBits(v / 2 / 2, 1) == [v / 2 / 2 % 2 == 1];
  }

  lemma Reversals3()
    ensures forall c: nat | c < 8 :: ToBits(REV3[c], 3) == MsbBits(c, 3)
  {
    forall c: nat | c < 8
      ensures ToBits(REV3[c], 3) == MsbBits(c, 3)
    {
      hide ToBits, MsbBits;
      ThreeBits(c);
      ThreeBits(REV3[c]);
    }
  }

  lemma SmallReversals(g: nat, c: nat)
    requires g < 4 && c < 8
    ensures ToBits(REV3[c], 3) == MsbBits(c, 3)
    ensures ToBits(REV2[g], 2) == MsbBits(g, 2)
  {
    hide ToBits, MsbBits;
    Reversals3();
    ThreeBits(g);
    ThreeBits(REV2[g]);
  }

  lemma SmallShifts(v: nat)
    ensures Shl(v, 2) == 4 * v && Shl(v, 3) == 8 * v && Shl(v, 6) == 64 * v
  {
    assert Shl(v, 2) == 2 * Shl(v, 1) && Shl(v, 3) == 2 * Shl(v, 2) && Shl(v, 4) == 2 * Shl(v, 3);
    assert Shl(v, 5) == 2 * Shl(v, 4) && Shl(v, 6) == 2 * Shl(v, 5);
  }

  lemma MirrorIsMsb(x: byte)
    ensures ToBits(MirrorByte(x), 8) == MsbBits(x, 8)
  {
    hide MirrorByte, ToBits, MsbBits, Shl;
    var g, h, c := x / 64, x / 8 % 8, x % 8;
    var y := REV3[h] + 8 * REV3[c];
    MirrorEntry(x);
    SmallReversals(g, h); SmallReversals(g, c);
    SmallShifts(REV3[c]); SmallShifts(y); SmallShifts(h); SmallShifts(g);
    ToBitsAdd(REV3[h], REV3[c], 3, 3);
    ToBitsAdd(REV2[g], y, 2, 6);
    MsbBitsAdd(h, c, 3, 3);
    MsbBitsAdd(g, 8 * h + c, 2, 6);
    assert x == 64 * g + (8 * h + c);
  }

  /** One row of the encoder's length table; `min` and `max` are match lengths minus 3. */
  datatype LenCode = LenCode(extrabits: nat, min: nat, max: nat)
  datatype DistCode = DistCode(code: nat, extrabits: nat, min: nat, max: nat)

  const LENCODES: seq<LenCode> := [
    LenCode(0, 0, 0), LenCode(0, 1, 1), LenCode(0, 2, 2), LenCode(0, 3, 3),
    LenCode(0, 4, 4), LenCode(0, 5, 5), LenCode(0, 6, 6), LenCode(0, 7, 7),
    LenCode(1, 8, 9), LenCode(1, 10, 11), LenCode(1, 12, 13), LenCode(1, 14, 15),
    LenCode(2, 16, 19), LenCode(2, 20, 23), LenCode(2, 24, 27), LenCode(2, 28, 31),
    LenCode(3, 32, 39), LenCode(3, 40, 47), LenCode(3, 48, 55), LenCode(3, 56, 63),
    LenCode(4, 64, 79), LenCode(4, 80, 95), LenCode(4, 96, 111), LenCode(4, 112, 127),
    LenCode(5, 128, 159), LenCode(5, 160, 191), LenCode(5, 192, 223), LenCode(5, 224, 254),
    LenCode(0, 255, 255)
  ]

  const DISTCODES: seq<DistCode> := [
    DistCode(0, 0, 1, 1), DistCode(1, 0, 2, 2), DistCode(2, 0, 3, 3), DistCode(3, 0, 4, 4),
    DistCode(4, 1, 5, 6), DistCode(5, 1, 7, 8), DistCode(6, 2, 9, 12), DistCode(7, 2, 13, 16),
    DistCode(8, 3, 17, 24), DistCode(9, 3, 25, 32), DistCode(10, 4, 33, 48), DistCode(11, 4, 49, 64),
    DistCode(12, 5, 65, 96), DistCode(13, 5, 97, 128), DistCode(14, 6, 129, 192), DistCode(15, 6, 193, 256),
    DistCode(16, 7, 257, 384), DistCode(17, 7, 385, 512), DistCode(18, 8, 513, 768), DistCode(19, 8, 769, 1024),
    DistCode(20, 9, 1025, 1536), DistCode(21, 9, 1537, 2048), DistCode(22, 10, 2049, 3072),
    DistCode(23, 10, 3073, 4096),
    DistCode(24, 11, 4097, 6144), DistCode(25, 11, 6145, 8192), DistCode(26, 12, 8193, 12288),
    DistCode(27, 12, 12289, 16384),
    DistCode(28, 13, 16385, 24576), DistCode(29, 13, 24577, 32768)
  ]

  /** The decoder's tables; entries past the initialisers are zero. */
  const LENGTH_BITS: seq<nat> := [
    0, 0, 0, 0, 0, 0, 0, 0, 1, 1, 1, 1, 2, 2, 2, 2, 3, 3, 3, 3, 4, 4, 4, 4, 5, 5, 5, 5, 0, 0]
  const LENGTH_BASE: seq<nat> := [
    3, 4, 5, 6, 7, 8, 9, 10, 11, 13, 15, 17, 19, 23, 27, 31,
    35, 43, 51, 59, 67, 83, 99, 115, 131, 163, 195, 227, 258, 0]
  const DIST_BITS: seq<nat> := [
    0, 0, 0, 0, 1, 1, 2, 2, 3, 3, 4, 4, 5, 5, 6, 6, 7, 7, 8, 8, 9, 9, 10, 10, 11, 11, 12, 12, 13, 13]
  const DIST_BASE: seq<nat> := [
    1, 2, 3, 4, 5, 7, 9, 13, 17, 25, 33, 49, 65, 97, 129, 193,
    257, 385, 513, 769, 1025, 1537, 2049, 3073, 4097, 6145, 8193, 12289, 16385, 24577]

  /** Row `k` of the encoder's length table describes the same lengths as symbol
      257+k of the decoder's, and follows row k-1 without a gap. */
  predicate LengthRowOk(k: nat)
    requires k < 29
  {
    var c := LENCODES[k];
    && c.extrabits == LENGTH_BITS[k] && c.min + 3 == LENGTH_BASE[k]
    && c.min <= c.max < c.min + Pow2(c.extrabits)
    && (if k == 0 then c.min == 0 else c.min == LENCODES[k - 1].max + 1)
    && (k == 28 ==> c.max == 255) && c.extrabits <= 5 && (k < 8 ==> c.extrabits == 0)
  }

  lemma SmallPowers()
    ensures Pow2(0) == 1 && Pow2(1) == 2 && Pow2(2) == 4 && Pow2(3) == 8 && Pow2(4) == 16
    ensures Pow2(5) == 32 && Pow2(6) == 64 && Pow2(7) == 128 && Pow2(8) == 256 && Pow2(9) == 512
    ensures Pow2(10) == 1024 && Pow2(11) == 2048 && Pow2(12) == 4096 && Pow2(13) == 8192
  {}

  lemma LengthRows0()
    ensures forall k: nat | k < 4 :: LengthRowOk(k)
  {
    hide Pow2;
    SmallPowers();
    assert LengthRowOk(0) && LengthRowOk(1) && LengthRowOk(2) && LengthRowOk(3);
  }

  lemma LengthRows1()
    ensures forall k: nat | 4 <= k < 8 :: LengthRowOk(k)
  {
    hide Pow2;
    SmallPowers();
    assert LengthRowOk(4) && LengthRowOk(5) && LengthRowOk(6) && LengthRowOk(7);
  }

  lemma LengthRows2()
    ensures forall k: nat | 8 <= k < 12 :: LengthRowOk(k)
  {
    hide Pow2;
    SmallPowers();
    assert LengthRowOk(8) && LengthRowOk(9) && LengthRowOk(10) && LengthRowOk(11);
  }

  lemma LengthRows3()
    ensures forall k: nat | 12 <= k < 16 :: LengthRowOk(k)
  {
    hide Pow2;
    SmallPowers();
    assert LengthRowOk(12) && LengthRowOk(13) && LengthRowOk(14) && LengthRowOk(15);
  }

  lemma LengthRows4()
    ensures forall k: nat | 16 <= k < 20 :: LengthRowOk(k)
  {
    hide Pow2;
    SmallPowers();
    assert LengthRowOk(16) && LengthRowOk(17) && LengthRowOk(18) && LengthRowOk(19);
  }

  lemma LengthRows5()
    ensures forall k: nat | 20 <= k < 24 :: LengthRowOk(k)
  {
    hide Pow2;
    SmallPowers();
    assert LengthRowOk(20) && LengthRowOk(21) && LengthRowOk(22) && LengthRowOk(23);
  }

  lemma LengthRows6()
    ensures forall k: nat | 24 <= k < 27 :: LengthRowOk(k)
  {
    hide Pow2;
    SmallPowers();
    assert LengthRowOk(24) && LengthRowOk(25) && LengthRowOk(26);
  }

  lemma LengthRows7()
    ensures forall k: nat | 27 <= k < 29 :: LengthRowOk(k)
  {
    hide Pow2;
    SmallPowers();
    assert LengthRowOk(27) && LengthRowOk(28);
  }

  lemma LengthRow(k: nat)
    requires k < 29
    ensures |LENCODES| == 29 && LengthRowOk(k)
  {
    hide LengthRowOk;
    LengthRows0(); LengthRows1(); LengthRows2(); LengthRows3();
    LengthRows4(); LengthRows5(); LengthRows6(); LengthRows7();
  }

  /** The extra bits by the rule behind the table of section 3.2.5, and lengths without a gap;
      258 has a symbol of its own. */
  lemma LengthRule(k: nat)
    requires k < 29
    ensures LENGTH_BASE[0] == 3 && LENGTH_BASE[28] == 258
    ensures LENGTH_BITS[k] == if k < 8 || k == 28 then 0 else k / 4 - 1
    ensures k < 27 ==> LENGTH_BASE[k + 1] == LENGTH_BASE[k] + Pow2(LENGTH_BITS[k])
  {
    hide Pow2;
    SmallPowers();
  }

  /** Row `k` of the distance tables, likewise. */
  predicate DistRowOk(k: nat)
    requires k < 30
  {
    var c := DISTCODES[k];
    && c.code == k && c.extrabits == DIST_BITS[k] && c.min == DIST_BASE[k]
    && 1 <= c.min <= c.max < c.min + Pow2(c.extrabits)
    && (if k == 0 then c.min == 1 else c.min == DISTCODES[k - 1].max + 1)
    && (k == 29 ==> c.max == 32768) && c.extrabits <= 13
  }

  lemma DistRows0()
    ensures forall k: nat | k < 5 :: DistRowOk(k)
  {
    hide Pow2;
    SmallPowers();
    assert DistRowOk(0) && DistRowOk(1) && DistRowOk(2) && DistRowOk(3) && DistRowOk(4);
  }

  lemma DistRows1()
    ensures forall k: nat | 5 <= k < 10 :: DistRowOk(k)
  {
    hide Pow2;
    SmallPowers();
    assert DistRowOk(5) && DistRowOk(6) && DistRowOk(7) && DistRowOk(8) && DistRowOk(9);
  }

  lemma DistRows2()
    ensures forall k: nat | 10 <= k < 15 :: DistRowOk(k)
  {
    hide Pow2;
    SmallPowers();
    assert DistRowOk(10) && DistRowOk(11) && DistRowOk(12) && DistRowOk(13) && DistRowOk(14);
  }

  lemma DistRows3()
    ensures forall k: nat | 15 <= k < 20 :: DistRowOk(k)
  {
    hide Pow2;
    SmallPowers();
    assert DistRowOk(15) && DistRowOk(16) && DistRowOk(17) && DistRowOk(18) && DistRowOk(19);
  }

  lemma DistRows4()
    ensures forall k: nat | 20 <= k < 25 :: DistRowOk(k)
  {
    hide Pow2;
    SmallPowers();
    assert DistRowOk(20) && DistRowOk(21) && DistRowOk(22) && DistRowOk(23) && DistRowOk(24);
  }

  lemma DistRows5()
    ensures forall k: nat | 25 <= k < 30 :: DistRowOk(k)
  {
    hide Pow2;
    SmallPowers();
    assert DistRowOk(25) && DistRowOk(26) && DistRowOk(27) && DistRowOk(28) && DistRowOk(29);
  }

  lemma DistRow(k: nat)
    requires k < 30
    ensures |DISTCODES| == 30 && DistRowOk(k)
  {
    hide DistRowOk;
    DistRows0(); DistRows1(); DistRows2(); DistRows3(); DistRows4(); DistRows5();
  }

  /** Distances likewise. */
  lemma DistRule(k: nat)
    requires k < 30
    ensures DIST_BASE[0] == 1 && DIST_BITS[k] == if k < 4 then 0 else k / 2 - 1
    ensures k < 29 ==> DIST_BASE[k + 1] == DIST_BASE[k] + Pow2(DIST_BITS[k])
  {
    hide Pow2;
    SmallPowers();
  }
}
