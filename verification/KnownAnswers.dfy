/** Answers known from elsewhere: what the code computes is also what other programs compute. */
module KnownAnswers {
  import opened Bits
  import opened Checksum
  import DeflateStream
  import opened Gzip
  import GzPack
  import opened Huffman
  import Inflate
  import opened Lz77
  import Tinflate
  import UntarSpec

  /** "123456789", by which checksums are usually compared. */
  const NINE: seq<byte> := [0x31, 0x32, 0x33, 0x34, 0x35, 0x36, 0x37, 0x38, 0x39]

  lemma Digits()
    ensures Word(0x31, 8) == 0x31 && Word(0x32, 8) == 0x32 && Word(0x33, 8) == 0x33
    ensures Word(0x34, 8) == 0x34 && Word(0x35, 8) == 0x35 && Word(0x36, 8) == 0x36
    ensures Word(0x37, 8) == 0x37 && Word(0x38, 8) == 0x38 && Word(0x39, 8) == 0x39
  {
    hide Word;
    assert Word(0, 0) == 0 by { NoBits(); }
    NextBit(0, 1); NextBit(0, 2); NextBit(0x1, 3); NextBit(0x3, 4); NextBit(0x6, 5); NextBit(0x7, 5);
    NextBit(0xc, 6); NextBit(0xd, 6); NextBit(0xe, 6); NextBit(0x18, 7); NextBit(0x19, 7); NextBit(0x1a, 7);
    NextBit(0x1b, 7); NextBit(0x1c, 7); NextBit(0x31, 8); NextBit(0x32, 8); NextBit(0x33, 8);
    NextBit(0x34, 8); NextBit(0x35, 8); NextBit(0x36, 8); NextBit(0x37, 8); NextBit(0x38, 8);
    NextBit(0x39, 8);
  }

  lemma NoBits()
    ensures Word(0, 0) == 0
  {}

  lemma NextBit(v: nat, n: nat)
    requires n > 0
    ensures Word(v, n) == (Word(v / 2, n - 1) << 1) | (if v % 2 == 1 then 1 else 0)
  {}

  /** The register after each of them. */
  lemma TwoNibbles()
    ensures Nibble(Nibble(Xor(0xFFFFFFFF, 0x31))) == 0x7C231048
    ensures Nibble(Nibble(Xor(0x7C231048, 0x32))) == 0xB0ACBB32
    ensures Nibble(Nibble(Xor(0xB0ACBB32, 0x33))) == 0x77B79C2D
    ensures Nibble(Nibble(Xor(0x77B79C2D, 0x34))) == 0x641C1F5C
    ensures Nibble(Nibble(Xor(0x641C1F5C, 0x35))) == 0x340AC5E3
    ensures Nibble(Nibble(Xor(0x340AC5E3, 0x36))) == 0xF68D2C9E
    ensures Nibble(Nibble(Xor(0xF68D2C9E, 0x37))) == 0xAFFC9660
    ensures Nibble(Nibble(Xor(0xAFFC9660, 0x38))) == 0x651F2550
    ensures Nibble(Nibble(Xor(0x651F2550, 0x39))) == 0x340BC6D9
  {}

  lemma CrcOfNine()
    ensures Crc(CRC_START, NINE) == 0x340BC6D9
  {
    hide Crc, Nibble, Xor, Word;
    Digits();
    TwoNibbles();
    CrcByte(CRC_START, NINE[..0], NINE[0]);
    assert NINE[..0] + [NINE[0]] == NINE[..1];
    CrcByte(CRC_START, NINE[..1], NINE[1]);
    assert NINE[..1] + [NINE[1]] == NINE[..2];
    CrcByte(CRC_START, NINE[..2], NINE[2]);
    assert NINE[..2] + [NINE[2]] == NINE[..3];
    CrcByte(CRC_START, NINE[..3], NINE[3]);
    assert NINE[..3] + [NINE[3]] == NINE[..4];
    CrcByte(CRC_START, NINE[..4], NINE[4]);
    assert NINE[..4] + [NINE[4]] == NINE[..5];
    CrcByte(CRC_START, NINE[..5], NINE[5]);
    assert NINE[..5] + [NINE[5]] == NINE[..6];
    CrcByte(CRC_START, NINE[..6], NINE[6]);
    assert NINE[..6] + [NINE[6]] == NINE[..7];
    CrcByte(CRC_START, NINE[..7], NINE[7]);
    assert NINE[..7] + [NINE[7]] == NINE[..8];
    CrcByte(CRC_START, NINE[..8], NINE[8]);
    assert NINE[..8] + [NINE[8]] == NINE[..9];
    assert NINE[..9] == NINE && NINE[..0] == [];
    CrcOfNone();
  }

  lemma CrcOfNone()
    ensures Crc(CRC_START, []) == 0xFFFFFFFF
  {}

  lemma NineAre()
    ensures |NINE| == 9 && forall k | 0 <= k < 9 :: NINE[k] == 0x31 + k
  {}

  lemma AdlerNext(a: Sums, data: seq<byte>, b: byte)
    ensures var p := Adler(a, data);
      Adler(a, data + [b]) == Sums((p.s1 + b) % 65521, (p.s2 + (p.s1 + b) % 65521) % 65521)
  {
    LastByte(a, data + [b]);
    hide Adler;
    assert (data + [b])[..|data|] == data;
  }

  lemma LastByte(a: Sums, data: seq<byte>)
    requires data != []
    ensures Adler(a, data) ==
      var p := Adler(a, data[..|data| - 1]);
      var s1 := (p.s1 + data[|data| - 1]) % 65521;
      Sums(s1, (p.s2 + s1) % 65521)
  {}

  lemma AdlerDigit(k: nat, s1: nat, s2: nat)
    requires |NINE| == 9 && k < 9 && Adler(Sums(1, 0), NINE[..k]) == Sums(s1, s2)
    ensures var t := (s1 + 0x31 + k) % 65521; Adler(Sums(1, 0), NINE[..k + 1]) == Sums(t, (s2 + t) % 65521)
  {
    hide Adler, NINE;
    NineAre();
    AdlerNext(Sums(1, 0), NINE[..k], NINE[k]);
    assert NINE[..k] + [NINE[k]] == NINE[..k + 1];
  }

  lemma AdlerDigits()
    ensures Adler(Sums(1, 0), NINE) == Sums(0x01DE, 0x091E)
  {
    hide Adler, NINE;
    NineAre();
    AdlerOfNone(Sums(1, 0));
    assert NINE[..0] == [] && NINE[..9] == NINE;
    AdlerDigit(0, 1, 0);
    AdlerDigit(1, 50, 50);
    AdlerDigit(2, 100, 150);
    AdlerDigit(3, 151, 301);
    AdlerDigit(4, 203, 504);
    AdlerDigit(5, 256, 760);
    AdlerDigit(6, 310, 1070);
    AdlerDigit(7, 365, 1435);
    AdlerDigit(8, 421, 1856);
  }

  /** The Adler-32 of the nine bytes, and what becomes of sums at the end of their range. */
  lemma AdlerOfNine()
    ensures AdlerSum(1, NINE) == 0x091E01DE
    ensures AdlerSum(65520, [1]) == 0 && AdlerSum(65519, [1]) == 0xFFF0FFF0
  {
    hide Adler, NINE;
    AdlerDigits();
    AdlerOfNone(Sums(65520, 0));
    AdlerOfNone(Sums(65519, 0));
    AdlerNext(Sums(65520, 0), [], 1);
    AdlerNext(Sums(65519, 0), [], 1);
    assert [] + [1] == [1];
  }

  lemma AdlerOfNone(a: Sums)
    ensures Adler(a, []) == a
  {}

  /** Trailers are read low byte first after a CRC, high byte first after an Adler-32. */
  lemma ByteOrders()
    ensures FromLe32([0x78, 0x56, 0x34, 0x12]) == FromBe32([0x12, 0x34, 0x56, 0x78]) == 0x12345678
  {}

  /** Hashes of three bytes, with a table of 4096 buckets. */
  lemma SomeHashes()
    ensures Hash(12, 0x61, 0x62, 0x63) == 0x3B3 && Hash(12, 0xFF, 0xFE, 0xFD) == 0x102 && Hash(12, 0, 0, 1) == 0xFFF
  {
    assert Pow2(12) == 4096;
    assert Shr(0x616263, 12) == 0x616 && Shr(0xFFFEFD, 12) == 0xFFF && Shr(1, 12) == 0;
  }

  const EIGHT: seq<nat> := [3, 3, 3, 3, 3, 2, 4, 4]

  lemma {:induction false} EightCount(k: nat, n: nat)
    requires n <= |EIGHT|
    ensures CountTo(EIGHT, k, n) ==
      if k == 3 then (if n < 5 then n else 5) else if k == 2 then (if n < 6 then 0 else 1)
      else if k == 4 then (if n < 6 then 0 else n - 6) else 0
  {
    if n > 0 { EightCount(k, n - 1); }
  }

  lemma EightFirst()
    ensures First(EIGHT, 2) == 0 && First(EIGHT, 3) == 2 && First(EIGHT, 4) == 14
  {
    hide CountTo;
    EightCount(1, 8);
    EightCount(2, 8);
    EightCount(3, 8);
    assert First(EIGHT, 0) == 0 && First(EIGHT, 1) == 0;
  }

  lemma EightCodes(s: nat)
    requires s < |EIGHT|
    ensures Codeword(EIGHT, s) == if s < 5 then 2 + s else if s == 5 then 0 else s + 8
  {
    hide CountTo, First;
    EightFirst();
    EightCount(EIGHT[s], s);
  }

  /** The example of section 3.2.2 of RFC 1951: the codes of A to H. */
  lemma CanonicalExample()
    ensures CodeBits(EIGHT, 0) == [false, true, false] && CodeBits(EIGHT, 1) == [false, true, true]
    ensures CodeBits(EIGHT, 2) == [true, false, false] && CodeBits(EIGHT, 3) == [true, false, true]
    ensures CodeBits(EIGHT, 4) == [true, true, false] && CodeBits(EIGHT, 5) == [false, false]
    ensures CodeBits(EIGHT, 6) == [true, true, true, false] && CodeBits(EIGHT, 7) == [true, true, true, true]
  {
    hide Codeword;
    EightCodes(0); EightCodes(1); EightCodes(2); EightCodes(3);
    EightCodes(4); EightCodes(5); EightCodes(6); EightCodes(7);
  }

  /** The return codes of the inflater, of the compressor and of the step machine, and what
      compress is set to. */
  lemma ReturnCodes()
    ensures Tinflate.StatusCode(Inflate.Ok) == 0 && Tinflate.StatusCode(Inflate.Done) == 1
    ensures Tinflate.StatusCode(Inflate.DataError) == -3 && TINF_CHKSUM_ERROR == -4
    ensures Tinflate.StatusCode(Inflate.DictError) == -5
    ensures DeflateStream.Z_OK == 0 && DeflateStream.Z_STREAM_END == 1 && DeflateStream.Z_BUF_ERROR == -5
    ensures UntarSpec.TAR_OK == 0 && UntarSpec.TAR_CONTINUE == 1 && UntarSpec.TAR_EXPANDING_DONE == 2
    ensures UntarSpec.TAR_ERROR == -1 && GzPack.DICT_SIZE == 32768 && GzPack.HASH_BITS == 12
  {}
}
