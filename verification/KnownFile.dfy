/** One whole gzip file, byte by byte, written and read. */
module KnownFile {
  import opened Bits
  import opened Checksum
  import opened Chunked
  import opened DeflStatic
  import opened Gzip
  import opened GzHeader
  import opened GzPack
  import GzUnpack
  import Incompressible
  import opened KnownAnswers
  import opened Lz77
  import opened RoundTrip
  import opened StaticCode

  /** Their checksum as every other program has it, and the trailer that comes of it. */
  lemma FooterOfNine()
    ensures Value(!Crc(CRC_START, NINE)) == 0xCBF43926
    ensures Footer(NINE) == [0x26, 0x39, 0xF4, 0xCB, 9, 0, 0, 0]
  {
    hide Crc;
    CrcOfNine();
  }

  /** The nine bytes in one static block, and a whole gzip file. */
  const BODY: seq<byte> := [0x33, 0x34, 0x32, 0x36, 0x31, 0x35, 0x33, 0xB7, 0xB0, 0x04, 0x00]
  const FILE: seq<byte> := [
    0x1F, 0x8B, 0x08, 0x00, 0x00, 0x00, 0x00, 0x00, 0x04, 0x03,
    0x33, 0x34, 0x32, 0x36, 0x31, 0x35, 0x33, 0xB7, 0xB0, 0x04, 0x00,
    0x26, 0x39, 0xF4, 0xCB, 0x09, 0x00, 0x00, 0x00]

  /** Numbers of four bits. */
  lemma Quads()
    ensures ToBits(0, 4) == [false, false, false, false] && MsbBits(0, 4) == [false, false, false, false]
    ensures ToBits(1, 4) == [true, false, false, false] && MsbBits(1, 4) == [false, false, false, true]
    ensures ToBits(2, 4) == [false, true, false, false] && MsbBits(2, 4) == [false, false, true, false]
    ensures ToBits(3, 4) == [true, true, false, false] && MsbBits(3, 4) == [false, false, true, true]
    ensures ToBits(4, 4) == [false, false, true, false] && MsbBits(4, 4) == [false, true, false, false]
    ensures ToBits(5, 4) == [true, false, true, false] && MsbBits(5, 4) == [false, true, false, true]
    ensures ToBits(6, 4) == [false, true, true, false] && MsbBits(6, 4) == [false, true, true, false]
    ensures ToBits(7, 4) == [true, true, true, false] && MsbBits(7, 4) == [false, true, true, true]
    ensures ToBits(8, 4) == [false, false, false, true] && MsbBits(8, 4) == [true, false, false, false]
    ensures ToBits(9, 4) == [true, false, false, true] && MsbBits(9, 4) == [true, false, false, true]
    ensures ToBits(11, 4) == [true, true, false, true] && MsbBits(11, 4) == [true, false, true, true]
  {
    hide ToBits, MsbBits;
    HalfOctet(0, false, false, false, false);
    HalfOctet(1, true, false, false, false);
    HalfOctet(2, false, true, false, false);
    HalfOctet(3, true, true, false, false);
    HalfOctet(4, false, false, true, false);
    HalfOctet(5, true, false, true, false);
    HalfOctet(6, false, true, true, false);
    HalfOctet(7, true, true, true, false);
    HalfOctet(8, false, false, false, true);
    HalfOctet(9, true, false, false, true);
    HalfOctet(11, true, true, false, true);
  }

  /** The static code word of a digit. */
  lemma DigitWord(k: nat)
    requires k < 10
    ensures SymbolBits(0x30 + k) == [false, true, true, false] + MsbBits(k, 4)
  {
    hide MsbBits;
    Quads();
    Octet(k, 6);
  }

  lemma BodyBytes()
    ensures ToBits(BODY[0], 8) == [true, true, false, false, true, true, false, false]
    ensures ToBits(BODY[1], 8) == [false, false, true, false, true, true, false, false]
    ensures ToBits(BODY[2], 8) == [false, true, false, false, true, true, false, false]
    ensures ToBits(BODY[3], 8) == [false, true, true, false, true, true, false, false]
    ensures ToBits(BODY[4], 8) == [true, false, false, false, true, true, false, false]
    ensures ToBits(BODY[5], 8) == [true, false, true, false, true, true, false, false]
    ensures ToBits(BODY[6], 8) == [true, true, false, false, true, true, false, false]
    ensures ToBits(BODY[7], 8) == [true, true, true, false, true, true, false, true]
    ensures ToBits(BODY[8], 8) == [false, false, false, false, true, true, false, true]
    ensures ToBits(BODY[9], 8) == [false, false, true, false, false, false, false, false]
    ensures ToBits(BODY[10], 8) == [false, false, false, false, false, false, false, false]
  {
    hide ToBits, MsbBits;
    Quads();
    Octet(3, 3);
    Octet(4, 3);
    Octet(2, 3);
    Octet(6, 3);
    Octet(1, 3);
    Octet(5, 3);
    Octet(7, 11);
    Octet(0, 11);
    Octet(4, 0);
    Octet(0, 0);
  }

  function Literals(d: seq<byte>): (ts: seq<Token>)
    ensures |ts| == |d| && forall t <- ts :: t.Literal?
  {
    seq(|d|, i requires 0 <= i < |d| => Literal(d[i]))
  }

  /** The header and the first `k` digits are the first `k` bytes and `rest`. */
  ghost predicate Written(k: nat, rest: Bits)
    requires k <= 9
  {
    BlockHeader(true, 1) + TokensBits(Literals(NINE[..k])) == BytesBits(BODY[..k]) + rest
  }

  lemma NextDigit(k: nat, rest: Bits, a: Bits, next: Bits)
    requires k < 9 && Written(k, rest)
    requires SymbolBits(NINE[k]) == a + next && ToBits(BODY[k], 8) == rest + a
    ensures Written(k + 1, next)
  {
    hide SymbolBits, ToBits, NINE, BODY;
    NineBytes();
    var ts, word := Literals(NINE[..k]), SymbolBits(NINE[k]);
    assert Literals(NINE[..k + 1]) == ts + [Literal(NINE[k])];
    TokensBitsSnoc(ts, Literal(NINE[k]));
    assert BODY[..k + 1][..k] == BODY[..k];
    Assoc(BlockHeader(true, 1), TokensBits(ts), word);
    Assoc(BytesBits(BODY[..k]), rest, a + next);
    Assoc(rest, a, next);
    Assoc(BytesBits(BODY[..k]), rest + a, next);
  }

  lemma NineBytes()
    ensures |NINE| == 9 && |BODY| == 11
  {}

  lemma NothingWritten()
    ensures Written(0, [true, true, false])
  {
    assert NINE[..0] == [] && BODY[..0] == [] && Literals([]) == [];
    assert ToBits(1, 2) == [true] + ToBits(0, 1) && ToBits(0, 1) == [false] + ToBits(0, 0);
  }

  lemma DigitsWritten()
    ensures Written(9, [false, false, true])
  {
    hide SymbolBits, ToBits, MsbBits, BODY, Written, NINE;
    NineBytes();
    BodyBytes();
    Quads();
    NineAre();
    NothingWritten();
    DigitWord(1);
    NextDigit(0, [true, true, false], [false, true, true, false, false], [false, false, true]);
    DigitWord(2);
    NextDigit(1, [false, false, true], [false, true, true, false, false], [false, true, false]);
    DigitWord(3);
    NextDigit(2, [false, true, false], [false, true, true, false, false], [false, true, true]);
    DigitWord(4);
    NextDigit(3, [false, true, true], [false, true, true, false, false], [true, false, false]);
    DigitWord(5);
    NextDigit(4, [true, false, false], [false, true, true, false, false], [true, false, true]);
    DigitWord(6);
    NextDigit(5, [true, false, true], [false, true, true, false, false], [true, true, false]);
    DigitWord(7);
    NextDigit(6, [true, true, false], [false, true, true, false, false], [true, true, true]);
    DigitWord(8);
    NextDigit(7, [true, true, true], [false, true, true, false, true], [false, false, false]);
    DigitWord(9);
    NextDigit(8, [false, false, false], [false, true, true, false, true], [false, false, true]);
  }

  lemma SevenZeros()
    ensures SymbolBits(END_OF_BLOCK) == [false, false, false, false, false, false, false]
    ensures ToBits(0, 6) == [false, false, false, false, false, false]
  {
    hide ToBits, MsbBits;
    EndCode();
    DeflStatic.Zeros(7);
    DeflStatic.Zeros(6);
  }

  /** The end code and the padding fill up the last two bytes. */
  lemma BodyIs()
    ensures Padded(FixedBlock(true, Literals(NINE))) == BytesBits(BODY)
  {
    hide SymbolBits, ToBits, BODY, NINE, TokensBits, Literals;
    DigitsWritten();
    SevenZeros();
    BodyBytes();
    NineBytes();
    var front, end := BlockHeader(true, 1) + TokensBits(Literals(NINE)), SymbolBits(END_OF_BLOCK);
    assert NINE[..9] == NINE;
    LastTwo(BODY);
    assert front == BytesBits(BODY[..9]) + [false, false, true];
    assert front + end + ToBits(0, 6) == BytesBits(BODY[..9]) + ToBits(BODY[9], 8) + ToBits(BODY[10], 8);
    assert |front + end| == 82 && Align(82) == 88;
  }

  lemma LastTwo(s: seq<byte>)
    requires |s| == 11
    ensures BytesBits(s) == BytesBits(s[..9]) + ToBits(s[9], 8) + ToBits(s[10], 8)
  {
    assert s[..10][..9] == s[..9];
  }

  /** Literals stand for themselves. */
  lemma {:induction false} LiteralsAre(ts: seq<Token>)
    requires forall t <- ts :: t.Literal?
    ensures Expand(ts).Some? && ts == Literals(Expand(ts).value)
  {
    if ts == [] {
    } else {
      var us, t := ts[..|ts| - 1], ts[|ts| - 1];
      assert t in ts && forall u <- us :: u in ts;
      LiteralsAre(us);
      assert ts == us + [t];
    }
  }

  lemma {:induction false} LiteralsExpand(d: seq<byte>)
    ensures Expand(Literals(d)) == Some(d)
  {
    if d == [] {
    } else {
      LiteralsExpand(d[..|d| - 1]);
      ExpandSnoc(Literals(d[..|d| - 1]), Literal(d[|d| - 1]));
      assert Literals(d) == Literals(d[..|d| - 1]) + [Literal(d[|d| - 1])];
      assert d == d[..|d| - 1] + [d[|d| - 1]];
    }
  }

  lemma NoTwice()
    ensures Incompressible.NoRepeats(NINE)
  {
    forall i, j | 0 <= i < j && j + 3 <= |NINE|
      ensures !Incompressible.Repeat(NINE, i, j)
    {
      NineAre();
    }
  }

  /** As no three of its bytes recur, there is only one file that compress can make of them. */
  lemma OnlyFile(dst: seq<byte>, cs: seq<Chunk>)
    requires Member(dst, NINE, cs) && |cs| == 1
    ensures dst == FILE
  {
    hide *;
    var c := OneBlock(dst, NINE, cs);
    NoTwice();
    Incompressible.OnlyLiterals(c.ts);
    LiteralsAre(c.ts);
    BodyIs();
    BytesBitsInjective(c.bytes, BODY);
    FooterOfNine();
    FileIs();
  }

  lemma OneBlock(dst: seq<byte>, src: seq<byte>, cs: seq<Chunk>) returns (c: Chunk)
    requires Member(dst, src, cs) && |cs| == 1
    ensures Expand(c.ts) == Some(src) && BytesBits(c.bytes) == Padded(FixedBlock(true, c.ts))
    ensures dst == LZ_HEADER + c.bytes + Footer(src)
  {
    hide Expand, BytesBits, Padded, FixedBlock, Footer;
    c := cs[0];
    assert cs[..|cs| - 1] == [];
    assert Data(cs) == [] + c.data == c.data && Bytes(cs) == [] + c.bytes == c.bytes;
    assert c.data[..|c.data|] == c.data;
  }

  lemma FileIs()
    ensures FILE == LZ_HEADER + BODY + [0x26, 0x39, 0xF4, 0xCB, 9, 0, 0, 0]
  {}

  lemma FileIsMember()
    ensures Member(FILE, NINE, [Chunk(NINE, Literals(NINE), BODY)])
  {
    hide Expand, BytesBits, Padded, FixedBlock, NINE, Footer, BODY;
    var c := Chunk(NINE, Literals(NINE), BODY);
    assert NINE[..|NINE|] == NINE;
    LiteralsExpand(NINE);
    BodyIs();
    OneChunk(c, DICT_SIZE);
    FooterOfNine();
    FileIs();
  }

  /** compress writes that file. */
  method CompressNine() returns (dst: seq<byte>, total: nat)
    ensures dst == FILE && total == 29
  {
    hide Member, FILE, NINE;
    NineAre();
    ghost var cs;
    dst, total, cs := Compress(NINE);
    OnlyFile(dst, cs);
    FileLength();
  }

  lemma FileLength()
    ensures |FILE| == 29
  {}

  /** gzUncompress gives back the nine bytes and accepts the checksum. */
  method UncompressNine(dict: array<byte>, outputBufferSize: nat) returns (u: GzUnpack.GzUnpacker, res: int, ok: bool)
    requires outputBufferSize > 0 && (dict.Length == 0 || dict.Length >= DICT_SIZE)
    modifies dict
    ensures u.out.file == NINE && res == 1 && ok && u.z.d.srcPos == 29
  {
    hide Member, FILE, NINE, GzUnpack.Result, GzUnpack.Outcome, GzHeader.Header, DICT_SIZE, Literals, BODY;
    NineAre();
    FileLength();
    FileIsMember();
    ghost var cs, w, prefill := [Chunk(NINE, Literals(NINE), BODY)], GzUnpack.WindowOf(dict), dict[..];
    GzUnpack.MemberComplete(FILE, NINE, cs, w, prefill);
    u, res, ok := GzUnpack.GzUncompress(FILE, dict, outputBufferSize);
    GzUnpack.MemberResult(FILE, NINE, cs, w, prefill, u, res, ok);
  }
}
