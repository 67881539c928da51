/** A buffer compressed to a gzip member, and what inflating that member comes to. */
module GzPack {
  import opened Bits
  import Checksum
  import opened Chunked
  import opened DeflStatic
  import opened Gzip
  import opened GzHeader
  import Huffman
  import opened Inflate
  import opened Lz77
  import RoundTrip
  import StaticCode

  const DICT_SIZE := 32768

  /** The CRC of the data, inverted, and their length modulo 2^32. */
  function Footer(src: seq<byte>): seq<byte> {
    Le32(Value(!Checksum.Crc(CRC_START, src))) + Le32(|src| % 0x1_0000_0000)
  }

  /** Writes a number as it lies in memory, low byte first. */
  method StoreLe32(buf: array<byte>, at: nat, v: nat)
    requires at + 4 <= buf.Length && v < 0x1_0000_0000
    modifies buf
    ensures buf[..at + 4] == old(buf[..at]) + Le32(v)
  {
    buf[at] := (v % 256) as byte;
    buf[at + 1] := (v / 0x100 % 256) as byte;
    buf[at + 2] := (v / 0x10000 % 256) as byte;
    buf[at + 3] := (v / 0x1000000 % 256) as byte;
  }

  method LzFooter(buf: array<byte>, outlen: nat, crc: bv32, terminate: bool) returns (len: nat)
    requires buf.Length >= 9 && outlen < 0x1_0000_0000
    modifies buf
    ensures len <= 9 && buf[..len] == Le32(Value(crc)) + Le32(outlen) + if terminate then [0] else []
  {
    hide Value, Le32;
    StoreLe32(buf, 0, Value(crc));
    StoreLe32(buf, 4, outlen);
    len := 8;
    if terminate {
      buf[len] := 0;
      len := len + 1;
    }
  }

  /** `dst` is a gzip member for `src`: a header, the chunks `cs`, and the footer. */
  ghost predicate Member(dst: seq<byte>, src: seq<byte>, cs: seq<Chunk>) {
    dst == LZ_HEADER + Bytes(cs) + Footer(src) && Chunks(cs, true, DICT_SIZE) && Data(cs) == src
  }

  const HASH_BITS := 12

  /** compress, from a buffer to a stream: a single final block of greedily chosen tokens. */
  method Compress(src: seq<byte>) returns (dst: seq<byte>, total: nat, ghost cs: seq<Chunk>)
    requires |src| > 0
    ensures Member(dst, src, cs) && |cs| == 1 && total == |dst|
    ensures Greedy(HASH_BITS, DICT_SIZE, src, cs[0].ts, NoBuckets(HASH_BITS)) && Length(cs[0].ts) == |src|
  {
    var c := new UzlibComp(false, true, HASH_BITS, DICT_SIZE);
    assert c.hashTable[..] == NoBuckets(HASH_BITS) by { hide Pow2; }
    hide *;
    var header := CompressHeader();
    ghost var body, ts := CompressBody(c, src);
    var footer := CompressFooter(src);
    cs := [Chunk(src, ts, body)];
    OneChunk(cs[0], DICT_SIZE);
    MemberIs(src, cs);
    dst := header + c.written + footer;
    total := |header| + c.outlen + |footer|;
  }

  lemma OneChunk(c: Chunk, limit: nat)
    requires BytesBits(c.bytes) == Padded(RoundTrip.FixedBlock(true, c.ts)) && Covers(c.ts, c.data, |c.data|, limit)
    ensures Chunks([c], true, limit) && Bytes([c]) == c.bytes && Data([c]) == c.data
  {
    hide RoundTrip.FixedBlock, BytesBits, Covers;
    assert [c][..0] == [];
    assert [] + c.bytes == c.bytes && [] + c.data == c.data;
  }

  lemma MemberIs(src: seq<byte>, cs: seq<Chunk>)
    requires Chunks(cs, true, DICT_SIZE) && Data(cs) == src
    ensures Member(LZ_HEADER + Bytes(cs) + Footer(src), src, cs)
  {}

  method CompressHeader() returns (w: seq<byte>)
    ensures w == LZ_HEADER
  {
    var buf := new byte[10];
    var len := LzHeader(buf, true);
    w := buf[..len];
  }

  method FooterBytes(crc: bv32, outlen: nat) returns (w: seq<byte>)
    ensures w == Le32(Value(crc)) + Le32(outlen % 0x1_0000_0000)
  {
    hide Le32, Value;
    var buf := new byte[9];
    var len := LzFooter(buf, outlen % 0x1_0000_0000, crc, false);
    w := buf[..len];
  }

  method CompressFooter(src: seq<byte>) returns (w: seq<byte>)
    ensures w == Footer(src)
  {
    hide Checksum.Crc, Le32, Value;
    var crc := Checksum.UzlibCrc32(src, CRC_START);
    w := FooterBytes(!crc, |src|);
  }

  method CompressBody(c: UzlibComp, src: seq<byte>) returns (ghost body: seq<byte>, ghost ts: seq<StaticCode.Token>)
    requires c.Valid() && c.emitted == c.before == [] && c.noutbits == 0 && c.hasWriter && !c.compDisabled
    requires c.hashBits == HASH_BITS && c.hashTable.Length == Pow2(HASH_BITS) && c.dictSize == DICT_SIZE
    modifies c`outbuf, c`outlen, c`outsize, c`outbits, c`noutbits,
             c`written, c`emitted, c.outbuf, c.hashTable
    ensures c.written == body && c.outlen == |body|
    ensures BytesBits(body) == Padded(RoundTrip.FixedBlock(true, ts)) && Covers(ts, src, |src|, DICT_SIZE)
    ensures Greedy(HASH_BITS, DICT_SIZE, src, ts, old(c.hashTable[..])) && Length(ts) == |src|
  {
    assert c.Stream() == [];
    hide Greedy, Padded, Covers, BytesBits, ToBits, Pow2, StaticCode.TokensBits, UzlibComp.Stream,
      StaticCode.SymbolBits;
    c.OpenBlock(true);
    ts := UzlibCompress(c, src);
    c.FinishBlock();
    assert [] + BlockHeader(true, 1) == BlockHeader(true, 1);
    body := c.emitted;
  }

  lemma HeaderLength(src: seq<byte>)
    ensures |LZ_HEADER| == 10 && |Footer(src)| == 8
    ensures Huffman.Lengths([])
  {}

  /** Every member inflates to what it was made from, to its very end, wherever copies are
      read from and whatever is in the ring before. */
  lemma MemberInflates(dst: seq<byte>, src: seq<byte>, cs: seq<Chunk>, prefill: seq<byte>, w: Window)
    requires Member(dst, src, cs) && (w.Ring? ==> DICT_SIZE <= w.size <= |prefill|)
    ensures Header(dst) == Start(10) && |dst| == 18 + |Bytes(cs)| && dst[10 + |Bytes(cs)|..] == Footer(src)
    ensures 80 <= |BytesBits(dst)| && WellFormed(Initial(80, prefill), w)
    ensures var r := All(BytesBits(dst), Initial(80, prefill), w);
      r.0 == Done && r.1.hist == prefill + src && Align(r.1.pos) / 8 == 10 + |Bytes(cs)|
  {
    hide All, LZ_HEADER, Footer, Huffman.Lengths, BytesBits, Chunks, Bytes, Data, Header;
    HeaderLength(src);
    BodyInflates(dst, Footer(src), src, cs, prefill, w);
  }

  /** What follows the compressed data does not matter for them. */
  lemma BodyInflates(dst: seq<byte>, tail: seq<byte>, src: seq<byte>, cs: seq<Chunk>, prefill: seq<byte>, w: Window)
    requires dst == LZ_HEADER + Bytes(cs) + tail && Chunks(cs, true, DICT_SIZE) && Data(cs) == src
    requires w.Ring? ==> DICT_SIZE <= w.size <= |prefill|
    ensures Header(dst) == Start(10) && |dst| == 10 + |Bytes(cs)| + |tail| && dst[10 + |Bytes(cs)|..] == tail
    ensures 80 <= |BytesBits(dst)| && WellFormed(Initial(80, prefill), w)
    ensures var r := All(BytesBits(dst), Initial(80, prefill), w);
      r.0 == Done && r.1.hist == prefill + src && Align(r.1.pos) / 8 == 10 + |Bytes(cs)|
  {
    hide All, LZ_HEADER, Footer, Huffman.Lengths, BytesBits, At, Chunks, Bytes, Data, Header, FromBits;
    HeaderLength(src);
    var body := Bytes(cs);
    Assoc(LZ_HEADER, body, tail);
    LzHeaderParses(body + tail);
    assert dst[10..10 + |body|] == body;
    AtBytes(dst, 10, body);
    var t := StreamRuns(BytesBits(dst), Initial(80, prefill), w, cs, true, DICT_SIZE);
  }
}
