/** gzip files from any compressor (RFC 1952): gzUncompress gives back what their blocks stand
    for, and tells by the checksum whether that is what was packed. */
module AnyGzip {
  import opened Bits
  import opened Blocks
  import opened Checksum
  import opened Coded
  import opened Gzip
  import opened GzHeader
  import opened GzPack
  import opened GzUnpack
  import Huffman
  import opened Inflate

  /** The CRC-32 that ends a gzip file, low byte first: all ones at the start, and inverted. */
  function CrcBytes(data: seq<byte>): (w: seq<byte>)
    ensures |w| == 4
  {
    var c := (Crc(0xFFFFFFFF, data) ^ 0xFFFFFFFF) as nat;
    [c % 0x100, c / 0x100 % 0x100, c / 0x10000 % 0x100, c / 0x1000000 % 0x100]
  }

  /** A header that ends at `pos`, and after it the blocks `bs`, which stand for `data`. */
  ghost predicate Compressed(source: seq<byte>, pos: nat, bs: seq<Block>, data: seq<byte>, limit: nat) {
    && Header(source) == Start(pos) && StreamAt(BytesBits(source), 8 * pos, bs)
    && DeflStatic.Some(data) == AllContents([], bs) && forall b <- bs :: Within(b, limit)
  }

  ghost function TrailerAt(source: seq<byte>, pos: nat, bs: seq<Block>): nat
    requires StreamAt(BytesBits(source), 8 * pos, bs)
  {
    Align(StreamEnd(BytesBits(source), 8 * pos, bs)) / 8
  }

  lemma Inflates(source: seq<byte>, pos: nat, bs: seq<Block>, data: seq<byte>, limit: nat, w: Window,
                 prefill: seq<byte>)
    requires Compressed(source, pos, bs, data, limit) && Reaches(w, limit) && (w.Ring? ==> w.size <= |prefill|)
    ensures var r := Outcome(source, w, prefill);
      r.0 == Done && r.1.hist == prefill + data && Align(r.1.pos) / 8 == TrailerAt(source, pos, bs)
  {
    hide All, StreamAt, StreamEnd, AllContents, Header, BytesBits, Within, Align;
    EmptyCodes(w, pos, prefill);
    assert prefill + [] == prefill;
    var t := StreamRuns(BytesBits(source), Initial(8 * pos, prefill), w, prefill, [], bs, limit);
  }

  lemma EmptyCodes(w: Window, pos: nat, prefill: seq<byte>)
    requires w.Ring? ==> w.size <= |prefill|
    ensures WellFormed(Initial(8 * pos, prefill), w)
  {}

  /** The checksum is accepted just when it is the one written out above. */
  lemma AcceptsIff(source: seq<byte>, i: nat, data: seq<byte>)
    requires i + 4 <= |source|
    ensures Accepts(Crc32(Crc(CRC_START, data)), source, i) <==> source[i..i + 4] == CrcBytes(data)
  {
    hide *;
    var c := Crc(CRC_START, data);
    Le32RoundTrip(Value(!c));
    CrcBytesAre(data);
    AcceptsIs(source, i, c);
    if FromLe32(source[i..i + 4]) == Value(!c) {
      SameNumber(source[i..i + 4], CrcBytes(data));
    }
  }

  lemma AcceptsIs(source: seq<byte>, i: nat, c: bv32)
    requires i + 4 <= |source|
    ensures Accepts(Crc32(c), source, i) <==> FromLe32(source[i..i + 4]) == Value(!c)
  {
    hide Value, FromLe32;
  }

  lemma Inverted(c: bv32)
    ensures c ^ 0xFFFFFFFF == !c
  {}

  lemma CrcBytesAre(data: seq<byte>)
    ensures CrcBytes(data) == Le32(Value(!Crc(CRC_START, data)))
  {
    hide Crc;
    Inverted(Crc(0xFFFFFFFF, data));
  }

  /** What compress writes at the end: that checksum and the length, both low byte first. */
  lemma FooterIs(src: seq<byte>)
    ensures var n := |src| % 0x1_0000_0000;
      Footer(src) == CrcBytes(src) + [n % 0x100, n / 0x100 % 0x100, n / 0x10000 % 0x100, n / 0x1000000]
  {
    hide Crc, CrcBytes;
    CrcBytesAre(src);
  }

  /** Four bytes and the number they make determine each other. */
  lemma SameNumber(a: seq<byte>, b: seq<byte>)
    requires |a| == |b| == 4 && FromLe32(a) == FromLe32(b)
    ensures a == b
  {
    var v, w := a[2] as nat + 0x100 * (a[3] as nat), b[2] as nat + 0x100 * (b[3] as nat);
    SameDigit(a[0], a[1] as nat + 0x100 * v, b[0], b[1] as nat + 0x100 * w);
    SameDigit(a[1], v, b[1], w);
    SameDigit(a[2], a[3], b[2], b[3]);
  }

  lemma SameDigit(x: byte, v: nat, y: byte, w: nat)
    requires x + 0x100 * v == y + 0x100 * w
    ensures x == y && v == w
  {}

  /** Any gzip file, whatever its header has and however its blocks are coded, gives just what
      was packed. The checksum is accepted if and only if it is that of the data. */
  method UncompressAny(source: seq<byte>, ghost pos: nat, ghost bs: seq<Block>, ghost data: seq<byte>, ghost limit: nat,
                       dict: array<byte>, outputBufferSize: nat)
    returns (u: GzUnpacker, res: int, ok: bool)
    requires outputBufferSize > 0 && Compressed(source, pos, bs, data, limit)
    requires (dict.Length > 0 ==> limit <= dict.Length) && TrailerAt(source, pos, bs) + 4 <= |source|
    modifies dict
    ensures u.out.file == data && (ok <==> data != [])
    ensures var i := TrailerAt(source, pos, bs);
      && res == (if source[i..i + 4] == CrcBytes(data) then 1 else -4)
      && (res == 1 && i + 8 <= |source| ==> u.z.d.srcPos == i + 8)
  {
    hide StreamAt, StreamEnd, AllContents, Header, BytesBits, Within, Align, Outcome, Crc, Accepts, CrcBytes;
    ghost var prefill := dict[..];
    Inflates(source, pos, bs, data, limit, WindowOf(dict), prefill);
    u, res, ok := GzUncompress(source, dict, outputBufferSize);
    AcceptsIff(source, TrailerAt(source, pos, bs), data);
    assert (prefill + data)[|prefill|..] == data;
  }
}
