/** Whole gzip members: the compressor writes one from a buffer, and the inflater checks
    the checksum that ends it. */
module Gzip {
  import opened Bits
  import opened Checksum
  import opened GzHeader
  import Huffman
  import opened Inflate
  import opened Tinflate

  const TINF_CHKSUM_ERROR := -4

  const CRC_START: bv32 := 0xFFFFFFFF

  /** A running checksum (`checksum` with its `checksum_type`). */
  datatype Running = NoSum | Adler32(sum: nat) | Crc32(crc: bv32)

  predicate In32Bits(c: Running) { c.Adler32? ==> c.sum < 0x1_0000_0000 }

  function Updated(c: Running, data: seq<byte>): Running {
    match c
    case NoSum => c
    case Adler32(sum) => Adler32(AdlerSum(sum, data))
    case Crc32(crc) => Crc32(Crc(crc, data))
  }

  /** The running checksum does not depend on how the output was divided. */
  lemma UpdatedConcat(c: Running, a: seq<byte>, b: seq<byte>)
    requires In32Bits(c)
    ensures Updated(c, a + b) == Updated(Updated(c, a), b) && In32Bits(Updated(c, a))
  {
    hide Crc, AdlerSum;
    match c
    case NoSum =>
    case Adler32(sum) => AdlerSumConcat(sum, a, b);
    case Crc32(crc) => CrcConcat(crc, a, b);
  }

  function Value(c: bv32): (v: nat)
    ensures v < 0x1_0000_0000
  {
    c as nat
  }

  /** Four bytes, low one first, and back. */
  function Le32(v: nat): (w: seq<byte>)
    ensures |w| == 4
  {
    [(v % 256) as byte, (v / 0x100 % 256) as byte, (v / 0x10000 % 256) as byte, (v / 0x1000000 % 256) as byte]
  }

  function FromLe32(w: seq<byte>): nat
    requires |w| == 4
  {
    w[0] as nat + 0x100 * (w[1] as nat) + 0x10000 * (w[2] as nat) + 0x1000000 * (w[3] as nat)
  }

  function FromBe32(w: seq<byte>): nat
    requires |w| == 4
  {
    w[3] as nat + 0x100 * (w[2] as nat) + 0x10000 * (w[1] as nat) + 0x1000000 * (w[0] as nat)
  }

  lemma Le32RoundTrip(v: nat)
    requires v < 0x1_0000_0000
    ensures FromLe32(Le32(v)) == v
  {
    Shifts(v);
    assert FromLe32(Le32(v)) == v % 0x100 + 0x100 * (v / 0x100);
  }

  lemma Shifts(v: nat)
    ensures v / 0x10000 == v / 0x100 / 0x100 && v / 0x1000000 == v / 0x100 / 0x100 / 0x100
  {
    assert v / 0x10000 == v / 0x100 / 0x100;
  }

  function SumLength(c: Running): nat {
    if c.NoSum? then 0 else 4
  }

  function TrailerLength(c: Running): nat {
    match c
    case NoSum => 0
    case Adler32(_) => 4
    case Crc32(_) => 8
  }

  /** The trailer at `i` matches; the length that follows a CRC is not looked at. */
  predicate Accepts(c: Running, s: seq<byte>, i: nat)
    requires i + SumLength(c) <= |s|
  {
    match c
    case NoSum => true
    case Adler32(sum) => FromBe32(s[i..i + 4]) == sum
    case Crc32(crc) => FromLe32(s[i..i + 4]) == Value(!crc)
  }

  /** tinf_get_le_uint32. */
  method GetLe32(d: TinfData) returns (val: nat)
    requires d.srcPos <= |d.source|
    modifies d`srcPos, d`readSourceErrors
    ensures d.srcPos <= |d.source|
    ensures old(d.srcPos) + 4 <= |d.source| ==>
      d.srcPos == old(d.srcPos) + 4 && d.readSourceErrors == old(d.readSourceErrors)
      && val == FromLe32(d.source[old(d.srcPos)..old(d.srcPos) + 4])
    ensures old(d.srcPos) + 4 > |d.source| ==> d.readSourceErrors > old(d.readSourceErrors)
  {
    val := 0;
    var b0: nat := d.GetByte();
    val := val / 0x100 + 0x1000000 * b0;
    var b1: nat := d.GetByte();
    val := val / 0x100 + 0x1000000 * b1;
    var b2: nat := d.GetByte();
    val := val / 0x100 + 0x1000000 * b2;
    var b3: nat := d.GetByte();
    val := val / 0x100 + 0x1000000 * b3;
  }

  /** tinf_get_be_uint32. */
  method GetBe32(d: TinfData) returns (val: nat)
    requires d.srcPos <= |d.source|
    modifies d`srcPos, d`readSourceErrors
    ensures d.srcPos <= |d.source|
    ensures old(d.srcPos) + 4 <= |d.source| ==>
      d.srcPos == old(d.srcPos) + 4 && d.readSourceErrors == old(d.readSourceErrors)
      && val == FromBe32(d.source[old(d.srcPos)..old(d.srcPos) + 4])
    ensures old(d.srcPos) + 4 > |d.source| ==> d.readSourceErrors > old(d.readSourceErrors)
  {
    val := d.GetByte();
    var b1: nat := d.GetByte();
    val := 0x100 * val + b1;
    var b2: nat := d.GetByte();
    val := 0x100 * val + b2;
    var b3: nat := d.GetByte();
    val := 0x100 * val + b3;
  }

  /** The inflater with its running checksum. */
  class GzInflater {
    const d: TinfData
    const destSize: nat
    var checksum: Running

    constructor (d: TinfData, destSize: nat)
      ensures this.d == d && this.destSize == destSize && checksum == NoSum
    {
      this.d, this.destSize, checksum := d, destSize, NoSum;
    }

    /** uzlib_gzip_parse_header, which also starts the checksum. */
    method ParseHeader() returns (res: int)
      requires d.srcPos == 0 && d.readSourceErrors == 0 && Header(d.source) != Cut
      modifies this`checksum, d`srcPos, d`readSourceErrors
      ensures d.srcPos <= |d.source| && d.readSourceErrors == 0
      ensures Header(d.source).NotGzip? ==> res == Huffman.TINF_DATA_ERROR
      ensures Header(d.source).Start? ==>
        res == 0 && d.srcPos == Header(d.source).pos && checksum == Crc32(CRC_START)
    {
      hide Header;
      res := GzHeader.ParseHeader(d);
      if res == 0 {
        checksum := Crc32(CRC_START);
      }
    }

    /** Adds the new output to the checksum. */
    method Add(data: seq<byte>)
      requires In32Bits(checksum)
      modifies this`checksum
      ensures checksum == Updated(old(checksum), data)
    {
      match checksum
      case NoSum =>
      case Adler32(sum) =>
        var next := UzlibAdler32(data, sum);
        checksum := Adler32(next);
      case Crc32(crc) =>
        var next := UzlibCrc32(data, crc);
        checksum := Crc32(next);
    }

    /** What is returned at the end of the stream, by the trailer at the next whole byte. If
        the source ends within the checksum either may be returned, after a read error; the
        length after it may be missing. */
    ghost predicate Verdict(pos: nat, c: Running, res: int)
      reads d`srcPos, d`readSourceErrors
    {
      var i := Align(pos) / 8;
      if i + SumLength(c) > |d.source| then (res == 1 || res == TINF_CHKSUM_ERROR) && d.readSourceErrors > 0
      else if !Accepts(c, d.source, i) then res == TINF_CHKSUM_ERROR && d.readSourceErrors == 0
      else
        && res == 1 && (d.readSourceErrors == 0 <==> i + TrailerLength(c) <= |d.source|)
        && (i + TrailerLength(c) <= |d.source| ==> d.srcPos == i + TrailerLength(c))
    }

    method CheckTrailer(ghost pos: nat) returns (res: int)
      requires d.Positioned(pos)
      modifies d`srcPos, d`readSourceErrors
      ensures Verdict(pos, checksum, res)
    {
      hide Value, FromLe32, FromBe32, Align, BytesBits, ToBits;
      AlignedAt(d.srcPos, d.bitcount);
      res := 1;
      match checksum
      case NoSum =>
      case Adler32(sum) =>
        var val := GetBe32(d);
        if sum != val {
          res := TINF_CHKSUM_ERROR;
        }
      case Crc32(crc) =>
        var val := GetLe32(d);
        if Value(!crc) != val {
          return TINF_CHKSUM_ERROR;
        }
        val := GetLe32(d);
    }

    /** What a call of uzlib_uncompress_chksum comes to, from state `s` and checksum `c`. */
    ghost predicate Checked(r: (Status, State), res: int, t: State, s: State, base: seq<byte>, c: Running)
      reads this, d, d.ring, d.ring.ring, d.output, d.dest, d.ltree, d.ltree.table, d.ltree.trans,
            d.dtree, d.dtree.table, d.dtree.trans
    {
      && d.destPos <= d.dest.Length && s.hist <= r.1.hist
      && (if r.0 == Truncated then res < 0 && d.CutShort(res, base + r.1.hist[|s.hist|..])
          else d.dest[..d.destPos] == base + r.1.hist[|s.hist|..])
      && checksum == (if StatusCode(r.0) < 0 then c else Updated(c, r.1.hist[|s.hist|..]))
      && (StatusCode(r.0) < 0 && r.0 != Truncated ==> res == StatusCode(r.0) && d.readSourceErrors == 0)
      && (r.0 == Ok ==> res == 0 && t == r.1 && d.Rep(t) && d.btype == t.btype)
      && (r.0 == Done ==> Verdict(r.1.pos, checksum, res))
    }

    lemma RunCodes(st: Status)
      requires Decided(st)
      ensures StatusCode(st) == 0 <==> st == Ok
      ensures StatusCode(st) == 1 <==> st == Done
      ensures StatusCode(st) <= 1
    {}

    lemma Placed(s: State)
      requires d.Rep(s)
      ensures WellFormed(s, d.W()) && d.Positioned(s.pos)
    {}

    /** uzlib_uncompress_chksum. */
    method UncompressChksum(ghost s: State) returns (res: int, ghost t: State)
      requires d.Rep(s) && d.btype == s.btype && s.pos <= |d.Src()|
      requires 0 < destSize && d.destPos + destSize <= d.dest.Length
      requires d.output != null ==> destSize == 1 && d.output.position == d.destPos
      requires In32Bits(checksum) && Decided(Run(d.Src(), s, d.W(), destSize).0)
      modifies this`checksum, d, d.dest, d.ring, d.ring.ring, d.ltree.table, d.ltree.trans, d.dtree.table, d.dtree.trans
      ensures d.dest == old(d.dest)
      ensures Checked(Run(d.Src(), s, d.W(), destSize), res, t, s, old(d.dest[..d.destPos]), old(checksum))
    {
      hide Run, TinfData.Rep, TinfData.Positioned, Updated, Verdict, BytesBits, WellFormed;
      Placed(s);
      ghost var r := Run(d.Src(), s, d.W(), destSize);
      RunCodes(r.0);
      var data := d.destPos;
      d.destRemaining := destSize;
      res, t := d.Uncompress(s);
      if res < 0 {
        return;
      }
      assert d.dest[data..d.destPos] == r.1.hist[|s.hist|..];
      Add(d.dest[data..d.destPos]);
      if res == 1 {
        Placed(t);
        res := CheckTrailer(t.pos);
      }
    }
  }
}
