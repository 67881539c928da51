/** The bit writer and the static-Huffman encoder (`struct uzlib_comp`). */
module DeflStatic {
  import opened Bits
  import opened Tables
  import opened StaticCode

  datatype Option<T> = None | Some(value: T)

  class UzlibComp {
    var outbuf: array<byte>
    var outlen: nat
    var outsize: nat
    var outbits: nat
    var noutbits: nat
    var compDisabled: bool
    const growBuffer: bool
    /** A byte callback is installed; `written` is everything it was handed. */
    const hasWriter: bool
    var written: seq<byte>
    /** Where each three-byte hash was last seen in the input; None is NULL. */
    const hashTable: array<Option<nat>>
    const hashBits: nat
    const dictSize: nat
    /** The bytes put out since the last reset. */
    ghost var emitted: seq<byte>
    ghost var before: seq<byte>

    ghost predicate Valid()
      reads this, outbuf
    {
      && noutbits < 8 && Stored()
    }

    /** Where the emitted bytes are: in the buffer, at the callback, or both. */
    ghost predicate Stored()
      reads this, outbuf
    {
      && outbits < Pow2(noutbits)
      && outlen == |emitted|
      && (growBuffer ==> outbuf.Length == outsize && outlen <= outsize && outbuf[..outlen] == emitted)
      && (hasWriter ==> written == before + emitted)
    }

    /** All bits put out since the last reset: the emitted bytes, then the accumulator. */
    ghost function Stream(): Bits
      reads this
    {
      BytesBits(emitted) + ToBits(outbits, noutbits)
    }

    constructor (growBuffer: bool, hasWriter: bool, hashBits: nat, dictSize: nat)
      ensures Valid() && emitted == before == [] && noutbits == 0 && !compDisabled && fresh(outbuf)
      ensures this.growBuffer == growBuffer && this.hasWriter == hasWriter
      ensures this.hashBits == hashBits && this.dictSize == dictSize
      ensures fresh(hashTable) && hashTable.Length == Pow2(hashBits)
      ensures forall h | 0 <= h < hashTable.Length :: hashTable[h] == None
    {
      this.growBuffer, this.hasWriter := growBuffer, hasWriter;
      this.hashBits, this.dictSize := hashBits, dictSize;
      hashTable := new Option<nat>[Pow2(hashBits)](_ => None);
      outbuf := new byte[0];
      outlen, outsize, outbits, noutbits, compDisabled := 0, 0, 0, 0, false;
      written, emitted, before := [], [], [];
    }

    /** `realloc` of the output buffer. */
    method Grow(size: nat)
      requires growBuffer ==> outlen <= outsize == outbuf.Length && outsize <= size
      modifies this`outbuf, this`outsize
      ensures outsize == size
      ensures !growBuffer ==> outbuf == old(outbuf)
      ensures growBuffer ==> fresh(outbuf) && outbuf.Length == size && outbuf[..outlen] == old(outbuf[..outlen])
    {
      outsize := size;
      if growBuffer {
        var bigger := new byte[size];
        forall i | 0 <= i < outlen {
          bigger[i] := outbuf[i];
        }
        outbuf := bigger;
      }
    }

    /** Hands one byte to the buffer and to the callback. */
    method Emit(b: byte)
      requires Stored() && (growBuffer ==> outlen < outsize)
      modifies this`outlen, this`emitted, this`written, outbuf
      ensures Stored() && emitted == old(emitted) + [b]
    {
      if growBuffer {
        outbuf[outlen] := b;
      }
      if hasWriter {
        written := written + [b];
      }
      outlen := outlen + 1;
      emitted := emitted + [b];
    }

    method OutBits(bits: nat, nbits: nat)
      requires Valid()
      requires bits < Pow2(nbits) && noutbits + nbits <= 32
      modifies this`outbuf, this`outlen, this`outsize, this`outbits, this`noutbits,
               this`written, this`emitted, outbuf
      ensures Valid() && (outbuf == old(outbuf) || fresh(outbuf))
      ensures Stream() == old(Stream()) + ToBits(bits, nbits)
    {
      hide ToBits, Pow2, Shl, Or, BytesBits;
      ghost var all := Stream() + ToBits(bits, nbits);
      OrDisjoint(outbits, bits, noutbits);
      ShlBound(outbits, bits, noutbits, nbits);
      ToBitsAdd(outbits, bits, noutbits, nbits);
      outbits := Or(outbits, Shl(bits, noutbits));
      noutbits := noutbits + nbits;
      while noutbits >= 8
        invariant Stored() && Stream() == all
        invariant outbuf == old(outbuf) || fresh(outbuf)
      {
        if outlen + 1 >= outsize {
          Grow(outlen + 64);
        }
        ghost var e, v, n := emitted, outbits, noutbits;
        Emit(outbits % 256);
        outbits := outbits / 256;
        noutbits := noutbits - 8;
        ByteOut(e, v, n);
      }
    }

    method Out4Bytes(st: byte, nd: byte, rd: byte, th: byte)
      requires Valid()
      modifies this`outbuf, this`outlen, this`outsize, this`written, this`emitted, outbuf
      ensures Valid() && (outbuf == old(outbuf) || fresh(outbuf))
      ensures emitted == old(emitted) + [st, nd, rd, th]
    {
      hide Pow2;
      if outlen + 4 > outsize {
        Grow(outlen + 4);
      }
      Emit(st);
      Emit(nd);
      Emit(rd);
      Emit(th);
    }

    method Literal(c: byte)
      requires Valid()
      modifies this`outbuf, this`outlen, this`outsize, this`outbits, this`noutbits,
               this`written, this`emitted, outbuf
      ensures Valid() && (outbuf == old(outbuf) || fresh(outbuf))
      ensures Stream() == old(Stream()) + if compDisabled then ToBits(c, 8) else SymbolBits(c)
    {
      hide ToBits, MsbBits, BytesBits, MirrorByte;
      assert Pow2(8) == 256 && Pow2(9) == 512;
      hide Pow2;
      if compDisabled {
        OutBits(c, 8);
      } else if c <= 143 {
        EightBits(0x30 + c);
        OutBits(MirrorByte(0x30 + c), 8);
      } else {
        NineBits(0x90 - 144 + c);
        EightBits(0x90 - 144 + c);
        OutBits(1 + 2 * MirrorByte(0x90 - 144 + c), 9);
      }
    }

    /** The search zlib_match does for the length code of a piece. */
    static method FindLength(len: nat) returns (k: nat)
      requires 3 <= len <= 258
      ensures k == LengthRowFor(len)
    {
      hide LENCODES, LengthRowFor;
      LengthRowUnique(len, 0);
      var i: int, j: int := -1, 29;
      while true
        invariant -1 <= i < LengthRowFor(len) < j <= 29
        decreases j - i
      {
        assert j - i >= 2;
        k := (j + i) / 2;
        LengthRowUnique(len, k);
        if len < LENCODES[k].min + 3 {
          j := k;
        } else if len > LENCODES[k].max + 3 {
          i := k;
        } else {
          return;
        }
      }
    }

    static method FindDistance(distance: nat) returns (k: nat)
      requires 1 <= distance <= 32768
      ensures k == DistRowFor(distance)
    {
      hide DISTCODES, DistRowFor;
      DistRowUnique(distance, 0);
      var i: int, j: int := -1, 30;
      while true
        invariant -1 <= i < DistRowFor(distance) < j <= 30
        decreases j - i
      {
        assert j - i >= 2;
        k := (j + i) / 2;
        DistRowUnique(distance, k);
        if distance < DISTCODES[k].min {
          j := k;
        } else if distance > DISTCODES[k].max {
          i := k;
        } else {
          return;
        }
      }
    }

    method LengthSymbol(lcode: nat)
      requires Valid() && 257 <= lcode <= 285
      modifies this`outbuf, this`outlen, this`outsize, this`outbits, this`noutbits,
               this`written, this`emitted, outbuf
      ensures Valid() && (outbuf == old(outbuf) || fresh(outbuf))
      ensures Stream() == old(Stream()) + SymbolBits(lcode)
    {
      hide ToBits, MsbBits, BytesBits, MirrorByte, Pow2;
      if lcode <= 279 {
        SevenBits(lcode - 256);
        OutBits(MirrorByte((lcode - 256) * 2), 7);
      } else {
        var x: byte := lcode - 280 + 0xc0;
        EightBits(x);
        OutBits(MirrorByte(x), 8);
      }
    }

    method LengthCode(len: nat)
      requires Valid() && 3 <= len <= 258
      modifies this`outbuf, this`outlen, this`outsize, this`outbits, this`noutbits,
               this`written, this`emitted, outbuf
      ensures Valid() && (outbuf == old(outbuf) || fresh(outbuf))
      ensures Stream() == old(Stream()) + LengthBits(len)
    {
      hide ToBits, BytesBits, LENCODES, Pow2, LengthRowFor, SymbolBits;
      var k := FindLength(len);
      LengthRow(k);
      LengthSymbol(k + 257);
      if LENCODES[k].extrabits != 0 {
        OutBits(len - (LENCODES[k].min + 3), LENCODES[k].extrabits);
      } else {
        NoBits(len - (LENCODES[k].min + 3));
      }
    }

    method DistanceCode(distance: nat)
      requires Valid() && 1 <= distance <= 32768
      modifies this`outbuf, this`outlen, this`outsize, this`outbits, this`noutbits,
               this`written, this`emitted, outbuf
      ensures Valid() && (outbuf == old(outbuf) || fresh(outbuf))
      ensures Stream() == old(Stream()) + DistBits(distance)
    {
      hide ToBits, MsbBits, BytesBits, DISTCODES, Pow2, DistRowFor, MirrorByte;
      var k := FindDistance(distance);
      DistRow(k);
      FiveBits(DISTCODES[k].code);
      OutBits(MirrorByte(DISTCODES[k].code * 8), 5);
      if DISTCODES[k].extrabits != 0 {
        OutBits(distance - DISTCODES[k].min, DISTCODES[k].extrabits);
      } else {
        NoBits(distance - DISTCODES[k].min);
      }
    }

    method MatchPiece(distance: nat, len: nat)
      requires Valid() && 1 <= distance <= 32768 && 3 <= len <= 258
      modifies this`outbuf, this`outlen, this`outsize, this`outbits, this`noutbits,
               this`written, this`emitted, outbuf
      ensures Valid() && (outbuf == old(outbuf) || fresh(outbuf))
      ensures Stream() == old(Stream()) + TokenBits(Match(distance, len))
    {
      hide ToBits, BytesBits, Pow2, LengthBits, DistBits;
      LengthCode(len);
      DistanceCode(distance);
    }

    method ZlibMatch(distance: nat, length: nat)
      requires Valid() && !compDisabled && 1 <= distance <= 32768 && (length == 0 || length >= 3)
      modifies this`outbuf, this`outlen, this`outsize, this`outbits, this`noutbits,
               this`written, this`emitted, outbuf
      ensures Valid() && (outbuf == old(outbuf) || fresh(outbuf))
      ensures Stream() == old(Stream()) + TokensBits(Pieces(distance, length))
    {
      hide *;
      NoPieces(distance);
      var len := length;
      ghost var done := [];
      while len > 0
        invariant Valid() && (outbuf == old(outbuf) || fresh(outbuf))
        invariant len == 0 || len >= 3
        invariant Stream() == old(Stream()) + TokensBits(done)
        invariant Pieces(distance, length) == done + Pieces(distance, len)
      {
        var thislen := if len > 260 then 258 else if len <= 258 then len else len - 3;
        assert thislen == PieceLength(len) by { PieceLengthIs(len); }
        SplitPieces(distance, len, done);
        TokensBitsSnoc(done, Match(distance, thislen));
        Assoc(old(Stream()), TokensBits(done), TokenBits(Match(distance, thislen)));
        len := len - thislen;
        MatchPiece(distance, thislen);
        done := done + [Match(distance, thislen)];
      }
      assert done == Pieces(distance, length);
    }

    /** zlib_start_block (`final`) and zlib_next_block. */
    method OpenBlock(final: bool)
      requires Valid()
      modifies this`outbuf, this`outlen, this`outsize, this`outbits, this`noutbits,
               this`written, this`emitted, outbuf
      ensures Valid() && (outbuf == old(outbuf) || fresh(outbuf))
      ensures Stream() == old(Stream()) + BlockHeader(final, 1)
    {
      assert Pow2(1) == 2 && Pow2(2) == 4 && ToBits(1, 1) == [true] && ToBits(0, 1) == [false];
      hide ToBits, BytesBits, Pow2;
      OutBits(if final then 1 else 0, 1);
      OutBits(1, 2);
    }

    /** The two calls that end a block and push its last bits out. */
    method CloseBlock(n: nat)
      requires Valid() && (n == 0 || n == 3)
      modifies this`outbuf, this`outlen, this`outsize, this`outbits, this`noutbits,
               this`written, this`emitted, outbuf
      ensures Valid() && (outbuf == old(outbuf) || fresh(outbuf))
      ensures BytesBits(emitted) == Padded(old(Stream()) + SymbolBits(END_OF_BLOCK) + ToBits(0, n))
    {
      hide ToBits, BytesBits, Pow2, MsbBits;
      EndCode();
      OutBits(0, 7);
      if n != 0 {
        OutBits(0, n);
      } else {
        NoBits(0);
      }
      ghost var all := Stream();
      OutBits(0, 7);
      Flushed(all, emitted, outbits, noutbits);
    }

    method FinishBlock()
      requires Valid()
      modifies this`outbuf, this`outlen, this`outsize, this`outbits, this`noutbits,
               this`written, this`emitted, outbuf
      ensures Valid() && (outbuf == old(outbuf) || fresh(outbuf))
      ensures BytesBits(emitted) == Padded(old(Stream()) + SymbolBits(END_OF_BLOCK))
    {
      hide BytesBits, MsbBits;
      CloseBlock(0);
      NoBits(0);
    }

    /** Ends a block and adds an empty stored block, whose four length bytes bypass the
        accumulator: the bits left in it are zeros that no byte needs. */
    method EmptyBlock()
      requires Valid()
      modifies this`outbuf, this`outlen, this`outsize, this`outbits, this`noutbits,
               this`written, this`emitted, outbuf
      ensures Valid() && (outbuf == old(outbuf) || fresh(outbuf))
      ensures BytesBits(emitted) ==
        Padded(old(Stream()) + SymbolBits(END_OF_BLOCK) + BlockHeader(false, 0)) + BytesBits(EMPTY_STORED)
    {
      hide ToBits, BytesBits, MsbBits;
      EmptyHeader();
      CloseBlock(3);
      BytesBitsConcat(emitted, EMPTY_STORED);
      Out4Bytes(0x00, 0x00, 0xFF, 0xFF);
    }

    /** What uzlib_deflate_stream does before each chunk; the buffer was freed before. */
    method Reset()
      requires Stored()
      modifies this
      ensures Valid() && fresh(outbuf) && emitted == [] && Stream() == []
      ensures compDisabled == old(compDisabled) && written == old(written)
    {
      before := before + emitted;
      emitted := [];
      outbuf := new byte[0];
      outlen, outsize, outbits, noutbits := 0, 0, 0, 0;
    }
  }

  /** Moving the low byte of the accumulator out does not change the stream. */
  lemma ByteOut(e: seq<byte>, v: nat, n: nat)
    requires n >= 8 && v < Pow2(n)
    ensures BytesBits(e + [v % 256]) + ToBits(v / 256, n - 8) == BytesBits(e) + ToBits(v, n)
    ensures v / 256 < Pow2(n - 8)
  {
    hide ToBits, Pow2, Shl;
    OneByte(v / 256, n - 8);
    PowersUsed();
    ToBitsAdd(v % 256, v / 256, 8, n - 8);
    assert (e + [v % 256])[..|e|] == e;
  }

  lemma NineBits(x: byte)
    ensures ToBits(1 + 2 * MirrorByte(x), 9) == MsbBits(256 + x, 9)
  {
    hide *;
    MirrorIsMsb(x);
    OddBits(MirrorByte(x), 8);
    PowersUsed();
    OneByte(1, 0);
    MsbBitsAdd(1, x, 1, 8);
    MsbOne();
  }

  lemma OddBits(m: nat, n: nat)
    ensures ToBits(1 + 2 * m, n + 1) == [true] + ToBits(m, n)
  {
    assert (1 + 2 * m) % 2 == 1 && (1 + 2 * m) / 2 == m;
  }

  lemma MsbOne()
    ensures MsbBits(1, 1) == [true]
  {
    assert MsbBits(0, 0) == [];
  }

  lemma EightBits(x: byte)
    ensures ToBits(MirrorByte(x), 8) == MsbBits(x, 8) && MirrorByte(x) < Pow2(8)
  {
    hide MirrorByte;
    MirrorIsMsb(x);
    assert Pow2(8) == 256;
  }

  /** Shorter codes are looked up shifted to the top of the byte. */
  lemma ShortCode(x: nat, n: nat, k: nat)
    requires n + k == 8 && Shl(x, k) < 256
    ensures ToBits(MirrorByte(Shl(x, k)), n) == MsbBits(x, n)
  {
    hide MirrorByte, ToBits, MsbBits, Shl;
    var m: nat := MirrorByte(Shl(x, k));
    MirrorIsMsb(Shl(x, k));
    MsbBitsAdd(x, 0, n, k);
    ToBitsSplit(m, n, k);
    assert ToBits(m, n) == ToBits(m, 8)[..n];
    assert MsbBits(x, n) == MsbBits(Shl(x, k), 8)[..n];
  }

  lemma ShortCodeBound(x: byte)
    ensures x % 2 == 0 ==> MirrorByte(x) < 128
    ensures x % 8 == 0 ==> MirrorByte(x) < 32
  {
    hide MirrorByte;
    MirrorEntry(x);
  }

  lemma SevenBits(x: nat)
    requires x < 128
    ensures ToBits(MirrorByte(2 * x), 7) == MsbBits(x, 7) && MirrorByte(2 * x) < Pow2(7)
  {
    hide MirrorByte, ToBits, MsbBits;
    assert Shl(x, 1) == 2 * x && Pow2(7) == 128;
    hide Shl;
    ShortCode(x, 7, 1);
    ShortCodeBound(2 * x);
  }

  lemma FiveBits(x: nat)
    requires x < 32
    ensures ToBits(MirrorByte(8 * x), 5) == MsbBits(x, 5) && MirrorByte(8 * x) < Pow2(5)
  {
    hide MirrorByte, ToBits, MsbBits, Shl;
    SmallShifts(x);
    assert Pow2(5) == 32;
    ShortCode(x, 5, 3);
    ShortCodeBound(8 * x);
  }

  lemma NoBits(v: nat)
    ensures forall b: Bits :: b + ToBits(v, 0) == b
  {}

  lemma NoPieces(distance: nat)
    requires 1 <= distance <= 32768
    ensures TokensBits([]) == [] && Pieces(distance, 0) == []
    ensures forall b: Bits :: b + [] == b
    ensures forall ts: seq<Token> :: [] + ts == ts && ts + [] == ts
  {}

  lemma PieceLengthIs(len: nat)
    ensures PieceLength(len) == if len > 260 then 258 else if len <= 258 then len else len - 3
  {}

  /** Sending the first piece and then the others sends them all. */
  lemma SplitPieces(d: nat, len: nat, done: seq<Token>)
    requires 1 <= d <= 32768 && len >= 3
    ensures done + Pieces(d, len) == done + [Match(d, PieceLength(len))] + Pieces(d, len - PieceLength(len))
  {
    hide Pieces, PieceLength;
    var m := Match(d, PieceLength(len));
    FirstPiece(d, len);
    assert done + ([m] + Pieces(d, len - m.len)) == done + [m] + Pieces(d, len - m.len);
  }

  lemma FirstPiece(d: nat, len: nat)
    requires 1 <= d <= 32768 && len >= 3
    ensures Pieces(d, len) == [Match(d, PieceLength(len))] + Pieces(d, len - PieceLength(len))
  {
    hide PieceLength, Encodable, MatchedLength;
  }

  lemma TokensBitsSnoc(ts: seq<Token>, t: Token)
    ensures TokensBits(ts + [t]) == TokensBits(ts) + TokenBits(t)
  {
    assert (ts + [t])[..|ts|] == ts;
  }

  const EMPTY_STORED: seq<byte> := [0x00, 0x00, 0xFF, 0xFF]

  function BlockHeader(final: bool, btype: nat): Bits { [final] + ToBits(btype, 2) }

  /** Zero bits up to the next byte boundary. */
  function Padded(b: Bits): Bits { b + ToBits(0, Align(|b|) - |b|) }

  lemma EndCode()
    ensures ToBits(0, 7) == SymbolBits(END_OF_BLOCK)
    ensures Pow2(7) > 0 && Pow2(3) > 0
  {
    Zeros(7);
  }

  lemma EmptyHeader()
    ensures ToBits(0, 3) == BlockHeader(false, 0)
  {
    assert ToBits(0, 3) == [false] + ToBits(0, 2);
  }

  lemma {:induction false} Zeros(n: nat)
    ensures MsbBits(0, n) == ToBits(0, n) == seq(n, i => false)
  {
    if n == 0 {
    } else {
      Zeros(n - 1);
      assert [false] + seq(n - 1, i => false) == seq(n, i => false);
      assert seq(n - 1, i => false) + [false] == seq(n, i => false);
    }
  }

  /** Seven more zero bits push out everything before them. */
  lemma Flushed(all: Bits, e: seq<byte>, v: nat, n: nat)
    requires n < 8 && BytesBits(e) + ToBits(v, n) == all + ToBits(0, 7)
    ensures BytesBits(e) == Padded(all)
  {
    hide ToBits, BytesBits, MsbBits;
    var k := Align(|all|) - |all|;
    var z := ToBits(0, 7);
    assert 8 * |e| == |all| + 7 - n == |all| + k;
    Zeros(7);
    Zeros(k);
    assert z[..k] == ToBits(0, k);
    assert BytesBits(e) == (BytesBits(e) + ToBits(v, n))[..|all| + k] == (all + z)[..|all| + k] == all + z[..k];
  }
}
