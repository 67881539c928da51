/** Compression chunk by chunk (uzlib_deflate_stream): every chunk but the last is a static
    block followed by an empty stored block, which brings the output to a byte boundary. */
module DeflateStream {
  import opened Bits
  import opened Chunked
  import opened Checksum
  import opened DeflStatic
  import Gzip
  import Lz77
  import StaticCode

  const Z_OK := 0
  const Z_STREAM_END := 1
  const Z_BUF_ERROR := -5

  /** `struct uzlib_stream`, with the checksum of its context. */
  class UzlibStream {
    const ctx: UzlibComp
    var checksum: bv32
    /** `in.next` for `in.avail` bytes. */
    var input: seq<byte>
    var inTotal: nat
    /** `out.next` as a buffer and a position in it. */
    const out: array<byte>
    var outNext: nat
    var outAvail: nat
    var outTotal: nat
    /** Output left over for the next call (`outbuf`, if it is not NULL between calls). */
    var pending: seq<byte>

    /** uzlib_deflate_init_stream. */
    constructor (ctx: UzlibComp, out: array<byte>)
      ensures this.ctx == ctx && checksum == Gzip.CRC_START && input == [] && inTotal == 0
      ensures this.out == out && outNext == outAvail == outTotal == 0 && pending == []
    {
      this.ctx, this.out := ctx, out;
      checksum, pending := Gzip.CRC_START, [];
      input, inTotal, outNext, outAvail, outTotal := [], 0, 0, 0, 0;
    }

    ghost predicate Ready()
      reads this, ctx, ctx.outbuf
    {
      && ctx.Stored() && !ctx.compDisabled && ctx.growBuffer
      && ctx.hashBits <= 24 && ctx.hashTable.Length == Pow2(ctx.hashBits) && ctx.dictSize <= 32768
      && outNext + outAvail <= out.Length && out != ctx.outbuf && LeftOver()
    }

    /** What is left over are the last bytes of the context's buffer, and `out.total` says how
        far into it they start: so the pointer that is freed is the one that was allocated. */
    ghost predicate LeftOver()
      requires ctx.Stored() && ctx.growBuffer
      reads this`outTotal, this`pending, ctx, ctx.outbuf
    {
      pending != [] ==> outTotal <= ctx.outlen && pending == ctx.outbuf[outTotal..ctx.outlen]
    }

    /** Compresses the input into the context's own buffer. */
    method CompressChunk(finish: bool) returns (ghost c: Chunk)
      requires Ready()
      modifies ctx, ctx.outbuf, ctx.hashTable
      ensures ctx.Valid() && ctx.growBuffer && fresh(ctx.outbuf) && ctx.emitted == c.bytes
      ensures ctx.compDisabled == finish
      ensures c.data == input && Encodes(c, finish, ctx.dictSize)
    {
      hide Lz77.Greedy, Lz77.Covers, StaticCode.TokensBits, StaticCode.SymbolBits, Padded, UzlibComp.Stream, BytesBits,
        Pow2, ToBits;
      ctx.Reset();
      ctx.OpenBlock(finish);
      ghost var ts := Lz77.UzlibCompress(ctx, input);
      assert [] + BlockHeader(finish, 1) == BlockHeader(finish, 1);
      if !finish {
        ctx.EmptyBlock();
      } else {
        ctx.FinishBlock();
        ctx.compDisabled := true;
      }
      c := Chunk(input, ts, ctx.emitted);
    }

    /** Copies bytes to the output. */
    method CopyOut(w: seq<byte>)
      requires |w| <= outAvail && outNext + outAvail <= out.Length
      modifies this`outNext, this`outAvail, out
      ensures outNext == old(outNext) + |w| && outAvail == old(outAvail) - |w|
      ensures out[..outNext] == old(out[..outNext]) + w
    {
      ghost var before := out[..outNext];
      for i := 0 to |w|
        invariant out[..outNext + i] == before + w[..i]
        modifies out
      {
        out[outNext + i] := w[i];
      }
      outNext, outAvail := outNext + |w|, outAvail - |w|;
    }

    /** Hands out what the last call left over, as far as there is room. */
    method FlushPending()
      requires Ready()
      modifies this`outNext, this`outAvail, this`outTotal, this`pending, out
      ensures var n := if |old(pending)| <= old(outAvail) then |old(pending)| else old(outAvail);
        && outNext == old(outNext) + n <= out.Length && outAvail == old(outAvail) - n
        && pending == old(pending)[n..] && out[..outNext] == old(out[..outNext]) + old(pending)[..n]
        && outTotal == old(outTotal) + n
      ensures Ready()
    {
      hide Pow2;
      if outAvail < |pending| {
        var avail := outAvail;
        CopyOut(pending[..avail]);
        pending := pending[avail..];
        outTotal := outTotal + avail;
      } else {
        CopyOut(pending);
        outTotal := outTotal + |pending|;
        pending := [];
      }
    }

    /** Compresses the input as one more chunk. */
    method DeflateChunk(finish: bool) returns (res: int, ghost c: Chunk)
      requires Ready() && pending == []
      modifies this, ctx, ctx.outbuf, ctx.hashTable, out
      ensures ctx.outbuf == old(ctx.outbuf) || fresh(ctx.outbuf)
      ensures c.data == old(input) && Encodes(c, finish, ctx.dictSize)
      ensures checksum == Crc(old(checksum), old(input)) && input == [] && inTotal == old(inTotal) + |old(input)|
      ensures Delivered(c, finish, res, old(outNext), old(outAvail), old(out[..outNext]))
      ensures outTotal == TotalAfter(c, finish, old(outTotal), old(outAvail))
    {
      hide Crc, Encodes, BytesBits, ToBits, Pow2;
      checksum := UzlibCrc32(input, checksum);
      c := CompressChunk(finish);
      inTotal := inTotal + |input|;
      input := [];
      hide Ready, Delivered, TotalAfter, UzlibComp.Valid;
      res := HandOut(finish, c);
    }

    /** A chunk waits in the context's buffer. */
    ghost predicate Waits(c: Chunk, finish: bool)
      reads this, ctx, ctx.outbuf
    {
      && ctx.Valid() && ctx.growBuffer && ctx.emitted == c.bytes && ctx.compDisabled == finish
      && ctx.hashBits <= 24 && ctx.hashTable.Length == Pow2(ctx.hashBits) && ctx.dictSize <= 32768
      && outNext + outAvail <= out.Length && out != ctx.outbuf && pending == []
    }

    /** Copies the chunk to the output, as far as there is room. */
    method HandOut(finish: bool, ghost c: Chunk) returns (res: int)
      requires Waits(c, finish)
      modifies this`outNext, this`outAvail, this`outTotal, this`pending, out
      ensures Delivered(c, finish, res, old(outNext), old(outAvail), old(out[..outNext]))
      ensures outTotal == TotalAfter(c, finish, old(outTotal), old(outAvail))
    {
      hide Pow2;
      if outAvail < ctx.outlen {
        if finish {
          return Z_BUF_ERROR;
        }
        var avail := outAvail;
        CopyOut(ctx.outbuf[..avail]);
        outTotal := avail;
        pending := ctx.outbuf[avail..ctx.outlen];
        return Z_OK;
      }
      var outlen := ctx.outlen;
      CopyOut(ctx.outbuf[..outlen]);
      outTotal := if finish then outlen else outTotal + outlen;
      res := if finish then Z_STREAM_END else Z_OK;
    }

    /** uzlib_deflate_stream: first what is left over, then, if all of that is gone, the input. */
    method Deflate(finish: bool) returns (res: int, ghost c: Chunk)
      requires Ready()
      modifies this, ctx, ctx.outbuf, ctx.hashTable, out
      ensures ctx.outbuf == old(ctx.outbuf) || fresh(ctx.outbuf)
      ensures if Compresses(old(pending), old(outAvail), old(input), finish) then
          && c.data == old(input) && Encodes(c, finish, ctx.dictSize)
          && checksum == Crc(old(checksum), old(input)) && input == [] && inTotal == old(inTotal) + |old(input)|
          && Delivered(c, finish, res, old(outNext + |pending|), old(outAvail - |pending|),
            old(out[..outNext] + pending))
          && outTotal == TotalAfter(c, finish, old(outTotal + |pending|), old(outAvail - |pending|))
        else
          && res == Z_OK && Ready() && input == old(input) && checksum == old(checksum) && inTotal == old(inTotal)
          && Passed(old(pending), old(outNext), old(outAvail), old(out[..outNext]))
    {
      hide Crc, Encodes, BytesBits, ToBits, Pow2, TotalAfter, UzlibComp.Stored;
      c := Chunk([], [], []);
      if pending != [] {
        FlushPending();
        if pending != [] || input == [] {
          return Z_OK, c;
        }
      }
      if input == [] && !finish {
        return Z_OK, c;
      }
      res, c := DeflateChunk(finish);
    }

    predicate Compresses(left: seq<byte>, avail: nat, data: seq<byte>, finish: bool) {
      |left| <= avail && (data != [] || (finish && left == []))
    }

    /** `out.total` after a chunk: it only goes on counting when nothing is cut off. */
    function TotalAfter(c: Chunk, finish: bool, total: nat, avail: nat): nat {
      if |c.bytes| <= avail then (if finish then |c.bytes| else total + |c.bytes|)
      else if finish then total
      else avail
    }

    /** Only bytes left over were handed out. */
    ghost predicate Passed(left: seq<byte>, next: nat, avail: nat, before: seq<byte>)
      reads this, out
    {
      var n := if |left| <= avail then |left| else avail;
      outNext == next + n <= out.Length && outAvail == avail - n && pending == left[n..]
        && out[..outNext] == before + left[..n]
    }

    /** What became of a chunk: all of it follows what the output held `before`, if there
        was room for it; else the rest of it is left over, unless it was the last. */
    ghost predicate Delivered(c: Chunk, finish: bool, res: int, next: nat, avail: nat, before: seq<byte>)
      reads this, out, ctx, ctx.outbuf
    {
      if |c.bytes| <= avail then
        && res == (if finish then Z_STREAM_END else Z_OK) && pending == []
        && outNext == next + |c.bytes| <= out.Length && outAvail == avail - |c.bytes|
        && out[..outNext] == before + c.bytes && (if finish then ctx.compDisabled else Ready())
      else if finish then res == Z_BUF_ERROR && outNext == next && ctx.compDisabled
      else
        && res == Z_OK && Ready() && pending == c.bytes[avail..] && outNext == next + avail <= out.Length
        && outAvail == 0
        && out[..outNext] == before + c.bytes[..avail]
    }
  }
}
