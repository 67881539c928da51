/** How much larger than its input a chunk can get. */
module Bound {
  import opened Bits
  import Chunked
  import GzPack
  import opened Lz77
  import RoundTrip
  import opened StaticCode
  import opened StreamWriter
  import opened Tables

  lemma LengthCost(len: nat)
    requires 3 <= len <= 258
    ensures |LengthBits(len)| + 18 <= 9 * len
  {
    hide LENCODES, LengthRowFor, MsbBits, ToBits;
    LengthRow(0);
    var k := LengthRowFor(len);
    LengthRow(k);
    if k < 8 {
      LengthRowUnique(len, 7);
    } else {
      LengthRowsAscend(7, k);
      LengthRow(7);
      LengthsBelow(7);
    }
  }

  lemma {:induction false} LengthsBelow(k: nat)
    requires k < 29
    ensures |LENCODES| == 29 && LENCODES[k].max >= k
  {
    hide LENCODES;
    LengthRow(k);
    if k > 0 { LengthsBelow(k - 1); }
  }

  lemma DistanceCost(dist: nat)
    requires 1 <= dist <= 32768
    ensures |DistBits(dist)| <= 18
  {
    hide DISTCODES, DistRowFor, MsbBits, ToBits;
    DistRow(0);
    DistRow(DistRowFor(dist));
  }

  /** No token costs more than nine bits for each byte it stands for. */
  lemma TokenCost(t: Token)
    requires Encodable(t)
    ensures |TokenBits(t)| <= 9 * Weight(t)
  {
    hide LengthBits, DistBits, MsbBits;
    if t.Match? {
      LengthCost(t.len);
      DistanceCost(t.dist);
    }
  }

  lemma {:induction false} TokensCost(ts: seq<Token>)
    requires Expand(ts).Some?
    ensures |TokensBits(ts)| <= 9 * |Expand(ts).value|
  {
    hide TokenBits, CopyFrom, Encodable;
    if ts == [] {
    } else {
      TokensCost(ts[..|ts| - 1]);
      TokenCost(ts[|ts| - 1]);
    }
  }

  /** A final chunk for n bytes takes at most ceil((9n + 10) / 8) bytes, any other at most
      ceil((9n + 13) / 8) + 4. */
  lemma ChunkBound(c: Chunked.Chunk, final: bool, limit: nat)
    requires Chunked.Encodes(c, final, limit)
    ensures var n := |c.data|;
      |c.bytes| <= if final then (9 * n + 17) / 8 else (9 * n + 20) / 8 + 4
  {
    hide Expand, TokensBits, SymbolBits, ToBits, BytesBits;
    assert c.data[..|c.data|] == c.data;
    TokensCost(c.ts);
    RoundTrip.SymbolSize(END_OF_BLOCK);
  }

  /** The pieces put together. */
  function Together(pieces: seq<seq<byte>>): seq<byte> {
    if pieces == [] then [] else Together(pieces[..|pieces| - 1]) + pieces[|pieces| - 1]
  }

  lemma {:induction false} PartTogether(pieces: seq<seq<byte>>, i: nat)
    requires i <= |pieces| && forall p <- pieces :: p != []
    ensures Together(pieces[..i]) <= Together(pieces)
    ensures i < |pieces| ==> Together(pieces[..i + 1]) == Together(pieces[..i]) + pieces[i]
    ensures i < |pieces| ==> |Together(pieces[..i])| < |Together(pieces)|
    decreases |pieces| - i
  {
    if i == |pieces| {
      assert pieces[..i] == pieces;
    } else {
      PartTogether(pieces, i + 1);
      assert pieces[..i + 1][..i] == pieces[..i] && pieces[i] in pieces;
    }
  }

  lemma FirstBuffer(n: nat, total: nat, m: nat)
    requires n < m && total <= n && total % m == 0
    ensures total == 0 && Slot(n, m) == n
  {}

  /** The only chunk fits. */
  lemma Fits(w: LZStreamWriter, before: seq<Chunked.Chunk>, c: Chunked.Chunk, r: int, size: nat)
    requires Chunked.Data(before) == [] && w.Outcome(before, |w.received|, c, r, size)
    requires (9 * |w.received| + 17) / 8 <= w.bufSize
    ensures w.Finished()
  {
    hide LZStreamWriter.Healthy, LZStreamWriter.Doomed, LZStreamWriter.Finished, Chunked.Data, Chunked.Encodes;
    assert [] + c.data == c.data;
    ChunkBound(c, true, GzPack.DICT_SIZE);
  }

  method WritePiece(w: LZStreamWriter, piece: seq<byte>)
    requires w.Healthy() && |w.received| + |piece| <= w.srcLen && (9 * w.srcLen + 17) / 8 <= w.bufSize
    modifies w, w.inputBuffer, w.uzstream, w.uzstream.out
    modifies w.uzstream.ctx, w.uzstream.ctx.outbuf, w.uzstream.ctx.hashTable
    ensures w.received == old(w.received) + piece
    ensures w.uzstream.ctx.outbuf == old(w.uzstream.ctx.outbuf) || fresh(w.uzstream.ctx.outbuf)
    ensures if |w.received| < old(w.srcLen) then w.Healthy() && w.srcLen == old(w.srcLen) else w.Finished()
  {
    hide LZStreamWriter.Healthy, LZStreamWriter.Doomed, LZStreamWriter.Outcome, LZStreamWriter.Finished, Chunked.Data,
      Slot;
    w.HealthyGives();
    w.AliveGives();
    FirstBuffer(|w.received|, w.totalBytes, w.bufSize);
    assert w.received[..0] == [];
    ghost var before, n := w.cs, w.srcLen;
    var r;
    ghost var c;
    r, c := w.Write(piece);
    if |w.received| == n {
      Fits(w, before, c, r, |piece|);
    }
  }

  /** A writer whose buffers have room for all its input, an eighth of it, and two bytes more
      finishes, whatever the input is and however it is divided among writes. */
  method WriteAll(pieces: seq<seq<byte>>, bufSize: nat) returns (w: LZStreamWriter)
    requires pieces != [] && forall p <- pieces :: p != []
    requires (9 * |Together(pieces)| + 17) / 8 <= bufSize
    ensures w.Finished() && w.received == Together(pieces)
  {
    hide LZStreamWriter.Healthy, LZStreamWriter.Finished, Together;
    ghost var n := |Together(pieces)|;
    NoPieces(pieces);
    PartTogether(pieces, 0);
    w := new LZStreamWriter(|Together(pieces)|, bufSize);
    for i := 0 to |pieces|
      invariant w.bufSize == bufSize && w.received == Together(pieces[..i])
      invariant if i < |pieces| then w.Healthy() && w.srcLen == n else w.Finished()
      invariant fresh(w) && fresh(w.inputBuffer) && fresh(w.uzstream) && fresh(w.uzstream.ctx)
      invariant fresh(w.uzstream.ctx.outbuf) && fresh(w.uzstream.ctx.hashTable) && fresh(w.uzstream.out)
    {
      PartTogether(pieces, i);
      PartTogether(pieces, i + 1);
      AllWritten(pieces);
      WritePiece(w, pieces[i]);
    }
    AllWritten(pieces);
  }

  lemma NoPieces(pieces: seq<seq<byte>>)
    ensures Together(pieces[..0]) == []
  {}

  lemma AllWritten(pieces: seq<seq<byte>>)
    ensures pieces[..|pieces|] == pieces
  {}
}
