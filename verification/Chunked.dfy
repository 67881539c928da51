/** A stream compressed chunk by chunk inflates to the chunks put together. */
module Chunked {
  import opened Bits
  import Coded
  import opened DeflStatic
  import opened Huffman
  import opened Inflate
  import opened Lz77
  import opened RoundTrip
  import StaticCode
  import Stored

  /** The bits of a chunk. */
  function ChunkBits(final: bool, ts: seq<StaticCode.Token>): Bits {
    if final then Padded(FixedBlock(true, ts))
    else Padded(FixedBlock(false, ts) + BlockHeader(false, 0)) + BytesBits(EMPTY_STORED)
  }

  /** A chunk of input, the tokens found in it, and the bytes put out for it. */
  datatype Chunk = Chunk(data: seq<byte>, ts: seq<StaticCode.Token>, bytes: seq<byte>)

  ghost predicate Encodes(c: Chunk, final: bool, limit: nat) {
    BytesBits(c.bytes) == ChunkBits(final, c.ts) && Covers(c.ts, c.data, |c.data|, limit)
  }

  /** An empty stored block only moves on to the next byte boundary and past its lengths. */
  lemma EmptyBlockRuns(B: Bits, s: State, w: Window)
    requires WellFormed(s, w) && s.btype == -1 && s.pos <= |B|
    requires At(B, s.pos, BlockHeader(false, 0)) && At(B, Align(s.pos + 3), BytesBits(EMPTY_STORED))
    ensures var s' := s.(pos := Align(s.pos + 3) + 32, bfinal := false);
      WellFormed(s', w) && s'.pos <= |B| && All(B, s, w) == All(B, s', w)
  {
    hide Align, BytesBits, At, Lengths, All;
    assert ToBits(0, 2) == [false] + ToBits(0, 1) && ToBits(0, 1) == [false] + ToBits(0, 0);
    assert BlockHeader(false, 0) == [false, false, false];
    assert EMPTY_STORED == Stored.StoredBytes([]) && s.hist + [] == s.hist;
    var t := Stored.StoredRuns(B, s, w, false, []);
  }

  /** The parts of a chunk that is not the last. */
  lemma ChunkParts(B: Bits, p: nat, ts: seq<StaticCode.Token>)
    requires p % 8 == 0 && At(B, p, ChunkBits(false, ts))
    ensures At(B, p, FixedBlock(false, ts)) && At(B, p + |FixedBlock(false, ts)|, BlockHeader(false, 0))
    ensures At(B, Align(p + |FixedBlock(false, ts)| + 3), BytesBits(EMPTY_STORED))
    ensures p + |ChunkBits(false, ts)| == Align(p + |FixedBlock(false, ts)| + 3) + 32
  {
    hide FixedBlock, ToBits, BytesBits, At, Align, Padded;
    var x, h := FixedBlock(false, ts), BlockHeader(false, 0);
    AtConcat(B, p, Padded(x + h), BytesBits(EMPTY_STORED));
    PaddedAt(B, p, x + h);
    AtConcat(B, p, x, h);
  }

  /** Padding from a byte boundary ends at the next one. */
  lemma PaddedAt(B: Bits, p: nat, u: Bits)
    requires p % 8 == 0 && At(B, p, Padded(u))
    ensures At(B, p, u) && p + |Padded(u)| == Align(p + |u|)
  {
    hide ToBits, At;
    AtConcat(B, p, u, ToBits(0, Align(|u|) - |u|));
  }

  /** One chunk that is not the last. */
  lemma OpenChunkRuns(B: Bits, s: State, w: Window, c: Chunk, limit: nat) returns (s': State)
    requires WellFormed(s, w) && s.btype == -1 && s.pos % 8 == 0 && At(B, s.pos, BytesBits(c.bytes))
    requires Encodes(c, false, limit) && Coded.Reaches(w, limit)
    ensures s'.hist == s.hist + c.data && s'.pos == s.pos + 8 * |c.bytes| && Align(s'.pos) == s'.pos
    ensures WellFormed(s', w) && s'.btype == -1 && s'.pos % 8 == 0 && s'.pos <= |B| && All(B, s, w) == All(B, s', w)
  {
    hide FixedBlock, ToBits, BytesBits, At, All, Lengths, Expand, DistancesWithin, ChunkBits;
    assert c.data[..|c.data|] == c.data;
    ChunkParts(B, s.pos, c.ts);
    var s1 := BlockRuns(B, s, w, false, c.ts, limit);
    EmptyBlockRuns(B, s1, w);
    s' := s1.(pos := Align(s1.pos + 3) + 32, bfinal := false);
  }

  /** The last chunk. */
  lemma FinalChunkRuns(B: Bits, s: State, w: Window, c: Chunk, limit: nat) returns (s': State)
    requires WellFormed(s, w) && s.btype == -1 && s.pos % 8 == 0 && At(B, s.pos, BytesBits(c.bytes))
    requires Encodes(c, true, limit) && Coded.Reaches(w, limit)
    ensures s'.hist == s.hist + c.data && Align(s'.pos) == s.pos + 8 * |c.bytes| && All(B, s, w) == (Done, s')
  {
    hide FixedBlock, ToBits, BytesBits, At, All, Lengths, Expand, DistancesWithin;
    assert c.data[..|c.data|] == c.data;
    AtConcat(B, s.pos, FixedBlock(true, c.ts), ToBits(0, Align(|FixedBlock(true, c.ts)|) - |FixedBlock(true, c.ts)|));
    s' := BlockRuns(B, s, w, true, c.ts, limit);
  }

  lemma ChunkRuns(B: Bits, s: State, w: Window, c: Chunk, final: bool, limit: nat) returns (s': State)
    requires WellFormed(s, w) && s.btype == -1 && s.pos % 8 == 0 && At(B, s.pos, BytesBits(c.bytes))
    requires Encodes(c, final, limit) && Coded.Reaches(w, limit)
    ensures s'.hist == s.hist + c.data && Align(s'.pos) == s.pos + 8 * |c.bytes|
    ensures final ==> All(B, s, w) == (Done, s')
    ensures !final ==>
      WellFormed(s', w) && s'.btype == -1 && s'.pos % 8 == 0 && s'.pos <= |B| && All(B, s, w) == All(B, s', w)
  {
    hide Encodes, At, BytesBits, All, WellFormed, Align;
    if final {
      s' := FinalChunkRuns(B, s, w, c, limit);
    } else {
      s' := OpenChunkRuns(B, s, w, c, limit);
    }
  }

  function Data(cs: seq<Chunk>): seq<byte> {
    if cs == [] then [] else Data(cs[..|cs| - 1]) + cs[|cs| - 1].data
  }

  function Bytes(cs: seq<Chunk>): seq<byte> {
    if cs == [] then [] else Bytes(cs[..|cs| - 1]) + cs[|cs| - 1].bytes
  }

  /** All chunks encode their data, and only the last, if any, is final. */
  ghost predicate Chunks(cs: seq<Chunk>, ended: bool, limit: nat) {
    && (ended ==> cs != [])
    && forall i | 0 <= i < |cs| :: Encodes(cs[i], ended && i == |cs| - 1, limit)
  }

  /** The chunks of a stream come out one after the other, and the stream is only done after
      the final one. */
  lemma {:induction false} StreamRuns(B: Bits, s: State, w: Window, cs: seq<Chunk>, ended: bool, limit: nat)
    returns (s': State)
    requires WellFormed(s, w) && s.btype == -1 && s.pos % 8 == 0 && s.pos <= |B|
    requires At(B, s.pos, BytesBits(Bytes(cs)))
    requires Chunks(cs, ended, limit) && Coded.Reaches(w, limit)
    ensures s'.hist == s.hist + Data(cs) && Align(s'.pos) == s.pos + 8 * |Bytes(cs)|
    ensures ended ==> All(B, s, w) == (Done, s')
    ensures !ended ==>
      WellFormed(s', w) && s'.btype == -1 && s'.pos % 8 == 0 && s'.pos <= |B| && All(B, s, w) == All(B, s', w)
    decreases |cs|
  {
    hide BytesBits, At, All, Lengths, Encodes;
    if cs == [] {
      s' := s;
      assert s.hist + [] == s.hist;
    } else {
      var first, c := cs[..|cs| - 1], cs[|cs| - 1];
      BytesBitsConcat(Bytes(first), c.bytes);
      AtConcat(B, s.pos, BytesBits(Bytes(first)), BytesBits(c.bytes));
      var s1 := StreamRuns(B, s, w, first, false, limit);
      s' := ChunkRuns(B, s1, w, c, ended, limit);
      Assoc(s.hist, Data(first), c.data);
    }
  }
}
