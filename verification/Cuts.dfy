/** Where a compressed stream may be cut off: how the inflater stops follows from the token
    or the block header that the cut falls into. */
module Cuts {
  import Arithmetic
  import opened Bits
  import opened Chunked
  import Coded
  import Damage
  import opened DeflStatic
  import opened FixedTrees
  import opened GzHeader
  import GzPack
  import GzUnpack
  import opened Huffman
  import opened Inflate
  import opened Lz77
  import Malformed
  import opened RoundTrip
  import opened StaticCode
  import opened Tables

  /** The stop within a token of which `k` bits are there. Its length symbol once complete, a
      match goes astray up to the end of its distance code. */
  function TokenCut(t: Token, k: nat, w: Window): Status {
    if t.Literal? || !Encodable(t) || k < |LengthSymbol(t.len)| then Truncated
    else if k < |LengthBits(t.len)| + 5 then Undefined
    else CutDistance(w)
  }

  function LengthSymbol(len: nat): Bits
    requires 3 <= len <= 258
  {
    LengthRow(0);
    SymbolBits(257 + LengthRowFor(len))
  }

  /** The stop within a list of tokens, or within the end code after it. */
  function TokensCut(ts: seq<Token>, k: nat, w: Window): Status {
    if ts == [] then Truncated
    else
      var us := ts[..|ts| - 1];
      if k < |TokensBits(us)| then TokensCut(us, k, w)
      else if k < |TokensBits(ts)| then TokenCut(ts[|ts| - 1], k - |TokensBits(us)|, w)
      else Truncated
  }

  /** The stop within a chunk: in its block header, among its tokens, or in the empty stored
      block after them. */
  function ChunkCut(ts: seq<Token>, k: nat, w: Window): Status {
    if k < 3 then Exhausted
    else if k < |FixedBlock(false, ts)| then TokensCut(ts, k - 3, w)
    else Exhausted
  }

  function StreamCut(cs: seq<Chunk>, k: nat, w: Window): Status {
    if cs == [] then Exhausted
    else
      var first := cs[..|cs| - 1];
      if k < 8 * |Bytes(first)| then StreamCut(first, k, w)
      else ChunkCut(cs[|cs| - 1].ts, k - 8 * |Bytes(first)|, w)
  }

  /** `B` is a part of `C`. */
  lemma CutSymbol(B: Bits, C: Bits, p: nat, sym: nat)
    requires B <= C && sym < 288 && At(C, p, SymbolBits(sym)) && |B| < p + |SymbolBits(sym)|
    ensures Decode(FixedLit(), B, p) == Starved
  {
    hide FixedLit, SymbolBits, At, DecodeFrom;
    FixedSymbol(C, p, sym);
    SymbolSize(sym);
    Damage.SymbolAgrees(FixedLit(), B, C, p);
    Damage.SymbolEnds(FixedLit(), B, p);
  }

  lemma SymbolStops(B: Bits, C: Bits, s: State, w: Window, sym: nat)
    requires WellFormed(s, w) && InFixedBlock(s)
    requires B <= C && sym < 288 && At(C, s.pos, SymbolBits(sym)) && |B| < s.pos + |SymbolBits(sym)|
    ensures Micro(B, s, w) == Stop(Truncated, s)
  {
    hide FixedLit, FixedDist, SymbolBits, At, Decode, SymbolStep;
    CutSymbol(B, C, s.pos, sym);
  }

  /** The length is cut off after its symbol. */
  lemma LengthStops(B: Bits, C: Bits, s: State, w: Window, len: nat)
    requires WellFormed(s, w) && InFixedBlock(s) && 3 <= len <= 258 && B <= C && At(C, s.pos, LengthBits(len))
    requires s.pos + |LengthSymbol(len)| <= |B| < s.pos + |LengthBits(len)|
    ensures Micro(B, s, w) == Stop(Undefined, s)
  {
    hide Micro, SymbolBits, ToBits, MatchStep, LENCODES, LengthRowFor, FromBits, FixedLit, FixedDist;
    LengthRow(0);
    var k := LengthRowFor(len);
    LengthRow(k);
    AtConcat(C, s.pos, SymbolBits(257 + k), ToBits(len - 3 - LENCODES[k].min, LENCODES[k].extrabits));
    SameBefore(B, C, s.pos, SymbolBits(257 + k));
    SymbolRuns(B, s, w, 257 + k);
  }

  /** The distance is cut off in its extra bits. */
  lemma DistanceStops(B: Bits, C: Bits, s: State, w: Window, p: nat, len: nat, dist: nat)
    requires WellFormed(s, w) && InFixedBlock(s) && len > 0 && 1 <= dist <= 32768 && B <= C && At(C, p, DistBits(dist))
    requires p + 5 <= |B| < p + |DistBits(dist)|
    ensures MatchStep(B, s, w, p, len) == Stop(CutDistance(w), s)
  {
    hide ToBits, MsbBits, DISTCODES, DistRowFor, FromBits, FixedLit, FixedDist, Decode, Pow2, Lengths, At;
    DistRow(0);
    var k := DistRowFor(dist);
    DistRow(k);
    AtConcat(C, p, MsbBits(k, 5), ToBits(dist - DISTCODES[k].min, DISTCODES[k].extrabits));
    SameBefore(B, C, p, MsbBits(k, 5));
    FixedDistance(B, p, k);
  }

  lemma MatchStops(B: Bits, C: Bits, s: State, w: Window, t: Token)
    requires WellFormed(s, w) && InFixedBlock(s) && B <= C && At(C, s.pos, TokenBits(t))
    requires t.Match? && Encodable(t) && s.pos + |LengthBits(t.len)| <= |B| < s.pos + |TokenBits(t)|
    ensures Micro(B, s, w) == Stop(TokenCut(t, |B| - s.pos, w), s)
  {
    hide LengthBits, DistBits, FixedLit, FixedDist, MatchStep, Lengths, Micro, LengthSymbol;
    var p := s.pos + |LengthBits(t.len)|;
    AtConcat(C, s.pos, LengthBits(t.len), DistBits(t.dist));
    SameBefore(B, C, s.pos, LengthBits(t.len));
    LengthRuns(B, s, w, t.len);
    SymbolFirst(t.len);
    if |B| < p + 5 {
      Malformed.FixedDistanceDecodes(B, s, w, p, t.len);
    } else {
      DistanceStops(B, C, s, w, p, t.len, t.dist);
    }
  }

  lemma SymbolFirst(len: nat)
    requires 3 <= len <= 258
    ensures LengthSymbol(len) <= LengthBits(len)
  {
    hide SymbolBits, ToBits, LengthRowFor, LENCODES;
    LengthRow(0);
    LengthRow(LengthRowFor(len));
  }

  lemma TokenStops(B: Bits, C: Bits, s: State, w: Window, t: Token)
    requires WellFormed(s, w) && InFixedBlock(s) && B <= C && At(C, s.pos, TokenBits(t)) && Encodable(t)
    requires s.pos <= |B| < s.pos + |TokenBits(t)|
    ensures Micro(B, s, w) == Stop(TokenCut(t, |B| - s.pos, w), s)
  {
    hide LengthBits, DistBits, FixedLit, FixedDist, Lengths, Micro, SymbolBits, LengthRowFor;
    match t
    case Literal(b) => SymbolStops(B, C, s, w, b);
    case Match(d, l) =>
      LengthRow(0);
      SymbolFirst(l);
      AtConcat(C, s.pos, LengthBits(l), DistBits(d));
      if |B| < s.pos + |LengthSymbol(l)| {
        var rest := LengthBits(l)[|LengthSymbol(l)|..];
        assert LengthBits(l) == LengthSymbol(l) + rest;
        AtConcat(C, s.pos, LengthSymbol(l), rest);
        SymbolStops(B, C, s, w, 257 + LengthRowFor(l));
      } else if |B| < s.pos + |LengthBits(l)| {
        LengthStops(B, C, s, w, l);
      } else {
        MatchStops(B, C, s, w, t);
      }
  }

  lemma StopEnds(B: Bits, s: State, w: Window, st: Status)
    requires WellFormed(s, w) && s.pos <= |B| && Micro(B, s, w) == Stop(st, s)
    ensures All(B, s, w) == (st, s)
  {
    hide Micro, Lengths;
    MicroProgress(B, s, w);
  }

  lemma {:induction false} TokensStop(B: Bits, C: Bits, s: State, w: Window, ts: seq<Token>, limit: nat)
    requires WellFormed(s, w) && InFixedBlock(s) && B <= C && At(C, s.pos, TokensBits(ts))
    requires s.pos <= |B| < s.pos + |TokensBits(ts)|
    requires Expand(ts).Some? && DistancesWithin(ts, limit) && Coded.Reaches(w, limit)
    ensures All(B, s, w).0 == TokensCut(ts, |B| - s.pos, w)
  {
    hide FixedLit, FixedDist, TokenBits, All, Lengths, Apply, At, TokenCut, Micro;
    var us, t := ts[..|ts| - 1], ts[|ts| - 1];
    assert t in ts && forall u <- us :: u in ts;
    AtConcat(C, s.pos, TokensBits(us), TokenBits(t));
    if |B| < s.pos + |TokensBits(us)| {
      TokensStop(B, C, s, w, us, limit);
    } else {
      SameBefore(B, C, s.pos, TokensBits(us));
      var s1 := TokensRun(B, s, w, us, limit);
      TokenStops(B, C, s1, w, t);
      StopEnds(B, s1, w, TokenCut(t, |B| - s1.pos, w));
    }
  }

  lemma HeaderStops(B: Bits, s: State, w: Window)
    requires WellFormed(s, w) && s.btype == -1 && s.pos <= |B| < s.pos + 3
    ensures All(B, s, w).0 == Exhausted
  {
    hide FixedLit, FixedDist, DynamicTrees, FromBits;
    StopEnds(B, s, w, Exhausted);
  }

  lemma BlockStops(B: Bits, C: Bits, s: State, w: Window, final: bool, ts: seq<Token>, limit: nat)
    requires WellFormed(s, w) && s.btype == -1 && B <= C && At(C, s.pos, FixedBlock(final, ts))
    requires s.pos <= |B| < s.pos + |FixedBlock(final, ts)|
    requires Expand(ts).Some? && DistancesWithin(ts, limit) && Coded.Reaches(w, limit)
    ensures All(B, s, w).0 == ChunkCut(ts, |B| - s.pos, w)
  {
    hide TokensBits, SymbolBits, Expand, DistancesWithin, Lengths, At, All, TokensCut, FixedBlock, InFixedBlock;
    if |B| < s.pos + 3 {
      HeaderStops(B, s, w);
    } else {
      BlockParts(C, s.pos, final, ts);
      var s1 := HeaderOpens(B, C, s, w, final);
      BodyStops(B, C, s1, w, ts, limit);
      BlockParts(C, s.pos, false, ts);
    }
  }

  lemma BlockParts(C: Bits, p: nat, final: bool, ts: seq<Token>)
    ensures |FixedBlock(final, ts)| == 3 + |TokensBits(ts)| + 7
    ensures At(C, p, FixedBlock(final, ts)) ==>
      && At(C, p, BlockHeader(final, 1)) && At(C, p + 3, TokensBits(ts))
      && At(C, p + 3 + |TokensBits(ts)|, SymbolBits(END_OF_BLOCK))
  {
    hide TokensBits, ToBits, SymbolBits, At;
    var header, end := BlockHeader(final, 1), SymbolBits(END_OF_BLOCK);
    SymbolSize(END_OF_BLOCK);
    AtConcat(C, p, header + TokensBits(ts), end);
    AtConcat(C, p, header, TokensBits(ts));
  }

  lemma HeaderOpens(B: Bits, C: Bits, s: State, w: Window, final: bool) returns (t: State)
    requires WellFormed(s, w) && s.btype == -1 && B <= C && At(C, s.pos, BlockHeader(final, 1)) && s.pos + 3 <= |B|
    ensures WellFormed(t, w) && InFixedBlock(t) && t.pos == s.pos + 3 && All(B, s, w) == All(B, t, w)
  {
    hide FixedLit, FixedDist, Micro, ToBits, Lengths, At, All;
    SameBefore(B, C, s.pos, BlockHeader(final, 1));
    HeaderRuns(B, s, w, final, 1);
    OneSilent(B, s, w);
    t := Micro(B, s, w).s;
  }

  lemma OneSilent(B: Bits, s: State, w: Window)
    requires WellFormed(s, w) && s.pos <= |B| && Micro(B, s, w).Silent?
    ensures var t := Micro(B, s, w).s; WellFormed(t, w) && t.pos <= |B| && All(B, s, w) == All(B, t, w)
  {
    hide Micro, Lengths;
    MicroProgress(B, s, w);
  }

  /** After the header: the tokens and the end code. */
  lemma BodyStops(B: Bits, C: Bits, s: State, w: Window, ts: seq<Token>, limit: nat)
    requires WellFormed(s, w) && InFixedBlock(s) && B <= C
    requires At(C, s.pos, TokensBits(ts)) && At(C, s.pos + |TokensBits(ts)|, SymbolBits(END_OF_BLOCK))
    requires s.pos <= |B| < s.pos + |TokensBits(ts)| + 7
    requires Expand(ts).Some? && DistancesWithin(ts, limit) && Coded.Reaches(w, limit)
    ensures All(B, s, w).0 == TokensCut(ts, |B| - s.pos, w)
  {
    hide FixedLit, FixedDist, Micro, TokensBits, ToBits, SymbolBits, Expand, DistancesWithin, Lengths, At, All,
      TokensCut;
    SymbolSize(END_OF_BLOCK);
    if |B| < s.pos + |TokensBits(ts)| {
      TokensStop(B, C, s, w, ts, limit);
    } else {
      SameBefore(B, C, s.pos, TokensBits(ts));
      var s1 := TokensRun(B, s, w, ts, limit);
      SymbolStops(B, C, s1, w, END_OF_BLOCK);
      StopEnds(B, s1, w, Truncated);
      AfterTokens(ts, |B| - s.pos, w);
    }
  }

  lemma AfterTokens(ts: seq<Token>, k: nat, w: Window)
    requires k >= |TokensBits(ts)|
    ensures TokensCut(ts, k, w) == Truncated
  {
    hide TokenBits;
  }

  /** The empty stored block after a chunk. */
  lemma StoredStops(B: Bits, C: Bits, s: State, w: Window)
    requires WellFormed(s, w) && s.btype == -1 && B <= C && At(C, s.pos, BlockHeader(false, 0))
    requires s.pos <= |B| < Align(s.pos + 3) + 32
    ensures All(B, s, w).0 == Exhausted
  {
    hide FixedLit, FixedDist, Align, FromBits, Lengths, ToBits, All, Micro, At;
    if |B| < s.pos + 3 {
      HeaderStops(B, s, w);
    } else {
      SameBefore(B, C, s.pos, BlockHeader(false, 0));
      HeaderRuns(B, s, w, false, 0);
      OneSilent(B, s, w);
      LengthsMissing(B, Micro(B, s, w).s, w);
    }
  }

  lemma LengthsMissing(B: Bits, s: State, w: Window)
    requires WellFormed(s, w) && s.btype == 0 && s.curlen == 0 && s.pos <= |B| < Align(s.pos) + 32
    ensures All(B, s, w).0 == Exhausted
  {
    hide Align, FromBits, Lengths;
    StopEnds(B, s, w, Exhausted);
  }

  /** A cut between two bytes is never in the padding, which is shorter than one. */
  lemma NotInPadding(b: Bits, k: nat)
    requires k % 8 == 0 && k < |Padded(b)|
    ensures k < |b|
  {}

  lemma ChunkStops(B: Bits, C: Bits, s: State, w: Window, c: Chunk, final: bool, limit: nat)
    requires WellFormed(s, w) && s.btype == -1 && s.pos % 8 == 0 && B <= C && At(C, s.pos, BytesBits(c.bytes))
    requires |B| % 8 == 0 && s.pos <= |B| < s.pos + 8 * |c.bytes|
    requires Encodes(c, final, limit) && Coded.Reaches(w, limit)
    ensures All(B, s, w).0 == ChunkCut(c.ts, |B| - s.pos, w)
  {
    hide FixedBlock, ToBits, BytesBits, At, All, Lengths, Expand, DistancesWithin, ChunkCut, Align, Padded;
    assert c.data[..|c.data|] == c.data;
    if final {
      FinalStops(B, C, s, w, c.ts, limit);
    } else {
      ChunkParts(C, s.pos, c.ts);
      OpenStops(B, C, s, w, c.ts, limit);
    }
  }

  lemma FinalStops(B: Bits, C: Bits, s: State, w: Window, ts: seq<Token>, limit: nat)
    requires WellFormed(s, w) && s.btype == -1 && s.pos % 8 == 0 && B <= C && At(C, s.pos, Padded(FixedBlock(true, ts)))
    requires |B| % 8 == 0 && s.pos <= |B| < s.pos + |Padded(FixedBlock(true, ts))|
    requires Expand(ts).Some? && DistancesWithin(ts, limit) && Coded.Reaches(w, limit)
    ensures All(B, s, w).0 == ChunkCut(ts, |B| - s.pos, w)
  {
    hide *;
    PaddedAt(C, s.pos, FixedBlock(true, ts));
    NotInPadding(FixedBlock(true, ts), |B| - s.pos);
    BlockStops(B, C, s, w, true, ts, limit);
  }

  lemma OpenStops(B: Bits, C: Bits, s: State, w: Window, ts: seq<Token>, limit: nat)
    requires WellFormed(s, w) && s.btype == -1 && B <= C && At(C, s.pos, FixedBlock(false, ts))
    requires At(C, s.pos + |FixedBlock(false, ts)|, BlockHeader(false, 0))
    requires s.pos <= |B| < Align(s.pos + |FixedBlock(false, ts)| + 3) + 32
    requires Expand(ts).Some? && DistancesWithin(ts, limit) && Coded.Reaches(w, limit)
    ensures All(B, s, w).0 == ChunkCut(ts, |B| - s.pos, w)
  {
    hide ToBits, At, All, Lengths, Expand, DistancesWithin, Align, TokensBits, SymbolBits, TokensCut;
    var block := FixedBlock(false, ts);
    if |B| < s.pos + |block| {
      BlockStops(B, C, s, w, false, ts, limit);
    } else {
      SameBefore(B, C, s.pos, block);
      var s1 := BlockRuns(B, s, w, false, ts, limit);
      StoredStops(B, C, s1, w);
    }
  }

  lemma {:induction false} StreamStops(B: Bits, C: Bits, s: State, w: Window, cs: seq<Chunk>, ended: bool, limit: nat)
    requires WellFormed(s, w) && s.btype == -1 && s.pos % 8 == 0 && B <= C && At(C, s.pos, BytesBits(Bytes(cs)))
    requires |B| % 8 == 0 && s.pos <= |B| < s.pos + 8 * |Bytes(cs)|
    requires Chunks(cs, ended, limit) && Coded.Reaches(w, limit)
    ensures All(B, s, w).0 == StreamCut(cs, |B| - s.pos, w)
  {
    hide BytesBits, At, All, Lengths, Encodes, ChunkCut;
    var first, c := cs[..|cs| - 1], cs[|cs| - 1];
    BytesBitsConcat(Bytes(first), c.bytes);
    AtConcat(C, s.pos, BytesBits(Bytes(first)), BytesBits(c.bytes));
    if |B| < s.pos + 8 * |Bytes(first)| {
      StreamStops(B, C, s, w, first, false, limit);
    } else {
      SameBefore(B, C, s.pos, BytesBits(Bytes(first)));
      var s1 := StreamRuns(B, s, w, first, false, limit);
      ChunkStops(B, C, s1, w, c, ended, limit);
    }
  }

  /** A member cut off after `n` bytes: `StreamCut` says what becomes of it. */
  lemma CutComesTo(dst: seq<byte>, src: seq<byte>, cs: seq<Chunk>, w: Window, prefill: seq<byte>, n: nat)
    requires GzPack.Member(dst, src, cs) && GzUnpack.Suits(w, prefill) && 10 <= n < 10 + |Bytes(cs)|
    ensures n <= |dst| && Header(dst[..n]) == Start(10)
    ensures GzUnpack.Outcome(dst[..n], w, prefill).0 == StreamCut(cs, 8 * (n - 10), w)
  {
    hide All, Bytes, Data, Chunks, LZ_HEADER, Header, BytesBits, GzPack.Footer, Lengths, At, StreamCut;
    GzPack.HeaderLength(src);
    Damage.PartStarts(dst, cs, src, n);
    GzPack.MemberInflates(dst, src, cs, prefill, w);
    var body := Bytes(cs);
    Assoc(LZ_HEADER, body, GzPack.Footer(src));
    assert dst[10..10 + |body|] == body;
    AtBytes(dst, 10, body);
    assert dst[..n] + dst[n..] == dst;
    BytesBitsConcat(dst[..n], dst[n..]);
    StreamStops(BytesBits(dst[..n]), BytesBits(dst), Initial(80, prefill), w, cs, true, GzPack.DICT_SIZE);
  }

  /** Such a member is reported as an error, with a beginning of the source in the file, if it
      is cut where the code notices. */
  method UncompressCut(dst: seq<byte>, ghost src: seq<byte>, ghost cs: seq<Chunk>, n: nat, dict: array<byte>,
                       outputBufferSize: nat) returns (u: GzUnpack.GzUnpacker, res: int, ok: bool)
    requires GzPack.Member(dst, src, cs) && 10 <= n < 10 + |Bytes(cs)| && n <= |dst| && outputBufferSize > 0
    requires GzUnpack.Suits(GzUnpack.WindowOf(dict), dict[..])
    requires StreamCut(cs, 8 * (n - 10), GzUnpack.WindowOf(dict)) == Truncated
    modifies dict
    ensures !ok && res < 0 && u.out.file <= src && |u.out.file| % outputBufferSize == 0
  {
    hide GzUnpack.Outcome, Bytes, Header, GzPack.Member, StreamCut, GzPack.DICT_SIZE, GzUnpack.Result;
    ghost var w, prefill := GzUnpack.WindowOf(dict), dict[..];
    CutComesTo(dst, src, cs, w, prefill, n);
    Damage.CutMember(dst, src, cs, w, prefill, n);
    u, res, ok := GzUnpack.GzUncompress(dst[..n], dict, outputBufferSize);
    ghost var r := GzUnpack.Outcome(dst[..n], w, prefill);
    PartOf(r.1.hist, prefill, src);
    TruncatedResult(r, dst[..n], r.1.hist[|prefill|..], u, res, ok);
  }

  lemma TruncatedResult(r: (Status, State), source: seq<byte>, data: seq<byte>, u: GzUnpack.GzUnpacker, res: int,
                        ok: bool)
    requires u.out.buffer.Length > 0 && GzUnpack.Result(r, source, data, u, res, ok) && r.0 == Truncated
    ensures !ok && res < 0 && u.out.file <= data && |u.out.file| % u.out.buffer.Length == 0
  {
    hide Align;
    Arithmetic.Multiple(|data|, u.out.buffer.Length);
  }

  lemma PartOf(h: seq<byte>, prefill: seq<byte>, src: seq<byte>)
    requires prefill <= h <= prefill + src
    ensures h[|prefill|..] <= src
  {
    assert (prefill + src)[|prefill|..] == src;
    assert h == (prefill + src)[..|h|];
  }
}
