/** What the static-Huffman encoder writes, the inflater reads back. */
module RoundTrip {
  import opened Bits
  import opened Tables
  import opened StaticCode
  import opened DeflStatic
  import opened Huffman
  import opened FixedTrees
  import opened Lz77
  import opened Inflate
  import opened Coded

  /** Between two tokens of a block with the fixed trees. */
  ghost predicate InFixedBlock(s: State) {
    s.btype == 1 && s.curlen == 0 && s.lit == FixedLit() && s.dst == FixedDist()
  }

  lemma FixedSymbol(B: Bits, p: nat, sym: nat)
    requires sym < 288 && At(B, p, SymbolBits(sym))
    ensures Decode(FixedLit(), B, p) == Got(sym, p + FixedLength(sym))
  {
    hide FixedLit, KraftTo, DecodeFrom, First, CountTo, Pow2, SymbolBits;
    FixedLitCode(sym);
    FixedKraft();
    CodewordDecodes(FixedLit(), B, p, sym);
  }

  lemma FixedDistance(B: Bits, p: nat, d: nat)
    requires d < 32 && At(B, p, MsbBits(d, 5))
    ensures Decode(FixedDist(), B, p) == Got(d, p + 5)
  {
    hide FixedDist, KraftTo, DecodeFrom, First, CountTo, Pow2;
    FixedDistCode(d);
    FixedKraft();
    CodewordDecodes(FixedDist(), B, p, d);
  }

  lemma InBetween(s: State)
    requires InFixedBlock(s)
    ensures Between(s)
  {
    hide FixedLit, FixedDist, KraftSum, Pow2, Lengths;
    FixedKraft();
  }

  lemma SymbolSize(sym: nat)
    ensures |SymbolBits(sym)| == FixedLength(sym)
  {}

  lemma SymbolRuns(B: Bits, s: State, w: Window, sym: nat)
    requires WellFormed(s, w) && InFixedBlock(s) && sym < 288 && At(B, s.pos, SymbolBits(sym))
    ensures Micro(B, s, w) == SymbolStep(B, s, w, sym, s.pos + |SymbolBits(sym)|)
  {
    hide FixedLit, FixedDist, Usable, Micro, Codeword, SymbolBits, At, SymbolStep;
    InBetween(s);
    FixedLitCode(sym);
    SymbolSize(sym);
    Coded.SymbolRuns(B, s, w, sym);
  }

  /** Lengths and distances are written with the fixed codes. */
  lemma FixedLengthWord(len: nat)
    requires 3 <= len <= 258
    ensures LengthWord(FixedLit(), len) == LengthBits(len) && Used(FixedLit(), 257 + LengthIndex(len))
  {
    hide FixedLit, Codeword, SymbolBits, ToBits, LENCODES, LengthRowFor;
    FixedLitCode(257 + LengthIndex(len));
  }

  lemma FixedDistWord(dist: nat)
    requires 1 <= dist <= 32768
    ensures DistWord(FixedDist(), dist) == DistBits(dist) && Used(FixedDist(), DistIndex(dist))
  {
    hide FixedDist, Codeword, MsbBits, ToBits, DISTCODES, DistRowFor;
    FixedDistCode(DistIndex(dist));
  }

  lemma FixedTokenWord(t: Token)
    requires Encodable(t)
    ensures TokenWord(FixedLit(), FixedDist(), t) == TokenBits(t) && Spells(FixedLit(), FixedDist(), t)
  {
    hide FixedLit, FixedDist, Codeword, SymbolBits, LengthWord, DistWord, LengthBits, DistBits, LengthIndex, DistIndex;
    match t
    case Literal(b) => FixedLitCode(b);
    case Match(d, l) =>
      FixedLengthWord(l);
      FixedDistWord(d);
  }

  lemma {:induction false} FixedTokensWord(ts: seq<Token>)
    requires Expand(ts).Some?
    ensures TokensWord(FixedLit(), FixedDist(), ts) == TokensBits(ts)
    ensures forall t <- ts :: Spells(FixedLit(), FixedDist(), t)
  {
    hide FixedLit, FixedDist, TokenWord, TokenBits, Spells, Encodable, Apply;
    if ts == [] {
    } else {
      FixedTokensWord(ts[..|ts| - 1]);
      FixedTokenWord(ts[|ts| - 1]);
      assert ts == ts[..|ts| - 1] + [ts[|ts| - 1]];
    }
  }

  lemma LengthRuns(B: Bits, s: State, w: Window, len: nat)
    requires WellFormed(s, w) && InFixedBlock(s) && 3 <= len <= 258 && At(B, s.pos, LengthBits(len))
    ensures Micro(B, s, w) == MatchStep(B, s, w, s.pos + |LengthBits(len)|, len)
  {
    hide Micro, MatchStep, LengthWord, LengthBits, LengthIndex, FixedLit, FixedDist, Usable, At;
    InBetween(s);
    FixedLengthWord(len);
    Coded.LengthRuns(B, s, w, len);
  }

  /** A list of tokens leaves behind what it stands for. */
  lemma TokensRun(B: Bits, s: State, w: Window, ts: seq<Token>, limit: nat) returns (s': State)
    requires WellFormed(s, w) && s.pos <= |B| && InFixedBlock(s) && At(B, s.pos, TokensBits(ts))
    requires Expand(ts).Some? && DistancesWithin(ts, limit) && Reaches(w, limit)
    ensures WellFormed(s', w) && s'.pos <= |B| && InFixedBlock(s') && All(B, s, w) == All(B, s', w)
    ensures s' == s.(pos := s.pos + |TokensBits(ts)|, hist := s.hist + Expand(ts).value, dist := s'.dist)
  {
    hide FixedLit, FixedDist, TokensWord, TokensBits, Expand, DistancesWithin, Spells, Usable, All, At, Lengths;
    InBetween(s);
    FixedTokensWord(ts);
    assert s.hist + [] == s.hist;
    s' := Coded.TokensRun(B, s, w, s.hist, [], ts, limit);
  }

  /** The bits of a block of tokens, up to and including its end code. */
  function FixedBlock(final: bool, ts: seq<Token>): Bits {
    BlockHeader(final, 1) + TokensBits(ts) + SymbolBits(END_OF_BLOCK)
  }

  /** A block header, read between blocks. */
  lemma HeaderRuns(B: Bits, s: State, w: Window, final: bool, btype: nat)
    requires WellFormed(s, w) && s.btype == -1 && btype < 2 && At(B, s.pos, BlockHeader(final, btype))
    ensures Micro(B, s, w) == Silent(s.(pos := s.pos + 3, bfinal := final, btype := btype,
      lit := if btype == 1 then FixedLit() else s.lit, dst := if btype == 1 then FixedDist() else s.dst))
  {
    hide FixedLit, FixedDist, FromBits, ToBits, DynamicTrees;
    assert [final] + ToBits(btype, 2) == BlockHeader(final, btype);
    AtConcat(B, s.pos, [final], ToBits(btype, 2));
    AtBit(B, s.pos, [final], 0);
    assert btype < Pow2(2);
    FromToBits(btype, 2);
  }

  /** A static block expands to what its tokens stand for. */
  lemma BlockRuns(B: Bits, s: State, w: Window, final: bool, ts: seq<Token>, limit: nat) returns (s': State)
    requires WellFormed(s, w) && s.btype == -1 && At(B, s.pos, FixedBlock(final, ts))
    requires Expand(ts).Some? && DistancesWithin(ts, limit) && Reaches(w, limit)
    ensures s'.pos == s.pos + |FixedBlock(final, ts)| && s'.hist == s.hist + Expand(ts).value
    ensures final ==> All(B, s, w) == (Done, s')
    ensures !final ==> WellFormed(s', w) && s'.pos <= |B| && s'.btype == -1 && All(B, s, w) == All(B, s', w)
  {
    hide *;
    FixedBodyWord(ts);
    var s1 := BlockOpens(B, s, w, final, ts);
    Nothing(s.hist);
    s' := BodyRuns(B, s1, w, s.hist, [], ts, limit);
  }

  lemma Nothing(hist: seq<byte>)
    ensures hist + [] == hist
  {}

  /** The header of a static block, and what is left of it then. */
  lemma BlockOpens(B: Bits, s: State, w: Window, final: bool, ts: seq<Token>) returns (t: State)
    requires WellFormed(s, w) && s.btype == -1 && At(B, s.pos, FixedBlock(final, ts)) && Expand(ts).Some?
    ensures WellFormed(t, w) && t.pos <= |B| && Between(t) && t.bfinal == final && t.hist == s.hist
    ensures t.lit == FixedLit() && t.dst == FixedDist() && All(B, s, w) == All(B, t, w)
    ensures END_OF_BLOCK < |t.lit| && At(B, t.pos, BodyWord(t.lit, t.dst, ts))
    ensures t.pos + |BodyWord(t.lit, t.dst, ts)| == s.pos + |FixedBlock(final, ts)|
  {
    hide FixedLit, FixedDist, Micro, TokensBits, SymbolBits, BodyWord, ToBits, Expand, Lengths, Usable;
    FixedBodyWord(ts);
    Assoc(BlockHeader(final, 1), TokensBits(ts), SymbolBits(END_OF_BLOCK));
    AtConcat(B, s.pos, BlockHeader(final, 1), BodyWord(FixedLit(), FixedDist(), ts));
    HeaderRuns(B, s, w, final, 1);
    MicroProgress(B, s, w);
    t := Micro(B, s, w).s;
    InBetween(t);
  }

  lemma FixedBodyWord(ts: seq<Token>)
    requires Expand(ts).Some?
    ensures BodyWord(FixedLit(), FixedDist(), ts) == TokensBits(ts) + SymbolBits(END_OF_BLOCK)
    ensures Used(FixedLit(), END_OF_BLOCK) && forall t <- ts :: Spells(FixedLit(), FixedDist(), t)
  {
    hide FixedLit, FixedDist, TokensBits, TokensWord, SymbolBits, Codeword, Spells, Expand;
    FixedTokensWord(ts);
    FixedLitCode(END_OF_BLOCK);
  }
}
