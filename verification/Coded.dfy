/** LZ77 tokens in a pair of Huffman codes, and what the inflater makes of them. */
module Coded {
  import opened Bits
  import opened Tables
  import opened StaticCode
  import opened Huffman
  import opened Lz77
  import opened Inflate

  /** A code that can be told apart: it meets the Kraft inequality. */
  ghost predicate Usable(L: seq<nat>) { Lengths(L) && KraftSum(L) <= Pow2(15) }

  predicate Used(L: seq<nat>, sym: nat) { sym < |L| && L[sym] > 0 }

  /** Between two tokens of a block. */
  ghost predicate Between(s: State) {
    s.btype in {1, 2} && s.curlen == 0 && Usable(s.lit) && Usable(s.dst)
  }

  predicate Reaches(w: Window, limit: nat) {
    w.Ring? ==> limit <= w.size
  }

  /** All symbols of a token have code words. */
  predicate Spells(lit: seq<nat>, dst: seq<nat>, t: Token) {
    match t
    case Literal(b) => Used(lit, b)
    case Match(d, l) => Encodable(t) && Used(lit, 257 + LengthIndex(l)) && Used(dst, DistIndex(d))
  }

  function LengthIndex(len: nat): (k: nat)
    requires 3 <= len <= 258
    ensures k < 29 && LENCODES[k].min + 3 <= len <= LENCODES[k].max + 3
  {
    LengthRow(0);
    LengthRowFor(len)
  }

  function DistIndex(dist: nat): (k: nat)
    requires 1 <= dist <= 32768
    ensures k < 30 && DISTCODES[k].min <= dist <= DISTCODES[k].max
  {
    DistRow(0);
    DistRowFor(dist)
  }

  /** The symbol of a match length and the extra bits that complete it. */
  function LengthWord(lit: seq<nat>, len: nat): Bits
    requires 3 <= len <= 258 && 257 + LengthIndex(len) < |lit|
  {
    var k := LengthIndex(len);
    CodeBits(lit, 257 + k) + ToBits(len - 3 - LENCODES[k].min, LENCODES[k].extrabits)
  }

  function DistWord(dst: seq<nat>, dist: nat): Bits
    requires 1 <= dist <= 32768 && DistIndex(dist) < |dst|
  {
    var k := DistIndex(dist);
    CodeBits(dst, k) + ToBits(dist - DISTCODES[k].min, DISTCODES[k].extrabits)
  }

  function TokenWord(lit: seq<nat>, dst: seq<nat>, t: Token): Bits {
    if !Spells(lit, dst, t) then []
    else
      match t
      case Literal(b) => CodeBits(lit, b)
      case Match(d, l) => LengthWord(lit, l) + DistWord(dst, d)
  }

  function TokensWord(lit: seq<nat>, dst: seq<nat>, ts: seq<Token>): Bits {
    if ts == [] then [] else TokensWord(lit, dst, ts[..|ts| - 1]) + TokenWord(lit, dst, ts[|ts| - 1])
  }

  /** A symbol is read, and the machine goes on behind it. */
  lemma SymbolRuns(B: Bits, s: State, w: Window, sym: nat)
    requires WellFormed(s, w) && Between(s) && Used(s.lit, sym) && At(B, s.pos, CodeBits(s.lit, sym))
    ensures Micro(B, s, w) == SymbolStep(B, s, w, sym, s.pos + s.lit[sym])
  {
    hide KraftSum, Codeword, Decode, At, SymbolStep, Pow2;
    CodewordDecodes(s.lit, B, s.pos, sym);
  }

  lemma LiteralRuns(B: Bits, s: State, w: Window, b: byte)
    requires WellFormed(s, w) && Between(s) && Spells(s.lit, s.dst, Literal(b))
    requires At(B, s.pos, TokenWord(s.lit, s.dst, Literal(b)))
    ensures Micro(B, s, w) == Byte(AfterToken(s, Literal(b), s.hist + [b]))
  {
    hide Micro, At, Usable, Codeword;
    SymbolRuns(B, s, w, b);
  }

  /** The length half of a match. */
  lemma LengthRuns(B: Bits, s: State, w: Window, len: nat)
    requires WellFormed(s, w) && Between(s) && 3 <= len <= 258 && Used(s.lit, 257 + LengthIndex(len))
    requires At(B, s.pos, LengthWord(s.lit, len))
    ensures Micro(B, s, w) == MatchStep(B, s, w, s.pos + |LengthWord(s.lit, len)|, len)
  {
    hide Micro, Codeword, ToBits, MatchStep, LENCODES, LengthIndex, Inflate.ReadBits, Between, At;
    var k := LengthIndex(len);
    LengthRow(k);
    var x, n := len - 3 - LENCODES[k].min, LENCODES[k].extrabits;
    AtConcat(B, s.pos, CodeBits(s.lit, 257 + k), ToBits(x, n));
    SymbolRuns(B, s, w, 257 + k);
    BitsRead(B, s.pos + s.lit[257 + k], x, n);
  }

  /** The distance half. */
  lemma DistanceRuns(B: Bits, s: State, w: Window, p: nat, len: nat, dist: nat)
    requires WellFormed(s, w) && Between(s) && len > 0 && 1 <= dist <= 32768 && Used(s.dst, DistIndex(dist))
    requires At(B, p, DistWord(s.dst, dist)) && dist <= |s.hist| && Reaches(w, dist)
    ensures MatchStep(B, s, w, p, len) ==
      CopyByte(s.(pos := p + |DistWord(s.dst, dist)|, curlen := len, dist := dist))
  {
    hide ToBits, Codeword, KraftSum, DISTCODES, DistIndex, FromBits, Decode, Pow2, Lengths, At;
    var k := DistIndex(dist);
    DistRow(k);
    var x, n := dist - DISTCODES[k].min, DISTCODES[k].extrabits;
    AtConcat(B, p, CodeBits(s.dst, k), ToBits(x, n));
    CodewordDecodes(s.dst, B, p, k);
    BitsRead(B, p + s.dst[k], x, n);
  }

  /** The rest of a copy once it has begun. */
  lemma {:induction false} CopyRuns(B: Bits, s: State, w: Window)
    requires WellFormed(s, w) && s.pos <= |B| && s.btype in {1, 2} && s.curlen > 0
    ensures var s' := s.(curlen := 0, hist := CopyFrom(s.hist, s.dist, s.curlen));
      WellFormed(s', w) && All(B, s, w) == All(B, s', w)
    decreases s.curlen
  {
    hide Lengths;
    MicroProgress(B, s, w);
    var s1 := s.(curlen := s.curlen - 1, hist := s.hist + [s.hist[|s.hist| - s.dist]]);
    assert Micro(B, s, w) == Byte(s1);
    if s1.curlen > 0 {
      CopyRuns(B, s1, w);
    }
  }

  /** Copies do not look past the output they were made for. */
  lemma {:induction false} CopyAfter(pre: seq<byte>, out: seq<byte>, dist: nat, len: nat)
    requires 1 <= dist <= |out|
    ensures CopyFrom(pre + out, dist, len) == pre + CopyFrom(out, dist, len)
    decreases len
  {
    if len == 0 {
    } else {
      CopyAfter(pre, out + [out[|out| - dist]], dist, len - 1);
      assert pre + out + [out[|out| - dist]] == pre + (out + [out[|out| - dist]]);
    }
  }

  /** The state after `t`, which leaves `hist` behind. */
  function AfterToken(s: State, t: Token, hist: seq<byte>): State {
    s.(pos := s.pos + |TokenWord(s.lit, s.dst, t)|, hist := hist, dist := if t.Match? then t.dist else s.dist)
  }

  /** The state after the first byte of a match. */
  function Begun(s: State, t: Token): State
    requires t.Match? && 1 <= t.dist <= |s.hist| && t.len > 0
  {
    State(s.pos + |TokenWord(s.lit, s.dst, t)|, s.btype, s.bfinal, t.len - 1, t.dist, s.lit, s.dst,
          s.hist + [s.hist[|s.hist| - t.dist]])
  }

  lemma MatchBegins(B: Bits, s: State, w: Window, t: Token)
    requires WellFormed(s, w) && Between(s) && Spells(s.lit, s.dst, t) && At(B, s.pos, TokenWord(s.lit, s.dst, t))
    requires t.Match? && Applies(s.hist, t) && Reaches(w, t.dist)
    ensures Micro(B, s, w) == Byte(Begun(s, t))
  {
    hide LengthWord, DistWord, MatchStep, Usable, Micro, LengthIndex, DistIndex, Lengths;
    AtConcat(B, s.pos, LengthWord(s.lit, t.len), DistWord(s.dst, t.dist));
    LengthRuns(B, s, w, t.len);
    DistanceRuns(B, s, w, s.pos + |LengthWord(s.lit, t.len)|, t.len, t.dist);
  }

  lemma RestOfMatch(s: State, t: Token)
    requires s.curlen == 0 && t.Match? && Applies(s.hist, t)
    ensures var s1 := Begun(s, t);
      AfterToken(s, t, CopyFrom(s.hist, t.dist, t.len)) ==
      s1.(curlen := 0, hist := CopyFrom(s1.hist, s1.dist, s1.curlen))
  {
    hide TokenWord;
  }

  lemma MatchRuns(B: Bits, s: State, w: Window, t: Token)
    requires WellFormed(s, w) && Between(s) && s.pos <= |B|
    requires Spells(s.lit, s.dst, t) && At(B, s.pos, TokenWord(s.lit, s.dst, t))
    requires t.Match? && Applies(s.hist, t) && Reaches(w, t.dist)
    ensures var s' := AfterToken(s, t, CopyFrom(s.hist, t.dist, t.len));
      WellFormed(s', w) && s'.pos <= |B| && All(B, s, w) == All(B, s', w)
  {
    hide Micro, Usable, TokenWord, Spells, Lengths, At, CopyFrom, AfterToken;
    MatchBegins(B, s, w, t);
    MicroProgress(B, s, w);
    RestOfMatch(s, t);
    CopyRuns(B, Begun(s, t), w);
  }

  /** The bits of a token inflate to what it stands for. */
  lemma TokenRuns(B: Bits, s: State, w: Window, pre: seq<byte>, out: seq<byte>, t: Token)
    requires WellFormed(s, w) && Between(s) && Spells(s.lit, s.dst, t) && At(B, s.pos, TokenWord(s.lit, s.dst, t))
    requires s.hist == pre + out && Applies(out, t) && (t.Match? ==> Reaches(w, t.dist))
    ensures var s' := AfterToken(s, t, pre + Apply(out, t));
      WellFormed(s', w) && s'.pos <= |B| && Between(s') && All(B, s, w) == All(B, s', w)
  {
    hide Usable, TokenWord, Spells, CopyFrom, Lengths, Micro;
    assert s.pos <= |B|;
    hide At;
    match t
    case Literal(b) =>
      LiteralRuns(B, s, w, b);
      MicroProgress(B, s, w);
      assert pre + out + [b] == pre + (out + [b]);
    case Match(d, l) =>
      MatchRuns(B, s, w, t);
      CopyAfter(pre, out, d, l);
  }

  /** The state after tokens that take up `n` bits and make `out`. */
  ghost predicate After(s: State, s': State, w: Window, n: nat, out: seq<byte>) {
    WellFormed(s', w) && Between(s') && s' == s.(pos := s.pos + n, hist := out, dist := s'.dist)
  }

  /** A list of tokens leaves behind what it stands for after `out`. */
  lemma {:induction false} TokensRun(B: Bits, s: State, w: Window, pre: seq<byte>, out: seq<byte>, ts: seq<Token>,
                                     limit: nat)
    returns (s': State)
    requires WellFormed(s, w) && s.pos <= |B| && Between(s) && At(B, s.pos, TokensWord(s.lit, s.dst, ts))
    requires s.hist == pre + out && Expand(ts, out).Some? && DistancesWithin(ts, limit) && Reaches(w, limit)
    requires forall t <- ts :: Spells(s.lit, s.dst, t)
    ensures After(s, s', w, |TokensWord(s.lit, s.dst, ts)|, pre + Expand(ts, out).value)
    ensures s'.pos <= |B| && All(B, s, w) == All(B, s', w)
  {
    hide Usable, TokenWord, All, Lengths, Apply, Applies, Spells, At;
    if ts == [] {
      s' := s;
    } else {
      var us, t := ts[..|ts| - 1], ts[|ts| - 1];
      assert t in ts && forall u <- us :: u in ts;
      AtConcat(B, s.pos, TokensWord(s.lit, s.dst, us), TokenWord(s.lit, s.dst, t));
      var s1 := TokensRun(B, s, w, pre, out, us, limit);
      TokenRuns(B, s1, w, pre, Expand(us, out).value, t);
      s' := AfterToken(s1, t, pre + Apply(Expand(us, out).value, t));
    }
  }

  /** The end code ends the block. */
  lemma EndRuns(B: Bits, s: State, w: Window)
    requires WellFormed(s, w) && Between(s) && Used(s.lit, END_OF_BLOCK) && At(B, s.pos, CodeBits(s.lit, END_OF_BLOCK))
    ensures Micro(B, s, w) == EndBlock(s.(pos := s.pos + s.lit[END_OF_BLOCK]))
  {
    hide Micro, At, Codeword, Usable;
    SymbolRuns(B, s, w, END_OF_BLOCK);
  }

  /** The tokens of a block and its end code. */
  function BodyWord(lit: seq<nat>, dst: seq<nat>, ts: seq<Token>): Bits
    requires END_OF_BLOCK < |lit|
  {
    TokensWord(lit, dst, ts) + CodeBits(lit, END_OF_BLOCK)
  }

  /** What comes after the header of a block inflates to what the tokens stand for. */
  lemma BodyRuns(B: Bits, s: State, w: Window, pre: seq<byte>, out: seq<byte>, ts: seq<Token>, limit: nat)
    returns (s': State)
    requires WellFormed(s, w) && s.pos <= |B| && Between(s)
    requires Used(s.lit, END_OF_BLOCK) && At(B, s.pos, BodyWord(s.lit, s.dst, ts))
    requires s.hist == pre + out && Expand(ts, out).Some? && DistancesWithin(ts, limit) && Reaches(w, limit)
    requires forall t <- ts :: Spells(s.lit, s.dst, t)
    ensures s'.pos == s.pos + |BodyWord(s.lit, s.dst, ts)| && s'.hist == pre + Expand(ts, out).value
    ensures s.bfinal ==> All(B, s, w) == (Done, s')
    ensures !s.bfinal ==> WellFormed(s', w) && s'.pos <= |B| && s'.btype == -1 && All(B, s, w) == All(B, s', w)
  {
    hide Usable, Micro, TokensWord, Codeword, Expand, DistancesWithin, Lengths, Spells, At;
    AtConcat(B, s.pos, TokensWord(s.lit, s.dst, ts), CodeBits(s.lit, END_OF_BLOCK));
    var s1 := TokensRun(B, s, w, pre, out, ts, limit);
    EndRuns(B, s1, w);
    MicroProgress(B, s1, w);
    s' := EndBlock(s1.(pos := s1.pos + s.lit[END_OF_BLOCK])).s;
  }
}
