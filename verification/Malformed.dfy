/** What the inflater makes of bits that are no code word: tinf_inflate_block_data does not
    test for a symbol that could not be decoded. */
module Malformed {
  import opened Bits
  import opened FixedTrees
  import opened Huffman
  import opened Inflate
  import opened Tables

  /** Undecodable bits take sixteen bits to be found out, or all there are. */
  lemma DecodeEnds(L: seq<nat>, B: Bits, p: nat)
    ensures match Decode(L, B, p)
      case Starved => p + 16 > |B|
      case Got(v, q) => p < q <= |B| && q <= p + 16 && (v < 0 ==> v == TINF_DATA_ERROR && q == p + 16)
  {
    hide DecodeFrom, First;
    FirstOfOne(L);
    DecodeEndsFrom(L, B, p, 0, 0);
  }

  lemma {:induction false} DecodeEndsFrom(L: seq<nat>, B: Bits, p: nat, k: nat, v: nat)
    requires k <= 15 && 2 * v >= First(L, k + 1)
    ensures match DecodeFrom(L, B, p, k, v)
      case Starved => p + 16 - k > |B|
      case Got(x, q) => p < q <= |B| && q <= p + 16 - k && (x < 0 ==> x == TINF_DATA_ERROR && q == p + 16 - k)
    decreases 15 - k
  {
    hide First, Count, Nth;
    if p < |B| && k < 15 {
      var v' := 2 * v + Bit(B[p]);
      if v' >= First(L, k + 1) + Count(L, k + 1) {
        EndOfCodes(L, k + 1);
        DecodeEndsFrom(L, B, p + 1, k + 1, v');
      }
    }
  }

  /** A proper symbol takes the bits of its code word. */
  lemma DecodedWithin(L: seq<nat>, B: Bits, p: nat)
    ensures var r := Decode(L, B, p);
      r.Got? && r.val >= 0 ==> r.val < |L| && 0 < L[r.val] <= 15 && r.pos == p + L[r.val]
  {
    hide DecodeFrom, First, MsbBits, Pow2;
    FirstOfOne(L);
    if p > |B| {
      PastTheEnd(L, B, p);
    } else {
      NoBitsYet(B, p);
      DecodedFrom(L, B, p, 0, 0);
    }
  }

  /** The return code -3 is written as a literal if and only if no code word is next and there
      are bits enough to see that. */
  lemma UndecodableWrites(B: Bits, s: State, w: Window)
    requires WellFormed(s, w) && s.btype in {1, 2} && s.curlen == 0
    ensures HuffmanStep(B, s, w) == Byte(s.(pos := s.pos + 16, hist := s.hist + [253])) <==>
      !CodewordNext(s.lit, B, s.pos) && s.pos + 16 <= |B|
  {
    hide Lengths, DecodeFrom, CodewordNext, SymbolStep;
    DecodesIff(s.lit, B, s.pos);
    DecodeEnds(s.lit, B, s.pos);
    DecodedWithin(s.lit, B, s.pos);
    var r := Decode(s.lit, B, s.pos);
    if r.Got? { SymbolWrites(B, s, w, r.val, r.pos); }
  }

  lemma SymbolWrites(B: Bits, s: State, w: Window, sym: int, p: nat)
    requires WellFormed(s, w) && s.btype in {1, 2} && s.curlen == 0
    ensures sym == -3 ==> SymbolStep(B, s, w, sym, p) == Byte(s.(pos := p, hist := s.hist + [253]))
    ensures sym >= 0 && p < s.pos + 16 ==>
      SymbolStep(B, s, w, sym, p) != Byte(s.(pos := s.pos + 16, hist := s.hist + [253]))
  {
    hide Lengths, Decode, FromBits, DIST_BITS, DIST_BASE;
    if 257 <= sym < 286 { LengthRow(sym - 257); }
  }

  /** The fixed code is complete, so that this cannot happen with it. */
  lemma FixedAlwaysDecodes(B: Bits, s: State, w: Window)
    requires WellFormed(s, w) && s.btype == 1 && s.curlen == 0 && s.lit == FixedLit()
    ensures HuffmanStep(B, s, w) != Byte(s.(pos := s.pos + 16, hist := s.hist + [253]))
    ensures Decode(s.lit, B, s.pos) == Starved || CodewordNext(s.lit, B, s.pos)
  {
    hide KraftSum, DecodeFrom, FixedLit, HuffmanStep, CodewordNext, Lengths, Pow2;
    FixedKraft();
    FixedLengths();
    CompleteDecodes(s.lit, B, s.pos);
    DecodesIff(s.lit, B, s.pos);
    UndecodableWrites(B, s, w);
    DecodeEnds(s.lit, B, s.pos);
  }

  /** The distance at `p` can be decoded, but is cut off or reaches before the output. */
  predicate ReachesBack(B: Bits, s: State, p: nat) {
    match Decode(s.dst, B, p)
    case Starved => false
    case Got(d, q) =>
      && 0 <= d < 30
      && match ReadBits(B, q, DIST_BITS[d])
         case Starved => true
         case Got(x, _) => DIST_BASE[d] + x > |s.hist|
  }

  /** The distance of a match is looked up outside its tables, or read from before the file. */
  ghost predicate StrayMatch(B: Bits, s: State, w: Window, p: nat) {
    !CodewordNext(s.dst, B, p) || (w.File? && ReachesBack(B, s, p))
  }

  /** This happens if and only if no code word of a distance is next, be it because of the bits
      or because they are missing; or else, without a ring, if a distance that is read from a
      file is cut off or reaches before its start. */
  lemma UndecodableDistance(B: Bits, s: State, w: Window, p: nat, len: nat)
    requires WellFormed(s, w) && len > 0
    ensures MatchStep(B, s, w, p, len) == Stop(Undefined, s) <==> StrayMatch(B, s, w, p)
  {
    hide DecodeFrom, FromBits, CodewordNext, DIST_BITS, DIST_BASE;
    DecodesIff(s.dst, B, p);
    var d := Decode(s.dst, B, p);
    if d.Got? && 0 <= d.val < 30 { DistRow(d.val); }
  }

  /** For the fixed code only missing bits matter: five of them. */
  lemma FixedDistanceDecodes(B: Bits, s: State, w: Window, p: nat, len: nat)
    requires WellFormed(s, w) && s.dst == FixedDist() && len > 0
    ensures MatchStep(B, s, w, p, len) == Stop(Undefined, s) <==> p + 5 > |B| || (w.File? && ReachesBack(B, s, p))
  {
    hide FixedDist, MatchStep, Pow2, ReachesBack, MsbBits, Codeword, MsbValue;
    UndecodableDistance(B, s, w, p, len);
    if p + 5 <= |B| {
      var d := MsbValue(B[p..p + 5]);
      MsbOfValue(B[p..p + 5]);
      SmallPowers();
      FixedDistCode(d);
      assert At(B, p, CodeBits(FixedDist(), d));
    }
    forall d | 0 <= d < 32 && At(B, p, CodeBits(FixedDist(), d)) ensures p + 5 <= |B| { FixedDistCode(d); }
  }

  /** A number from its bits, most significant first. */
  function MsbValue(w: Bits): nat {
    if w == [] then 0 else 2 * MsbValue(w[..|w| - 1]) + Bit(w[|w| - 1])
  }

  lemma MsbSnoc(v: nat, b: bool, n: nat)
    ensures MsbBits(2 * v + Bit(b), n + 1) == MsbBits(v, n) + [b]
  {
    assert (2 * v + Bit(b)) / 2 == v && ((2 * v + Bit(b)) % 2 == 1) == b;
  }

  lemma {:induction false} MsbOfValue(w: Bits)
    ensures MsbValue(w) < Pow2(|w|) && MsbBits(MsbValue(w), |w|) == w
  {
    if w == [] {
    } else {
      var u, n := w[..|w| - 1], |w| - 1;
      MsbOfValue(u);
      Doubles(n);
      MsbSnoc(MsbValue(u), w[n], n);
      assert w == u + [w[n]];
    }
  }

  /** A code that leaves no word unused decodes any fifteen bits. */
  lemma {:induction false} DecodesIfComplete(L: seq<nat>, B: Bits, p: nat, k: nat, v: nat)
    requires Lengths(L) && KraftSum(L) >= Pow2(15) && k <= 15 && v < Pow2(k) && 2 * v >= First(L, k + 1)
    ensures var r := DecodeFrom(L, B, p, k, v);
      if r.Got? then r.val >= 0 && r.pos <= p + 15 - k else p + 15 - k > |B|
    decreases 15 - k
  {
    hide First, Count, CountTo, Nth, KraftTo, EndTo, DecodeFrom, Pow2;
    if k == 15 {
      EndOfCodes(L, 15);
      EndIsKraft(L, |L|);
    } else if p >= |B| {
      Starves(L, B, p, k, v);
    } else {
      DecodeStep(L, B, p, k, v);
      var v' := 2 * v + Bit(B[p]);
      if v' >= EndTo(L, |L|, k + 1) {
        Doubles(k);
        DecodesIfComplete(L, B, p + 1, k + 1, v');
      }
    }
  }

  lemma Doubles(k: nat)
    ensures Pow2(k + 1) == 2 * Pow2(k)
  {}

  lemma Starves(L: seq<nat>, B: Bits, p: nat, k: nat, v: nat)
    requires k <= 15 && 2 * v >= First(L, k + 1) && p >= |B|
    ensures DecodeFrom(L, B, p, k, v) == Starved
  {}

  lemma CompleteDecodes(L: seq<nat>, B: Bits, p: nat)
    requires Lengths(L) && KraftSum(L) >= Pow2(15)
    ensures var r := Decode(L, B, p); if r.Got? then r.val >= 0 && r.pos <= p + 15 else p + 15 > |B|
  {
    hide KraftSum, First, DecodeFrom;
    FirstOfOne(L);
    DecodesIfComplete(L, B, p, 0, 0);
  }


  /** The symbol at `p` is that of a length, and its match goes astray: the length is cut off,
      or the distance is undecodable. */
  ghost predicate StraySymbol(B: Bits, s: State, w: Window, sym: int, p: nat) {
    && 257 <= sym < 286
    && match ReadBits(B, p, LENGTH_BITS[sym - 257])
       case Starved => true
       case Got(_, q) => StrayMatch(B, s, w, q)
  }

  ghost predicate StrayStep(B: Bits, s: State, w: Window) {
    && s.btype in {1, 2} && s.curlen == 0
    && match Decode(s.lit, B, s.pos)
       case Starved => false
       case Got(sym, p) => StraySymbol(B, s, w, sym, p)
  }

  /** Inflation comes to such a match. */
  ghost predicate Strays(B: Bits, s: State, w: Window)
    requires WellFormed(s, w) && s.pos <= |B|
    decreases |B| - s.pos, s.curlen, Order(s)
  {
    MicroProgress(B, s, w);
    StrayStep(B, s, w)
    || match Micro(B, s, w)
       case Silent(t) => Strays(B, t, w)
       case Byte(t) => Strays(B, t, w)
       case Stop(_, _) => false
  }

  lemma SymbolAstray(B: Bits, s: State, w: Window, sym: int, p: nat)
    requires WellFormed(s, w)
    ensures SymbolStep(B, s, w, sym, p) == Stop(Undefined, s) <==> StraySymbol(B, s, w, sym, p)
  {
    hide MatchStep, FromBits, StrayMatch, Lengths;
    if 257 <= sym < 286 {
      LengthRow(sym - 257);
      match ReadBits(B, p, LENGTH_BITS[sym - 257])
      case Starved =>
      case Got(x, q) => UndecodableDistance(B, s, w, q, LENGTH_BASE[sym - 257] + x);
    }
  }

  lemma StepAstray(B: Bits, s: State, w: Window)
    requires WellFormed(s, w) && s.btype in {1, 2}
    ensures HuffmanStep(B, s, w) == Stop(Undefined, s) <==> StrayStep(B, s, w)
  {
    hide SymbolStep, StraySymbol, Decode, Lengths;
    if s.curlen == 0 {
      match Decode(s.lit, B, s.pos)
      case Starved =>
      case Got(sym, p) => SymbolAstray(B, s, w, sym, p);
    }
  }

  lemma UndefinedStays(B: Bits, s: State, w: Window)
    requires WellFormed(s, w) && s.btype in {1, 2} && s.curlen == 0
    ensures var m := HuffmanStep(B, s, w); m.Stop? && m.status == Undefined ==> m.s == s
  {
    hide Decode, FromBits, Lengths, DIST_BITS, DIST_BASE, LENGTH_BITS, LENGTH_BASE;
  }

  lemma StoredDefined(B: Bits, s: State)
    requires s.btype == 0
    ensures var m := StoredStep(B, s); if m.Stop? then m.status != Undefined else m.s.btype in {-1, 0}
  {
    hide FromBits;
  }

  lemma OpenDefined(B: Bits, s: State)
    ensures var m := OpenStep(B, s); m.Stop? ==> m.status != Undefined
  {
    hide DynamicTrees, FromBits, FixedLit, FixedDist;
  }

  lemma MicroAstray(B: Bits, s: State, w: Window)
    requires WellFormed(s, w)
    ensures var m := Micro(B, s, w);
      (m.Stop? && m.status == Undefined <==> StrayStep(B, s, w)) && (StrayStep(B, s, w) ==> m == Stop(Undefined, s))
  {
    hide OpenStep, StoredStep, HuffmanStep, Lengths, Decode, StraySymbol;
    if s.btype == -1 {
      OpenDefined(B, s);
    } else if s.btype == 0 {
      StoredDefined(B, s);
    } else if s.btype in {1, 2} {
      StepAstray(B, s, w);
      if s.curlen == 0 { UndefinedStays(B, s, w); } else { CopyGoesOn(B, s, w); }
    }
  }

  lemma CopyGoesOn(B: Bits, s: State, w: Window)
    requires WellFormed(s, w) && s.btype in {1, 2} && s.curlen > 0
    ensures HuffmanStep(B, s, w).Byte?
  {
    hide Lengths;
  }

  /** A whole stream makes the inflater read outside its tables, or before the output file, if
      and only if it has such a match where inflation comes to it. */
  lemma {:induction false} StraysIff(B: Bits, s: State, w: Window)
    requires WellFormed(s, w) && s.pos <= |B|
    ensures All(B, s, w).0 == Undefined <==> Strays(B, s, w)
    decreases |B| - s.pos, s.curlen, Order(s)
  {
    hide Micro, StrayStep, Lengths;
    MicroProgress(B, s, w);
    MicroAstray(B, s, w);
    match Micro(B, s, w)
    case Silent(s') => StraysIff(B, s', w);
    case Byte(s') => StraysIff(B, s', w);
    case Stop(st, s') =>
  }

  /** The current block has a complete distance code. */
  ghost predicate Complete(s: State) {
    s.btype in {1, 2} ==> Lengths(s.dst) && KraftSum(s.dst) >= Pow2(15)
  }

  /** Every block that inflation opens has one. */
  ghost predicate AllComplete(B: Bits, s: State, w: Window)
    requires WellFormed(s, w) && s.pos <= |B|
    decreases |B| - s.pos, s.curlen, Order(s)
  {
    MicroProgress(B, s, w);
    Complete(s)
    && match Micro(B, s, w)
       case Silent(t) => AllComplete(B, t, w)
       case Byte(t) => AllComplete(B, t, w)
       case Stop(_, _) => true
  }

  /** With a complete code a match goes astray only by missing bits. */
  lemma CompleteStep(B: Bits, s: State, w: Window)
    requires WellFormed(s, w) && Complete(s) && !w.File?
    ensures StrayStep(B, s, w) ==> s.pos + 36 > |B|
  {
    hide Lengths, KraftSum, Pow2, Decode, StraySymbol;
    if s.btype in {1, 2} {
      DecodeEnds(s.lit, B, s.pos);
      match Decode(s.lit, B, s.pos)
      case Starved =>
      case Got(sym, p) => CompleteSymbol(B, s, w, sym, p);
    }
  }

  lemma CompleteSymbol(B: Bits, s: State, w: Window, sym: int, p: nat)
    requires Lengths(s.dst) && KraftSum(s.dst) >= Pow2(15) && !w.File?
    ensures StraySymbol(B, s, w, sym, p) ==> p + 20 > |B|
  {
    hide Lengths, KraftSum, Pow2, Decode, CodewordNext, FromBits;
    if 257 <= sym < 286 {
      LengthRow(sym - 257);
      var q := p + LENGTH_BITS[sym - 257];
      CompleteDecodes(s.dst, B, q);
      DecodesIff(s.dst, B, q);
    }
  }

  /** If all blocks that inflation opens have complete distance codes, and with a ring or all
      output in memory, nothing goes astray but within the last 36 bits: a gzip member has a
      trailer of 64 bits there. */
  lemma {:induction false} DefinedIfComplete(B: Bits, s: State, w: Window)
    requires WellFormed(s, w) && s.pos <= |B| && AllComplete(B, s, w) && !w.File?
    ensures var r := All(B, s, w); r.0 == Undefined ==> r.1.pos + 36 > |B|
    decreases |B| - s.pos, s.curlen, Order(s)
  {
    hide Micro, Lengths, Complete, StrayStep;
    MicroProgress(B, s, w);
    MicroAstray(B, s, w);
    CompleteStep(B, s, w);
    match Micro(B, s, w)
    case Silent(s') => DefinedIfComplete(B, s', w);
    case Byte(s') => DefinedIfComplete(B, s', w);
    case Stop(st, s') =>
  }
}
