/** The three places copies are read from agree: the ring, the output buffer and the output
    file give the same output if and only if no distance is too large for any of them. */
module Windows {
  import opened Bits
  import FixedTrees
  import opened GzHeader
  import opened GzUnpack
  import opened Huffman
  import opened Inflate
  import opened Tables
  import Tinflate

  /** The state `s` of an inflater without a ring, with the ring's first contents before all
      output. */
  function After(prefill: seq<byte>, s: State): State { s.(hist := prefill + s.hist) }

  function AfterStep(prefill: seq<byte>, m: Step): Step {
    match m
    case Silent(s) => Silent(After(prefill, s))
    case Byte(s) => Byte(After(prefill, s))
    case Stop(st, s) => Stop(st, After(prefill, s))
  }

  /** The distance at `p` is larger than the ring or reaches before the first byte of output.
      One that is cut off counts too if it is looked up in the output file. */
  predicate FarMatch(B: Bits, s: State, w: Window, size: nat, p: nat) {
    match Decode(s.dst, B, p)
    case Starved => false
    case Got(d, q) =>
      && 0 <= d < 30
      && match ReadBits(B, q, DIST_BITS[d])
         case Starved => w.File?
         case Got(x, _) => DIST_BASE[d] + x > |s.hist| || DIST_BASE[d] + x > size
  }

  predicate FarSymbol(B: Bits, s: State, w: Window, size: nat, sym: int, p: nat) {
    && 257 <= sym < 286
    && match ReadBits(B, p, LENGTH_BITS[sym - 257])
       case Starved => false
       case Got(_, q) => FarMatch(B, s, w, size, q)
  }

  /** The next step begins a match with such a distance. */
  predicate FarStep(B: Bits, s: State, w: Window, size: nat) {
    && s.btype in {1, 2} && s.curlen == 0
    && match Decode(s.lit, B, s.pos)
       case Starved => false
       case Got(sym, p) => FarSymbol(B, s, w, size, sym, p)
  }

  /** The stream has a match with such a distance. */
  ghost predicate Far(B: Bits, s: State, w: Window, size: nat)
    requires WellFormed(s, w) && s.pos <= |B|
    decreases |B| - s.pos, s.curlen, Order(s)
  {
    MicroProgress(B, s, w);
    FarStep(B, s, w, size)
    || match Micro(B, s, w)
       case Silent(t) => Far(B, t, w, size)
       case Byte(t) => Far(B, t, w, size)
       case Stop(_, _) => false
  }

  /** Both modes do the same; or else they do something else, and neither can make up for it. */
  ghost predicate Alike(prefill: seq<byte>, f: Step, g: Step, far: bool) {
    if !far then g == AfterStep(prefill, f)
    else !f.Silent? && !g.Silent? && (f.Stop? || g.Stop?) && (f.Stop? && g.Stop? ==> f.status != g.status)
  }

  ghost predicate Both(prefill: seq<byte>, s: State, w: Window, size: nat) {
    !w.Ring? && size <= |prefill| && WellFormed(s, w) && WellFormed(After(prefill, s), Ring(size))
  }

  lemma CopyAlike(prefill: seq<byte>, s: State)
    requires s.curlen > 0 && 1 <= s.dist <= |s.hist|
    ensures CopyByte(After(prefill, s)) == AfterStep(prefill, CopyByte(s))
  {
    var h := prefill + s.hist;
    assert h[|h| - s.dist] == s.hist[|s.hist| - s.dist];
    Assoc(prefill, s.hist, [s.hist[|s.hist| - s.dist]]);
  }

  lemma MatchAlike(B: Bits, prefill: seq<byte>, s: State, w: Window, size: nat, p: nat, len: nat)
    requires Both(prefill, s, w, size) && len > 0
    ensures Alike(prefill, MatchStep(B, s, w, p, len), MatchStep(B, After(prefill, s), Ring(size), p, len),
                  FarMatch(B, s, w, size, p))
  {
    hide Decode, FromBits, DIST_BITS, DIST_BASE;
    var f := MatchStep(B, s, w, p, len);
    if f.Byte? {
      DistRow(Decode(s.dst, B, p).val);
      var t := s.(pos := f.s.pos, curlen := len, dist := f.s.dist);
      CopyAlike(prefill, t);
    }
  }

  lemma SymbolAlike(B: Bits, prefill: seq<byte>, s: State, w: Window, size: nat, sym: int, p: nat)
    requires Both(prefill, s, w, size)
    ensures Alike(prefill, SymbolStep(B, s, w, sym, p), SymbolStep(B, After(prefill, s), Ring(size), sym, p),
                  FarSymbol(B, s, w, size, sym, p))
  {
    hide MatchStep, FromBits, FarMatch;
    if sym < 256 {
      Assoc(prefill, s.hist, [(sym % 256) as byte]);
    } else if 257 <= sym < 286 {
      LengthRow(sym - 257);
      var x := ReadBits(B, p, LENGTH_BITS[sym - 257]);
      if x.Got? {
        MatchAlike(B, prefill, s, w, size, x.pos, LENGTH_BASE[sym - 257] + x.val);
      }
    }
  }

  lemma StoredAlike(B: Bits, prefill: seq<byte>, s: State)
    requires s.btype == 0
    ensures StoredStep(B, After(prefill, s)) == AfterStep(prefill, StoredStep(B, s))
  {
    hide FromBits, Align;
    var m := StoredStep(B, s);
    if m.Byte? {
      Assoc(prefill, s.hist, [m.s.hist[|s.hist|]]);
    }
  }

  lemma OpenAlike(B: Bits, prefill: seq<byte>, s: State)
    ensures OpenStep(B, After(prefill, s)) == AfterStep(prefill, OpenStep(B, s))
  {
    hide FromBits, DynamicTrees, FixedTrees.FixedLit, FixedTrees.FixedDist;
  }

  lemma MicroAlike(B: Bits, prefill: seq<byte>, s: State, w: Window, size: nat)
    requires Both(prefill, s, w, size)
    ensures Alike(prefill, Micro(B, s, w), Micro(B, After(prefill, s), Ring(size)), FarStep(B, s, w, size))
  {
    hide OpenStep, StoredStep, SymbolStep, Decode, CopyByte, AfterStep, FarSymbol;
    if s.btype == -1 {
      OpenAlike(B, prefill, s);
    } else if s.btype == 0 {
      StoredAlike(B, prefill, s);
    } else if s.btype in {1, 2} && s.curlen > 0 {
      CopyAlike(prefill, s);
    } else if s.btype in {1, 2} {
      var d := Decode(s.lit, B, s.pos);
      StopIs(prefill, s);
      if d.Got? { SymbolAlike(B, prefill, s, w, size, d.val, d.pos); }
    } else {
      StopIs(prefill, s);
    }
  }

  lemma StopIs(prefill: seq<byte>, s: State)
    ensures forall st :: AfterStep(prefill, Stop(st, s)) == Stop(st, After(prefill, s))
  {}

  /** Whatever the stream, decoding with a ring and decoding from the output so far come to
      the same end and the same bytes if and only if no distance is too far. */
  lemma {:induction false} AllAlike(B: Bits, prefill: seq<byte>, s: State, w: Window, size: nat)
    requires Both(prefill, s, w, size) && s.pos <= |B|
    ensures var f, g := All(B, s, w), All(B, After(prefill, s), Ring(size));
      g == (f.0, After(prefill, f.1)) <==> !Far(B, s, w, size)
    decreases |B| - s.pos, s.curlen, Order(s)
  {
    hide Micro, FarStep, Lengths;
    MicroProgress(B, s, w);
    MicroProgress(B, After(prefill, s), Ring(size));
    MicroAlike(B, prefill, s, w, size);
    Tinflate.MicroStopKeeps(B, s, w);
    Tinflate.MicroStopKeeps(B, After(prefill, s), Ring(size));
    var f, g := Micro(B, s, w), Micro(B, After(prefill, s), Ring(size));
    if FarStep(B, s, w, size) {
      if f.Byte? { AllKeeps(B, f.s, w); }
      if g.Byte? { AllKeeps(B, g.s, Ring(size)); }
    } else if !f.Stop? {
      AllAlike(B, prefill, f.s, w, size);
    }
  }

  /** For gzUncompress: the output file does not depend on whether there is a dictionary, if
      and only if no distance in the source reaches beyond it or before the output. */
  lemma OutcomesAgree(source: seq<byte>, prefill: seq<byte>, size: nat)
    requires Header(source).Start? && 0 < size <= |prefill|
    ensures WellFormed(Initial(8 * Header(source).pos, []), File)
    ensures var f, g := Outcome(source, File, []), Outcome(source, Ring(size), prefill);
      g == (f.0, f.1.(hist := prefill + f.1.hist)) <==>
      !Far(BytesBits(source), Initial(8 * Header(source).pos, []), File, size)
  {
    hide All, Header;
    var s := Initial(8 * Header(source).pos, []);
    assert prefill + [] == prefill;
    assert After(prefill, s) == Initial(8 * Header(source).pos, prefill);
    AllAlike(BytesBits(source), prefill, s, File, size);
  }

  predicate Within(d: nat)
    requires d < 30
  {
    DIST_BASE[d] + Pow2(DIST_BITS[d]) <= 32769
  }

  lemma RowsWithin()
    ensures forall d: nat | d < 15 :: Within(d)
  {
    hide Pow2;
    SmallPowers();
    assert Within(0) && Within(1) && Within(2) && Within(3) && Within(4);
    assert Within(5) && Within(6) && Within(7) && Within(8) && Within(9);
    assert Within(10) && Within(11) && Within(12) && Within(13) && Within(14);
  }

  lemma OtherRowsWithin()
    ensures forall d: nat | 15 <= d < 30 :: Within(d)
  {
    hide Pow2;
    SmallPowers();
    assert Within(15) && Within(16) && Within(17) && Within(18) && Within(19);
    assert Within(20) && Within(21) && Within(22) && Within(23) && Within(24);
    assert Within(25) && Within(26) && Within(27) && Within(28) && Within(29);
  }

  /** No distance is larger than 32768, so that with the usual ring only those matter that
      reach before the output. */
  lemma UsualRing(B: Bits, s: State, w: Window, p: nat)
    requires !w.File?
    ensures FarMatch(B, s, w, 32768, p) ==> FarMatch(B, s, w, |s.hist|, p) && |s.hist| < 32768
  {
    hide Decode, Pow2, Within, FromBits, DIST_BASE, DIST_BITS;
    RowsWithin();
    OtherRowsWithin();
    var r := Decode(s.dst, B, p);
    if r.Got? && 0 <= r.val < 30 { LargestDistance(r.val, B, r.pos); }
  }

  lemma LargestDistance(d: nat, B: Bits, q: nat)
    requires d < 30 && Within(d)
    ensures |DIST_BITS| == |DIST_BASE| == 30
    ensures var r := ReadBits(B, q, DIST_BITS[d]); r.Got? ==> DIST_BASE[d] + r.val <= 32768
  {
    hide Pow2;
  }
}
