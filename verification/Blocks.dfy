/** Whole DEFLATE streams of stored, static and dynamic blocks (RFC 1951, section 3.2), as any
    compressor may write them, inflate to what they stand for. */
module Blocks {
  import opened Bits
  import opened Coded
  import opened Dynamic
  import opened DeflStatic
  import opened FixedTrees
  import opened Huffman
  import opened Inflate
  import opened Lz77
  import opened StaticCode
  import opened Stored
  import Tinflate

  datatype Block =
    | Raw(data: seq<byte>)
    | Static(ts: seq<Token>)
    | Custom(trees: TreeHeader, ts: seq<Token>)

  /** The code lengths of section 3.2.6. */
  function StaticLit(): (L: seq<nat>)
    ensures |L| == 288
  {
    Repeat(8, 144) + Repeat(9, 112) + Repeat(7, 24) + Repeat(8, 8)
  }

  function StaticDist(): seq<nat> { Repeat(5, 32) }

  lemma StaticIs()
    ensures StaticLit() == FixedLit() && StaticDist() == FixedDist()
  {}

  /** The block can be written: its tokens have code words, and it says where it ends. */
  ghost predicate Writable(b: Block) {
    match b
    case Raw(d) => |d| <= 65535
    case Static(ts) => true
    case Custom(h, ts) =>
      Dynamic.Proper(h) && Used(h.lit, END_OF_BLOCK) && forall t <- ts :: Spells(h.lit, h.dst, t)
  }

  /** The codes of a block. */
  function LitOf(b: Block): seq<nat>
    requires !b.Raw?
  {
    if b.Static? then StaticLit() else b.trees.lit
  }

  function DistOf(b: Block): seq<nat>
    requires !b.Raw?
  {
    if b.Static? then StaticDist() else b.trees.dst
  }

  /** How the codes are sent; the static ones are not. */
  ghost function TreesWord(b: Block): Bits
    requires !b.Raw? && Writable(b)
  {
    if b.Static? then [] else HeaderWord(b.trees)
  }

  /** What follows the three header bits, unless it is stored. */
  ghost function BlockWord(b: Block): Bits
    requires !b.Raw? && Writable(b)
  {
    TreesWord(b) + BodyWord(LitOf(b), DistOf(b), b.ts)
  }

  ghost function BlockEnd(p: nat, b: Block): nat
    requires Writable(b)
  {
    if b.Raw? then Align(p + 3) + 32 + 8 * |b.data| else p + 3 + |BlockWord(b)|
  }

  /** The block stands at `p`. */
  ghost predicate BlockAt(B: Bits, p: nat, final: bool, b: Block)
    requires Writable(b)
  {
    match b
    case Raw(d) => At(B, p, [final, false, false]) && At(B, Align(p + 3), BytesBits(StoredBytes(d)))
    case Static(_) => At(B, p, [final, true, false]) && At(B, p + 3, BlockWord(b))
    case Custom(_, _) => At(B, p, [final, false, true]) && At(B, p + 3, BlockWord(b))
  }

  /** What the block adds to `out`, which its copies may refer to. */
  function Contents(out: seq<byte>, b: Block): Option<seq<byte>> {
    if b.Raw? then Some(out + b.data) else Expand(b.ts, out)
  }

  predicate Within(b: Block, limit: nat) { b.Raw? || DistancesWithin(b.ts, limit) }

  /** A header with three bits, the last two of which give the type. */
  lemma TypeRead(B: Bits, p: nat, final: bool, x: bool, y: bool)
    requires At(B, p, [final, x, y])
    ensures p + 3 <= |B| && B[p] == final && FromBits(B[p + 1..p + 3]) == Bit(x) + 2 * Bit(y)
  {
    var h := B[p..p + 3];
    assert h == [final, x, y] && h[0] == B[p] && B[p + 1..p + 3] == h[1..] == [x, y];
    assert [x, y][1..] == [y] && [y][1..] == [];
  }

  /** Its header opens a block with the trees it is coded in. */
  lemma BlockOpens(B: Bits, s: State, w: Window, final: bool, b: Block) returns (t: State)
    requires WellFormed(s, w) && s.btype == -1 && !b.Raw? && Writable(b) && BlockAt(B, s.pos, final, b)
    ensures WellFormed(t, w) && t.btype in {1, 2} && t.curlen == 0 && t.bfinal == final && t.hist == s.hist
    ensures t.lit == LitOf(b) && t.dst == DistOf(b)
    ensures s.pos <= |B| && Micro(B, s, w) == Silent(t) && t.pos == s.pos + 3 + |TreesWord(b)|
  {
    hide FixedLit, FixedDist, StaticLit, StaticDist, DynamicTrees, BodyWord, HeaderWord, Spells, Symbol, Unrolled,
      Lengths, FromBits, KraftSum;
    StaticIs();
    FixedLengths();
    match b
    case Static(_) =>
      TypeRead(B, s.pos, final, true, false);
      t := Micro(B, s, w).s;
    case Custom(h, ts) =>
      TypeRead(B, s.pos, final, false, true);
      AtConcat(B, s.pos + 3, HeaderWord(h), BodyWord(h.lit, h.dst, ts));
      TreesRead(B, s.pos + 3, h);
      t := Micro(B, s, w).s;
  }

  lemma StaticUsable()
    ensures Usable(StaticLit()) && Usable(StaticDist()) && Used(StaticLit(), END_OF_BLOCK)
  {
    hide FixedLit, FixedDist, StaticLit, StaticDist, KraftSum, Lengths, Pow2;
    StaticIs();
    FixedKraft();
  }

  /** All symbols that tokens need have static code words. */
  lemma {:induction false} StaticSpells(ts: seq<Token>, out: seq<byte>)
    requires Expand(ts, out).Some?
    ensures forall t <- ts :: Spells(StaticLit(), StaticDist(), t)
  {
    hide Apply, LengthIndex, DistIndex, StaticLit, StaticDist;
    if ts == [] {
    } else {
      StaticSpells(ts[..|ts| - 1], out);
      StaticIs();
      assert ts == ts[..|ts| - 1] + [ts[|ts| - 1]];
    }
  }

  /** A block can be read in its own codes. */
  lemma CodesUsable(b: Block, out: seq<byte>)
    requires !b.Raw? && Writable(b) && Contents(out, b).Some?
    ensures Usable(LitOf(b)) && Usable(DistOf(b)) && Used(LitOf(b), END_OF_BLOCK)
    ensures forall t <- b.ts :: Spells(LitOf(b), DistOf(b), t)
  {
    hide StaticLit, StaticDist, Spells, Symbol, Unrolled, KraftSum, Lengths, Expand;
    StaticUsable();
    if b.Static? { StaticSpells(b.ts, out); }
  }

  /** After its header, it stands as tokens and an end code. */
  lemma BodyStands(B: Bits, p: nat, final: bool, b: Block)
    requires !b.Raw? && Writable(b) && BlockAt(B, p, final, b)
    ensures var word := BodyWord(LitOf(b), DistOf(b), b.ts);
      && At(B, p + 3 + |TreesWord(b)|, word) && BlockEnd(p, b) == p + 3 + |TreesWord(b)| + |word|
  {
    hide StaticLit, DistOf, BodyWord, HeaderWord, Spells, Symbol, Unrolled, Usable, At;
    AtConcat(B, p + 3, TreesWord(b), BodyWord(LitOf(b), DistOf(b), b.ts));
  }

  /** A coded block inflates to what its tokens stand for after the output so far. */
  lemma CodedRuns(B: Bits, s: State, w: Window, pre: seq<byte>, out: seq<byte>, final: bool, b: Block, limit: nat)
    returns (t: State)
    requires WellFormed(s, w) && s.btype == -1 && !b.Raw? && Writable(b) && BlockAt(B, s.pos, final, b)
    requires s.hist == pre + out && Contents(out, b).Some? && Within(b, limit) && Reaches(w, limit)
    ensures t.pos == BlockEnd(s.pos, b) && t.hist == pre + Contents(out, b).value
    ensures s.pos <= |B| && Ends(B, s, t, w, final)
  {
    hide LitOf, DistOf, BodyWord, TreesWord, Spells, All, Micro, Usable, Lengths, Expand, DistancesWithin,
      Writable, BlockAt, BlockEnd, At;
    CodesUsable(b, out);
    BodyStands(B, s.pos, final, b);
    var s1 := BlockOpens(B, s, w, final, b);
    Silently(B, s, w);
    t := BodyRuns(B, s1, w, pre, out, b.ts, limit);
  }

  lemma Silently(B: Bits, s: State, w: Window)
    requires WellFormed(s, w) && s.pos <= |B| && Micro(B, s, w).Silent?
    ensures var t := Micro(B, s, w).s; WellFormed(t, w) && t.pos <= |B| && All(B, s, w) == All(B, t, w)
  {
    hide Micro, Lengths;
    MicroProgress(B, s, w);
  }

  lemma BlockRuns(B: Bits, s: State, w: Window, pre: seq<byte>, out: seq<byte>, final: bool, b: Block, limit: nat)
    returns (t: State)
    requires WellFormed(s, w) && s.btype == -1 && Writable(b) && BlockAt(B, s.pos, final, b)
    requires s.hist == pre + out && Contents(out, b).Some? && Within(b, limit) && Reaches(w, limit)
    ensures t.pos == BlockEnd(s.pos, b) && t.hist == pre + Contents(out, b).value
    ensures s.pos <= |B| && Ends(B, s, t, w, final)
  {
    hide At, BytesBits, StoredBytes, All, Align, Expand, Lengths, BlockWord, DistancesWithin;
    if b.Raw? {
      t := StoredRuns(B, s, w, final, b.data);
      Assoc(pre, out, b.data);
    } else {
      t := CodedRuns(B, s, w, pre, out, final, b, limit);
    }
  }

  /** The blocks stand one after the other from `p` on, and only the last is marked final. */
  ghost predicate StreamAt(B: Bits, p: nat, bs: seq<Block>)
    decreases |bs|
  {
    && bs != [] && Writable(bs[0]) && BlockAt(B, p, |bs| == 1, bs[0])
    && (|bs| > 1 ==> StreamAt(B, BlockEnd(p, bs[0]), bs[1..]))
  }

  ghost function StreamEnd(B: Bits, p: nat, bs: seq<Block>): nat
    requires StreamAt(B, p, bs)
    decreases |bs|
  {
    var q := BlockEnd(p, bs[0]);
    if |bs| == 1 then q else StreamEnd(B, q, bs[1..])
  }

  /** What the blocks stand for after `out`, if no copy reaches further back than the first of them. */
  function AllContents(out: seq<byte>, bs: seq<Block>): Option<seq<byte>>
    decreases |bs|
  {
    if bs == [] then Some(out)
    else
      var next := Contents(out, bs[0]);
      if next.Some? then AllContents(next.value, bs[1..]) else None
  }

  /** Every stream of blocks, however they are coded, inflates to its contents and to nothing
      else, and inflation ends right behind the final block. */
  lemma {:induction false} StreamRuns(B: Bits, s: State, w: Window, pre: seq<byte>, out: seq<byte>, bs: seq<Block>,
                                      limit: nat)
    returns (t: State)
    requires WellFormed(s, w) && s.btype == -1 && StreamAt(B, s.pos, bs) && s.hist == pre + out
    requires AllContents(out, bs).Some? && (forall b <- bs :: Within(b, limit)) && Reaches(w, limit)
    ensures s.pos <= |B| && All(B, s, w) == (Done, t)
    ensures t.pos == StreamEnd(B, s.pos, bs) && t.hist == pre + AllContents(out, bs).value
    decreases |bs|
  {
    hide Writable, BlockAt, BlockEnd, Contents, Within, All, Lengths;
    assert bs[0] in bs && forall b <- bs[1..] :: b in bs;
    var s1 := BlockRuns(B, s, w, pre, out, |bs| == 1, bs[0], limit);
    if |bs| == 1 {
      t := s1;
    } else {
      t := StreamRuns(B, s1, w, pre, Contents(out, bs[0]).value, bs[1..], limit);
    }
  }
}
