/** What a DEFLATE stream means: inflation as a machine over the bits of the source that
    makes one step at a time, each reading a block header, ending a block, or producing
    one byte. `hist` is everything a copy may refer to: the initial contents of the
    dictionary ring, oldest first, then all output. */
module Inflate {
  import opened Bits
  import opened Tables
  import opened Huffman
  import opened FixedTrees

  /** Where copies are read from, which decides what becomes of a distance that is too
      large: the ring, the output buffer, or the output file through a callback that
      does not check it. */
  datatype Window = Ring(size: nat) | Memory | File

  datatype Status = Ok | Done | DataError | DictError
    /** The source ends early, and the code is bound to notice and to report an error. */
    | Truncated
    /** The source ends within a block header or the lengths of a stored block: what the code
        does then hangs on the value of bytes that are not there. */
    | Exhausted
    /** The C code reads outside a table or before the output. */
    | Undefined

  datatype State = State(
    pos: nat,
    /** -1 before a block header. */
    btype: int,
    bfinal: bool,
    curlen: nat,
    dist: nat,
    lit: seq<nat>,
    dst: seq<nat>,
    hist: seq<byte>)

  datatype Step =
    | Silent(s: State)
    | Byte(s: State)
    | Stop(status: Status, s: State)

  ghost predicate WellFormed(s: State, w: Window) {
    && (s.btype in {1, 2} && s.curlen > 0 ==> 1 <= s.dist <= |s.hist| && (w.Ring? ==> s.dist <= w.size))
    && (s.btype == -1 ==> s.curlen == 0)
    && (w.Ring? ==> |s.hist| >= w.size)
    && Lengths(s.lit) && Lengths(s.dst)
    && (s.btype in {1, 2} ==> |s.dst| <= 32)
  }

  function Initial(pos: nat, prefill: seq<byte>): State {
    State(pos, -1, false, 0, 0, [], [], prefill)
  }

  function ReadBits(B: Bits, p: nat, n: nat): Read {
    if p + n <= |B| then Got(FromBits(B[p..p + n]), p + n) else Starved
  }

  /** Numbers are read as they were written. */
  lemma BitsRead(B: Bits, p: nat, v: nat, n: nat)
    requires v < Pow2(n) && At(B, p, ToBits(v, n))
    ensures ReadBits(B, p, n) == Got(v, p + n)
  {
    FromToBits(v, n);
  }

  function EndBlock(s: State): Step {
    if s.bfinal then Stop(Done, s) else Silent(s.(btype := -1, curlen := 0))
  }

  function CopyByte(s: State): Step
    requires s.curlen > 0 && 1 <= s.dist <= |s.hist|
  {
    Byte(s.(curlen := s.curlen - 1, hist := s.hist + [s.hist[|s.hist| - s.dist]]))
  }

  function StoredByte(B: Bits, s: State): Step
    requires s.curlen > 0
  {
    if s.curlen == 1 then EndBlock(s.(curlen := 0))
    else
      match ReadBits(B, s.pos, 8)
      case Starved => Stop(Truncated, s)
      case Got(c, q) => Byte(s.(pos := q, curlen := s.curlen - 1, hist := s.hist + [c as byte]))
  }

  /** A stored block: the length, its complement, then the bytes, all byte-aligned. */
  function StoredStep(B: Bits, s: State): Step {
    if s.curlen == 0 then
      match ReadBits(B, Align(s.pos), 16)
      case Starved => Stop(Exhausted, s)
      case Got(len, q) =>
        match ReadBits(B, q, 16)
        case Starved => Stop(Exhausted, s)
        case Got(inv, r) =>
          if len != 0xFFFF - inv then Stop(DataError, s)
          else StoredByte(B, s.(pos := r, curlen := len as nat + 1))
    else StoredByte(B, s)
  }

  function DistanceFault(w: Window, dist: nat, reach: nat): Status {
    match w
    case Ring(size) => if dist > size then DictError else Ok
    case Memory => if dist > reach then DataError else Ok
    case File => if dist > reach then Undefined else Ok
  }

  /** The distance of a match is cut off in its extra bits, and might be anything. */
  function CutDistance(w: Window): Status { if w.File? then Undefined else Truncated }

  /** A match of length `len` whose distance code is at `p`. A distance that cannot be decoded,
      by its bits or because they are missing, is looked up in the tables at -3. */
  function MatchStep(B: Bits, s: State, w: Window, p: nat, len: nat): Step
    requires len > 0 && (w.Ring? ==> |s.hist| >= w.size)
  {
    match Decode(s.dst, B, p)
    case Starved => Stop(Undefined, s)
    case Got(d, q) =>
      if d >= 30 then Stop(DataError, s)
      else if d < 0 then Stop(Undefined, s)
      else
        match ReadBits(B, q, DIST_BITS[d])
        case Starved => Stop(CutDistance(w), s)
        case Got(x, r) =>
          var offs := DIST_BASE[d] + x;
          var fault := DistanceFault(w, offs, |s.hist|);
          DistRow(d);
          if fault != Ok then Stop(fault, s) else CopyByte(s.(pos := r, curlen := len, dist := offs))
  }

  function SymbolStep(B: Bits, s: State, w: Window, sym: int, p: nat): Step
    requires w.Ring? ==> |s.hist| >= w.size
  {
    if sym < 256 then Byte(s.(pos := p, hist := s.hist + [(sym % 256) as byte]))
    else if sym == 256 then EndBlock(s.(pos := p))
    else if sym - 257 >= 29 then Stop(DataError, s)
    else
      match ReadBits(B, p, LENGTH_BITS[sym - 257])
      case Starved => Stop(Undefined, s)
      case Got(x, q) =>
        LengthRow(sym - 257);
        MatchStep(B, s, w, q, LENGTH_BASE[sym - 257] + x)
  }

  function HuffmanStep(B: Bits, s: State, w: Window): Step
    requires WellFormed(s, w) && s.btype in {1, 2}
  {
    if s.curlen > 0 then CopyByte(s)
    else
      match Decode(s.lit, B, s.pos)
      case Starved => Stop(Truncated, s)
      case Got(sym, p) => SymbolStep(B, s, w, sym, p)
  }

  const CLCIDX: seq<nat> := [16, 17, 18, 0, 8, 7, 9, 6, 10, 5, 11, 4, 12, 3, 13, 2, 14, 1, 15]

  datatype ReadLengths = GotLengths(lens: seq<nat>, pos: nat) | BadLengths | NoLengths

  /** Code lengths of the code length alphabet, entries `i` to `hclen` still to be read. */
  function CodeLengthLengths(B: Bits, p: nat, i: nat, hclen: nat, lens: seq<nat>): ReadLengths
    requires i <= hclen <= 19 && |lens| == 19
    decreases hclen - i
  {
    if i == hclen then GotLengths(lens, p)
    else
      match ReadBits(B, p, 3)
      case Starved => NoLengths
      case Got(v, q) => CodeLengthLengths(B, q, i + 1, hclen, lens[CLCIDX[i] := v])
  }

  /** Symbols 16 to 18 stand for runs: of the last length, or of zeros. */
  function RunBits(sym: nat): nat { if sym == 16 then 2 else if sym == 17 then 3 else 7 }
  function RunBase(sym: nat): nat { if sym == 18 then 11 else 3 }
  function RunFill(sym: nat, lens: seq<nat>): nat {
    if sym == 16 && lens != [] then lens[|lens| - 1] else 0
  }

  /** Code lengths run-length coded with the code `cl`, after the ones in `lens`. */
  function RunLengths(B: Bits, p: nat, cl: seq<nat>, lens: seq<nat>, limit: nat): ReadLengths
    requires |cl| == 19
    decreases limit - |lens|
  {
    if |lens| >= limit then GotLengths(lens, p)
    else
      match Decode(cl, B, p)
      case Starved => NoLengths
      case Got(sym, q) =>
        if sym < 0 || (sym == 16 && lens == []) then BadLengths
        else if sym < 16 then RunLengths(B, q, cl, lens + [sym], limit)
        else
          match ReadBits(B, q, RunBits(sym))
          case Starved => NoLengths
          case Got(x, r) =>
            var length := x as nat + RunBase(sym);
            if |lens| + length > limit then BadLengths
            else RunLengths(B, r, cl, lens + Repeat(RunFill(sym, lens), length), limit)
  }

  function Repeat(v: nat, n: nat): (r: seq<nat>)
    ensures |r| == n && forall i | 0 <= i < n :: r[i] == v
  {
    seq(n, i => v)
  }

  datatype Trees = GotTrees(lit: seq<nat>, dst: seq<nat>, pos: nat) | BadTrees | NoTrees

  function DynamicLengths(B: Bits, p: nat, hclen: nat, limit: nat): (r: ReadLengths)
    requires hclen <= 19
    ensures r.GotLengths? ==> |r.lens| == limit && forall i | 0 <= i < limit :: r.lens[i] <= 15
  {
    var cl := CodeLengthLengths(B, p, 0, hclen, Repeat(0, 19));
    if cl.GotLengths? then
      CodeLengthCount(B, p, 0, hclen, Repeat(0, 19));
      RunLengthCount(B, cl.pos, cl.lens, [], limit);
      RunLengths(B, cl.pos, cl.lens, [], limit)
    else cl
  }

  /** The header of a block with dynamic trees (section 3.2.7). */
  function DynamicTrees(B: Bits, p: nat): (t: Trees)
    ensures t.GotTrees? ==> Lengths(t.lit) && Lengths(t.dst) && |t.dst| <= 32
  {
    if p + 14 > |B| then NoTrees
    else
      HeaderCounts(B, p);
      var hlit := FromBits(B[p..p + 5]) + 257;
      var hdist := FromBits(B[p + 5..p + 10]) + 1;
      var hclen := FromBits(B[p + 10..p + 14]) + 4;
      match DynamicLengths(B, p + 14, hclen, hlit + hdist)
      case NoLengths => NoTrees
      case BadLengths => BadTrees
      case GotLengths(lens, r) => GotTrees(lens[..hlit], lens[hlit..], r)
  }

  lemma HeaderCounts(B: Bits, p: nat)
    requires p + 14 <= |B|
    ensures FromBits(B[p..p + 5]) < 32 && FromBits(B[p + 5..p + 10]) < 32 && FromBits(B[p + 10..p + 14]) < 16
  {
    assert Pow2(5) == 32 && Pow2(4) == 16;
  }

  lemma {:induction false} CodeLengthCount(B: Bits, p: nat, i: nat, hclen: nat, lens: seq<nat>)
    requires i <= hclen <= 19 && |lens| == 19 && (forall k | 0 <= k < 19 :: lens[k] <= 7)
    ensures var r := CodeLengthLengths(B, p, i, hclen, lens);
      r.GotLengths? ==> |r.lens| == 19 && (forall k | 0 <= k < 19 :: r.lens[k] <= 7)
    decreases hclen - i
  {
    assert Pow2(3) == 8;
    if i < hclen && p + 3 <= |B| {
      CodeLengthCount(B, p + 3, i + 1, hclen, lens[CLCIDX[i] := FromBits(B[p..p + 3])]);
    }
  }

  /** Whatever the bits, every length read is at most 15 and none too many are. */
  lemma {:induction false} RunLengthCount(B: Bits, p: nat, cl: seq<nat>, lens: seq<nat>, limit: nat)
    requires |cl| == 19 && |lens| <= limit && (forall i | 0 <= i < |lens| :: lens[i] <= 15)
    ensures var r := RunLengths(B, p, cl, lens, limit);
      r.GotLengths? ==> |r.lens| == limit && (forall i | 0 <= i < limit :: r.lens[i] <= 15)
    decreases limit - |lens|
  {
    hide Decode, FromBits;
    if |lens| < limit {
      match Decode(cl, B, p)
      case Starved =>
      case Got(sym, q) =>
        if sym < 0 || (sym == 16 && lens == []) {
        } else if sym < 16 {
          RunLengthCount(B, q, cl, lens + [sym], limit);
        } else {
          match ReadBits(B, q, RunBits(sym))
          case Starved =>
          case Got(x, r) =>
            var length := x as nat + RunBase(sym);
            if |lens| + length <= limit {
              RunLengthCount(B, r, cl, lens + Repeat(RunFill(sym, lens), length), limit);
            }
        }
    }
  }

  /** The state at the start of a block of type `btype`. */
  function Opened(s: State, pos: nat, bfinal: bool, btype: nat, lit: seq<nat>, dst: seq<nat>): Step {
    Silent(State(pos, btype, bfinal, s.curlen, s.dist, lit, dst, s.hist))
  }

  function OpenStep(B: Bits, s: State): Step {
    if s.pos + 3 > |B| then Stop(Exhausted, s)
    else
      var btype := FromBits(B[s.pos + 1..s.pos + 3]);
      if btype == 1 then Opened(s, s.pos + 3, B[s.pos], 1, FixedLit(), FixedDist())
      else if btype == 2 then
        match DynamicTrees(B, s.pos + 3)
        case NoTrees => Stop(Truncated, s)
        case BadTrees => Stop(DataError, s)
        case GotTrees(lit, dst, p) => Opened(s, p, B[s.pos], 2, lit, dst)
      else Opened(s, s.pos + 3, B[s.pos], btype, s.lit, s.dst)
  }

  function Micro(B: Bits, s: State, w: Window): Step
    requires WellFormed(s, w)
  {
    if s.btype == -1 then OpenStep(B, s)
    else if s.btype == 0 then StoredStep(B, s)
    else if s.btype in {1, 2} then HuffmanStep(B, s, w)
    else Stop(DataError, s)
  }

  lemma {:induction false} DecodeReads(L: seq<nat>, B: Bits, p: nat, k: nat, v: nat)
    requires k <= 15 && 2 * v >= First(L, k + 1)
    ensures var r := DecodeFrom(L, B, p, k, v); r.Got? ==> p < r.pos <= |B| && r.val < 288 + |L|
    ensures var r := DecodeFrom(L, B, p, k, v); r.Got? && r.val >= 0 ==> r.val < |L|
    decreases 15 - k
  {
    hide First, Count, Nth;
    if p < |B| && k < 15 {
      var v' := 2 * v + Bit(B[p]);
      if v' >= First(L, k + 1) + Count(L, k + 1) {
        EndOfCodes(L, k + 1);
        DecodeReads(L, B, p + 1, k + 1, v');
      }
    }
  }

  /** From `s`, the machine comes to `s'` without going round in circles. */
  ghost predicate Moves(B: Bits, s: State, s': State, w: Window) {
    && WellFormed(s', w) && s'.pos <= |B| && s.hist <= s'.hist
    && (s'.pos > s.pos
        || (s'.pos == s.pos && s'.curlen < s.curlen)
        || (s'.pos == s.pos && s'.curlen == s.curlen && s'.btype == -1 && s.btype != -1))
  }

  ghost predicate Progress(B: Bits, s: State, r: Step, w: Window) {
    match r
    case Silent(s') => Moves(B, s, s', w) && s'.hist == s.hist
    case Byte(s') => Moves(B, s, s', w) && |s'.hist| == |s.hist| + 1
    case Stop(st, s') => st != Ok
  }

  lemma OpenProgress(B: Bits, s: State, w: Window)
    requires WellFormed(s, w) && s.pos <= |B| && s.btype == -1
    ensures Progress(B, s, OpenStep(B, s), w)
  {
    hide FixedLit, FixedDist, DynamicTrees, FromBits, Lengths;
    FixedLengths();
    DynamicTreesRead(B, s.pos + 3);
  }

  lemma StoredProgress(B: Bits, s: State, w: Window)
    requires WellFormed(s, w) && s.pos <= |B| && s.btype == 0
    ensures Progress(B, s, StoredStep(B, s), w)
  {
    hide FromBits, Lengths;
  }

  lemma MatchProgress(B: Bits, s: State, w: Window, p: nat, len: nat)
    requires WellFormed(s, w) && s.btype in {1, 2} && s.pos < p <= |B| && len > 0
    ensures Progress(B, s, MatchStep(B, s, w, p, len), w)
  {
    hide FromBits, Lengths, DecodeFrom, DIST_BITS, DIST_BASE;
    FirstOfOne(s.dst);
    DecodeReads(s.dst, B, p, 0, 0);
    match Decode(s.dst, B, p)
    case Starved =>
    case Got(d, q) =>
      if 0 <= d < 30 { DistRow(d); }
  }

  lemma SymbolProgress(B: Bits, s: State, w: Window, sym: int, p: nat)
    requires WellFormed(s, w) && s.btype in {1, 2} && s.curlen == 0 && s.pos < p <= |B|
    ensures Progress(B, s, SymbolStep(B, s, w, sym, p), w)
  {
    hide FromBits, Lengths, MatchStep;
    if 257 <= sym < 286 {
      LengthRow(sym - 257);
      var r := ReadBits(B, p, LENGTH_BITS[sym - 257]);
      if r.Got? {
        MatchProgress(B, s, w, r.pos, LENGTH_BASE[sym - 257] + r.val);
      }
    }
  }

  lemma HuffmanProgress(B: Bits, s: State, w: Window)
    requires WellFormed(s, w) && s.pos <= |B| && s.btype in {1, 2}
    ensures Progress(B, s, HuffmanStep(B, s, w), w)
  {
    if s.curlen == 0 {
      FirstOfOne(s.lit);
      DecodeReads(s.lit, B, s.pos, 0, 0);
      hide DecodeFrom, SymbolStep, Progress;
      match Decode(s.lit, B, s.pos)
      case Starved => assert Progress(B, s, Stop(Truncated, s), w) by { StopProgress(B, s, w); }
      case Got(sym, p) => SymbolProgress(B, s, w, sym, p);
    }
  }

  lemma StopProgress(B: Bits, s: State, w: Window)
    ensures Progress(B, s, Stop(Truncated, s), w)
  {}

  lemma MicroProgress(B: Bits, s: State, w: Window)
    requires WellFormed(s, w) && s.pos <= |B|
    ensures Progress(B, s, Micro(B, s, w), w)
  {
    hide OpenStep, StoredStep, HuffmanStep, Moves;
    if s.btype == -1 { OpenProgress(B, s, w); }
    else if s.btype == 0 { StoredProgress(B, s, w); }
    else if s.btype in {1, 2} { HuffmanProgress(B, s, w); }
  }

  lemma {:induction false} CodeLengthsRead(B: Bits, p: nat, i: nat, hclen: nat, lens: seq<nat>)
    requires i <= hclen <= 19 && |lens| == 19 && p <= |B|
    ensures var r := CodeLengthLengths(B, p, i, hclen, lens); r.GotLengths? ==> p <= r.pos <= |B|
    decreases hclen - i
  {
    hide FromBits;
    if i < hclen && p + 3 <= |B| {
      CodeLengthsRead(B, p + 3, i + 1, hclen, lens[CLCIDX[i] := FromBits(B[p..p + 3])]);
    }
  }

  lemma {:induction false} RunLengthsRead(B: Bits, p: nat, cl: seq<nat>, lens: seq<nat>, limit: nat)
    requires |cl| == 19 && p <= |B|
    ensures var r := RunLengths(B, p, cl, lens, limit); r.GotLengths? ==> p <= r.pos <= |B|
    decreases limit - |lens|
  {
    hide DecodeFrom, FromBits;
    FirstOfOne(cl);
    DecodeReads(cl, B, p, 0, 0);
    if |lens| < limit {
      match Decode(cl, B, p)
      case Starved =>
      case Got(sym, q) =>
        if sym < 0 || (sym == 16 && lens == []) {
        } else if sym < 16 {
          RunLengthsRead(B, q, cl, lens + [sym], limit);
        } else {
          match ReadBits(B, q, RunBits(sym))
          case Starved =>
          case Got(x, r) =>
            var length := x as nat + RunBase(sym);
            if |lens| + length <= limit {
              RunLengthsRead(B, r, cl, lens + Repeat(RunFill(sym, lens), length), limit);
            }
        }
    }
  }

  lemma DynamicTreesRead(B: Bits, p: nat)
    ensures var r := DynamicTrees(B, p); r.GotTrees? ==> p < r.pos <= |B|
  {
    hide FromBits, CodeLengthLengths, RunLengths, Repeat;
    if p + 14 <= |B| {
      HeaderCounts(B, p);
      var hlit := FromBits(B[p..p + 5]) + 257;
      var hdist := FromBits(B[p + 5..p + 10]) + 1;
      var hclen := FromBits(B[p + 10..p + 14]) + 4;
      CodeLengthsRead(B, p + 14, 0, hclen, Repeat(0, 19));
      var cl := CodeLengthLengths(B, p + 14, 0, hclen, Repeat(0, 19));
      CodeLengthCount(B, p + 14, 0, hclen, Repeat(0, 19));
      if cl.GotLengths? {
        RunLengthsRead(B, cl.pos, cl.lens, [], hlit + hdist);
      }
    }
  }

  function Order(s: State): nat { if s.btype == -1 then 0 else 1 }

  /** Inflation run to its end: the final status, and the state it is reached in. */
  ghost function All(B: Bits, s: State, w: Window): (r: (Status, State))
    requires WellFormed(s, w) && s.pos <= |B|
    ensures r.0 != Ok
    decreases |B| - s.pos, s.curlen, Order(s)
  {
    MicroProgress(B, s, w);
    match Micro(B, s, w)
    case Silent(s') => All(B, s', w)
    case Byte(s') => All(B, s', w)
    case Stop(st, s') => (st, s')
  }

  /** The next byte of output, past any block boundaries before it. */
  ghost function NextByte(B: Bits, s: State, w: Window): (r: Step)
    requires WellFormed(s, w) && s.pos <= |B|
    ensures r.Byte? || (r.Stop? && r.status != Ok)
    ensures r.Byte? ==> WellFormed(r.s, w) && r.s.pos <= |B| && |r.s.hist| == |s.hist| + 1 && s.hist <= r.s.hist
    decreases |B| - s.pos, s.curlen, Order(s)
  {
    MicroProgress(B, s, w);
    var r := Micro(B, s, w);
    if r.Silent? then NextByte(B, r.s, w) else r
  }

  /** What one call of uzlib_uncompress asked for `n` bytes comes to. */
  ghost function Run(B: Bits, s: State, w: Window, n: nat): (r: (Status, State))
    requires WellFormed(s, w) && s.pos <= |B|
    ensures r.0 == Ok ==> WellFormed(r.1, w) && r.1.pos <= |B| && |r.1.hist| == |s.hist| + n && s.hist <= r.1.hist
    decreases n
  {
    if n == 0 then (Ok, s)
    else
      var r := NextByte(B, s, w);
      if r.Byte? then Run(B, r.s, w, n - 1) else (r.status, r.s)
  }

  lemma {:induction false} NextByteOfAll(B: Bits, s: State, w: Window)
    requires WellFormed(s, w) && s.pos <= |B|
    ensures var r := NextByte(B, s, w); All(B, s, w) == if r.Byte? then All(B, r.s, w) else (r.status, r.s)
    decreases |B| - s.pos, s.curlen, Order(s)
  {
    hide Micro;
    MicroProgress(B, s, w);
    match Micro(B, s, w)
    case Silent(s') => NextByteOfAll(B, s', w);
    case Byte(s') =>
    case Stop(st, s') =>
  }

  /** Asking for some of the output first does not change what is left to come. */
  lemma {:induction false} RunOfAll(B: Bits, s: State, w: Window, n: nat)
    requires WellFormed(s, w) && s.pos <= |B|
    ensures var r := Run(B, s, w, n); All(B, s, w) == if r.0 == Ok then All(B, r.1, w) else r
    decreases n
  {
    hide All, NextByte;
    if n == 0 {
    } else {
      NextByteOfAll(B, s, w);
      var r := NextByte(B, s, w);
      if r.Byte? { RunOfAll(B, r.s, w, n - 1); }
    }
  }

  /** Inflation can be interrupted after any byte: n bytes and then m are n + m bytes. */
  lemma {:induction false} RunResumes(B: Bits, s: State, w: Window, n: nat, m: nat)
    requires WellFormed(s, w) && s.pos <= |B|
    ensures var r := Run(B, s, w, n); Run(B, s, w, n + m) == if r.0 == Ok then Run(B, r.1, w, m) else r
    decreases n
  {
    hide NextByte;
    if n == 0 {
    } else {
      var r := NextByte(B, s, w);
      if r.Byte? { RunResumes(B, r.s, w, n - 1, m); }
    }
  }
}
