/** The trees of a dynamic block (RFC 1951, section 3.2.7), as those see them who write them:
    the counts, the lengths of the code length code in their odd order, and the lengths of
    both codes, run-length coded with it. */
module Dynamic {
  import opened Bits
  import opened Coded
  import opened DeflStatic
  import opened Huffman
  import opened Inflate
  import Tinflate

  /** One length, the last one again, or a shorter or a longer run of zeros. */
  datatype LengthCode = One(len: nat) | Again(n: nat) | Zeros(n: nat) | ManyZeros(n: nat)

  /** The code may follow the lengths `lens`. */
  predicate Follows(c: LengthCode, lens: seq<nat>) {
    match c
    case One(len) => len <= 15
    case Again(n) => 3 <= n <= 6 && lens != []
    case Zeros(n) => 3 <= n <= 10
    case ManyZeros(n) => 11 <= n <= 138
  }

  function Added(c: LengthCode, lens: seq<nat>): (r: seq<nat>)
    requires Follows(c, lens)
    ensures |r| > 0
  {
    match c
    case One(len) => [len]
    case Again(n) => Repeat(lens[|lens| - 1], n)
    case Zeros(n) => Repeat(0, n)
    case ManyZeros(n) => Repeat(0, n)
  }

  function Symbol(c: LengthCode): nat {
    match c
    case One(len) => len
    case Again(_) => 16
    case Zeros(_) => 17
    case ManyZeros(_) => 18
  }

  /** Two extra bits for 3 to 6, three for 3 to 10, seven for 11 to 138. */
  function Extra(c: LengthCode): Bits {
    match c
    case One(_) => []
    case Again(n) => if n >= 3 then ToBits(n - 3, 2) else []
    case Zeros(n) => if n >= 3 then ToBits(n - 3, 3) else []
    case ManyZeros(n) => if n >= 11 then ToBits(n - 11, 7) else []
  }

  /** The code in the code length code `cl`. */
  function LengthCodeWord(cl: seq<nat>, c: LengthCode): Bits {
    if Symbol(c) < |cl| then CodeBits(cl, Symbol(c)) + Extra(c) else []
  }

  function LengthCodesWord(cl: seq<nat>, cs: seq<LengthCode>): Bits {
    if cs == [] then [] else LengthCodeWord(cl, cs[0]) + LengthCodesWord(cl, cs[1..])
  }

  /** The lengths that `cs` stand for, after `lens`. */
  function Unrolled(lens: seq<nat>, cs: seq<LengthCode>): (r: Option<seq<nat>>)
    ensures r.Some? ==> |r.value| >= |lens| + |cs|
    decreases |cs|
  {
    if cs == [] then Some(lens)
    else if Follows(cs[0], lens) then Unrolled(lens + Added(cs[0], lens), cs[1..])
    else None
  }

  /** Short of the last code there is room for more. */
  predicate NeedsAll(lens: seq<nat>, cs: seq<LengthCode>, limit: nat)
    decreases |cs|
  {
    if cs == [] then |lens| >= limit
    else |lens| < limit && Follows(cs[0], lens) && NeedsAll(lens + Added(cs[0], lens), cs[1..], limit)
  }

  /** One code is read: its symbol, and how often it counts. */
  lemma CodeRead(B: Bits, p: nat, cl: seq<nat>, lens: seq<nat>, c: LengthCode, limit: nat)
    requires |cl| == 19 && Usable(cl) && Used(cl, Symbol(c)) && Follows(c, lens) && |lens| < limit
    requires At(B, p, LengthCodeWord(cl, c))
    ensures RunLengths(B, p, cl, lens, limit) ==
      var next := lens + Added(c, lens);
      if |next| > limit then BadLengths else RunLengths(B, p + |LengthCodeWord(cl, c)|, cl, next, limit)
  {
    hide Codeword, Decode, KraftSum, ToBits, Inflate.ReadBits, RunLengths, At, Pow2;
    var sym, q := Symbol(c), p + cl[Symbol(c)];
    AtConcat(B, p, CodeBits(cl, sym), Extra(c));
    CodewordDecodes(cl, B, p, sym);
    ExtraRead(B, q, c);
    Tinflate.RunLengthsStep(B, p, cl, lens, limit);
    match c
    case One(len) =>
    case Again(n) =>
    case Zeros(n) =>
    case ManyZeros(n) =>
  }

  lemma ExtraRead(B: Bits, q: nat, c: LengthCode)
    requires At(B, q, Extra(c))
    ensures c.Again? && 3 <= c.n <= 6 ==> Inflate.ReadBits(B, q, 2) == Got(c.n - 3, q + 2)
    ensures c.Zeros? && 3 <= c.n <= 10 ==> Inflate.ReadBits(B, q, 3) == Got(c.n - 3, q + 3)
    ensures c.ManyZeros? && 11 <= c.n <= 138 ==> Inflate.ReadBits(B, q, 7) == Got(c.n - 11, q + 7)
  {
    hide ToBits, Inflate.ReadBits, At;
    assert Pow2(2) == 4 && Pow2(3) == 8;
    assert Pow2(5) == 32 && Pow2(7) == 128;
    match c
    case One(_) =>
    case Again(n) => if 3 <= n <= 6 { BitsRead(B, q, n - 3, 2); }
    case Zeros(n) => if 3 <= n <= 10 { BitsRead(B, q, n - 3, 3); }
    case ManyZeros(n) => if 11 <= n <= 138 { BitsRead(B, q, n - 11, 7); }
  }

  /** Any codes are read as the lengths they stand for, and refused just when these are too many. */
  lemma {:induction false} CodesRead(B: Bits, p: nat, cl: seq<nat>, lens: seq<nat>, cs: seq<LengthCode>, limit: nat)
    requires |cl| == 19 && Usable(cl) && forall c <- cs :: Used(cl, Symbol(c))
    requires |lens| <= limit && NeedsAll(lens, cs, limit) && At(B, p, LengthCodesWord(cl, cs))
    ensures Unrolled(lens, cs).Some?
    ensures var all := Unrolled(lens, cs).value;
      RunLengths(B, p, cl, lens, limit) ==
      if |all| == limit then GotLengths(all, p + |LengthCodesWord(cl, cs)|) else BadLengths
    decreases |cs|
  {
    hide Usable, LengthCodeWord, Added, Follows, RunLengths, Symbol, At;
    if cs == [] {
      Tinflate.RunLengthsStep(B, p, cl, lens, limit);
    } else {
      var c := cs[0];
      assert c in cs && forall d <- cs[1..] :: d in cs;
      AtConcat(B, p, LengthCodeWord(cl, c), LengthCodesWord(cl, cs[1..]));
      CodeRead(B, p, cl, lens, c, limit);
      var next := lens + Added(c, lens);
      if |next| <= limit {
        CodesRead(B, p + |LengthCodeWord(cl, c)|, cl, next, cs[1..], limit);
      } else {
        Unrolls(next, cs[1..], limit);
      }
    }
  }

  lemma {:induction false} Unrolls(lens: seq<nat>, cs: seq<LengthCode>, limit: nat)
    requires NeedsAll(lens, cs, limit)
    ensures Unrolled(lens, cs).Some? && (|lens| >= limit ==> Unrolled(lens, cs).value == lens)
    decreases |cs|
  {
    hide Added, Follows;
    if cs == [] {
    } else {
      Unrolls(lens + Added(cs[0], lens), cs[1..], limit);
    }
  }

  /** The order in which the lengths of the code length code are sent, and where each is. */
  const ORDER: seq<nat> := [16, 17, 18, 0, 8, 7, 9, 6, 10, 5, 11, 4, 12, 3, 13, 2, 14, 1, 15]
  const PLACE: seq<nat> := [3, 17, 15, 13, 11, 9, 7, 5, 4, 6, 8, 10, 12, 14, 16, 18, 0, 1, 2]

  lemma OrderIs()
    ensures |ORDER| == 19 && |PLACE| == 19
    ensures forall v | 0 <= v < 19 :: PLACE[v] < 19 && ORDER[PLACE[v]] == v
    ensures forall i | 0 <= i < 19 :: ORDER[i] < 19 && PLACE[ORDER[i]] == i
  {}

  lemma SameOrder()
    ensures |CLCIDX| == 19 && forall i | 0 <= i < 19 :: CLCIDX[i] == ORDER[i]
  {}

  /** The first `n` lengths in that order, from the `i`-th on. */
  function OrderWord(cl: seq<nat>, i: nat, n: nat): (b: Bits)
    requires |cl| == 19 && i <= n <= 19
    ensures |b| == 3 * (n - i)
    decreases n - i
  {
    if i == n then []
    else
      OrderIs();
      ToBits(cl[ORDER[i]], 3) + OrderWord(cl, i + 1, n)
  }

  /** `lens` has the first `i` lengths of `cl`. */
  ghost predicate SoFar(cl: seq<nat>, lens: seq<nat>, i: nat)
    requires |cl| == |lens| == 19
  {
    OrderIs();
    forall v | 0 <= v < 19 :: lens[v] == if PLACE[v] < i then cl[v] else 0
  }

  lemma {:induction false} OrderRead(B: Bits, p: nat, cl: seq<nat>, lens: seq<nat>, i: nat, n: nat)
    requires |cl| == |lens| == 19 && i <= n <= 19 && SoFar(cl, lens, i) && SoFar(cl, cl, n)
    requires At(B, p, OrderWord(cl, i, n)) && forall v <- cl :: v <= 7
    ensures CodeLengthLengths(B, p, i, n, lens) == GotLengths(cl, p + 3 * (n - i))
    decreases n - i
  {
    hide ToBits, Inflate.ReadBits, CodeLengthLengths, At, ORDER, PLACE, CLCIDX;
    OrderIs();
    SameOrder();
    Tinflate.CodeLengthsStep(B, p, i, n, lens);
    if i == n {
      assert lens == cl;
    } else {
      var v := cl[ORDER[i]];
      assert v in cl;
      AtConcat(B, p, ToBits(v, 3), OrderWord(cl, i + 1, n));
      BitsRead(B, p, v, 3);
      OrderRead(B, p + 3, cl, lens[ORDER[i] := v], i + 1, n);
    }
  }

  /** Two codes and how they are sent: `n` lengths of the code length code `cl`, and the codes
      in it for all their lengths. */
  datatype TreeHeader = TreeHeader(lit: seq<nat>, dst: seq<nat>, cl: seq<nat>, n: nat, codes: seq<LengthCode>)

  ghost predicate Proper(h: TreeHeader) {
    && 257 <= |h.lit| <= 288 && 1 <= |h.dst| <= 32 && Usable(h.lit) && Usable(h.dst)
    && |h.cl| == 19 && (forall v <- h.cl :: v <= 7) && Usable(h.cl) && 4 <= h.n <= 19
    && |ORDER| == 19 && (forall i | h.n <= i < 19 :: ORDER[i] < 19 && h.cl[ORDER[i]] == 0)
    && (forall c <- h.codes :: Used(h.cl, Symbol(c))) && Unrolled([], h.codes) == Some(h.lit + h.dst)
  }

  function HeaderWord(h: TreeHeader): Bits
    requires 257 <= |h.lit| && 1 <= |h.dst| && |h.cl| == 19 && 4 <= h.n <= 19
  {
    ToBits(|h.lit| - 257, 5) + ToBits(|h.dst| - 1, 5) + ToBits(h.n - 4, 4)
    + OrderWord(h.cl, 0, h.n) + LengthCodesWord(h.cl, h.codes)
  }

  /** Codes that stand for `limit` lengths are all needed. */
  lemma {:induction false} ExactlyNeeded(lens: seq<nat>, cs: seq<LengthCode>, limit: nat)
    requires Unrolled(lens, cs).Some? && |Unrolled(lens, cs).value| == limit
    ensures NeedsAll(lens, cs, limit) && |lens| <= limit
    decreases |cs|
  {
    hide Added, Follows;
    if cs == [] {
    } else {
      ExactlyNeeded(lens + Added(cs[0], lens), cs[1..], limit);
    }
  }

  lemma RestNotSent(h: TreeHeader)
    requires Proper(h)
    ensures SoFar(h.cl, h.cl, h.n) && SoFar(h.cl, Repeat(0, 19), 0)
  {
    hide Usable, Unrolled, Symbol, ORDER, PLACE;
    OrderIs();
  }

  lemma CountsRead(B: Bits, p: nat, h: TreeHeader)
    requires Proper(h) && At(B, p, HeaderWord(h))
    ensures DynamicTrees(B, p) == Tinflate.TreesFrom(B, p + 14, |h.lit|, |h.dst|, h.n)
    ensures At(B, p + 14, OrderWord(h.cl, 0, h.n))
    ensures At(B, p + 14 + 3 * h.n, LengthCodesWord(h.cl, h.codes))
    ensures |HeaderWord(h)| == 14 + 3 * h.n + |LengthCodesWord(h.cl, h.codes)|
  {
    hide ToBits, Inflate.ReadBits, Usable, Unrolled, OrderWord, LengthCodesWord, SoFar, DynamicTrees, At, Symbol,
      Tinflate.TreesFrom, Pow2;
    PowersUsed();
    var a, b, c := ToBits(|h.lit| - 257, 5), ToBits(|h.dst| - 1, 5), ToBits(h.n - 4, 4);
    var o, l := OrderWord(h.cl, 0, h.n), LengthCodesWord(h.cl, h.codes);
    AtConcat(B, p, a + b + c + o, l);
    AtConcat(B, p, a + b + c, o);
    AtConcat(B, p, a + b, c);
    AtConcat(B, p, a, b);
    BitsRead(B, p, |h.lit| - 257, 5);
    BitsRead(B, p + 5, |h.dst| - 1, 5);
    BitsRead(B, p + 10, h.n - 4, 4);
    Tinflate.ThreeReads(B, p);
  }

  /** Whatever codes a block is sent with, the inflater reads them back. */
  lemma TreesRead(B: Bits, p: nat, h: TreeHeader)
    requires Proper(h) && At(B, p, HeaderWord(h))
    ensures DynamicTrees(B, p) == GotTrees(h.lit, h.dst, p + |HeaderWord(h)|)
  {
    hide ToBits, Inflate.ReadBits, Usable, Unrolled, OrderWord, LengthCodesWord, DynamicTrees, At, Symbol, SoFar, ORDER,
      Tinflate.TreesFrom, Pow2, HeaderWord, RunLengths, CodeLengthLengths;
    CountsRead(B, p, h);
    RestNotSent(h);
    OrderRead(B, p + 14, h.cl, Repeat(0, 19), 0, h.n);
    ExactlyNeeded([], h.codes, |h.lit| + |h.dst|);
    CodesRead(B, p + 14 + 3 * h.n, h.cl, [], h.codes, |h.lit| + |h.dst|);
    Tinflate.TreesAre(B, p + 14, |h.lit|, |h.dst|, h.n);
  }
}
