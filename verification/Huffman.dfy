/** Canonical Huffman codes (RFC 1951, section 3.2.2) and their tables (`TINF_TREE`). */
module Huffman {
  import opened Bits

  /** Code lengths of an alphabet of at most 288 symbols; 0 marks an unused symbol. */
  predicate Lengths(L: seq<nat>) {
    |L| <= 288 && forall i | 0 <= i < |L| :: L[i] <= 15
  }

  /** How many of the first `n` symbols have length `k`. */
  function CountTo(L: seq<nat>, k: nat, n: nat): (c: nat)
    requires n <= |L|
    ensures c <= n
  {
    if n == 0 then 0 else CountTo(L, k, n - 1) + if L[n - 1] == k then 1 else 0
  }

  function Count(L: seq<nat>, k: nat): nat {
    if k == 0 then 0 else CountTo(L, k, |L|)
  }

  /** The first code of length `k`: bl_count and next_code of the RFC. */
  function First(L: seq<nat>, k: nat): nat {
    if k == 0 then 0 else 2 * (First(L, k - 1) + Count(L, k - 1))
  }

  /** How many used symbols have a code shorter than `k`. */
  function Offset(L: seq<nat>, k: nat): nat {
    if k == 0 then 0 else Offset(L, k - 1) + Count(L, k - 1)
  }

  function Rank(L: seq<nat>, s: nat): nat
    requires s < |L|
  {
    CountTo(L, L[s], s)
  }

  /** The code word of symbol `s`, as a number of L[s] bits. */
  function Codeword(L: seq<nat>, s: nat): nat
    requires s < |L|
  {
    First(L, L[s]) + Rank(L, s)
  }

  function CodeBits(L: seq<nat>, s: nat): Bits
    requires s < |L|
  {
    MsbBits(Codeword(L, s), L[s])
  }

  /** The share of the 2^15 words of fifteen bits that the first `n` codes take up. */
  function KraftTo(L: seq<nat>, n: nat): nat
    requires n <= |L| && Lengths(L)
  {
    if n == 0 then 0 else KraftTo(L, n - 1) + if L[n - 1] == 0 then 0 else Pow2(15 - L[n - 1])
  }

  function KraftSum(L: seq<nat>): nat
    requires Lengths(L)
  {
    KraftTo(L, |L|)
  }

  /** The symbol of length `k` and rank `r` among the first `n`. */
  function Nth(L: seq<nat>, k: nat, r: nat, n: nat): (s: nat)
    requires n <= |L| && r < CountTo(L, k, n)
    ensures s < n && L[s] == k && CountTo(L, k, s) == r
  {
    if L[n - 1] == k && CountTo(L, k, n - 1) == r then n - 1 else Nth(L, k, r, n - 1)
  }

  datatype Read = Got(val: int, pos: nat) | Starved

  const TINF_DATA_ERROR := -3

  /** Reads a symbol bit by bit, having read a word `v` of `k` bits that is no code:
      stops at the first length at which the word falls below the end of that
      length's codes, or gives up after sixteen bits. */
  function DecodeFrom(L: seq<nat>, B: Bits, p: nat, k: nat, v: nat): Read
    requires k <= 15 && 2 * v >= First(L, k + 1)
    decreases 15 - k
  {
    if p >= |B| then Starved
    else
      var v' := 2 * v + Bit(B[p]);
      if k == 15 then Got(TINF_DATA_ERROR, p + 1)
      else if v' < First(L, k + 1) + Count(L, k + 1) then
        Got(Nth(L, k + 1, v' - First(L, k + 1), |L|), p + 1)
      else DecodeFrom(L, B, p + 1, k + 1, v')
  }

  function Decode(L: seq<nat>, B: Bits, p: nat): Read {
    DecodeFrom(L, B, p, 0, 0)
  }

  lemma {:induction false} RankBelowCount(L: seq<nat>, s: nat, n: nat)
    requires s < n <= |L|
    ensures Rank(L, s) < CountTo(L, L[s], n)
  {
    if s < n - 1 { RankBelowCount(L, s, n - 1); }
  }

  lemma {:induction false} NthOfRank(L: seq<nat>, s: nat, n: nat)
    requires s < n <= |L|
    ensures Rank(L, s) < CountTo(L, L[s], n) && Nth(L, L[s], Rank(L, s), n) == s
  {
    RankBelowCount(L, s, n);
    if s < n - 1 {
      RankBelowCount(L, s, n - 1);
      NthOfRank(L, s, n - 1);
    }
  }

  /** The end of the codes of length `k`, with codes counted up to symbol `n`. */
  function EndTo(L: seq<nat>, n: nat, k: nat): nat
    requires n <= |L|
  {
    if k == 0 then 0 else 2 * EndTo(L, n, k - 1) + CountTo(L, k, n)
  }

  lemma {:induction false} EndOfCodes(L: seq<nat>, k: nat)
    ensures First(L, k) + Count(L, k) == EndTo(L, |L|, k)
    ensures First(L, k + 1) == 2 * EndTo(L, |L|, k)
  {
    if k == 0 {
    } else {
      EndOfCodes(L, k - 1);
    }
  }

  lemma {:induction false} EndGrows(L: seq<nat>, n: nat, k: nat)
    requires n < |L|
    ensures EndTo(L, n + 1, k) == EndTo(L, n, k) + if 1 <= L[n] <= k then Pow2(k - L[n]) else 0
  {
    if k == 0 {
    } else {
      EndGrows(L, n, k - 1);
    }
  }

  lemma {:induction false} EndIsKraft(L: seq<nat>, n: nat)
    requires n <= |L| && Lengths(L)
    ensures EndTo(L, n, 15) == KraftTo(L, n)
  {
    if n == 0 {
      EndOfNone(L, 15);
    } else {
      EndIsKraft(L, n - 1);
      EndGrows(L, n - 1, 15);
    }
  }

  lemma {:induction false} EndOfNone(L: seq<nat>, k: nat)
    ensures EndTo(L, 0, k) == 0
  {
    if k == 0 {
    } else {
      EndOfNone(L, k - 1);
    }
  }

  /** A code that meets the Kraft inequality fits every length. */
  lemma {:induction false} CodesFit(L: seq<nat>, k: nat, m: nat)
    requires k <= m && EndTo(L, |L|, m) <= Pow2(m)
    ensures EndTo(L, |L|, k) <= Pow2(k)
    decreases m - k
  {
    if k < m { CodesFit(L, k, m - 1); }
  }

  /** Words at or past the codes of one length stay past those of every shorter length. */
  lemma {:induction false} PastShorterCodes(L: seq<nat>, c: nat, n: nat, j: nat)
    requires j < n && c >= First(L, n)
    ensures Shr(c, n - j) >= EndTo(L, |L|, j)
    decreases n
  {
    EndOfCodes(L, n - 1);
    if j < n - 1 {
      PastShorterCodes(L, c / 2, n - 1, j);
    } else {
      assert Shr(c, 1) == Shr(c / 2, 0);
    }
  }

  lemma {:induction false} ShrStep(v: nat, m: nat)
    ensures Shr(v, m + 1) == Shr(v, m) / 2
  {
    if m == 0 {
    } else {
      ShrStep(v / 2, m - 1);
    }
  }

  lemma {:induction false} ShrAll(v: nat, n: nat)
    requires v < Pow2(n)
    ensures Shr(v, n) == 0
  {
    if n == 0 {
    } else {
      ShrAll(v / 2, n - 1);
    }
  }

  lemma CodewordFits(L: seq<nat>, s: nat)
    requires Lengths(L) && KraftSum(L) <= Pow2(15) && s < |L| && L[s] > 0
    ensures Codeword(L, s) < First(L, L[s]) + Count(L, L[s]) <= Pow2(L[s])
  {
    hide Pow2, First, Count, CountTo, EndTo;
    EndIsKraft(L, |L|);
    CodesFit(L, L[s], 15);
    EndOfCodes(L, L[s]);
    RankBelowCount(L, s, |L|);
    CountOf(L, L[s]);
  }

  lemma CountOf(L: seq<nat>, k: nat)
    ensures k > 0 ==> Count(L, k) == CountTo(L, k, |L|)
  {}

  /** One more bit. */
  lemma DecodeStep(L: seq<nat>, B: Bits, p: nat, k: nat, v: nat)
    requires k < 15 && 2 * v >= First(L, k + 1) && p < |B|
    ensures var v', end := 2 * v + Bit(B[p]), EndTo(L, |L|, k + 1);
      && end == First(L, k + 1) + Count(L, k + 1)
      && (v' >= end ==> 2 * v' >= First(L, k + 2) && DecodeFrom(L, B, p, k, v) == DecodeFrom(L, B, p + 1, k + 1, v'))
      && (v' < end ==>
            && v' - First(L, k + 1) < CountTo(L, k + 1, |L|)
            && DecodeFrom(L, B, p, k, v) == Got(Nth(L, k + 1, v' - First(L, k + 1), |L|), p + 1))
  {
    hide First, CountTo, EndTo, Nth;
    EndOfCodes(L, k + 1);
  }

  /** From a prefix of the code word of `s`, reading on ends at `s`. */
  lemma {:induction false} DecodeWalk(L: seq<nat>, B: Bits, p: nat, s: nat, k: nat)
    requires Lengths(L) && s < |L| && k < L[s] && At(B, p, CodeBits(L, s))
    requires 2 * Shr(Codeword(L, s), L[s] - k) >= First(L, k + 1)
    ensures DecodeFrom(L, B, p + k, k, Shr(Codeword(L, s), L[s] - k)) == Got(s, p + L[s])
    decreases L[s] - k
  {
    hide First, Count, CountTo, EndTo, Nth, Shr, DecodeFrom, At, MsbBits;
    var c, n := Codeword(L, s), L[s];
    var m := n - k - 1;
    var v' := Shr(c, m);
    ShrStep(c, m);
    AtBit(B, p, CodeBits(L, s), k);
    MsbBitsAt(c, n, k);
    assert v' == 2 * Shr(c, m + 1) + Bit(B[p + k]);
    DecodeStep(L, B, p + k, k, Shr(c, n - k));
    if k + 1 < n {
      PastShorterCodes(L, c, n, k + 1);
      DecodeWalk(L, B, p, s, k + 1);
    } else {
      ShrZero(c);
      NthOfRank(L, s, |L|);
      CountOf(L, n);
    }
  }

  lemma ShrZero(v: nat) ensures Shr(v, 0) == v {}

  /** The code word of a symbol decodes to that symbol and uses up just its length. */
  lemma CodewordDecodes(L: seq<nat>, B: Bits, p: nat, s: nat)
    requires Lengths(L) && KraftSum(L) <= Pow2(15) && s < |L| && L[s] > 0
    requires At(B, p, CodeBits(L, s))
    ensures Decode(L, B, p) == Got(s, p + L[s])
  {
    hide First, Count, CountTo, Nth, DecodeFrom;
    CodewordFits(L, s);
    ShrAll(Codeword(L, s), L[s]);
    FirstOfOne(L);
    DecodeWalk(L, B, p, s, 0);
  }

  lemma FirstOfOne(L: seq<nat>)
    ensures First(L, 1) == 0
  {}

  lemma NextWord(B: Bits, p: nat, v: nat, k: nat)
    requires At(B, p, MsbBits(v, k)) && p + k < |B|
    ensures At(B, p, MsbBits(2 * v + Bit(B[p + k]), k + 1))
  {
    var v' := 2 * v + Bit(B[p + k]);
    assert B[p..p + k + 1] == B[p..p + k] + [B[p + k]];
    assert v' / 2 == v && (v' % 2 == 1) == B[p + k];
  }

  /** Conversely, whatever decodes to a symbol is that symbol's code word. */
  lemma {:induction false} DecodedFrom(L: seq<nat>, B: Bits, p: nat, k: nat, v: nat)
    requires k <= 15 && 2 * v >= First(L, k + 1) && p >= k && At(B, p - k, MsbBits(v, k))
    ensures var r := DecodeFrom(L, B, p, k, v);
      r.Got? && r.val >= 0 ==>
        && r.val < |L| && 0 < L[r.val] <= 15 && r.pos == p - k + L[r.val]
        && At(B, p - k, CodeBits(L, r.val))
    decreases 15 - k
  {
    hide First, Count, CountTo, Nth, At, MsbBits;
    if p < |B| && k < 15 {
      var v' := 2 * v + Bit(B[p]);
      NextWord(B, p - k, v, k);
      EndOfCodes(L, k + 1);
      CountOf(L, k + 1);
      if v' >= First(L, k + 1) + Count(L, k + 1) {
        DecodedFrom(L, B, p + 1, k + 1, v');
      }
    }
  }

  /** Decoding yields a symbol exactly when its code word is next in the stream. */
  lemma DecodesIffCodeword(L: seq<nat>, B: Bits, p: nat, s: nat)
    requires Lengths(L) && KraftSum(L) <= Pow2(15) && s < |L|
    ensures Decode(L, B, p) == Got(s, p + L[s]) <==> L[s] > 0 && At(B, p, CodeBits(L, s))
  {
    hide First, Count, CountTo, Nth, DecodeFrom, KraftTo, Pow2;
    FirstOfOne(L);
    if L[s] > 0 && At(B, p, CodeBits(L, s)) {
      CodewordDecodes(L, B, p, s);
    }
    if p <= |B| {
      DecodedFrom(L, B, p, 0, 0);
    } else {
      PastTheEnd(L, B, p);
    }
  }

  lemma PastTheEnd(L: seq<nat>, B: Bits, p: nat)
    requires p >= |B|
    ensures Decode(L, B, p) == Starved
  {}

  /** The code word of some symbol is next in the stream. */
  ghost predicate CodewordNext(L: seq<nat>, B: Bits, p: nat) {
    exists s | 0 <= s < |L| :: L[s] > 0 && At(B, p, CodeBits(L, s))
  }

  /** Of two numbers with the same low bits, the one that has no others is the smaller. */
  lemma {:induction false} LowBitsLeast(c: nat, v: nat, n: nat)
    requires v < Pow2(n) && MsbBits(c, n) == MsbBits(v, n)
    ensures v <= c
  {
    if n == 0 {
    } else {
      var a, b := MsbBits(c / 2, n - 1), MsbBits(v / 2, n - 1);
      assert a == MsbBits(c, n)[..n - 1] && b == MsbBits(v, n)[..n - 1];
      assert MsbBits(c, n)[n - 1] == (c % 2 == 1) && MsbBits(v, n)[n - 1] == (v % 2 == 1);
      LowBitsLeast(c / 2, v / 2, n - 1);
    }
  }

  /** Reading on over the code word of `s`, some symbol is found at its end at the latest. */
  lemma {:induction false} DecodeCatches(L: seq<nat>, B: Bits, p: nat, s: nat, k: nat, v: nat)
    requires Lengths(L) && s < |L| && k < L[s] && At(B, p, CodeBits(L, s))
    requires v < Pow2(k) && At(B, p, MsbBits(v, k)) && 2 * v >= First(L, k + 1)
    ensures var r := DecodeFrom(L, B, p + k, k, v); r.Got? && r.val >= 0
    decreases L[s] - k
  {
    hide First, Count, CountTo, EndTo, Nth, DecodeFrom, MsbBits;
    var c, n, v' := Codeword(L, s), L[s], 2 * v + Bit(B[p + k]);
    DecodeStep(L, B, p + k, k, v);
    NextBit(B, p, v, k);
    if v' >= EndTo(L, |L|, k + 1) {
      if k + 1 < n {
        DecodeCatches(L, B, p, s, k + 1, v');
      } else {
        LowBitsLeast(c, v', n);
        RankBelowCount(L, s, |L|);
        CountOf(L, n);
      }
    }
  }

  lemma NextBit(B: Bits, p: nat, v: nat, k: nat)
    requires At(B, p, MsbBits(v, k)) && p + k < |B| && v < Pow2(k)
    ensures var v' := 2 * v + Bit(B[p + k]); v' < Pow2(k + 1) && At(B, p, MsbBits(v', k + 1))
  {
    hide MsbBits, At;
    NextWord(B, p, v, k);
  }

  /** Whatever the lengths, a symbol is decoded if and only if a code word is next. */
  lemma DecodesIff(L: seq<nat>, B: Bits, p: nat)
    requires Lengths(L)
    ensures var r := Decode(L, B, p); r.Got? && r.val >= 0 <==> CodewordNext(L, B, p)
  {
    hide First, Count, CountTo, Nth, DecodeFrom, Pow2, MsbBits;
    FirstOfOne(L);
    if p > |B| {
      PastTheEnd(L, B, p);
    } else {
      NoBitsYet(B, p);
      DecodedFrom(L, B, p, 0, 0);
      if CodewordNext(L, B, p) {
        var s :| 0 <= s < |L| && L[s] > 0 && At(B, p, CodeBits(L, s));
        DecodeCatches(L, B, p, s, 0, 0);
      }
    }
  }

  lemma NoBitsYet(B: Bits, p: nat)
    requires p <= |B|
    ensures At(B, p, MsbBits(0, 0)) && 0 < Pow2(0)
  {}

  lemma {:induction false} DecodeFailsFrom(L: seq<nat>, B: Bits, p: nat, c: nat, k: nat)
    requires Lengths(L) && k <= 15 && p + 16 <= |B| && At(B, p, MsbBits(c, 15))
    requires 2 * Shr(c, 15 - k) >= First(L, k + 1)
    ensures var r := DecodeFrom(L, B, p + k, k, Shr(c, 15 - k));
      r.Got? && (r.val < 0 <==> c >= KraftSum(L))
    decreases 15 - k
  {
    hide First, Count, CountTo, EndTo, Nth, Shr, KraftTo, MsbBits, DecodeFrom, At, Pow2;
    EndIsKraft(L, |L|);
    EndOfCodes(L, k);
    if k == 15 {
      ShrZero(c);
      GivesUp(L, B, p + k, Shr(c, 0));
    } else {
      var v' := Shr(c, 14 - k);
      ShrStep(c, 14 - k);
      AtBit(B, p, MsbBits(c, 15), k);
      MsbBitsAt(c, 15, k);
      assert v' == 2 * Shr(c, 15 - k) + Bit(B[p + k]);
      DecodeStep(L, B, p + k, k, Shr(c, 15 - k));
      if v' >= EndTo(L, |L|, k + 1) {
        DecodeFailsFrom(L, B, p, c, k + 1);
      } else if c >= KraftSum(L) {
        EndOfCodes(L, 15);
        PastShorterCodes(L, 2 * c, 16, k + 1);
        ShrDouble(c, 14 - k);
      }
    }
  }

  lemma GivesUp(L: seq<nat>, B: Bits, p: nat, v: nat)
    requires 2 * v >= First(L, 16) && p < |B|
    ensures DecodeFrom(L, B, p, 15, v) == Got(TINF_DATA_ERROR, p + 1)
  {}

  lemma ShrDouble(c: nat, m: nat)
    ensures Shr(2 * c, m + 1) == Shr(c, m)
  {}

  /** With sixteen bits at hand, decoding gives up exactly when the next fifteen, read as
      a number, lie past all the code words; so a complete code never fails. */
  lemma DecodeFailsIff(L: seq<nat>, B: Bits, p: nat, c: nat)
    requires Lengths(L) && p + 16 <= |B| && c < Pow2(15) && At(B, p, MsbBits(c, 15))
    ensures Decode(L, B, p).Got?
    ensures Decode(L, B, p).val < 0 <==> c >= KraftSum(L)
    ensures KraftSum(L) >= Pow2(15) ==> Decode(L, B, p).val >= 0
  {
    hide First, Count, CountTo, EndTo, Nth, KraftTo, MsbBits, DecodeFrom, Shr;
    FirstOfOne(L);
    ShrAll(c, 15);
    DecodeFailsFrom(L, B, p, c, 0);
  }

  /** The same for the words themselves. */
  lemma WordIsCode(L: seq<nat>, B: Bits, p: nat, c: nat)
    requires Lengths(L) && c < Pow2(15) && At(B, p, MsbBits(c, 15))
    ensures CodewordNext(L, B, p) <==> c < KraftSum(L)
  {
    hide Pow2, MsbBits, KraftSum, Codeword, DecodeFrom;
    var C := B + [false];
    forall w: Bits | |w| <= 15 ensures At(B, p, w) <==> At(C, p, w) { SameBefore(B, C, p, w); }
    DecodeFailsIff(L, C, p, c);
    DecodesIff(L, C, p);
    SameCode(L, B, C, p);
  }

  lemma SameBefore(B: Bits, C: Bits, p: nat, w: Bits)
    requires B <= C && p + |w| <= |B|
    ensures At(B, p, w) <==> At(C, p, w)
  {
    assert C[p..p + |w|] == B[p..p + |w|];
  }

  lemma SameCode(L: seq<nat>, B: Bits, C: Bits, p: nat)
    requires Lengths(L) && forall w: Bits | |w| <= 15 :: At(B, p, w) <==> At(C, p, w)
    ensures CodewordNext(L, B, p) <==> CodewordNext(L, C, p)
  {
    hide At, Codeword, MsbBits;
    assert forall s | 0 <= s < |L| :: |CodeBits(L, s)| <= 15;
  }

  /** Offset with symbols counted up to `n`. */
  function OffsetTo(L: seq<nat>, n: nat, k: nat): nat
    requires n <= |L|
  {
    if k <= 1 then 0 else OffsetTo(L, n, k - 1) + CountTo(L, k - 1, n)
  }

  lemma {:induction false} OffsetIs(L: seq<nat>, k: nat)
    ensures Offset(L, k) == OffsetTo(L, |L|, k)
  {
    if k > 1 { OffsetIs(L, k - 1); }
  }

  lemma {:induction false} OffsetGrows(L: seq<nat>, n: nat, k: nat)
    requires n < |L|
    ensures OffsetTo(L, n + 1, k) == OffsetTo(L, n, k) + if 1 <= L[n] < k then 1 else 0
  {
    if k > 1 { OffsetGrows(L, n, k - 1); }
  }

  lemma {:induction false} OffsetBound(L: seq<nat>, n: nat, k: nat)
    requires n <= |L|
    ensures OffsetTo(L, n, k) <= n
  {
    if n == 0 {
      OffsetOfNone(L, k);
    } else {
      OffsetBound(L, n - 1, k);
      OffsetGrows(L, n - 1, k);
    }
  }

  lemma {:induction false} OffsetOfNone(L: seq<nat>, k: nat)
    ensures OffsetTo(L, 0, k) == 0
  {
    if k > 1 { OffsetOfNone(L, k - 1); }
  }

  /** The slots of one length end before those of the next begin, and all fit. */
  lemma {:induction false} OffsetsAscend(L: seq<nat>, j: nat, k: nat)
    requires j < k
    ensures Offset(L, j) + Count(L, j) <= Offset(L, k) <= |L|
    decreases k
  {
    if j < k - 1 { OffsetsAscend(L, j, k - 1); }
    OffsetIs(L, k);
    OffsetBound(L, |L|, k);
  }

  /** Where the counting sort puts symbol `s`. */
  function Slot(L: seq<nat>, s: nat): nat
    requires s < |L|
  {
    Offset(L, L[s]) + Rank(L, s)
  }

  lemma SlotBound(L: seq<nat>, s: nat)
    requires s < |L| && L[s] > 0
    ensures Offset(L, L[s]) <= Slot(L, s) < Offset(L, L[s]) + Count(L, L[s]) <= |L|
  {
    hide Offset, CountTo;
    RankBelowCount(L, s, |L|);
    OffsetsAscend(L, L[s], L[s] + 1);
  }

  /** Slots order the used symbols by length, then by symbol; so no two share a slot. */
  lemma SlotOrder(L: seq<nat>, s: nat, t: nat)
    requires s < |L| && t < |L| && L[s] > 0 && L[t] > 0
    ensures Slot(L, s) < Slot(L, t) <==> L[s] < L[t] || (L[s] == L[t] && s < t)
  {
    hide Offset, CountTo, Count;
    SlotBound(L, s);
    SlotBound(L, t);
    if L[s] < L[t] {
      OffsetsAscend(L, L[s], L[t]);
    } else if L[t] < L[s] {
      OffsetsAscend(L, L[t], L[s]);
    } else if s < t {
      RankBelowCount(L, s, t);
    } else if t < s {
      RankBelowCount(L, t, s);
    }
  }

  /** Not every word of `k` bits starts with a code word shorter than that. */
  predicate HasRoom(L: seq<nat>, k: nat) {
    First(L, k) < Pow2(k)
  }

  class TinfTree {
    const table: array<nat>
    const trans: array<nat>

    constructor ()
      ensures table.Length == 16 && trans.Length == 288 && fresh(table) && fresh(trans) && table != trans
    {
      table := new nat[16];
      trans := new nat[288];
    }

    ghost predicate Valid() {
      table.Length == 16 && trans.Length == 288 && table != trans
    }

    /** The tables serve the code with lengths `L`. Counts of lengths that shorter codes
        leave no room for do not matter: tinf_build_fixed_trees does not set them. */
    ghost predicate Codes(L: seq<nat>)
      reads table, trans
    {
      && Valid() && Lengths(L)
      && (forall k | 1 <= k < 16 && HasRoom(L, k) :: table[k] == Count(L, k))
      && Sorted(L, |L|)
    }

    ghost predicate Sorted(L: seq<nat>, n: nat)
      requires Lengths(L) && n <= |L| && trans.Length == 288
      reads trans
    {
      forall s: nat | s < n && L[s] > 0 :: Slot(L, s) < |L| && trans[Slot(L, s)] == s
    }

    method CountLengths(lengths: array<nat>, start: nat, num: nat)
      requires Valid() && start + num <= lengths.Length && lengths != table
      requires Lengths(lengths[start..start + num])
      modifies table
      ensures forall k | 0 <= k < 16 :: table[k] == Count(lengths[start..start + num], k)
    {
      hide Count;
      ghost var L := lengths[start..start + num];
      for i := 0 to 16
        invariant forall k | 0 <= k < i :: table[k] == 0
      {
        table[i] := 0;
      }
      for i := 0 to num
        invariant lengths[start..start + num] == L
        invariant forall k | 0 <= k < 16 :: table[k] == CountTo(L, k, i)
      {
        assert lengths[start + i] == L[i];
        table[lengths[start + i]] := table[lengths[start + i]] + 1;
      }
      table[0] := 0;
      forall k | 0 <= k < 16
        ensures table[k] == Count(L, k)
      {
        CountIs(L, k);
      }
    }

    /** The offset table for the distribution sort. */
    method Offsets(ghost L: seq<nat>) returns (offs: array<nat>)
      requires Valid() && forall k | 0 <= k < 16 :: table[k] == Count(L, k)
      ensures fresh(offs) && offs.Length == 16 && forall k | 0 <= k < 16 :: offs[k] == Offset(L, k)
    {
      hide Count;
      offs := new nat[16];
      var sum := 0;
      for i := 0 to 16
        invariant sum == Offset(L, i)
        invariant forall k | 0 <= k < i :: offs[k] == Offset(L, k)
      {
        offs[i] := sum;
        sum := sum + table[i];
      }
    }

    /** Puts every used symbol of `lengths[start..start + num]` into its slot. */
    method SortSymbols(lengths: array<nat>, start: nat, num: nat, offs: array<nat>)
      requires Valid() && start + num <= lengths.Length && offs.Length == 16
      requires lengths != trans && offs != trans && offs != lengths
      requires Lengths(lengths[start..start + num])
      requires forall k | 0 <= k < 16 :: offs[k] == Offset(lengths[start..start + num], k)
      modifies trans, offs
      ensures Sorted(lengths[start..start + num], num)
    {
      hide Offset, CountTo;
      ghost var L := lengths[start..start + num];
      NoneCounted(L);
      for i := 0 to num
        invariant lengths[start..start + num] == L
        invariant forall k | 1 <= k < 16 :: offs[k] == Offset(L, k) + CountTo(L, k, i)
        invariant Sorted(L, i)
      {
        var l := lengths[start + i];
        assert l == L[i];
        NextCounted(L, i);
        if l != 0 {
          SlotBound(L, i);
          SlotsDiffer(L, i);
          trans[offs[l]] := i;
          offs[l] := offs[l] + 1;
        }
      }
    }

    method BuildTree(lengths: array<nat>, start: nat, num: nat)
      requires Valid() && start + num <= lengths.Length && lengths != table && lengths != trans
      requires Lengths(lengths[start..start + num])
      modifies table, trans
      ensures Codes(lengths[start..start + num])
    {
      hide Count, Offset, CountTo, Slot, HasRoom;
      CountLengths(lengths, start, num);
      var offs := Offsets(lengths[start..start + num]);
      SortSymbols(lengths, start, num, offs);
    }
  }

  lemma CountIs(L: seq<nat>, k: nat)
    ensures Count(L, k) == if k == 0 then 0 else CountTo(L, k, |L|)
  {}

  lemma NoneCounted(L: seq<nat>)
    ensures forall k: nat :: CountTo(L, k, 0) == 0
  {}

  lemma NextCounted(L: seq<nat>, i: nat)
    requires i < |L|
    ensures forall k: nat :: CountTo(L, k, i + 1) == CountTo(L, k, i) + if L[i] == k then 1 else 0
  {}

  /** No earlier symbol has the slot of symbol `i`. */
  lemma SlotsDiffer(L: seq<nat>, i: nat)
    requires i < |L| && L[i] > 0
    ensures forall s: nat | s < i && L[s] > 0 :: Slot(L, s) != Slot(L, i)
  {
    hide Slot;
    forall s: nat | s < i && L[s] > 0
      ensures Slot(L, s) != Slot(L, i)
    {
      SlotOrder(L, s, i);
      SlotOrder(L, i, s);
    }
  }
}
