/** The fixed trees (RFC 1951, section 3.2.6): the canonical code of the fixed lengths is
    the code the encoder writes, and tinf_build_fixed_trees fills in its tables. */
module FixedTrees {
  import opened Bits
  import opened StaticCode
  import opened Huffman

  function FixedLit(): (L: seq<nat>)
    ensures |L| == 288 && forall i | 0 <= i < 288 :: L[i] == FixedLength(i)
  {
    seq(288, i requires i >= 0 => FixedLength(i))
  }

  function FixedDist(): (L: seq<nat>)
    ensures |L| == 32 && forall i | 0 <= i < 32 :: L[i] == 5
  {
    seq(32, i => 5)
  }

  function Clamp(x: int, top: nat): nat {
    if x < 0 then 0 else if x > top then top else x
  }

  lemma {:induction false} FixedCountTo(k: nat, n: nat)
    requires n <= 288
    ensures CountTo(FixedLit(), k, n) ==
      if k == 7 then Clamp(n - 256, 24)
      else if k == 8 then Clamp(n, 144) + Clamp(n - 280, 8)
      else if k == 9 then Clamp(n - 144, 112)
      else 0
  {
    if n == 0 {
    } else {
      FixedCountTo(k, n - 1);
    }
  }

  lemma {:induction false} FixedDistCountTo(k: nat, n: nat)
    requires n <= 32
    ensures CountTo(FixedDist(), k, n) == if k == 5 then n else 0
  {
    if n == 0 {
    } else {
      FixedDistCountTo(k, n - 1);
    }
  }

  lemma FixedCount(k: nat)
    ensures Count(FixedLit(), k) == if k == 7 then 24 else if k == 8 then 152 else if k == 9 then 112 else 0
    ensures Count(FixedDist(), k) == if k == 5 then 32 else 0
  {
    FixedCountTo(k, 288);
    FixedDistCountTo(k, 32);
  }

  lemma {:induction false} FixedStarts(k: nat)
    requires k <= 16
    ensures Offset(FixedLit(), k) == if k <= 7 then 0 else if k == 8 then 24 else if k == 9 then 176 else 288
    ensures Offset(FixedDist(), k) == if k <= 5 then 0 else 32
    ensures k <= 9 ==> First(FixedLit(), k) == if k <= 7 then 0 else if k == 8 then 0x30 else 0x190
    ensures k <= 5 ==> First(FixedDist(), k) == 0
  {
    hide Count;
    if k == 0 {
    } else {
      FixedStarts(k - 1);
      FixedCount(k - 1);
    }
  }

  /** The encoder's literal/length code words are the canonical ones. */
  lemma FixedLitCode(s: nat)
    requires s < 288
    ensures CodeBits(FixedLit(), s) == SymbolBits(s) && FixedLit()[s] == FixedLength(s)
  {
    hide CountTo, First;
    FixedCountTo(FixedLength(s), s);
    FixedStarts(FixedLength(s));
  }

  lemma FixedDistCode(s: nat)
    requires s < 32
    ensures CodeBits(FixedDist(), s) == MsbBits(s, 5) && FixedDist()[s] == 5
  {
    hide CountTo, First;
    FixedDistCountTo(5, s);
    FixedStarts(5);
  }

  lemma FixedLengths()
    ensures Lengths(FixedLit()) && Lengths(FixedDist())
  {
    hide FixedLit, FixedDist;
  }

  /** Both fixed codes use up all code words, neither too few nor too many. */
  lemma FixedKraft()
    ensures Lengths(FixedLit()) && KraftSum(FixedLit()) == Pow2(15)
    ensures Lengths(FixedDist()) && KraftSum(FixedDist()) == Pow2(15)
  {
    hide CountTo, Pow2, EndTo, KraftTo, FixedLit, FixedDist, Lengths;
    FixedLengths();
    EndIsKraft(FixedLit(), 288);
    EndIsKraft(FixedDist(), 32);
    FixedEnd(15);
  }

  lemma {:induction false} FixedEnd(k: nat)
    requires k <= 15
    ensures k >= 9 ==> EndTo(FixedLit(), 288, k) == Pow2(k)
    ensures k < 7 ==> EndTo(FixedLit(), 288, k) == 0
    ensures k == 7 ==> EndTo(FixedLit(), 288, k) == 24
    ensures k == 8 ==> EndTo(FixedLit(), 288, k) == 200
    ensures EndTo(FixedDist(), 32, k) == if k < 5 then 0 else Pow2(k)
  {
    hide CountTo;
    FixedCountTo(k, 288);
    FixedDistCountTo(k, 32);
    assert Pow2(9) == 512 && Pow2(5) == 32;
    if k == 0 {
    } else {
      FixedEnd(k - 1);
    }
  }

  lemma FixedFull(k: nat)
    requires k < 16
    ensures HasRoom(FixedLit(), k) ==> k <= 9
    ensures HasRoom(FixedDist(), k) ==> k <= 5
  {
    hide EndTo;
    if k > 0 {
      EndOfCodes(FixedLit(), k - 1);
      EndOfCodes(FixedDist(), k - 1);
      FixedEnd(k - 1);
    }
  }

  /** Where tinf_build_fixed_trees puts symbol `s` of the literal/length tree. */
  function FixedPlace(s: nat): nat {
    if s < 144 then 24 + s else if s < 256 then 32 + s else if s < 280 then s - 256 else s - 112
  }

  lemma FixedSlot(s: nat)
    requires s < 288
    ensures Slot(FixedLit(), s) == FixedPlace(s)
    ensures s < 32 ==> Slot(FixedDist(), s) == s
  {
    hide CountTo, Offset;
    FixedCountTo(FixedLength(s), s);
    FixedStarts(FixedLength(s));
    FixedStarts(5);
    if s < 32 { FixedDistCountTo(5, s); }
  }

  method BuildFixedTrees(lt: TinfTree, dt: TinfTree)
    requires lt.Valid() && dt.Valid()
    requires lt.table != dt.table && lt.table != dt.trans && lt.trans != dt.table && lt.trans != dt.trans
    modifies lt.table, lt.trans, dt.table, dt.trans
    ensures lt.Codes(FixedLit()) && dt.Codes(FixedDist())
  {
    FixedLitTree(lt);
    FixedDistTree(dt);
  }

  method FixedLitTree(lt: TinfTree)
    requires lt.Valid()
    modifies lt.table, lt.trans
    ensures lt.Codes(FixedLit())
  {
    hide Count, CountTo, Slot, FixedLit, HasRoom;
    for i := 0 to 7
      invariant forall k | 0 <= k < i :: lt.table[k] == 0
    {
      lt.table[i] := 0;
    }
    lt.table[7] := 24;
    lt.table[8] := 152;
    lt.table[9] := 112;
    FixedLitSymbols(lt.trans);
    FixedTables();
  }

  method FixedLitSymbols(trans: array<nat>)
    requires trans.Length == 288
    modifies trans
    ensures forall s: nat | s < 288 :: FixedPlace(s) < 288 && trans[FixedPlace(s)] == s
  {
    for i := 0 to 24
      invariant forall k | 0 <= k < i :: trans[k] == 256 + k
    {
      trans[i] := 256 + i;
    }
    for i := 0 to 144
      invariant forall k | 0 <= k < 24 :: trans[k] == 256 + k
      invariant forall k | 24 <= k < 24 + i :: trans[k] == k - 24
    {
      trans[24 + i] := i;
    }
    for i := 0 to 8
      invariant forall k | 0 <= k < 24 :: trans[k] == 256 + k
      invariant forall k | 24 <= k < 168 :: trans[k] == k - 24
      invariant forall k | 168 <= k < 168 + i :: trans[k] == 112 + k
    {
      trans[24 + 144 + i] := 280 + i;
    }
    for i := 0 to 112
      invariant forall k | 0 <= k < 24 :: trans[k] == 256 + k
      invariant forall k | 24 <= k < 168 :: trans[k] == k - 24
      invariant forall k | 168 <= k < 176 :: trans[k] == 112 + k
      invariant forall k | 176 <= k < 176 + i :: trans[k] == k - 32
    {
      trans[24 + 144 + 8 + i] := 144 + i;
    }
  }

  method FixedDistTree(dt: TinfTree)
    requires dt.Valid()
    modifies dt.table, dt.trans
    ensures dt.Codes(FixedDist())
  {
    hide Count, CountTo, Slot, FixedDist, HasRoom;
    for i := 0 to 5
      invariant forall k | 0 <= k < i :: dt.table[k] == 0
    {
      dt.table[i] := 0;
    }
    dt.table[5] := 32;
    for i := 0 to 32
      modifies dt.trans
      invariant forall k | 0 <= k < i :: dt.trans[k] == k
    {
      dt.trans[i] := i;
    }
    FixedTables();
  }

  lemma FixedTables()
    ensures Lengths(FixedLit()) && Lengths(FixedDist())
    ensures forall k: nat | k < 16 && HasRoom(FixedLit(), k) :: k <= 9
    ensures forall k: nat | k < 16 && HasRoom(FixedDist(), k) :: k <= 5
    ensures forall k: nat :: Count(FixedLit(), k) == if k == 7 then 24 else if k == 8 then 152
      else if k == 9 then 112 else 0
    ensures forall k: nat :: Count(FixedDist(), k) == if k == 5 then 32 else 0
    ensures forall s: nat | s < 288 :: Slot(FixedLit(), s) == FixedPlace(s)
    ensures forall s: nat | s < 32 :: Slot(FixedDist(), s) == s
  {
    hide Count, CountTo, Slot, FixedLit, FixedDist, HasRoom, Lengths;
    FixedLengths();
    forall k: nat | k < 16
      ensures HasRoom(FixedLit(), k) ==> k <= 9
      ensures HasRoom(FixedDist(), k) ==> k <= 5
    {
      FixedFull(k);
    }
    forall k: nat
      ensures Count(FixedLit(), k) == if k == 7 then 24 else if k == 8 then 152 else if k == 9 then 112 else 0
      ensures Count(FixedDist(), k) == if k == 5 then 32 else 0
    {
      FixedCount(k);
    }
    forall s: nat | s < 288
      ensures Slot(FixedLit(), s) == FixedPlace(s)
      ensures s < 32 ==> Slot(FixedDist(), s) == s
    {
      FixedSlot(s);
    }
  }
}
