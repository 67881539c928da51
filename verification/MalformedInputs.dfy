/** Sources for which the inflater goes wrong: a literal that has no code word, which is put
    out as a byte, and a distance that has none, which is looked up outside its table. */
module MalformedInputs {
  import opened Bits
  import DeflStatic
  import FixedTrees
  import opened Huffman
  import opened Inflate
  import Malformed
  import RoundTrip
  import StaticCode
  import opened Tables
  import Tinflate

  /** A final block with dynamic trees whose literal code is empty, then zeros. */
  const NO_LITERAL: seq<byte> := [0x05, 0x00, 0x80, 0xC0, 0x5F, 0x1B, 0x00, 0x00]

  /** A final block with dynamic trees, in which the only symbol is a length and the only
      distance has a code of eight zeros; then that length, and sixteen ones. */
  const NO_DISTANCE: seq<byte> := [0x0D, 0x20, 0x80, 0x20, 0xFF, 0xD9, 0x00, 0xFC, 0xFF, 0x03]

  /** A final block with the fixed trees that ends within a match: its length and two bits. */
  const CUT_MATCH: seq<byte> := [0xA3, 0x02]

  lemma {:induction false} ShlIs(v: nat, n: nat)
    ensures Shl(v, n) == Pow2(n) * v
  {
    if n == 0 {
    } else {
      ShlIs(v, n - 1);
    }
  }

  /** Two neighbouring bytes as one number. */
  lemma TwoBytesStand(s: seq<byte>, i: nat, x: nat)
    requires i + 2 <= |s| && x == Tinflate.LittleEndian16(s[i], s[i + 1])
    ensures At(BytesBits(s), 8 * i, ToBits(x, 16))
  {
    hide ToBits, BytesBits, FromBits, Shl, Pow2, At, Tinflate.LittleEndian16;
    BytesBitsAt(s, i);
    BytesBitsAt(s, i + 1);
    Tinflate.LittleEndianIs(s[i], s[i + 1]);
    ToBitsAdd(s[i], s[i + 1], 8, 8);
    AtConcat(BytesBits(s), 8 * i, ToBits(s[i], 8), ToBits(s[i + 1], 8));
  }

  /** Two neighbouring bytes hold `v` in the `n` bits that follow the first `j`. */
  ghost predicate Holds(s: seq<byte>, i: nat, j: nat, n: nat, v: nat) {
    i + 2 <= |s| && j + n <= 16 && v < Pow2(n) && Pow2(j) > 0
    && exists low: nat, high: nat :: low < Pow2(j) && Split(s, i, low, Pow2(j), v, Pow2(n), high)
  }

  predicate Split(s: seq<byte>, i: nat, low: nat, p: nat, v: nat, q: nat, high: nat)
    requires i + 2 <= |s|
  {
    Tinflate.LittleEndian16(s[i], s[i + 1]) == low + p * (v + q * high)
  }

  /** Such a field is read as `v`. */
  lemma FieldRead(s: seq<byte>, i: nat, j: nat, n: nat, v: nat)
    requires Holds(s, i, j, n, v)
    ensures At(BytesBits(s), 8 * i + j, ToBits(v, n)) && ReadBits(BytesBits(s), 8 * i + j, n) == Got(v, 8 * i + j + n)
  {
    hide ToBits, BytesBits, FromBits, Shl, Pow2, At, ReadBits, Tinflate.LittleEndian16;
    var low: nat, high: nat :| low < Pow2(j) && Split(s, i, low, Pow2(j), v, Pow2(n), high);
    TwoBytesStand(s, i, Tinflate.LittleEndian16(s[i], s[i + 1]));
    hide *;
    UpperPart(BytesBits(s), 8 * i, low, j, v + Pow2(n) * high, 16 - j);
    LowerPart(BytesBits(s), 8 * i + j, v, n, high, 16 - j - n);
    BitsRead(BytesBits(s), 8 * i + j, v, n);
  }

  lemma UpperPart(B: Bits, p: nat, low: nat, j: nat, y: nat, n: nat)
    requires low < Pow2(j) && At(B, p, ToBits(low + Pow2(j) * y, j + n))
    ensures At(B, p + j, ToBits(y, n))
  {
    hide *;
    ShlIs(y, j);
    ToBitsAdd(low, y, j, n);
    AtConcat(B, p, ToBits(low, j), ToBits(y, n));
  }

  lemma LowerPart(B: Bits, p: nat, v: nat, n: nat, high: nat, m: nat)
    requires v < Pow2(n) && At(B, p, ToBits(v + Pow2(n) * high, n + m))
    ensures At(B, p, ToBits(v, n))
  {
    hide *;
    ShlIs(high, n);
    ToBitsAdd(v, high, n, m);
    AtConcat(B, p, ToBits(v, n), ToBits(high, m));
  }

  /** Symbols of other lengths do not count. */
  lemma {:induction false} CountSkips(L: seq<nat>, k: nat, m: nat, n: nat)
    requires m <= n <= |L| && forall i | m <= i < n :: L[i] != k
    ensures CountTo(L, k, n) == CountTo(L, k, m)
    decreases n
  {
    if m < n { CountSkips(L, k, m, n - 1); }
  }

  lemma {:induction false} KraftSkips(L: seq<nat>, m: nat, n: nat)
    requires m <= n <= |L| && Lengths(L) && forall i | m <= i < n :: L[i] == 0
    ensures KraftTo(L, n) == KraftTo(L, m)
    decreases n
  {
    if m < n { KraftSkips(L, m, n - 1); }
  }

  /** The shortest codes start with zeros. */
  lemma {:induction false} FirstOfShortest(L: seq<nat>, k: nat)
    requires forall i | 0 <= i < |L| :: L[i] == 0 || L[i] >= k
    ensures First(L, k) == 0
  {
    if k == 0 {
    } else {
      FirstOfShortest(L, k - 1);
      if k > 1 { CountSkips(L, k - 1, 0, |L|); }
    }
  }

  /** A code with one symbol. */
  lemma OnlyCode(L: seq<nat>, s: nat)
    requires Lengths(L) && s < |L| && L[s] > 0 && forall i | 0 <= i < |L| && i != s :: L[i] == 0
    ensures Codeword(L, s) == 0 && KraftSum(L) == Pow2(15 - L[s]) <= Pow2(15)
  {
    hide Pow2, First;
    FirstOfShortest(L, L[s]);
    CountSkips(L, L[s], 0, s);
    KraftSkips(L, 0, s);
    KraftSkips(L, s + 1, |L|);
    Tinflate.Pow2Order(15 - L[s], 15);
  }

  /** A code with two symbols of one bit. */
  lemma TwoCodes(L: seq<nat>, s: nat, t: nat)
    requires Lengths(L) && s < t < |L| && L[s] == L[t] == 1 && forall i | 0 <= i < |L| && i != s && i != t :: L[i] == 0
    ensures Codeword(L, s) == 0 && Codeword(L, t) == 1 && KraftSum(L) == Pow2(15)
  {
    hide First, KraftSum, Pow2;
    FirstOfShortest(L, 1);
    CountSkips(L, 1, 0, s);
    CountSkips(L, 1, s + 1, t);
    TwoKraft(L, s, t);
  }

  lemma TwoKraft(L: seq<nat>, s: nat, t: nat)
    requires Lengths(L) && s < t < |L| && L[s] == L[t] == 1 && forall i | 0 <= i < |L| && i != s && i != t :: L[i] == 0
    ensures KraftSum(L) == Pow2(15)
  {
    hide Pow2;
    KraftSkips(L, 0, s);
    KraftSkips(L, s + 1, t);
    KraftSkips(L, t + 1, |L|);
    Malformed.Doubles(14);
  }

  /** A symbol whose code word is the bits `w` is decoded from them. */
  lemma Decodes(L: seq<nat>, B: Bits, p: nat, s: nat, c: nat)
    requires Lengths(L) && KraftSum(L) <= Pow2(15) && s < |L| && L[s] > 0 && Codeword(L, s) == c
    requires At(B, p, MsbBits(c, L[s]))
    ensures Decode(L, B, p) == Got(s, p + L[s])
  {
    hide Pow2, MsbBits, KraftSum, DecodeFrom, Codeword, At;
    CodewordDecodes(L, B, p, s);
  }

  lemma OneBit(v: nat)
    requires v < 2
    ensures MsbBits(v, 1) == ToBits(v, 1)
  {
    assert MsbBits(0, 0) == [] && ToBits(0, 0) == [];
  }

  /** Symbol 18 and its extra bits add `x` + 11 zeros. */
  lemma ZerosRun(B: Bits, p: nat, cl: seq<nat>, lens: seq<nat>, limit: nat, x: nat)
    requires |cl| == 19 && Decode(cl, B, p) == Got(18, p + 1) && ReadBits(B, p + 1, 7) == Got(x, p + 8)
    requires |lens| < limit && |lens| + x + 11 <= limit
    ensures RunLengths(B, p, cl, lens, limit) == RunLengths(B, p + 8, cl, lens + Repeat(0, x + 11), limit)
  {
    hide Decode, ReadBits;
  }

  lemma Pairs()
    ensures var s := NO_LITERAL;
      && |s| == 8 && Tinflate.LittleEndian16(s[0], s[1]) == 0x0005 && Tinflate.LittleEndian16(s[1], s[2]) == 0x8000
      && Tinflate.LittleEndian16(s[2], s[3]) == 0xC080 && Tinflate.LittleEndian16(s[3], s[4]) == 0x5FC0
      && Tinflate.LittleEndian16(s[4], s[5]) == 0x1B5F && Tinflate.LittleEndian16(s[5], s[6]) == 0x001B
      && Tinflate.LittleEndian16(s[6], s[7]) == 0x0000
  {}

  /** The counts and the lengths of the code length code. */
  lemma Counts()
    ensures var B := BytesBits(NO_LITERAL);
      && |B| == 64 && B[0] && ReadBits(B, 1, 2) == Got(2, 3) && ReadBits(B, 3, 5) == Got(0, 8)
      && ReadBits(B, 8, 5) == Got(0, 13) && ReadBits(B, 13, 4) == Got(0, 17)
      && ReadBits(B, 17, 3) == Got(0, 20) && ReadBits(B, 20, 3) == Got(0, 23)
      && ReadBits(B, 23, 3) == Got(1, 26) && ReadBits(B, 26, 3) == Got(0, 29)
  {
    hide ReadBits, BytesBits, At, ToBits, Tinflate.LittleEndian16, NO_LITERAL, Pow2;
    SmallPowers();
    Pairs();
    assert Split(NO_LITERAL, 0, 0, 1, 1, 2, 2);
    FieldRead(NO_LITERAL, 0, 0, 1, 1);
    FirstBit(BytesBits(NO_LITERAL));
    assert Split(NO_LITERAL, 0, 1, 2, 2, 4, 0);
    FieldRead(NO_LITERAL, 0, 1, 2, 2);
    assert Split(NO_LITERAL, 0, 5, 8, 0, 32, 0);
    FieldRead(NO_LITERAL, 0, 3, 5, 0);
    assert Split(NO_LITERAL, 1, 0, 1, 0, 32, 1024);
    FieldRead(NO_LITERAL, 1, 0, 5, 0);
    assert Split(NO_LITERAL, 1, 0, 32, 0, 16, 64);
    FieldRead(NO_LITERAL, 1, 5, 4, 0);
    assert Split(NO_LITERAL, 2, 0, 2, 0, 8, 0xC08);
    FieldRead(NO_LITERAL, 2, 1, 3, 0);
    assert Split(NO_LITERAL, 2, 0, 16, 0, 8, 0x181);
    FieldRead(NO_LITERAL, 2, 4, 3, 0);
    assert Split(NO_LITERAL, 2, 0, 128, 1, 8, 0x30);
    FieldRead(NO_LITERAL, 2, 7, 3, 1);
    assert Split(NO_LITERAL, 3, 0, 4, 0, 8, 0x2FE);
    FieldRead(NO_LITERAL, 3, 2, 3, 0);
  }

  lemma FirstBit(B: Bits)
    requires ReadBits(B, 0, 1) == Got(1, 1)
    ensures |B| > 0 && B[0]
  {
    assert FromBits(B[0..1]) == Bit(B[0]) + 2 * FromBits(B[0..1][1..]);
  }

  /** Two runs of zeros, and then the bits where a literal should be. */
  lemma Rest()
    ensures var B := BytesBits(NO_LITERAL);
      && At(B, 29, ToBits(0, 1)) && ReadBits(B, 30, 7) == Got(127, 37)
      && At(B, 37, ToBits(0, 1)) && ReadBits(B, 38, 7) == Got(109, 45)
      && At(B, 45, ToBits(0, 11)) && At(B, 56, ToBits(0, 4))
  {
    hide ReadBits, BytesBits, At, ToBits, Tinflate.LittleEndian16, NO_LITERAL, Pow2;
    SmallPowers();
    Pairs();
    assert Split(NO_LITERAL, 3, 0, 32, 0, 2, 0x17F);
    FieldRead(NO_LITERAL, 3, 5, 1, 0);
    assert Split(NO_LITERAL, 3, 0, 64, 127, 128, 2);
    FieldRead(NO_LITERAL, 3, 6, 7, 127);
    assert Split(NO_LITERAL, 4, 0x1F, 32, 0, 2, 0x6D);
    FieldRead(NO_LITERAL, 4, 5, 1, 0);
    assert Split(NO_LITERAL, 4, 0x1F, 64, 109, 128, 0);
    FieldRead(NO_LITERAL, 4, 6, 7, 109);
    assert Split(NO_LITERAL, 5, 0x1B, 32, 0, 2048, 0);
    FieldRead(NO_LITERAL, 5, 5, 11, 0);
    assert Split(NO_LITERAL, 6, 0, 256, 0, 16, 0);
    FieldRead(NO_LITERAL, 6, 8, 4, 0);
  }

  /** The code length code of the first source: symbol 18 alone. */
  function OneCode(): (cl: seq<nat>)
    ensures |cl| == 19 && cl[18] == 1 && forall i | 0 <= i < 18 :: cl[i] == 0
  {
    Repeat(0, 19)[18 := 1]
  }

  lemma OneCodeRead()
    ensures CodeLengthLengths(BytesBits(NO_LITERAL), 17, 0, 4, Repeat(0, 19)) == GotLengths(OneCode(), 29)
  {
    hide ReadBits, BytesBits, CodeLengthLengths, NO_LITERAL;
    var B, l := BytesBits(NO_LITERAL), Repeat(0, 19);
    Counts();
    Tinflate.CodeLengthsStep(B, 17, 0, 4, l);
    Tinflate.CodeLengthsStep(B, 20, 1, 4, l);
    Tinflate.CodeLengthsStep(B, 23, 2, 4, l);
    Tinflate.CodeLengthsStep(B, 26, 3, 4, OneCode());
    Tinflate.CodeLengthsStep(B, 29, 4, 4, OneCode());
    assert l[16 := 0] == l && l[17 := 0] == l && OneCode()[0 := 0] == OneCode();
  }

  /** All lengths are zero. */
  lemma ZerosRead()
    ensures RunLengths(BytesBits(NO_LITERAL), 29, OneCode(), [], 258) == GotLengths(Repeat(0, 258), 45)
  {
    hide ReadBits, BytesBits, RunLengths, NO_LITERAL, Codeword, KraftSum, Decode, ToBits, MsbBits, Pow2, At;
    var B, cl := BytesBits(NO_LITERAL), OneCode();
    Rest();
    OneBit(0);
    OnlyCode(cl, 18);
    Decodes(cl, B, 29, 18, 0);
    Decodes(cl, B, 37, 18, 0);
    ZerosRun(B, 29, cl, [], 258, 127);
    assert [] + Repeat(0, 138) == Repeat(0, 138);
    ZerosRun(B, 37, cl, Repeat(0, 138), 258, 109);
    assert Repeat(0, 138) + Repeat(0, 120) == Repeat(0, 258);
    Tinflate.RunLengthsStep(B, 45, cl, Repeat(0, 258), 258);
  }

  lemma TreesOfZeros()
    ensures DynamicTrees(BytesBits(NO_LITERAL), 3) == GotTrees(Repeat(0, 257), Repeat(0, 1), 45)
  {
    hide ReadBits, BytesBits, RunLengths, CodeLengthLengths, DynamicTrees, NO_LITERAL, Tinflate.TreesFrom, OneCode;
    Counts();
    Tinflate.ThreeReads(BytesBits(NO_LITERAL), 3);
    OneCodeRead();
    ZerosRead();
    Tinflate.TreesAre(BytesBits(NO_LITERAL), 17, 257, 1, 4);
    assert Repeat(0, 258)[..257] == Repeat(0, 257) && Repeat(0, 258)[257..] == Repeat(0, 1);
  }

  /** A block with dynamic trees opens. */
  lemma Opens(B: Bits, s: State, w: Window, lit: seq<nat>, dst: seq<nat>, p: nat)
    requires WellFormed(s, w) && s.btype == -1 && s.pos + 3 <= |B|
    requires B[s.pos] && ReadBits(B, s.pos + 1, 2) == Got(2, s.pos + 3)
    requires DynamicTrees(B, s.pos + 3) == GotTrees(lit, dst, p) && p <= |B|
    ensures var t := State(p, 2, true, 0, s.dist, lit, dst, s.hist);
      WellFormed(t, w) && Micro(B, s, w) == Silent(t) && NextByte(B, s, w) == NextByte(B, t, w)
  {
    hide DynamicTrees, Micro, Lengths, NextByte;
    OpensAs(B, s, w, lit, dst, p);
    Tinflate.NextStep(B, s, w);
  }

  lemma OpensAs(B: Bits, s: State, w: Window, lit: seq<nat>, dst: seq<nat>, p: nat)
    requires WellFormed(s, w) && s.btype == -1 && s.pos + 3 <= |B|
    requires B[s.pos] && ReadBits(B, s.pos + 1, 2) == Got(2, s.pos + 3)
    requires DynamicTrees(B, s.pos + 3) == GotTrees(lit, dst, p)
    ensures Micro(B, s, w) == Silent(State(p, 2, true, 0, s.dist, lit, dst, s.hist))
  {
    hide DynamicTrees, FromBits, FixedTrees.FixedLit, FixedTrees.FixedDist, Lengths;
  }

  lemma AllZeroCode(n: nat)
    requires n <= 288
    ensures Lengths(Repeat(0, n)) && KraftSum(Repeat(0, n)) == 0
  {
    KraftSkips(Repeat(0, n), 0, n);
  }

  /** Fifteen zeros from bit 45 on. */
  lemma ZeroBits()
    ensures At(BytesBits(NO_LITERAL), 45, MsbBits(0, 15))
  {
    hide ToBits, MsbBits, BytesBits, At, NO_LITERAL, Pow2, ReadBits;
    Rest();
    DeflStatic.Zeros(15);
    DeflStatic.Zeros(11);
    DeflStatic.Zeros(4);
    assert seq(15, i => false) == seq(11, i => false) + seq(4, i => false);
    AtConcat(BytesBits(NO_LITERAL), 45, ToBits(0, 11), ToBits(0, 4));
  }

  /** The first source puts out byte 253, which no symbol stands for. */
  lemma SpuriousByte(w: Window, prefill: seq<byte>)
    requires w.Ring? ==> w.size <= |prefill|
    ensures WellFormed(Initial(0, prefill), w) && KraftSum(Repeat(0, 257)) == 0
    ensures var r := Run(BytesBits(NO_LITERAL), Initial(0, prefill), w, 1); r.0 == Ok && r.1.hist == prefill + [253]
  {
    hide ReadBits, BytesBits, NO_LITERAL, HuffmanStep, Decode, DynamicTrees, MsbBits, At, KraftSum, Pow2, NextByte;
    var B, s := BytesBits(NO_LITERAL), Initial(0, prefill);
    var t := State(45, 2, true, 0, 0, Repeat(0, 257), Repeat(0, 1), prefill);
    Counts();
    TreesOfZeros();
    Opens(B, s, w, Repeat(0, 257), Repeat(0, 1), 45);
    AllZeroCode(257);
    ZeroBits();
    SmallPowers();
    WordIsCode(t.lit, B, 45, 0);
    Malformed.UndecodableWrites(B, t, w);
    Tinflate.NextStep(B, t, w);
    Tinflate.RunStep(B, s, w, 1);
  }

  lemma LostPairs()
    ensures var s := NO_DISTANCE;
      && |s| == 10 && Tinflate.LittleEndian16(s[0], s[1]) == 0x200D && Tinflate.LittleEndian16(s[1], s[2]) == 0x8020
      && Tinflate.LittleEndian16(s[2], s[3]) == 0x2080 && Tinflate.LittleEndian16(s[3], s[4]) == 0xFF20
      && Tinflate.LittleEndian16(s[4], s[5]) == 0xD9FF && Tinflate.LittleEndian16(s[5], s[6]) == 0x00D9
      && Tinflate.LittleEndian16(s[6], s[7]) == 0xFC00 && Tinflate.LittleEndian16(s[7], s[8]) == 0xFFFC
      && Tinflate.LittleEndian16(s[8], s[9]) == 0x03FF
  {}

  lemma LostCounts()
    ensures var B := BytesBits(NO_DISTANCE);
      && |B| == 80 && B[0] && ReadBits(B, 1, 2) == Got(2, 3) && ReadBits(B, 3, 5) == Got(1, 8)
      && ReadBits(B, 8, 5) == Got(0, 13) && ReadBits(B, 13, 4) == Got(1, 17)
      && ReadBits(B, 17, 3) == Got(0, 20) && ReadBits(B, 20, 3) == Got(0, 23)
      && ReadBits(B, 23, 3) == Got(1, 26) && ReadBits(B, 26, 3) == Got(0, 29) && ReadBits(B, 29, 3) == Got(1, 32)
  {
    hide ReadBits, BytesBits, At, ToBits, Tinflate.LittleEndian16, NO_DISTANCE, Pow2;
    SmallPowers();
    LostPairs();
    assert Split(NO_DISTANCE, 0, 0, 1, 1, 2, 0x1006);
    FieldRead(NO_DISTANCE, 0, 0, 1, 1);
    FirstBit(BytesBits(NO_DISTANCE));
    assert Split(NO_DISTANCE, 0, 1, 2, 2, 4, 0x401);
    FieldRead(NO_DISTANCE, 0, 1, 2, 2);
    assert Split(NO_DISTANCE, 0, 5, 8, 1, 32, 0x20);
    FieldRead(NO_DISTANCE, 0, 3, 5, 1);
    assert Split(NO_DISTANCE, 1, 0, 1, 0, 32, 0x401);
    FieldRead(NO_DISTANCE, 1, 0, 5, 0);
    assert Split(NO_DISTANCE, 1, 0, 32, 1, 16, 0x40);
    FieldRead(NO_DISTANCE, 1, 5, 4, 1);
    assert Split(NO_DISTANCE, 2, 0, 2, 0, 8, 0x208);
    FieldRead(NO_DISTANCE, 2, 1, 3, 0);
    assert Split(NO_DISTANCE, 2, 0, 16, 0, 8, 0x41);
    FieldRead(NO_DISTANCE, 2, 4, 3, 0);
    assert Split(NO_DISTANCE, 2, 0, 128, 1, 8, 8);
    FieldRead(NO_DISTANCE, 2, 7, 3, 1);
    assert Split(NO_DISTANCE, 3, 0, 4, 0, 8, 0x7F9);
    FieldRead(NO_DISTANCE, 3, 2, 3, 0);
    assert Split(NO_DISTANCE, 3, 0, 32, 1, 8, 0xFF);
    FieldRead(NO_DISTANCE, 3, 5, 3, 1);
  }

  /** Two runs of zeros, two lengths of 8, the code of the length symbol, and ones. */
  lemma LostRest()
    ensures var B := BytesBits(NO_DISTANCE);
      && At(B, 32, ToBits(1, 1)) && ReadBits(B, 33, 7) == Got(127, 40)
      && At(B, 40, ToBits(1, 1)) && ReadBits(B, 41, 7) == Got(108, 48)
      && At(B, 48, ToBits(0, 1)) && At(B, 49, ToBits(0, 1)) && At(B, 50, ToBits(0, 8))
      && At(B, 58, ToBits(0x3F, 6)) && At(B, 64, ToBits(0x3FF, 10))
  {
    hide ReadBits, BytesBits, At, ToBits, Tinflate.LittleEndian16, NO_DISTANCE, Pow2;
    SmallPowers();
    LostPairs();
    assert Split(NO_DISTANCE, 4, 0, 1, 1, 2, 0x6CFF);
    FieldRead(NO_DISTANCE, 4, 0, 1, 1);
    assert Split(NO_DISTANCE, 4, 1, 2, 127, 128, 0xD9);
    FieldRead(NO_DISTANCE, 4, 1, 7, 127);
    assert Split(NO_DISTANCE, 5, 0, 1, 1, 2, 0x6C);
    FieldRead(NO_DISTANCE, 5, 0, 1, 1);
    assert Split(NO_DISTANCE, 5, 1, 2, 108, 128, 0);
    FieldRead(NO_DISTANCE, 5, 1, 7, 108);
    assert Split(NO_DISTANCE, 6, 0, 1, 0, 2, 0x7E00);
    FieldRead(NO_DISTANCE, 6, 0, 1, 0);
    assert Split(NO_DISTANCE, 6, 0, 2, 0, 2, 0x3F00);
    FieldRead(NO_DISTANCE, 6, 1, 1, 0);
    assert Split(NO_DISTANCE, 6, 0, 4, 0, 256, 0x3F);
    FieldRead(NO_DISTANCE, 6, 2, 8, 0);
    assert Split(NO_DISTANCE, 7, 0, 4, 0x3F, 64, 0xFF);
    FieldRead(NO_DISTANCE, 7, 2, 6, 0x3F);
    assert Split(NO_DISTANCE, 8, 0, 1, 0x3FF, 1024, 0);
    FieldRead(NO_DISTANCE, 8, 0, 10, 0x3FF);
  }

  /** The code length code of the second source: 0 for symbol 8 and 1 for symbol 18. */
  function TwoCode(): (cl: seq<nat>)
    ensures |cl| == 19 && cl[8] == cl[18] == 1 && forall i | 0 <= i < 19 && i != 8 && i != 18 :: cl[i] == 0
  {
    OneCode()[8 := 1]
  }

  lemma TwoCodeRead()
    ensures CodeLengthLengths(BytesBits(NO_DISTANCE), 17, 0, 5, Repeat(0, 19)) == GotLengths(TwoCode(), 32)
  {
    hide ReadBits, BytesBits, CodeLengthLengths, NO_DISTANCE;
    var B, l := BytesBits(NO_DISTANCE), Repeat(0, 19);
    LostCounts();
    Tinflate.CodeLengthsStep(B, 17, 0, 5, l);
    Tinflate.CodeLengthsStep(B, 20, 1, 5, l);
    Tinflate.CodeLengthsStep(B, 23, 2, 5, l);
    Tinflate.CodeLengthsStep(B, 26, 3, 5, OneCode());
    Tinflate.CodeLengthsStep(B, 29, 4, 5, OneCode());
    Tinflate.CodeLengthsStep(B, 32, 5, 5, TwoCode());
    assert l[16 := 0] == l && l[17 := 0] == l && OneCode()[0 := 0] == OneCode();
  }

  /** 257 zeros and twice 8. */
  function LostLengths(): (l: seq<nat>)
    ensures |l| == 259 && l[257] == l[258] == 8 && forall i | 0 <= i < 257 :: l[i] == 0
  {
    Repeat(0, 257) + [8, 8]
  }

  lemma LostLengthsRead()
    ensures RunLengths(BytesBits(NO_DISTANCE), 32, TwoCode(), [], 259) == GotLengths(LostLengths(), 50)
  {
    hide ReadBits, BytesBits, RunLengths, NO_DISTANCE, Codeword, KraftSum, Decode, ToBits, MsbBits, Pow2, At, TwoCode;
    var B, cl := BytesBits(NO_DISTANCE), TwoCode();
    LostRest();
    OneBit(0);
    OneBit(1);
    TwoCodes(cl, 8, 18);
    Decodes(cl, B, 32, 18, 1);
    Decodes(cl, B, 40, 18, 1);
    Decodes(cl, B, 48, 8, 0);
    Decodes(cl, B, 49, 8, 0);
    ZerosRun(B, 32, cl, [], 259, 127);
    assert [] + Repeat(0, 138) == Repeat(0, 138);
    ZerosRun(B, 40, cl, Repeat(0, 138), 259, 108);
    assert Repeat(0, 138) + Repeat(0, 119) == Repeat(0, 257);
    Tinflate.RunLengthsStep(B, 48, cl, Repeat(0, 257), 259);
    Tinflate.RunLengthsStep(B, 49, cl, Repeat(0, 257) + [8], 259);
    assert Repeat(0, 257) + [8] + [8] == LostLengths();
    Tinflate.RunLengthsStep(B, 50, cl, LostLengths(), 259);
  }

  lemma LostTrees()
    ensures DynamicTrees(BytesBits(NO_DISTANCE), 3) == GotTrees(LostLengths()[..258], [8], 50)
  {
    hide ReadBits, BytesBits, RunLengths, CodeLengthLengths, DynamicTrees, NO_DISTANCE, Tinflate.TreesFrom, TwoCode,
      LostLengths;
    LostCounts();
    Tinflate.ThreeReads(BytesBits(NO_DISTANCE), 3);
    TwoCodeRead();
    LostLengthsRead();
    Tinflate.TreesAre(BytesBits(NO_DISTANCE), 17, 258, 1, 5);
    assert LostLengths()[258..] == [8];
  }

  /** Fifteen ones from bit 58 on. */
  lemma OneBits()
    ensures At(BytesBits(NO_DISTANCE), 58, MsbBits(0x7FFF, 15)) && Pow2(15) == 0x8000
  {
    hide MsbBits, BytesBits, At, NO_DISTANCE, Pow2, ReadBits;
    LostRest();
    Ones();
    AtConcat(BytesBits(NO_DISTANCE), 58, ToBits(0x3F, 6), ToBits(0x3FF, 10));
    AtConcat(BytesBits(NO_DISTANCE), 58, MsbBits(0x7FFF, 15), [true]);
  }

  lemma Ones()
    ensures ToBits(0x3F, 6) + ToBits(0x3FF, 10) == MsbBits(0x7FFF, 15) + [true] && Pow2(15) == 0x8000
  {
    AllOnes(6);
    AllOnes(10);
    AllOnes(15);
    SmallPowers();
    assert Pow2(15) == 0x8000;
  }

  lemma {:induction false} AllOnes(n: nat)
    ensures MsbBits(Pow2(n) - 1, n) == ToBits(Pow2(n) - 1, n) == seq(n, i => true)
  {
    if n == 0 {
    } else {
      AllOnes(n - 1);
      assert (Pow2(n) - 1) / 2 == Pow2(n - 1) - 1;
      assert seq(n - 1, i => true) + [true] == seq(n, i => true);
      assert [true] + seq(n - 1, i => true) == seq(n, i => true);
    }
  }

  /** The second source makes the inflater look up a distance outside its tables. */
  lemma LostDistance(w: Window, prefill: seq<byte>)
    requires w.Ring? ==> w.size <= |prefill|
    ensures WellFormed(Initial(0, prefill), w)
    ensures Run(BytesBits(NO_DISTANCE), Initial(0, prefill), w, 1).0 == Undefined
  {
    hide ReadBits, BytesBits, NO_DISTANCE, MatchStep, Decode, DynamicTrees, MsbBits, At, KraftSum, Pow2, NextByte;
    var B, s := BytesBits(NO_DISTANCE), Initial(0, prefill);
    var lit := LostLengths()[..258];
    var t := State(50, 2, true, 0, 0, lit, [8], prefill);
    LostCounts();
    LostTrees();
    Opens(B, s, w, lit, [8], 50);
    LostSymbol(lit);
    OnlyCode([8], 0);
    OneBits();
    SmallPowers();
    WordIsCode(t.dst, B, 58, 0x7FFF);
    Malformed.UndecodableDistance(B, t, w, 58, 3);
    Tinflate.NextStep(B, t, w);
    Tinflate.RunStep(B, s, w, 1);
  }

  lemma LostSymbol(lit: seq<nat>)
    requires lit == LostLengths()[..258]
    ensures Lengths(lit) && Decode(lit, BytesBits(NO_DISTANCE), 50) == Got(257, 58)
    ensures ReadBits(BytesBits(NO_DISTANCE), 58, 0) == Got(0, 58)
  {
    hide BytesBits, NO_DISTANCE, Decode, MsbBits, At, KraftSum, Pow2, Codeword, ToBits;
    LostRest();
    LostCounts();
    OnlyCode(lit, 257);
    DeflStatic.Zeros(8);
    Decodes(lit, BytesBits(NO_DISTANCE), 50, 257, 0);
    Tinflate.NoBitsRead(BytesBits(NO_DISTANCE), 58);
  }

  lemma CutPair()
    ensures |CUT_MATCH| == 2 && Tinflate.LittleEndian16(CUT_MATCH[0], CUT_MATCH[1]) == 0x02A3
  {}

  lemma CutFields()
    ensures var B := BytesBits(CUT_MATCH);
      |B| == 16 && At(B, 0, ToBits(3, 3)) && At(B, 3, ToBits(84, 7)) && ReadBits(B, 10, 4) == Got(0, 14)
  {
    hide ReadBits, BytesBits, At, ToBits, Tinflate.LittleEndian16, Pow2;
    SmallPowers();
    CutPair();
    assert Split(CUT_MATCH, 0, 0, 1, 3, 8, 84);
    FieldRead(CUT_MATCH, 0, 0, 3, 3);
    assert Split(CUT_MATCH, 0, 3, 8, 84, 128, 0);
    FieldRead(CUT_MATCH, 0, 3, 7, 84);
    assert Split(CUT_MATCH, 0, 0x2A3, 1024, 0, 16, 0);
    FieldRead(CUT_MATCH, 0, 10, 4, 0);
  }

  lemma CutWords()
    ensures ToBits(3, 3) == DeflStatic.BlockHeader(true, 1) && ToBits(84, 7) == StaticCode.SymbolBits(277)
  {
    hide ToBits, MsbBits;
    LowBit(3, 3);
    LowWord();
    HighWord();
  }

  lemma LowWord()
    ensures ToBits(84, 7) == [false, false, true, false, true, false, true]
  {
    hide ToBits;
    LowBit(84, 7);
    LowBit(42, 6);
    LowBit(21, 5);
    LowBit(10, 4);
    LowBit(5, 3);
    LowBit(2, 2);
    LowBit(1, 1);
  }

  lemma HighWord()
    ensures MsbBits(21, 7) == [false, false, true, false, true, false, true]
  {
    hide MsbBits;
    HighBits(21, 7);
    HighBits(10, 6);
    HighBits(5, 5);
    HighBits(2, 4);
    HighBits(1, 3);
    HighBits(0, 2);
    HighBits(0, 1);
  }

  /** A source that just ends within a distance code does so as well. */
  lemma LostInCut(w: Window, prefill: seq<byte>)
    requires w.Ring? ==> w.size <= |prefill|
    ensures WellFormed(Initial(0, prefill), w)
    ensures Run(BytesBits(CUT_MATCH), Initial(0, prefill), w, 1).0 == Undefined
  {
    hide ReadBits, BytesBits, Decode, At, KraftSum, Pow2, NextByte, FixedTrees.FixedLit, FixedTrees.FixedDist,
      SymbolStep, Malformed.StrayMatch, ToBits, StaticCode.SymbolBits, Micro, DeflStatic.BlockHeader;
    var B, s := BytesBits(CUT_MATCH), Initial(0, prefill);
    var t := s.(pos := 3, btype := 1, bfinal := true, lit := FixedTrees.FixedLit(), dst := FixedTrees.FixedDist());
    CutFields();
    CutWords();
    FixedTrees.FixedLengths();
    RoundTrip.HeaderRuns(B, s, w, true, 1);
    RoundTrip.SymbolRuns(B, t, w, 277);
    RoundTrip.SymbolSize(277);
    LengthRow(20);
    NoDistance(B, t, w);
    Malformed.SymbolAstray(B, t, w, 277, 10);
    Tinflate.NextStep(B, s, w);
    Tinflate.NextStep(B, t, w);
    Tinflate.RunStep(B, s, w, 1);
  }

  lemma NoDistance(B: Bits, t: State, w: Window)
    requires WellFormed(t, w) && |B| == 16 && t.dst == FixedTrees.FixedDist() && ReadBits(B, 10, 4) == Got(0, 14)
    ensures Malformed.StraySymbol(B, t, w, 277, 10)
  {
    hide ReadBits, MatchStep, FixedTrees.FixedDist, Malformed.StrayMatch, LENGTH_BITS, Lengths;
    LengthRow(20);
    LengthBitsAre();
    Malformed.FixedDistanceDecodes(B, t, w, 14, 3);
    Malformed.UndecodableDistance(B, t, w, 14, 3);
  }

  lemma LengthBitsAre()
    ensures LENGTH_BITS[20] == 4
  {}
}
