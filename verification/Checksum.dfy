/** The two checksums: CRC-32 by a table of sixteen entries, and Adler-32 with its modulo
    put off for 5552 bytes. */
module Checksum {
  import opened Bits

  /** The reflected polynomial of RFC 1952, section 8. */
  const POLYNOMIAL: bv32 := 0xEDB88320

  function Odd(c: bv32): bool { c & 1 == 1 }
  function Half(c: bv32): bv32 { c >> 1 }
  function Low(x: bool): bv32 { if x then 1 else 0 }
  function Xor(a: bv32, b: bv32): bv32 { a ^ b }

  /** One bit of the message enters the register and one leaves it. */
  function CrcBit(c: bv32, x: bool): bv32 {
    var d := Xor(c, Low(x));
    if Odd(d) then Xor(Half(d), POLYNOMIAL) else Half(d)
  }

  /** The bits of a message, in the order they are sent. */
  function CrcBits(c: bv32, b: Bits): bv32 {
    if b == [] then c else CrcBit(CrcBits(c, b[..|b| - 1]), b[|b| - 1])
  }

  /** The register after a message, by the definition. */
  function Crc(c: bv32, data: seq<byte>): bv32 { CrcBits(c, BytesBits(data)) }

  /** The `n` low bits of `v` as a machine word. */
  function Word(v: nat, n: nat): bv32 {
    if n == 0 then 0 else ShiftIn(Word(v / 2, n - 1), v % 2 == 1)
  }

  /** tinf_crc32tab. */
  function Table(k: bv32): bv32 {
    if k == 0 then 0x00000000 else if k == 1 then 0x1db71064 else if k == 2 then 0x3b6e20c8
    else if k == 3 then 0x26d930ac else if k == 4 then 0x76dc4190 else if k == 5 then 0x6b6b51f4
    else if k == 6 then 0x4db26158 else if k == 7 then 0x5005713c else if k == 8 then 0xedb88320
    else if k == 9 then 0xf00f9344 else if k == 10 then 0xd6d6a3e8 else if k == 11 then 0xcb61b38c
    else if k == 12 then 0x9b64c2b0 else if k == 13 then 0x86d3d2d4 else if k == 14 then 0xa00ae278
    else 0xbdbdf21c
  }

  /** uzlib_crc32. */
  method UzlibCrc32(data: seq<byte>, prev: bv32) returns (crc: bv32)
    ensures crc == Crc(prev, data)
  {
    crc := prev;
    assert data[..0] == [];
    for i := 0 to |data|
      invariant crc == Crc(prev, data[..i])
    {
      assert data[..i + 1] == data[..i] + [data[i]];
      CrcByte(prev, data[..i], data[i]);
      hide *;
      crc := Nibble(Nibble(Xor(crc, Word(data[i], 8))));
    }
    assert data[..|data|] == data;
  }

  /** Four bits of the register are looked up in the table. */
  function Nibble(c: bv32): bv32 { Xor(Table(Lower(c)), Sixteenth(c)) }

  function Lower(c: bv32): bv32 { c & 0x0f }
  function Upper(c: bv32): bv32 { c & 0xffff_fff0 }
  function Sixteenth(c: bv32): bv32 { c >> 4 }

  /** A bit step where the message has a zero. */
  function ZeroBit(c: bv32): bv32 { if Odd(c) then Xor(Half(c), POLYNOMIAL) else Half(c) }

  lemma IsZeroBit(c: bv32)
    ensures CrcBit(c, false) == ZeroBit(c)
  {
    XorZero(c);
  }

  lemma HalfXor(a: bv32, b: bv32)
    ensures Half(Xor(a, b)) == Xor(Half(a), Half(b))
  {}

  lemma OddXor(a: bv32, b: bv32)
    ensures Odd(Xor(a, b)) == (Odd(a) != Odd(b))
  {}

  lemma XorRegroups(a: bv32, b: bv32, p: bv32)
    ensures Xor(a, Xor(b, p)) == Xor(Xor(a, b), p)
  {}

  lemma XorCancels(a: bv32, b: bv32, p: bv32)
    ensures Xor(Xor(a, p), Xor(b, p)) == Xor(a, b)
  {
    hide Xor;
    XorRegroups(Xor(a, p), b, p);
    XorSwaps(a, p, b);
    XorRegroups(Xor(a, b), p, p);
    XorSelf(p);
    XorZero(Xor(a, b));
  }

  lemma XorSwaps(a: bv32, b: bv32, p: bv32)
    ensures Xor(Xor(a, b), p) == Xor(Xor(a, p), b)
  {
    hide Xor;
    XorRegroups(a, b, p);
    XorCommutes(b, p);
    XorRegroups(a, p, b);
  }

  lemma XorCommutes(a: bv32, b: bv32)
    ensures Xor(a, b) == Xor(b, a)
  {}

  lemma XorSelf(p: bv32)
    ensures Xor(p, p) == 0
  {}

  /** A bit step is linear. */
  lemma ZeroBitXor(a: bv32, b: bv32)
    ensures ZeroBit(Xor(a, b)) == Xor(ZeroBit(a), ZeroBit(b))
  {
    hide Xor, Half, Odd, POLYNOMIAL;
    HalfXor(a, b);
    OddXor(a, b);
    XorRegroups(Half(a), Half(b), POLYNOMIAL);
    XorSwaps(Half(a), Half(b), POLYNOMIAL);
    XorCancels(Half(a), Half(b), POLYNOMIAL);
  }

  function FourZeroBits(c: bv32): bv32 { ZeroBit(ZeroBit(ZeroBit(ZeroBit(c)))) }

  lemma FourZeroBitsXor(a: bv32, b: bv32)
    ensures FourZeroBits(Xor(a, b)) == Xor(FourZeroBits(a), FourZeroBits(b))
  {
    hide Xor, ZeroBit;
    ZeroBitXor(a, b);
    ZeroBitXor(ZeroBit(a), ZeroBit(b));
    ZeroBitXor(ZeroBit(ZeroBit(a)), ZeroBit(ZeroBit(b)));
    ZeroBitXor(ZeroBit(ZeroBit(ZeroBit(a))), ZeroBit(ZeroBit(ZeroBit(b))));
  }

  lemma UpperHalves(c: bv32)
    ensures var h := Upper(c);
      && !Odd(h) && !Odd(Half(h)) && !Odd(Half(Half(h))) && !Odd(Half(Half(Half(h))))
      && Half(Half(Half(Half(h)))) == Sixteenth(c)
  {}

  /** Four zeros only move the upper bits down ... */
  lemma UpperMoves(c: bv32)
    ensures FourZeroBits(Upper(c)) == Sixteenth(c)
  {
    hide Xor, Half, Odd, POLYNOMIAL, Upper, Sixteenth;
    UpperHalves(c);
  }

  /** ... and the table has what they make of the lower ones. */
  lemma TableRow(k: bv32)
    requires k < 16
    ensures Table(k) == FourZeroBits(k)
  {}

  lemma Nibbles(c: bv32)
    ensures c == Xor(Lower(c), Upper(c)) && Lower(c) < 16
  {}

  /** A table step is four bit steps. */
  lemma FourBits(c: bv32)
    ensures Nibble(c) == FourZeroBits(c)
  {
    hide FourZeroBits, Table, Lower, Upper, Sixteenth, Xor;
    Nibbles(c);
    FourZeroBitsXor(Lower(c), Upper(c));
    UpperMoves(c);
    TableRow(Lower(c));
  }

  function ZeroBits(c: bv32, n: nat): bv32
    decreases n
  {
    if n == 0 then c else ZeroBits(CrcBit(c, false), n - 1)
  }

  lemma NibbleIsFourBits(c: bv32)
    ensures Nibble(c) == ZeroBits(c, 4)
  {
    hide Nibble, CrcBit, ZeroBit;
    assert FourZeroBits(c) == ZeroBit(ZeroBit(ZeroBit(ZeroBit(c))));
    var c1 := ZeroBit(c);
    var c2 := ZeroBit(c1);
    var c3 := ZeroBit(c2);
    FourBits(c);
    IsZeroBit(c);
    IsZeroBit(c1);
    IsZeroBit(c2);
    IsZeroBit(c3);
    assert ZeroBits(c3, 1) == ZeroBits(ZeroBit(c3), 0) && ZeroBits(c2, 2) == ZeroBits(c3, 1);
    assert ZeroBits(c1, 3) == ZeroBits(c2, 2) && ZeroBits(c, 4) == ZeroBits(c1, 3);
  }

  lemma {:induction false} ZeroBitsAdd(c: bv32, m: nat, n: nat)
    ensures ZeroBits(c, m + n) == ZeroBits(ZeroBits(c, m), n)
    decreases m
  {
    hide CrcBit;
    if m == 0 {
    } else {
      ZeroBitsAdd(CrcBit(c, false), m - 1, n);
    }
  }

  lemma {:induction false} CrcBitsConcat(c: bv32, a: Bits, b: Bits)
    ensures CrcBits(c, a + b) == CrcBits(CrcBits(c, a), b)
  {
    hide CrcBit;
    if b == [] {
      assert a + b == a;
    } else {
      CrcBitsConcat(c, a, b[..|b| - 1]);
      assert (a + b)[..|a + b| - 1] == a + b[..|b| - 1];
    }
  }

  /** A checksum can be carried on from part to part. */
  lemma CrcConcat(c: bv32, a: seq<byte>, b: seq<byte>)
    ensures Crc(c, a + b) == Crc(Crc(c, a), b)
  {
    BytesBitsConcat(a, b);
    CrcBitsConcat(c, BytesBits(a), BytesBits(b));
  }

  /** Ones in all but the low `n` bits. */
  function Mask(n: nat): bv32 { if n == 0 then 0xFFFFFFFF else Mask(n - 1) << 1 }

  function ShiftIn(w: bv32, x: bool): bv32 { (w << 1) | (if x then 1 else 0) }

  lemma {:induction false} WordBound(v: nat, n: nat)
    ensures And(Word(v, n), Mask(n)) == 0
  {
    hide And, ShiftIn;
    if n == 0 {
      AndOnes();
    } else {
      WordBound(v / 2, n - 1);
      ShiftClear(Word(v / 2, n - 1), Mask(n - 1), v % 2 == 1);
    }
  }

  function And(a: bv32, b: bv32): bv32 { a & b }

  lemma AndOnes()
    ensures And(0, 0xFFFFFFFF) == 0
  {}

  lemma ShiftClear(w: bv32, m: bv32, x: bool)
    requires And(w, m) == 0
    ensures And(ShiftIn(w, x), m << 1) == 0
  {}

  lemma TopOfMask(n: nat)
    requires n <= 8
    ensures And(Mask(n), 0x80000000) == 0x80000000
  {
    assert Mask(1) == 0xFFFFFFFE && Mask(2) == 0xFFFFFFFC && Mask(3) == 0xFFFFFFF8 && Mask(4) == 0xFFFFFFF0;
    assert Mask(5) == 0xFFFFFFE0 && Mask(6) == 0xFFFFFFC0 && Mask(7) == 0xFFFFFF80 && Mask(8) == 0xFFFFFF00;
  }

  lemma TopClear(w: bv32, m: bv32)
    requires And(m, 0x80000000) == 0x80000000 && And(w, m) == 0
    ensures And(w, 0x80000000) == 0
  {}

  lemma ShiftedZero(c: bv32, w: bv32)
    requires And(w, 0x80000000) == 0
    ensures Odd(Xor(c, ShiftIn(w, false))) == Odd(Xor(c, Low(false)))
    ensures Half(Xor(c, ShiftIn(w, false))) == Xor(Half(Xor(c, Low(false))), w)
  {}

  lemma ShiftedOne(c: bv32, w: bv32)
    requires And(w, 0x80000000) == 0
    ensures Odd(Xor(c, ShiftIn(w, true))) == Odd(Xor(c, Low(true)))
    ensures Half(Xor(c, ShiftIn(w, true))) == Xor(Half(Xor(c, Low(true))), w)
  {}

  lemma HalfShifted(c: bv32, w: bv32, x: bool)
    requires And(w, 0x80000000) == 0
    ensures Odd(Xor(c, ShiftIn(w, x))) == Odd(Xor(c, Low(x)))
    ensures Half(Xor(c, ShiftIn(w, x))) == Xor(Half(Xor(c, Low(x))), w)
  {
    hide Odd, Half, Xor, ShiftIn, Low;
    if x { ShiftedOne(c, w); } else { ShiftedZero(c, w); }
  }

  /** A bit of the message and the word over it, added together or one after the other. */
  lemma BitThenWord(c: bv32, w: bv32, x: bool)
    requires And(w, 0x80000000) == 0
    ensures CrcBit(Xor(c, ShiftIn(w, x)), false) == Xor(CrcBit(c, x), w)
  {
    hide Odd, Half, Xor, ShiftIn, And;
    HalfShifted(c, w, x);
    XorSwaps(Half(Xor(c, Low(x))), w, POLYNOMIAL);
    XorZero(Xor(c, ShiftIn(w, x)));
  }

  lemma XorZero(c: bv32)
    ensures Xor(c, 0) == c
  {}

  /** One bit of a word added to the register. */
  lemma WordStep(c: bv32, v: nat, n: nat)
    requires 0 < n <= 8
    ensures ZeroBits(Xor(c, Word(v, n)), n) == ZeroBits(Xor(CrcBit(c, v % 2 == 1), Word(v / 2, n - 1)), n - 1)
  {
    hide CrcBit, Mask, And, Xor, ShiftIn;
    var x, w := v % 2 == 1, Word(v / 2, n - 1);
    WordBound(v / 2, n - 1);
    TopOfMask(n - 1);
    TopClear(w, Mask(n - 1));
    BitThenWord(c, w, x);
  }

  /** One bit of a message. */
  lemma BitsStep(c: bv32, v: nat, n: nat)
    requires n > 0
    ensures CrcBits(c, ToBits(v, n)) == CrcBits(CrcBit(c, v % 2 == 1), ToBits(v / 2, n - 1))
  {
    hide CrcBit;
    var x := v % 2 == 1;
    CrcBitsConcat(c, [x], ToBits(v / 2, n - 1));
    assert [x][..0] == [];
    assert CrcBits(c, [x]) == CrcBit(c, x);
  }

  /** Bits may all be added to the register before any leave it. */
  lemma {:induction false} WordIsBits(c: bv32, v: nat, n: nat)
    requires n <= 8
    ensures CrcBits(c, ToBits(v, n)) == ZeroBits(Xor(c, Word(v, n)), n)
    decreases n
  {
    if n == 0 {
      XorZero(c);
    } else {
      hide CrcBit, Word, Xor, ToBits, ZeroBits;
      var x := v % 2 == 1;
      WordStep(c, v, n);
      BitsStep(c, v, n);
      WordIsBits(CrcBit(c, x), v / 2, n - 1);
    }
  }

  /** The two table steps of one byte. */
  lemma CrcByte(prev: bv32, data: seq<byte>, b: byte)
    ensures Crc(prev, data + [b]) == Nibble(Nibble(Xor(Crc(prev, data), Word(b, 8))))
  {
    hide CrcBits, ZeroBits, Word, CrcBit, ToBits, Xor, Nibble;
    var c := Xor(Crc(prev, data), Word(b, 8));
    assert (data + [b])[..|data|] == data;
    CrcBitsConcat(prev, BytesBits(data), ToBits(b, 8));
    WordIsBits(Crc(prev, data), b, 8);
    ZeroBitsAdd(c, 4, 4);
    NibbleIsFourBits(c);
    NibbleIsFourBits(Nibble(c));
  }

  const A32_BASE := 65521
  const A32_NMAX := 5552

  datatype Sums = Sums(s1: nat, s2: nat)

  /** Adler-32 by the definition of RFC 1950, section 8.2: modulo after every byte. */
  function Adler(a: Sums, data: seq<byte>): Sums {
    if data == [] then a
    else
      var p := Adler(a, data[..|data| - 1]);
      var s1 := (p.s1 + data[|data| - 1]) % A32_BASE;
      Sums(s1, (p.s2 + s1) % A32_BASE)
  }

  /** The two sums as one number, high half first. */
  function AdlerSum(prev: nat, data: seq<byte>): nat {
    var a := Adler(Sums(prev % 0x10000, prev / 0x10000), data);
    a.s2 * 0x10000 + a.s1
  }

  /** Unsigned 32-bit arithmetic. */
  function Wrap(x: nat): nat { x % 0x1_0000_0000 }

  /** The two sums have grown for `j` bytes without a modulo from at most 16 bits each, and
      are still congruent to the true ones. */
  ghost predicate Deferred(s1: nat, s2: nat, a: Sums, j: nat) {
    s1 <= 65535 + 255 * j && s2 <= Peak(j) && s1 % A32_BASE == a.s1 % A32_BASE && s2 % A32_BASE == a.s2 % A32_BASE
  }

  /** The most that the second sum can come to. */
  function Peak(j: nat): nat { if j == 0 then 65535 else Peak(j - 1) + 65535 + 255 * j }

  lemma {:induction false} PeakIs(j: nat)
    ensures 2 * Peak(j) == 131070 + 131070 * j + 255 * (j * (j + 1))
  {
    if j == 0 {
    } else {
      PeakIs(j - 1);
      assert j * (j + 1) == (j - 1) * j + 2 * j;
    }
  }

  lemma {:induction false} PeakGrows(i: nat, j: nat)
    requires i <= j
    ensures Peak(i) <= Peak(j)
    decreases j - i
  {
    if i < j { PeakGrows(i, j - 1); }
  }

  /** 5552 bytes are few enough for 32 bits, from any start. */
  lemma NoOverflow(j: nat)
    requires j <= A32_NMAX
    ensures 65535 + 255 * j <= Peak(j) < 0x1_0000_0000
  {
    PeakIs(A32_NMAX);
    assert A32_NMAX * (A32_NMAX + 1) == 30830256;
    PeakGrows(j, A32_NMAX);
    if j > 0 { PeakGrows(0, j - 1); }
  }

  lemma Congruent(x: nat, y: nat, b: nat)
    requires x % A32_BASE == y % A32_BASE
    ensures (x + b) % A32_BASE == (y + b) % A32_BASE
  {}

  lemma DeferredSums(s1: nat, s2: nat, p: Sums, b: byte, j: nat)
    requires Deferred(s1, s2, p, j) && j < A32_NMAX
    ensures var t1, u1 := Wrap(s1 + b), (p.s1 + b) % A32_BASE;
      Deferred(t1, Wrap(s2 + t1), Sums(u1, (p.s2 + u1) % A32_BASE), j + 1)
  {
    hide Wrap;
    hide Peak;
    NoOverflow(j + 1);
    assert Peak(j + 1) == Peak(j) + 65535 + 255 * (j + 1) by { PeakNext(j); }
    var t1, u1 := s1 + b, (p.s1 + b) % A32_BASE;
    Congruent(s1, p.s1, b);
    Congruent(s2, p.s2, t1);
    Congruent(t1, u1, p.s2);
    Fits(t1);
    Fits(s2 + t1);
  }

  lemma PeakNext(j: nat)
    ensures Peak(j + 1) == Peak(j) + 65535 + 255 * (j + 1)
  {}

  lemma Fits(x: nat)
    requires x < 0x1_0000_0000
    ensures Wrap(x) == x
  {}

  lemma DeferredByte(s1: nat, s2: nat, a: Sums, data: seq<byte>, b: byte, j: nat)
    requires Deferred(s1, s2, Adler(a, data), j) && j < A32_NMAX
    ensures var t1 := Wrap(s1 + b);
      Deferred(t1, Wrap(s2 + t1), Adler(a, data + [b]), j + 1)
  {
    hide Deferred, Wrap;
    assert (data + [b])[..|data|] == data;
    DeferredSums(s1, s2, Adler(a, data), b, j);
  }

  /** `count` more bytes, from position `pos`; the block of deferred ones began `j` bytes
      before. */
  method AddBytes(data: seq<byte>, pos: nat, count: nat, s1: nat, s2: nat, ghost a: Sums, ghost j: nat)
    returns (t1: nat, t2: nat)
    requires pos + count <= |data| && j + count <= A32_NMAX
    requires Deferred(s1, s2, Adler(a, data[..pos]), j)
    ensures Deferred(t1, t2, Adler(a, data[..pos + count]), j + count)
  {
    hide *;
    t1, t2 := s1, s2;
    for i := 0 to count
      invariant Deferred(t1, t2, Adler(a, data[..pos + i]), j + i)
    {
      DeferredByte(t1, t2, a, data[..pos + i], data[pos + i], j + i);
      NextPrefix(data, pos + i);
      t1 := Wrap(t1 + data[pos + i]);
      t2 := Wrap(t2 + t1);
    }
  }

  lemma NextPrefix(data: seq<byte>, i: nat)
    requires i < |data|
    ensures data[..i + 1] == data[..i] + [data[i]]
  {}

  /** The inner loops for `k` bytes from `pos`: sixteen at a time, then the rest. */
  method AddBlock(data: seq<byte>, pos: nat, k: nat, s1: nat, s2: nat, ghost a: Sums) returns (t1: nat, t2: nat)
    requires pos + k <= |data| && k <= A32_NMAX && Deferred(s1, s2, Adler(a, data[..pos]), 0)
    ensures Deferred(t1, t2, Adler(a, data[..pos + k]), k)
  {
    hide *;
    t1, t2 := s1, s2;
    var j: nat := 0;
    for i := 0 to k / 16
      invariant j == 16 * i && j <= k && Deferred(t1, t2, Adler(a, data[..pos + j]), j)
    {
      t1, t2 := AddBytes(data, pos + j, 16, t1, t2, a, j);
      j := j + 16;
    }
    t1, t2 := AddBytes(data, pos + j, k % 16, t1, t2, a, j);
  }

  lemma Reduced(s1: nat, s2: nat, a: Sums, data: seq<byte>, j: nat)
    requires Deferred(s1, s2, Adler(a, data), j) && data != []
    ensures Adler(a, data) == Sums(s1 % A32_BASE, s2 % A32_BASE)
    ensures 0 <= s1 % A32_BASE < 65536 && 0 <= s2 % A32_BASE < 65536
    ensures A32_NMAX > 0
  {}

  lemma SixteenBits(a: Sums)
    requires a.s1 < 65536 && a.s2 < 65536
    ensures Deferred(a.s1, a.s2, a, 0) && A32_NMAX == 5552
  {}

  /** The loop of uzlib_adler32. */
  method AdlerSums(data: seq<byte>, a: Sums) returns (s: Sums)
    requires a.s1 < 65536 && a.s2 < 65536
    ensures s == Adler(a, data) && s.s1 < 65536 && s.s2 < 65536
  {
    s := a;
    var pos: nat := 0;
    assert Adler(a, data[..0]) == a;
    SixteenBits(s);
    hide *;
    while pos < |data|
      invariant pos <= |data| && s == Adler(a, data[..pos]) && s.s1 < 65536 && s.s2 < 65536
    {
      SixteenBits(s);
      var k := if |data| - pos < A32_NMAX then |data| - pos else A32_NMAX;
      var s1, s2 := AddBlock(data, pos, k, s.s1, s.s2, a);
      Reduced(s1, s2, a, data[..pos + k], k);
      s := Sums(s1 % A32_BASE, s2 % A32_BASE);
      pos := pos + k;
    }
    assert data[..pos] == data;
  }

  /** uzlib_adler32. */
  method UzlibAdler32(data: seq<byte>, prev: nat) returns (sum: nat)
    requires prev < 0x1_0000_0000
    ensures sum == AdlerSum(prev, data) < 0x1_0000_0000
  {
    hide Adler;
    var s := AdlerSums(data, Sums(prev % 0x10000, prev / 0x10000));
    sum := s.s2 * 0x10000 + s.s1;
  }

  lemma {:induction false} AdlerConcat(a: Sums, d: seq<byte>, e: seq<byte>)
    ensures Adler(a, d + e) == Adler(Adler(a, d), e)
  {
    if e == [] {
      assert d + e == d;
    } else {
      AdlerConcat(a, d, e[..|e| - 1]);
      assert (d + e)[..|d + e| - 1] == d + e[..|e| - 1];
    }
  }

  lemma {:induction false} AdlerHalves(a: Sums, d: seq<byte>)
    requires a.s1 < 65536 && a.s2 < 65536
    ensures Adler(a, d).s1 < 65536 && Adler(a, d).s2 < 65536
  {
    if d == [] {
    } else {
      AdlerHalves(a, d[..|d| - 1]);
    }
  }

  /** Adler-32 too can be carried on from part to part. */
  lemma AdlerSumConcat(prev: nat, d: seq<byte>, e: seq<byte>)
    requires prev < 0x1_0000_0000
    ensures AdlerSum(prev, d) < 0x1_0000_0000 && AdlerSum(prev, d + e) == AdlerSum(AdlerSum(prev, d), e)
  {
    hide Adler;
    var a := Sums(prev % 0x10000, prev / 0x10000);
    AdlerHalves(a, d);
    AdlerConcat(a, d, e);
    SixteenBitHalves(Adler(a, d).s1, Adler(a, d).s2);
  }

  lemma SixteenBitHalves(low: nat, high: nat)
    requires low < 65536 && high < 65536
    ensures var n := high * 0x10000 + low; n < 0x1_0000_0000 && n % 0x10000 == low && n / 0x10000 == high
  {}
}
