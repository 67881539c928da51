/** Bit strings as DEFLATE sees them (RFC 1951, section 3.1.1): numbers are packed
    starting with their least significant bit, Huffman codes starting with their most
    significant bit, and bits fill each byte from its least significant end. */
module Bits {
  type byte = x: int | 0 <= x < 256
  type Bits = seq<bool>

  function Pow2(n: nat): (r: nat)
    ensures r >= 1
  {
    if n == 0 then 1 else 2 * Pow2(n - 1)
  }

  lemma PowersUsed()
    ensures Pow2(4) == 16 && Pow2(5) == 32 && Pow2(8) == 256
  {
    assert Pow2(1) == 2 && Pow2(2) == 4 && Pow2(3) == 8;
    assert Pow2(6) == 64 && Pow2(7) == 128;
  }

  function Bit(b: bool): nat { if b then 1 else 0 }

  /** The `n` low bits of `v`, least significant first. */
  function ToBits(v: nat, n: nat): (b: Bits)
    ensures |b| == n
  {
    if n == 0 then [] else [v % 2 == 1] + ToBits(v / 2, n - 1)
  }

  function FromBits(b: Bits): (v: nat)
    ensures v < Pow2(|b|)
  {
    if b == [] then 0 else Bit(b[0]) + 2 * FromBits(b[1..])
  }

  /** The `n` low bits of `v`, most significant first. */
  function MsbBits(v: nat, n: nat): (b: Bits)
    ensures |b| == n
  {
    if n == 0 then [] else MsbBits(v / 2, n - 1) + [v % 2 == 1]
  }

  function BytesBits(s: seq<byte>): (b: Bits)
    ensures |b| == 8 * |s|
  {
    if s == [] then [] else BytesBits(s[..|s| - 1]) + ToBits(s[|s| - 1], 8)
  }

  /** `v` shifted right by `n` bits. */
  function Shr(v: nat, n: nat): nat {
    if n == 0 then v else Shr(v / 2, n - 1)
  }

  /** `v` shifted left by `n` bits. */
  function Shl(v: nat, n: nat): nat {
    if n == 0 then v else 2 * Shl(v, n - 1)
  }

  /** The bits `w` are found in `B` at position `p`. */
  ghost predicate At(B: Bits, p: nat, w: Bits) {
    p + |w| <= |B| && B[p..p + |w|] == w
  }

  function Align(p: nat): (q: nat)
    ensures p <= q < p + 8 && q % 8 == 0
  {
    (p + 7) / 8 * 8
  }

  lemma Assoc<T>(a: seq<T>, b: seq<T>, c: seq<T>)
    ensures a + b + c == a + (b + c)
  {}

  lemma AtConcat(B: Bits, p: nat, u: Bits, w: Bits)
    ensures At(B, p, u + w) <==> At(B, p, u) && At(B, p + |u|, w)
  {
    if At(B, p, u + w) {
      assert B[p..p + |u|] == B[p..p + |u + w|][..|u|] == u;
      assert B[p + |u|..p + |u| + |w|] == B[p..p + |u + w|][|u|..] == w;
    }
  }

  lemma AtBit(B: Bits, p: nat, w: Bits, k: nat)
    requires At(B, p, w) && k < |w|
    ensures p + k < |B| && B[p + k] == w[k]
  {
    assert B[p..p + |w|][k] == B[p + k];
  }

  lemma LowBit(v: nat, n: nat)
    requires n > 0
    ensures ToBits(v, n) == [v % 2 == 1] + if n == 1 then [] else ToBits(v / 2, n - 1)
  {}

  lemma HighBits(v: nat, n: nat)
    requires n > 0
    ensures MsbBits(v, n) == (if n == 1 then [] else MsbBits(v / 2, n - 1)) + [v % 2 == 1]
  {}

  lemma {:induction false} FromToBits(v: nat, n: nat)
    requires v < Pow2(n)
    ensures FromBits(ToBits(v, n)) == v
  {
    if n == 0 {
    } else {
      FromToBits(v / 2, n - 1);
      assert ToBits(v, n)[1..] == ToBits(v / 2, n - 1);
    }
  }

  lemma {:induction false} ToFromBits(b: Bits)
    ensures ToBits(FromBits(b), |b|) == b
  {
    if b == [] {
    } else {
      ToFromBits(b[1..]);
      var v := FromBits(b);
      assert v % 2 == Bit(b[0]) && v / 2 == FromBits(b[1..]);
      assert b == [b[0]] + b[1..];
    }
  }

  lemma {:induction false} ToBitsSplit(v: nat, m: nat, n: nat)
    ensures ToBits(v, m + n) == ToBits(v, m) + ToBits(Shr(v, m), n)
  {
    if m != 0 {
      ToBitsSplit(v / 2, m - 1, n);
    } else {
      assert ToBits(v, 0) + ToBits(v, n) == ToBits(v, n);
    }
  }

  /** A number below 2^m and another shifted over it do not overlap. */
  lemma {:induction false} ToBitsAdd(a: nat, v: nat, m: nat, n: nat)
    requires a < Pow2(m)
    ensures ToBits(a + Shl(v, m), m + n) == ToBits(a, m) + ToBits(v, n)
  {
    if m != 0 {
      ToBitsAdd(a / 2, v, m - 1, n);
      assert (a + Shl(v, m)) / 2 == a / 2 + Shl(v, m - 1);
    } else {
      assert ToBits(a, 0) + ToBits(v, n) == ToBits(v, n);
    }
  }

  lemma {:induction false} MsbBitsAdd(v: nat, c: nat, n: nat, m: nat)
    requires c < Pow2(m)
    ensures MsbBits(Shl(v, m) + c, n + m) == MsbBits(v, n) + MsbBits(c, m)
  {
    if m != 0 {
      MsbBitsAdd(v, c / 2, n, m - 1);
      assert (Shl(v, m) + c) / 2 == Shl(v, m - 1) + c / 2;
    } else {
      assert MsbBits(v, n) + MsbBits(c, 0) == MsbBits(v, n);
    }
  }

  lemma OneByte(v: nat, n: nat)
    ensures Shl(v, 8) == 256 * v && Pow2(n + 8) == 256 * Pow2(n)
  {
    assert Shl(v, 1) == 2 * v && Shl(v, 2) == 2 * Shl(v, 1) && Shl(v, 3) == 2 * Shl(v, 2);
    assert Shl(v, 4) == 2 * Shl(v, 3) && Shl(v, 5) == 2 * Shl(v, 4) && Shl(v, 6) == 2 * Shl(v, 5);
    assert Shl(v, 7) == 2 * Shl(v, 6) && Shl(v, 8) == 2 * Shl(v, 7);
    assert Pow2(n + 1) == 2 * Pow2(n) && Pow2(n + 2) == 2 * Pow2(n + 1) && Pow2(n + 3) == 2 * Pow2(n + 2);
    assert Pow2(n + 4) == 2 * Pow2(n + 3) && Pow2(n + 5) == 2 * Pow2(n + 4) && Pow2(n + 6) == 2 * Pow2(n + 5);
    assert Pow2(n + 7) == 2 * Pow2(n + 6) && Pow2(n + 8) == 2 * Pow2(n + 7);
  }

  /** Bitwise or. */
  function Or(a: nat, b: nat): nat
    decreases a + b
  {
    if a == 0 || b == 0 then a + b
    else 2 * Or(a / 2, b / 2) + (if a % 2 == 1 || b % 2 == 1 then 1 else 0)
  }

  /** Or-ing a number above the top bit of another adds the two. */
  lemma {:induction false} OrDisjoint(a: nat, v: nat, m: nat)
    requires a < Pow2(m)
    ensures Or(a, Shl(v, m)) == a + Shl(v, m)
  {
    if m != 0 && a != 0 && Shl(v, m) != 0 {
      OrDisjoint(a / 2, v, m - 1);
    }
  }

  lemma {:induction false} ShlBound(a: nat, v: nat, m: nat, n: nat)
    requires a < Pow2(m) && v < Pow2(n)
    ensures a + Shl(v, m) < Pow2(m + n)
  {
    if m == 0 {
    } else {
      ShlBound(a / 2, v, m - 1, n);
    }
  }

  /** Bit `k` of the most-significant-first form. */
  lemma {:induction false} MsbBitsAt(v: nat, n: nat, k: nat)
    requires k < n
    ensures MsbBits(v, n)[k] == (Shr(v, n - 1 - k) % 2 == 1)
  {
    if k < n - 1 {
      MsbBitsAt(v / 2, n - 1, k);
    }
  }

  /** Dropping the low `m` bits of a number drops the tail of its code word. */
  lemma {:induction false} MsbBitsPrefix(v: nat, n: nat, m: nat)
    ensures MsbBits(v, n + m)[..n] == MsbBits(Shr(v, m), n)
  {
    if m != 0 {
      MsbBitsPrefix(v / 2, n, m - 1);
    } else {
      assert MsbBits(v, n)[..n] == MsbBits(v, n);
    }
  }

  /** Half a byte, written out in either order, and a whole one. */
  lemma HalfOctet(v: nat, a: bool, b: bool, c: bool, d: bool)
    requires v == Bit(a) + 2 * Bit(b) + 4 * Bit(c) + 8 * Bit(d)
    ensures ToBits(v, 4) == [a, b, c, d] && MsbBits(v, 4) == [d, c, b, a] && v < Pow2(4)
  {
    hide ToBits, MsbBits;
    var w := Bit(c) + 2 * Bit(d);
    FirstBitOf(a, Bit(b) + 2 * w, 3);
    FirstBitOf(b, w, 2);
    FirstBitOf(c, Bit(d), 1);
    FirstBitOf(d, 0, 0);
    PowersUsed();
    NoBitsOf(0);
  }

  lemma FirstBitOf(x: bool, v: nat, n: nat)
    ensures ToBits(Bit(x) + 2 * v, n + 1) == [x] + ToBits(v, n)
    ensures MsbBits(Bit(x) + 2 * v, n + 1) == MsbBits(v, n) + [x]
  {}

  lemma NoBitsOf(v: nat)
    ensures ToBits(v, 0) == MsbBits(v, 0) == []
  {}

  lemma Octet(low: nat, high: nat)
    requires low < 16
    ensures ToBits(low + 16 * high, 8) == ToBits(low, 4) + ToBits(high, 4)
    ensures MsbBits(low + 16 * high, 8) == MsbBits(high, 4) + MsbBits(low, 4)
  {
    hide *;
    PowersUsed();
    ShlFour(high);
    ToBitsAdd(low, high, 4, 4);
    MsbBitsAdd(high, low, 4, 4);
  }

  lemma ShlFour(v: nat)
    ensures Shl(v, 4) == 16 * v
  {
    assert Shl(v, 1) == 2 * v && Shl(v, 2) == 2 * Shl(v, 1) && Shl(v, 3) == 2 * Shl(v, 2);
  }

  lemma {:induction false} BytesBitsConcat(a: seq<byte>, b: seq<byte>)
    ensures BytesBits(a + b) == BytesBits(a) + BytesBits(b)
  {
    hide ToBits;
    if b == [] {
      assert a + b == a;
    } else {
      BytesBitsConcat(a, b[..|b| - 1]);
      assert (a + b)[..|a + b| - 1] == a + b[..|b| - 1];
    }
  }

  /** Byte `i` occupies bits 8i to 8i+7. */
  lemma BytesBitsAt(s: seq<byte>, i: nat)
    requires i < |s|
    ensures At(BytesBits(s), 8 * i, ToBits(s[i], 8))
  {
    hide *;
    assert s[i..i + 1] == [s[i]];
    AtBytes(s, i, [s[i]]);
    ByteAlone(s[i]);
  }

  lemma ByteAlone(x: byte)
    ensures BytesBits([x]) == ToBits(x, 8)
  {
    hide ToBits;
    assert [x][..0] == [];
    assert BytesBits([x]) == [] + ToBits(x, 8);
  }

  /** A run of bytes occupies the bits from eight times its position. */
  lemma AtBytes(s: seq<byte>, i: nat, w: seq<byte>)
    requires i + |w| <= |s| && s[i..i + |w|] == w
    ensures At(BytesBits(s), 8 * i, BytesBits(w))
  {
    hide ToBits, BytesBits;
    assert s == s[..i] + w + s[i + |w|..];
    BytesBitsConcat(s[..i] + w, s[i + |w|..]);
    BytesBitsConcat(s[..i], w);
    var B := BytesBits(s);
    assert B[8 * i..8 * i + 8 * |w|] == BytesBits(w);
  }

  lemma {:induction false} BytesBitsInjective(a: seq<byte>, b: seq<byte>)
    requires BytesBits(a) == BytesBits(b)
    ensures a == b
  {
    hide ToBits, FromBits, Pow2;
    if a == [] {
    } else {
      var n := |a| - 1;
      assert BytesBits(a)[..8 * n] == BytesBits(a[..n]);
      assert BytesBits(b)[..8 * n] == BytesBits(b[..n]);
      assert BytesBits(a)[8 * n..] == ToBits(a[n], 8);
      assert BytesBits(b)[8 * n..] == ToBits(b[n], 8);
      BytesBitsInjective(a[..n], b[..n]);
      PowersUsed();
      FromToBits(a[n], 8);
      FromToBits(b[n], 8);
      assert a == a[..n] + [a[n]] && b == b[..n] + [b[n]];
    }
  }
}
