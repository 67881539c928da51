/** Data in which no three bytes recur: they are all put out as literals, so that a chunk of
    them is larger than they are and cannot fit an output buffer of their size. */
module Incompressible {
  import opened Bits
  import opened Chunked
  import GzPack
  import opened Lz77
  import RoundTrip
  import opened StaticCode
  import opened StreamWriter

  predicate Repeat(s: seq<byte>, i: nat, j: nat)
    requires i < j && j + 3 <= |s|
  {
    s[i] == s[j] && s[i + 1] == s[j + 1] && s[i + 2] == s[j + 2]
  }

  predicate NoRepeats(s: seq<byte>) {
    forall i, j | 0 <= i < j && j + 3 <= |s| :: !Repeat(s, i, j)
  }

  /** Every byte of a copy recurs. */
  lemma {:induction false} CopyRepeats(hist: seq<byte>, dist: nat, len: nat, k: nat)
    requires 1 <= dist <= |hist| <= k < |hist| + len
    ensures hist <= CopyFrom(hist, dist, len) && CopyFrom(hist, dist, len)[k] == CopyFrom(hist, dist, len)[k - dist]
    decreases len
  {
    var next := hist + [hist[|hist| - dist]];
    assert CopyFrom(hist, dist, len) == CopyFrom(next, dist, len - 1);
    if k > |hist| {
      CopyRepeats(next, dist, len - 1, k);
    } else {
      CopyKeeps(next, dist, len - 1);
      assert next <= CopyFrom(next, dist, len - 1);
    }
  }

  lemma {:induction false} CopyKeeps(hist: seq<byte>, dist: nat, len: nat)
    requires 1 <= dist <= |hist|
    ensures hist <= CopyFrom(hist, dist, len)
    decreases len
  {
    if len == 0 {
    } else {
      CopyKeeps(hist + [hist[|hist| - dist]], dist, len - 1);
    }
  }

  lemma NoCopy(hist: seq<byte>, dist: nat, len: nat)
    requires 1 <= dist <= |hist| && len >= 3
    ensures !NoRepeats(CopyFrom(hist, dist, len))
  {
    var s, i := CopyFrom(hist, dist, len), |hist|;
    CopyRepeats(hist, dist, len, i);
    CopyRepeats(hist, dist, len, i + 1);
    CopyRepeats(hist, dist, len, i + 2);
    assert Repeat(s, i - dist, i);
  }

  lemma PartsDoNotRepeat(s: seq<byte>, n: nat)
    requires NoRepeats(s) && n <= |s|
    ensures NoRepeats(s[..n])
  {
    forall i, j | 0 <= i < j && j + 3 <= n
      ensures !Repeat(s[..n], i, j)
    {
      assert !Repeat(s, i, j);
    }
  }

  /** No token can be a match, and each takes eight bits or more. */
  lemma {:induction false} OnlyLiterals(ts: seq<Token>)
    requires Expand(ts).Some? && NoRepeats(Expand(ts).value)
    ensures |ts| == |Expand(ts).value| && |TokensBits(ts)| >= 8 * |ts| && forall t <- ts :: t.Literal?
  {
    hide MsbBits, CopyFrom, NoRepeats, TokenBits;
    if ts == [] {
    } else {
      var us, t := ts[..|ts| - 1], ts[|ts| - 1];
      var h := Expand(us).value;
      if t.Match? {
        NoCopy(h, t.dist, t.len);
        assert false;
      } else {
        assert Expand(ts).value[..|h|] == h;
        PartsDoNotRepeat(Expand(ts).value, |h|);
        OnlyLiterals(us);
        LiteralSize(t);
        assert ts == us + [t];
      }
    }
  }

  lemma LiteralSize(t: Token)
    requires t.Literal?
    ensures 8 <= |TokenBits(t)| <= 9
  {}

  /** Such a chunk takes at least two bytes more than its data, six if it is not the last. */
  lemma DoesNotFit(c: Chunk, final: bool, limit: nat)
    requires Encodes(c, final, limit) && NoRepeats(c.data)
    ensures |c.bytes| >= |c.data| + if final then 2 else 6
  {
    hide Expand, TokensBits, SymbolBits, ToBits, BytesBits, NoRepeats;
    assert c.data[..|c.data|] == c.data;
    OnlyLiterals(c.ts);
    RoundTrip.SymbolSize(END_OF_BLOCK);
  }

  /** So a writer that is given a full buffer of such data is doomed, or fails at once if no
      more are to come. */
  method Doom(data: seq<byte>, more: nat) returns (w: LZStreamWriter, r: int)
    requires NoRepeats(data) && data != []
    ensures w.received == data && !w.fits && !w.Finished()
    ensures if more > 0 then r == |data| && w.Doomed() else r == -1 && w.Unfinished()
  {
    hide NoRepeats, LZStreamWriter.Healthy, LZStreamWriter.Doomed, GzPack.Member, Data, Encodes, Slot;
    w := new LZStreamWriter(|data| + more, |data|);
    FirstSlot(|data|);
    w.HealthyGives();
    w.AliveGives();
    assert w.received[..0] == [];
    ghost var c;
    r, c := w.Write(data);
    assert [] + c.data == c.data && [] + data == data;
    DoesNotFit(c, more == 0, GzPack.DICT_SIZE);
    if more > 0 { w.DoomedGives(); }
  }

  lemma FirstSlot(m: nat)
    requires m > 0
    ensures Slot(0, m) == 0
  {}

  /** Triples of two digits to base 128 and a mark. */
  function Sample(i: nat): byte {
    if i % 3 == 2 then 255 else if i % 3 == 0 then i / 3 / 128 % 128 else i / 3 % 128
  }

  function Samples(n: nat): (s: seq<byte>)
    ensures |s| == n && forall i | 0 <= i < n :: s[i] == Sample(i)
  {
    seq(n, i requires i >= 0 => Sample(i))
  }

  /** The mark tells where in a triple three bytes start, and the digits which triple it is. */
  lemma SamplesDiffer(i: nat, j: nat)
    requires i < j < 49000
    ensures !(Sample(i) == Sample(j) && Sample(i + 1) == Sample(j + 1) && Sample(i + 2) == Sample(j + 2))
  {
    if Sample(i) == Sample(j) && Sample(i + 1) == Sample(j + 1) && Sample(i + 2) == Sample(j + 2) {
      var g, h, d := i / 3, j / 3, i % 3;
      Marks(i, j);
      Triple(i);
      Triple(j);
      if d == 0 {
        SameDigits(g, h);
      } else if d == 1 {
        NextDigits(g, h);
      } else {
        SameDigits(g + 1, h + 1);
      }
    }
  }

  lemma Triple(i: nat)
    ensures var g, d := i / 3, i % 3;
      && (d == 0 ==> Sample(i) == g / 128 % 128 && Sample(i + 1) == g % 128)
      && (d == 1 ==> Sample(i) == g % 128 && Sample(i + 2) == (g + 1) / 128 % 128)
      && (d == 2 ==> Sample(i + 1) == (g + 1) / 128 % 128 && Sample(i + 2) == (g + 1) % 128)
  {
    Thirds(i);
  }

  lemma Thirds(i: nat)
    ensures var g, d := i / 3, i % 3;
      && (i + 1) / 3 == (if d == 2 then g + 1 else g) && (i + 1) % 3 == (if d == 2 then 0 else d + 1)
      && (i + 2) / 3 == (if d == 0 then g else g + 1) && (i + 2) % 3 == (if d == 0 then 2 else d - 1)
  {}

  lemma Marks(i: nat, j: nat)
    requires Sample(i) == Sample(j) && Sample(i + 1) == Sample(j + 1) && Sample(i + 2) == Sample(j + 2)
    ensures i % 3 == j % 3
  {}

  lemma SameDigits(g: nat, h: nat)
    requires g % 128 == h % 128 && g / 128 % 128 == h / 128 % 128 && g < 16384 && h < 16384
    ensures g == h
  {}

  lemma NextDigits(g: nat, h: nat)
    requires g % 128 == h % 128 && (g + 1) / 128 % 128 == (h + 1) / 128 % 128 && g < 16383 && h < 16383
    ensures g == h
  {}

  /** A full buffer of the usual 4096 bytes, with which the stream is doomed. */
  lemma FullBuffer()
    ensures NoRepeats(Samples(4096))
  {
    hide Samples, Sample;
    var s := Samples(4096);
    forall i, j | 0 <= i < j && j + 3 <= |s|
      ensures !Repeat(s, i, j)
    {
      SamplesDiffer(i, j);
    }
  }
}
