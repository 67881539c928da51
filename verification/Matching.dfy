/** Which matches the compressor finds, and how small it makes a run of one byte. */
module Matching {
  import opened Bits
  import Bound
  import opened Chunked
  import opened DeflStatic
  import opened GzPack
  import opened Lz77
  import RoundTrip
  import opened StaticCode
  import opened Tables

  /** Where token `k` starts. */
  function Start(ts: seq<Token>, k: nat): nat
    requires k <= |ts|
  {
    Length(ts[..k])
  }

  lemma {:induction false} StartsAscend(ts: seq<Token>, j: nat, k: nat)
    requires j <= k <= |ts| && forall t <- ts :: Weight(t) > 0
    ensures Start(ts, j) + (k - j) <= Start(ts, k)
    ensures k < |ts| ==> Start(ts, k + 1) == Start(ts, k) + Weight(ts[k])
    decreases k - j
  {
    if k < |ts| { assert ts[..k + 1][..k] == ts[..k]; }
    if j < k {
      StartsAscend(ts, j, k - 1);
      assert ts[k - 1] in ts;
    }
  }

  lemma {:induction false} GreedyWeighs(hashBits: nat, dictSize: nat, src: seq<byte>, ts: seq<Token>, table: Buckets)
    requires hashBits <= 24 && |table| == Pow2(hashBits) && Greedy(hashBits, dictSize, src, ts, table)
    ensures forall t <- ts :: 0 < Weight(t) <= 258
  {
    hide HashAt, LastSeen, Pow2, Repeats;
    if ts == [] {
    } else {
      GreedyWeighs(hashBits, dictSize, src, ts[..|ts| - 1], table);
      assert ts == ts[..|ts| - 1] + [ts[|ts| - 1]];
    }
  }

  /** What holds of a greedy list of tokens holds of each of its tokens. */
  lemma {:induction false} GreedyAt(hashBits: nat, dictSize: nat, src: seq<byte>, ts: seq<Token>, table: Buckets,
                                    k: nat)
    requires hashBits <= 24 && |table| == Pow2(hashBits) && Greedy(hashBits, dictSize, src, ts, table) && k < |ts|
    ensures var i := Start(ts, k);
      if i + MIN_MATCH < |src| then
        Chosen(src, i, LastSeen(hashBits, src, ts[..k], HashAt(hashBits, src, i), table), dictSize, ts[k])
      else ts[k].Literal?
    decreases |ts|
  {
    hide Chosen, HashAt, LastSeen, Pow2;
    if k < |ts| - 1 {
      GreedyAt(hashBits, dictSize, src, ts[..|ts| - 1], table, k);
      assert ts[..|ts| - 1][..k] == ts[..k];
    }
  }

  /** Token `k` starts with three bytes that have hash `h`, and more of the input follows them. */
  predicate HasHash(hashBits: nat, src: seq<byte>, ts: seq<Token>, k: nat, h: nat)
    requires hashBits <= 24 && k <= |ts|
  {
    Start(ts, k) + MIN_MATCH < |src| && HashAt(hashBits, src, Start(ts, k)) == h
  }

  lemma {:induction false} LastSeenIs(hashBits: nat, src: seq<byte>, ts: seq<Token>, k: nat, h: nat, table: Buckets,
                                      j: nat)
    requires hashBits <= 24 && h < |table| && j < k <= |ts| && HasHash(hashBits, src, ts, j, h)
    requires forall m | j < m < k :: !HasHash(hashBits, src, ts, m, h)
    ensures LastSeen(hashBits, src, ts[..k], h, table) == Some(Start(ts, j))
    decreases k
  {
    hide HashAt, Length;
    assert ts[..k][..k - 1] == ts[..k - 1];
    if j < k - 1 {
      assert !HasHash(hashBits, src, ts, k - 1, h);
      LastSeenIs(hashBits, src, ts, k - 1, h, table, j);
    }
  }

  lemma {:induction false} NeverSeen(hashBits: nat, src: seq<byte>, ts: seq<Token>, k: nat, h: nat, table: Buckets)
    requires hashBits <= 24 && h < |table| && k <= |ts|
    requires forall m | 0 <= m < k :: !HasHash(hashBits, src, ts, m, h)
    ensures LastSeen(hashBits, src, ts[..k], h, table) == table[h]
  {
    hide HashAt, Length;
    if k > 0 {
      assert ts[..k][..k - 1] == ts[..k - 1];
      assert !HasHash(hashBits, src, ts, k - 1, h);
      NeverSeen(hashBits, src, ts, k - 1, h, table);
    }
  }

  /** If token `j` is the last before token `k` that starts with the same hash, then token `k` is
      a match if and only if it starts with the same three bytes as well and not too far behind.
      The match leads back to it, and is as long as it can be. */
  lemma MatchIff(hashBits: nat, dictSize: nat, src: seq<byte>, ts: seq<Token>, table: Buckets, j: nat, k: nat)
    requires hashBits <= 24 && |table| == Pow2(hashBits) && Greedy(hashBits, dictSize, src, ts, table)
    requires j < k < |ts| && Start(ts, k) + MIN_MATCH < |src|
    requires HasHash(hashBits, src, ts, j, HashAt(hashBits, src, Start(ts, k)))
    requires forall m | j < m < k :: !HasHash(hashBits, src, ts, m, HashAt(hashBits, src, Start(ts, k)))
    ensures var p, i := Start(ts, j), Start(ts, k);
      && p < i
      && (ts[k].Match? <==> i - p <= dictSize && src[i..i + 3] == src[p..p + 3])
      && (ts[k].Match? ==> ts[k].dist == i - p && Longest(src, i, i - p, ts[k].len))
      && (ts[k].Literal? ==> ts[k] == Literal(src[i]))
  {
    hide HashAt, Length, Longest, Greedy, LastSeen, Pow2;
    GreedyWeighs(hashBits, dictSize, src, ts, table);
    StartsAscend(ts, j, k);
    LastSeenIs(hashBits, src, ts, k, HashAt(hashBits, src, Start(ts, k)), table, j);
    GreedyAt(hashBits, dictSize, src, ts, table, k);
  }

  /** If none does, and nothing was in the table, it is a literal. */
  lemma LiteralIf(hashBits: nat, dictSize: nat, src: seq<byte>, ts: seq<Token>, table: Buckets, k: nat)
    requires hashBits <= 24 && |table| == Pow2(hashBits) && Greedy(hashBits, dictSize, src, ts, table)
    requires k < |ts| && Start(ts, k) + MIN_MATCH < |src| && forall h | 0 <= h < |table| :: table[h] == None
    requires forall m | 0 <= m < k :: !HasHash(hashBits, src, ts, m, HashAt(hashBits, src, Start(ts, k)))
    ensures ts[k] == Literal(src[Start(ts, k)])
  {
    hide HashAt, Length, Greedy, LastSeen, Pow2;
    NeverSeen(hashBits, src, ts, k, HashAt(hashBits, src, Start(ts, k)), table);
    GreedyAt(hashBits, dictSize, src, ts, table, k);
  }

  predicate Uniform(src: seq<byte>) { forall i | 0 <= i < |src| :: src[i] == src[0] }

  /** All positions of a run have the same hash and lead to each other. */
  lemma RunMatch(hashBits: nat, dictSize: nat, src: seq<byte>, ts: seq<Token>, table: Buckets, k: nat)
    requires hashBits <= 24 && |table| == Pow2(hashBits) && Greedy(hashBits, dictSize, src, ts, table)
    requires Uniform(src) && dictSize >= 258 && 0 < k < |ts| && Start(ts, k) + MIN_MATCH < |src|
    ensures ts[k].Match? && (ts[k].len == MAX_MATCH || Start(ts, k + 1) + MIN_MATCH >= |src|)
    ensures Start(ts, k) == Start(ts, k - 1) + Weight(ts[k - 1])
    ensures Start(ts, k + 1) == Start(ts, k) + Weight(ts[k])
  {
    hide Length, Greedy, LastSeen, Pow2, Repeats, Hash;
    GreedyWeighs(hashBits, dictSize, src, ts, table);
    StartsAscend(ts, k - 1, k);
    StartsAscend(ts, k - 1, k - 1);
    assert ts[k - 1] in ts;
    var p, i := Start(ts, k - 1), Start(ts, k);
    assert src[i..i + 3] == src[p..p + 3];
    MatchIff(hashBits, dictSize, src, ts, table, k - 1, k);
  }

  lemma FirstLiteral(hashBits: nat, dictSize: nat, src: seq<byte>, ts: seq<Token>, table: Buckets)
    requires hashBits <= 24 && |table| == Pow2(hashBits) && Greedy(hashBits, dictSize, src, ts, table)
    requires ts != [] && forall h | 0 <= h < |table| :: table[h] == None
    ensures ts[0].Literal? && Start(ts, 1) == 1
  {
    hide Greedy, LastSeen, Pow2, HashAt, Chosen;
    assert ts[..0] == [] && ts[..1][..0] == [];
    if Start(ts, 0) + MIN_MATCH < |src| {
      LiteralIf(hashBits, dictSize, src, ts, table, 0);
    } else {
      GreedyAt(hashBits, dictSize, src, ts, table, 0);
    }
  }

  /** After the first byte a run is made of matches of 258, up to its last bytes. */
  lemma {:induction false} RunStarts(hashBits: nat, dictSize: nat, src: seq<byte>, ts: seq<Token>, table: Buckets,
                                     k: nat)
    requires hashBits <= 24 && |table| == Pow2(hashBits) && Greedy(hashBits, dictSize, src, ts, table)
    requires Uniform(src) && dictSize >= 258 && 0 < k < |ts| && Start(ts, k) + MIN_MATCH < |src|
    requires forall h | 0 <= h < |table| :: table[h] == None
    ensures Start(ts, k) == 1 + 258 * (k - 1)
  {
    hide Start, Greedy, Pow2, Uniform;
    if k == 1 {
      FirstLiteral(hashBits, dictSize, src, ts, table);
    } else {
      RunMatch(hashBits, dictSize, src, ts, table, k);
      RunMatch(hashBits, dictSize, src, ts, table, k - 1);
      RunStarts(hashBits, dictSize, src, ts, table, k - 1);
    }
  }

  /** So n bytes alike take a token for every 258 of them, and five more at most. */
  lemma RunTokens(hashBits: nat, dictSize: nat, src: seq<byte>, ts: seq<Token>, table: Buckets)
    requires hashBits <= 24 && |table| == Pow2(hashBits) && Greedy(hashBits, dictSize, src, ts, table)
    requires Uniform(src) && dictSize >= 258 && Length(ts) == |src| && forall h | 0 <= h < |table| :: table[h] == None
    ensures |ts| <= |src| / 258 + 5
  {
    hide Length, Greedy, Pow2, Uniform;
    if |ts| > 4 {
      var k := |ts| - 4;
      GreedyWeighs(hashBits, dictSize, src, ts, table);
      StartsAscend(ts, k, |ts|);
      assert ts[..|ts|] == ts;
      RunStarts(hashBits, dictSize, src, ts, table, k);
    }
  }

  lemma TokenMost(t: Token)
    ensures |TokenBits(t)| <= 31
  {
    hide DistBits, LENCODES, LengthRowFor, MsbBits, ToBits;
    if t.Match? && Encodable(t) {
      LengthRow(0);
      LengthRow(LengthRowFor(t.len));
      Bound.DistanceCost(t.dist);
    }
  }

  lemma {:induction false} TokensMost(ts: seq<Token>)
    ensures |TokensBits(ts)| <= 31 * |ts|
  {
    hide TokenBits;
    if ts == [] {
    } else {
      TokensMost(ts[..|ts| - 1]);
      TokenMost(ts[|ts| - 1]);
    }
  }

  /** compress makes 51 bytes of a thousand that are alike, and of any run hardly more than a
      sixty-sixth. */
  method CompressRun(src: seq<byte>) returns (dst: seq<byte>, total: nat)
    requires |src| > 0 && Uniform(src)
    ensures total == |dst| <= 18 + (31 * (|src| / 258 + 5) + 17) / 8
    ensures |src| == 1000 ==> total <= 51
  {
    hide Uniform, Member, Greedy;
    ghost var cs;
    dst, total, cs := Compress(src);
    RunSize(dst, src, cs);
  }

  lemma RunSize(dst: seq<byte>, src: seq<byte>, cs: seq<Chunk>)
    requires Member(dst, src, cs) && |cs| == 1 && Uniform(src)
    requires Greedy(HASH_BITS, DICT_SIZE, src, cs[0].ts, NoBuckets(HASH_BITS)) && Length(cs[0].ts) == |src|
    ensures |dst| <= 18 + (31 * (|src| / 258 + 5) + 17) / 8
  {
    hide Uniform, Greedy, Pow2, BytesBits, Expand, ToBits, SymbolBits, TokensBits, Footer, NoBuckets, Length;
    var c := cs[0];
    assert cs[..|cs| - 1] == [];
    assert Bytes(cs) == [] + c.bytes == c.bytes;
    RunTokens(HASH_BITS, DICT_SIZE, src, c.ts, NoBuckets(HASH_BITS));
    TokensMost(c.ts);
    RoundTrip.SymbolSize(END_OF_BLOCK);
    HeaderLength(src);
  }
}
