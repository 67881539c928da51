/** The LZ77 compressor: greedy matches found through a hash of three bytes. */
module Lz77 {
  import opened Bits
  import opened StaticCode
  import opened DeflStatic

  const MIN_MATCH := 3
  const MAX_MATCH := 258

  /** `len` bytes, each a copy of the one `dist` back in what has been written so far. */
  function CopyFrom(hist: seq<byte>, dist: nat, len: nat): (h: seq<byte>)
    requires 1 <= dist <= |hist|
    ensures |h| == |hist| + len
    decreases len
  {
    if len == 0 then hist else CopyFrom(hist + [hist[|hist| - dist]], dist, len - 1)
  }

  predicate Applies(hist: seq<byte>, t: Token) {
    Encodable(t) && (t.Match? ==> t.dist <= |hist|)
  }

  function Apply(hist: seq<byte>, t: Token): seq<byte>
    requires Applies(hist, t)
  {
    match t
    case Literal(b) => hist + [b]
    case Match(d, l) => CopyFrom(hist, d, l)
  }

  /** What `ts` stand for after `out`, if every copy stays within what precedes it. */
  function Expand(ts: seq<Token>, out: seq<byte> := []): Option<seq<byte>> {
    if ts == [] then Some(out)
    else
      var h := Expand(ts[..|ts| - 1], out);
      if h.Some? && Applies(h.value, ts[|ts| - 1]) then Some(Apply(h.value, ts[|ts| - 1])) else None
  }

  predicate DistancesWithin(ts: seq<Token>, limit: nat) {
    forall t <- ts :: t.Match? ==> t.dist <= limit
  }

  lemma ExpandSnoc(ts: seq<Token>, t: Token)
    ensures Expand(ts + [t]) ==
      var h := Expand(ts);
      if h.Some? && Applies(h.value, t) then Some(Apply(h.value, t)) else None
  {
    assert (ts + [t])[..|ts|] == ts;
  }

  /** A repetition found in the input is what the copy reproduces. */
  lemma {:induction false} CopyIsRepetition(src: seq<byte>, i: nat, dist: nat, len: nat)
    requires 1 <= dist <= i && i + len <= |src|
    requires Repeats(src, i, dist, i + len)
    ensures CopyFrom(src[..i], dist, len) == src[..i + len]
    decreases len
  {
    if len == 0 {
    } else {
      assert src[i] == src[i - dist];
      assert src[..i] + [src[i]] == src[..i + 1];
      CopyIsRepetition(src, i + 1, dist, len - 1);
    }
  }

  predicate Repeats(src: seq<byte>, from: nat, dist: nat, to: nat)
    requires dist <= from && to <= |src|
  {
    forall k | from <= k < to :: src[k] == src[k - dist]
  }

  /** The hash of liblzf: the sum and shifts of 32-bit ints, masked to the table size. */
  function Hash(hashBits: nat, a: byte, b: byte, c: byte): (h: nat)
    requires hashBits <= 24
    ensures h < Pow2(hashBits)
  {
    var v := a * 0x10000 + b * 0x100 + c;
    (Shr(v, 24 - hashBits) - v) % Pow2(hashBits)
  }

  function HashAt(hashBits: nat, src: seq<byte>, i: nat): (h: nat)
    requires hashBits <= 24 && i + MIN_MATCH <= |src|
    ensures h < Pow2(hashBits)
  {
    Hash(hashBits, src[i], src[i + 1], src[i + 2])
  }

  /** A bucket leads to the same three bytes, not too far back. */
  predicate Leads(src: seq<byte>, i: nat, bucket: Option<nat>, dictSize: nat)
    requires i + MIN_MATCH <= |src|
  {
    && bucket.Some? && bucket.value < i && i - bucket.value <= dictSize
    && src[i..i + MIN_MATCH] == src[bucket.value..bucket.value + MIN_MATCH]
  }

  /** No match there is longer, except for the limit of 258 and the last three bytes. */
  predicate Longest(src: seq<byte>, i: nat, dist: nat, len: nat) {
    && 1 <= dist <= i && MIN_MATCH <= len <= MAX_MATCH && i + len < |src| && Repeats(src, i, dist, i + len)
    && (len == MAX_MATCH || i + len >= |src| - MIN_MATCH || src[i + len] != src[i + len - dist])
  }

  /** The token for position `i`, by what its bucket held. */
  predicate Chosen(src: seq<byte>, i: nat, bucket: Option<nat>, dictSize: nat, t: Token)
    requires i + MIN_MATCH < |src|
  {
    if Leads(src, i, bucket, dictSize) then t.Match? && t.dist == i - bucket.value && Longest(src, i, t.dist, t.len)
    else t == Literal(src[i])
  }

  /** The bytes a token stands for. */
  function Weight(t: Token): nat { if t.Match? then t.len else 1 }

  function Length(ts: seq<Token>): nat {
    if ts == [] then 0 else Length(ts[..|ts| - 1]) + Weight(ts[|ts| - 1])
  }

  type Buckets = seq<Option<nat>>

  function NoBuckets(hashBits: nat): (table: Buckets)
    ensures |table| == Pow2(hashBits) && forall h | 0 <= h < |table| :: table[h] == None
  {
    seq(Pow2(hashBits), h => None)
  }

  /** Where three bytes with hash `h` last stood at the start of a token, the table having been
      `table` at first. The last three bytes of input are not looked at. */
  function LastSeen(hashBits: nat, src: seq<byte>, ts: seq<Token>, h: nat, table: Buckets): Option<nat>
    requires hashBits <= 24 && h < |table|
  {
    if ts == [] then table[h]
    else
      var us := ts[..|ts| - 1];
      var i := Length(us);
      if i + MIN_MATCH < |src| && HashAt(hashBits, src, i) == h then Some(i)
      else LastSeen(hashBits, src, us, h, table)
  }

  /** Every token is chosen by the last place that had the same hash. */
  predicate Greedy(hashBits: nat, dictSize: nat, src: seq<byte>, ts: seq<Token>, table: Buckets)
    requires hashBits <= 24 && |table| == Pow2(hashBits)
  {
    ts == [] ||
    var us, t := ts[..|ts| - 1], ts[|ts| - 1];
    var i := Length(us);
    && Greedy(hashBits, dictSize, src, us, table)
    && if i + MIN_MATCH < |src| then
         Chosen(src, i, LastSeen(hashBits, src, us, HashAt(hashBits, src, i), table), dictSize, t)
       else t.Literal?
  }

  /** The hash table holds just that. */
  ghost predicate Remembers(hashBits: nat, src: seq<byte>, ts: seq<Token>, table: Buckets, buckets: Buckets)
    requires hashBits <= 24
  {
    |buckets| == |table| && forall h | 0 <= h < |table| :: buckets[h] == LastSeen(hashBits, src, ts, h, table)
  }

  lemma Advanced(hashBits: nat, dictSize: nat, src: seq<byte>, ts: seq<Token>, t: Token, table: Buckets,
                 before: Buckets, after: Buckets)
    requires hashBits <= 24 && |table| == Pow2(hashBits) && Length(ts) + MIN_MATCH < |src|
    requires Greedy(hashBits, dictSize, src, ts, table) && Remembers(hashBits, src, ts, table, before)
    requires var h := HashAt(hashBits, src, Length(ts));
      after == before[h := Some(Length(ts))] && Chosen(src, Length(ts), before[h], dictSize, t)
    ensures Greedy(hashBits, dictSize, src, ts + [t], table) && Remembers(hashBits, src, ts + [t], table, after)
    ensures Length(ts + [t]) == Length(ts) + Weight(t)
  {
    hide Chosen, HashAt, Pow2;
    assert (ts + [t])[..|ts|] == ts;
  }

  lemma AtLast(hashBits: nat, dictSize: nat, src: seq<byte>, ts: seq<Token>, t: Token, table: Buckets)
    requires hashBits <= 24 && |table| == Pow2(hashBits) && Length(ts) + MIN_MATCH >= |src| && t.Literal?
    requires Greedy(hashBits, dictSize, src, ts, table)
    ensures Greedy(hashBits, dictSize, src, ts + [t], table) && Length(ts + [t]) == Length(ts) + 1
  {
    hide Chosen, HashAt, Pow2, LastSeen;
    assert (ts + [t])[..|ts|] == ts;
  }

  lemma AtFirst(hashBits: nat, dictSize: nat, src: seq<byte>, table: Buckets)
    requires hashBits <= 24 && |table| == Pow2(hashBits)
    ensures Greedy(hashBits, dictSize, src, [], table) && Remembers(hashBits, src, [], table, table) && Length([]) == 0
  {}

  /** How far a match of at least three bytes extends; reads one byte past neither end. */
  method MatchLength(src: seq<byte>, i: nat, subs: nat) returns (len: nat)
    requires subs < i && i + MIN_MATCH < |src| && src[i..i + MIN_MATCH] == src[subs..subs + MIN_MATCH]
    ensures Longest(src, i, i - subs, len)
  {
    forall k | i <= k < i + MIN_MATCH
      ensures src[k] == src[k - (i - subs)]
    {
      assert src[i..i + MIN_MATCH][k - i] == src[subs..subs + MIN_MATCH][k - i];
    }
    var top := |src| - MIN_MATCH;
    var s, m := i + MIN_MATCH, subs + MIN_MATCH;
    len := MIN_MATCH;
    while src[s] == src[m] && len < MAX_MATCH && s < top
      invariant MIN_MATCH <= len <= MAX_MATCH && s == i + len && m == subs + len && s < |src|
      invariant Repeats(src, i, i - subs, s)
      decreases top - s
    {
      s, m, len := s + 1, m + 1, len + 1;
    }
  }

  /** `ts` stand for the first `i` bytes of `src`. */
  ghost predicate Covers(ts: seq<Token>, src: seq<byte>, i: nat, limit: nat)
    requires i <= |src|
  {
    Expand(ts) == Some(src[..i]) && DistancesWithin(ts, limit)
  }

  /** One turn of the main loop: a match if the hash bucket leads to one, else a literal. */
  method Step(data: UzlibComp, src: seq<byte>, i: nat, ghost ts: seq<Token>)
    returns (next: nat, ghost t: Token)
    requires data.Valid() && !data.compDisabled
    requires data.hashBits <= 24 && data.hashTable.Length == Pow2(data.hashBits) && data.dictSize <= 32768
    requires i + MIN_MATCH < |src| && Covers(ts, src, i, data.dictSize)
    modifies data`outbuf, data`outlen, data`outsize, data`outbits, data`noutbits,
             data`written, data`emitted, data.outbuf, data.hashTable
    ensures data.Valid() && (data.outbuf == old(data.outbuf) || fresh(data.outbuf))
    ensures i < next < |src| && Covers(ts + [t], src, next, data.dictSize)
    ensures data.Stream() == old(data.Stream()) + TokenBits(t) && next == i + Weight(t)
    ensures var h := HashAt(data.hashBits, src, i);
      && data.hashTable[..] == old(data.hashTable[..])[h := Some(i)]
      && Chosen(src, i, old(data.hashTable[h]), data.dictSize, t)
  {
    hide Hash, TokensBits, Expand, TokenBits, SymbolBits, Covers, DistancesWithin, Pieces, Repeats;
    var h := Hash(data.hashBits, src[i], src[i + 1], src[i + 2]);
    var bucket := data.hashTable[h];
    data.hashTable[h] := Some(i);
    if bucket.Some? && i > bucket.value && i - bucket.value <= data.dictSize
       && src[i..i + MIN_MATCH] == src[bucket.value..bucket.value + MIN_MATCH] {
      var len := MatchLength(src, i, bucket.value);
      t, next := Match(i - bucket.value, len), i + len;
      AddMatch(ts, src, i, i - bucket.value, len, data.dictSize);
      WholeMatch(i - bucket.value, len);
      data.ZlibMatch(i - bucket.value, len);
    } else {
      t, next := Literal(src[i]), i + 1;
      AddLiteral(ts, src, i, data.dictSize);
      data.Literal(src[i]);
    }
  }

  /** Compresses `src`, whatever the hash table holds; `ts` are the tokens written. */
  method UzlibCompress(data: UzlibComp, src: seq<byte>) returns (ghost ts: seq<Token>)
    requires data.Valid() && !data.compDisabled
    requires data.hashBits <= 24 && data.hashTable.Length == Pow2(data.hashBits) && data.dictSize <= 32768
    modifies data`outbuf, data`outlen, data`outsize, data`outbits, data`noutbits,
             data`written, data`emitted, data.outbuf, data.hashTable
    ensures data.Valid() && (data.outbuf == old(data.outbuf) || fresh(data.outbuf))
    ensures data.Stream() == old(data.Stream()) + TokensBits(ts)
    ensures Covers(ts, src, |src|, data.dictSize) && Length(ts) == |src|
    ensures Greedy(data.hashBits, data.dictSize, src, ts, old(data.hashTable[..]))
  {
    ts := [];
    var i: nat := 0;
    var top: int := |src| - MIN_MATCH;
    ghost var table := data.hashTable[..];
    hide *;
    NothingCovered(src, data.dictSize);
    AtFirst(data.hashBits, data.dictSize, src, table);
    while i < top
      invariant i <= |src|
      invariant data.Valid() && (data.outbuf == old(data.outbuf) || fresh(data.outbuf))
      invariant data.Stream() == old(data.Stream()) + TokensBits(ts)
      invariant Covers(ts, src, i, data.dictSize) && Length(ts) == i
      invariant Greedy(data.hashBits, data.dictSize, src, ts, table)
      invariant Remembers(data.hashBits, src, ts, table, data.hashTable[..])
    {
      ghost var t;
      ghost var before := data.hashTable[..];
      assert i + MIN_MATCH < |src|;
      i, t := Step(data, src, i, ts);
      Advanced(data.hashBits, data.dictSize, src, ts, t, table, before, data.hashTable[..]);
      TokensBitsSnoc(ts, t);
      Assoc(old(data.Stream()), TokensBits(ts), TokenBits(t));
      ts := ts + [t];
    }
    ts := Tail(data, src, i, old(data.Stream()), ts, table);
  }

  /** The last bytes, at which no matches are looked for. */
  method Tail(data: UzlibComp, src: seq<byte>, start: nat, ghost out: Bits, ghost us: seq<Token>, ghost table: Buckets)
    returns (ghost ts: seq<Token>)
    requires data.Valid() && !data.compDisabled && data.Stream() == out + TokensBits(us)
    requires start <= |src| <= start + MIN_MATCH && Covers(us, src, start, data.dictSize) && Length(us) == start
    requires data.hashBits <= 24 && |table| == Pow2(data.hashBits)
    requires Greedy(data.hashBits, data.dictSize, src, us, table)
    modifies data`outbuf, data`outlen, data`outsize, data`outbits, data`noutbits,
             data`written, data`emitted, data.outbuf
    ensures data.Valid() && (data.outbuf == old(data.outbuf) || fresh(data.outbuf))
    ensures data.Stream() == out + TokensBits(ts)
    ensures Covers(ts, src, |src|, data.dictSize) && Length(ts) == |src|
    ensures Greedy(data.hashBits, data.dictSize, src, ts, table)
  {
    hide *;
    var i := start;
    ts := us;
    while i < |src|
      invariant start <= i <= |src|
      invariant data.Valid() && (data.outbuf == old(data.outbuf) || fresh(data.outbuf))
      invariant data.Stream() == out + TokensBits(ts)
      invariant Covers(ts, src, i, data.dictSize) && Length(ts) == i
      invariant Greedy(data.hashBits, data.dictSize, src, ts, table)
    {
      AddLiteral(ts, src, i, data.dictSize);
      AtLast(data.hashBits, data.dictSize, src, ts, Literal(src[i]), table);
      data.Literal(src[i]);
      Assoc(out, TokensBits(ts), SymbolBits(src[i]));
      ts := ts + [Literal(src[i])];
      i := i + 1;
    }
  }

  lemma NothingCovered(src: seq<byte>, limit: nat)
    ensures Covers([], src, 0, limit) && TokensBits([]) == []
    ensures forall b: Bits :: b + [] == b
    ensures MIN_MATCH == 3
  {}

  lemma AddLiteral(ts: seq<Token>, src: seq<byte>, i: nat, limit: nat)
    requires i < |src| && Covers(ts, src, i, limit)
    ensures var us := ts + [Literal(src[i])];
      && Covers(us, src, i + 1, limit) && TokenBits(Literal(src[i])) == SymbolBits(src[i])
      && TokensBits(us) == TokensBits(ts) + SymbolBits(src[i])
  {
    hide TokensBits, SymbolBits, Expand;
    ExpandSnoc(ts, Literal(src[i]));
    TokensBitsSnoc(ts, Literal(src[i]));
    assert src[..i] + [src[i]] == src[..i + 1];
  }

  lemma AddMatch(ts: seq<Token>, src: seq<byte>, i: nat, dist: nat, len: nat, limit: nat)
    requires 1 <= dist <= i && MIN_MATCH <= len <= MAX_MATCH && i + len <= |src| && dist <= limit <= 32768
    requires Repeats(src, i, dist, i + len) && Covers(ts, src, i, limit)
    ensures var us := ts + [Match(dist, len)];
      && Covers(us, src, i + len, limit)
      && TokensBits(us) == TokensBits(ts) + TokenBits(Match(dist, len))
  {
    hide CopyFrom, TokensBits, TokenBits, Expand;
    ExpandSnoc(ts, Match(dist, len));
    TokensBitsSnoc(ts, Match(dist, len));
    CopyIsRepetition(src, i, dist, len);
  }

  lemma WholeMatch(dist: nat, len: nat)
    requires 1 <= dist <= 32768 && MIN_MATCH <= len <= MAX_MATCH
    ensures TokensBits(Pieces(dist, len)) == TokenBits(Match(dist, len))
  {
    hide LengthBits, DistBits;
    TokensBitsSnoc([], Match(dist, len));
    assert Pieces(dist, len) == [] + [Match(dist, len)];
  }
}
