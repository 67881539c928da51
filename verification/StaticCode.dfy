/** The static Huffman code of RFC 1951, section 3.2.6, and what a list of LZ77 tokens
    looks like in it. */
module StaticCode {
  import opened Bits
  import opened Tables

  datatype Token = Literal(b: byte) | Match(dist: nat, len: nat)

  function FixedLength(sym: nat): nat {
    if sym < 144 then 8 else if sym < 256 then 9 else if sym < 280 then 7 else 8
  }

  function FixedCode(sym: nat): nat {
    if sym < 144 then 0x30 + sym
    else if sym < 256 then 0x190 + (sym - 144)
    else if sym < 280 then sym - 256
    else 0xC0 + (sym - 280)
  }

  function SymbolBits(sym: nat): Bits { MsbBits(FixedCode(sym), FixedLength(sym)) }

  const END_OF_BLOCK := 256

  /** The row of the length table that covers a match length. */
  function LengthRowFor(len: nat, k: nat := 0): (r: nat)
    requires k < 29 && LENCODES[k].min + 3 <= len <= 258
    ensures r < 29 && LENCODES[r].min + 3 <= len <= LENCODES[r].max + 3
    decreases 29 - k
  {
    LengthRow(k);
    if k < 28 then LengthRow(k + 1);
      if len <= LENCODES[k].max + 3 then k else LengthRowFor(len, k + 1)
    else k
  }

  function DistRowFor(dist: nat, k: nat := 0): (r: nat)
    requires k < 30 && DISTCODES[k].min <= dist <= 32768
    ensures r < 30 && DISTCODES[r].min <= dist <= DISTCODES[r].max
    decreases 30 - k
  {
    DistRowNext(k);
    if k < 29 && dist > DISTCODES[k].max then DistRowFor(dist, k + 1) else k
  }

  lemma DistRowNext(k: nat)
    requires k < 30
    ensures k < 29 ==> DISTCODES[k + 1].min == DISTCODES[k].max + 1
    ensures k == 29 ==> DISTCODES[k].max == 32768
  {
    hide DISTCODES;
    DistRow(k);
    if k < 29 { DistRow(k + 1); }
  }

  lemma {:induction false} LengthRowsAscend(i: nat, j: nat)
    requires i < j < 29
    ensures LENCODES[i].max < LENCODES[j].min
    decreases j - i
  {
    hide LENCODES;
    LengthRow(j);
    if i < j - 1 {
      LengthRow(j - 1);
      LengthRowsAscend(i, j - 1);
    }
  }

  lemma {:induction false} DistRowsAscend(i: nat, j: nat)
    requires i < j < 30
    ensures DISTCODES[i].max < DISTCODES[j].min
    decreases j - i
  {
    hide DISTCODES;
    DistRow(j);
    if i < j - 1 {
      DistRow(j - 1);
      DistRowsAscend(i, j - 1);
    }
  }

  predicate Encodable(t: Token) {
    t.Match? ==> 1 <= t.dist <= 32768 && 3 <= t.len <= 258
  }

  function LengthBits(len: nat): Bits
    requires 3 <= len <= 258
  {
    LengthRow(0);
    var k := LengthRowFor(len);
    SymbolBits(257 + k) + ToBits(len - 3 - LENCODES[k].min, LENCODES[k].extrabits)
  }

  function DistBits(dist: nat): Bits
    requires 1 <= dist <= 32768
  {
    DistRow(0);
    var k := DistRowFor(dist);
    MsbBits(k, 5) + ToBits(dist - DISTCODES[k].min, DISTCODES[k].extrabits)
  }

  function TokenBits(t: Token): Bits {
    match t
    case Literal(b) => SymbolBits(b)
    case Match(d, l) => if Encodable(t) then LengthBits(l) + DistBits(d) else []
  }

  function TokensBits(ts: seq<Token>): Bits {
    if ts == [] then [] else TokensBits(ts[..|ts| - 1]) + TokenBits(ts[|ts| - 1])
  }

  /** How much of a match of `len` the next piece takes. */
  function PieceLength(len: nat): (n: nat)
    ensures len >= 3 ==> 3 <= n <= 258 && n <= len && (len - n == 0 || len - n >= 3)
  {
    if len > 260 then 258 else if len <= 258 then len else len - 3
  }

  /** The pieces zlib_match cuts a match into: at most 258 long, never shorter than 3. */
  function Pieces(dist: nat, len: nat): (ts: seq<Token>)
    requires 1 <= dist <= 32768 && (len == 0 || len >= 3)
    ensures forall t <- ts :: Encodable(t) && t.Match? && t.dist == dist
    ensures MatchedLength(ts) == len
    decreases len
  {
    if len == 0 then []
    else
      var n := PieceLength(len);
      [Match(dist, n)] + Pieces(dist, len - n)
  }

  function MatchedLength(ts: seq<Token>): nat {
    if ts == [] then 0 else (if ts[0].Match? then ts[0].len else 1) + MatchedLength(ts[1..])
  }

  /** At most one row covers a given value. */
  lemma LengthRowUnique(len: nat, k: nat)
    requires 3 <= len <= 258 && k < 29
    ensures |LENCODES| == 29 && LENCODES[0].min == 0
    ensures (LENCODES[k].min + 3 <= len <= LENCODES[k].max + 3) <==> k == LengthRowFor(len)
    ensures len < LENCODES[k].min + 3 ==> LengthRowFor(len) < k
    ensures len > LENCODES[k].max + 3 ==> LengthRowFor(len) > k
  {
    hide LENCODES, LengthRowFor;
    LengthRow(0);
    LengthRow(k);
    var r := LengthRowFor(len);
    if r < k { LengthRowsAscend(r, k); }
    if k < r { LengthRowsAscend(k, r); }
  }

  lemma DistRowUnique(dist: nat, k: nat)
    requires 1 <= dist <= 32768 && k < 30
    ensures |DISTCODES| == 30 && DISTCODES[0].min == 1
    ensures (DISTCODES[k].min <= dist <= DISTCODES[k].max) <==> k == DistRowFor(dist)
    ensures dist < DISTCODES[k].min ==> DistRowFor(dist) < k
    ensures dist > DISTCODES[k].max ==> DistRowFor(dist) > k
  {
    hide DISTCODES, DistRowFor;
    DistRow(0);
    DistRow(k);
    var r := DistRowFor(dist);
    if r < k { DistRowsAscend(r, k); }
    if k < r { DistRowsAscend(k, r); }
  }

  lemma {:induction false} TokensBitsConcat(ts: seq<Token>, us: seq<Token>)
    ensures TokensBits(ts + us) == TokensBits(ts) + TokensBits(us)
  {
    hide TokenBits;
    if us == [] {
      assert ts + us == ts;
    } else {
      TokensBitsConcat(ts, us[..|us| - 1]);
      assert (ts + us)[..|ts + us| - 1] == ts + us[..|us| - 1];
    }
  }
}
