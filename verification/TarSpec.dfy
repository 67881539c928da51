/** What a packed archive consists of, how long it is, and what reading it comes to. */
module TarSpec {
  import opened Arithmetic
  import opened Bits
  import opened TarWrite
  import opened UntarSpec

  /** An entity to be packed: its name in the archive, and what it holds. */
  datatype Entity = Entity(path: seq<byte>, isDir: bool, content: seq<byte>, mtime: nat)

  /** The modes 040755 and 0100755, in octal. */
  const DIR_MODE := 16877
  const FILE_MODE := 33261

  /** stat_func. */
  function StatOf(e: Entity): Stat {
    if e.isDir then Stat(DIR_MODE, 0, e.mtime) else Stat(FILE_MODE, |e.content|, e.mtime)
  }

  /** The distance between neighbouring 32-bit floats at `n`, from 2^24 on. */
  function Ulp(n: nat): (u: nat)
    ensures u > 0
  {
    if n < 0x100_0000 then 1 else 2 * Ulp(n / 2)
  }

  /** The multiple of `u` nearest to `n`; a tie goes to the even one. */
  function Rounded(n: nat, u: nat): nat
    requires u > 0
  {
    var q, r := n / u, n % u;
    if 2 * r < u || (2 * r == u && q % 2 == 0) then q * u else (q + 1) * u
  }

  /** The float nearest to `n`. */
  function ToFloat(n: nat): nat { Rounded(n, Ulp(n)) }

  /** The number of body chunks written: ceil(float(size) / 512). */
  function Chunks(size: nat): nat { (ToFloat(size) + 511) / 512 }

  lemma {:induction false} UlpIs(n: nat, k: nat)
    requires n < 0x100_0000 * Pow2(k)
    ensures exists j :: 0 <= j <= k && Ulp(n) == Pow2(j)
  {
    if n < 0x100_0000 {
      assert Ulp(n) == Pow2(0);
    } else {
      assert k > 0;
      UlpIs(n / 2, k - 1);
      var j :| 0 <= j <= k - 1 && Ulp(n / 2) == Pow2(j);
      assert Ulp(n) == Pow2(j + 1);
    }
  }

  lemma UlpOfInt(n: nat)
    requires n < 0x8000_0000
    ensures Ulp(n) in {1, 2, 4, 8, 16, 32, 64, 128}
    ensures n < 0x100_0000 ==> Ulp(n) == 1
  {
    assert Pow2(0) == 1 && Pow2(1) == 2 && Pow2(2) == 4 && Pow2(3) == 8 && Pow2(4) == 16;
    assert Pow2(5) == 32 && Pow2(6) == 64 && Pow2(7) == 128;
    UlpIs(n, 7);
    hide Pow2, Ulp;
    var j :| 0 <= j <= 7 && Ulp(n) == Pow2(j);
    if j == 0 || j == 1 || j == 2 || j == 3 {
    } else {
      assert j == 4 || j == 5 || j == 6 || j == 7;
    }
  }

  lemma RoundedIs(n: nat, u: nat)
    requires u > 0
    ensures Rounded(n, u) == n / u * u || (Rounded(n, u) == n / u * u + u && n % u > 0)
  {
    NextMul(n / u, u);
  }

  /** Rounding to multiples of `u` never crosses a multiple of `m` times `u`. */
  lemma RoundedWithin(n: nat, u: nat, a: nat, b: nat)
    requires u > 0 && a * u <= n <= b * u
    ensures a * u <= Rounded(n, u) <= b * u
  {
    hide Rounded;
    var q := n / u;
    Quotient(n, u);
    RoundedIs(n, u);
    NextMul(a, u);
    NextMul(b, u);
    if q <= a - 1 { MulMono(q, a - 1, u); }
    if q >= b { MulMono(b, q, u); } else { MulMono(q, b - 1, u); }
    if a <= q { MulMono(a, q, u); }
  }

  lemma RoundedWithinBlocks(n: nat, u: nat)
    requires u in {1, 2, 4, 8, 16, 32, 64, 128}
    ensures 512 * (n / 512) <= Rounded(n, u) <= 512 * NumBlocks(n)
  {
    BlocksAround(n);
    hide NumBlocks, Rounded;
    var a, b := n / 512, NumBlocks(n);
    if u == 1 { RoundedWithin(n, 1, 512 * a, 512 * b); }
    else if u == 2 { RoundedWithin(n, 2, 256 * a, 256 * b); }
    else if u == 4 { RoundedWithin(n, 4, 128 * a, 128 * b); }
    else if u == 8 { RoundedWithin(n, 8, 64 * a, 64 * b); }
    else if u == 16 { RoundedWithin(n, 16, 32 * a, 32 * b); }
    else if u == 32 { RoundedWithin(n, 32, 16 * a, 16 * b); }
    else if u == 64 { RoundedWithin(n, 64, 8 * a, 8 * b); }
    else { RoundedWithin(n, 128, 4 * a, 4 * b); }
  }

  lemma RoundedToOne(n: nat)
    ensures Rounded(n, 1) == n
  {}

  /** The float loses the last chunk of a file exactly when it rounds the size down to a
      multiple of 512; it never does so up to 16 MiB. */
  lemma ChunksRight(size: nat)
    requires size < 0x8000_0000
    ensures size / 512 <= Chunks(size) <= NumBlocks(size)
    ensures Chunks(size) == NumBlocks(size) <==> size % 512 == 0 || ToFloat(size) != size / 512 * 512
    ensures size <= 0x100_0000 ==> Chunks(size) == NumBlocks(size)
  {
    hide Ulp, Rounded, NumBlocks;
    UlpOfInt(size);
    RoundedWithinBlocks(size, Ulp(size));
    RoundedToOne(size);
    Two24();
    BlocksAround(size);
  }

  lemma Two24()
    ensures ToFloat(0x100_0000) == 0x100_0000
  {
    assert Ulp(0x80_0000) == 1 && Ulp(0x100_0000) == 2;
  }

  lemma ChunkLost()
    ensures Chunks(0x100_0001) == NumBlocks(0x100_0001) - 1
  {
    assert Ulp(0x80_0000) == 1 && Ulp(0x100_0001) == 2;
  }

  /** Some sizes as floats: exact up to 2^24, then to the nearest of every second number, in
      doubt the one that is a multiple of four; and so on. */
  lemma SomeFloats()
    ensures ToFloat(0xFF_FFFF) == 0xFF_FFFF && ToFloat(0x100_0001) == 0x100_0000 && ToFloat(0x100_0003) == 0x100_0004
    ensures ToFloat(0x200_0003) == 0x200_0004 && ToFloat(0x7FFF_FFFF) == 0x8000_0000
  {
    assert Ulp(0x80_0000) == 1 && Ulp(0x80_0001) == 1 && Ulp(0xFF_FFFF) == 1;
    assert Ulp(0x100_0001) == 2 && Ulp(0x100_0003) == 2 && Ulp(0x200_0003) == 4;
    assert Ulp(0x1FF_FFFF) == 2 && Ulp(0x3FF_FFFF) == 4 && Ulp(0x7FF_FFFF) == 8 && Ulp(0xFFF_FFFF) == 16;
    assert Ulp(0x1FFF_FFFF) == 32 && Ulp(0x3FFF_FFFF) == 64 && Ulp(0x7FFF_FFFF) == 128;
  }

  /** Chunk `c` of a file, filled up with zeros. */
  function Chunk(content: seq<byte>, c: nat): (b: seq<byte>)
    ensures |b| == 512
  {
    if 512 * c + 512 <= |content| then content[512 * c..512 * c + 512]
    else if 512 * c <= |content| then content[512 * c..] + Zeros(512 - (|content| - 512 * c))
    else Zeros(512)
  }

  /** The first `n` chunks. */
  function Body(content: seq<byte>, n: nat): (b: seq<Block>)
    ensures |b| == n
  {
    if n == 0 then [] else Body(content, n - 1) + [Chunk(content, n - 1)]
  }

  /** The blocks of an entity as it is packed. */
  function EntityBlocks(e: Entity): (b: seq<Block>)
    requires e.path != []
    ensures |b| == 1 + Chunks(|e.content|)
  {
    [HeaderBytes(e.path, StatOf(e))] + Body(e.content, Chunks(|e.content|))
  }

  predicate Packable(e: Entity) {
    e.path != [] && |e.content| < 0x8000_0000 && (e.isDir ==> e.content == [])
  }

  predicate AllPackable(es: seq<Entity>) {
    forall i | 0 <= i < |es| :: Packable(es[i])
  }

  function EntitiesBlocks(es: seq<Entity>): seq<Block>
    requires AllPackable(es)
  {
    if es == [] then [] else EntitiesBlocks(es[..|es| - 1]) + EntityBlocks(es[|es| - 1])
  }

  function ZeroBlock(): Block { Zeros(512) }

  /** The archive: the entities and two blocks of zeros. */
  function TarBlocks(es: seq<Entity>): seq<Block>
    requires AllPackable(es)
  {
    EntitiesBlocks(es) + [ZeroBlock(), ZeroBlock()]
  }

  /** Blocks as bytes. */
  function Flat(blocks: seq<Block>): (b: seq<byte>)
    ensures |b| == 512 * |blocks|
  {
    if blocks == [] then [] else Flat(blocks[..|blocks| - 1]) + blocks[|blocks| - 1]
  }

  lemma {:induction false} FlatBlocks(blocks: seq<Block>)
    ensures BlocksOf(Flat(blocks)) == blocks
  {
    if blocks == [] {
    } else {
      var n := |blocks| - 1;
      FlatBlocks(blocks[..n]);
      var f, g := Flat(blocks), Flat(blocks[..n]);
      assert |f| / 512 == n + 1 && |g| / 512 == n;
      forall i: nat | i < n ensures BlocksOf(f)[i] == blocks[i] {
        assert BlocksOf(g)[i] == blocks[i];
        assert f[512 * i..512 * i + 512] == g[512 * i..512 * i + 512];
      }
      assert BlocksOf(f)[n] == blocks[n];
    }
  }

  /** The size that pack_tar_init predicts. */
  function EntityEstimate(e: Entity): nat {
    512 + if |e.content| > 0 then
            |e.content| + if |e.content| % 512 != 0 then 512 - |e.content| % 512 else 0
          else 0
  }

  function Estimate(es: seq<Entity>): nat {
    if es == [] then 1024 else Estimate(es[..|es| - 1]) + EntityEstimate(es[|es| - 1])
  }

  lemma EntityEstimateIs(e: Entity)
    ensures EntityEstimate(e) == 512 * (1 + NumBlocks(|e.content|))
  {
    BlocksAround(|e.content|);
    hide NumBlocks;
  }

  predicate AllChunks(es: seq<Entity>) {
    forall i | 0 <= i < |es| :: Chunks(|es[i].content|) == NumBlocks(|es[i].content|)
  }

  /** The prediction is right if and only if no file loses its last chunk. */
  lemma {:induction false} EstimateIs(es: seq<Entity>)
    requires AllPackable(es)
    ensures 512 * |TarBlocks(es)| <= Estimate(es)
    ensures 512 * |TarBlocks(es)| == Estimate(es) <==> AllChunks(es)
  {
    hide NumBlocks, Body, HeaderBytes, Chunks, EntityBlocks, EntityEstimate;
    if es == [] {
    } else {
      var e := es[|es| - 1];
      EstimateIs(es[..|es| - 1]);
      EntityEstimateIs(e);
      ChunksRight(|e.content|);
    }
  }
}
