/** The packer: entities are written block by block to a stream, which may compress them. */
module TarPack {
  import opened Arithmetic
  import opened Bits
  import opened StreamWriter
  import opened TarSpec
  import opened TarWrite
  import opened UntarSpec

  /** Where blocks are written to: a plain stream, or one that compresses them. */
  class TarOutput {
    const gz: LZStreamWriter?
    /** The blocks that were accepted. */
    var blocks: seq<Block>

    constructor (gz: LZStreamWriter?)
      ensures this.gz == gz && blocks == []
    {
      this.gz, blocks := gz, [];
    }

    /** All that a write may change besides `blocks`. */
    ghost function Parts(): (s: set<object>)
      reads gz, if gz == null then {} else {gz.uzstream, gz.uzstream.ctx}
    {
      if gz == null then {}
      else {gz as LZStreamWriter, gz.inputBuffer, gz.uzstream, gz.uzstream.ctx, gz.uzstream.ctx.outbuf,
        gz.uzstream.ctx.hashTable, gz.uzstream.out}
    }

    /** The compressor, if there is one, expects more blocks. */
    ghost predicate Going()
      reads this, Parts()
    {
      gz != null ==>
        (gz.Healthy() || gz.Doomed()) && gz.received == Flat(blocks) && gz.bufSize % 512 == 0
    }

    /** The compressor has stopped before the end. */
    ghost predicate Dead()
      reads this, gz
    {
      gz != null && !gz.inLoop && gz.Unfinished()
    }

    /** The compressor has all it expected. */
    ghost predicate Over()
      reads this, gz
    {
      gz != null ==>
        && gz.received == Flat(blocks) && |gz.received| == gz.srcLen
        && ((gz.fits && gz.Finished()) || gz.Unfinished())
    }

    /** writefunc: 512 if the block was accepted, -1 if not. */
    method Write(b: Block) returns (n: int)
      requires Going() || Dead()
      requires gz != null && !Dead() ==> 512 * (|blocks| + 1) <= gz.srcLen
      modifies this, Parts()
      ensures n == 512 || n == -1
      ensures fresh(Parts() - old(Parts()))
      ensures n == 512 ==> blocks == old(blocks) + [b]
      ensures n == 512 ==> if gz != null && 512 * |blocks| == old(gz.srcLen) then Over() else Going()
      ensures n == -1 ==> Dead() && blocks == old(blocks)
      ensures old(Dead()) ==> n == -1
      ensures gz != null && n == 512 && 512 * |blocks| < old(gz.srcLen) ==> gz.srcLen == old(gz.srcLen)
    {
      hide LZStreamWriter.Healthy, LZStreamWriter.Doomed, LZStreamWriter.Finished, LZStreamWriter.Outcome,
        LZStreamWriter.Unfinished,
        Flat, Slot;
      n := 512;
      if gz != null {
        n := Compress(b);
      }
      if n == 512 {
        FlatSnoc(blocks, b);
        blocks := blocks + [b];
      }
    }

    /** One block for the compressor. */
    method Compress(b: Block) returns (n: int)
      requires gz != null && (Going() || Dead()) && (!Dead() ==> 512 * (|blocks| + 1) <= gz.srcLen)
      modifies gz, gz.inputBuffer, gz.uzstream, gz.uzstream.ctx, gz.uzstream.ctx.outbuf, gz.uzstream.ctx.hashTable,
        gz.uzstream.out
      ensures n == 512 || n == -1
      ensures fresh(Parts() - old(Parts()))
      ensures n == 512 ==> gz.received == Flat(blocks) + b && gz.srcLen == old(gz.srcLen)
      ensures n == 512 ==>
        if |gz.received| < gz.srcLen then (gz.Healthy() || gz.Doomed()) && gz.bufSize % 512 == 0
        else |gz.received| == gz.srcLen && ((gz.fits && gz.Finished()) || gz.Unfinished())
      ensures n == -1 ==> Dead()
      ensures old(Dead()) ==> n == -1
    {
      hide LZStreamWriter.Healthy, LZStreamWriter.Doomed, LZStreamWriter.Finished, LZStreamWriter.Outcome, Flat, Slot;
      ghost var going, cs, expected, healthy := Going(), gz.cs, gz.srcLen, gz.Healthy();
      if gz.Healthy() || gz.Doomed() {
        gz.AliveGives();
        if going { BlockFits(|blocks|, gz.bufSize); }
      }
      ghost var c;
      n, c := gz.Write(b);
      if going && healthy && |gz.received| <= expected && gz.Outcome(cs, expected, c, n, 512) {
        gz.OutcomeGives(cs, expected, c, n, 512);
      }
    }
  }

  /** The header of an entity, built in a cleared header buffer. */
  method MakeHeader(e: Entity) returns (b: Block)
    requires Packable(e)
    ensures b == HeaderBytes(e.path, StatOf(e))
  {
    hide HeaderBytes;
    ModeBound(e);
    var tar := new Tar();
    tar.SetHeader(e.path, StatOf(e));
    b := tar.thBuf[..];
  }

  /** `memset` and `readfunc`: what is left of a file at chunk `c`, up to a block. */
  method ReadChunk(content: seq<byte>, c: nat) returns (b: Block)
    requires 512 * c < |content|
    ensures b == Chunk(content, c)
  {
    var blockBuf := new byte[512];
    for i := 0 to 512
      invariant forall k | 0 <= k < i :: blockBuf[k] == 0
    {
      blockBuf[i] := 0;
    }
    var readBytes := if |content| - 512 * c < 512 then |content| - 512 * c else 512;
    for i := 0 to readBytes
      invariant forall k | 0 <= k < i :: blockBuf[k] == content[512 * c + k]
      invariant forall k | i <= k < 512 :: blockBuf[k] == 0
    {
      blockBuf[i] := content[512 * c + i];
    }
    b := blockBuf[..];
  }

  /** The output has come to the blocks `done` and can take more. */
  ghost predicate Come(out: TarOutput, done: seq<Block>, expected: nat)
    reads out, out.Parts()
  {
    out.blocks == done && out.Going() && (out.gz != null ==> out.gz.srcLen == expected)
  }

  /** One block for the output. */
  method WriteBlock(out: TarOutput, b: Block, ghost done: seq<Block>, ghost expected: nat) returns (n: int)
    requires Come(out, done, expected) && 512 * (|done| + 1) < expected
    modifies out, out.Parts()
    ensures n == 512 || n == -1
    ensures fresh(out.Parts() - old(out.Parts()))
    ensures n == 512 ==> Come(out, done + [b], expected)
    ensures n == -1 ==> out.Dead()
  {
    hide LZStreamWriter.Healthy, LZStreamWriter.Doomed, LZStreamWriter.Unfinished, LZStreamWriter.Finished, Flat;
    if out.gz != null && (out.gz.Healthy() || out.gz.Doomed()) { out.gz.AliveGives(); }
    n := out.Write(b);
  }

  /** The body chunks of one file. */
  method AddBody(out: TarOutput, content: seq<byte>, ghost done: seq<Block>, ghost expected: nat) returns (total: int)
    requires 0 < |content| < 0x8000_0000
    requires Come(out, done, expected) && 512 * (|done| + Chunks(|content|)) < expected
    modifies out, out.Parts()
    ensures total == -1 || total == 512 * Chunks(|content|)
    ensures fresh(out.Parts() - old(out.Parts()))
    ensures total != -1 ==> Come(out, done + Body(content, Chunks(|content|)), expected)
    ensures total == -1 ==> out.Dead()
  {
    hide TarOutput.Going, Chunk, ToFloat, TarOutput.Dead;
    var chunks := Chunks(|content|);
    ChunksRight(|content|);
    BlocksAround(|content|);
    total := 0;
    assert done + [] == done;
    for c := 0 to chunks
      invariant Come(out, done + Body(content, c), expected) && total == 512 * c
      invariant fresh(out.Parts() - old(out.Parts()))
    {
      var b := ReadChunk(content, c);
      var n := WriteBlock(out, b, done + Body(content, c), expected);
      if n == -1 {
        return -1;
      }
      Assoc(done, Body(content, c), [b]);
      total := total + n;
    }
  }

  /** A header and a body: 512 times the blocks written, or -1. */
  method AddEntity(out: TarOutput, e: Entity, ghost done: seq<Block>, ghost expected: nat) returns (total: int)
    requires Packable(e) && Come(out, done, expected) && 512 * (|done| + |EntityBlocks(e)|) < expected
    modifies out, out.Parts()
    ensures total == -1 || total == 512 * |EntityBlocks(e)|
    ensures fresh(out.Parts() - old(out.Parts()))
    ensures total != -1 ==> Come(out, done + EntityBlocks(e), expected)
    ensures total == -1 ==> out.Dead()
  {
    hide TarOutput.Going, HeaderBytes, ToFloat, TarOutput.Dead, Body, Come;
    var b := MakeHeader(e);
    NoChunks();
    total := WriteBlock(out, b, done, expected);
    if total == -1 {
      return;
    }
    if |e.content| > 0 {
      Assoc(done, [b], Body(e.content, Chunks(|e.content|)));
      var n := AddBody(out, e.content, done + [b], expected);
      if n == -1 {
        return -1;
      }
      total := total + n;
    }
  }

  lemma NoChunks()
    ensures Chunks(0) == 0 && forall s: seq<Block> :: s + [] == s
    ensures forall c: seq<byte> :: Body(c, 0) == []
  {
    assert Ulp(0) == 1;
  }

  lemma {:induction false} EntitiesPrefix(es: seq<Entity>, i: nat)
    requires AllPackable(es) && i <= |es|
    ensures |EntitiesBlocks(es[..i])| <= |EntitiesBlocks(es)|
    ensures i < |es| ==> EntitiesBlocks(es[..i + 1]) == EntitiesBlocks(es[..i]) + EntityBlocks(es[i])
    decreases |es| - i
  {
    hide EntityBlocks, Packable;
    if i == |es| {
      assert es[..i] == es;
    } else {
      EntitiesPrefix(es, i + 1);
      assert es[..i + 1][..i] == es[..i];
    }
  }

  /** pack_tar_impl for the entities that pack_tar_init was given: the number of bytes
      written. A compressor that expects the predicted size comes to its end with the last
      block, unless a file lost its last chunk. */
  method PackTar(out: TarOutput, es: seq<Entity>) returns (total: int)
    requires AllPackable(es) && Come(out, [], Estimate(es))
    modifies out, out.Parts()
    ensures out.Dead() || (out.blocks == TarBlocks(es) && total == 512 * |TarBlocks(es)|)
    ensures !out.Dead() ==> if AllChunks(es) then out.Over() else out.Going()
    ensures total != 0
  {
    hide TarOutput.Going, TarOutput.Dead, EntitiesBlocks, EntityBlocks, Estimate, Packable, AllChunks, Flat,
      LZStreamWriter.Finished, LZStreamWriter.Unfinished;
    EstimateIs(es);
    ghost var expected := Estimate(es);
    total := 0;
    EntitiesPrefix(es, 0);
    assert EntitiesBlocks(es[..0]) == [] by { NoEntities(es); }
    for i := 0 to |es|
      invariant Come(out, EntitiesBlocks(es[..i]), expected) && total == 512 * |EntitiesBlocks(es[..i])|
      invariant fresh(out.Parts() - old(out.Parts()))
    {
      EntitiesPrefix(es, i);
      EntitiesPrefix(es, i + 1);
      var n := AddEntity(out, es[i], EntitiesBlocks(es[..i]), expected);
      if n == -1 {
        return -1;
      }
      total := total + n;
    }
    assert es[..|es|] == es;
    var n := WriteBlock(out, ZeroBlock(), EntitiesBlocks(es), expected);
    total := total + n;
    n := out.Write(ZeroBlock());
    total := total + n;
    Assoc(EntitiesBlocks(es), [ZeroBlock()], [ZeroBlock()]);
  }

  lemma NoEntities(es: seq<Entity>)
    requires AllPackable(es)
    ensures EntitiesBlocks(es[..0]) == []
  {}

  lemma ModeBound(e: Entity)
    ensures StatOf(e).mode < Pow8(6)
  {
    Powers();
  }

  lemma FlatSnoc(blocks: seq<Block>, b: Block)
    ensures Flat(blocks + [b]) == Flat(blocks) + b
  {
    assert (blocks + [b])[..|blocks|] == blocks;
  }

  /** A block never overruns a buffer of whole blocks. */
  lemma BlockFits(k: nat, m: nat)
    requires m > 0 && m % 512 == 0
    ensures Slot(512 * k, m) + 512 <= m
  {
    var q, j := 512 * k / m, m / 512;
    assert m == 512 * j;
    Quotient(512 * k, m);
    assert q * m == 512 * (q * j);
  }
}
