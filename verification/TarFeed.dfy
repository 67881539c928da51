/** Extraction driven by gz decompression: every full gz buffer is pushed through the step
    machine (gzProcessTarBuffer, with gzFeedTarBuffer as the read callback). */
module TarFeed {
  import opened Bits
  import opened TarHeader
  import opened Untar
  import opened UntarSame
  import opened UntarSpec

  class TarGzUnpacker {
    const untar: Extractor
    var firstBlock: bool
    var lastBlock: bool

    constructor (untar: Extractor)
      ensures this.untar == untar && firstBlock && !lastBlock
    {
      this.untar, firstBlock, lastBlock := untar, true, false;
    }

    /** Ready for the next buffer: the blocks of all buffers so far have been read, and what
        is still to come leads to the goal. */
    ghost predicate Fed()
      reads this, untar, untar.reader, untar.readBuffer
    {
      && untar.reader.blockmod > 0 && untar.Ready()
      && (firstBlock ==> !lastBlock)
      && (!firstBlock ==> untar.Stepping())
      && (if lastBlock then !untar.active && untar.goal.status == Complete
          else if !firstBlock then untar.active || untar.goal.status.Failed? else true)
    }

    /** What the function statics are left as: with a buffer used up and more to come, one of
        them says that its last block waits to be used, and with nothing left over from before
        just one; at the end of the archive or after an error they are as after `Drive`. */
    ghost predicate Statics()
      reads untar
    {
      && (untar.active ==> untar.Holding() && (untar.readStep == untar.blockRead ==> untar.Lingers()))
      && (!untar.active ==>
            && !untar.readStep
            && (untar.blockRead <==> untar.goal.status == Failed(TAR_ERR_DATACB_FAIL) || untar.Lingers()))
    }

    /** The next buffer holds the next blocks of the stream. */
    ghost predicate Continues(buff: seq<byte>)
      reads untar.reader
    {
      var r, n := untar.reader, untar.reader.blockmod;
      && |BlocksOf(buff)| >= n && r.next + n <= |r.blocks| && r.blocks[r.next..r.next + n] == BlocksOf(buff)[..n]
    }

    /** Points the read callback at the start of a new buffer. */
    method Load(buff: seq<byte>)
      requires Fed() && Continues(buff)
      modifies untar.reader`data, untar.reader`pos
      ensures Fed() && untar.reader.pos == 0 && untar.reader.data == buff
    {
      hide Begun, DataBlocks, StaleData, NumBlocks, BlocksOf, NoData;
      untar.reader.data := buff;
      untar.reader.pos := 0;
      assert BlocksOf(buff)[0..untar.reader.blockmod] == BlocksOf(buff)[..untar.reader.blockmod];
    }

    /** gzProcessTarBuffer: steps until the buffer is used up, or the archive ends, or an error. */
    method ProcessTarBuffer(buff: seq<byte>, memory: seq<byte>) returns (ok: bool)
      requires Fed() && (!lastBlock ==> Continues(buff)) && |memory| == TAR_BLOCK_SIZE + 1
      modifies this, untar, untar.reader`data, untar.reader`pos, untar.reader`next, untar.readBuffer
      ensures old(lastBlock) ==> ok && lastBlock && untar.log == old(untar.log)
      ensures ok ==> Fed() && !firstBlock
      ensures if old(lastBlock) then Statics() == old(Statics()) else Statics()
      ensures ok && !lastBlock ==> untar.reader.next == old(untar.reader.next) + untar.reader.blockmod
      ensures !ok ==> !untar.active && untar.Stepping() && untar.goal.status.Failed? && untar.log == untar.goal.log
      ensures untar.goal == if old(firstBlock) then old(untar.ToDo(memory)) else old(untar.goal)
      ensures untar.stale == if old(firstBlock) then old(untar.blockRead) else old(untar.stale)
    {
      hide BlocksOf, Extractor.Rest, Begun, BlockReader.Valid, NumBlocks, Extractor.Held, NoData;
      if lastBlock {
        return true;
      }
      Load(buff);
      if firstBlock {
        untar.TarSetup(memory);
        firstBlock := false;
      }
      ok := Pump();
    }

    /** The loop of gzProcessTarBuffer. Since a step reads at most one block, it never runs
        past the end of the buffer. */
    method Pump() returns (ok: bool)
      requires Fed() && !firstBlock && !lastBlock && untar.reader.pos == 0
      requires untar.active || untar.goal.status.Failed?
      modifies this`lastBlock, untar, untar.reader`pos, untar.reader`next, untar.readBuffer
      ensures untar.goal == old(untar.goal) && untar.stale == old(untar.stale) && untar.Stepping() && Statics()
      ensures ok ==> Fed()
      ensures ok && !lastBlock ==> untar.reader.next == old(untar.reader.next) + untar.reader.blockmod
      ensures !ok ==> !untar.active && untar.goal.status.Failed? && untar.log == untar.goal.log
    {
      hide Extractor.Rest, BlockReader.Valid, NumBlocks, BlocksOf, Extractor.Lingers, NoData;
      var blockmod := untar.reader.blockmod;
      while untar.reader.pos < blockmod
        invariant untar.Stepping() && untar.goal == old(untar.goal) && untar.stale == old(untar.stale) && !lastBlock
        invariant untar.reader.pos <= blockmod && untar.reader.next == old(untar.reader.next) + untar.reader.pos
        invariant untar.active || untar.goal.status.Failed?
        invariant untar.reader.pos == blockmod ==> untar.active && untar.Holding()
        decreases untar.active, blockmod - untar.reader.pos, untar.Rank()
      {
        var response := untar.ReadTarStep();
        if response == TAR_EXPANDING_DONE {
          lastBlock := true;
          return true;
        }
        if untar.reader.pos > blockmod {
          return false;
        }
        if response < 0 {
          return false;
        }
      }
      ok := true;
    }

    /** What follows a complete archive is only known when it is there. */
    ghost method Extend(longer: seq<Block>)
      requires Fed() && untar.reader.blocks <= longer
      requires firstBlock || (untar.goal.status == Complete && !untar.stale)
      modifies untar.reader`blocks
      ensures Fed() && untar.reader.blocks == longer
    {
      hide Begun, DataBlocks, StaleData, NumBlocks, BlocksOf, NoData;
      var j, k := untar.J(false), Job(longer, false, untar.failing);
      RestPrefix(j, k, untar.At(), untar.header, untar.numBlocksIterator, untar.Buffered(), untar.readStep);
      untar.reader.blocks := longer;
    }

    /** Once all buffers have been pushed, all calls of a complete archive have been made. */
    lemma AllCallsMade()
      requires Fed() && !firstBlock && untar.goal.status == Complete
      requires lastBlock || untar.reader.next == |untar.reader.blocks|
      ensures untar.log == untar.goal.log
    {
      hide Begun, DataBlocks, StaleData, BlockReader.Valid, NumBlocks, NoData;
      if untar.active {
        NothingLeft(untar.J(false), untar.At(), untar.header, untar.numBlocksIterator, untar.Buffered(),
                    untar.readStep, untar.blockRead);
      }
    }

    /** Pushes the output of gz decompression, buffer after buffer. */
    method FeedAll(buffers: seq<seq<byte>>, memory: seq<byte>) returns (ok: bool)
      requires Fed() && firstBlock && untar.reader.next == 0 && buffers != [] && |memory| == TAR_BLOCK_SIZE + 1
      requires forall b <- buffers :: |BlocksOf(b)| >= untar.reader.blockmod
      requires untar.reader.blocks == Stream(buffers, untar.reader.blockmod)
      modifies this, untar, untar.reader`data, untar.reader`pos, untar.reader`next, untar.readBuffer
      ensures untar.goal == old(untar.ToDo(memory))
      ensures !ok ==> untar.goal.status.Failed? && untar.log == untar.goal.log
      ensures Statics()
      ensures ok && untar.goal.status == Complete ==> untar.log == untar.goal.log
    {
      hide Extractor.Stepping, BlocksOf, Begun, Stream, Statics;
      var n := untar.reader.blockmod;
      ghost var goal := untar.ToDo(memory);
      NoBuffers(buffers, n);
      for i := 0 to |buffers|
        invariant Fed() && firstBlock == (i == 0)
        invariant i > 0 ==> untar.goal == goal
        invariant i == 0 ==> untar.log == old(untar.log) && untar.reader.next == 0
        invariant i == 0 ==> untar.readStep == old(untar.readStep) && untar.blockRead == old(untar.blockRead)
        invariant i > 0 ==> Statics()
        invariant lastBlock || untar.reader.next == |Stream(buffers[..i], n)|
      {
        NextBuffer(buffers, n, i);
        ok := ProcessTarBuffer(buffers[i], memory);
        if !ok {
          return;
        }
      }
      assert buffers[..|buffers|] == buffers;
      if untar.goal.status == Complete {
        AllCallsMade();
      }
      ok := true;
    }
  }

  /** The blocks of all buffers, `n` in each. */
  function Stream(buffers: seq<seq<byte>>, n: nat): (s: seq<Block>)
    requires forall b <- buffers :: |BlocksOf(b)| >= n
  {
    if buffers == [] then []
    else Stream(buffers[..|buffers| - 1], n) + BlocksOf(buffers[|buffers| - 1])[..n]
  }

  lemma NoBuffers(buffers: seq<seq<byte>>, n: nat)
    requires forall b <- buffers :: |BlocksOf(b)| >= n
    ensures Stream(buffers[..0], n) == []
  {}

  lemma {:induction false} StreamPrefix(buffers: seq<seq<byte>>, n: nat, i: nat)
    requires i <= |buffers| && forall b <- buffers :: |BlocksOf(b)| >= n
    ensures Stream(buffers[..i], n) <= Stream(buffers, n)
    decreases |buffers| - i
  {
    if i == |buffers| {
      assert buffers[..i] == buffers;
    } else {
      StreamPrefix(buffers, n, i + 1);
      assert buffers[..i + 1][..i] == buffers[..i];
    }
  }

  lemma NextBuffer(buffers: seq<seq<byte>>, n: nat, i: nat)
    requires i < |buffers| && forall b <- buffers :: |BlocksOf(b)| >= n
    ensures var k := |Stream(buffers[..i], n)|;
      && k + n <= |Stream(buffers, n)| && Stream(buffers, n)[k..k + n] == BlocksOf(buffers[i])[..n]
      && |Stream(buffers[..i + 1], n)| == k + n
  {
    hide BlocksOf;
    StreamPrefix(buffers, n, i + 1);
    assert buffers[..i + 1][..i] == buffers[..i];
    var s, k := Stream(buffers, n), |Stream(buffers[..i], n)|;
    assert s[..k + n] == Stream(buffers[..i], n) + BlocksOf(buffers[i])[..n];
    assert s[k..k + n] == s[..k + n][k..];
  }

  lemma SomeBlocks(b: seq<byte>, n: nat)
    requires |b| == 512 * n
    ensures |BlocksOf(b)| == n
  {}

  /** Cutting data at a block. */
  lemma BlocksCut(out: seq<byte>, k: nat)
    requires 512 * k <= |out|
    ensures |BlocksOf(out[..512 * k])| == k
    ensures BlocksOf(out) == BlocksOf(out[..512 * k]) + BlocksOf(out[512 * k..])
  {
    var first, rest := out[..512 * k], out[512 * k..];
    assert |BlocksOf(first)| == k && |BlocksOf(out)| == k + |BlocksOf(rest)|;
    forall i | 0 <= i < |BlocksOf(out)| ensures BlocksOf(out)[i] == (BlocksOf(first) + BlocksOf(rest))[i] {
      if i < k {
        assert first[512 * i..512 * i + 512] == out[512 * i..512 * i + 512];
      } else {
        assert rest[512 * (i - k)..512 * (i - k) + 512] == out[512 * i..512 * i + 512];
      }
    }
  }

  /** Pushing an archive, whatever is left in the last buffer after its end, makes the calls
      that reading it in a loop does. */
  lemma PushedLikeLoop(archive: seq<Block>, stream: seq<Block>, failing: nat)
    requires archive <= stream
    ensures var p := Place(0, 0, 0, []);
      var r, s := Entries(Job(archive, true, failing), p), Entries(Job(stream, false, failing), p);
      r.status == Complete ==>
        s.status == Complete && s.used == r.used && Calls(s.log) == Calls(r.log)
        && (s.log == r.log <==> !EntryAfterEmpty(archive, 0, 0))
  {
    hide Entries, EntryAfterEmpty, Calls;
    var p := Place(0, 0, 0, []);
    StepsRefineLoop(archive, failing);
    if Entries(Job(archive, true, failing), p).status == Complete {
      CompletePrefix(Job(archive, false, failing), Job(stream, false, failing), p);
    }
  }
}
