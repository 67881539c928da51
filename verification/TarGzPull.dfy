/** Extraction of a compressed archive that pulls its blocks from the inflater. */
module TarGzPull {
  import opened Bits
  import Chunked
  import GzHeader
  import Gzip
  import opened GzPack
  import opened GzUnpack
  import Inflate
  import TarGz
  import opened TarHeader
  import opened TarPull
  import opened TarRoundTrip
  import opened TarSpec
  import opened Untar
  import opened UntarSpec

  /** The first `k` blocks have been pulled from the inflater, and the extractor, on the way to
      its goal, has read some of them; unless the stream has ended inflation can go on from `s`. */
  ghost predicate Pulling(g: TarGzReader, untar: Extractor, buff: array<byte>, dst: seq<byte>, blocks: seq<Block>,
                          prefill: seq<byte>, k: nat, s: Inflate.State, ended: bool)
    reads g.z, g.z.d, g.z.d.ring, g.z.d.ring.ring,
          g.z.d.ltree, g.z.d.ltree.table, g.z.d.ltree.trans, g.z.d.dtree, g.z.d.dtree.table, g.z.d.dtree.trans,
          untar.reader
  {
    var reader := untar.reader;
    && g.z.d.source == dst && reader.blockmod == 0 && reader.blocks == blocks && k <= |blocks|
    && reader.data == Flat(blocks[..k]) && reader.pos == reader.next <= k
    && (if ended then k == |blocks| else g.At(s, buff) && SoFar(dst, blocks, g.z.d.W(), prefill, k, s, reader.data))
  }

  ghost predicate Separate(g: TarGzReader, untar: Extractor, buff: array<byte>) {
    var b: object := untar.readBuffer;
    && b != g.z.d.ring.ring && b != g.z.d.ltree.table && b != g.z.d.ltree.trans && b != g.z.d.dtree.table
    && b != g.z.d.dtree.trans && b != buff
  }

  /** tarReadGzStream for the next block, when all before have been read. */
  method Fetch(g: TarGzReader, untar: Extractor, buff: array<byte>, ghost dst: seq<byte>, ghost blocks: seq<Block>,
               ghost cs: seq<Chunked.Chunk>, ghost prefill: seq<byte>, ghost k: nat, ghost s: Inflate.State)
    returns (ended: bool, ghost m: nat, ghost v: Inflate.State)
    requires Member(dst, Flat(blocks), cs) && Suits(g.z.d.W(), prefill) && Separate(g, untar, buff)
    requires buff.Length >= TAR_BLOCK_SIZE && untar.reader.next == k
    requires Pulling(g, untar, buff, dst, blocks, prefill, k, s, false)
    modifies g, g.z`checksum, g.z.d, buff, g.z.d.ring, g.z.d.ring.ring, g.z.d.ltree.table, g.z.d.ltree.trans,
             g.z.d.dtree.table, g.z.d.dtree.trans, untar.reader`data
    ensures Pulling(g, untar, buff, dst, blocks, prefill, m, v, ended) && m == k + if ended then 0 else 1
  {
    hide Member, Flat, TarGzReader.At, SoFar, Inflate.Run, BytesBits, Gzip.Updated;
    PullNext(dst, blocks, cs, g.z.d.W(), prefill, k, s, untar.reader.data);
    FlatNext(blocks, k);
    var n;
    n, v := g.TarReadGzStream(buff, TAR_BLOCK_SIZE, s);
    ended, m := n < TAR_BLOCK_SIZE, k;
    if !ended {
      untar.reader.data := untar.reader.data + buff[..n];
      m := k + 1;
    }
  }

  /** The blocks pulled are those the extractor is to read. */
  lemma StreamValid(reader: BlockReader, blocks: seq<Block>, k: nat)
    requires reader.pos == reader.next <= k <= |blocks|
    requires reader.blockmod == 0 && reader.blocks == blocks && reader.data == Flat(blocks[..k])
    ensures reader.Valid() && reader.Held() == k
  {
    hide BlocksOf, Flat;
    FlatBlocks(blocks[..k]);
    assert blocks[reader.next..k] == blocks[..k][reader.pos..k];
  }

  /** Fetching a block does not touch the extraction. */
  method FetchNext(g: TarGzReader, untar: Extractor, buff: array<byte>, ghost dst: seq<byte>, ghost blocks: seq<Block>,
                   ghost cs: seq<Chunked.Chunk>, ghost prefill: seq<byte>, ghost k: nat, ghost s: Inflate.State)
    returns (ended: bool, ghost m: nat, ghost v: Inflate.State)
    requires Member(dst, Flat(blocks), cs) && Suits(g.z.d.W(), prefill) && Separate(g, untar, buff)
    requires buff.Length >= TAR_BLOCK_SIZE && untar.reader.next == k && untar.Stepping()
    requires Pulling(g, untar, buff, dst, blocks, prefill, k, s, false)
    modifies g, g.z`checksum, g.z.d, buff, g.z.d.ring, g.z.d.ring.ring, g.z.d.ltree.table, g.z.d.ltree.trans,
             g.z.d.dtree.table, g.z.d.dtree.trans, untar.reader`data
    ensures Pulling(g, untar, buff, dst, blocks, prefill, m, v, ended) && untar.Stepping() && untar.reader.MayRead()
    ensures m == k + if ended then 0 else 1
  {
    hide Member, Flat, TarGzReader.At, SoFar, BlockReader.Valid, Begun, DataBlocks, StaleData, NumBlocks, NoData,
      BlocksOf;
    ended, m, v := Fetch(g, untar, buff, dst, blocks, cs, prefill, k, s);
    StreamValid(untar.reader, blocks, m);
  }

  /** A step of the extraction leaves the inflater alone. */
  method StepPulled(g: TarGzReader, untar: Extractor, buff: array<byte>, ghost dst: seq<byte>, ghost blocks: seq<Block>,
                    ghost prefill: seq<byte>, ghost k: nat, ghost s: Inflate.State, ghost ended: bool)
    returns (res: int)
    requires Separate(g, untar, buff) && untar.Stepping() && untar.active && untar.reader.MayRead()
    requires Pulling(g, untar, buff, dst, blocks, prefill, k, s, ended)
    modifies untar`log, untar`currentDataSize, untar`receivedBytes, untar`numBlocksIterator, untar`active,
             untar`tarError, untar`inDataBlock, untar`blockRead, untar`entryIndex, untar`emptyCount, untar`header,
             untar`numBlocks, untar`readStep, untar.reader`pos, untar.reader`next, untar.readBuffer
    ensures Pulling(g, untar, buff, dst, blocks, prefill, k, s, ended) && untar.Stepping()
    ensures untar.goal == old(untar.goal) && untar.Told(res)
    ensures untar.reader.next >= old(untar.reader.next)
    ensures untar.active ==> untar.reader.next > old(untar.reader.next) || untar.Rank() < old(untar.Rank())
    ensures !untar.active && untar.goal.status == Complete ==> untar.log == untar.goal.log
  {
    hide Flat, TarGzReader.At, SoFar, BlockReader.Valid, Extractor.Rest, Extractor.Held, NoData, BlocksOf, NumBlocks;
    res := untar.ReadTarStep();
    WithinHeld(untar.reader, blocks, k);
  }

  lemma WithinHeld(reader: BlockReader, blocks: seq<Block>, k: nat)
    requires reader.Valid() && reader.blockmod == 0 && k <= |blocks| && reader.data == Flat(blocks[..k])
    ensures reader.pos <= k
  {
    hide BlocksOf, Flat;
    FlatBlocks(blocks[..k]);
  }

  /** Stepping while it returns TAR_OK, with the next block fetched once the last has been
      read. */
  method StepAndFetch(g: TarGzReader, untar: Extractor, buff: array<byte>, ghost dst: seq<byte>,
                      ghost blocks: seq<Block>, ghost cs: seq<Chunked.Chunk>, ghost prefill: seq<byte>)
    returns (res: int)
    requires Member(dst, Flat(blocks), cs) && Suits(g.z.d.W(), prefill) && Separate(g, untar, buff)
    requires buff.Length >= TAR_BLOCK_SIZE && untar.Stepping() && untar.active && untar.goal.status == Complete
    requires Pulling(g, untar, buff, dst, blocks, prefill, 0, Inflate.Initial(80, prefill), false)
    modifies g, g.z`checksum, g.z.d, buff, g.z.d.ring, g.z.d.ring.ring, g.z.d.ltree.table, g.z.d.ltree.trans,
             g.z.d.dtree.table, g.z.d.dtree.trans, untar, untar.reader`data, untar.reader`pos, untar.reader`next,
             untar.readBuffer
    ensures res == TAR_EXPANDING_DONE && untar.log == untar.goal.log && untar.goal == old(untar.goal)
  {
    hide Member, Flat, SoFar, Extractor.Stepping, Pulling, Suits, BlocksOf;
    ghost var k, s, w := 0, Inflate.Initial(80, prefill), g.z.d.W();
    var ended := false;
    res := TAR_OK;
    PullingGives(g, untar, buff, dst, blocks, prefill, k, s, ended);
    while res == TAR_OK
      invariant untar.Stepping() && untar.goal == old(untar.goal) && g.z.d.W() == w
      invariant Pulling(g, untar, buff, dst, blocks, prefill, k, s, ended)
      invariant untar.reader.next <= |blocks|
      invariant if res == TAR_OK then untar.active
                else res == TAR_EXPANDING_DONE && !untar.active && untar.log == untar.goal.log
      decreases res == TAR_OK, |blocks| - untar.reader.next, untar.Rank()
    {
      PullingGives(g, untar, buff, dst, blocks, prefill, k, s, ended);
      if !ended && 512 * untar.reader.pos == |untar.reader.data| {
        ended, k, s := FetchNext(g, untar, buff, dst, blocks, cs, prefill, k, s);
      }
      res := StepPulled(g, untar, buff, dst, blocks, prefill, k, s, ended);
      PullingGives(g, untar, buff, dst, blocks, prefill, k, s, ended);
    }
  }

  lemma PullingGives(g: TarGzReader, untar: Extractor, buff: array<byte>, dst: seq<byte>, blocks: seq<Block>,
                     prefill: seq<byte>, k: nat, s: Inflate.State, ended: bool)
    requires Pulling(g, untar, buff, dst, blocks, prefill, k, s, ended)
    ensures 512 * untar.reader.pos == |untar.reader.data| ==> untar.reader.next == k
    ensures untar.reader.next <= |blocks|
    ensures ended || 512 * untar.reader.pos != |untar.reader.data| ==> untar.reader.MayRead()
  {
    hide Flat, SoFar, TarGzReader.At, BlocksOf;
    StreamValid(untar.reader, blocks, k);
    TarGz.FlatSize(blocks[..k]);
  }

  /** An inflater that has read the header of a member, for the extractor to pull from. */
  method OpenPull(dst: seq<byte>, ghost src: seq<byte>, ghost cs: seq<Chunked.Chunk>, dict: array<byte>, size: nat,
                  buff: array<byte>) returns (g: TarGzReader)
    requires Member(dst, src, cs) && DICT_SIZE <= dict.Length && size > 0 && buff != dict
    ensures g.z.d.source == dst && g.z.d.W() == WindowOf(dict) && g.z.d.ring.ring == dict
    ensures Inflate.WellFormed(Inflate.Initial(80, dict[..]), WindowOf(dict))
    ensures g.At(Inflate.Initial(80, dict[..]), buff)
    ensures fresh(g) && fresh(g.z) && fresh(g.z.d) && fresh(g.z.d.ring) && fresh(g.z.d.ltree.table)
    ensures fresh(g.z.d.ltree.trans) && fresh(g.z.d.dtree.table) && fresh(g.z.d.dtree.trans)
  {
    hide Inflate.WellFormed, GzUnpacker.Inflating, Member, GzHeader.Header, TarGzReader.At, GzUnpacker.At, BytesBits;
    ghost var prefill := dict[..];
    MemberInflates(dst, src, cs, prefill, Inflate.Ring(dict.Length));
    var u := new GzUnpacker(dst, dict, size);
    var code := u.Begin(dst, dict);
    g := new TarGzReader(u.z);
    ReadyToPull(u, g, Inflate.Initial(80, prefill), prefill, buff);
  }

  /** Extraction that pulls its blocks from the inflater, which needs a ring, makes exactly the
      calls for the entities packed. */
  method ExpandPulled(dst: seq<byte>, ghost es: seq<Entity>, ghost cs: seq<Chunked.Chunk>, dict: array<byte>,
                      outputBufferSize: nat, memory: seq<byte>) returns (untar: Extractor, res: int)
    requires AllOk(es) && Member(dst, Flat(TarBlocks(es)), cs)
    requires DICT_SIZE <= dict.Length && outputBufferSize > 0 && |memory| == TAR_BLOCK_SIZE + 1
    modifies dict
    ensures res == TAR_EXPANDING_DONE && untar.log == ArchiveCalls(es)
  {
    hide TarBlocks, Flat, BlocksOf, Entries, ArchiveCalls, Packable, NameOk, Member, Extractor.Stepping, DICT_SIZE,
      TarGzReader.At, Inflate.WellFormed, BytesBits, SoFar, Begun;
    ghost var blocks, prefill := TarBlocks(es), dict[..];
    ArchiveRead(es, false);
    PullStarts(dst, blocks, cs, WindowOf(dict), prefill);
    var buff := new byte[TAR_BLOCK_SIZE + 1];
    var g := OpenPull(dst, Flat(blocks), cs, dict, outputBufferSize, buff);
    var reader := new BlockReader.OfStream(blocks);
    untar := new Extractor(reader, 0);
    untar.CleanToDo(memory);
    untar.TarSetup(memory);
    NothingFlat(blocks);
    res := StepAndFetch(g, untar, buff, dst, blocks, cs, prefill);
  }

  lemma NothingFlat(blocks: seq<Block>)
    ensures Flat(blocks[..0]) == []
  {}
}
