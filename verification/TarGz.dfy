/** From files to a compressed archive and back. */
module TarGz {
  import opened Bits
  import Chunked
  import GzHeader
  import opened GzPack
  import opened GzUnpack
  import Inflate
  import opened StreamWriter
  import opened TarFeed
  import opened TarHeader
  import TarPack
  import opened TarRoundTrip
  import opened TarSpec
  import opened Untar
  import UntarSame
  import opened UntarSpec

  /** Packs entities through the compressing writer, which is told the predicted size. If no
      file loses its last chunk, the writer ends the stream, once and with the last block, if
      and only if every chunk fitted its output buffer. In any case a size is reported, which
      is that of a complete archive only then. */
  method PackTgz(es: seq<Entity>, bufSize: nat) returns (w: LZStreamWriter, total: int, size: int)
    requires AllPackable(es) && bufSize > 0 && bufSize % 512 == 0
    ensures AllChunks(es) ==> (w.Finished() <==> w.fits)
    ensures !AllChunks(es) ==> !w.Finished()
    ensures w.Finished() ==>
      Member(w.dst, Flat(TarBlocks(es)), w.cs) && total == 512 * |TarBlocks(es)| && size == |w.dst|
    ensures size == w.dstLen
  {
    hide EntitiesBlocks, TarBlocks, Packable, AllChunks, Flat, Member;
    EstimatePositive(es);
    w := new LZStreamWriter(Estimate(es), bufSize);
    var out := new TarPack.TarOutput(w);
    EmptyFlat();
    hide Estimate, LZStreamWriter.Healthy, LZStreamWriter.Doomed;
    total := TarPack.PackTar(out, es);
    if w.Healthy() || w.Doomed() { w.AliveGives(); }
    size := -1;
    if total != 0 {
      size := w.Size();
    }
  }

  lemma {:induction false} EstimatePositive(es: seq<Entity>)
    ensures Estimate(es) >= 1024
  {
    hide EntityEstimate;
    if es == [] {
    } else {
      EstimatePositive(es[..|es| - 1]);
    }
  }

  lemma EmptyFlat()
    ensures Flat([]) == []
  {}

  /** Through a file: gz decompression first, then the extractor as one loop. */
  method ExpandFile(dst: seq<byte>, ghost es: seq<Entity>, ghost cs: seq<Chunked.Chunk>, dict: array<byte>,
                    outputBufferSize: nat) returns (untar: Extractor, res: int)
    requires AllOk(es) && Member(dst, Flat(TarBlocks(es)), cs)
    requires Suits(WindowOf(dict), dict[..]) && outputBufferSize > 0
    modifies dict
    ensures res == TAR_OK && untar.log == ArchiveCalls(es)
  {
    hide TarBlocks, Flat, BlocksOf, Entries, ArchiveCalls, Packable, NameOk;
    hide Result, GzUnpack.Outcome, Member, GzHeader.Header, DICT_SIZE;
    ghost var w, prefill := WindowOf(dict), dict[..];
    MemberComplete(dst, Flat(TarBlocks(es)), cs, w, prefill);
    var u, code, done := GzUncompress(dst, dict, outputBufferSize);
    MemberResult(dst, Flat(TarBlocks(es)), cs, w, prefill, u, code, done);
    FlatBlocks(TarBlocks(es));
    ArchiveRead(es, true);
    var reader := new BlockReader.OfFile(u.out.file);
    untar := new Extractor(reader, 0);
    res := untar.ReadTar();
  }

  /** The next `n` blocks are in the buffer when the file ends with it. */
  lemma BufferIsNext(blocks: seq<Block>, next: nat, n: nat, file: seq<byte>, buff: seq<byte>)
    requires |buff| == 512 * n && |file| == 512 * (next + n) && file[512 * next..] == buff && file <= Flat(blocks)
    ensures next + n <= |blocks| && |BlocksOf(buff)| == n && blocks[next..next + n] == BlocksOf(buff)
  {
    hide BlocksOf, Flat;
    FlatBlocks(blocks);
    BlocksCut(Flat(blocks), next + n);
    assert Flat(blocks)[..512 * (next + n)] == file;
    BlocksCut(file, next);
    BlocksCut(buff, n);
    assert buff[..512 * n] == buff;
  }

  /** The file has been pushed so far, and the extraction is on its way to `g`. */
  ghost predicate Pushed(file: seq<byte>, t: TarGzUnpacker, blocks: seq<Block>, g: Outcome)
    reads t, t.untar, t.untar.reader, t.untar.readBuffer
  {
    var untar := t.untar;
    && t.Fed() && untar.reader.blocks == blocks && untar.failing == 0
    && file <= Flat(blocks) && (t.lastBlock || 512 * untar.reader.next == |file|)
    && g == Entries(Job(blocks, false, 0), Place(0, 0, 0, [])) && g.status == Complete
    && (if t.firstBlock then
          file == [] && untar.log == [] && !untar.readStep && !untar.blockRead && untar.reader.next == 0
        else untar.goal == g && !untar.stale)
  }

  /** The write callback, for a buffer that has just been added to the file. */
  method PushBuffer(ghost file: seq<byte>, buff: seq<byte>, t: TarGzUnpacker, memory: seq<byte>,
                    ghost blocks: seq<Block>, ghost g: Outcome) returns (ok: bool)
    requires Pushed(file, t, blocks, g) && |memory| == TAR_BLOCK_SIZE + 1
    requires |buff| == 512 * t.untar.reader.blockmod && file + buff <= Flat(blocks)
    modifies t, t.untar, t.untar.reader`data, t.untar.reader`pos, t.untar.reader`next, t.untar.readBuffer
    ensures ok && Pushed(file + buff, t, blocks, g)
  {
    hide Flat, BlocksOf, Entries, Begun, Extractor.Stepping, Extractor.Holding, Extractor.Lingers, BlockReader.Valid;
    if !t.lastBlock {
      assert (file + buff)[|file|..] == buff;
      BufferIsNext(blocks, t.untar.reader.next, t.untar.reader.blockmod, file + buff, buff);
    }
    if t.firstBlock { t.untar.CleanToDo(memory); }
    ok := t.ProcessTarBuffer(buff, memory);
  }

  /** What is left in the buffer at the end is pushed with whatever was there before after it. */
  method PushRest(ghost file: seq<byte>, buff: seq<byte>, position: nat, t: TarGzUnpacker, memory: seq<byte>,
                  ghost blocks: seq<Block>, ghost g: Outcome) returns (ok: bool)
    requires Pushed(file, t, blocks, g) && |memory| == TAR_BLOCK_SIZE + 1
    requires 0 < position < |buff| == 512 * t.untar.reader.blockmod && file + buff[..position] == Flat(blocks)
    modifies t, t.untar, t.untar.reader`data, t.untar.reader`pos, t.untar.reader`next, t.untar.reader`blocks,
             t.untar.readBuffer
    ensures ok && t.untar.log == g.log
  {
    hide Flat, BlocksOf, Entries, Begun, Extractor.Stepping, Extractor.Holding, Extractor.Lingers, BlockReader.Valid;
    if !t.lastBlock {
      ghost var longer := RestIsNext(blocks, t.untar.reader.next, t.untar.reader.blockmod, file, buff, position);
      UntarSame.CompletePrefix(Job(blocks, false, 0), Job(longer, false, 0), Place(0, 0, 0, []));
      t.Extend(longer);
    }
    if t.firstBlock { t.untar.CleanToDo(memory); }
    ok := t.ProcessTarBuffer(buff, memory);
    t.AllCallsMade();
  }

  lemma RestIsNext(blocks: seq<Block>, next: nat, n: nat, file: seq<byte>, buff: seq<byte>, position: nat)
    returns (longer: seq<Block>)
    requires |buff| == 512 * n && position <= |buff| && |file| == 512 * next && file + buff[..position] == Flat(blocks)
    ensures |BlocksOf(buff)| == n && blocks <= longer && |longer| == next + n
    ensures longer[next..next + n] == BlocksOf(buff)
  {
    hide BlocksOf, Flat;
    FlatBlocks(blocks);
    FlatSize(blocks);
    BlocksCut(Flat(blocks), next);
    assert Flat(blocks)[..512 * next] == file && Flat(blocks)[512 * next..] == buff[..position];
    var m := |blocks| - next;
    BlocksCut(buff, m);
    BlocksCut(buff, n);
    assert buff[..512 * n] == buff;
    longer := BlocksOf(file) + BlocksOf(buff);
    assert blocks == BlocksOf(file) + BlocksOf(buff[..512 * m]);
  }

  lemma {:induction false} FlatSize(blocks: seq<Block>)
    ensures |Flat(blocks)| == 512 * |blocks|
  {
    if blocks == [] {
    } else {
      FlatSize(blocks[..|blocks| - 1]);
    }
  }

  /** The two do not share their arrays. */
  ghost predicate Apart(u: GzUnpacker, t: TarGzUnpacker) {
    var b: object := t.untar.readBuffer;
    && b != u.out.buffer && b != u.z.d.ring.ring && b != u.z.d.ltree.table && b != u.z.d.ltree.trans
    && b != u.z.d.dtree.table && b != u.z.d.dtree.trans
  }

  lemma FileWithin(u: GzUnpacker, s: Inflate.State, prefill: seq<byte>, src: seq<byte>)
    requires u.At(s, prefill) && Inflate.WellFormed(s, u.z.d.W()) && s.pos <= |u.z.d.Src()|
    requires Inflate.All(u.z.d.Src(), s, u.z.d.W()).1.hist == prefill + src
    ensures u.out.position <= u.out.buffer.Length && u.out.file <= u.out.Written() <= src
  {
    hide GzUnpacker.At, Inflate.All, Inflate.WellFormed;
    u.HistorySoFar(s, prefill);
    AllKeeps(u.z.d.Src(), s, u.z.d.W());
    assert s.hist == (prefill + src)[..|s.hist|];
  }

  /** Inflation is on its way to `r`. */
  ghost predicate Coming(u: GzUnpacker, s: Inflate.State, prefill: seq<byte>, r: (Inflate.Status, Inflate.State))
    reads u.z, u.out, u.out.buffer, u.z.d, u.z.d.ring, u.z.d.ring.ring,
          u.z.d.ltree, u.z.d.ltree.table, u.z.d.ltree.trans, u.z.d.dtree, u.z.d.dtree.table, u.z.d.dtree.trans
  {
    && u.At(s, prefill) && Inflate.WellFormed(s, u.z.d.W()) && s.pos <= |u.z.d.Src()|
    && Inflate.All(u.z.d.Src(), s, u.z.d.W()) == r && r.0 == Inflate.Done
  }

  /** A turn of the inflater leaves the extractor alone ... */
  method InflateTurn(u: GzUnpacker, t: TarGzUnpacker, ghost s: Inflate.State, ghost prefill: seq<byte>,
                     ghost r: (Inflate.Status, Inflate.State), ghost blocks: seq<Block>, ghost g: Outcome)
    returns (res: int, ghost v: Inflate.State)
    requires Coming(u, s, prefill, r) && Apart(u, t) && Pushed(u.out.file, t, blocks, g)
    modifies u.z`checksum, u.z.d, u.out.buffer, u.z.d.ring, u.z.d.ring.ring, u.z.d.ltree.table, u.z.d.ltree.trans,
             u.z.d.dtree.table, u.z.d.dtree.trans, u.out`file, u.out`position
    ensures Pushed(old(u.out.file), t, blocks, g)
    ensures u.out.file == old(u.out.file) + if res == 0 && u.out.position == 0 then u.out.buffer[..] else []
    ensures if res != 0 then u.Ended(r, res, prefill) else Coming(u, v, prefill, r) && |s.hist| < |v.hist| <= |r.1.hist|
  {
    hide Inflate.All, Inflate.WellFormed, GzUnpacker.At, GzUnpacker.Ended, TarGzUnpacker.Fed, Flat, Entries;
    res, v := u.Turn(s, prefill, r);
  }

  /** ... and pushing a buffer leaves the inflater alone. */
  method PushFull(u: GzUnpacker, t: TarGzUnpacker, memory: seq<byte>, ghost s: Inflate.State, ghost prefill: seq<byte>,
                  ghost r: (Inflate.Status, Inflate.State), ghost blocks: seq<Block>, ghost g: Outcome,
                  ghost file: seq<byte>) returns (ok: bool)
    requires Coming(u, s, prefill, r) && Apart(u, t) && Pushed(file, t, blocks, g) && |memory| == TAR_BLOCK_SIZE + 1
    requires u.out.buffer.Length == 512 * t.untar.reader.blockmod
    requires u.out.file == file + u.out.buffer[..] <= Flat(blocks)
    modifies t, t.untar, t.untar.reader`data, t.untar.reader`pos, t.untar.reader`next, t.untar.readBuffer
    ensures ok && Coming(u, s, prefill, r) && Pushed(u.out.file, t, blocks, g)
  {
    hide Inflate.All, Inflate.WellFormed, GzUnpacker.At, TarGzUnpacker.Fed, Flat, Entries, Pushed;
    ok := PushBuffer(file, u.out.buffer[..], t, memory, blocks, g);
  }

  lemma ComingWithin(u: GzUnpacker, s: Inflate.State, prefill: seq<byte>, r: (Inflate.Status, Inflate.State),
                     src: seq<byte>)
    requires Coming(u, s, prefill, r) && r.1.hist == prefill + src
    ensures u.out.file <= src
  {
    hide Inflate.All, Inflate.WellFormed, GzUnpacker.At;
    FileWithin(u, s, prefill, src);
  }

  /** The loop of gzUncompress with gzProcessTarBuffer for its write callback: every buffer is
      pushed as soon as it is full. */
  method InflateAndPush(u: GzUnpacker, t: TarGzUnpacker, memory: seq<byte>, ghost s0: Inflate.State,
                        ghost prefill: seq<byte>, ghost r: (Inflate.Status, Inflate.State), ghost blocks: seq<Block>,
                        ghost g: Outcome) returns (res: int, ok: bool)
    requires Coming(u, s0, prefill, r) && r.1.hist == prefill + Flat(blocks) && Apart(u, t)
    requires u.out.buffer.Length == 512 * t.untar.reader.blockmod && |memory| == TAR_BLOCK_SIZE + 1
    requires Pushed(u.out.file, t, blocks, g)
    modifies u.z`checksum, u.z.d, u.out.buffer, u.z.d.ring, u.z.d.ring.ring, u.z.d.ltree.table, u.z.d.ltree.trans,
             u.z.d.dtree.table, u.z.d.dtree.trans, u.out`file, u.out`position,
             t, t.untar, t.untar.reader`data, t.untar.reader`pos, t.untar.reader`next, t.untar.readBuffer
    ensures ok && u.Ended(r, res, prefill) && Pushed(u.out.file, t, blocks, g)
  {
    ghost var s := s0;
    hide *;
    ok := true;
    while true
      invariant Coming(u, s, prefill, r) && Pushed(u.out.file, t, blocks, g)
      decreases |r.1.hist| - |s.hist|
    {
      ghost var file := u.out.file;
      res, s := InflateTurn(u, t, s, prefill, r, blocks, g);
      if res != 0 {
        assert file + [] == file;
        return;
      }
      ComingWithin(u, s, prefill, r, Flat(blocks));
      if u.out.position == 0 {
        ok := PushFull(u, t, memory, s, prefill, r, blocks, g, file);
      } else {
        assert file + [] == file;
      }
    }
  }

  /** After the loop: what is left in the buffer is pushed, and the archive has been extracted. */
  method Finish(u: GzUnpacker, t: TarGzUnpacker, memory: seq<byte>, res: int, ghost prefill: seq<byte>,
                ghost r: (Inflate.Status, Inflate.State), ghost blocks: seq<Block>, ghost g: Outcome) returns (ok: bool)
    requires u.Ended(r, res, prefill) && r.1.hist == prefill + Flat(blocks) && blocks != []
    requires Pushed(u.out.file, t, blocks, g) && (res == 1 || u.z.d.readSourceErrors == 0)
    requires u.out.buffer.Length == 512 * t.untar.reader.blockmod && |memory| == TAR_BLOCK_SIZE + 1
    modifies t, t.untar, t.untar.reader`data, t.untar.reader`pos, t.untar.reader`next, t.untar.reader`blocks,
             t.untar.readBuffer
    ensures ok && t.untar.log == g.log
  {
    hide Flat, Entries, TarGzUnpacker.Fed;
    AllOut(u, r, res, prefill, Flat(blocks));
    if u.out.position > 0 {
      ok := PushRest(u.out.file, u.out.buffer[..], u.out.position, t, memory, blocks, g);
    } else {
      FlatSize(blocks);
      WholeFile(u.out.file, t, blocks);
      t.AllCallsMade();
      ok := true;
    }
  }

  lemma AllOut(u: GzUnpacker, r: (Inflate.Status, Inflate.State), res: int, prefill: seq<byte>, src: seq<byte>)
    requires u.Ended(r, res, prefill) && r.1.hist == prefill + src
    ensures u.out.position < u.out.buffer.Length && src == u.out.file + u.out.buffer[..u.out.position]
  {
    assert (prefill + src)[|prefill|..] == src;
  }

  /** With nothing left in the buffer all blocks have been pushed. */
  lemma WholeFile(file: seq<byte>, t: TarGzUnpacker, blocks: seq<Block>)
    requires |file| == 512 * |blocks| && blocks != [] && t.Fed() && t.untar.reader.blocks == blocks
    requires t.firstBlock ==> file == []
    requires t.lastBlock || 512 * t.untar.reader.next == |file|
    ensures !t.firstBlock && (t.lastBlock || t.untar.reader.next == |t.untar.reader.blocks|)
  {
    hide TarGzUnpacker.Fed;
  }

  lemma SomeArchive(es: seq<Entity>)
    requires AllPackable(es)
    ensures TarBlocks(es) != []
  {
    hide EntitiesBlocks;
  }

  lemma ItComes(u: GzUnpacker, s: Inflate.State, prefill: seq<byte>, r: (Inflate.Status, Inflate.State))
    requires u.At(s, prefill) && Inflate.WellFormed(s, u.z.d.W()) && s.pos <= |u.z.d.Src()|
    requires r == Inflate.All(u.z.d.Src(), s, u.z.d.W()) && r.0 == Inflate.Done
    ensures Coming(u, s, prefill, r)
  {
    hide GzUnpacker.At, Inflate.All, Inflate.WellFormed;
  }

  lemma NothingPushed(t: TarGzUnpacker, blocks: seq<Block>, g: Outcome)
    requires t.firstBlock && !t.lastBlock && t.untar.reader.blockmod > 0 && t.untar.Ready()
    requires t.untar.reader.blocks == blocks && t.untar.failing == 0 && t.untar.reader.next == 0
    requires t.untar.log == [] && !t.untar.readStep && !t.untar.blockRead
    requires g == Entries(Job(blocks, false, 0), Place(0, 0, 0, [])) && g.status == Complete
    ensures Pushed([], t, blocks, g)
  {
    hide Flat, Entries, BlockReader.Valid;
  }

  lemma EndsWell(u: GzUnpacker, dst: seq<byte>, src: seq<byte>, cs: seq<Chunked.Chunk>, w: Inflate.Window,
                 prefill: seq<byte>, r: (Inflate.Status, Inflate.State), res: int)
    requires u.Ended(r, res, prefill) && u.z.d.source == dst && Member(dst, src, cs) && Suits(w, prefill)
    requires 80 <= |BytesBits(dst)| && Inflate.WellFormed(Inflate.Initial(80, prefill), w)
    requires r == Inflate.All(BytesBits(dst), Inflate.Initial(80, prefill), w)
    ensures res == 1
  {
    hide Member, GzHeader.Header, Inflate.All, BytesBits, GzUnpacker.Ended, Returns, ReadFails, Align;
    MemberInflates(dst, src, cs, prefill, w);
    EndedReturns(u, r, res, prefill, dst);
    assert (prefill + src)[|prefill|..] == src;
    MemberReturns(dst, src, cs, w, prefill, res);
  }

  /** An unpacker that has read the header of a member. */
  method Open(dst: seq<byte>, ghost src: seq<byte>, ghost cs: seq<Chunked.Chunk>, dict: array<byte>, size: nat)
    returns (u: GzUnpacker, ghost r: (Inflate.Status, Inflate.State))
    requires Member(dst, src, cs) && Suits(WindowOf(dict), dict[..]) && size > 0
    ensures 80 <= |BytesBits(dst)| && Inflate.WellFormed(Inflate.Initial(80, dict[..]), WindowOf(dict))
    ensures r == Inflate.All(BytesBits(dst), Inflate.Initial(80, dict[..]), WindowOf(dict))
    ensures r.1.hist == dict[..] + src
    ensures Coming(u, Inflate.Initial(80, dict[..]), dict[..], r) && u.out.file == [] && u.out.buffer.Length == size
    ensures u.z.d.source == dst && u.z.d.ring.ring == dict && fresh(u.z) && fresh(u.out) && fresh(u.out.buffer)
    ensures fresh(u.z.d) && fresh(u.z.d.ring) && fresh(u.z.d.ltree.table) && fresh(u.z.d.ltree.trans)
    ensures fresh(u.z.d.dtree.table) && fresh(u.z.d.dtree.trans)
  {
    hide Member, GzHeader.Header, GzUnpacker.At, DICT_SIZE, Inflate.WellFormed, Inflate.All, BytesBits, Coming;
    ghost var prefill := dict[..];
    MemberInflates(dst, src, cs, prefill, WindowOf(dict));
    u := new GzUnpacker(dst, dict, size);
    r := Inflate.All(BytesBits(dst), Inflate.Initial(80, prefill), WindowOf(dict));
    var res := u.Begin(dst, dict);
    ItComes(u, Inflate.Initial(80, prefill), prefill, r);
  }

  /** A step machine that waits for the first buffer. */
  method Await(ghost blocks: seq<Block>, blockmod: nat, buff: seq<byte>, ghost g: Outcome) returns (t: TarGzUnpacker)
    requires |buff| == 512 * blockmod && blockmod > 0
    requires g == Entries(Job(blocks, false, 0), Place(0, 0, 0, [])) && g.status == Complete
    ensures Pushed([], t, blocks, g) && t.untar.reader.blockmod == blockmod
    ensures fresh(t) && fresh(t.untar) && fresh(t.untar.reader) && fresh(t.untar.readBuffer)
  {
    hide BlocksOf, Entries, Pushed, BlockReader.Valid;
    SomeBlocks(buff, blockmod);
    var reader := new BlockReader.OfBuffer(blocks, blockmod, buff);
    var untar := new Extractor(reader, 0);
    t := new TarGzUnpacker(untar);
    NothingPushed(t, blocks, g);
  }

  /** gzUncompress of a compressed archive, with the step machine for its write callback, makes
      exactly the calls for the entities packed. */
  method Expand(dst: seq<byte>, ghost es: seq<Entity>, ghost cs: seq<Chunked.Chunk>, dict: array<byte>, blockmod: nat,
                memory: seq<byte>) returns (untar: Extractor, ok: bool)
    requires AllOk(es) && Member(dst, Flat(TarBlocks(es)), cs)
    requires Suits(WindowOf(dict), dict[..]) && blockmod > 0 && |memory| == TAR_BLOCK_SIZE + 1
    modifies dict
    ensures ok && untar.log == ArchiveCalls(es)
  {
    hide TarBlocks, Flat, Entries, ArchiveCalls, Packable, NameOk, Member, DICT_SIZE, Inflate.WellFormed, Inflate.All,
      GzUnpacker.Ended, Pushed, Coming, BytesBits;
    ghost var blocks, prefill, w := TarBlocks(es), dict[..], WindowOf(dict);
    ghost var g := Entries(Job(blocks, false, 0), Place(0, 0, 0, []));
    ArchiveRead(es, false);
    SomeArchive(es);
    ghost var r;
    var u, t, res;
    u, r := Open(dst, Flat(blocks), cs, dict, 512 * blockmod);
    t := Await(blocks, blockmod, u.out.buffer[..], g);
    untar := t.untar;
    res, ok := InflateAndPush(u, t, memory, Inflate.Initial(80, prefill), prefill, r, blocks, g);
    var short := res != 1 && u.z.d.readSourceErrors > 0;
    EndsWell(u, dst, Flat(blocks), cs, w, prefill, r, res);
    if short {
      ok := false;
    } else {
      ok := Finish(u, t, memory, res, prefill, r, blocks, g);
    }
  }
}
