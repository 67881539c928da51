/** One whole tar archive, byte by byte, packed and unpacked. */
module KnownArchive {
  import opened Bits
  import opened KnownHeader
  import opened TarHeader
  import opened TarRoundTrip
  import opened TarSpec
  import opened TarWrite
  import opened UntarSpec

  /** The file "a" that holds "hello". */
  const HELLO: seq<byte> := [0x68, 0x65, 0x6C, 0x6C, 0x6F]
  const ENTITY := Entity([0x61], false, HELLO, 1700000000)

  lemma HelloIs()
    ensures |HELLO| == 5
  {}

  lemma StatIs()
    ensures StatOf(ENTITY) == STAT && ENTITY.path == PATH && ENTITY.content == HELLO && Ok(ENTITY) && Packable(ENTITY)
  {
    assert Ulp(5) == 1;
  }

  lemma OneChunk()
    ensures Chunks(5) == NumBlocks(5) == 1
  {
    assert Ulp(5) == 1;
  }

  /** Its header, its bytes filled up to a block, and two blocks of zeros. */
  lemma Packed()
    ensures AllPackable([ENTITY]) && |Front() + SUM + Back()| == 512
    ensures TarBlocks([ENTITY]) == [Front() + SUM + Back(), HELLO + Zeros(507), Zeros(512), Zeros(512)]
  {
    hide HeaderBytes, ENTITY, HELLO, Front, Back, SUM, STAT, PATH, Chunks;
    StatIs();
    HelloIs();
    HeaderIs();
    OneChunk();
    HelloFilled();
    assert EntityBlocks(ENTITY) == [HeaderBytes(PATH, STAT)] + Body(HELLO, 1);
    OneBody(HELLO);
    OneEntity(ENTITY);
  }

  lemma OneBody(content: seq<byte>)
    ensures Body(content, 1) == [Chunk(content, 0)]
  {
    assert Body(content, 0) == [];
  }

  lemma OneEntity(e: Entity)
    requires Packable(e)
    ensures AllPackable([e]) && EntitiesBlocks([e]) == EntityBlocks(e)
  {
    hide EntityBlocks;
    assert [e][..0] == [];
    assert EntitiesBlocks([e]) == [] + EntityBlocks(e);
  }

  lemma HelloFilled()
    ensures Chunk(HELLO, 0) == HELLO + Zeros(507) && Chunk(HELLO, 0)[..5] == HELLO
  {
    HelloIs();
    hide HELLO;
    assert HELLO[0..] == HELLO;
  }

  /** What the extractor makes of the header. */
  function Header(): EntryHeader {
    EntryHeader([0x61], 0x81ED, 0, 0, 5, 1700000000, 3777, Normal, [], [0x75, 0x73, 0x74, 0x61, 0x72], [0x30, 0x30],
                Owner([0x72, 0x6F, 0x6F, 0x74], [0x72, 0x6F, 0x6F, 0x74], 0, 0))
  }

  /** From these blocks the callbacks are called with that header, with the five bytes, and at
      the end. */
  lemma Unpacked(counting: bool)
    ensures AllPackable([ENTITY])
    ensures Entries(Job(TarBlocks([ENTITY]), counting, 0), Place(0, 0, 0, [])) ==
      Outcome([Began(Header(), 0), Wrote(Header(), 0, HELLO), Ended(Header(), 0)], Complete, 4)
  {
    hide HeaderBytes, ENTITY, HELLO, Front, Back, SUM, STAT, PATH, Chunks, Entries, TarBlocks, Header, Translated, Ok,
      ArchiveCalls, EntryCalls, Packable, Chunk;
    StatIs();
    OneEntity(ENTITY);
    Packed();
    ArchiveRead([ENTITY], counting);
    HeaderRead();
    KnownRead();
    OneCall(ENTITY);
    CallsAre();
  }

  lemma KnownRead()
    ensures HeaderOf(ENTITY) == Header()
  {
    hide HeaderBytes, Translated;
    HeaderRead();
    StatIs();
  }

  lemma OneCall(e: Entity)
    requires Ok(e) && e.path != []
    ensures ArchiveCalls([e]) == EntryCalls(e, 0)
  {
    hide EntryCalls, Ok;
    assert AllOk([e]) && [e][..0] == [];
    assert ArchiveCalls([]) == [];
    assert ArchiveCalls([e]) == ArchiveCalls([e][..0]) + EntryCalls(e, 0);
  }

  lemma CallsAre()
    ensures EntryCalls(ENTITY, 0) == [Began(Header(), 0), Wrote(Header(), 0, HELLO), Ended(Header(), 0)]
  {
    hide HeaderBytes, HELLO, Translated, Chunk, Header, Chunks, Ok;
    KnownRead();
    StatIs();
    HelloIs();
    HelloFilled();
    assert PortionSize(5, 0) == 5 && NumBlocks(5) == 1;
    var h := Header();
    assert Writes(ENTITY, h, 0, 0) == [];
    assert Writes(ENTITY, h, 0, 1) == [] + [Wrote(h, 0, HELLO)];
  }
}
