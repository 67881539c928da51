/** Reading back what was packed: the same entries with the same names, types, sizes and
    contents. */
module TarRoundTrip {
  import opened Bits
  import opened TarHeader
  import opened TarSpec
  import opened TarWrite
  import UntarSame
  import opened UntarSpec

  /** Names that come back as they are. */
  predicate NameOk(e: Entity) {
    && e.path != [] && 0 !in e.path
    && var n := FullName(e.path, e.isDir); |n| <= 99 && n[0] != 0x20 && n[|n| - 1] != 0x20
  }

  predicate Ok(e: Entity) {
    Packable(e) && NameOk(e) && e.mtime < 0x1_0000_0000 && Chunks(|e.content|) == NumBlocks(|e.content|)
  }

  ghost function HeaderOf(e: Entity): EntryHeader
    requires e.path != []
  {
    Translated(HeaderBytes(e.path, StatOf(e)))
  }

  lemma Modes(e: Entity)
    ensures IsDir(StatOf(e).mode) == e.isDir && IsReg(StatOf(e).mode) == !e.isDir
    ensures StatOf(e).mode < Pow8(6) && StatOf(e).mtime == e.mtime
    ensures StatOf(e).size == if e.isDir then 0 else |e.content|
  {
    Powers();
  }

  /** An entity's header comes back with its name, type and size. */
  lemma HeaderOfIs(e: Entity)
    requires Ok(e)
    ensures var h := HeaderOf(e);
      && h.filename == FullName(e.path, e.isDir) && h.filesize == |e.content| && h.mtime == e.mtime
      && h.kind == (if e.isDir then Directory else Normal) && h.filemode == StatOf(e).mode
      && h.checksum == Checksum(HeaderBytes(e.path, StatOf(e)))
  {
    hide HeaderBytes, Checksum, Text, IsDir, IsReg, Translated, Chunks, Pow8, NameOf, Cut99, StatOf;
    Modes(e);
    HeaderReads(e.path, StatOf(e));
    NoZero(e);
    NameSurvives(e.path, e.isDir);
  }

  lemma HeaderStarts(e: Entity)
    requires Ok(e)
    ensures HeaderBytes(e.path, StatOf(e))[0] != 0
  {
    hide HeaderBytes, Chunks, NumBlocks, StatOf;
    NameLost(e.path, StatOf(e));
  }

  lemma NoZero(e: Entity)
    requires e.path != [] && 0 !in e.path
    ensures 0 !in FullName(e.path, e.isDir) && FullName(e.path, e.isDir) != []
  {}

  /** The calls made for the data of an entry. */
  ghost function Writes(e: Entity, h: EntryHeader, index: nat, n: nat): (s: seq<Event>)
    ensures |s| == n
  {
    if n == 0 then []
    else Writes(e, h, index, n - 1) + [Wrote(h, index, Chunk(e.content, n - 1)[..PortionSize(|e.content|, n - 1)])]
  }

  ghost function EntryCalls(e: Entity, index: nat): seq<Event>
    requires e.path != []
  {
    [Began(HeaderOf(e), index)] + Writes(e, HeaderOf(e), index, NumBlocks(|e.content|)) + [Ended(HeaderOf(e), index)]
  }

  /** All calls for an archive. */
  ghost function ArchiveCalls(es: seq<Entity>): seq<Event>
    requires AllOk(es)
  {
    if es == [] then [] else ArchiveCalls(es[..|es| - 1]) + EntryCalls(es[|es| - 1], |es| - 1)
  }

  predicate AllOk(es: seq<Entity>) {
    forall i | 0 <= i < |es| :: Ok(es[i])
  }

  /** The data blocks from block `i` of an entity on. */
  lemma {:induction false} DataRead(j: Job, p: Place, e: Entity, h: EntryHeader, i: nat, start: Place)
    requires j.failing == 0 && h.filesize == |e.content| && i <= NumBlocks(|e.content|)
    requires start.used + NumBlocks(|e.content|) <= |j.blocks|
    requires j.blocks[start.used..start.used + NumBlocks(|e.content|)] == TarSpec.Body(e.content,
      NumBlocks(|e.content|))
    requires p == Place(start.used + i, start.index, start.empties, start.log + Writes(e, h, start.index, i))
    ensures UntarSame.Body(j, p, h, i) ==
      (Place(start.used + NumBlocks(|e.content|), start.index + 1, start.empties,
             start.log + Writes(e, h, start.index, NumBlocks(|e.content|)) + [Ended(h, start.index)]), 0)
    decreases NumBlocks(|e.content|) - i
  {
    hide PortionSize, NumBlocks, Chunk, UntarSame.Body, TarSpec.Body;
    var n := NumBlocks(|e.content|);
    BodyStep(j, p, h, i);
    if i < n {
      BodyAt(e.content, n, i);
      assert j.blocks[p.used] == j.blocks[start.used..start.used + n][i] == Chunk(e.content, i);
      var ev := Wrote(h, p.index, Chunk(e.content, i)[..PortionSize(|e.content|, i)]);
      Assoc(start.log, Writes(e, h, start.index, i), [ev]);
      assert Writes(e, h, start.index, i + 1) == Writes(e, h, start.index, i) + [ev];
      DataRead(j, Place(p.used + 1, p.index, p.empties, p.log + [ev]), e, h, i + 1, start);
    }
  }

  lemma BodyStep(j: Job, p: Place, h: EntryHeader, i: nat)
    requires j.failing == 0
    ensures i < NumBlocks(h.filesize) && p.used < |j.blocks| ==>
      var e := Wrote(h, p.index, j.blocks[p.used][..PortionSize(h.filesize, i)]);
      UntarSame.Body(j, p, h, i) == UntarSame.Body(j, Place(p.used + 1, p.index, p.empties, p.log + [e]), h, i + 1)
    ensures i >= NumBlocks(h.filesize) ==>
      UntarSame.Body(j, p, h, i) == (Place(p.used, p.index + 1, p.empties, p.log + [Ended(h, p.index)]), 0)
  {
    hide PortionSize, NumBlocks;
  }

  lemma {:induction false} BodyAt(content: seq<byte>, n: nat, i: nat)
    requires i < n
    ensures TarSpec.Body(content, n)[i] == Chunk(content, i)
  {
    if i < n - 1 { BodyAt(content, n - 1, i); }
  }

  /** One entry. */
  lemma EntryRead(j: Job, p: Place, e: Entity)
    requires Ok(e) && j.failing == 0 && p.empties < 2
    requires p.used + 1 + NumBlocks(|e.content|) <= |j.blocks|
    requires j.blocks[p.used..p.used + 1 + NumBlocks(|e.content|)] == EntityBlocks(e)
    ensures Entries(j, p) ==
      Entries(j, Place(p.used + 1 + NumBlocks(|e.content|), p.index + 1, p.empties, p.log + EntryCalls(e, p.index)))
  {
    hide PortionSize, NumBlocks, Chunk, UntarSame.Body, TarSpec.Body, Translated, Entries, HeaderBlock, DataBlocks,
      Chunks, FullName,
      HeaderBytes, ToFloat;
    var n, h, b := NumBlocks(|e.content|), HeaderOf(e), HeaderBytes(e.path, StatOf(e));
    HeaderOfIs(e);
    HeaderStarts(e);
    EntriesStep(j, p);
    var blocks := j.blocks[p.used..p.used + 1 + n];
    assert j.blocks[p.used] == blocks[0] == b;
    assert j.blocks[p.used + 1..p.used + 1 + n] == blocks[1..] == TarSpec.Body(e.content, n);
    var q := Place(p.used + 1, p.index, p.empties, p.log + [Began(h, p.index)]);
    HeaderStep(j, p.(used := p.used + 1), b);
    UntarSame.DataIsBody(j, q, h, 0);
    assert q.log + [] == q.log;
    DataRead(j, q, e, h, 0, q);
    Assoc(p.log, [Began(h, p.index)], Writes(e, h, p.index, n));
    Assoc(p.log, [Began(h, p.index)] + Writes(e, h, p.index, n), [Ended(h, p.index)]);
  }

  /** A complete archive in which an entry comes after an empty header: the loop and the step
      machine pass different indices to the same callbacks. */
  lemma IndicesDiffer(e: Entity)
    requires Ok(e) && Packable(e)
    ensures var blocks, p := [ZeroBlock()] + EntityBlocks(e) + [ZeroBlock()], Place(0, 0, 0, []);
      var r, s := Entries(Job(blocks, true, 0), p), Entries(Job(blocks, false, 0), p);
      && r.status == s.status == Complete
      && r.log == EntryCalls(e, 1) && s.log == EntryCalls(e, 0) && r.log != s.log
  {
    hide EntityBlocks, Entries, HeaderBlock, NumBlocks, Translated, EntryCalls, Packable;
    AfterEmpty(e, true);
    AfterEmpty(e, false);
    FirstCalls(e);
  }

  lemma FirstCalls(e: Entity)
    requires e.path != []
    ensures |EntryCalls(e, 0)| > 0 && EntryCalls(e, 0) != EntryCalls(e, 1)
  {
    hide HeaderOf, Writes;
    assert EntryCalls(e, 0)[0] == Began(HeaderOf(e), 0) && EntryCalls(e, 1)[0] == Began(HeaderOf(e), 1);
  }

  lemma AfterEmpty(e: Entity, counting: bool)
    requires Ok(e) && Packable(e)
    ensures var j := Job([ZeroBlock()] + EntityBlocks(e) + [ZeroBlock()], counting, 0);
      Entries(j, Place(0, 0, 0, [])) == Outcome(EntryCalls(e, if counting then 1 else 0), Complete, |j.blocks|)
  {
    hide EntityBlocks, Entries, HeaderBlock, NumBlocks, Translated, EntryCalls, Packable;
    var j := Job([ZeroBlock()] + EntityBlocks(e) + [ZeroBlock()], counting, 0);
    var k := if counting then 1 else 0;
    EntityLength(e);
    EntriesStep(j, Place(0, 0, 0, []));
    HeaderStep(j, Place(1, 0, 0, []), ZeroBlock());
    var p := Place(1, k, 1, []);
    assert j.blocks[1..1 + |EntityBlocks(e)|] == EntityBlocks(e);
    EntryRead(j, p, e);
    assert p.log + EntryCalls(e, k) == EntryCalls(e, k);
    var q := Place(1 + |EntityBlocks(e)|, k + 1, 1, EntryCalls(e, k));
    EntriesStep(j, q);
    HeaderStep(j, q.(used := q.used + 1), ZeroBlock());
    EntriesStep(j, Place(q.used + 1, if counting then k + 2 else k + 1, 2, q.log));
  }

  /** All entities. */
  lemma {:induction false} EntitiesRead(j: Job, es: seq<Entity>)
    requires AllOk(es) && j.failing == 0 && AllPackable(es) && EntitiesBlocks(es) <= j.blocks
    ensures Entries(j, Place(0, 0, 0, [])) == Entries(j, Place(|EntitiesBlocks(es)|, |es|, 0, ArchiveCalls(es)))
  {
    hide Entries, EntityBlocks, EntryCalls, NumBlocks, Chunks, NameOk;
    if es == [] {
    } else {
      var e, rest := es[|es| - 1], es[..|es| - 1];
      EntitiesRead(j, rest);
      var k := |EntitiesBlocks(rest)|;
      EntityLength(e);
      assert j.blocks[k..k + 1 + NumBlocks(|e.content|)] == EntitiesBlocks(es)[k..] == EntityBlocks(e);
      EntryRead(j, Place(k, |rest|, 0, ArchiveCalls(rest)), e);
    }
  }

  lemma EntityLength(e: Entity)
    requires Ok(e)
    ensures |EntityBlocks(e)| == 1 + NumBlocks(|e.content|)
  {}

  /** Reading what was packed makes exactly the calls for what was packed, in the loop and in
      the step machine alike, and ends at the two blocks of zeros. */
  lemma ArchiveRead(es: seq<Entity>, counting: bool)
    requires AllOk(es) && AllPackable(es)
    ensures Entries(Job(TarBlocks(es), counting, 0), Place(0, 0, 0, [])) ==
      Outcome(ArchiveCalls(es), Complete, |TarBlocks(es)|)
  {
    hide Entries, EntitiesBlocks, ArchiveCalls, NameOk, Chunks, HeaderBlock;
    var j := Job(TarBlocks(es), counting, 0);
    EntitiesRead(j, es);
    var p := Place(|EntitiesBlocks(es)|, |es|, 0, ArchiveCalls(es));
    EntriesStep(j, p);
    var p1 := p.(used := p.used + 1);
    HeaderStep(j, p1, ZeroBlock());
    var p2 := Place(p1.used, if counting then p1.index + 1 else p1.index, 1, p.log);
    EntriesStep(j, p2);
    var p3 := p2.(used := p2.used + 1);
    HeaderStep(j, p3, ZeroBlock());
    EntriesStep(j, Place(p3.used, if counting then p3.index + 1 else p3.index, 2, p.log));
  }

  /** The bytes passed to the write callback. */
  function Payload(s: seq<Event>): seq<byte> {
    if s == [] then []
    else Payload(s[..|s| - 1]) + if s[|s| - 1].Wrote? then s[|s| - 1].bytes else []
  }

  /** What the write callback is given for an entry is the file, without the padding. */
  lemma {:induction false} Delivered(e: Entity, h: EntryHeader, index: nat, n: nat)
    requires Ok(e) && n <= NumBlocks(|e.content|)
    ensures Payload(Writes(e, h, index, n)) ==
      if n < NumBlocks(|e.content|) then e.content[..512 * n] else e.content
  {
    hide NameOk, Chunks;
    if n == 0 {
    } else {
      Delivered(e, h, index, n - 1);
      PortionIs(e.content, n - 1);
    }
  }

  lemma PortionIs(content: seq<byte>, c: nat)
    requires |content| < 0x8000_0000 && c < NumBlocks(|content|)
    ensures 512 * c <= |content|
    ensures content[..512 * c] + Chunk(content, c)[..PortionSize(|content|, c)] ==
      if c + 1 < NumBlocks(|content|) then content[..512 * (c + 1)] else content
    ensures c + 1 < NumBlocks(|content|) ==> 512 * (c + 1) <= |content|
  {
    BlocksAround(|content|);
  }
}
