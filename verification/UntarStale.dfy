/** An extraction begun while `block_read` is still set, because the data callback failed
    during the one before: it goes as if the first header that has data stood twice. */
module UntarStale {
  import opened Bits
  import opened TarHeader
  import Untar
  import opened UntarSame
  import opened UntarSpec

  /** Where the first header of an entry with data is; the number of blocks if there is none. */
  function FirstWithData(blocks: seq<Block>, k: nat, empties: nat): (n: nat)
    requires k <= |blocks|
    ensures k <= n <= |blocks|
    decreases |blocks| - k
  {
    if empties >= 2 || k >= |blocks| then |blocks|
    else if blocks[k][0] == 0 then FirstWithData(blocks, k + 1, empties + 1)
    else if NumBlocks(Translated(blocks[k]).filesize) > 0 then k
    else FirstWithData(blocks, k + 1, empties)
  }

  function Doubled(blocks: seq<Block>, n: nat): seq<Block>
    requires n <= |blocks|
  {
    if n == |blocks| then blocks else blocks[..n + 1] + blocks[n..]
  }

  lemma DoubledAgrees(blocks: seq<Block>, n: nat)
    requires n <= |blocks|
    ensures |Doubled(blocks, n)| == |blocks| + if n < |blocks| then 1 else 0
    ensures forall k | 0 <= k < |blocks| && k <= n :: Doubled(blocks, n)[k] == blocks[k]
    ensures forall k {:trigger blocks[k]} | n <= k < |blocks| :: Doubled(blocks, n)[k + 1] == blocks[k]
    ensures n == |blocks| ==> Doubled(blocks, n) == blocks
  {}

  /** From block `n` on, the blocks of `d` are those of `j`, one place later. */
  predicate Ahead(j: Job, d: Job, n: nat) {
    && d.failing == j.failing && d.counting == j.counting && |d.blocks| == |j.blocks| + 1
    && forall k {:trigger j.blocks[k]} | n <= k < |j.blocks| :: d.blocks[k + 1] == j.blocks[k]
  }

  lemma {:induction false} BodyAhead(j: Job, d: Job, p: Place, h: EntryHeader, i: nat)
    requires Ahead(j, d, p.used)
    ensures var r := UntarSame.Body(j, p, h, i);
      UntarSame.Body(d, p.(used := p.used + 1), h, i) == (r.0.(used := r.0.used + 1), r.1)
    decreases |j.blocks| - p.used
  {
    hide PortionSize;
    if i < NumBlocks(h.filesize) {
      if p.used < |j.blocks| {
        var q := Called(p.(used := p.used + 1), Wrote(h, p.index, j.blocks[p.used][..PortionSize(h.filesize, i)]));
        if |q.log| != j.failing { BodyAhead(j, d, q, h, i + 1); }
      }
    }
  }

  lemma {:induction false} EntriesAhead(j: Job, d: Job, p: Place)
    requires Ahead(j, d, p.used)
    ensures var r := Entries(j, p); Entries(d, p.(used := p.used + 1)) == r.(used := r.used + 1)
    decreases |j.blocks| - p.used
  {
    hide Translated, DataBlocks, UntarSame.Body, NumBlocks;
    if p.empties < 2 && p.used < |j.blocks| {
      var b := j.blocks[p.used];
      var p1 := p.(used := p.used + 1);
      if b[0] == 0 {
        EntriesAhead(j, d, p1.(empties := p.empties + 1, index := if j.counting then p.index + 1 else p.index));
      } else {
        var h, q := Translated(b), Called(p1, Began(Translated(b), p.index));
        DataIsBody(j, q, h, 0);
        DataIsBody(d, q.(used := q.used + 1), h, 0);
        BodyAhead(j, d, q, h, 0);
        var r := UntarSame.Body(j, q, h, 0);
        if r.1 == 0 { EntriesAhead(j, d, r.0); }
      }
    }
  }

  lemma DataAhead(j: Job, d: Job, p: Place, h: EntryHeader, i: nat)
    requires Ahead(j, d, p.used)
    ensures var r := DataBlocks(j, p, h, i); DataBlocks(d, p.(used := p.used + 1), h, i) == r.(used := r.used + 1)
  {
    hide Entries, DataBlocks, UntarSame.Body, NumBlocks;
    DataIsBody(j, p, h, i);
    DataIsBody(d, p.(used := p.used + 1), h, i);
    BodyAhead(j, d, p, h, i);
    var r := UntarSame.Body(j, p, h, i);
    if r.1 == 0 { EntriesAhead(j, d, r.0); }
  }

  /** The entry whose header is taken for its first data block. */
  lemma FirstData(j: Job, d: Job, p: Place, h: EntryHeader, b: Block)
    requires Ahead(j, d, p.used) && p.used < |d.blocks| && d.blocks[p.used] == b && 0 < NumBlocks(h.filesize)
    ensures var r, s := StaleData(j, p, h, 0, b), DataBlocks(d, p, h, 0); s == r.(used := r.used + 1)
  {
    hide Entries, StaleData, DataBlocks, DataBlock, NumBlocks, PortionSize;
    var e := Wrote(h, p.index, b[..PortionSize(h.filesize, 0)]);
    StaleDataStep(j, p, h, 0, b);
    DataStep(j, p, h, 0, b);
    DataBlocksStep(d, p, h, 0);
    DataStep(d, p.(used := p.used + 1), h, 0, b);
    DataAhead(j, d, Called(p, e), h, 1);
  }

  /** An entry, from its data on, if the rest of the archive goes as stated. */
  ghost predicate SameCalls(j: Job, d: Job, r: Outcome, s: Outcome) {
    && r.log == s.log && r.status == s.status
    && (d.blocks == j.blocks ==> r == s)
    && (d.blocks != j.blocks && !r.status.Failed? ==> s.used == r.used + 1)
  }

  lemma NextEntry(j: Job, d: Job, q: Place, h: EntryHeader, b: Block)
    requires 0 < NumBlocks(h.filesize) ==> Ahead(j, d, q.used) && q.used < |d.blocks| && d.blocks[q.used] == b
    requires var q1 := Called(q, Ended(h, q.index)).(index := q.index + 1);
      NumBlocks(h.filesize) == 0 && |q1.log| != j.failing ==>
        SameCalls(j, d, StaleEntries(j, q1), Entries(d, q1))
    requires d.failing == j.failing
    ensures SameCalls(j, d, StaleData(j, q, h, 0, b), DataBlocks(d, q, h, 0))
  {
    hide Entries, StaleEntries, StaleData, DataBlocks, NumBlocks, StaleHeader, HeaderBlock;
    if 0 < NumBlocks(h.filesize) {
      FirstData(j, d, q, h, b);
      assert |d.blocks| != |j.blocks|;
    } else {
      StaleDataStep(j, q, h, 0, b);
      DataBlocksStep(d, q, h, 0);
    }
  }

  /** Whatever the archive and whichever callback fails: the calls are those for the archive
      with the first header that has data doubled. They are the right ones, at the right
      places, if no entry has data. */
  lemma {:induction false} StaleDoubles(j: Job, d: Job, p: Place)
    requires p.used <= |j.blocks|
    requires d == j.(blocks := Doubled(j.blocks, FirstWithData(j.blocks, p.used, p.empties)))
    ensures var r, s := StaleEntries(j, p), Entries(d, p);
      SameCalls(j, d, r, s)
    decreases |j.blocks| - p.used
  {
    hide Translated, DataBlocks, StaleData, NumBlocks, Doubled;
    DoubledAgrees(j.blocks, FirstWithData(j.blocks, p.used, p.empties));
    if p.empties < 2 && p.used < |j.blocks| {
      var b := j.blocks[p.used];
      var p1 := p.(used := p.used + 1);
      assert d.blocks[p.used] == b;
      if b[0] == 0 {
        StaleDoubles(j, d, p1.(empties := p.empties + 1, index := if j.counting then p.index + 1 else p.index));
      } else {
        var h, q := Translated(b), Called(p1, Began(Translated(b), p.index));
        var q1 := Called(q, Ended(h, q.index)).(index := q.index + 1);
        if NumBlocks(h.filesize) == 0 { StaleDoubles(j, d, q1); }
        NextEntry(j, d, q, h, b);
      }
    }
  }

  /** So the first bytes handed out as data are the header's. */
  lemma HeaderHandedOut(j: Job, p: Place)
    requires j.failing == 0 && p.empties < 2 && p.used < |j.blocks| && j.blocks[p.used][0] != 0
    ensures var b, r := j.blocks[p.used], StaleEntries(j, p);
      var h := Translated(b);
      0 < h.filesize ==> p.log + [Began(h, p.index), Wrote(h, p.index, b[..PortionSize(h.filesize, 0)])] <= r.log
  {
    hide Entries, StaleHeader, StaleData, DataBlocks, DataBlock, UntarSame.Body, PortionSize, Translated;
    var b := j.blocks[p.used];
    var h, p1 := Translated(b), p.(used := p.used + 1);
    var q := Called(p1, Began(h, p.index));
    var q1 := Called(q, Wrote(h, q.index, b[..PortionSize(h.filesize, 0)]));
    BegunStep(j, p, true, b);
    BegunHeaderStep(j, p1, true, b);
    StaleDataStep(j, q, h, 0, b);
    DataStep(j, q, h, 0, b);
    DataIsBody(j, q1, h, 1);
    var r := UntarSame.Body(j, q1, h, 1);
    if r.1 == 0 { LogGrows(j, r.0); }
  }

  /** What an extraction that finds `block_read` set comes to. */
  lemma NextExtraction(untar: Untar.Extractor, memory: seq<byte>)
    requires |memory| == TAR_BLOCK_SIZE + 1 && !untar.readStep && untar.blockRead
    requires untar.reader.next <= |untar.reader.blocks|
    ensures var blocks := untar.reader.blocks;
      var d := Job(Doubled(blocks, FirstWithData(blocks, untar.reader.next, 0)), false, untar.failing);
      var r, s := untar.ToDo(memory), Entries(d, Place(untar.reader.next, 0, 0, untar.log));
      r.log == s.log && r.status == s.status
  {
    hide Entries, StaleEntries, HeaderBlock, StaleHeader, Doubled;
    var blocks := untar.reader.blocks;
    var d := Job(Doubled(blocks, FirstWithData(blocks, untar.reader.next, 0)), false, untar.failing);
    StaleDoubles(untar.J(false), d, Place(untar.reader.next, 0, 0, untar.log));
  }
}
