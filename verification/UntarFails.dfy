/** What becomes of an extraction when a callback fails. */
module UntarFails {
  import opened Bits
  import opened TarHeader
  import opened UntarSpec

  /** The return code for a call that fails. */
  function CodeOf(e: Event): int {
    match e
    case Wrote(_, _, _) => -2
    case Began(_, _) => -3
    case Ended(_, _) => -4
  }

  /** Calls are never taken back. */
  lemma {:induction false} EntriesGrow(j: Job, p: Place)
    requires j.failing == 0
    ensures p.log <= Entries(j, p).log
    decreases |j.blocks| - p.used, 0
  {
    hide Entries, HeaderBlock, DataBlocks, Translated;
    EntriesStep(j, p);
    if p.empties < 2 && p.used < |j.blocks| {
      var p1, b := p.(used := p.used + 1), j.blocks[p.used];
      HeaderStep(j, p1, b);
      if b[0] == 0 {
        EntriesGrow(j, Place(p1.used, if j.counting then p.index + 1 else p.index, p.empties + 1, p.log));
      } else {
        DataGrow(j, Called(p1, Began(Translated(b), p.index)), Translated(b), 0);
      }
    }
  }

  lemma {:induction false} DataGrow(j: Job, p: Place, h: EntryHeader, i: nat)
    requires j.failing == 0
    ensures p.log <= DataBlocks(j, p, h, i).log
    decreases |j.blocks| - p.used, 1
  {
    hide Entries, DataBlocks, DataBlock, PortionSize, NumBlocks;
    DataBlocksStep(j, p, h, i);
    if i < NumBlocks(h.filesize) {
      if p.used < |j.blocks| {
        var p1, b := p.(used := p.used + 1), j.blocks[p.used];
        DataStep(j, p1, h, i, b);
        DataGrow(j, Called(p1, Wrote(h, p.index, b[..PortionSize(h.filesize, i)])), h, i + 1);
      }
    } else {
      EntriesGrow(j, Called(p, Ended(h, p.index)).(index := p.index + 1));
    }
  }

  /** An extraction that comes to `all` if no callback fails comes to `r` if call `k` does. */
  ghost predicate CutAt(all: Outcome, k: nat, r: Outcome) {
    if k == 0 || |all.log| < k then r == all
    else r.log == all.log[..k] && r.status == Failed(CodeOf(all.log[k - 1]))
  }

  /** The call that fails is the last. */
  lemma CutHere(all: Outcome, log: seq<Event>, k: nat, r: Outcome)
    requires |log| == k > 0 && log <= all.log && r.log == log && r.status == Failed(CodeOf(log[k - 1]))
    ensures CutAt(all, k, r)
  {}

  lemma {:induction false} EntriesFail(j: Job, p: Place, k: nat)
    requires j.failing == 0 && |p.log| < k
    ensures CutAt(Entries(j, p), k, Entries(j.(failing := k), p))
    decreases |j.blocks| - p.used, 0
  {
    hide Entries, HeaderBlock, DataBlocks, Translated, CutAt;
    var f := j.(failing := k);
    EntriesStep(j, p);
    EntriesStep(f, p);
    if p.empties < 2 && p.used < |j.blocks| {
      var p1, b := p.(used := p.used + 1), j.blocks[p.used];
      HeaderStep(j, p1, b);
      HeaderStep(f, p1, b);
      if b[0] == 0 {
        EntriesFail(j, Place(p1.used, if j.counting then p.index + 1 else p.index, p.empties + 1, p.log), k);
      } else {
        var h, q := Translated(b), Called(p1, Began(Translated(b), p.index));
        if |q.log| == k {
          DataGrow(j, q, h, 0);
          CutHere(Entries(j, p), q.log, k, Entries(f, p));
        } else {
          DataFail(j, q, h, 0, k);
        }
      }
    } else {
      NotCut(Entries(j, p), p.log, k);
    }
  }

  lemma NotCut(all: Outcome, log: seq<Event>, k: nat)
    requires all.log == log && |log| < k
    ensures CutAt(all, k, all)
  {}

  lemma {:induction false} DataFail(j: Job, p: Place, h: EntryHeader, i: nat, k: nat)
    requires j.failing == 0 && |p.log| < k
    ensures CutAt(DataBlocks(j, p, h, i), k, DataBlocks(j.(failing := k), p, h, i))
    decreases |j.blocks| - p.used, 1
  {
    hide Entries, DataBlocks, DataBlock, PortionSize, NumBlocks, CutAt;
    var f := j.(failing := k);
    DataBlocksStep(j, p, h, i);
    DataBlocksStep(f, p, h, i);
    if i < NumBlocks(h.filesize) {
      if p.used < |j.blocks| {
        var p1, b := p.(used := p.used + 1), j.blocks[p.used];
        var q := Called(p1, Wrote(h, p.index, b[..PortionSize(h.filesize, i)]));
        DataStep(j, p1, h, i, b);
        DataStep(f, p1, h, i, b);
        if |q.log| == k {
          DataGrow(j, q, h, i + 1);
          CutHere(DataBlocks(j, p, h, i), q.log, k, DataBlocks(f, p, h, i));
        } else {
          DataFail(j, q, h, i + 1, k);
        }
      } else {
        NotCut(DataBlocks(j, p, h, i), p.log, k);
      }
    } else {
      var q := Called(p, Ended(h, p.index)).(index := p.index + 1);
      if |q.log| == k {
        EntriesGrow(j, q);
        CutHere(DataBlocks(j, p, h, i), q.log, k, DataBlocks(f, p, h, i));
      } else {
        EntriesFail(j, q, k);
      }
    }
  }

  /** Whatever the archive, if call `k` of a callback fails, the calls made are the first `k` of
      those made otherwise, and the code says which callback it was; if there are not so many
      calls, nothing changes. */
  lemma FailingCall(blocks: seq<Block>, counting: bool, k: nat)
    ensures CutAt(Entries(Job(blocks, counting, 0), Place(0, 0, 0, [])), k,
                  Entries(Job(blocks, counting, k), Place(0, 0, 0, [])))
  {
    hide Entries;
    if k > 0 { EntriesFail(Job(blocks, counting, 0), Place(0, 0, 0, []), k); }
  }

  /** An archive that ends within an entry gives -5, and one that ends before a header none of
      these codes. */
  lemma EndsShort(j: Job, p: Place, h: EntryHeader, i: nat)
    requires p.used == |j.blocks|
    ensures i < NumBlocks(h.filesize) ==> DataBlocks(j, p, h, i) == Outcome(p.log, Failed(-5), p.used)
    ensures p.empties < 2 ==> Entries(j, p) == Outcome(p.log, Short, p.used)
  {
    hide NumBlocks, DataBlock, HeaderBlock;
    EntriesStep(j, p);
    DataBlocksStep(j, p, h, i);
  }
}
