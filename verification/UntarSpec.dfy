/** What extracting an archive means: the callbacks made for its blocks, in order. */
module UntarSpec {
  import opened Arithmetic
  import opened Bits
  import opened TarHeader

  const TAR_EXPANDING_DONE := 2
  const TAR_CONTINUE := 1
  const TAR_OK := 0
  const TAR_ERROR := -1
  const TAR_ERR_DATACB_FAIL := -2
  const TAR_ERR_HEADERCB_FAIL := -3
  const TAR_ERR_FOOTERCB_FAIL := -4
  const TAR_ERR_READBLOCK_FAIL := -5

  /** One call of a callback; `index` is the entry_index it is passed. */
  datatype Event =
    | Began(h: EntryHeader, index: nat)
    | Wrote(h: EntryHeader, index: nat, bytes: seq<byte>)
    | Ended(h: EntryHeader, index: nat)

  type Block = b: seq<byte> | |b| == TAR_BLOCK_SIZE witness seq(TAR_BLOCK_SIZE, i => 0)

  /** The whole blocks of some data. */
  function BlocksOf(data: seq<byte>): seq<Block> {
    seq(|data| / 512, (i: nat) requires 512 * i + 512 <= |data| => data[512 * i..512 * i + 512])
  }

  /** An archive, whether empty headers are counted as entries, and which call of a callback
      fails, counted from 1; none does if this is 0. No call is made after one that fails. */
  datatype Job = Job(blocks: seq<Block>, counting: bool, failing: nat)

  datatype Status = Complete | Short | Failed(code: int)

  datatype Outcome = Outcome(log: seq<Event>, status: Status, used: nat)

  /** Where an extraction has got: blocks read, entries and empty headers counted, calls made. */
  datatype Place = Place(used: nat, index: nat, empties: nat, log: seq<Event>)

  /** GET_NUM_BLOCKS. */
  function NumBlocks(filesize: nat): nat { (filesize + 511) / 512 }

  /** get_last_block_portion_size, whose argument is an int: the low 32 bits, signed. */
  function LastPortion(filesize: nat): (n: nat)
    ensures 0 < n <= 512
  {
    var low := filesize % 0x1_0000_0000;
    if low < 0x8000_0000 && low % 512 > 0 then low % 512 else 512
  }

  function PortionSize(filesize: nat, i: nat): (n: nat)
    ensures 0 < n <= 512
  {
    if i + 1 >= NumBlocks(filesize) then LastPortion(filesize) else 512
  }

  function Called(p: Place, e: Event): Place { p.(log := p.log + [e]) }

  /** From the top of the loop, which ends after two empty headers. */
  ghost function Entries(j: Job, p: Place): Outcome
    decreases |j.blocks| - p.used, 0
  {
    if p.empties >= 2 then Outcome(p.log, Complete, p.used)
    else if p.used >= |j.blocks| then Outcome(p.log, Short, p.used)
    else HeaderBlock(j, p.(used := p.used + 1), j.blocks[p.used])
  }

  /** With a header block read. */
  ghost function HeaderBlock(j: Job, p: Place, b: Block): Outcome
    decreases |j.blocks| - p.used, 3
  {
    if b[0] == 0 then Entries(j, p.(empties := p.empties + 1, index := if j.counting then p.index + 1 else p.index))
    else
      var h := Translated(b);
      var q := Called(p, Began(h, p.index));
      if |q.log| != j.failing then DataBlocks(j, q, h, 0) else Outcome(q.log, Failed(TAR_ERR_HEADERCB_FAIL), q.used)
  }

  /** With `i` data blocks of the entry done. */
  ghost function DataBlocks(j: Job, p: Place, h: EntryHeader, i: nat): Outcome
    decreases |j.blocks| - p.used, 1
  {
    if i < NumBlocks(h.filesize) then
      if p.used >= |j.blocks| then Outcome(p.log, Failed(TAR_ERR_READBLOCK_FAIL), p.used)
      else DataBlock(j, p.(used := p.used + 1), h, i, j.blocks[p.used])
    else
      var q := Called(p, Ended(h, p.index));
      if |q.log| != j.failing then Entries(j, q.(index := q.index + 1))
      else Outcome(q.log, Failed(TAR_ERR_FOOTERCB_FAIL), q.used)
  }

  /** With data block `i` read. */
  ghost function DataBlock(j: Job, p: Place, h: EntryHeader, i: nat, b: Block): Outcome
    decreases |j.blocks| - p.used, 2
  {
    var q := Called(p, Wrote(h, p.index, b[..PortionSize(h.filesize, i)]));
    if |q.log| != j.failing then DataBlocks(j, q, h, i + 1) else Outcome(q.log, Failed(TAR_ERR_DATACB_FAIL), q.used)
  }

  /** As Entries, but with `block_read` still set from an earlier extraction: the step machine
      then takes the block in its buffer, which is the header, for the first data block. */
  ghost function StaleEntries(j: Job, p: Place): Outcome
    decreases |j.blocks| - p.used, 0
  {
    if p.empties >= 2 then Outcome(p.log, Complete, p.used)
    else if p.used >= |j.blocks| then Outcome(p.log, Short, p.used)
    else StaleHeader(j, p.(used := p.used + 1), j.blocks[p.used])
  }

  ghost function StaleHeader(j: Job, p: Place, b: Block): Outcome
    decreases |j.blocks| - p.used, 2
  {
    if b[0] == 0 then
      StaleEntries(j, p.(empties := p.empties + 1, index := if j.counting then p.index + 1 else p.index))
    else
      var h := Translated(b);
      var q := Called(p, Began(h, p.index));
      if |q.log| != j.failing then StaleData(j, q, h, 0, b) else Outcome(q.log, Failed(TAR_ERR_HEADERCB_FAIL), q.used)
  }

  /** With block `b` in the buffer; an entry without data leaves `block_read` as it is. */
  ghost function StaleData(j: Job, p: Place, h: EntryHeader, i: nat, b: Block): Outcome
    decreases |j.blocks| - p.used, 1
  {
    if i < NumBlocks(h.filesize) then DataBlock(j, p, h, i, b)
    else
      var q := Called(p, Ended(h, p.index));
      if |q.log| != j.failing then StaleEntries(j, q.(index := q.index + 1))
      else Outcome(q.log, Failed(TAR_ERR_FOOTERCB_FAIL), q.used)
  }

  /** What an extraction comes to that starts with the flags `headerRead` (`readstep`) and
      `dataRead` (`block_read`) as given, and `b` in the buffer. */
  ghost function Begun(j: Job, p: Place, headerRead: bool, dataRead: bool, b: Block): Outcome {
    if headerRead then (if dataRead then StaleHeader(j, p, b) else HeaderBlock(j, p, b))
    else if dataRead then StaleEntries(j, p) else Entries(j, p)
  }

  /** With nothing left over from before. */
  lemma CleanStart(j: Job, p: Place, b: Block)
    ensures Begun(j, p, false, false, b) == Entries(j, p)
  {
    hide Entries, StaleEntries, HeaderBlock, StaleHeader;
  }

  lemma EntriesStep(j: Job, p: Place)
    ensures p.empties >= 2 ==> Entries(j, p) == Outcome(p.log, Complete, p.used)
    ensures p.empties < 2 && p.used >= |j.blocks| ==> Entries(j, p) == Outcome(p.log, Short, p.used)
    ensures p.empties < 2 && p.used < |j.blocks| ==>
      Entries(j, p) == HeaderBlock(j, p.(used := p.used + 1), j.blocks[p.used])
  {
    hide HeaderBlock;
  }

  lemma BegunStep(j: Job, p: Place, dataRead: bool, b: Block)
    ensures p.empties >= 2 ==> Begun(j, p, false, dataRead, b) == Outcome(p.log, Complete, p.used)
    ensures p.empties < 2 && p.used >= |j.blocks| ==>
      Begun(j, p, false, dataRead, b) == Outcome(p.log, Short, p.used)
    ensures p.empties < 2 && p.used < |j.blocks| ==>
      Begun(j, p, false, dataRead, b) == Begun(j, p.(used := p.used + 1), true, dataRead, j.blocks[p.used])
  {
    hide HeaderBlock, StaleHeader;
  }

  lemma BegunHeaderStep(j: Job, p: Place, dataRead: bool, b: Block)
    ensures b[0] == 0 ==>
      Begun(j, p, true, dataRead, b) == Begun(j,
        Place(p.used, if j.counting then p.index + 1 else p.index, p.empties + 1, p.log), false, dataRead, b)
    ensures b[0] != 0 ==>
      var h := Translated(b);
      var q := Called(p, Began(h, p.index));
      q == Place(p.used, p.index, p.empties, p.log + [Began(h, p.index)])
      && Begun(j, p, true, dataRead, b) ==
           if |q.log| == j.failing then Outcome(q.log, Failed(TAR_ERR_HEADERCB_FAIL), q.used)
           else if dataRead then StaleData(j, q, h, 0, b) else DataBlocks(j, q, h, 0)
  {
    hide DataBlocks, StaleData, Entries, StaleEntries, Translated;
  }

  lemma StaleDataStep(j: Job, p: Place, h: EntryHeader, i: nat, b: Block)
    ensures i < NumBlocks(h.filesize) ==> StaleData(j, p, h, i, b) == DataBlock(j, p, h, i, b)
    ensures i >= NumBlocks(h.filesize) ==>
      var q := Called(p, Ended(h, p.index));
      q == Place(p.used, p.index, p.empties, p.log + [Ended(h, p.index)])
      && StaleData(j, p, h, i, b) ==
           if |q.log| != j.failing then Begun(j, q.(index := q.index + 1), false, true, b)
           else Outcome(q.log, Failed(TAR_ERR_FOOTERCB_FAIL), q.used)
  {
    hide DataBlock, StaleEntries;
  }

  /** No data has been handed out since call `from`. */
  ghost predicate NoData(log: seq<Event>, from: nat) {
    forall e <- log[if from <= |log| then from else |log|..] :: !e.Wrote?
  }

  lemma NoDataYet(log: seq<Event>)
    ensures NoData(log, |log|)
  {}

  lemma NoDataStep(log: seq<Event>, from: nat, e: Event)
    requires from <= |log|
    ensures NoData(log + [e], from) <==> NoData(log, from) && !e.Wrote?
  {
    assert (log + [e])[from..] == log[from..] + [e];
  }

  lemma HeaderStep(j: Job, p: Place, b: Block)
    ensures b[0] == 0 ==>
      HeaderBlock(j, p, b) == Entries(j,
        Place(p.used, if j.counting then p.index + 1 else p.index, p.empties + 1, p.log))
    ensures b[0] != 0 ==>
      var h := Translated(b);
      var q := Called(p, Began(h, p.index));
      q == Place(p.used, p.index, p.empties, p.log + [Began(h, p.index)])
      && HeaderBlock(j, p, b) ==
           if |q.log| != j.failing then DataBlocks(j, q, h, 0)
             else Outcome(q.log, Failed(TAR_ERR_HEADERCB_FAIL), q.used)
  {
    hide DataBlocks, Entries, Translated;
  }

  lemma DataBlocksStep(j: Job, p: Place, h: EntryHeader, i: nat)
    ensures i < NumBlocks(h.filesize) && p.used >= |j.blocks| ==>
      DataBlocks(j, p, h, i) == Outcome(p.log, Failed(TAR_ERR_READBLOCK_FAIL), p.used)
    ensures i < NumBlocks(h.filesize) && p.used < |j.blocks| ==>
      DataBlocks(j, p, h, i) == DataBlock(j, p.(used := p.used + 1), h, i, j.blocks[p.used])
    ensures i >= NumBlocks(h.filesize) ==>
      var q := Called(p, Ended(h, p.index));
      q == Place(p.used, p.index, p.empties, p.log + [Ended(h, p.index)])
      && DataBlocks(j, p, h, i) ==
           if |q.log| != j.failing then Entries(j, q.(index := q.index + 1))
           else Outcome(q.log, Failed(TAR_ERR_FOOTERCB_FAIL), q.used)
  {
    hide DataBlock, Entries;
  }

  lemma DataStep(j: Job, p: Place, h: EntryHeader, i: nat, b: Block)
    ensures var q := Called(p, Wrote(h, p.index, b[..PortionSize(h.filesize, i)]));
      q == Place(p.used, p.index, p.empties, p.log + [Wrote(h, p.index, b[..PortionSize(h.filesize, i)])])
      && DataBlock(j, p, h, i, b) ==
           if |q.log| != j.failing then DataBlocks(j, q, h, i + 1)
             else Outcome(q.log, Failed(TAR_ERR_DATACB_FAIL), q.used)
  {
    hide DataBlocks, PortionSize;
  }

  /** The bytes passed on for the first `k` data blocks of an entry. */
  function Portions(filesize: nat, k: nat): nat {
    if k == 0 then 0 else Portions(filesize, k - 1) + PortionSize(filesize, k - 1)
  }

  lemma {:induction false} WholePortions(filesize: nat, k: nat)
    requires k < NumBlocks(filesize)
    ensures Portions(filesize, k) == 512 * k
  {
    hide LastPortion;
    if k == 0 {
    } else {
      WholePortions(filesize, k - 1);
    }
  }

  /** The low 32 bits of a number leave the same remainder. */
  lemma LowBits(n: nat)
    ensures n % 0x1_0000_0000 % 512 == n % 512
  {
    Quotient(n, 0x1_0000_0000);
    Quotient(n, 512);
    var low := n % 0x1_0000_0000;
    Remainder(low, n / 512 - 0x80_0000 * (n / 0x1_0000_0000), n % 512, 512);
  }

  lemma BlocksAround(n: nat)
    ensures 512 * (n / 512) <= n <= 512 * NumBlocks(n) < n + 512
    ensures NumBlocks(n) == if n % 512 == 0 then n / 512 else n / 512 + 1
  {}

  /** They sum up to the file size just when the low 32 bits of the size are no negative int,
      or there is no partial block anyway. */
  lemma PortionsSum(filesize: nat)
    ensures Portions(filesize, NumBlocks(filesize)) == filesize <==>
      filesize % 512 == 0 || filesize % 0x1_0000_0000 < 0x8000_0000
  {
    hide NumBlocks, Portions;
    BlocksAround(filesize);
    LowBits(filesize);
    Quotient(filesize, 512);
    var n := NumBlocks(filesize);
    if n > 0 {
      WholePortions(filesize, n - 1);
    }
    PortionsStep(filesize, n);
  }

  /** One byte more than 2 GiB: the last part is a whole block, which is 511 bytes too much. */
  lemma PortionsExceed()
    ensures Portions(0x8000_0001, NumBlocks(0x8000_0001)) == 0x8000_0001 + 511
  {
    hide Portions, LastPortion;
    WholePortions(0x8000_0001, 0x40_0000);
    PortionsStep(0x8000_0001, 0x40_0001);
    LastOfHuge();
  }

  lemma LastOfHuge()
    ensures LastPortion(0x8000_0001) == 512
  {}

  lemma PortionsStep(filesize: nat, k: nat)
    ensures Portions(filesize, k) == if k == 0 then 0 else Portions(filesize, k - 1) + PortionSize(filesize, k - 1)
  {}
}
