/** The extractor, as one loop (read_tar) and as a step machine (read_tar_step). */
module Untar {
  import opened Bits
  import opened TarHeader
  import opened UntarSpec

  /** Where read_cb gets blocks from: a file, or the buffer that gz decompression fills. */
  class BlockReader {
    var data: seq<byte>
    /** The number of blocks taken from `data`. */
    var pos: nat
    /** Blocks in the gz buffer (`blockmod`); 0 for a file. */
    const blockmod: nat
    /** All blocks there will ever be, and how many of them have been read. */
    ghost var blocks: seq<Block>
    ghost var next: nat

    /** A file. */
    constructor OfFile(data: seq<byte>)
      ensures Valid() && AllHeld() && blocks == BlocksOf(data) && next == 0
    {
      this.data, pos, blockmod, next, blocks := data, 0, 0, 0, BlocksOf(data);
      new;
      assert blocks[0..|blocks|] == blocks;
    }

    /** Blocks that are fetched one at a time; none has been yet. */
    constructor OfStream(ghost blocks: seq<Block>)
      ensures Valid() && blockmod == 0 && this.blocks == blocks && next == pos == 0 && data == []
    {
      data, pos, blockmod, next, this.blocks := [], 0, 0, 0, blocks;
    }

    /** A gz buffer, of which nothing has been filled yet, for the blocks to come. */
    constructor OfBuffer(ghost blocks: seq<Block>, blockmod: nat, data: seq<byte>)
      requires blockmod > 0 && blockmod <= |BlocksOf(data)|
      ensures Valid() && this.blockmod == blockmod && this.blocks == blocks && next == 0
    {
      this.data, pos, this.blockmod, next, this.blocks := data, blockmod, blockmod, 0, blocks;
    }

    /** The blocks that `data` holds. */
    ghost function Held(): nat
      reads this`data
    {
      if blockmod == 0 then |BlocksOf(data)| else blockmod
    }

    ghost predicate Valid()
      reads this
    {
      && pos <= Held() <= |BlocksOf(data)|
      && next + (Held() - pos) <= |blocks|
      && blocks[next..next + (Held() - pos)] == BlocksOf(data)[pos..Held()]
    }

    /** A file of which everything is there. */
    ghost predicate AllHeld()
      reads this
    {
      blockmod == 0 && next + Held() == |blocks| + pos
    }

    /** A block is there to be read, or there never will be one. */
    ghost predicate MayRead()
      reads this
    {
      pos < Held() || AllHeld()
    }

    /** The file callback and gzFeedTarBuffer; the latter always has a block to give, though
        not always a new one. */
    method Read(buff: array<byte>) returns (n: nat)
      requires Valid() && buff.Length >= 512 && MayRead()
      modifies this`pos, this`next, buff
      ensures Valid() && n <= 512
      ensures old(pos) < Held() ==> old(next) < |blocks| && n == 512 && buff[..512] == blocks[old(next)]
      ensures old(pos) < Held() ==> next == old(next) + 1 && pos == old(pos) + 1
      ensures old(pos) == Held() ==> old(next) == |blocks| && n < 512 && next == old(next) && pos == old(pos)
    {
      if pos < Held() { Following(blocks, BlocksOf(data), next, pos, Held()); }
      var at := if blockmod > 0 then InRing(pos, blockmod) else pos;
      n := if 512 * at + 512 <= |data| then 512 else |data| - 512 * at;
      CopyBytes(data, 512 * at, n, buff);
      if n == 512 {
        pos := pos + 1;
        next := next + 1;
      }
    }
  }

  /** The variables of the extractor. */
  class Extractor {
    const reader: BlockReader
    /** Which call of a callback fails. */
    const failing: nat
    /** All calls of callbacks. */
    var log: seq<Event>
    /** The callbacks are set (`read_tar_callbacks` is not NULL). */
    var active: bool
    const readBuffer: array<byte>
    var header: EntryHeader
    var numBlocks: nat
    var numBlocksIterator: nat
    var currentDataSize: nat
    var entryIndex: nat
    var emptyCount: nat
    var receivedBytes: nat
    /** `indatablock` is 0, not -1. */
    var inDataBlock: bool
    var tarError: int
    /** The statics of tar_step and tar_datablock_step. */
    var readStep: bool
    var blockRead: bool
    /** What the extraction under way must come to, the calls made before it, and whether
        `block_read` was set when it started. */
    ghost var goal: Outcome
    ghost var start: nat
    ghost var stale: bool

    constructor (reader: BlockReader, failing: nat)
      ensures this.reader == reader && this.failing == failing && log == [] && !active && tarError == TAR_OK
      ensures !readStep && !blockRead && fresh(readBuffer) && readBuffer.Length == TAR_BLOCK_SIZE + 1
    {
      this.reader, this.failing := reader, failing;
      log, active, tarError, inDataBlock, readStep, blockRead := [], false, TAR_OK, false, false, false;
      header := EntryHeader([], 0, 0, 0, 0, 0, 0, Other, [], [], [], Owner([], [], 0, 0));
      numBlocks, numBlocksIterator, currentDataSize, entryIndex, emptyCount, receivedBytes := 0, 0, 0, 0, 0, 0;
      readBuffer := new byte[TAR_BLOCK_SIZE + 1];
      goal, start, stale := Outcome([], Complete, 0), 0, false;
    }

    ghost function J(counting: bool): Job
      reads reader
    {
      Job(reader.blocks, counting, failing)
    }

    ghost function At(): Place
      reads this, reader
    {
      Place(reader.next, entryIndex, emptyCount, log)
    }

    /** The block read last. */
    ghost function Buffered(): Block
      requires readBuffer.Length == TAR_BLOCK_SIZE + 1
      reads readBuffer
    {
      readBuffer[..TAR_BLOCK_SIZE]
    }

    ghost predicate Ready()
      reads this, reader
    {
      reader.Valid() && readBuffer.Length == TAR_BLOCK_SIZE + 1
    }

    method ReadBlock() returns (res: int)
      requires Ready() && reader.MayRead()
      modifies this`tarError, reader`pos, reader`next, readBuffer
      ensures Ready() && (res == TAR_OK || res == TAR_ERROR)
      ensures old(reader.pos) < reader.Held() <==> res == TAR_OK
      ensures res == TAR_OK ==> old(reader.next) < |reader.blocks| && Buffered() == reader.blocks[old(reader.next)]
      ensures res == TAR_OK ==>
        reader.next == old(reader.next) + 1 && reader.pos == old(reader.pos) + 1 && tarError == old(tarError)
      ensures res != TAR_OK ==> reader.next == old(reader.next) == |reader.blocks| && reader.pos == old(reader.pos)
      ensures res != TAR_OK ==> tarError == TAR_ERR_READBLOCK_FAIL
    {
      var numRead := reader.Read(readBuffer);
      if numRead < TAR_BLOCK_SIZE {
        tarError := TAR_ERR_READBLOCK_FAIL;
        return TAR_ERROR;
      }
      res := TAR_OK;
    }

    /** Calls a callback. */
    method Call(e: Event) returns (res: int)
      modifies this`log
      ensures log == old(log) + [e] && (res == 0 <==> |log| != failing)
    {
      log := log + [e];
      res := if |log| != failing then 0 else -1;
    }

    method Abort()
      modifies this`active
      ensures !active
    {
      active := false;
    }

    /** Translates the header block and calls the header callback. */
    method CallHeader() returns (res: int)
      requires Ready()
      modifies this`log, this`header
      ensures header == Translated(Buffered()) && log == old(log) + [Began(header, entryIndex)]
      ensures res == 0 <==> |log| != failing
    {
      hide Translated, BlockReader.Valid;
      header := TranslateHeader(readBuffer);
      res := Call(Began(header, entryIndex));
    }

    /** The size of data block `i`, of `num` altogether, and its callback. */
    method WriteBlock(i: nat) returns (res: int)
      requires Ready() && numBlocks == NumBlocks(header.filesize)
      modifies this`log, this`currentDataSize, readBuffer
      ensures log == old(log) + [Wrote(header, entryIndex, old(Buffered())[..PortionSize(header.filesize, i)])]
      ensures currentDataSize == PortionSize(header.filesize, i) && (res == 0 <==> |log| != failing)
    {
      if i + 1 >= numBlocks {
        currentDataSize := LastPortion(header.filesize);
      } else {
        currentDataSize := TAR_BLOCK_SIZE;
      }
      assert readBuffer[..currentDataSize] == Buffered()[..currentDataSize];
      readBuffer[currentDataSize] := 0;
      res := Call(Wrote(header, entryIndex, readBuffer[..currentDataSize]));
    }

    /** One turn of the loop over the data blocks of an entry. */
    method ExtractBlock(i: nat) returns (res: int)
      requires Ready() && reader.AllHeld() && numBlocks == NumBlocks(header.filesize) && i < numBlocks
      modifies this`log, this`active, this`tarError, this`currentDataSize, this`receivedBytes,
               reader`pos, reader`next, readBuffer
      ensures Ready() && reader.AllHeld() && reader.next >= old(reader.next)
      ensures var r := DataBlocks(J(true), old(At()), header, i);
        if res == TAR_OK then r == DataBlocks(J(true), At(), header, i + 1) && active == old(active)
        else r == Outcome(log, Failed(res), reader.next) && !active
    {
      hide Entries, HeaderBlock, DataBlocks, DataBlock, NumBlocks, PortionSize, BlockReader.Valid, BlockReader.Held;
      ghost var j, p := J(true), At();
      DataBlocksStep(j, p, header, i);
      res := ReadBlock();
      if res != TAR_OK {
        Abort();
        tarError := TAR_ERR_READBLOCK_FAIL;
        return tarError;
      }
      DataStep(j, At(), header, i, Buffered());
      res := WriteBlock(i);
      if res != 0 {
        Abort();
        tarError := TAR_ERR_DATACB_FAIL;
        return tarError;
      }
      receivedBytes := receivedBytes + currentDataSize;
    }

    /** The data blocks of one entry. */
    method ExtractData() returns (res: int)
      requires Ready() && reader.AllHeld() && numBlocks == NumBlocks(header.filesize)
      modifies this`log, this`active, this`tarError, this`currentDataSize, this`receivedBytes,
               reader`pos, reader`next, readBuffer
      ensures Ready() && reader.AllHeld() && reader.next >= old(reader.next)
      ensures var r := DataBlocks(J(true), old(At()), header, 0);
        if res == TAR_OK then r == DataBlocks(J(true), At(), header, numBlocks) && active == old(active)
        else r == Outcome(log, Failed(res), reader.next) && !active
    {
      hide DataBlocks, NumBlocks, BlockReader.Valid;
      var i: nat := 0;
      receivedBytes := 0;
      while i < numBlocks
        invariant Ready() && reader.AllHeld() && i <= numBlocks
        invariant active == old(active) && reader.next >= old(reader.next)
        invariant DataBlocks(J(true), At(), header, i) == DataBlocks(J(true), old(At()), header, 0)
      {
        res := ExtractBlock(i);
        if res != TAR_OK {
          return;
        }
        i := i + 1;
      }
      res := TAR_OK;
    }

    /** The entry whose header has been read: its return code, or 0 to go on. */
    method ExtractEntry() returns (res: int)
      requires Ready() && reader.AllHeld() && active && readBuffer[0] != 0
      modifies this`log, this`active, this`tarError, this`currentDataSize, this`receivedBytes, this`header,
               this`numBlocks, reader`pos, reader`next, readBuffer
      ensures Ready() && reader.AllHeld() && reader.next >= old(reader.next)
      ensures var r := HeaderBlock(J(true), old(At()), old(Buffered()));
        if res == TAR_OK then r == Entries(J(true), At().(index := entryIndex + 1)) && active
        else r == Outcome(log, Failed(res), reader.next) && !active
    {
      hide Entries, HeaderBlock, DataBlocks, DataBlock, BlockReader.Valid, Translated, NumBlocks;
      ghost var j := J(true);
      HeaderStep(j, At(), Buffered());
      res := CallHeader();
      if res != 0 {
        Abort();
        tarError := TAR_ERR_HEADERCB_FAIL;
        return tarError;
      }
      numBlocks := NumBlocks(header.filesize);
      res := ExtractData();
      if res != TAR_OK {
        return;
      }
      res := EndEntry();
    }

    /** The callback at the end of an entry. */
    method EndEntry() returns (res: int)
      requires numBlocks == NumBlocks(header.filesize)
      modifies this`log, this`active, this`tarError
      ensures var r := DataBlocks(J(true), old(At()), header, numBlocks);
        if res == TAR_OK then r == Entries(J(true), At().(index := entryIndex + 1)) && active == old(active)
        else r == Outcome(log, Failed(res), reader.next) && !active
    {
      hide Entries, DataBlocks, NumBlocks;
      DataBlocksStep(J(true), At(), header, numBlocks);
      res := Call(Ended(header, entryIndex));
      if res != 0 {
        Abort();
        tarError := TAR_ERR_FOOTERCB_FAIL;
        return tarError;
      }
    }

    /** One turn of the loop over the entries. */
    method ExtractNext() returns (res: int)
      requires Ready() && reader.AllHeld() && active
      modifies this`log, this`active, this`tarError, this`currentDataSize, this`receivedBytes, this`header,
               this`numBlocks, this`emptyCount, this`entryIndex, reader`pos, reader`next, readBuffer
      ensures Ready() && reader.AllHeld() && reader.next >= old(reader.next)
      ensures var r := HeaderBlock(J(true), old(At()), old(Buffered()));
        if res == TAR_OK then r == Entries(J(true), At()) && active
        else r == Outcome(log, Failed(res), reader.next) && !active
    {
      hide Entries, HeaderBlock, DataBlocks, DataBlock, BlockReader.Valid, Translated, NumBlocks;
      HeaderStep(J(true), At(), Buffered());
      res := TAR_OK;
      if readBuffer[0] == 0 {
        emptyCount := emptyCount + 1;
      } else {
        res := ExtractEntry();
        if res != TAR_OK {
          return;
        }
      }
      entryIndex := entryIndex + 1;
    }

    /** read_tar. */
    method ReadTar() returns (res: int)
      requires Ready() && reader.AllHeld()
      modifies this`log, this`active, this`tarError, this`currentDataSize, this`receivedBytes, this`header,
               this`numBlocks, this`emptyCount, this`entryIndex, this`inDataBlock, reader`pos, reader`next, readBuffer
      ensures Ready() && !active
      ensures var r := Entries(J(true), Place(old(reader.next), 0, 0, old(log)));
        log == r.log && reader.next == r.used && res == if r.status.Failed? then r.status.code else TAR_OK
    {
      hide Entries, HeaderBlock, DataBlocks, DataBlock, BlockReader.Valid, Translated, NumBlocks;
      active := true;
      entryIndex, emptyCount, inDataBlock := 0, 0, false;
      readBuffer[TAR_BLOCK_SIZE] := 0;
      ghost var r := Entries(J(true), At());
      while emptyCount < 2
        invariant Ready() && reader.AllHeld() && active && Entries(J(true), At()) == r
        decreases |reader.blocks| - reader.next
      {
        EntriesStep(J(true), At());
        res := ReadBlock();
        if res != TAR_OK {
          Abort();
          return TAR_OK;
        }
        res := ExtractNext();
        if res != TAR_OK {
          return;
        }
      }
      EntriesStep(J(true), At());
      Abort();
      res := TAR_OK;
    }

    /** What the extraction comes to from where the step machine is. */
    ghost function Rest(): Outcome
      requires readBuffer.Length == TAR_BLOCK_SIZE + 1
      reads this, reader, readBuffer
    {
      if inDataBlock then
        if blockRead then StaleData(J(false), At(), header, numBlocksIterator, Buffered())
        else DataBlocks(J(false), At(), header, numBlocksIterator)
      else Begun(J(false), At(), readStep, blockRead, Buffered())
    }

    /** Between steps: what is still to come leads to the goal; once the callbacks are unset
        the goal has been reached. */
    ghost predicate Stepping()
      reads this, reader, readBuffer
    {
      && Ready() && start <= |log|
      && (inDataBlock ==> !readStep && numBlocks == NumBlocks(header.filesize))
      && (inDataBlock || readStep ==> emptyCount < 2)
      && (if active && tarError == TAR_OK then Rest() == goal && Held()
          else if active then Reached() && tarError < TAR_ERROR && goal.status == Failed(tarError)
          else Reached())
    }

    /** `block_read` has been set since before this extraction, which has not used it yet. */
    ghost predicate Lingers()
      reads this
    {
      stale && NoData(log, start)
    }

    /** Unless it has been left over, `block_read` is only set for a block of the entry. */
    ghost predicate Held()
      reads this
    {
      (Lingers() ==> blockRead) && (blockRead ==> Lingers() || (inDataBlock && numBlocksIterator < numBlocks))
    }

    ghost predicate Reached()
      reads this, reader
    {
      && log == goal.log && reader.next == goal.used && !readStep
      && (blockRead <==> goal.status == Failed(TAR_ERR_DATACB_FAIL) || Lingers())
    }

    /** What an extraction started now comes to, given the initial contents of its buffer. */
    ghost function ToDo(memory: seq<byte>): Outcome
      requires |memory| == TAR_BLOCK_SIZE + 1
      reads this, reader
    {
      Begun(J(false), Place(reader.next, 0, 0, log), readStep, blockRead, memory[..TAR_BLOCK_SIZE])
    }

    lemma CleanToDo(memory: seq<byte>)
      requires |memory| == TAR_BLOCK_SIZE + 1 && !readStep && !blockRead
      ensures ToDo(memory) == Entries(J(false), Place(reader.next, 0, 0, log))
    {
      hide Begun, Entries;
      CleanStart(J(false), Place(reader.next, 0, 0, log), memory[..TAR_BLOCK_SIZE]);
    }

    /** tar_setup, whose malloc returns `memory`. The statics are not reset. */
    method TarSetup(memory: seq<byte>)
      requires Ready() && |memory| == TAR_BLOCK_SIZE + 1
      modifies this, readBuffer
      ensures Stepping() && active && reader.next == old(reader.next) && log == old(log)
      ensures goal == old(ToDo(memory))
      ensures start == |log| && stale == old(blockRead) == blockRead && readStep == old(readStep)
    {
      hide Begun, NoData, BlockReader.Valid, Stepping;
      tarError, active := TAR_OK, true;
      Allocate(memory);
      entryIndex, emptyCount, inDataBlock := 0, 0, false;
      goal, start, stale := Begun(J(false), At(), readStep, blockRead, Buffered()), |log|, blockRead;
      SetUp();
    }

    method Allocate(memory: seq<byte>)
      requires readBuffer.Length == |memory| == TAR_BLOCK_SIZE + 1
      modifies readBuffer
      ensures Buffered() == memory[..TAR_BLOCK_SIZE]
    {
      CopyBytes(memory, 0, TAR_BLOCK_SIZE, readBuffer);
      readBuffer[TAR_BLOCK_SIZE] := 0;
      assert Buffered() == memory[..TAR_BLOCK_SIZE];
    }

    lemma SetUp()
      requires Ready() && active && tarError == TAR_OK && !inDataBlock && emptyCount == 0
      requires goal == Begun(J(false), At(), readStep, blockRead, Buffered()) && start == |log| && stale == blockRead
      ensures Stepping()
    {
      hide Begun, NoData, BlockReader.Valid;
      NoDataYet(log);
    }

    /** expand_tar_data_block. */
    method ExpandDataBlock() returns (res: int)
      requires Ready() && numBlocks == NumBlocks(header.filesize) && numBlocksIterator < numBlocks
      modifies this`log, this`currentDataSize, this`receivedBytes, this`numBlocksIterator, readBuffer
      ensures var r := DataBlock(J(false), old(At()), header, old(numBlocksIterator), old(Buffered()));
        if res == TAR_OK then
          r == DataBlocks(J(false), At(), header, numBlocksIterator) && numBlocksIterator == old(numBlocksIterator) + 1
        else
          && r == Outcome(log, Failed(TAR_ERR_DATACB_FAIL), reader.next) && res == TAR_ERR_DATACB_FAIL
          && numBlocksIterator == old(numBlocksIterator)
      ensures start <= old(|log|) ==> start <= |log| && !NoData(log, start)
    {
      hide Entries, HeaderBlock, DataBlocks, DataBlock, NumBlocks, PortionSize, BlockReader.Valid, NoData;
      if start <= |log| {
        var n := PortionSize(header.filesize, numBlocksIterator);
        NoDataStep(log, start, Wrote(header, entryIndex, Buffered()[..n]));
      }
      DataStep(J(false), At(), header, numBlocksIterator, Buffered());
      res := WriteBlock(numBlocksIterator);
      if res != 0 {
        return TAR_ERR_DATACB_FAIL;
      }
      numBlocksIterator := numBlocksIterator + 1;
      receivedBytes := receivedBytes + currentDataSize;
    }

    /** What a step is allowed to do: at most one block is read, and the work left shrinks. */
    twostate predicate OneStep()
      reads this, reader
    {
      && old(reader.next) <= reader.next <= old(reader.next) + 1
      && reader.pos - old(reader.pos) == reader.next - old(reader.next)
      && (active ==> reader.next > old(reader.next) || Rank() < old(Rank()))
      && (reader.next > old(reader.next) ==> active && Holding())
      && goal == old(goal)
    }

    /** A block has been read and not been used yet. */
    ghost predicate Holding()
      reads this
    {
      readStep || (inDataBlock && blockRead)
    }

    ghost function Rank(): nat
      reads this
    {
      if inDataBlock then (if blockRead then 2 else 1) else if readStep then 3 else 0
    }

    /** tar_datablock_step: reads a data block, or passes on the one just read, or ends the entry. */
    method TarDatablockStep() returns (res: int)
      requires Stepping() && active && tarError == TAR_OK && inDataBlock && !readStep && reader.MayRead()
      modifies this`log, this`currentDataSize, this`receivedBytes, this`numBlocksIterator, this`active, this`tarError,
               this`inDataBlock, this`blockRead, this`entryIndex, reader`pos, reader`next, readBuffer
      ensures Stepping() && OneStep()
      ensures if res == TAR_CONTINUE || res == TAR_ERROR then active
              else res < TAR_ERROR && !active && goal.status == Failed(res)
      ensures old(numBlocksIterator) < numBlocks ==> res != TAR_ERROR
      ensures old(numBlocksIterator) >= numBlocks ==> res == TAR_ERROR || res == TAR_ERR_FOOTERCB_FAIL
    {
      hide Begun, StaleData, DataBlocks, DataBlock, NumBlocks, PortionSize, BlockReader.Valid, BlockReader.Held, NoData;
      if numBlocksIterator < numBlocks {
        if !blockRead {
          res := ReadDataBlock();
        } else {
          StaleDataStep(J(false), At(), header, numBlocksIterator, Buffered());
          res := ExpandDataBlock();
          if res != 0 {
            Abort();
            return;
          }
          blockRead := false;
          res := TAR_CONTINUE;
        }
      } else {
        EndStep(At(), numBlocksIterator);
        inDataBlock := false;
        res := Call(Ended(header, entryIndex));
        if res != 0 {
          Abort();
          tarError := TAR_ERR_FOOTERCB_FAIL;
          return tarError;
        }
        entryIndex := entryIndex + 1;
        res := TAR_ERROR;
      }
    }

    lemma EndStep(p: Place, i: nat)
      requires readBuffer.Length == TAR_BLOCK_SIZE + 1 && i >= NumBlocks(header.filesize)
      ensures var q := Called(p, Ended(header, p.index));
        q == Place(p.used, p.index, p.empties, p.log + [Ended(header, p.index)])
        && (if blockRead then StaleData(J(false), p, header, i, Buffered()) else DataBlocks(J(false), p, header, i)) ==
             if |q.log| != failing then Begun(J(false), q.(index := q.index + 1), false, blockRead, Buffered())
             else Outcome(q.log, Failed(TAR_ERR_FOOTERCB_FAIL), q.used)
      ensures start <= |p.log| ==> (NoData(p.log + [Ended(header, p.index)], start) <==> NoData(p.log, start))
    {
      hide Begun, StaleData, DataBlocks, Entries, NumBlocks, NoData;
      StaleDataStep(J(false), p, header, i, Buffered());
      DataBlocksStep(J(false), p, header, i);
      CleanStart(J(false), Called(p, Ended(header, p.index)).(index := p.index + 1), Buffered());
      if start <= |p.log| { NoDataStep(p.log, start, Ended(header, p.index)); }
    }

    method ReadDataBlock() returns (res: int)
      requires Stepping() && active && tarError == TAR_OK && inDataBlock && !readStep && !blockRead && reader.MayRead()
        && numBlocksIterator < numBlocks
      modifies this`active, this`tarError, this`blockRead, reader`pos, reader`next, readBuffer
      ensures Stepping() && OneStep()
      ensures if res == TAR_CONTINUE then active && blockRead
              else res == TAR_ERR_READBLOCK_FAIL && !active && goal.status == Failed(res)
    {
      hide Begun, StaleData, DataBlocks, DataBlock, NumBlocks, BlockReader.Valid, BlockReader.Held, NoData;
      DataBlocksStep(J(false), At(), header, numBlocksIterator);
      res := ReadBlock();
      StaleDataStep(J(false), At(), header, numBlocksIterator, Buffered());
      if res != 0 {
        Abort();
        tarError := TAR_ERR_READBLOCK_FAIL;
        return tarError;
      }
      blockRead := true;
      res := TAR_CONTINUE;
    }

    lemma BeginStep(p: Place)
      requires readBuffer.Length == TAR_BLOCK_SIZE + 1 && readBuffer[0] != 0
      ensures var h := Translated(Buffered());
        var q := Place(p.used, p.index, p.empties, p.log + [Began(h, p.index)]);
        Begun(J(false), p, true, blockRead, Buffered()) ==
          if |q.log| == failing then Outcome(q.log, Failed(TAR_ERR_HEADERCB_FAIL), q.used)
          else if blockRead then StaleData(J(false), q, h, 0, Buffered()) else DataBlocks(J(false), q, h, 0)
      ensures start <= |p.log| ==>
        (NoData(p.log + [Began(Translated(Buffered()), p.index)], start) <==> NoData(p.log, start))
    {
      hide Begun, StaleData, DataBlocks, Translated, NoData;
      BegunHeaderStep(J(false), p, blockRead, Buffered());
      if start <= |p.log| { NoDataStep(p.log, start, Began(Translated(Buffered()), p.index)); }
    }

    /** The header callback of an entry. */
    method BeginEntry() returns (res: int)
      requires Stepping() && active && tarError == TAR_OK && !inDataBlock && readStep && readBuffer[0] != 0
      modifies this`log, this`receivedBytes, this`numBlocksIterator, this`active, this`tarError,
               this`inDataBlock, this`header, this`numBlocks, this`readStep
      ensures Stepping() && !readStep && goal == old(goal)
      ensures if res == TAR_OK then active && tarError == TAR_OK && inDataBlock && numBlocksIterator == 0
              else res == TAR_ERR_HEADERCB_FAIL && !active && goal.status == Failed(res)
    {
      hide Begun, StaleData, DataBlocks, NumBlocks, BlockReader.Valid, Translated, NoData, BlockReader.MayRead;
      BeginStep(At());
      readStep := false;
      res := CallHeader();
      if res != 0 {
        Abort();
        tarError := TAR_ERR_HEADERCB_FAIL;
        return tarError;
      }
      numBlocksIterator, receivedBytes := 0, 0;
      numBlocks := NumBlocks(header.filesize);
      inDataBlock := true;
    }

    /** The header block that has been read: an empty one, or an entry and its first data step. */
    method HeaderOf() returns (res: int)
      requires Stepping() && active && tarError == TAR_OK && !inDataBlock && readStep && reader.MayRead()
      modifies this`log, this`currentDataSize, this`receivedBytes, this`numBlocksIterator, this`active, this`tarError,
               this`inDataBlock, this`blockRead, this`entryIndex, this`emptyCount, this`header, this`numBlocks,
               this`readStep,
               reader`pos, reader`next, readBuffer
      ensures Stepping() && OneStep()
      ensures if res == TAR_OK then active || goal.status == Failed(TAR_ERR_FOOTERCB_FAIL)
              else res < TAR_ERROR && !active && goal.status == Failed(res)
    {
      hide Begun, StaleData, DataBlocks, NumBlocks, BlockReader.Valid, Translated, NoData;
      BegunHeaderStep(J(false), At(), blockRead, Buffered());
      if readBuffer[0] == 0 {
        readStep := false;
        emptyCount := emptyCount + 1;
        return TAR_OK;
      }
      hide Stepping;
      res := BeginEntry();
      if res != 0 {
        return;
      }
      res := TarDatablockStep();
      if numBlocks > 0 && res < 0 {
        return;
      }
      res := TAR_OK;
    }

    /** tar_step. */
    method TarStep() returns (res: int)
      requires Stepping() && active && reader.MayRead()
      modifies this`log, this`currentDataSize, this`receivedBytes, this`numBlocksIterator, this`active, this`tarError,
               this`inDataBlock, this`blockRead, this`entryIndex, this`emptyCount, this`header, this`numBlocks,
               this`readStep,
               reader`pos, reader`next, readBuffer
      ensures Stepping() && OneStep()
      ensures res == TAR_EXPANDING_DONE ==> !active && goal.status == Complete
      ensures TAR_ERROR <= res <= TAR_CONTINUE ==>
        active || goal.status == Short || goal.status == Failed(TAR_ERR_FOOTERCB_FAIL)
      ensures res < TAR_ERROR ==> !active && goal.status == Failed(res)
      ensures res <= TAR_EXPANDING_DONE && (!active && goal.status == Short ==> old(reader.pos) >= reader.Held())
    {
      hide Begun, StaleData, DataBlocks, NumBlocks, BlockReader.Valid, BlockReader.Held, Translated, NoData;
      if tarError != TAR_OK {
        Abort();
        return tarError;
      }
      if inDataBlock {
        res := TarDatablockStep();
        return;
      }
      if !readStep {
        res := TopStep();
        return;
      }
      res := HeaderOf();
    }

    /** The end of the archive, or the next header block. */
    method TopStep() returns (res: int)
      requires Stepping() && active && tarError == TAR_OK && !inDataBlock && !readStep && reader.MayRead()
      modifies this`active, this`tarError, this`readStep, reader`pos, reader`next, readBuffer
      ensures Stepping() && OneStep()
      ensures res == TAR_EXPANDING_DONE ==> !active && goal.status == Complete
      ensures res == TAR_OK || res == TAR_ERROR ==> active || (goal.status == Short && old(reader.pos) >= reader.Held())
      ensures res in {TAR_OK, TAR_ERROR, TAR_EXPANDING_DONE}
    {
      hide Begun, StaleData, DataBlocks, BlockReader.Valid, BlockReader.Held, NoData;
      BegunStep(J(false), At(), blockRead, Buffered());
      if emptyCount >= 2 {
        Abort();
        return TAR_EXPANDING_DONE;
      }
      res := ReadBlock();
      if res != 0 {
        Abort();
        return TAR_ERROR;
      }
      readStep := true;
      res := TAR_OK;
    }

    /** read_tar_step. */
    method ReadTarStep() returns (res: int)
      requires active ==> Stepping() && reader.MayRead()
      modifies this`log, this`currentDataSize, this`receivedBytes, this`numBlocksIterator, this`active, this`tarError,
               this`inDataBlock, this`blockRead, this`entryIndex, this`emptyCount, this`header, this`numBlocks,
               this`readStep,
               reader`pos, reader`next, readBuffer
      ensures !old(active) ==> res == TAR_ERROR && !active && log == old(log)
      ensures !old(active) ==> reader.next == old(reader.next) && reader.pos == old(reader.pos)
      ensures old(Stepping()) ==> Stepping()
      ensures old(active) ==> Stepping() && OneStep() && Told(res)
      ensures old(active) && !active && goal.status == Short ==> old(reader.pos) >= reader.Held()
    {
      hide Stepping, OneStep, BlockReader.MayRead;
      if !active {
        return TAR_ERROR;
      }
      res := TarStep();
      if res < 0 {
        if res != TAR_ERROR {
          Abort();
        } else {
          res := TAR_OK;
        }
      } else if res != TAR_EXPANDING_DONE {
        res := TAR_OK;
      }
    }

    /** What the result of a step tells about the extraction. */
    ghost predicate Told(res: int)
      reads this`active, this`goal
    {
      && (res == TAR_OK ==> active || goal.status == Short || goal.status == Failed(TAR_ERR_FOOTERCB_FAIL))
      && (res == TAR_EXPANDING_DONE ==> !active && goal.status == Complete)
      && (res != TAR_OK && res != TAR_EXPANDING_DONE ==> res < TAR_ERROR && !active && goal.status == Failed(res))
    }

    lemma NextWithin()
      requires reader.Valid()
      ensures reader.next <= |reader.blocks|
    {}

    /** Steps until one does not return TAR_OK, reading from a file. */
    method Drive() returns (res: int)
      requires Stepping() && active && reader.AllHeld()
      modifies this`log, this`currentDataSize, this`receivedBytes, this`numBlocksIterator, this`active, this`tarError,
               this`inDataBlock, this`blockRead, this`entryIndex, this`emptyCount, this`header, this`numBlocks,
               this`readStep,
               reader`pos, reader`next, readBuffer
      ensures !active && log == goal.log && reader.next == goal.used && !readStep
      ensures blockRead <==> goal.status == Failed(TAR_ERR_DATACB_FAIL) || (stale && NoData(goal.log, start))
      ensures goal.status == Complete ==> res == TAR_EXPANDING_DONE
      ensures goal.status == Short ==> res == TAR_ERROR
      ensures goal.status.Failed? ==>
        res == goal.status.code || (goal.status.code == TAR_ERR_FOOTERCB_FAIL && res == TAR_ERROR)
    {
      hide Rest, BlockReader.Valid, NumBlocks;
      NextWithin();
      res := TAR_OK;
      while res == TAR_OK
        invariant Stepping() && (res == TAR_OK ==>
          active || goal.status == Short || goal.status == Failed(TAR_ERR_FOOTERCB_FAIL))
        invariant res == TAR_EXPANDING_DONE ==> !active && goal.status == Complete
        invariant res != TAR_OK && res != TAR_EXPANDING_DONE ==>
          !active && (goal.status == Failed(res)
                      || (res == TAR_ERROR && (goal.status == Short || goal.status == Failed(TAR_ERR_FOOTERCB_FAIL))))
        invariant reader.next <= |reader.blocks| && reader.AllHeld()
        decreases res == TAR_OK, active, |reader.blocks| - reader.next, Rank()
      {
        res := ReadTarStep();
        NextWithin();
      }
    }
  }

  function InRing(pos: nat, blockmod: nat): (r: nat)
    requires blockmod > 0
    ensures pos < blockmod ==> r == pos
  {
    pos % blockmod
  }

  method CopyBytes(data: seq<byte>, at: nat, n: nat, buff: array<byte>)
    requires n <= buff.Length && (n > 0 ==> at + n <= |data|)
    modifies buff
    ensures n > 0 ==> buff[..n] == data[at..at + n]
  {
    for i := 0 to n
      invariant n > 0 ==> buff[..i] == data[at..at + i]
    {
      buff[i] := data[at + i];
    }
  }

  lemma Following(blocks: seq<Block>, held: seq<Block>, next: nat, pos: nat, n: nat)
    requires pos < n <= |held| && next + (n - pos) <= |blocks| && blocks[next..next + (n - pos)] == held[pos..n]
    ensures blocks[next] == held[pos]
    ensures blocks[next + 1..next + (n - pos)] == held[pos + 1..n]
  {
    assert blocks[next..next + (n - pos)][0] == held[pos..n][0];
    assert blocks[next + 1..next + (n - pos)] == blocks[next..next + (n - pos)][1..];
  }
}
