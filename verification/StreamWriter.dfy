/** The writer that compresses whatever is written to it, a buffer at a time
    (LZStreamWriter). */
module StreamWriter {
  import opened Arithmetic
  import opened Bits
  import opened Checksum
  import opened Chunked
  import opened DeflateStream
  import DeflStatic
  import opened Gzip
  import opened GzHeader
  import opened GzPack
  import Lz77
  import RoundTrip
  import StaticCode

  class LZStreamWriter {
    const bufSize: nat
    var srcLen: nat
    var outputBufIdx: nat
    const inputBuffer: array<byte>
    const uzstream: UzlibStream
    var prevState: int
    var dstLen: nat
    var totalBytes: nat
    /** `defl_mode` is Z_FINISH. */
    var finish: bool
    var success: bool
    var inLoop: bool
    /** All that the destination stream was handed; it takes whatever it is handed. */
    var dst: seq<byte>
    /** All bytes written so far, and the chunks made of them. */
    ghost var received: seq<byte>
    ghost var cs: seq<Chunk>
    /** Every chunk so far fitted the output buffer, with a byte to spare unless it was the last. */
    ghost var fits: bool

    constructor (srcLen: nat, bufSize: nat)
      requires bufSize > 0
      ensures this.bufSize == bufSize && this.srcLen == srcLen
      ensures if srcLen > 0 then Healthy() && received == [] else !success
      ensures fresh(uzstream) && fresh(uzstream.ctx) && fresh(uzstream.ctx.outbuf) && fresh(uzstream.ctx.hashTable)
      ensures fresh(uzstream.out) && fresh(inputBuffer)
    {
      assert Pow2(12) == 4096;
      hide Pow2, BytesBits, ToBits;
      var ctx := new DeflStatic.UzlibComp(true, false, 12, DICT_SIZE);
      var output := new byte[bufSize];
      this.bufSize, this.srcLen := bufSize, srcLen;
      inputBuffer := new byte[bufSize];
      uzstream := new UzlibStream(ctx, output);
      outputBufIdx, totalBytes, prevState, finish := 0, 0, Z_OK, false;
      dst, dstLen, success, inLoop := [], 0, false, false;
      received, cs, fits := [], [], true;
      new;
      Setup();
    }

    method Setup()
      requires !success && !inLoop && dst == [] && received == [] && cs == [] && !finish && prevState == Z_OK
      requires outputBufIdx == totalBytes == 0 && inputBuffer.Length == uzstream.out.Length == bufSize > 0
      requires uzstream.Ready() && uzstream.input == [] && uzstream.checksum == CRC_START && uzstream.outNext == 0
      requires uzstream.pending == [] && fits
      requires uzstream.ctx.dictSize == DICT_SIZE && uzstream.out != inputBuffer && uzstream.ctx.outbuf != inputBuffer
      modifies this`dst, this`dstLen, this`success, this`inLoop, uzstream`outAvail
      ensures if srcLen > 0 then Healthy() else !success
    {
      hide BytesBits, LZ_HEADER, Pow2;
      if srcLen == 0 {
        return;
      }
      dst := CompressHeader();
      dstLen := |dst|;
      uzstream.outAvail := bufSize;
      inLoop, success := true, true;
      assert LZ_HEADER + [] == LZ_HEADER;
    }

    /** Everything is in order and more is to come. */
    ghost predicate Healthy()
      reads this, inputBuffer, uzstream, uzstream.ctx, uzstream.ctx.outbuf, uzstream.out
    {
      && success && inLoop && prevState == Z_OK && !finish
      && Buffered(received) && |received| < srcLen && |received| - totalBytes < bufSize
      && Sent() && uzstream.input == [] && uzstream.pending == [] && uzstream.outAvail > 0 && fits
    }

    /** The compressor and the buffers are in order. */
    ghost predicate Base()
      reads uzstream, uzstream.ctx, uzstream.ctx.outbuf
    {
      && inputBuffer.Length == uzstream.out.Length == bufSize > 0 && uzstream.Ready()
      && uzstream.ctx.dictSize == DICT_SIZE && uzstream.out != inputBuffer && uzstream.ctx.outbuf != inputBuffer
    }

    /** A chunk did not fit, so that data are being lost: the output buffer is still full and
        the next flush will go without input, or else the count already lags behind. */
    ghost predicate Doomed()
      reads this, inputBuffer, uzstream, uzstream.ctx, uzstream.ctx.outbuf, uzstream.out
    {
      && success && inLoop && prevState == Z_OK && !finish && !fits && Base()
      && outputBufIdx == |received| < srcLen
      && var flushed := BufferStart(outputBufIdx, bufSize);
         if uzstream.outAvail == 0 then totalBytes <= flushed else totalBytes + bufSize <= flushed
    }

    /** The stream was never ended, so that there is no footer. */
    ghost predicate Unfinished()
      reads this
    {
      success && !fits && prevState != Z_STREAM_END
    }

    /** What was received is compressed, or else waits in the input buffer. */
    ghost predicate Buffered(all: seq<byte>)
      reads this, inputBuffer
    {
      && inputBuffer.Length == bufSize > 0
      && outputBufIdx == |all| && totalBytes <= |all| <= totalBytes + bufSize && totalBytes % bufSize == 0
      && inputBuffer[..|all| - totalBytes] == all[totalBytes..]
      && Data(cs) == all[..totalBytes]
    }

    /** The destination has the header and all chunks so far. */
    ghost predicate Sent()
      reads this`cs, this`dst, this`dstLen, uzstream, uzstream.ctx, uzstream.ctx.outbuf
    {
      && Chunks(cs, false, DICT_SIZE) && dst == LZ_HEADER + Bytes(cs) && dstLen == |dst|
      && uzstream.checksum == Crc(CRC_START, Data(cs)) && Base()
    }

    method CheckLength()
      modifies this`srcLen, this`success
      ensures success == (old(success) && prevState == Z_STREAM_END && totalBytes == old(srcLen))
      ensures srcLen == totalBytes
    {
      if prevState != Z_STREAM_END {
        success := false;
      }
      if totalBytes != srcLen {
        success := false;
        srcLen := totalBytes;
      }
    }

    /** Writes the footer; anything but a complete stream is marked as a failure. */
    method End()
      modifies this`srcLen, this`success, this`dst, this`dstLen
      ensures success == (old(success) && prevState == Z_STREAM_END && totalBytes == old(srcLen))
      ensures srcLen == totalBytes
      ensures dst == old(dst) + (Le32(Value(!uzstream.checksum)) + Le32(totalBytes % 0x1_0000_0000))
      ensures dstLen == old(dstLen) + 8
    {
      hide *;
      CheckLength();
      var footer := FooterBytes(!uzstream.checksum, srcLen);
      dst := dst + footer;
      dstLen := dstLen + |footer|;
    }

    /** The size of the output, or -1. Nothing but `end` ever takes the success back, so that a
        stream which lost data and was never ended has a size too. */
    method Size() returns (n: int)
      ensures n == if success then dstLen as int else -1
      ensures Finished() ==> n == |dst|
      ensures (Healthy() || Doomed() || Unfinished()) ==> n == dstLen && !Finished()
    {
      hide Healthy, Doomed;
      if Healthy() || Doomed() { AliveGives(); }
      n := if success then dstLen as int else -1;
    }

    /** The stream is complete: all that was received is compressed, the last chunk alone
        as final, and the footer is there once. */
    ghost predicate Finished()
      reads this
    {
      && success && !inLoop && prevState == Z_STREAM_END && |received| == srcLen == totalBytes
      && Member(dst, received, cs) && dstLen == |dst|
    }

    /** Hands the input buffer to the compressor, unless the output buffer is still full. */
    method Feed(inputBytes: nat)
      requires !finish && inputBytes <= inputBuffer.Length
      modifies this`totalBytes, this`finish, uzstream`input
      ensures uzstream.outAvail > 0 ==>
        && totalBytes == old(totalBytes) + inputBytes && uzstream.input == inputBuffer[..inputBytes]
        && finish == (totalBytes == srcLen)
      ensures uzstream.outAvail == 0 ==>
        totalBytes == old(totalBytes) && uzstream.input == old(uzstream.input) && !finish
    {
      if uzstream.outAvail > 0 {
        totalBytes := totalBytes + inputBytes;
        uzstream.input := inputBuffer[..inputBytes];
        if totalBytes == srcLen {
          finish := true;
        }
      }
    }

    /** Compresses the input into the output buffer, from its start. */
    method Squeeze() returns (ghost c: Chunk)
      requires Base()
      modifies this`prevState, this`cs, this`fits,
               uzstream, uzstream.ctx, uzstream.ctx.outbuf, uzstream.ctx.hashTable, uzstream.out
      ensures uzstream.ctx.outbuf == old(uzstream.ctx.outbuf) || fresh(uzstream.ctx.outbuf)
      ensures uzstream.outNext <= uzstream.out.Length
      ensures !finish ==> Base() && prevState == Z_OK && (!old(fits) ==> !fits)
      ensures old(uzstream.pending) == [] ==>
        Squeezed(old(uzstream.input), old(cs), old(uzstream.checksum), c, old(fits))
    {
      hide BytesBits, Crc, Pow2, Bytes, Data, Chunks, ToBits, Encodes;
      ghost var some := uzstream.Compresses(uzstream.pending, bufSize, uzstream.input, finish);
      uzstream.outNext, uzstream.outAvail := 0, bufSize;
      assert uzstream.out[..0] == [];
      prevState, c := uzstream.Deflate(finish);
      if some {
        cs := cs + [c];
        fits := fits && |c.bytes| + (if finish then 0 else 1) <= bufSize;
        NotEmpty(c, finish, DICT_SIZE);
      }
    }

    ghost predicate Squeezed(input: seq<byte>, before: seq<Chunk>, crc: bv32, c: Chunk, fitted: bool)
      reads this, inputBuffer, uzstream, uzstream.ctx, uzstream.ctx.outbuf, uzstream.out
    {
      && uzstream.outNext <= uzstream.out.Length
      && if input == [] && !finish then uzstream.outNext == 0
         else
           && c.data == input && Encodes(c, finish, DICT_SIZE) && |c.bytes| > 0
           && uzstream.checksum == Crc(crc, input) && uzstream.input == [] && cs == before + [c]
           && fits == (fitted && |c.bytes| + (if finish then 0 else 1) <= bufSize)
           && if |c.bytes| <= bufSize then
                && uzstream.out[..uzstream.outNext] == c.bytes && uzstream.pending == []
                && uzstream.outAvail == bufSize - |c.bytes|
                && (if finish then prevState == Z_STREAM_END else prevState == Z_OK && Base())
              else if finish then uzstream.outNext == 0 && prevState == Z_BUF_ERROR
              else prevState == Z_OK && uzstream.outNext == bufSize && uzstream.outAvail == 0 && Base()
    }

    /** Hands the contents of the output buffer on. */
    method HandOn() returns (writeSize: nat)
      requires uzstream.outNext <= uzstream.out.Length
      modifies this`dst, this`dstLen, this`inLoop
      ensures writeSize == uzstream.outNext && inLoop == (old(inLoop) && writeSize > 0)
      ensures dst == old(dst) + uzstream.out[..writeSize] && dstLen == old(dstLen) + writeSize
    {
      writeSize := uzstream.outNext;
      dst := dst + uzstream.out[..writeSize];
      if writeSize == 0 {
        inLoop := false;
        return;
      }
      dstLen := dstLen + writeSize;
    }

    /** Compresses the chunk and hands it on. */
    method Push() returns (writeSize: nat, ghost c: Chunk)
      requires Base()
      modifies this`prevState, this`dst, this`dstLen, this`inLoop, this`cs, this`fits,
               uzstream, uzstream.ctx, uzstream.ctx.outbuf, uzstream.ctx.hashTable, uzstream.out
      ensures uzstream.ctx.outbuf == old(uzstream.ctx.outbuf) || fresh(uzstream.ctx.outbuf)
      ensures inLoop == (old(inLoop) && writeSize > 0)
      ensures !finish ==> Base() && prevState == Z_OK && (!old(fits) ==> !fits)
      ensures old(uzstream.pending) == [] && old(dstLen) == |old(dst)| && old(fits) ==>
        Pushed(old(uzstream.input), old(cs), old(dst), old(uzstream.checksum), writeSize, c, old(inLoop))
    {
      hide BytesBits, Crc, Pow2, Bytes, Data, Chunks, ToBits, Encodes, UzlibStream.Ready;
      c := Squeeze();
      writeSize := HandOn();
    }

    ghost predicate Pushed(input: seq<byte>, before: seq<Chunk>, sent: seq<byte>, crc: bv32, writeSize: nat, c: Chunk,
      looping: bool)
      reads this, inputBuffer, uzstream, uzstream.ctx, uzstream.ctx.outbuf, uzstream.out
    {
      if input == [] && !finish then writeSize == 0 && !inLoop && dst == sent
      else
        && c.data == input && Encodes(c, finish, DICT_SIZE) && |c.bytes| > 0
        && uzstream.checksum == Crc(crc, input) && uzstream.input == [] && cs == before + [c]
        && fits == (|c.bytes| + (if finish then 0 else 1) <= bufSize)
        && if |c.bytes| <= bufSize then
             && writeSize == |c.bytes| && dst == sent + c.bytes && dstLen == |dst| && inLoop == looping
             && uzstream.pending == [] && uzstream.outAvail == bufSize - |c.bytes|
             && (if finish then prevState == Z_STREAM_END else prevState == Z_OK && Base())
           else if finish then writeSize == 0 && !inLoop && dst == sent && prevState == Z_BUF_ERROR
           else prevState == Z_OK && writeSize == bufSize && inLoop == looping && uzstream.outAvail == 0 && Base()
    }

    /** The input buffer has been fed and all before it is sent. */
    ghost predicate Fed(tot: nat)
      reads this, inputBuffer, uzstream, uzstream.ctx, uzstream.ctx.outbuf, uzstream.out
    {
      && Sent() && uzstream.pending == [] && fits
      && tot <= |received| == totalBytes == outputBufIdx && Data(cs) == received[..tot]
      && uzstream.input == received[tot..] != [] && finish == (|received| == srcLen)
      && (|received| < srcLen ==> outputBufIdx % bufSize == 0)
    }

    /** Counts what was handed on, and ends the stream after the final chunk. */
    method Conclude(size: nat) returns (r: int)
      modifies this`inLoop, this`success, this`srcLen, this`dst, this`dstLen
      ensures totalBytes > old(srcLen) ==> r == -1 && !inLoop
      ensures totalBytes <= old(srcLen) && prevState == Z_STREAM_END ==>
        && r == size && !inLoop && success == (old(success) && totalBytes == old(srcLen)) && srcLen == totalBytes
        && dst == old(dst) + (Le32(Value(!uzstream.checksum)) + Le32(totalBytes % 0x1_0000_0000))
        && dstLen == old(dstLen) + 8
      ensures totalBytes <= old(srcLen) && prevState != Z_STREAM_END ==>
        && r == size && inLoop == old(inLoop) && success == old(success) && srcLen == old(srcLen)
        && dst == old(dst) && dstLen == old(dstLen)
    {
      hide Value, Le32;
      if totalBytes > srcLen {
        inLoop := false;
        return -1;
      }
      if prevState == Z_STREAM_END {
        inLoop := false;
        End();
      }
      r := size;
    }

    /** How a flush went, for `expected` bytes altogether: all is well just when the chunk fits
        the output buffer, with a byte to spare unless it was the last. */
    ghost predicate Outcome(before: seq<Chunk>, expected: nat, c: Chunk, r: int, size: nat)
      reads this, inputBuffer, uzstream, uzstream.ctx, uzstream.ctx.outbuf, uzstream.out
    {
      && (|received| <= expected ==> Adds(before, c, |received| == expected))
      && if |received| > expected then r == -1 && !inLoop
         else if |received| == expected then
           if |c.bytes| <= bufSize then r == size && cs == before + [c] && fits && Finished()
           else r == -1 && !inLoop && Unfinished()
         else
           && r == size && srcLen == expected
           && if |c.bytes| < bufSize then cs == before + [c] && Healthy() else Doomed()
    }

    /** The chunk was made of all that was received after the chunks `before`. */
    ghost predicate Adds(before: seq<Chunk>, c: Chunk, final: bool)
      reads this`received
    {
      Data(before) + c.data == received && Encodes(c, final, DICT_SIZE)
    }

    /** The facts about a chunk that was put out in full, after the chunks `before`. */
    ghost predicate Complete(before: seq<Chunk>, c: Chunk)
      reads this, uzstream
    {
      && cs == before + [c] && Chunks(cs, finish, DICT_SIZE)
      && dst == LZ_HEADER + Bytes(cs) && Data(cs) == received && dstLen == |dst|
      && uzstream.checksum == Crc(CRC_START, received) && uzstream.input == [] && uzstream.pending == []
      && uzstream.outAvail == bufSize - |c.bytes| && inLoop
      && prevState == (if finish then Z_STREAM_END else Z_OK)
    }

    lemma Accepted(input: seq<byte>, before: seq<Chunk>, sent: seq<byte>, crc: bv32, c: Chunk, writeSize: nat, tot: nat)
      requires Pushed(input, before, sent, crc, writeSize, c, true) && |c.bytes| <= bufSize
      requires Chunks(before, false, DICT_SIZE) && sent == LZ_HEADER + Bytes(before)
        && crc == Crc(CRC_START, Data(before))
      requires tot <= |received| && Data(before) == received[..tot] && input == received[tot..] != []
      ensures Complete(before, c) && writeSize > 0
    {
      hide Crc, Encodes, LZ_HEADER, Base;
      CrcConcat(CRC_START, Data(before), input);
      assert received == received[..tot] + received[tot..];
      OneMoreChunk(before, c);
      Assoc(LZ_HEADER, Bytes(before), c.bytes);
    }

    lemma Failed(input: seq<byte>, before: seq<Chunk>, sent: seq<byte>, crc: bv32, c: Chunk, size: nat, tot: nat)
      requires Pushed(input, before, sent, crc, 0, c, true) && input != [] && bufSize > 0
      requires finish == (|received| == srcLen) && success && tot <= |received|
      requires Data(before) == received[..tot] && input == received[tot..]
      ensures Outcome(before, srcLen, c, -1, size)
    {
      hide Crc, Encodes, Healthy, Finished, Doomed, Base;
    }

    /** Nothing that is still to come can make the stream complete. */
    ghost predicate Hopeless()
      reads this, inputBuffer, uzstream, uzstream.ctx, uzstream.ctx.outbuf, uzstream.out
    {
      prevState == Z_OK && !finish && !fits && Base() && totalBytes < srcLen && outputBufIdx == |received|
    }

    /** A chunk has been handed on: it fitted after all before it, or it did not, or it is
        hopeless anyway. */
    ghost predicate HandedOn(before: seq<Chunk>, c: Chunk)
      reads this, inputBuffer, uzstream, uzstream.ctx, uzstream.ctx.outbuf, uzstream.out
    {
      && totalBytes == outputBufIdx == |received| && finish == (|received| == srcLen)
      && Adds(before, c, finish)
      && (!finish ==> Base() && (|received| < srcLen ==> outputBufIdx % bufSize == 0))
      && fits == (|c.bytes| + (if finish then 0 else 1) <= bufSize)
      && if |c.bytes| <= bufSize then Complete(before, c) else !finish && prevState == Z_OK && uzstream.outAvail == 0
    }

    method AfterPush(size: nat, ghost before: seq<Chunk>, ghost c: Chunk) returns (r: int)
      requires success && inLoop && (HandedOn(before, c) || Hopeless())
      modifies this`inLoop, this`success, this`srcLen, this`dst, this`dstLen
      ensures old(HandedOn(before, c)) ==> Outcome(before, old(srcLen), c, r, size)
      ensures old(Hopeless()) ==> Hopeless() && r == size && success && inLoop && srcLen == old(srcLen)
    {
      hide Crc, BytesBits, Value, Le32, LZ_HEADER, Chunks, Bytes, Data, UzlibStream.Ready, Encodes, Slot,
        Adds;
      r := Conclude(size);
    }

    lemma FedGives(tot: nat)
      requires Fed(tot)
      ensures Base() && uzstream.pending == [] && fits && dstLen == |dst| && bufSize > 0
      ensures tot <= |received| == totalBytes == outputBufIdx && Data(cs) == received[..tot]
      ensures uzstream.input == received[tot..] != [] && finish == (|received| == srcLen)
      ensures |received| < srcLen ==> outputBufIdx % bufSize == 0
      ensures Chunks(cs, false, DICT_SIZE) && dst == LZ_HEADER + Bytes(cs)
        && uzstream.checksum == Crc(CRC_START, Data(cs))
    {
      hide Crc, LZ_HEADER, Chunks, Bytes, Data, UzlibStream.Ready;
    }

    lemma NowHandedOn(input: seq<byte>, before: seq<Chunk>, sent: seq<byte>, crc: bv32, c: Chunk, writeSize: nat,
      tot: nat)
      requires Pushed(input, before, sent, crc, writeSize, c, true) && 0 < writeSize
      requires Chunks(before, false, DICT_SIZE) && sent == LZ_HEADER + Bytes(before)
        && crc == Crc(CRC_START, Data(before))
      requires tot <= |received| == totalBytes == outputBufIdx && Data(before) == received[..tot]
        && input == received[tot..] != []
      requires finish == (|received| == srcLen) && bufSize > 0 && (|received| < srcLen ==> outputBufIdx % bufSize == 0)
      ensures HandedOn(before, c)
    {
      hide Crc, LZ_HEADER, Chunks, Bytes, Data, Base, Complete, Encodes;
      if |c.bytes| <= bufSize {
        Accepted(input, before, sent, crc, c, writeSize, tot);
      }
    }

    method PushAll(size: nat, ghost tot: nat) returns (r: int, ghost c: Chunk)
      requires success && inLoop && (Fed(tot) || Hopeless())
      modifies this`prevState, this`dst, this`dstLen, this`inLoop, this`success, this`srcLen, this`cs, this`fits,
               uzstream, uzstream.ctx, uzstream.ctx.outbuf, uzstream.ctx.hashTable, uzstream.out
      ensures uzstream.ctx.outbuf == old(uzstream.ctx.outbuf) || fresh(uzstream.ctx.outbuf)
      ensures old(Fed(tot)) ==> Outcome(old(cs), old(srcLen), c, r, size)
      ensures old(Hopeless()) ==>
        Hopeless() && srcLen == old(srcLen) && success && (if r == size then inLoop else r == -1 && !inLoop)
    {
      hide Crc, Bytes, Data, Chunks, Encodes, UzlibStream.Ready, LZ_HEADER, Outcome, Complete, Base, Fed, Pushed,
        HandedOn;
      ghost var fed, before, sent, crc, input := Fed(tot), cs, dst, uzstream.checksum, uzstream.input;
      if fed { FedGives(tot); }
      var writeSize;
      writeSize, c := Push();
      if writeSize == 0 {
        if fed { Failed(input, before, sent, crc, c, size, tot); }
        return -1, c;
      }
      if fed { NowHandedOn(input, before, sent, crc, c, writeSize, tot); }
      r := AfterPush(size, before, c);
    }

    /** All that is written so far can be flushed. */
    ghost predicate Full(inputBytes: nat)
      reads this, inputBuffer, uzstream, uzstream.ctx, uzstream.ctx.outbuf, uzstream.out
    {
      && Sent() && Buffered(received) && uzstream.input == [] && uzstream.pending == [] && fits && uzstream.outAvail > 0
      && inputBytes == |received| - totalBytes > 0 && (|received| < srcLen ==> inputBytes == bufSize)
    }

    /** What a flush can feed will not complete the stream. */
    ghost predicate Lagging(inputBytes: nat)
      reads this, inputBuffer, uzstream, uzstream.ctx, uzstream.ctx.outbuf, uzstream.out
    {
      && prevState == Z_OK && !fits && Base() && outputBufIdx == |received| && inputBytes <= bufSize
      && totalBytes + (if uzstream.outAvail > 0 then inputBytes else 0) < srcLen
    }

    /** Compresses what waits in the input buffer and hands it on. */
    method Flush(inputBytes: nat, size: nat) returns (r: int, ghost c: Chunk)
      requires success && inLoop && !finish && (Full(inputBytes) || Lagging(inputBytes))
      modifies this`totalBytes, this`finish, this`prevState, this`dst, this`dstLen, this`inLoop, this`success,
               this`fits, this`srcLen, this`cs,
               uzstream, uzstream.ctx, uzstream.ctx.outbuf, uzstream.ctx.hashTable, uzstream.out
      ensures uzstream.ctx.outbuf == old(uzstream.ctx.outbuf) || fresh(uzstream.ctx.outbuf)
      ensures old(Full(inputBytes)) ==> Outcome(old(cs), old(srcLen), c, r, size)
      ensures old(Lagging(inputBytes)) ==>
        && Hopeless() && totalBytes == old(totalBytes) + (if old(uzstream.outAvail) > 0 then inputBytes else 0)
        && srcLen == old(srcLen) && success && (if r == size then inLoop else r == -1 && !inLoop)
    {
      hide Crc, Bytes, Data, Chunks, Encodes, LZ_HEADER, Outcome, DeflStatic.UzlibComp.Stored, Pow2;
      ghost var full, tot := Full(inputBytes), totalBytes;
      if full { AfterMultiple(totalBytes, inputBytes, bufSize); }
      Feed(inputBytes);
      assert full ==> Fed(tot);
      r, c := PushAll(size, tot);
    }

    /** Appends `buf` to the input buffer. */
    method Append(buf: seq<byte>) returns (idx: nat)
      requires inputBuffer.Length == bufSize > 0 && Slot(outputBufIdx, bufSize) + |buf| <= bufSize
      modifies this`outputBufIdx, this`received, inputBuffer
      ensures idx == Slot(old(outputBufIdx), bufSize) && outputBufIdx == old(outputBufIdx) + |buf|
      ensures inputBuffer[..idx + |buf|] == old(inputBuffer[..Slot(outputBufIdx, bufSize)]) + buf
      ensures received == old(received) + buf
    {
      idx := Slot(outputBufIdx, bufSize);
      ghost var before := inputBuffer[..idx];
      for i := 0 to |buf|
        modifies inputBuffer
        invariant inputBuffer[..idx + i] == before + buf[..i]
      {
        inputBuffer[idx + i] := buf[i];
      }
      outputBufIdx := outputBufIdx + |buf|;
      received := received + buf;
    }

    lemma HealthyGives()
      requires Healthy()
      ensures Buffered(received) && Sent() && Base() && !finish && prevState == Z_OK && fits
      ensures |received| < srcLen && |received| - totalBytes < bufSize && outputBufIdx == |received|
      ensures uzstream.input == [] && uzstream.pending == [] && uzstream.outAvail > 0
      ensures bufSize > 0 && Slot(outputBufIdx, bufSize) == |received| - totalBytes
      ensures totalBytes <= |received| && Data(cs) == received[..totalBytes]
    {
      hide Crc, Bytes, Data, Chunks, LZ_HEADER, UzlibStream.Ready;
      AfterMultiple(totalBytes, |received| - totalBytes, bufSize);
    }

    lemma BaseGives()
      requires Base()
      ensures uzstream.ctx.outbuf != inputBuffer && inputBuffer.Length == bufSize > 0
    {
      hide UzlibStream.Ready;
    }

    lemma AliveGives()
      requires Healthy() || Doomed()
      ensures success && inLoop && prevState == Z_OK && bufSize > 0 && outputBufIdx == |received| < srcLen
    {
      hide Crc, Bytes, Data, Chunks, LZ_HEADER, UzlibStream.Ready;
    }

    lemma DoomedGives()
      requires Doomed()
      ensures !fits && prevState == Z_OK
    {
      hide Base;
    }

    lemma OutcomeGives(before: seq<Chunk>, expected: nat, c: Chunk, r: int, size: nat)
      requires Outcome(before, expected, c, r, size) && |received| <= expected
      ensures |received| < expected ==> r == size && srcLen == expected && (Healthy() || Doomed())
      ensures |received| == expected ==>
        (r == size && fits && Finished() && |received| == srcLen) || (r == -1 && !inLoop && Unfinished())
    {
      hide Healthy, Doomed, Member;
    }

    /** More bytes in the input buffer, in a healthy stream. */
    lemma Appended(earlier: seq<byte>, buf: seq<byte>, idx: nat)
      requires inputBuffer.Length == bufSize > 0 && received == earlier + buf && outputBufIdx == |received|
      requires totalBytes <= |earlier| && idx == |earlier| - totalBytes && idx + |buf| <= bufSize
        && totalBytes % bufSize == 0
      requires inputBuffer[..idx + |buf|] == earlier[totalBytes..] + buf && Data(cs) == earlier[..totalBytes]
      ensures Buffered(received)
    {
      Suffix(earlier, buf, totalBytes);
    }

    /** Accepts some bytes: keeps them in the input buffer, or flushes it if it is full or
        if these were the last. They must not overrun the input buffer. */
    method Write(buf: seq<byte>) returns (r: int, ghost c: Chunk)
      requires success && inLoop && prevState == Z_OK ==> Healthy() || Doomed()
      requires success && inLoop && prevState == Z_OK ==>
        bufSize > 0 && (|buf| <= bufSize ==> Slot(outputBufIdx, bufSize) + |buf| <= bufSize)
      requires Doomed() ==> |received| + |buf| <= srcLen
      modifies this, inputBuffer, uzstream, uzstream.ctx, uzstream.ctx.outbuf, uzstream.ctx.hashTable, uzstream.out
      ensures uzstream.ctx.outbuf == old(uzstream.ctx.outbuf) || fresh(uzstream.ctx.outbuf)
      ensures !old(success && inLoop && prevState == Z_OK) || |buf| > bufSize ==> r == -1 && dst == old(dst)
      ensures !old(success && inLoop && prevState == Z_OK) ==>
        success == old(success) && inLoop == old(inLoop) && fits == old(fits) && prevState == old(prevState)
      ensures old(success && inLoop && prevState == Z_OK) && |buf| <= bufSize ==> received == old(received) + buf
      ensures old(Healthy()) && |buf| <= bufSize ==>
        if |received| < old(srcLen) && |received| - old(totalBytes) < bufSize then
          r == |buf| && Healthy() && cs == old(cs) && dst == old(dst) && srcLen == old(srcLen)
        else Outcome(old(cs), old(srcLen), c, r, |buf|)
      ensures old(Doomed()) && |buf| <= bufSize ==>
        && (r == |buf| || (r == -1 && !inLoop)) && srcLen == old(srcLen)
        && if |received| < srcLen then (if r == |buf| then Doomed() else Unfinished()) else Unfinished()
    {
      hide Crc, Bytes, Data, Chunks, Encodes, LZ_HEADER, Outcome, DeflStatic.UzlibComp.Stored, Pow2, Base, Sent, Slot,
        BufferStart;
      c := Chunk([], [], []);
      if !success || !inLoop || prevState != Z_OK || |buf| > bufSize {
        return -1, c;
      }
      ghost var healthy, before := Healthy(), received;
      if healthy { HealthyGives(); }
      BaseGives();
      BufferStartAfter(outputBufIdx, |buf|, bufSize);
      var idx := Append(buf);
      if healthy { Appended(before, buf, idx); }
      if outputBufIdx < srcLen && idx + |buf| < bufSize {
        return |buf|, c;
      }
      var inputBytes := if outputBufIdx < srcLen then bufSize else idx + |buf|;
      r, c := Flush(inputBytes, |buf|);
    }
  }

  /** The place of byte `n` in a buffer of size `m`, and where that buffer began. */
  function Slot(n: nat, m: nat): (r: nat)
    requires m > 0
    ensures r < m
  {
    n % m
  }

  function BufferStart(n: nat, m: nat): (r: nat)
    requires m > 0
    ensures r <= n && r + Slot(n, m) == n
  {
    n - n % m
  }

  lemma BufferStartAfter(n: nat, k: nat, m: nat)
    requires m > 0 && Slot(n, m) + k <= m
    ensures BufferStart(n + k, m) == BufferStart(n, m) + if Slot(n, m) + k == m then m else 0
  {
    Multiple(n, m);
    AfterMultiple(BufferStart(n, m), Slot(n, m) + k, m);
  }

  lemma Suffix(a: seq<byte>, b: seq<byte>, i: nat)
    requires i <= |a|
    ensures (a + b)[i..] == a[i..] + b && (a + b)[..i] == a[..i]
  {}

  lemma OneMoreChunk(cs: seq<Chunk>, c: Chunk)
    ensures Data(cs + [c]) == Data(cs) + c.data && Bytes(cs + [c]) == Bytes(cs) + c.bytes
  {
    assert (cs + [c])[..|cs|] == cs;
  }

  lemma NotEmpty(c: Chunk, final: bool, limit: nat)
    requires Encodes(c, final, limit)
    ensures |c.bytes| > 0
  {
    hide Lz77.Covers, StaticCode.TokensBits, StaticCode.SymbolBits;
    assert |RoundTrip.FixedBlock(final, c.ts)| > 0;
  }
}
