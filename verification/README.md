# Verification of the DEFLATE/gzip codec and the tar pipeline

A Dafny model of the compression and archiving core of ESP32-targz: the LZ77 compressor with
its static-Huffman bit writer, the inflater that produces one byte at a time, both checksums,
the gzip framing, the streaming compressor, and the tar packer and extractor around them.
`dafny verify dfyconfig.toml` checks everything.

## What is modelled, and how

The source works by changing things in place, and so does the model: `uzlib_comp`,
`TINF_DATA`, `TINF_TREE`, the dictionary ring, `uzlib_stream`, `LZStreamWriter`, the globals
and function statics of the extractor, and the gz and tar unpackers are classes with the same
fields, arrays for the buffers, tables and ring, and methods with the same branches and loops.
Each method is proved against a specification on values:

* bit streams are `seq<bool>`; `Stream()` of the writer is the bytes emitted plus the
  accumulator, `P()` of the reader is the position of the next bit;
* `Huffman.Decode` decodes by the canonical code of RFC 1951, section 3.2.2, from the code
  lengths alone, without any table;
* `Inflate.Micro` is a machine over the bits that reads one block header, ends one block or
  produces one byte per step, with the entire history as a sequence; `Run` is what one call
  asked for n bytes comes to, `All` what the stream comes to at its end. Malformed and
  truncated streams are part of it, with the outcomes the C code has for them: `Truncated` is
  a source that ends too early where the code notices it, `Exhausted` one where it goes on
  with an uninitialised byte, and `Undefined` a read outside a table or before the output;
* `UntarSpec.Entries` lists the callback calls that an archive leads to, including short
  archives and any failing callback; `UntarSpec.Begun` does so for an extraction that finds the
  function statics as an earlier one left them.

| files | contents |
|---|---|
| Arithmetic, Bits, Tables | division facts; bit strings; the constant tables of both sides |
| StaticCode, DeflStatic, Lz77, Matching | the static code, the bit writer and block functions, `uzlib_compress`, which matches it finds |
| Huffman, FixedTrees | canonical codes, `tinf_build_tree`, `tinf_build_fixed_trees` |
| Inflate, History, Tinflate | the inflation machine, ring and file history, `TINF_DATA` |
| Malformed, MalformedInputs | undecodable symbols and distances, with three sources |
| Damage, Cuts | damaged and truncated members, and what every cut comes to |
| Coded, Stored, Dynamic, Blocks | the format from the writer's side: tokens in any codes, stored and dynamic blocks, whole streams |
| RoundTrip, Chunked, Bound, Windows | compressed blocks inflate, chunked streams, expansion bound, agreement of the history back-ends |
| Checksum, GzHeader, Gzip, GzPack, GzUnpack, AnyGzip | CRC-32 and Adler-32, RFC 1952 framing, `compress` and `gzUncompress`, gzip files from any compressor |
| KnownAnswers, KnownFile, KnownHeader, KnownArchive | checksums, codes, a gzip file, a tar header and an archive, byte by byte |
| DeflateStream, StreamWriter, Incompressible | `uzlib_deflate_stream`, `LZStreamWriter`, data that doom it |
| TarHeader, UntarSpec, Untar, UntarSame, UntarFails, UntarStale | header fields, `read_tar`, `read_tar_step`, that they agree, failing callbacks, and extraction after a failed one |
| TarFeed, TarPull | the step machine driven from full gz buffers, and `tarReadGzStream` |
| TarWrite, TarSpec, TarRoundTrip, TarPack | libtar, packed archives, reading them back, packing |
| TarGz, TarGzPull | the .tar.gz pipeline in both directions |

## Main results

* **Gzip round trip** (`GzUnpack.RoundTrip`): for every non-empty byte string, what `compress` writes
  `gzUncompress` turns back into that string, with the CRC accepted and the source used up,
  with a ring of at least 32768 bytes holding anything at all, or without a ring.
* **Any gzip file** (`Blocks.StreamRuns`, `AnyGzip.UncompressAny`): every stream of stored,
  static and dynamic blocks that RFC 1951 allows inflates to what it stands for, whatever codes
  its dynamic blocks are sent with and however their lengths are run-length coded
  (`Dynamic.TreesRead`); in a gzip file it comes out with the code -4 unless the four bytes
  after it are the CRC-32 of the data. The rules are written out there once more, apart from
  the definitions that the inflater is proved against.
* **Streams** (`Chunked.StreamRuns`, `StreamWriter.LZStreamWriter.Write`): chunks closed by
  empty stored blocks inflate to the data put together; `LZStreamWriter` completes the
  stream just when every chunk fits its output buffer, and always if its buffers have room
  for all input, an eighth of it and two bytes more (`Bound.WriteAll`).
* **Inflation is exact** (`Tinflate.TinfData.Uncompress`): on every stream, well-formed or
  not, whose outcome C defines, the in-place inflater refines the machine, whatever the number
  of bytes asked for;
  it can be interrupted after any byte (`Inflate.RunResumes`), and the history back-ends agree
  if and only if no distance in the stream is too far (`Windows.OutcomesAgree`).
* **Damage** (`Damage.CutMember`, `Cuts.CutComesTo`, `Damage.TrailerDecides`): a truncated
  member only ever gives a beginning of its source. It is reported (`Cuts.UncompressCut`)
  unless the cut falls into a block header or the lengths of an empty stored block, or into a
  match between the end of its length symbol and the end of its distance code, with a file of
  its distance. A complete member is accepted if and only if the first four bytes of its
  trailer are the checksum of the source.
* **Canonical Huffman codes** (`Huffman.DecodesIffCodeword`, `Huffman.DecodeFailsIff`).
* **Matches**: whatever the hash table holds, the tokens stand for the input
  (`Lz77.UzlibCompress`). A token is a match if and only if the last token start with the same
  hash has the same three bytes within the window, and no match is shorter than it could be
  (`Matching.MatchIff`); so a run of one byte shrinks to about a sixty-sixth
  (`Matching.CompressRun`).
* **Tar**: the step machine makes the calls of the loop (`UntarSame.StepsRefineLoop`), from
  pushed buffers as well (`TarFeed.TarGzUnpacker.FeedAll`); archives come back entry by entry
  (`TarRoundTrip.ArchiveRead`). From a compressed archive to the callbacks, exactly the calls
  for the entities packed are made, whether the inflater pushes its output buffer by buffer
  (`TarGz.Expand`), the extractor pulls it block by block (`TarGzPull.ExpandPulled`), or it goes
  through a file (`TarGz.ExpandFile`). If a callback fails, the calls are those up to it
  (`UntarFails.FailingCall`).
* **Known answers**: the model writes and reads the bytes that other programs do, in a whole gzip
  file (`KnownFile.CompressNine`, `KnownFile.UncompressNine`) and a whole archive
  (`KnownArchive.Packed`, `KnownArchive.Unpacked`).

## Where the code falls short, and exactly when

* `tinf_inflate_block_data` does not test for a symbol that could not be decoded. The return
  code -3 is then written as the literal 253: just when no code word is next and sixteen bits
  are left (`Malformed.UndecodableWrites`), that is when the next fifteen bits lie at or past
  the end of an incomplete code (`Huffman.WordIsCode`); never with the fixed code
  (`Malformed.FixedAlwaysDecodes`). `MalformedInputs.SpuriousByte` has a source of eight bytes.
* Nor does it test for a distance that could not be decoded, and then reads its tables at -3:
  just when no code word of a distance is next, be it that the bits are none or that there are
  too few of them (`Malformed.UndecodableDistance`; without a ring, also when the distance is
  cut off or reaches before the output file). `MalformedInputs.LostDistance` has a source of
  ten bytes with a bad code, `MalformedInputs.LostInCut` one of two bytes that just ends too
  early. With the fixed code it happens if and only if fewer than five bits are left
  (`Malformed.FixedDistanceDecodes`); in a whole stream if and only if inflation comes to such
  a match, or to one whose length is cut off (`Malformed.StraysIff`); up to the last 36 bits
  not at all if the distance codes of the blocks that inflation opens are complete
  (`Malformed.DefinedIfComplete`).
* A chunk that fills the output buffer of `LZStreamWriter` exactly already dooms the stream,
  as `out.avail` is then 0 and the next buffer of input is dropped; only the final chunk may fill it
  (`StreamWriter.LZStreamWriter.Write`). A buffer of data in which no three bytes recur is such
  an input (`Incompressible.Doom`). `size()` reports a size all the same, since only `end()`
  ever clears `success` (`StreamWriter.LZStreamWriter.Size`, `TarGz.PackTgz`).
* `pack_tar_impl` computes the number of body chunks through `float`. The last chunk is lost
  when the float nearest to the size is the multiple of 512 below it (`TarSpec.ChunksRight`);
  the least such size is 2^24 + 1 (`TarSpec.ChunkLost`). The size predicted by
  `pack_tar_init` is right if and only if that happens to no file (`TarSpec.EstimateIs`).
* `get_last_block_portion_size` takes an `int`: the parts handed out sum up to the file size
  if and only if the size is a multiple of 512 or its low 32 bits are no negative number
  (`UntarSpec.PortionsSum`); for 0x80000001 they are 511 bytes too many
  (`UntarSpec.PortionsExceed`).
* A name comes back if and only if it has at most 99 characters, with the slash of a
  directory, and no space at either end (`TarWrite.NameSurvives`). The header is an empty one,
  which can end the archive early, if and only if the name has more than 100 characters and
  no slash among the 100 before its last one (`TarWrite.NameLost`).
* Size and time of an entry are stored modulo 2^32 (`TarWrite.HeaderReads`).
* `read_tar` counts empty headers in `entry_index`, `read_tar_step` does not: on a complete
  archive the calls are the same with the same indices if and only if no entry follows an
  empty header (`UntarSame.StepsRefineLoop`); `TarRoundTrip.IndicesDiffer` is such an archive.
* A block special file is reported as a character special one (`TarHeader.TranslateHeader`).
* `gzUncompress` reports success whenever there is any output, even if the checksum is wrong
  (`GzUnpack.GzUncompress`); changing any one byte of the checksum shows it
  (`Damage.WrongSum`).
* `tinf_build_fixed_trees` leaves counts of longer codes from an earlier dynamic block in the
  table; `TinfTree.Codes` therefore only speaks of the lengths that shorter codes leave room
  for, and decoding needs no more.
* Stepping until it is not told to go on leaves the static `block_read` set if and only if the
  data callback failed (`Untar.Extractor.Drive`). A stream pushed in buffers that stops before
  its archive ends leaves `block_read` or `readstep` set, as the last block of a buffer always
  waits for the next step (`TarFeed.TarGzUnpacker.Pump`). With `block_read` set the next
  extraction takes the first header that has data for the first data block: its calls are
  those for the archive with that header doubled (`UntarStale.NextExtraction`).
* `translate_header` overruns an array by one byte if and only if the magic fills its field of
  six bytes, or with the magic "ustar" the user or the group its field of 32
  (`TarHeader.FitsIff`); no header written by libtar does (`TarWrite.HeaderFits`).

## Model

| member | source | states |
|---|---|---|
| Bits.BytesBitsAt | src/uzlib/tinflate.c:257-275 | Byte i of a source occupies bits 8i to 8i+7, least significant first (RFC 1951, section 3.1.1). |
| Bits.BytesBitsInjective | src/uzlib/defl_static.c:69-90 | Different byte strings have different bit strings, so a statement about bits determines the bytes. |
| Bits.ToBitsAdd | src/uzlib/defl_static.c:73-74 | A number below 2^m plus another shifted over it has the bits of the first, then those of the second. |
| Bits.OrDisjoint | src/uzlib/defl_static.c:73 | Or-ing bits above the accumulator adds them: nothing that is pending is changed. |
| Tables.MirrorIsMsb | src/uzlib/defl_static.c:120-153 | Every entry of the mirror table is its index with the eight bits in reverse order. |
| Tables.LengthRow | src/uzlib/defl_static.c:168-198 | Each row of the length table has the extra bits and base of the decoder's symbol 257+k, follows the row before without a gap, and the rows span 3 to 258. |
| Tables.DistRow | src/uzlib/defl_static.c:200-231 | The same for distances 1 to 32768 and the decoder's distance tables. |
| Tables.LengthRule | src/uzlib/tinflate.c:66-77 | The decoder's extra bits follow the rule behind the table of RFC 1951, section 3.2.5, and its lengths run from 3 without a gap, with a symbol of its own for 258. |
| Tables.DistRule | src/uzlib/tinflate.c:79-90 | The same for distances from 1. |
| StaticCode.Pieces | src/uzlib/defl_static.c:261-275 | A match is cut into pieces that are encodable (3 to 258 long), at the same distance, and whose lengths sum to its length. |
| StaticCode.LengthRowUnique | src/uzlib/defl_static.c:168-198 | Exactly one row covers a length; any other row lies on the side that the comparison says. |
| StaticCode.DistRowUnique | src/uzlib/defl_static.c:200-231 | The same for distances. |
| DeflStatic.UzlibComp.OutBits | src/uzlib/defl_static.c:70-90 | Conservation: emitted bytes plus accumulator are what they were before followed by the bits given, fewer than eight stay pending, the buffer is written within its size, for at most 32 bits in the accumulator. |
| DeflStatic.ByteOut | src/uzlib/defl_static.c:81-88 | Moving the low byte of the accumulator out leaves the stream of bits unchanged. |
| DeflStatic.UzlibComp.Out4Bytes | src/uzlib/defl_static.c:93-117 | The four bytes follow all bytes emitted so far, in the buffer and at the callback. |
| DeflStatic.UzlibComp.Literal | src/uzlib/defl_static.c:233-250 | Appends the code word that RFC 1951 assigns to the literal, first bit first, or eight plain bits when compression is disabled. |
| DeflStatic.UzlibComp.FindLength | src/uzlib/defl_static.c:281-294 | The binary search ends at the one row that covers the length, and its assertion never fails. |
| DeflStatic.UzlibComp.FindDistance | src/uzlib/defl_static.c:319-332 | The same for distances. |
| DeflStatic.UzlibComp.ZlibMatch | src/uzlib/defl_static.c:252-345 | Appends the codes and extra bits of the pieces of the match, in order, for every length from 3 and distance from 1 to 32768. |
| DeflStatic.UzlibComp.OpenBlock | src/uzlib/defl_static.c:348-368 | Appends a block header with the given final bit and type 1. |
| DeflStatic.UzlibComp.FinishBlock | src/uzlib/defl_static.c:370-374 | The bytes emitted are all bits so far and the end-of-block code, padded with zeros to a byte: none stays behind in the accumulator. |
| DeflStatic.UzlibComp.EmptyBlock | src/uzlib/defl_static.c:354-360 | The same, followed by an aligned empty stored block, although its length bytes bypass the accumulator. |
| DeflStatic.Flushed | src/uzlib/defl_static.c:370-374 | Seven more zero bits push out everything written before them. |
| Huffman.CodewordFits | src/uzlib/tinflate.c:150-186 | With a code that meets the Kraft inequality every code word is a number of its own length's bits. |
| Huffman.CodewordDecodes | src/uzlib/tinflate.c:296-326 | The canonical code word of a symbol decodes to that symbol and uses exactly its bits, for all lengths that meet the Kraft inequality. |
| Huffman.DecodesIffCodeword | src/uzlib/tinflate.c:296-326 | A symbol is decoded if and only if its code word is next in the stream. |
| Huffman.DecodeFailsIff | src/uzlib/tinflate.c:305-307 | With sixteen bits at hand, decoding fails if and only if the next fifteen, as a number, are not below the Kraft sum; a complete code never fails. |
| Huffman.DecodesIff | src/uzlib/tinflate.c:296-326 | For any lengths, over-subscribed or incomplete, a symbol is decoded if and only if the code word of some symbol is next. |
| Huffman.WordIsCode | src/uzlib/tinflate.c:305-307 | The next fifteen bits begin with a code word if and only if, as a number, they lie below the Kraft sum. |
| KnownAnswers.CanonicalExample | src/uzlib/tinflate.c:150-186 | The example of RFC 1951, section 3.2.2: the eight code words bit by bit. |
| Huffman.SlotOrder | src/uzlib/tinflate.c:170-185 | The slots of the counting sort order the used symbols by length, then by symbol. |
| Huffman.SlotBound | src/uzlib/tinflate.c:170-185 | Every used symbol has a slot among those of its length, inside the table. |
| Huffman.TinfTree.SortSymbols | src/uzlib/tinflate.c:181-185 | Each used symbol is put into its slot and no slot is overwritten. |
| Huffman.TinfTree.BuildTree | src/uzlib/tinflate.c:150-186 | The tables built serve the canonical code of the lengths: counts per length, and the symbols sorted by length and value. |
| FixedTrees.FixedLitCode | src/uzlib/defl_static.c:242-249 | The code word the encoder writes for a symbol is the canonical one of the fixed lengths. |
| FixedTrees.FixedKraft | src/uzlib/tinflate.c:125-147 | Both fixed codes use up all code words exactly. |
| FixedTrees.BuildFixedTrees | src/uzlib/tinflate.c:125-147 | The tables filled in by constants serve the canonical codes of the fixed lengths, whatever they held before. |
| Lz77.CopyIsRepetition | src/uzlib/genlz77.c:91-98 | A repetition found in the input, even one that overlaps itself, is what the copy reproduces. |
| Lz77.MatchLength | src/uzlib/genlz77.c:92-97 | The match is the longest there is: it extends to the first difference, to 258 bytes or to the last three bytes of the input, with all reads in bounds. |
| Lz77.Step | src/uzlib/genlz77.c:85-101 | One turn enters the position into its bucket and no other, and adds one token that stands for the bytes consumed: a match, the longest to where the bucket led, if and only if that is the same three bytes within dict_size, else the literal. |
| Lz77.UzlibCompress | src/uzlib/genlz77.c:80-110 | Whatever the hash table holds, the tokens written expand to the input, and each is chosen by the last token start with the same hash, or by the table at first. |
| Lz77.Tail | src/uzlib/genlz77.c:103-108 | The last three bytes become literals. |
| Matching.MatchIff | src/uzlib/genlz77.c:85-101 | On the tokens of a whole run: a token is a match if and only if the last token start with the same hash has the same three bytes and is not too far; it leads there and is as long as it can be. |
| Matching.LiteralIf | src/uzlib/genlz77.c:85-101 | With an empty table a token that no token before shares its hash with is a literal. |
| Matching.RunTokens | src/uzlib/genlz77.c:85-101 | n bytes that are all alike take at most n/258 + 5 tokens. |
| Matching.CompressRun | src/libpacker/LibPacker.cpp:507-545 | So compress makes at most 51 bytes of a thousand that are alike, and in general no more than 31 bits for every 258 bytes and 40 bytes besides. |
| Lz77.Hash | src/uzlib/genlz77.c:59-63 | The hash is an index into the table for every three bytes. |
| KnownAnswers.SomeHashes | src/uzlib/genlz77.c:59-63 | Three hashes as numbers. |
| Inflate.MicroProgress | src/uzlib/tinflate.c:631-695 | Every step of inflation consumes bits or shortens the current block or copy, keeps the state well-formed and only ever appends to the output. |
| Inflate.RunLengthCount | src/uzlib/tinflate.c:359-416 | Whenever the code lengths of a dynamic block can be read at all, they are exactly as many as announced and none exceeds 15. |
| Inflate.RunResumes | src/uzlib/tinflate.c:631-695 | Asking for n bytes and then m comes to the same as asking for n + m, inside matches and stored blocks and across blocks. |
| Inflate.RunOfAll | src/uzlib/tinflate.c:631-695 | Asking for some of the output first does not change what is left to come. |
| History.DictRing.Put | src/uzlib/uzlib.h:129-133 | If slot k behind the index holds the k-th last byte of the history for all k up to the size, it does so after the next byte too, across wraparound. |
| History.BehindFollows | src/uzlib/tinflate.c:530-535 | A reader k places behind the index keeps its distance by moving on and wrapping like the index. |
| History.GzOutput.ReadDestByte | src/libunpacker/LibUnpacker.cpp:1155-1175 | The byte read at a negative offset is the byte that far back in all output, be it still buffered or already in the file. |
| History.GzOutput.Advance | src/libunpacker/LibUnpacker.cpp:1339-1351 | All output so far is the file and the buffer, before and after a full buffer is written. |
| History.GzOutput.FileIs | src/libunpacker/LibUnpacker.cpp:1339-1351 | The file has all output but the part that does not fill a buffer. |
| History.GzOutput.Flush | src/libunpacker/LibUnpacker.cpp:1379-1386 | At the end the file holds all output. |
| Tinflate.TinfData.UncompressInit | src/uzlib/tinflate.c:617-628 | A new stream starts at the next whole byte of the source, before a block header. |
| Tinflate.TinfData.GetBit | src/uzlib/tinflate.c:258-275 | Returns the bit at the current position and moves on by one, or counts a read error past the end. |
| Tinflate.TinfData.ReadBits | src/uzlib/tinflate.c:278-293 | Returns the base plus the number whose bits are next, least significant first, or counts a read error. |
| Tinflate.TinfData.DecodeSymbol | src/uzlib/tinflate.c:296-326 | Agrees with decoding by the code lengths; for every bit stream and every code, over-subscribed or incomplete, only slots that hold a symbol of the code are looked up. |
| Tinflate.TinfData.RunLengthTurn | src/uzlib/tinflate.c:363-415 | One turn never leaves the limit of the length array, stores no length above 15, and continues as the run-length coding of RFC 1951, section 3.2.7, does. |
| Tinflate.TinfData.DecodeTrees | src/uzlib/tinflate.c:329-437 | For every stream: both trees are those of the code lengths in the stream, or the error is that of the specification; all writes stay within the 320 entries. |
| Tinflate.TinfData.Put | src/uzlib/uzlib.h:129-133 | The byte is appended to the output, and the ring or the output still holds the history matches copy from. |
| Tinflate.TinfData.SetOffset | src/uzlib/tinflate.c:493-527 | The offset is set to where the copy starts in the ring or in the output, or the distance is refused just when it is too large for the ring or reaches before the output. |
| Tinflate.TinfData.CopyOne | src/uzlib/tinflate.c:530-557 | The byte copied is the one at the distance in the whole history, from the ring, the file or memory alike. |
| Tinflate.TinfData.InflateBlockData | src/uzlib/tinflate.c:444-559 | One call makes the step of the machine: literal, end of block, or a byte of a match, with the same errors; where the stream is cut off within the symbol, a read error is noticed. |
| Tinflate.TinfData.InflateUncompressedBlock | src/uzlib/tinflate.c:562-596 | The same for stored blocks, whose lengths are read at the next byte boundary; data that end early are noticed. |
| Tinflate.TinfData.OpenBlock | src/uzlib/tinflate.c:636-658 | The header read decides the block type, and the trees in the tables are those of the block; trees that are cut off are noticed or fail as such. |
| Tinflate.TinfData.UncompressByte | src/uzlib/tinflate.c:633-690 | The loop body passes any number of empty blocks and block ends until the next byte, as the machine does, and stops where the stream is cut off. |
| Tinflate.TinfData.Uncompress | src/uzlib/tinflate.c:631-695 | Return code, output and the state left in the fields are those of the machine run for as many bytes, for every stream whose outcome is defined; a truncated one gives an error and a count of read errors. |
| Malformed.UndecodableWrites | src/uzlib/tinflate.c:446-463 | Byte 253 is put out if and only if no code word of a literal or length is next and there are the sixteen bits it takes to see that; whatever the code. |
| Malformed.FixedAlwaysDecodes | src/uzlib/tinflate.c:446-463 | With the fixed code this never happens. |
| Malformed.UndecodableDistance | src/uzlib/tinflate.c:482-491 | The distance tables are read outside their bounds if and only if no code word of a distance is next, because of the bits or because they are missing; or, for a copy from the output file, the distance is cut off or reaches before it. |
| Malformed.CompleteDecodes | src/uzlib/tinflate.c:296-326 | A complete code decodes any fifteen bits to a symbol. |
| Malformed.DefinedIfComplete | src/uzlib/tinflate.c:444-559 | If every block that inflation opens has a complete distance code, the whole stream stays inside the tables up to its last 36 bits, which for a gzip member are trailer. |
| Malformed.FixedDistanceDecodes | src/uzlib/tinflate.c:482-491 | With the fixed distance code the tables are left if and only if the source ends within its five bits (or before the output file). |
| Malformed.StraysIff | src/uzlib/tinflate.c:444-559 | A whole stream leaves the tables, or reads before the output file, if and only if inflation comes to a match whose length is cut off or whose distance has no code word (or, in a file, is cut off or too large). |
| MalformedInputs.SpuriousByte | src/uzlib/tinflate.c:446-463 | Eight bytes of source, a dynamic block whose literal code has no word at all: byte 253 is put out and TINF_OK returned. |
| MalformedInputs.LostDistance | src/uzlib/tinflate.c:482-491 | Ten bytes of source, a dynamic block with a distance code of a single word: the second symbol asks for a distance outside the tables. |
| MalformedInputs.LostInCut | src/uzlib/tinflate.c:482-491 | So do the two bytes 0xA3 0x02, a static block that ends within a distance code. |
| Coded.TokenRuns | src/uzlib/tinflate.c:444-559 | In any pair of codes that can be told apart, the bits of one token inflate to what it stands for, whatever precedes the output. |
| Coded.TokensRun | src/uzlib/tinflate.c:444-559 | So for a list of tokens, which may copy from the output before them, and their bits are used up exactly. |
| Coded.BodyRuns | src/uzlib/tinflate.c:444-559 | And for the tokens of a block with its end code; inflation is done after it if and only if it was the final block. |
| Stored.StoredRuns | src/uzlib/tinflate.c:562-596 | A stored block of any content, final or not: from its length, low byte first, its complement and the data at the next byte boundary, just the data are put out, and inflation goes on behind them. |
| Dynamic.CodeRead | src/uzlib/tinflate.c:363-415 | One code for lengths is read as what it stands for: a length, the last one again 3 to 6 times by two extra bits, 3 to 10 zeros by three, 11 to 138 zeros by seven; refused just when there are too many. |
| Dynamic.CodesRead | src/uzlib/tinflate.c:363-415 | Any list of such codes is read as the lengths it unrolls to, or refused if the last of them leads past the limit. |
| Dynamic.OrderRead | src/uzlib/tinflate.c:345-357 | The lengths of the code length code, sent in the order 16, 17, 18, 0, 8, 7, 9, ..., end up with their symbols. |
| Dynamic.TreesRead | src/uzlib/tinflate.c:329-437 | Whatever two codes a dynamic block is sent with, and however their lengths are coded, both are read back. |
| Blocks.StaticIs | src/uzlib/tinflate.c:125-147 | The fixed lengths are 144 times 8, 112 times 9, 24 times 7 and 8 times 8, and 32 times 5. |
| Blocks.BlockRuns | src/uzlib/tinflate.c:631-695 | A block of any of the three types, final or not, inflates to what it stands for after the output so far. |
| Blocks.StreamRuns | src/uzlib/tinflate.c:631-695 | Every DEFLATE stream, of stored, static and dynamic blocks from any compressor, inflates to its contents and ends right behind its final block, with any back-end that its distances fit. |
| RoundTrip.TokensRun | src/uzlib/tinflate.c:444-559 | The bits of a list of tokens inflate to what the tokens expand to and are used up exactly. |
| RoundTrip.BlockRuns | src/uzlib/tinflate.c:631-695 | A static block as the encoder writes it inflates to what its tokens expand to; inflation is done after it if and only if it was final. |
| Chunked.EmptyBlockRuns | src/uzlib/defl_static.c:354-360 | An empty stored block puts nothing out and leads past its lengths to a byte boundary. |
| Chunked.ChunkRuns | src/uzlib/genlz77.c:194-203 | One chunk of a stream, final or not, inflates to its data and ends where its bytes end. |
| Chunked.StreamRuns | src/uzlib/genlz77.c:158-247 | The outputs of successive calls, put together, inflate to their chunks put together, and only the final chunk ends the stream. |
| Windows.MicroAlike | src/uzlib/tinflate.c:492-557 | Each step from the ring and each step from the output so far are alike if the step has no distance that is too far; else at least one stops, and the two differ. |
| Windows.AllAlike | src/uzlib/tinflate.c:492-557 | So for whole streams, well-formed or not, from any state: same end and same bytes if and only if no distance in the stream is too far. |
| Windows.OutcomesAgree | src/libunpacker/LibUnpacker.cpp:1249-1281 | gzUncompress comes to the same with and without a dictionary if and only if no distance in the source exceeds the ring or reaches before the output. |
| Windows.UsualRing | src/uzlib/tinflate.c:492-512 | With the usual ring of 32768 bytes only distances that reach before the output are too far. |
| Bound.TokenCost | src/uzlib/defl_static.c:233-345 | No token costs more than nine bits for each byte it stands for. |
| Bound.ChunkBound | src/uzlib/defl_static.c:233-374 | A final chunk of n bytes takes at most ceil((9n+10)/8) bytes, any other at most ceil((9n+13)/8)+4. |
| Bound.WriteAll | src/libpacker/LibPacker.cpp:247-325 | A writer whose buffers hold its n bytes of input, (n+17)/8 bytes more, finishes, whatever the input and however it is divided among writes. |
| Checksum.FourBits | src/uzlib/crc32.c:41-46 | A table step is four steps of the polynomial division, for every register value. |
| Checksum.WordIsBits | src/uzlib/crc32.c:54-59 | Adding up to eight message bits to the register at once equals adding them one at a time. |
| Checksum.UzlibCrc32 | src/uzlib/crc32.c:49-63 | Equals the bitwise CRC of the polynomial 0xEDB88320 over the bits of the data, from any start value. |
| Checksum.CrcConcat | src/uzlib/crc32.c:49-63 | The CRC of two parts is the CRC of the second started from that of the first. |
| Checksum.NoOverflow | src/uzlib/adler32.c:41-42 | 5552 bytes are few enough for the deferred sums to stay within 32 bits, even from unreduced halves. |
| Checksum.UzlibAdler32 | src/uzlib/adler32.c:44-78 | Equals the definition with a modulo after every byte (RFC 1950, section 8.2), for every length and start value. |
| Checksum.AdlerSumConcat | src/uzlib/adler32.c:44-78 | Adler-32 can be carried on from part to part. |
| GzHeader.LzHeader | src/libpacker/LibPacker.cpp:67-95 | Writes ten bytes, or without the magic number eight. |
| GzHeader.ParseHeader | src/uzlib/tinfgzip.c:59-119 | For every source that does not end within its header: an error, or the position where the compressed data start. |
| GzHeader.HeaderParses | src/uzlib/tinfgzip.c:59-119 | Every header RFC 1952 allows, with any optional fields, is passed over exactly. |
| GzHeader.LzHeaderParses | src/uzlib/tinfgzip.c:59-119 | The header that is written is one of them. |
| Gzip.UpdatedConcat | src/uzlib/tinflate.c:709-718 | The running checksum does not depend on how the output was divided among calls. |
| Gzip.Le32RoundTrip | src/uzlib/tinflate.c:237-245 | Four bytes read low one first give back the number they were made of. |
| Gzip.GzInflater.CheckTrailer | src/uzlib/tinflate.c:720-742 | Done is returned if and only if the trailer has the checksum; otherwise a checksum error. What a trailer that is cut off can come to is stated too. |
| Gzip.GzInflater.UncompressChksum | src/uzlib/tinflate.c:699-745 | Does what uzlib_uncompress does, adds just the new output to the checksum, and checks the trailer at the end only; truncated streams are reported. |
| GzPack.LzFooter | src/libpacker/LibPacker.cpp:99-112 | CRC and length, low bytes first, and a zero if asked for. |
| AnyGzip.FooterIs | src/libpacker/LibPacker.cpp:99-112 | Written out: the CRC-32 that starts from 0xFFFFFFFF and is inverted, then the length modulo 2^32, low bytes first. |
| KnownAnswers.CrcOfNine | src/uzlib/crc32.c:49-63 | The CRC register after the text "123456789". |
| KnownAnswers.AdlerOfNine | src/uzlib/adler32.c:44-78 | The Adler-32 of that text, and what sums of 65520 and 65519 become. |
| KnownAnswers.ByteOrders | src/uzlib/tinflate.c:237-254 | A CRC is read low byte first, an Adler-32 high byte first. |
| KnownAnswers.ReturnCodes | src/uzlib/uzlib.h:42-47 | The return codes, window and hash size as numbers. |
| KnownFile.FooterOfNine | src/libpacker/LibPacker.cpp:99-112 | The footer for that text is 26 39 F4 CB 09 00 00 00, with the checksum 0xCBF43926. |
| GzPack.Compress | src/libpacker/LibPacker.cpp:507-545 | The stream receives a gzip member for the buffer: header, one final chunk that encodes it in greedily chosen tokens, footer; the size returned is the number of bytes written. |
| GzPack.MemberInflates | src/uzlib/tinflate.c:631-695 | A member inflates to its source, to the very end of the compressed data, whatever is in the ring before. |
| GzPack.BodyInflates | src/uzlib/tinflate.c:631-695 | The same with anything else in place of the footer. |
| GzUnpack.GzUnpacker.Begin | src/libunpacker/LibUnpacker.cpp:1283-1308 | After the header the inflater is at the start of the data with an empty output. |
| GzUnpack.GzUnpacker.Step | src/libunpacker/LibUnpacker.cpp:1331-1351 | One turn adds one byte to the output and to the checksum, or ends with the code for how the stream ended, be it cut off. |
| GzUnpack.GzUnpacker.Loop | src/libunpacker/LibUnpacker.cpp:1331-1367 | The loop ends, with all output of the stream in file and buffer. |
| GzUnpack.GzUncompress | src/libunpacker/LibUnpacker.cpp:1289-1413 | For every source whose outcome is defined, valid, corrupted or truncated: the file, the return code and the bytes consumed; if a read has failed an error is reported and the file lacks the last buffer, else success is reported if and only if there was any output. |
| GzUnpack.MemberResult | src/libunpacker/LibUnpacker.cpp:1289-1413 | The only result a member can have is its source, with the checksum accepted and everything consumed. |
| GzUnpack.RoundTrip | src/libpacker/LibPacker.cpp:507-545 | compress and then gzUncompress give back every non-empty byte string, with any ring of at least 32768 bytes or none, and any output buffer size. |
| AnyGzip.AcceptsIff | src/uzlib/tinflate.c:733-741 | A checksum is accepted if and only if it is that one, byte by byte. |
| AnyGzip.UncompressAny | src/libunpacker/LibUnpacker.cpp:1289-1413 | Every gzip file, with any header and any blocks, comes out as what was packed, with or without a ring that its distances fit; TINF_DONE if the four bytes after the blocks are its checksum, else -4. |
| KnownFile.OnlyFile | src/libpacker/LibPacker.cpp:507-545 | There is only one gzip file that compress can make of "123456789". |
| KnownFile.CompressNine | src/libpacker/LibPacker.cpp:507-545 | compress makes these 29 bytes of it. |
| KnownFile.UncompressNine | src/libunpacker/LibUnpacker.cpp:1289-1413 | gzUncompress gives the text back from them and accepts the checksum. |
| GzUnpack.AllKeeps | src/uzlib/tinflate.c:631-695 | Output is never taken back. |
| Damage.AllAgrees | src/uzlib/tinflate.c:631-695 | Inflating the beginning of a source comes to the same as inflating the source, or it is cut off and has put out a beginning of the output. |
| Damage.CutMember | src/libunpacker/LibUnpacker.cpp:1289-1413 | A member that lacks its end: the output is a beginning of the source, and complete only if all compressed data are there. |
| Cuts.TokenStops | src/uzlib/tinflate.c:444-559 | What a static token cut after k bits makes of the inflater: an error, except from the end of a length symbol to the end of the distance code, and with a file to the end of the distance. |
| Cuts.BlockStops | src/uzlib/tinflate.c:631-695 | The same for a static block: undefined within its header, else by the token the cut is in. |
| Cuts.StreamStops | src/uzlib/genlz77.c:158-247 | The same for a stream of chunks: undefined within block headers and the lengths of empty stored blocks, else by the token the cut is in. |
| Cuts.CutComesTo | src/libunpacker/LibUnpacker.cpp:1289-1413 | So for every member and every number of bytes left of it. |
| Cuts.UncompressCut | src/libunpacker/LibUnpacker.cpp:1367-1372 | gzUncompress of a member that is cut where the code notices reports an error and leaves a beginning of the source, in full buffers, in the file. |
| Damage.TrailerDecides | src/uzlib/tinflate.c:720-742 | With any trailer of four bytes or more the same bytes come out, and it is accepted if and only if its first four are the checksum; the length is not looked at. |
| Damage.WrongSum | src/libunpacker/LibUnpacker.cpp:1373-1413 | A member with one byte of its checksum changed: the file is right, the code is TINF_CHKSUM_ERROR, and success is reported all the same. |
| DeflateStream.UzlibStream.FlushPending | src/uzlib/genlz77.c:161-183 | As much as fits of what is left over is handed out, in order; the pointer freed is the one that was allocated. |
| DeflateStream.UzlibStream.DeflateChunk | src/uzlib/genlz77.c:186-246 | The chunk encodes the input; all of it follows what the output held, or as much as fits and the rest is left over, or an error if it was the last. |
| DeflateStream.UzlibStream.Deflate | src/uzlib/genlz77.c:158-247 | First what is left over, and the input only when all of that is gone; otherwise the input stays untouched. |
| StreamWriter.LZStreamWriter.constructor | src/libpacker/LibPacker.cpp:167-171 | A writer that expects any bytes starts healthy, with the header written. |
| StreamWriter.LZStreamWriter.Flush | src/libpacker/LibPacker.cpp:272-324 | The buffered input becomes one chunk, final just when all expected bytes are there; or the stream is doomed. |
| StreamWriter.LZStreamWriter.Write | src/libpacker/LibPacker.cpp:247-325 | While every chunk fits with a byte to spare the stream stays healthy; with the last byte expected it is finished, once, with one footer, just when the final chunk fits; a chunk that did not fit can never be made up for. |
| StreamWriter.LZStreamWriter.End | src/libpacker/LibPacker.cpp:327-358 | Writes the footer for the bytes counted and reports success only for a stream that was ended with all bytes. |
| StreamWriter.LZStreamWriter.Size | src/libpacker/LibPacker.cpp:188-191 | The number of bytes handed on, unless the writer has failed: also for a stream that is doomed or not finished. |
| Incompressible.OnlyLiterals | src/uzlib/genlz77.c:85-101 | Data in which no three bytes recur are put out as literals, at eight bits or more each. |
| Incompressible.DoesNotFit | src/uzlib/defl_static.c:233-374 | So their chunk is at least two bytes longer than they are, six if it is not the last. |
| Incompressible.Doom | src/libpacker/LibPacker.cpp:272-324 | A writer given a full buffer of such data is doomed, or fails at once if that is all. |
| Incompressible.FullBuffer | src/libpacker/LibPacker.cpp:272-324 | There are such data of the usual 4096 bytes. |
| TarHeader.Trim | src/TinyUntar/untar.c:58-82 | The text without blanks at either end, terminated in place; no text if there are only blanks. |
| TarHeader.StrToUllStops | src/TinyUntar/untar.c:100 | A terminated number can be read without knowing its length. |
| TarHeader.TranslateHeader | src/TinyUntar/untar.c:84-151 | All fields are those of the header block, user, group and devices only with the magic "ustar". |
| TarHeader.FitsIff | src/TinyUntar/untar.c:86-184 | Every text fits its array with a terminator if and only if the magic does not fill its field, nor, with the magic "ustar", the user or the group. |
| KnownHeader.FieldsFound | src/TinyUntar/untar.c:84-190 | In a header put together from fields of the widths of POSIX 1003.1 in their order, each field is found. |
| KnownHeader.TypeLetters | src/TinyUntar/untar.c:508-543 | The types by their letters, and that all other letters are Other. |
| KnownHeader.OddNumbers | src/TinyUntar/untar.c:95-140 | Signs, digits past 7, no digits and base 256. |
| UntarSpec.LastPortion | src/TinyUntar/untar.c:545-548 | The last part of a file is between 1 and 512 bytes, also for sizes whose low 32 bits are a negative int. |
| UntarSpec.PortionsSum | src/TinyUntar/untar.c:443-464 | The parts handed out sum up to the file size if and only if the size is a multiple of 512 or its low 32 bits are no negative int. |
| UntarSpec.PortionsExceed | src/TinyUntar/untar.c:443-464 | For a size of 0x80000001 the parts are 511 bytes too many. |
| Untar.BlockReader.Read | src/libunpacker/LibUnpacker.cpp:2009-2024 | Each read gives the next block, once and in order; a file gives none at its end. |
| Untar.Extractor.ReadTar | src/TinyUntar/untar.c:399-476 | For every archive and any failing callback: exactly the calls of the specification in their order, its return code, and as many blocks read. |
| Untar.Extractor.TarSetup | src/TinyUntar/untar.c:255-269 | Sets a goal for the step machine: what the archive from here on comes to, given the function statics as an earlier extraction left them. |
| Untar.Extractor.ExpandDataBlock | src/TinyUntar/untar.c:219-237 | Hands out the part of the block that belongs to the file and counts it. |
| Untar.Extractor.TarDatablockStep | src/TinyUntar/untar.c:272-303 | Keeps the goal, reads at most one block, and makes progress. |
| Untar.Extractor.TarStep | src/TinyUntar/untar.c:306-373 | The same; the return code tells what the goal is if it has been reached. |
| Untar.Extractor.ReadTarStep | src/TinyUntar/untar.c:376-396 | The same; without callbacks nothing happens; a short archive ends only when no block is left. |
| Untar.Extractor.Drive | src/libunpacker/LibUnpacker.cpp:1326 | Steps until one does not return TAR_OK make exactly the calls of the goal and read just its blocks; block_read stays set if and only if the data callback failed, or was set before and no data were handed out. |
| UntarSame.SameCalls | src/TinyUntar/untar.c:272-476 | Loop and step machine make the same calls with the same payloads, whatever the archive and whichever callback fails. |
| UntarSame.StepsRefineLoop | src/TinyUntar/untar.c:272-476 | The same from the start of an archive; on a complete one the entry indices agree too if and only if no entry comes after an empty header. |
| UntarFails.FailingCall | src/TinyUntar/untar.c:399-476 | Whatever the archive: if call k of a callback fails, the calls made are the first k of those made otherwise, and the code is -2, -3 or -4 by the callback; if there are fewer calls nothing changes. |
| UntarFails.EndsShort | src/TinyUntar/untar.c:399-476 | An archive that ends within an entry gives -5. |
| UntarSame.CompletePrefix | src/TinyUntar/untar.c:415-476 | Blocks after the end of a complete archive do not matter. |
| UntarSame.RestPrefix | src/TinyUntar/untar.c:272-373 | Nor do they from any state within the archive. |
| UntarSame.NothingLeft | src/TinyUntar/untar.c:306-373 | When no block is left and the archive is complete, no call is left to be made. |
| UntarStale.StaleDoubles | src/TinyUntar/untar.c:272-303 | An extraction begun with block_read set makes the calls for the archive with the first header that has data doubled, whatever the archive and whichever callback fails; nothing changes if no entry has data. |
| UntarStale.NextExtraction | src/TinyUntar/untar.c:255-303 | So for the next extraction after tar_setup, whatever its buffer holds. |
| UntarStale.HeaderHandedOut | src/TinyUntar/untar.c:272-303 | The first bytes handed out as data are then the header block. |
| TarFeed.TarGzUnpacker.Pump | src/libunpacker/LibUnpacker.cpp:1951-1971 | No step reads past the buffer: the block position never exceeds the blocks per buffer, and all of them are read in order; when it is used up its last block waits in the extractor, with readstep or block_read set. |
| TarFeed.TarGzUnpacker.ProcessTarBuffer | src/libunpacker/LibUnpacker.cpp:1936-1972 | Every full buffer is consumed whole, until the archive ends; after that buffers are ignored. |
| TarFeed.TarGzUnpacker.FeedAll | src/libunpacker/LibUnpacker.cpp:1936-1972 | Buffer after buffer, a complete archive makes exactly the calls of the goal, and so does one that makes a callback fail; the function statics are left as stated for one buffer. |
| TarFeed.TarGzUnpacker.AllCallsMade | src/libunpacker/LibUnpacker.cpp:1936-1972 | Once all buffers are pushed no call is outstanding. |
| TarFeed.TarGzUnpacker.Extend | src/libunpacker/LibUnpacker.cpp:1936-1972 | Whatever turns out to follow a complete archive in the last buffer does not change what is to come. |
| TarFeed.PushedLikeLoop | src/libunpacker/LibUnpacker.cpp:1936-1972 | The calls are those of read_tar on the archive, whatever stale blocks fill up the last buffer. |
| TarPull.TarGzReader.TarReadGzStream | src/libunpacker/LibUnpacker.cpp:1976-2005 | The buffer receives the next bytes of the stream, as many as there are up to the size asked for, and the inflater goes on from there; nothing if the size is no multiple of 512. |
| TarPull.RunDelivers | src/libunpacker/LibUnpacker.cpp:1976-2005 | However much of a member is asked for: so much is put out, or all there is. |
| TarPull.BlocksPulled | src/libunpacker/LibUnpacker.cpp:1976-2005 | Read block by block, a compressed archive gives its blocks one after the other and then no more. |
| TarPull.PullNext | src/libunpacker/LibUnpacker.cpp:1976-2005 | After any number of blocks the next call delivers the next one, or finds the end. |
| TarWrite.NumberReads | src/tar/libtar.c:302-306 | Octal text between blanks reads back as the number. |
| TarWrite.IntToOctReads | src/tar/libtar.c:210-229 | A field written by int_to_oct reads back, for numbers with up to size-2 digits. |
| TarWrite.IntToOctNoNullReads | src/tar/libtar.c:302-306 | A field written without a terminator reads back, for numbers with up to size-1 digits. |
| TarWrite.OctToInt | src/tar/libtar.c:294-298 | libtar's own reader gives back a field that int_to_oct wrote. |
| TarWrite.HeaderReads | src/tar/libtar.c:166-256 | The extractor reads back mode, owner, type and checksum of the header written, and size and time modulo 2^32, which is what the source makes of them. |
| TarWrite.NameSurvives | src/tar/libtar.c:186-206 | A name comes back if and only if it has at most 99 characters, with the slash of a directory, and no space at either end. |
| TarWrite.NameLost | src/tar/libtar.c:186-206 | The header written is an empty one if and only if the name has more than 100 characters and no slash among the 100 before its last one. |
| TarWrite.SplitRejoins | src/tar/libtar.c:186-206 | A long name that is split is its prefix, a slash and what is in the name field, unless the prefix has more than 154 characters. |
| TarWrite.Tar.ThSetFromStat | src/tar/libtar.c:245-256 | All 512 bytes: each field in its place and zeros elsewhere. |
| TarWrite.StatLaid | src/tar/libtar.c:245-256 | The writes do not overlap: every field reads what was written to it, the rest is zero. |
| TarWrite.Tar.ThIsDir | src/tar/libtar.c:269-275 | Tells directories from files by the header fields alone. |
| TarWrite.Tar.ThSetPath | src/tar/libtar.c:186-206 | The name field has the name, with a slash for a directory, cut to 99 characters and terminated; a longer name is split at a slash into name and prefix, or not set at all. |
| TarWrite.Tar.ThCrcCalc | src/tar/libtar.c:280-290 | The sum of all bytes with the checksum field taken as spaces. |
| TarWrite.ChecksumIs | src/tar/libtar.c:280-290 | That is the sum of the bytes before and after the field, and 256. |
| TarWrite.Tar.ThSetUstar | src/tar/libtar.c:166-174 | The checksum stored is that of the finished header, and magic and version are in their places. |
| TarWrite.UstarLaid | src/tar/libtar.c:166-174 | Setting the checksum last does not change what it is computed from. |
| TarWrite.HeaderLaid | src/tar/libtar.c:166-256 | All fields of a finished header, among them its own checksum. |
| TarWrite.HeaderFits | src/tar/libtar.c:166-256 | The texts of a header that is written all fit. |
| TarWrite.Tar.SetHeader | src/libpacker/LibPacker.cpp:766-787 | The header of an entity has these fields, with its name as far as it fits. |
| KnownHeader.HeaderIs | src/libpacker/LibPacker.cpp:766-787 | All 512 bytes of the header of one file, its checksum 7301 among them. |
| KnownHeader.HeaderRead | src/TinyUntar/untar.c:84-190 | Every field that the extractor makes of that header. |
| KnownHeader.DirectoryKnown | src/tar/libtar.c:178-206 | Mode, type and name of a directory, byte by byte. |
| TarSpec.ChunksRight | src/libpacker/LibPacker.cpp:897 | The chunk count through float is right if and only if the float does not fall to the multiple of 512 below; up to 16 MiB it always is, and it never exceeds the blocks needed. |
| TarSpec.ChunkLost | src/libpacker/LibPacker.cpp:897 | For 2^24+1 bytes the last chunk is lost. |
| TarSpec.SomeFloats | src/libpacker/LibPacker.cpp:897 | Some sizes as floats, ties and the largest int among them. |
| TarSpec.EstimateIs | src/libpacker/LibPacker.cpp:818-872 | The predicted size is that of the archive if and only if no file loses its last chunk; it is never too small. |
| TarSpec.FlatBlocks | src/TinyUntar/untar.c:208 | Blocks written one after the other are read back one by one. |
| TarRoundTrip.HeaderOfIs | src/libpacker/LibPacker.cpp:766-787 | The header of an entity comes back with its name, type, size and time. |
| TarRoundTrip.ArchiveRead | src/libpacker/LibPacker.cpp:876-916 | Extracting a packed archive makes exactly the calls for the entities packed, in order, in the loop and in the step machine, and ends at its last block. |
| TarRoundTrip.Delivered | src/TinyUntar/untar.c:443-464 | What the write callback is given for an entry is the file, without the padding. |
| TarRoundTrip.IndicesDiffer | src/TinyUntar/untar.c:306-373 | A complete archive with an empty header before its entry: the loop passes entry index 1, the step machine 0. |
| KnownArchive.Packed | src/libpacker/LibPacker.cpp:876-916 | All four blocks of an archive with one file. |
| KnownArchive.Unpacked | src/TinyUntar/untar.c:399-476 | The three calls made for these blocks, argument by argument. |
| TarPack.TarOutput.Write | src/libpacker/LibPacker.cpp:746-750 | A block is accepted by the plain or the compressing stream, and the last one expected ends the latter. |
| TarPack.AddBody | src/libpacker/LibPacker.cpp:897-911 | All chunks of a file are written, the last filled up with zeros, or the output is dead. |
| TarPack.AddEntity | src/libpacker/LibPacker.cpp:890-914 | Header and body of an entity are written and counted, or the output is dead. |
| TarPack.PackTar | src/libpacker/LibPacker.cpp:876-936 | The archive is written whole and its size returned; a compressor told the predicted size ends with the last block if and only if no file lost a chunk. |
| TarGz.PackTgz | src/libpacker/LibPacker.cpp:876-936 | The compressed archive is finished if and only if every chunk fitted, and is then a member for the whole archive; the size reported is that of what was handed on in any case. |
| TarGz.Expand | src/libunpacker/LibUnpacker.cpp:1331-1386 | gzUncompress with the step machine for its write callback, called whenever the output buffer is full and once more for what is left in it: exactly the calls for the entities packed. |
| TarGz.InflateAndPush | src/libunpacker/LibUnpacker.cpp:1331-1352 | The loop: after each byte all output has been pushed or is in the buffer, and the extraction is on its way to the goal. |
| TarGz.Finish | src/libunpacker/LibUnpacker.cpp:1379-1386 | What is left in the buffer, with stale bytes after it, completes the extraction. |
| TarGz.ExpandFile | src/libunpacker/LibUnpacker.cpp:2140-2160 | The same through a tar file and read_tar. |
| TarGzPull.StepAndFetch | src/libunpacker/LibUnpacker.cpp:1312-1327 | Stepping while TAR_OK is returned, with a block fetched from the inflater whenever the last one has been read. |
| TarGzPull.ExpandPulled | src/libunpacker/LibUnpacker.cpp:1312-1327 | From the compressed archive this makes exactly the calls for the entities packed. |

## Left out

- Tinflate.TinfData.Uncompress: the two outcomes that C does not define are excluded. `Exhausted`: the source ends within a block header or the lengths of a stored block, and the code goes on with an uninitialised byte. `Undefined`: a length is cut off, or a distance is looked up outside its tables or before the output file; `Malformed.StraysIff` says for which streams, and `Cuts.CutComesTo` for which cuts of a member either happens.
- GzUnpack.GzUncompress: the same two outcomes are excluded; all other truncated sources are covered.
- GzHeader.ParseHeader: a source that ends within its header is excluded, as the loop over a name need not end then.
- TarPull.TarGzReader.TarReadGzStream: the two undefined outcomes are excluded; progress is not modelled.
- TarGz.Expand: the output buffer has 512 times `blockmod` bytes.
- TarGzPull.ExpandPulled: the next block is fetched once the last one has been read, up to a step before the extractor reads it, and once more at the end.
- TarHeader.TranslateHeader: what a text that overruns its array leaves behind is not modelled, as C does not define it; numbers in base 256 read as 0, as in the code.
- TarWrite.HeaderReads: `unsigned long` has 32 bits, as on the targets.
- TarRoundTrip.ArchiveRead: callbacks that succeed; failing ones are covered by `UntarFails`.
- Untar.Extractor.ReadTar: `received_bytes` is kept but not specified, as nothing reads it; a size of 2^40 or more, which takes a minus sign, has no defined number of blocks in C, as the double does not fit an `int`.
- Untar.Extractor.TarSetup: the new buffer has any contents at all, given as `memory`.
- DeflateStream.UzlibStream.Deflate: what is left over for the next call is a value, and so is the input; `free` is represented by the offset of what is left over in its buffer.
- StreamWriter.LZStreamWriter.Write: the destination stream takes whatever it is handed, and a write must not straddle the input buffer; tar blocks never do.
- DeflStatic.UzlibComp.OutBits: the shifted accumulator is a natural number below 2^32, which the source's assertion allows; it is not a machine word.
- Checksum.UzlibCrc32: lengths are not limited to 32 bits.
- Distances in the inflater without a ring: `destStart` is never set by `gzUncompress`, so that
  its test never fails there; with output in memory it is modelled as a test.
- Memory: allocation always succeeds, buffers are created where needed, nothing is freed.
- Checksums are kept beside the inflater and the compressor context instead of in them; the
  streaming compressor is modelled with CRC-32, the type `lzInit` sets.
- Callbacks of the extractor are recorded as calls, with the number of the one that fails.
- Files and streams are byte sequences; opening, closing, free space, timeouts, heap checks,
  firmware updates, logging and progress are not modelled.
- `stat` is represented by the mode, size and time that `io::stat` sets; collecting
  directories, path prefixes and skipping the output file are not modelled.
- The paranoid checks are off, as `uzlib_conf.h` sets them; the one in `tinf_decode_symbol` is
  shown never to fire.
- `uzlib_zlib_parse_header`, `dirname`, `mkpath`, MD5 and listings: easy or unrelated.
