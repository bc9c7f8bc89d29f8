# A verified model of the bzip2 codec, zlib's checksums and the SFMT generator

This project models the block-sorting compressor in `dep/bzip2` and proves that
decompression gives back what was compressed: for every input, every sequence of calls,
every block size and work factor, and both memory modes of the decompressor. Beside it
stand three smaller pieces of code that compute quickly what has a simple definition:
CRC-32 and Adler-32 in `dep/zlib`, and the recurrence of `dep/SFMT`.

bzip2 is a chain of stages. Each stage is modelled on the compressing and on the
decompressing side, as loops over arrays and fields where the source works that way, and
proved against one definition on values, whose inverse laws are then proved as lemmas. The
stage laws compose to the statements about whole streams.

The main results:

- **Round trip** (`RoundTrip`). Drive a compressor with any program of supplying input,
  making room and calling it with any action, and a decompressor with any other such
  program: once the compressor has reported the end, the decompressor never reports an
  error, its output is at all times a prefix of the input given, and it is all of it at the
  end. Given the whole stream and room for the data, the end is reported; and the
  compressor reports its own, given room enough. Status and output depend on the input
  alone, not on how it is cut up, on the sizes of the output buffers, or on the
  representation used (`SameOutcome`).
- **What is accepted** (`Acceptance`). Conversely, any input at all that decompresses to a
  stream end has the frame of a stream, and every block in it carries the checksum of
  exactly its part of the output; input is refused as foreign if and only if its first four
  bytes are not a header.
- **Array bounds** (`ArrayBounds`). On any input at all the fields of a block are stored
  inside their arrays, but for one: the count of selectors is not checked. A run stays inside
  if and only if every count it announces is at most 18002; the model stops at the first
  write beyond, with a status of its own.
- **The stream protocol** (`Compressor`, `Decompressor`). Over every sequence of run, flush
  and finish calls: no input is lost, the output is a prefix of one stream, a finished flush
  or stream has been handed over, and an unfinished one has stopped only for lack of room; a
  finish with room enough completes.
- **How the data are divided** (`BlockDivision`, `BlockCutting`, `Compressor`): the blocks of a
  stream are those of the segments that flushes and the finish end, each cut in the one greedy
  way that the bytes and the level fix; what a last byte that comes late changes, and exactly
  when, is stated too. Every block is made of its data alone, up to what equal rotations and
  equally good tables leave open (`MadeAlike`).
- **The coding tables** (`TableRefinement`): the initial division of the alphabet, the packed
  costs, the selectors and the four passes; a pass codes the block in no more bits than the one
  before, as long as no weights are halved and symbols not used are counted once.
- **Both block sorts** (`MainSort`, `FallbackSort`) meet the same specification: the result
  is a permutation that lists all cyclic rotations in nondecreasing order. For the main sort
  this covers the quadrant cache, the scan that synthesises the small buckets, and every
  assertion in it; for the fallback sort, prefix doubling over a bitmap of bucket headers.
- **Inverse transform** (`Transform`, `Inverse`): walking the links of the last column emits
  the block, for periodic blocks too, whichever sorting permutation was found, and for the
  packed vector whose pointers are reversed in place.
- **Decoding a block** (`MtfArena`, `MtfDecoder`, `BlockDecoder`): from the bits of a block
  to its output the decompressor runs on arrays - the Huffman tables, the sixteen sliding
  sublists, the block in place - interrupted at any bit and resumed, and in step with a
  parser on values that the stream theorems are about.
- **Move to front** (`MtfCoding`, `MtfEncoder`): decoding inverts coding for every list and
  run; writing symbols over the pointers they come from is safe.
- **Huffman** (`HuffmanLengths`, `HuffmanTrees`, `HuffmanOptimal`, `HuffmanCodes`): code
  construction ends for every alphabet and every frequency table, because halving the weights
  shrinks a total that a Fibonacci bound keeps large while some code is too long; no prefix
  code for the weights used is shorter, and they are halved only while a cheapest code is too
  long; codes are prefix-free, in order, and decode to their symbol.
- **Bits and fields** (`BitStream`, `Printer`, `Parser`, `FormatFields`): the parser takes back
  what was printed, field by field, however the input is split; and the fields stand at the
  places the format gives them.
- **Checksums bit by bit** (`ChecksumBits`): the checksum of a stream is, bit by bit, the sum of
  those of its blocks turned by their distance from the end, and that of a block is the mirror
  image of zlib's.
- **Satellites**: `crc32_little`, `crc32_big` and `crc32_combine` agree with the bitwise CRC
  of the concatenation, `adler32` with the per-byte definition, and filling an SFMT array in
  bulk with as many single draws, every bit of which obeys the recurrence.

## Layout

One module a file. In the order of the chain:

| modules | what they model |
|---|---|
| `Words`, `Bits`, `Xor` (module `ExclusiveOr`), `WordBits` | powers of two, shifts and masks on naturals; bit strings; exclusive or; single bits of a word |
| `RunLength`, `BlockDivision`, `BlockCutting`, `RunCollector`, `UnRle` | the run-length layer of `bzlib.c`, where blocks are cut, and the resumable decoders |
| `Rotations`, `Bwt` (module `Transform`), `Ties`, `Inverse` | rotations, the transform, what depends on the order of equal rotations, and the inverse in two representations |
| `Fallback` (modules `Rearrange` and `RangeStack`), `FallbackQSort`, `BitTable`, `FallbackSort` | the fallback sort of `blocksort.c` |
| `MainCompare`, `MainSimpleSort`, `MainQSort`, `Buckets`, `BucketScan`, `Marks`, `ScanLoops`, `BigBuckets`, `MainSort`, `BlockSort` | the main sort of `blocksort.c`, and the choice between the two |
| `MtfCoding`, `MtfEncoder`, `MtfArena`, `MtfDecoder`, `MtfRoundTrip` | move-to-front and zero runs, in `compress.c` and `decompress.c` |
| `HuffmanHeap`, `HuffmanTrees`, `HuffmanOptimal`, `HuffmanLengths`, `HuffmanCodes` | `huffman.c` |
| `BitStream`, `MtfSender`, `TableRefinement`, `BlockWriter`, `Parser`, `Printer`, `FormatFields`, `ArrayDecoder`, `BlockDecoder`, `ArrayBounds`, `OutputSize` | the bit layer, the choice of tables, the fields of a block and a stream, the arrays they go through, and their bounds |
| `BlockCrc`, `ChecksumBits`, `StreamFormat`, `Compressor`, `StreamDecoder`, `Decompressor`, `RoundTrip`, `Acceptance`, `BuffToBuff` | checksums, whole streams, the call interface |
| `Crc32`, `Crc32Fast`, `Crc32Combine`, `Adler32` | zlib's checksums |
| `Sfmt`, `SfmtPeriod` | the SFMT recurrence and its period certification |

Words of 32 bits are naturals with their bounds proved; exclusive or, shifts and masks are
functions on naturals. Where the source relies on a word not overflowing, that it does not
is proved.

Three comments in the source say more than the code does; the model follows the code. The
remark on quadrants (`dep/bzip2/blocksort.c:964-981`) says that a smaller quadrant means an
earlier rotation; for equal rotations of a periodic block one can only say that it is not
later. The remark that the symbols of a block never outnumber its positions
(`dep/bzip2/compress.c:128-148`) leaves out the end-of-block symbol: there can be
`nblock + 1` of them, and the bound proved is that one. The remark that the compressed
stream is the same whichever sort is used (`dep/bzip2/blocksort.c:1050-1056`) is true of the
symbols, but of the 24 bits of `origPtr` only if no other rotation equals rotation 0 (see
Findings).

## Model

| member | source | states |
|---|---|---|
| RoundTrip.RoundTrip | dep/bzip2/bzlib.c:407-467 | Any program of supplying input, making room and calling the compressor, followed by any such program on the decompressing side (fast or small): once the compressor has reported the end, no error is reported, the output is always a prefix of all the input given, and equals it once the end is reported. With legal parameters, a program that supplies room enough and then only finishes reaches the end of the stream; with all of the stream and room for the data supplied, a call then reports the end of the data. |
| RoundTrip.CompressAll | dep/bzip2/bzlib.c:407-467 | For every sequence of calls, when the end of the stream is reported the output is a complete stream holding exactly the bytes supplied up to then, divided into blocks in the one way that the segments ended by flush and finish calls fix - a single segment if nothing was flushed - and each block made of its data by sorting, coding and four passes over its tables. With legal parameters, and room enough for all input before a finish that is asked for until it is done, the end is reported. |
| RoundTrip.DecompressAll | dep/bzip2/bzlib.c:808-858 | For every schedule of input pieces and output sizes over a compressed stream: never an error, output always a prefix of the data, all of it at the end; with the whole stream supplied, a call that does not report the end has used up its room with data still to come; with the whole stream and room for the data supplied, some call reports the end. |
| RoundTrip.WholeStream | dep/bzip2/decompress.c:106-640 | Decompressing a complete stream at once gives its data, stops after the trailer, and the combined checksums agree. |
| RoundTrip.PartialStream | dep/bzip2/decompress.c:40-65 | A prefix of a stream, cut at any byte, is never taken for a broken one, and decodes to a prefix of the data. |
| RoundTrip.StreamOutcome | dep/bzip2/bzlib.c:808-858 | What a decompressor given the first n bytes of a stream can answer: only OK or the end, with a prefix of the data or all of it. |
| RoundTrip.SameOutcome | dep/bzip2/bzlib.c:817-822 | The status and the output depend on the input alone: not on how it was cut up, on the sizes of the output buffers, or on whether the fast or the small representation decoded it. Input that makes the source write beyond its selector arrays has a status of its own, of which nothing more is said. |
| BuffToBuff.Compress | dep/bzip2/bzlib.c:1247-1298 | One call fails only for wrong parameters, or for a buffer that is too small - with a sequence error if and only if there is neither room nor source; otherwise it fits the buffer and is a complete stream of the source, divided and made as one segment. With room enough it succeeds. |
| BuffToBuff.Decompress | dep/bzip2/bzlib.c:1301-1348 | The answer - data, buffer full, unexpected end, error or overrun - is what decoding the whole buffer at once says. |
| BuffToBuff.BackAndForth | dep/bzip2/bzlib.c:1247-1348 | What was compressed comes back exactly if there is room for it; with less the answer is a full buffer. |
| BuffToBuff.Answers | dep/bzip2/bzlib.c:1329-1347 | On the compressed form of some data the answer is these data if there is room for them, and a full buffer if not. |
| Compressor.BzCompressInit | dep/bzip2/bzlib.c:148-211 | Block sizes other than 1 to 9 and work factors other than 0 to 250 are refused; anything else gives a fresh compressor. |
| Compressor.EState.OutputFits | dep/bzip2/bzlib.c:334-464 | At any time the output is no longer than a bound that the input consumed so far sets. |
| Compressor.BlockOutputFits | dep/bzip2/compress.c:602-667 | The header, a block, the trailer and what is left in the bit buffer of the block before have room in arr2 behind the bytes of the block. |
| OutputSize.BlockSize | dep/bzip2/compress.c:239-598 | The bits of a block are at most 169000 and twenty for every symbol. |
| OutputSize.PackSize | dep/bzip2/bzlib.c:216-284 | A finished block stands for some data, and its bits are bounded by their number. |
| OutputSize.CompleteSize | dep/bzip2/compress.c:602-667 | A complete stream is no longer than a bound linear in the data it stands for. |
| OutputSize.StillOpen | dep/bzip2/compress.c:657-666 | What has been written before the trailer is never a complete stream. |
| ArrayBounds.StepIndexes | dep/bzip2/decompress.c:266-375 | The indices into inUse16, inUse, selectorMtf, selector, pos, len and the rows of the decoding tables are all inside their arrays in every step but one that writes a selector too many. |
| ArrayBounds.CountDecides | dep/bzip2/decompress.c:288-314 | However the input goes on after the count of selectors, the block is read inside the arrays if and only if the count is at most 18002. |
| ArrayBounds.RunsStayInside | dep/bzip2/decompress.c:288-314 | Over whole runs: decompressing an input, continued in any way that announces no further count, stays inside the arrays if and only if every count it announces is at most 18002. |
| ArrayBounds.NoOverrunStatus | dep/bzip2/bzlib.c:808-858 | A decompressor that is given only counts that fit never reports an overrun. |
| ArrayBounds.ExcessOverruns | dep/bzip2/decompress.c:290-300 | An input that does not fit: a legal beginning that announces 18003 selectors and goes on with them. |
| ArrayDecoder.TablesHold | dep/bzip2/huffman.c:170-200 | Filled for the shortest and longest length of a table, limit, base and perm hold what the parser computes, at every length and place it reads. |
| ArrayDecoder.CodeByArrays | dep/bzip2/decompress.c:88-101 | The loop of GET_MTF_VAL over limit, base and perm is the step of the parser, with its indices in range, for every table of lengths. |
| ArrayDecoder.BlockFromSymbols | dep/bzip2/decompress.c:375-486 | Every block that the parser delivers is delivered on a plain list by the symbols it has read, whatever the tables. |
| ArrayDecoder.BlockDelivered | dep/bzip2/decompress.c:242-492 | From the start of a block: whatever block the parser delivers is what some symbols of its alphabet, ended by the end of block, deliver. |
| BlockDecoder.MakeTable | dep/bzip2/decompress.c:332-347 | For every table of lengths, the loop over them finds the shortest and the longest, and limit, base and perm are filled for these. |
| BlockDecoder.CodeReader.Begin | dep/bzip2/decompress.c:331-375 | After the last length: the arrays of all tables, the map, the counts and the list stand for the start of the symbols, and the first group has begun. |
| BlockDecoder.CodeReader.NextGroup | dep/bzip2/decompress.c:76-86 | A new group, and with it a table, begins every fifty symbols; when there is no selector left, and only then, it is a data error. |
| BlockDecoder.CodeReader.TryCode | dep/bzip2/decompress.c:89-101 | The test of the loop of GET_MTF_VAL over limit, base and perm, with every index in range, does what the parser does with the same bits: an error, a symbol, or one bit more. |
| BlockDecoder.CodeReader.TakeSymbol | dep/bzip2/decompress.c:372-492 | A decoded symbol goes through the symbol loop, and the next code, the end of the block with origPtr checked, or a data error follows exactly as in the parser; at the end the block of the parser stands in tt, counted in unzftab. |
| BlockDecoder.CodeReader.Advance | dep/bzip2/decompress.c:74-102 | Resumed with the next bits, wherever in a code the input had ended, the arrays make exactly the step of the parser. |
| MtfDecoder.SymbolDecoder.Begin | dep/bzip2/decompress.c:349-372 | makeMaps_d, the counts and the sliding lists at the start of a block stand for the decoder with the identity list and nothing written. |
| MtfDecoder.SymbolDecoder.TakeSymbol | dep/bzip2/decompress.c:375-486 | One turn of the symbol loop, entered behind any of its three calls of GET_MTF_VAL: on the arrays it answers as the decoder on a plain list does, and stands for the decoder that results; at the end of the block the column stands in tt and is counted in unzftab. |
| MtfDecoder.SymbolDecoder.AddDigit | dep/bzip2/decompress.c:381-394 | Symbol 0 adds the weight once and symbol 1 twice, and the weight doubles; the guard on the weight is the only failure. |
| MtfDecoder.SymbolDecoder.EndRun | dep/bzip2/decompress.c:398-415 | A run is written, from the front of the sliding lists, exactly if it fits the block. |
| MtfDecoder.SymbolDecoder.PutChar | dep/bzip2/decompress.c:423-483 | A character is fetched from the sliding lists, moved to the front, counted and written. |
| ArrayDecoder.SymbolUsed | dep/bzip2/decompress.c:400-483 | The characters in use stay at the front of the list, so only they are ever written. |
| Decompressor.DState.ReadCode | dep/bzip2/decompress.c:74-102 | The next bits of a symbol are taken through the arrays; after the last symbol of a block its output begins, with nothing of the input lost. |
| Decompressor.DState.StartOutput | dep/bzip2/decompress.c:494-573 | From the array that the symbol loop has left, in either representation, the output of the very block that the parser delivers begins. |
| HuffmanOptimal.Contract | dep/bzip2/huffman.c:84-112 | In any prefix code, of whatever lengths, the two lightest symbols can be joined into one: some code for the symbols with these two replaced by one of their joint weight costs less by at least that weight. |
| HuffmanOptimal.BestStep | dep/bzip2/huffman.c:100-110 | Joining two trees no heavier than any other keeps a forest one that can be completed at minimal cost. |
| HuffmanOptimal.DepthsMinimal | dep/bzip2/huffman.c:114-121 | The depths in the one tree that is left are the lengths of a code that no prefix code for these weights undercuts. |
| Ties.SameSymbols | dep/bzip2/compress.c:156-168 | Whichever order of the rotations a sort has found, the same symbols are sent. |
| Ties.OriginDecided | dep/bzip2/blocksort.c:1083-1088 | The row of rotation 0 is the same in all sorted orders if and only if no other rotation equals rotation 0. |
| Ties.TiedIsPeriodic | dep/bzip2/blocksort.c:1050-1056 | Some other rotation equals rotation 0 if and only if turning the block by some of its characters gives the block again. |
| Ties.SameBlock | dep/bzip2/compress.c:648-650 | For two sorted orders of a block the symbols sent are the same, and the origPtr sent is the same unless the block is tied in this way. |
| Ties.Doubled | dep/bzip2/blocksort.c:1050-1056 | Every string written twice is a block whose origPtr depends on the order in which ties are left. |
| Ties.TwoOrders | dep/bzip2/blocksort.c:1083-1088 | A block of one character twice has two sorted orders with rotation 0 in different rows. |
| Adler32.SpillsWhen | dep/zlib/adler32.c:160-168 | The first sum of a combination spills into the second half if and only if the first halves add up to at least 2^17 - 14. |
| Adler32.Spilled | dep/zlib/adler32.c:160-168 | From 0xffff and 0xffff, joined over no bytes, the first sum does spill: the second half of the result is odd where the second sum is zero. |
| Adler32.ReducedIsExact | dep/zlib/adler32.c:72-81 | One subtraction is enough for every reduced checksum, and not for 0xfffffff0 and a zero byte. |
| Acceptance.ForeignRefused | dep/bzip2/decompress.c:197-209 | Input is refused as no bzip2 stream if and only if its first four bytes, as far as they are there, are not those of one. |
| Acceptance.AcceptedFrame | dep/bzip2/decompress.c:197-606 | Whatever input decompresses to a stream end - not only what this compressor writes; input that overruns the selector arrays does not - is a header, blocks each carrying the checksum of its part of the output, and a trailer with the combined checksum of all parts. |
| Acceptance.BlocksAccepted | dep/bzip2/bzlib.c:824-850 | From any block boundary: input that decodes without error to the end is made of blocks with correct checksums, then the trailer. |
| Acceptance.FeedSince | dep/bzip2/decompress.c:213-240 | Whatever the parser has read since the last block boundary is the magic number and stored checksum it claims to have seen. |
| BlockDivision.GreedilyIs | dep/bzip2/bzlib.c:289-329 | Taking bytes one by one and cutting whenever the block is full gives the greedy division: blocks of maximal runs, each just full, and a rest that is not. |
| BlockDivision.GreedyUnique | dep/bzip2/bzlib.c:383-394 | A division of some bytes is greedy if and only if it is this one: the bytes and the block size alone decide it. |
| BlockDivision.LateMatters | dep/bzip2/bzlib.c:289-329 | Whether the last byte comes with the finish or before it changes the division if and only if it begins a run where the block is already full. |
| BlockDivision.LateWitness | dep/bzip2/bzlib.c:383-394 | An input for which it does: alternating bytes, one more than fill a block. |
| BlockDivision.BlocksHold | dep/bzip2/bzlib.c:383-394 | The blocks of a segment together hold its bytes, and every block but the last is just full. |
| BlockCutting.CutByte | dep/bzip2/bzlib.c:260-284 | A byte taken into a block that is not full keeps the division the greedy one. |
| BlockCutting.CutFull | dep/bzip2/bzlib.c:391-394 | Cutting a block when it is full, with more to come, keeps the division the greedy one. |
| BlockCutting.CutEnd | dep/bzip2/bzlib.c:386-390 | Ending a segment with what is left makes its blocks those of the segment. |
| Compressor.EState.DivisionIs | dep/bzip2/bzlib.c:289-394 | At any time the finished blocks are those of the segments ended so far and the full ones of what has been taken in since, whatever calls took it in. |
| Compressor.EState.EndedDivision | dep/bzip2/bzlib.c:383-402 | When the stream has ended its blocks are those of its segments, and these hold all of the input. |
| Compressor.EState.BlocksMade | dep/bzip2/compress.c:602-653 | Every finished block is made of its data: maximal runs coded, rotations sorted, the exact map of characters, the last column coded, four passes over the tables. |
| Compressor.MadeAlike | dep/bzip2/blocksort.c:1050-1056 | The data of a block determine its symbols and its map, and its origPtr unless a turn of its run coding gives the same again. |
| RoundTrip.SameDivision | dep/bzip2/bzlib.c:383-394 | One segment is divided in the same way whenever its last byte was taken in, unless that byte begins a run where the block is full. |
| TableRefinement.RefineTables | dep/bzip2/compress.c:266-452 | Two to six tables by the number of symbols, the initial ones, and four passes: what is sent is the selectors of the last pass and the lengths made after it. |
| TableRefinement.InitialTables | dep/bzip2/compress.c:279-317 | The alphabet is divided into one part a table: each the shortest with its share of the occurrences left, every second one less its last symbol; the last ends where the alphabet does. |
| TableRefinement.InitialOnce | dep/bzip2/compress.c:279-317 | The frequencies determine the initial tables. |
| TableRefinement.OneOwner | dep/bzip2/compress.c:308-311 | Every symbol is free in exactly one initial table and takes fifteen bits in all others. |
| TableRefinement.FastCosts | dep/bzip2/compress.c:361-385 | Adding packed lengths of two tables to one word gives the costs of fifty symbols under all six tables: no half ever spills. |
| TableRefinement.SlowCosts | dep/bzip2/compress.c:387-393 | One table at a time the 16-bit costs are the sums of the lengths. |
| TableRefinement.BestTable | dep/bzip2/compress.c:395-401 | The table chosen is the first of those that code the group with the fewest bits. |
| TableRefinement.AssignTables | dep/bzip2/compress.c:342-435 | Every group of fifty gets such a table, and the counters end with how often every table codes every symbol. |
| TableRefinement.FreqsAddUp | dep/bzip2/compress.c:407-432 | The frequencies of a table add up to the number of symbols it codes. |
| TableRefinement.SizeByTables | dep/bzip2/compress.c:395-432 | Group by group or table by table the size of the block is the same. |
| TableRefinement.SelectedCheapest | dep/bzip2/compress.c:395-405 | No other selectors code the groups in fewer bits under the same tables. |
| TableRefinement.PassGains | dep/bzip2/compress.c:319-452 | What an iteration improves: if no weights had to be halved, the new tables code the block in no more bits than the old ones, symbols a table does not code counted once, and the next selectors only take fewer. |
| TableRefinement.FewUnhalved | dep/bzip2/huffman.c:123-144 | The weights of a table are not halved if the symbols it codes and its alphabet are together fewer than 6765, a Fibonacci number. |
| FormatFields.HeaderFields | dep/bzip2/compress.c:622-628 | By place: the header is the 32 bits of "BZh" and the digit of the level, highest first. |
| FormatFields.BlockFields | dep/bzip2/compress.c:630-650 | By place: 48 bits of pi, 32 of the checksum, a zero, 24 of origPtr, the map - sixteen bits for the rows, and the rows that are used - then 3 bits for the tables and 15 for the selectors. |
| FormatFields.TrailerFields | dep/bzip2/compress.c:657-662 | By place: the 48 bits of the square root of pi and the 32 of the combined checksum. |
| FormatFields.EndOfBlock | dep/bzip2/compress.c:154-228 | The alphabet has two symbols more than there are characters in use, and the last of them ends a block. |
| FormatFields.UnaryIs | dep/bzip2/compress.c:517-524 | A selector position is that many ones and a zero. |
| FormatFields.DeltaIs | dep/bzip2/compress.c:531-539 | From a length to the next: for every step up a one and a zero, for every step down two ones, then a zero. |
| MtfCoding.RunDigits | dep/bzip2/compress.c:174-188 | The code of a run of z is zeros and ones, and the sum of (s[k] + 1) * 2^k over them is z. |
| MtfCoding.DigitsUnique | dep/bzip2/compress.c:174-188 | Any symbols 0 and 1 are the code of the run they add up to. |
| HuffmanCodes.CodesInOrder | dep/bzip2/huffman.c:152-166 | Of two symbols with codes of one length the earlier one has the smaller code, and neighbours have neighbouring codes. |
| ChecksumBits.CombineBit | dep/bzip2/compress.c:607-608 | Bit j of the combined checksum is bit j - 1, going round, of the one before, with bit j of the block added. |
| ChecksumBits.CombinedBits | dep/bzip2/bzlib.c:834-837 | Over n blocks bit j is the exclusive or of bit j - (n - k), going round, of the k-th checksum. |
| StreamFormat.TrailerChecksum | dep/bzip2/compress.c:607-608 | This is so of the checksum that the trailer of a stream carries. |
| Acceptance.AcceptedChecksum | dep/bzip2/bzlib.c:834-850 | And of the one that the decompressor compares with it, for any input it accepts. |
| ChecksumBits.GeneratorBits | dep/bzip2/crctable.c:28-104 | The bits of the generator polynomial are those of the exponents 0, 1, 2, 4, 5, 7, 8, 10, 11, 12, 16, 22, 23 and 26. |
| ChecksumBits.BitStepBits | dep/bzip2/bzlib_private.h:167-172 | One step of the register shifts it by one and adds the polynomial under the bit that leaves. |
| ChecksumBits.ReflectedBits | dep/zlib/crc32.c:95-107 | The polynomial of zlib has the same exponents, each at 31 less. |
| ChecksumBits.MakePolynomial | dep/zlib/crc32.c:103-106 | Built from the list of exponents, the polynomial is the constant. |
| ChecksumBits.Complemented | dep/bzip2/bzlib_private.h:157-165 | Both registers start with ones and end complemented. |
| ChecksumBits.MirrorImages | dep/zlib/crc32.c:88-115 | The two checksums are mirror images: that of bzip2 over some bytes is that of zlib over the same bytes read from the other end, bit by bit. |
| Sfmt.RecursionBits | dep/SFMT/SFMT-common.h:142-158 | Every bit of the next term is the exclusive or of the five bits of earlier terms that the parameters name. |
| Sfmt.TermObeys | dep/SFMT/SFMT.c:245-263 | Every term of the sequence obeys it with the terms N, N - POS1, 2 and 1 before. |
| UnRle.BlockOutput.UnfinishedWritesMore | dep/bzip2/bzlib.c:821-825 | As long as a block is not finished its output is still short of its expansion. |
| Acceptance.StepInside | dep/bzip2/decompress.c:242-492 | Inside a block the parser leaves it only at its end or with a data error, and never changes the stored checksum. |
| Compressor.EState.BzCompress | dep/bzip2/bzlib.c:407-467 | The mode machine: every call keeps the stream invariant; a finished stream is complete and holds all input; a finished flush leaves fewer than 32 bits behind; a flush or finish that is not complete has no room left and something left to hand over, and a finish with room enough for its input does complete; a segment begins exactly with a flush or finish; the status is a function of the state before, the action, whether the input is still that of the flush or finish, whether bytes moved and the state after; refused calls change nothing, and one that is not refused and finds input to take makes progress. |
| Compressor.EState.HandleCompress | dep/bzip2/bzlib.c:361-402 | Input and output alternate until a stopping condition holds; nothing is lost, progress is reported exactly when bytes were taken or given, and blocks are cut only when full or where a segment ends. |
| Compressor.EState.OutputIsPrefix | dep/bzip2/bzlib.c:215-464 | At any time the output is a prefix of one stream: header, finished blocks in order, trailer once ended; and nblock never exceeds 100000*blockSize100k - 10. |
| Compressor.EState.FlushDone | dep/bzip2/bzlib.c:442-449 | When a flush is complete all input has been packed into finished blocks and handed over, but for fewer than 32 bits. |
| Compressor.EState.FinishDone | dep/bzip2/bzlib.c:452-461 | When a finish is complete the output is a complete stream whose blocks hold all the input, every segment ended. |
| Compressor.EState.OnlyRoom | dep/bzip2/bzlib.c:447-460 | A flush or finish that has to be continued has no output room left. |
| Compressor.EState.AddPairToBlock | dep/bzip2/bzlib.c:216-246 | The pending run goes into the block as one to five bytes; the checksum and the balance of bytes taken follow, and the map gains exactly the characters written. |
| Compressor.EState.AddCharToBlock | dep/bzip2/bzlib.c:260-284 | One byte is run-length coded: the runs of the block plus the pending run become those of one byte more, a new run beginning exactly with another character or after 255 of the same. |
| Compressor.EState.FlushRL | dep/bzip2/bzlib.c:252-256 | The pending run goes into the block as at most five bytes and none is pending; the bytes taken in are still accounted for. |
| Compressor.EState.CopyInputUntilStop | dep/bzip2/bzlib.c:289-329 | Takes input until the block is full, the input is used up or a flush is due; consumed bytes plus remaining input are conserved. |
| Compressor.EState.CopyOutputUntilStop | dep/bzip2/bzlib.c:334-356 | Hands over output until there is no room or the block is done; the stream handed over only grows. |
| Compressor.EState.PrepareNewBlock | dep/bzip2/bzlib.c:117-126 | After a block has been handed over completely the next one starts empty, with a map that has no character, and the stream so far is kept. |
| Compressor.EState.CompressBlock | dep/bzip2/compress.c:602-667 | A block is cut only when it holds at least 100000 * blockSize100k - 19 bytes with a run still pending, or where its segment ends; a nonempty one becomes one more finished block of the stream, after the header if it is the first and before the trailer if it is the last, and the bytes it produces have room in arr2 behind those of the block. |
| Compressor.EState.constructor | dep/bzip2/bzlib.c:148-211 | A fresh compressor: nothing consumed, nothing written, the stream empty. |
| RunCollector.CollectRun | dep/bzip2/bzlib.c:216-246 | Adding a pending run keeps block, runs and checksum in step, and the map of characters that of the block, no more and no less. |
| RunCollector.CollectNext | dep/bzip2/bzlib.c:260-284 | A byte that continues or starts a run keeps the pending run within 1 to 255; a run is followed by one of the same character only if it has 255. |
| StreamFormat.PackedDecodes | dep/bzip2/compress.c:602-653 | A block that was run-length coded, sorted and transformed decodes, walked from its original position and expanded, to the bytes put into it. |
| BlockWriter.PutBlock | dep/bzip2/compress.c:630-653 | What is written of a sorted block is what the parser takes back: its symbols are the coded last column for the map given, its tables those of the last of four passes. |
| BlockWriter.PutHeader | dep/bzip2/compress.c:622-628 | What has been written grows by exactly the bits of 'B', 'Z', 'h' and the level. |
| BlockWriter.PutTrailer | dep/bzip2/compress.c:657-666 | The trailer with the combined checksum, and zeros up to the byte. |
| BlockWriter.MakeSymbols | dep/bzip2/compress.c:650 | The symbols sent are the coded last column of the sorted block, and mtfFreq counts each of them. |
| BlockWriter.BlockSendable | dep/bzip2/compress.c:602-653 | The symbols of every legal block satisfy all that the parser checks. |
| BlockSort.BlockSort | dep/bzip2/blocksort.c:1031-1090 | Whichever sort is used and whatever the work factor, ptr lists all rotations in order and origPtr is the row of rotation 0; assertion 1003 holds. |
| BlockSort.SortMain | dep/bzip2/blocksort.c:1040-1068 | If the main sort ends with a budget that is not negative, the rotations are sorted. |
| BlockSort.SortFallback | dep/bzip2/blocksort.c:1041-1078 | For every nonempty block of at most 900000 bytes the fallback branch sorts the rotations. |
| MainSort.Sort | dep/bzip2/blocksort.c:750-1011 | If the budget stays nonnegative, ptr is a permutation listing all cyclic rotations in nondecreasing order, for every block; the block is intact. |
| MainSort.DoBigBucket | dep/bzip2/blocksort.c:856-960 | Unless the budget runs out, steps 1 and 2 mark exactly one more big bucket as done and keep ptr sound: a permutation, every slot in its bucket, marked buckets sorted; assertion 1006 holds. |
| MainSort.RadixSort | dep/bzip2/blocksort.c:763-819 | After the two-byte radix sort every position lies in its small bucket and ftab tells where each begins; quadrants are clear and the overshoot repeats the block. |
| MainSort.UpdateQuadrants | dep/bzip2/blocksort.c:983-1001 | Step 3 keeps the promise of the quadrants; the shifted values fit 16 bits, so assertion 1002 holds. |
| MainSort.UpdatedAll | dep/bzip2/blocksort.c:962-1000 | Quadrants taken from the order of a completed big bucket never contradict the order of rotations. |
| MainSort.AllSorted | dep/bzip2/blocksort.c:856-1004 | When every big bucket is done all rotations are in order. |
| BigBuckets.RunningOrder | dep/bzip2/blocksort.c:825-851 | The shell sort of the big buckets gives a permutation of 0..255 by size. |
| BigBuckets.SortSmallBuckets | dep/bzip2/blocksort.c:874-895 | Step 1 leaves every small bucket [ss,j], j != ss, in order and marked, and all others as they were. |
| BigBuckets.SortOne | dep/bzip2/blocksort.c:875-893 | One small bucket is sorted unless its mark is set; every slot stays in its bucket. |
| BigBuckets.ScanBig | dep/bzip2/blocksort.c:906-945 | Step 2 leaves all small buckets [t,ss] filled and in order, [ss,ss] included; assertion 1007 holds, in a block of a single character by its second case. |
| BigBuckets.BucketAgrees | dep/bzip2/blocksort.c:885-888 | The rotations of a small bucket agree in two characters, as the quicksort needs. |
| BigBuckets.SortedSmall | dep/bzip2/blocksort.c:885-892 | Sorting the range of one small bucket leaves the distribution and all other small buckets intact. |
| ScanLoops.ScanLeft | dep/bzip2/blocksort.c:917-922 | The scan from the left, which reads what it writes, ends with exactly the slots of the rotations below the run of ss. |
| ScanLoops.ScanRight | dep/bzip2/blocksort.c:923-928 | The scan from the right ends with exactly the slots of the rotations above the run of ss, and copyEnd[ss] where 1007 needs it. |
| ScanLoops.LeftStep | dep/bzip2/blocksort.c:917-922 | One step: the entry read is final, its predecessor is written beyond all that has been read, and only if its big bucket is not done. |
| ScanLoops.RightStep | dep/bzip2/blocksort.c:923-928 | One step from the right: the entry read is final, its predecessor is written below all that has been read, and only if its big bucket is not done. |
| BucketScan.AfterScan | dep/bzip2/blocksort.c:906-943 | After both scans ptr is a permutation again, every slot is in its bucket, and every small bucket that ends in ss is in order. |
| BucketScan.ScansMeet | dep/bzip2/blocksort.c:931-941 | Assertion 1007: copyStart[ss]-1 == copyEnd[ss], or the block holds nothing but ss. |
| BucketScan.BucketFull | dep/bzip2/blocksort.c:906-929 | What the two scans find for a character t fills [t,ss] exactly, in order. |
| BucketScan.LowReached | dep/bzip2/blocksort.c:917-922 | A left scan that has caught up with its own writing has met every rotation below the run. |
| BucketScan.HighReached | dep/bzip2/blocksort.c:923-928 | A right scan that has caught up has met every rotation above the run. |
| BucketScan.AddLeft | dep/bzip2/blocksort.c:918-921 | There is always room for the next entry on the left, and writing it keeps the state of the scan. |
| BucketScan.AddRight | dep/bzip2/blocksort.c:924-927 | There is always room for the next entry on the right, and writing it keeps the state of the scan. |
| BucketScan.BothSides | dep/bzip2/blocksort.c:906-929 | Predecessors found from the left and from the right are distinct and in order. |
| BucketScan.PredOrder | dep/bzip2/blocksort.c:897-903 | Rotations with the same character before them are ordered alike with it: why scanning sorts. |
| BucketScan.FlatPred | dep/bzip2/blocksort.c:917-928 | One more ss in front does not change the side of the run a rotation is on. |
| Buckets.CountPairs | dep/bzip2/blocksort.c:764-788 | ftab counts the occurrences of every pair of characters, the one across the end included. |
| Buckets.Accumulate | dep/bzip2/blocksort.c:799 | The counts become running sums: ftab[k] is where bucket k ends, for all 65537 entries. |
| Buckets.Distribute | dep/bzip2/blocksort.c:801-829 | Positions are put into their small buckets; the result is a permutation. |
| Buckets.PlaceOne | dep/bzip2/blocksort.c:825-829 | Placing one position keeps all filled parts in order and apart. |
| Marks.MarkOps | dep/bzip2/blocksort.c:747-748 | SETMASK and CLEARMASK: the mark can be read, removed and set without touching the position below it. |
| MainQSort.QSort3 | dep/bzip2/blocksort.c:621-730 | Unless the budget runs out the range is sorted; it stays a permutation of itself; the recursion on an explicit stack ends, and assertion 1001 cannot fail. |
| MainQSort.PartitionRange | dep/bzip2/blocksort.c:658-712 | The partition by the character at depth d gives three parts, the middle one agreeing one character deeper, every pair across parts in order. |
| MainQSort.OrderParts | dep/bzip2/blocksort.c:718-724 | The three parts are reordered by decreasing size and are still the parts of the partition. |
| MainQSort.PushParts | dep/bzip2/blocksort.c:726-728 | The stack gains the three parts with their depths, largest first. |
| MainQSort.CharPartition | dep/bzip2/blocksort.c:664-692 | The partition loop ends with equal keys at both ends, smaller and larger ones next to them. |
| MainQSort.StackFits | dep/bzip2/blocksort.c:645-647 | Never more than 65 ranges are pending, so the stack of 100 has room. |
| MainQSort.ThirdsDepth | dep/bzip2/blocksort.c:718-728 | Because each pending range is at least half of all above it, depth is logarithmic. |
| MainQSort.ThreeParts | dep/bzip2/blocksort.c:697-724 | The three parts of a partition agree to their depths and leave no pair across them out of order. |
| MainQSort.Mmed3 | dep/bzip2/blocksort.c:583-592 | The result is the median of the three and one of them. |
| MainSimpleSort.SimpleSort | dep/bzip2/blocksort.c:485-547 | Unless the budget runs out the range is sorted; it stays a permutation of itself. |
| MainSimpleSort.Pass | dep/bzip2/blocksort.c:507-545 | One pass with stride h, abandoned only when the budget is negative. |
| MainSimpleSort.Insert | dep/bzip2/blocksort.c:511-524 | One insertion extends the part in which positions h apart are in order by one, within a permutation of the range. |
| MainSimpleSort.FirstIncrement | dep/bzip2/blocksort.c:500-503 | The largest increment below the size; the table reaches far enough. |
| MainSimpleSort.Decided | dep/bzip2/blocksort.c:515-518 | Comparing from depth d decides the order of rotations that agree that far. |
| MainCompare.MainGtU | dep/bzip2/blocksort.c:347-455 | A yes means not earlier, a no means not later, for every pair of rotations; never reads beyond the overshoot; never raises the budget. |
| MainCompare.CompareEight | dep/bzip2/blocksort.c:404-443 | Over eight characters and quadrants the first difference decides the order; without one, the rotations agree in eight more places. |
| MainCompare.MatchedQuadrant | dep/bzip2/blocksort.c:406-408 | A difference in the quadrants decides the rest of the comparison. |
| MainCompare.RankOrder | dep/bzip2/blocksort.c:347-455 | Ranks are ordered exactly as rotations are, so one notion of key serves both quicksorts. |
| Rotations.SortedUnique | dep/bzip2/blocksort.c:1050-1055 | Any two sorted listings of the rotations agree row by row up to ties: the rotations in the same row of both are equal. The row of rotation 0 may differ (Ties.OriginDecided). |
| Rotations.FullTurn | dep/bzip2/blocksort.c:401-453 | Two rotations that agree over one whole turn agree over any length: comparing nblock characters settles every longer comparison. |
| FallbackSort.Sort | dep/bzip2/blocksort.c:212-329 | fmap becomes a permutation whose rotations are in nondecreasing order, and the block bytes, destroyed in between, are put back. |
| FallbackSort.DoublingLoop | dep/bzip2/blocksort.c:259-313 | From order and classes by one character, doubling ends with all rotations sorted. |
| FallbackSort.RefinePass | dep/bzip2/blocksort.c:266-311 | A pass turns order and classes by the first H cyclic characters into those by the first 2H. |
| FallbackSort.NextBucket | dep/bzip2/blocksort.c:277-292 | The word-skipping scan of the bitmap finds the next bucket of more than one row, and misses none. |
| FallbackSort.SortBucket | dep/bzip2/blocksort.c:295-305 | One bucket sorted by class, its header bits written where the class changes. |
| FallbackSort.MarkHeaders | dep/bzip2/blocksort.c:299-304 | Within a sorted bucket header bits are set exactly where the class changes, and no bit outside it changes. |
| FallbackSort.BucketRefined | dep/bzip2/blocksort.c:266-271 | Within a bucket the class numbers decide the order at depth 2H. |
| FallbackSort.PassDone | dep/bzip2/blocksort.c:273-311 | A pass over every row refines depth H to depth 2H. |
| FallbackSort.SortedAtEnd | dep/bzip2/blocksort.c:311-312 | Either stopping condition means that the rotations are sorted. |
| FallbackSort.InitHeaders | dep/bzip2/blocksort.c:243-257 | Header bits at the starts of the one-character buckets, and the sentinels. |
| FallbackSort.CountCharacters | dep/bzip2/blocksort.c:231-234 | ftab[c] is the number of bytes up to c and the copy holds the count of each byte. |
| FallbackSort.PlacePositions | dep/bzip2/blocksort.c:236-241 | The positions become a permutation ordered by their characters, and ftab[c] the start of bucket c. |
| FallbackSort.NumberClasses | dep/bzip2/blocksort.c:266-271 | Every row H before the i-th gets the number of the bucket row i is in. |
| FallbackSort.Reconstruct | dep/bzip2/blocksort.c:322-328 | The block is rebuilt from the sorted rows and the counts; assertion 1005 holds. |
| FallbackSort.SortedFirst | dep/bzip2/blocksort.c:322-327 | Sorted rows and counted characters agree: why the rebuilt block is the block. |
| BitTable.SkipRun | dep/bzip2/blocksort.c:277-291 | Skipping singly, by whole words, then singly finds the end of a run of equal bits. |
| BitTable.SetBit | dep/bzip2/blocksort.c:205 | SET_BH sets one bit and no other. |
| BitTable.ResetBit | dep/bzip2/blocksort.c:206 | CLEAR_BH clears one bit and no other. |
| FallbackQSort.FallbackQSort3 | dep/bzip2/blocksort.c:93-180 | fmap[lo..hi] becomes a permutation of itself sorted by eclass, nothing else is touched, and it ends. |
| FallbackQSort.StackFits | dep/bzip2/blocksort.c:109-113 | Because the larger part is pushed first at most 33 ranges are pending: assertion 1004 cannot fail. |
| FallbackQSort.PartitionRange | dep/bzip2/blocksort.c:126-170 | Three parts around the chosen key, of which the middle one is not empty. |
| FallbackQSort.ChooseMedian | dep/bzip2/blocksort.c:126-130 | The key chosen is that of an entry of the range, as the partition needs. |
| FallbackQSort.FallbackSimpleSort | dep/bzip2/blocksort.c:32-59 | The range becomes a permutation of itself sorted by eclass, and nothing else changes. |
| FallbackQSort.VSwap | dep/bzip2/blocksort.c:66-75 | fvswap exchanges two runs of n entries place by place and nothing else. |
| FallbackQSort.GatherEqual | dep/bzip2/blocksort.c:164-170 | The equal keys gathered at both ends end up in the middle: smaller, equal, larger, with at least one equal. |
| FallbackQSort.PushParts | dep/bzip2/blocksort.c:172-178 | Of the two parts to be sorted the larger one is put below the smaller one on the stack. |
| Transform.InverseTransform | dep/bzip2/decompress.c:557-576 | For every nonempty block, periodic ones included, and every permutation sorting its rotations, the walk from origPtr emits the block. |
| Transform.WalkEmitsBlock | dep/bzip2/decompress.c:559-576 | The k-th step of the walk from origPtr emits the k-th character of the block, going round. |
| Transform.LastColumnUnique | dep/bzip2/compress.c:163-167 | Any two sorting permutations give the same last column, and hence the same symbols. |
| Transform.LinkAdvances | dep/bzip2/decompress.c:560-564 | A link leads to a rotation equal to the next one of the block. |
| Inverse.BuildCftab | dep/bzip2/decompress.c:494-516 | cftab holds the prefix sums of the character counts; its range checks never fail. |
| Inverse.BuildInverseFast | dep/bzip2/decompress.c:559-564 | The tt vector packs every link above the character stored there. |
| Inverse.BuildForwardSmall | dep/bzip2/decompress.c:529-534 | ll16 and ll4 together hold T: for every row of the last column its slot in the first. |
| Inverse.ReversePointers | dep/bzip2/decompress.c:536-545 | Pointer reversal ends, because T is a permutation, and inverts T on the cycle of origPtr. |
| Inverse.PathGrows | dep/bzip2/decompress.c:537-545 | Following T leads to a row not visited before until it is back at origPtr. |
| Inverse.SetLL | dep/bzip2/bzlib_private.h:458-473 | GET_LL reads back what SET_LL wrote, and every neighbouring entry, the one sharing the byte included, is undisturbed. |
| Inverse.IndexIntoF | dep/bzip2/bzlib.c:687-699 | The binary search ends with cftab[nb] <= indx < cftab[nb + 1]. |
| Inverse.FirstColumn | dep/bzip2/bzlib.c:687-699 | However many buckets are empty, it returns the first-column character. |
| MtfEncoder.GenerateMtfValues | dep/bzip2/compress.c:120-231 | The symbols are written over pointers already read, code the last column, and mtfFreq ends with how often each occurs. |
| MtfEncoder.MakeMapsE | dep/bzip2/compress.c:106-115 | unseqToSeq gives every character in use its rank among them, and nInUse is their number. |
| MtfEncoder.MakeMapsD | dep/bzip2/decompress.c:27-36 | seqToUnseq maps every rank back to its character. |
| MtfEncoder.WriteRun | dep/bzip2/compress.c:174-188 | A pending run of n is written, in at most n places, as symbols 0 and 1 whose sum (s[k] + 1) * 2^k is n, and they are counted. |
| MtfEncoder.FindAndMove | dep/bzip2/compress.c:189-207 | The index of a character in the list, and the list with it moved to the front. |
| MtfCoding.DecodeEncode | dep/bzip2/compress.c:163-226 | Decoding gives back every coded sequence, whatever the list and the pending run. |
| MtfCoding.RunRoundTrip | dep/bzip2/compress.c:174-188 | Reading the digits of a run of z, each weighted n, 2n, 4n and so on, gives z * n: bijective base-2 coding round-trips every run length. |
| MtfCoding.RunGuardNeverFires | dep/bzip2/decompress.c:384-390 | The guard N >= 2*1024*1024 never fires on a legal block. |
| MtfArena.Fetch | dep/bzip2/decompress.c:423-475 | The sixteen sliding sublists behave as one 256-entry list moved to the front, for every index and every sequence of them. |
| MtfArena.MtfInit | dep/bzip2/decompress.c:358-370 | The arena and the sixteen bases represent the identity list. |
| MtfArena.MoveShort | dep/bzip2/decompress.c:429-444 | An index below 16 fetches its entry and moves it to the front of the represented list, inside the first sublist. |
| MtfArena.MoveLong | dep/bzip2/decompress.c:445-473 | The general case: adjacent sublists hand over one entry each and overwrite no other. |
| MtfArena.Repack | dep/bzip2/decompress.c:463-472 | Re-packing at the end of the arena never clobbers an entry still to be read. |
| MtfArena.RepackCell | dep/bzip2/decompress.c:465-469 | Copying one entry on re-packing overwrites no entry still to be read. |
| MtfArena.SlideStep | dep/bzip2/decompress.c:455-460 | One sublist gives its last entry to the next, which slides down by one; the represented list is that of the move so far. |
| MtfDecoder.PutRun | dep/bzip2/decompress.c:398-415 | A run is written out exactly if it fits the block, and counted in unzftab. |
| MtfRoundTrip.SymbolsRoundTrip | dep/bzip2/decompress.c:375-486 | The symbol loop on the symbols of a block returns its last column. |
| MtfRoundTrip.UnseqColumn | dep/bzip2/decompress.c:477-480 | Mapping the sequence numbers of the coded column back gives the last column. |
| MtfRoundTrip.BlockSymbolsFit | dep/bzip2/compress.c:228-230 | At most nblock + 1 symbols, all in the alphabet, the last one and no other the end of block. |
| HuffmanLengths.MakeCodeLengths | dep/bzip2/huffman.c:63-148 | It ends for every alphabet of 2 to 258 symbols, with lengths in 1..maxLen whose Kraft sum is exactly 1. They are those of a code of minimal weighted length, no prefix code being shorter, for the weights halved some number of times; before each halving a cheapest code was longer than maxLen, and below a Fibonacci total there is none. |
| HuffmanLengths.ScalingHelps | dep/bzip2/huffman.c:142-146 | A code that is too long means weights large enough for halving to shrink the total, by the Fibonacci bound on the depth of Huffman trees. |
| HuffmanLengths.ScaleWeights | dep/bzip2/huffman.c:142-146 | Every leaf weight becomes half of itself, and at least 1, as the source computes it on packed weights. |
| HuffmanLengths.BuildTree | dep/bzip2/huffman.c:84-112 | The two lightest trees are joined until one is left, and no tree over these weights is cheaper; assertions 2001 and 2002 hold. |
| HuffmanLengths.JoinTwo | dep/bzip2/huffman.c:100-110 | The two lightest trees are taken from the heap and joined under a new node; heap, weights and parent links describe the forest that results, and what it costs to complete it stays minimal. |
| HuffmanLengths.ReadLengths | dep/bzip2/huffman.c:114-121 | The length of every symbol is its depth in the tree, and the result says whether one is deeper than maxLen. |
| HuffmanLengths.LengthsComplete | dep/bzip2/huffman.c:114-123 | Depths of the leaves of one tree use up the code space exactly. |
| HuffmanLengths.HeightFits | dep/bzip2/huffman.c:29-31 | Trees are never higher than 32, so the height in the low byte of a packed weight cannot carry into the weight. |
| HuffmanTrees.PartsFill | dep/bzip2/huffman.c:114-121 | The leaves of a binary tree, each with its share by depth, fill the code space exactly. |
| HuffmanHeap.UpHeap | dep/bzip2/huffman.c:33-42 | The heap is ordered with its last entry included, and holds the same nodes. |
| HuffmanHeap.DownHeap | dep/bzip2/huffman.c:44-59 | The heap is ordered with its root included, and holds the same nodes. |
| HuffmanCodes.AssignCodes | dep/bzip2/huffman.c:152-166 | Every symbol gets its canonical code: first by length, then by index. |
| HuffmanCodes.CreateDecodeTables | dep/bzip2/huffman.c:170-200 | limit, base and perm are the decoding tables of the canonical codes: perm lists symbols by length, and limit and base bound and offset the codes of each length. |
| HuffmanCodes.CodeDecodes | dep/bzip2/decompress.c:88-101 | For every table with Kraft sum at most 1, reading the code of i followed by any bits returns i after exactly its length. |
| HuffmanCodes.PrefixFree | dep/bzip2/huffman.c:152-166 | No code is a prefix of the code of another symbol. |
| HuffmanCodes.OnlyCodesDecode | dep/bzip2/decompress.c:88-101 | Whatever the decoder accepts is the code of the symbol it returns. |
| HuffmanCodes.LaterCodesAbove | dep/bzip2/huffman.c:160-165 | Longer codes start above everything a shorter one occupies. |
| BitStream.BitWriter.BsW | dep/bzip2/compress.c:71-78 | What has been written grows by the n bits of v, for every v below 2^n and n up to 24. |
| BitStream.BitWriter.NeedW | dep/bzip2/compress.c:58-67 | Whole bytes leave the buffer until fewer than eight bits are left in it; what has been written stays the same. |
| BitStream.BitWriter.PutUInt32 | dep/bzip2/compress.c:82-89 | What has been written grows by the 32 bits of u. |
| BitStream.BitWriter.FinishWrite | dep/bzip2/compress.c:45-54 | All bits are in whole bytes, with fewer than eight zeros added. |
| BitStream.BitReader.GetBits | dep/bzip2/decompress.c:43-65 | The next n bits as a number, or the input is used up and nothing has been lost. |
| MtfSender.SendMtfValues | dep/bzip2/compress.c:239-598 | For every choice of tables and selectors the bits written are those the parser reads back; assertions 3002 and 3003 hold. TableRefinement makes the choice. |
| MtfSender.TableLengths | dep/bzip2/compress.c:444-451 | The code lengths of one table are 1 to 17, satisfy the Kraft inequality, and are those of a code of minimal weighted length for the frequencies, halved only as often as a cheapest code was longer than 17. |
| MtfSender.TableCodes | dep/bzip2/compress.c:480-492 | The codes of the table are the canonical ones of its lengths; assertions 3004 and 3005 hold. |
| MtfSender.FindSelector | dep/bzip2/compress.c:465-477 | The place of a table in the selectors' list, moved to the front. |
| MtfSender.PutMap | dep/bzip2/compress.c:494-511 | The bits of the map of used characters are written: sixteen rows, then the rows in use. |
| MtfSender.PutSelectors | dep/bzip2/compress.c:517-524 | Every move-to-front position is written as that many ones and a zero. |
| MtfSender.PutLen | dep/bzip2/compress.c:534-538 | The steps from the current length to the next one are written, and the zero that ends them. |
| MtfSender.PutTables | dep/bzip2/compress.c:531-539 | All tables are written delta coded, each from its first length. |
| MtfSender.PutCodes | dep/bzip2/compress.c:544-594 | The codes of the symbols, group by group; assertions 3006 and 3007 hold. |
| Printer.TakesBlock | dep/bzip2/decompress.c:222-491 | The parser takes back exactly what was printed for a block: used characters, selectors, lengths, symbols, checksum and original position. |
| Printer.TakesHeader | dep/bzip2/decompress.c:197-209 | Fed with a stream header, and anything after it, the parser stands before the first block with that level. |
| Printer.TakesTrailer | dep/bzip2/decompress.c:582-606 | Fed with a trailer, and anything after it, the parser is idle with the stored combined checksum. |
| Printer.SelectorsRoundTrip | dep/bzip2/decompress.c:302-314 | Undoing the move-to-front coding of the selectors gives them back. |
| Printer.FeedTables | dep/bzip2/decompress.c:316-329 | From the delta-coded lengths the parser recovers every table. |
| Printer.FeedSelectors | dep/bzip2/decompress.c:286-300 | From the unary positions the parser recovers every selector position. |
| Printer.FeedRows | dep/bzip2/decompress.c:266-281 | From the rows of the map the parser recovers which characters are in use. |
| Printer.FeedSymbols | dep/bzip2/decompress.c:74-102 | The symbols are recovered from their codes, a new table every fifty. |
| Parser.Step | dep/bzip2/decompress.c:106-610 | From a state whose tables and indices are in range every field leads to another such state, or to the stop that stands for a selector written beyond its array: that one write the source does not check (see Findings). |
| Parser.FeedSplit | dep/bzip2/decompress.c:43-65 | Parsing does not depend on how the input is split across calls. |
| Parser.OnSymbol | dep/bzip2/decompress.c:375-492 | Whatever a decoded symbol leads to, with every check of the loop, is a state whose tables and indices are in range. |
| Parser.NextLen | dep/bzip2/decompress.c:316-347 | Whatever a completed length leads to is a state whose tables and indices are in range. |
| RunLength.ExpandRuns | dep/bzip2/bzlib.c:216-246 | Expansion inverts run-length coding for every sequence of runs. |
| RunLength.TakeRun | dep/bzip2/bzlib.c:640-660 | Taking on the next run as the decoders do follows the expansion. |
| UnRle.BlockOutput.UnRleFast | dep/bzip2/bzlib.c:589-680 | The goto-driven decoder, stopped by any output size and resumed, writes exactly the expansion of the block with its checksum; it reports corruption only if the block breaks off. |
| UnRle.BlockOutput.UnRleSmall | dep/bzip2/bzlib.c:750-802 | The decoder of the small representation, stopped by any output size and resumed, writes exactly the expansion of the block with its checksum; it reports corruption only if the block breaks off. |
| UnRle.BlockOutput.WriteCopies | dep/bzip2/bzlib.c:608-632 | The copies of a run are written as far as there is room, and the checksum follows. |
| UnRle.BlockOutput.TakeFast | dep/bzip2/bzlib.c:634-660 | The next run is taken on: up to three further bytes compared and a count, as the expansion prescribes. |
| UnRle.BlockOutput.TakeSmall | dep/bzip2/bzlib.c:774-799 | The same on the small representation, in the order of the small decoder. |
| UnRle.BlockOutput.GetFast | dep/bzip2/bzlib_private.h:451-456 | Fetches the next byte of the block; its range check never fires. |
| UnRle.BlockOutput.GetSmall | dep/bzip2/bzlib_private.h:475-479 | Fetches the next byte of the block; its range check never fires. |
| UnRle.BlockOutput.StartFast | dep/bzip2/decompress.c:559-573 | From the characters in tt and their counts, as the symbol loop leaves them, the fast representation is built in place and the first byte fetched, ready for output. |
| UnRle.BlockOutput.StartSmall | dep/bzip2/decompress.c:524-554 | From the characters in ll16 and their counts, as the symbol loop leaves them, the small representation is built in place, its pointers reversed and the first byte fetched, ready for output. |
| UnRle.BlockOutput.FinishedWritesAll | dep/bzip2/bzlib.c:824-826 | A finished block was whole, and what was written is its expansion. |
| UnRle.BlockOutput.EmittingParts | dep/bzip2/bzlib.c:817-822 | At any time what has been written of a block is a prefix of its expansion. |
| Decompressor.DState.BzDecompress | dep/bzip2/bzlib.c:808-858 | Every call that does not report an error, a randomised block or an overrun of the selector arrays keeps the decompressor at a point of decoding its whole input, and can be followed by another; the status and output of any call are those of decoding that input at once. |
| Decompressor.DState.Decompress | dep/bzip2/decompress.c:106-640 | Fields, and the bits of symbols, are read until the parser stops or the input is used up, and nothing is lost in between. The symbols of a block run through the arrays of its tables and the sliding lists, left at any bit and taken up again; headers and trailers are on values. |
| Decompressor.DState.FinishBlock | dep/bzip2/bzlib.c:824-838 | At the end of a block the checksums are compared and the combined one goes on, rotated by one bit; a mismatch is a data error. |
| Decompressor.DState.WriteOut | dep/bzip2/bzlib.c:818-823 | A block's output goes on; corruption is reported only for input that decodes to a broken block. |
| Decompressor.StoppedOutcome | dep/bzip2/bzlib.c:844-855 | What a stopped parser says about the whole input: its end, a data error, a foreign stream, an overrun, or more to come. |
| Decompressor.StepSized | dep/bzip2/decompress.c:404-411 | A delivered block fits the arrays of its level and contains origPtr. |
| StreamDecoder.CompleteDecodes | dep/bzip2/decompress.c:106-640 | A complete stream decodes to the bytes of its blocks with a matching combined checksum. |
| StreamDecoder.DecodeBlocks | dep/bzip2/bzlib.c:815-856 | The bits of any number of blocks decode to their data one after the other, with their combined checksum. |
| StreamDecoder.DecompressedSplit | dep/bzip2/bzlib.c:808-858 | Where the input of a whole stream is cut does not matter; what has stopped takes no notice of more. |
| StreamDecoder.ReachedStep | dep/bzip2/decompress.c:43-65 | Reading one field keeps the decoder at a point of decoding the same input. |
| StreamDecoder.ReachedBlock | dep/bzip2/bzlib.c:824-838 | Writing out a good block keeps the decoder at a point of decoding the same input. |
| BlockCrc.UpdateIsEightBits | dep/bzip2/bzlib_private.h:167-172 | One table lookup is eight steps of the bitwise division. |
| BlockCrc.CrcConcat | dep/bzip2/bzlib_private.h:167-172 | The checksum of a concatenation continues that of its first part. |
| Crc32.MakeCrcTable | dep/zlib/crc32.c:88-131 | Table 0 is eight bit steps of every byte; tables 1 to 3 are shifts by one to three zero bytes, 4 to 7 their byte reversals. |
| Crc32.Crc32Bytes | dep/zlib/crc32.c:198-234 | The byte-wise loop equals the bit-at-a-time CRC (section 8 of RFC 1952). |
| Crc32.CrcContinues | dep/zlib/crc32.c:202-234 | For all byte strings, crc(crc(c, A), B) == crc(c, A ++ B). |
| Crc32.FourByTables | dep/zlib/crc32.c:260-262 | Four table lookups shift a register by 32 bits. |
| Crc32.FourBytes | dep/zlib/crc32.c:260-262 | Four bytes brought in at once as a little-endian word give the same register as one by one. |
| Crc32Fast.Crc32Little | dep/zlib/crc32.c:266-297 | Equals the bitwise CRC for every buffer, length and alignment. |
| Crc32Fast.Crc32Big | dep/zlib/crc32.c:306-337 | Working on byte-reversed words it equals the bitwise CRC for every buffer, length and alignment. |
| Crc32Fast.DoBig4 | dep/zlib/crc32.c:300-302 | One word through the reversed tables is 32 bit steps of the byte-reversed register. |
| Crc32Fast.DoLit4 | dep/zlib/crc32.c:260-262 | One word through the tables is 32 bit steps of the register. |
| Crc32Combine.Gf2MatrixTimes | dep/zlib/crc32.c:344-358 | The loop computes the exclusive or of the columns that vec selects. |
| Crc32Combine.TimesXor | dep/zlib/crc32.c:344-358 | Multiplication is linear: M(x ^ y) == M x ^ M y. |
| Crc32Combine.Gf2MatrixSquare | dep/zlib/crc32.c:361-369 | The square is the product of the matrix with itself, column by column. |
| Crc32Combine.ProductComposes | dep/zlib/crc32.c:361-369 | Multiplying by a product is multiplying by its factors one after the other. |
| Crc32Combine.SquareDoubles | dep/zlib/crc32.c:394-404 | Squaring the operator for k zero bits gives the one for 2k. |
| Crc32Combine.Combine | dep/zlib/crc32.c:372-425 | The odd/even loop applies 8*len2 zero bits from the binary digits of the length, and gives crc1 back for lengths that are not positive. |
| Crc32Combine.CombineChecksums | dep/zlib/crc32.c:372-425 | Combining crc(A), crc(B) and the length of B gives crc(A ++ B), for all byte strings. |
| Crc32Combine.RegisterXor | dep/zlib/crc32.c:372-425 | The register after a string is linear in its starting value, shifted by the length of the string. |
| Adler32.Adler32 | dep/zlib/adler32.c:63-131 | For every buffer, from any starting value, both halves are right up to a multiple of 65521, and the result equals the per-byte modulo definition (section 9 of RFC 1950) if and only if the single-byte path, when it is taken, needs no more than one subtraction; it does from every checksum that is reduced. |
| Adler32.NoOverflow | dep/zlib/adler32.c:13-14 | NMAX bytes can be deferred without exceeding 32 bits, from any two 16-bit halves. |
| Adler32.NmaxIsLargest | dep/zlib/adler32.c:13-14 | The bound on the sums fits 32 bits for NMAX bytes and not for NMAX + 1. |
| Adler32.DeferredSums | dep/zlib/adler32.c:102-112 | Reducing once at the end gives the same pair as reducing after every byte. |
| Adler32.Chop | dep/zlib/adler32.c:27-32 | CHOP replaces 2^16 by 15 and so keeps the remainder mod 65521. |
| Adler32.Mod28 | dep/zlib/adler32.c:33-37 | MOD28 gives the remainder mod 65521 for every value below 2^28. |
| Adler32.Mod | dep/zlib/adler32.c:38-42 | MOD gives the remainder mod 65521 for every 32-bit value. |
| Adler32.Mod63 | dep/zlib/adler32.c:43-55 | MOD63 gives the remainder mod 65521 for every nonnegative 63-bit value. |
| Adler32.Combine | dep/zlib/adler32.c:143-169 | For any two values the result is that of joining them if and only if the subtractions at the end are enough, as they are for reduced checksums; in every case it is the sum computed without reduction, within 32 bits; a negative length gives 0xffffffff. |
| Adler32.CombineIsConcat | dep/zlib/adler32.c:143-169 | For all byte strings, joining the checksums of two parts gives the checksum of their concatenation. |
| Sfmt.LShiftIsShift | dep/SFMT/SFMT-common.h:100-114 | lshift128 shifts the 128-bit value left and drops what leaves it. |
| Sfmt.RShiftIsShift | dep/SFMT/SFMT-common.h:60-74 | rshift128 shifts the 128-bit value right. |
| Sfmt.DoRecursion | dep/SFMT/SFMT-common.h:142-158 | One step, the output in place of any input; every bit of every lane is the exclusive or of the bits the recurrence names: of a, of a shifted left by bytes, of b shifted right under the mask, of c shifted right by bytes, of d shifted left. |
| Sfmt.GenRandAll | dep/SFMT/SFMT.c:245-263 | The state moves on by N terms of the recurrence, in place. |
| Sfmt.GenRandArray | dep/SFMT/SFMT.c:95-128 | For every size from N on the array gets the next terms and the state the last N of them, whatever the overlap between N and 2N. |
| Sfmt.TermRestarts | dep/SFMT/SFMT.c:95-128 | Restarting from any N consecutive terms goes on with the same sequence. |
| Sfmt.Generator.GenrandUint32 | dep/SFMT/SFMT.h:139-149 | The next 32-bit word of the sequence that the seed defines, and one word further. |
| Sfmt.Generator.GenrandUint64 | dep/SFMT/SFMT.h:159-183 | The next two words of the sequence, the first one low. |
| Sfmt.Generator.FillArray32 | dep/SFMT/SFMT.c:293-300 | The words that as many single draws would give, and the place where they would leave the generator. |
| Sfmt.FillEqualsDraws | dep/SFMT/SFMT.c:293-300 | Two generators at the same point, one filled in bulk and one drawn from word by word, give the same words and end at the same point. |
| SfmtPeriod.PeriodCertification | dep/SFMT/SFMT.c:170-200 | If the check vector is not zero the inner product is odd afterwards, and at most one bit has changed. |
| SfmtPeriod.InnerProduct | dep/SFMT/SFMT.c:178-184 | The folded word is the parity of the state masked by the check vector. |

## Findings

What the proofs showed to be false of the code, with an input and the exact condition.

| finding | source | shown by |
|---|---|---|
| A block header may announce up to 32767 selectors, but `selectorMtf` and `selector` have 18002 entries: reading 18003 selectors writes beyond them. It cannot happen if and only if the count is at most 18002, which the compressor's always is. | dep/bzip2/decompress.c:288-314, dep/bzip2/bzlib_private.h:125 | `ArrayBounds.ExcessOverruns`, `ArrayBounds.CountDecides`, `ArrayBounds.RunsStayInside` |
| What is sent of a block depends on which sort is used when sorts order equal rotations differently: the symbols never differ, but `origPtr` is the same for all sorted orders if and only if no other rotation equals rotation 0, that is, if no turn of the block by some of its characters gives the block again. An input that does not meet this: 4995 bytes of 251 followed by 1, 2, 3, 4, 5, all of it twice, a block of 10000 bytes whose rotations 0 and 5000 are equal. Which of the two rows each sort takes is not proved; from either the same block is decoded. | dep/bzip2/blocksort.c:1050-1056, dep/bzip2/compress.c:648 | `Ties.OriginDecided`, `Ties.SameSymbols`, `Ties.TiedIsPeriodic`, `Ties.Doubled`, `Ties.TwoOrders` |
| How a segment of input is cut into blocks does not depend on the calls that take it in, but for one byte: a last byte that begins a new run where the block is already full joins the full block if it comes with the flush or finish, and is left alone in a last block if a run call took it in. An input: at level 1, 99982 alternating bytes, one more than fill a block. | dep/bzip2/bzlib.c:289-329, dep/bzip2/bzlib.c:383-394 | `BlockDivision.LateMatters`, `BlockDivision.LateWitness`, `RoundTrip.SameDivision`, `RoundTrip.CompressAll` |
| `adler32` of one byte does not reduce its second sum when the starting value is not reduced, as from 0xfffffff0; for any other number of bytes, and from any reduced value, it does. | dep/zlib/adler32.c:72-81 | `Adler32.ReducedIsExact`, `Adler32.Adler32` |
| `adler32_combine` of values that are not reduced need not be reduced, as with 0xffff and 0xffff; the first sum even spills into the second half, if and only if the first halves add up to at least 2^17 - 14. | dep/zlib/adler32.c:143-169 | `Adler32.ReducedJoin`, `Adler32.Combine`, `Adler32.SpillsWhen`, `Adler32.Spilled` |

## Left out

- Randomised blocks and `randtable.c`: the parser stops in a state of its own at the bit that announces one; the encoder never writes it.
- The file interface (`BZ2_bzRead`, `BZ2_bzWrite`, `bzopen_or_bzdopen`), the command line tools, allocation and its failures, verbosity and statistics: input, output and plumbing.
- Null pointers: the checks of `strm`, `state`, buffers and lengths for null are not modelled.
- `totc`, `fave` and the messages about each pass (`dep/bzip2/compress.c:402-403`, `436-442`): they are only printed. Tables are values between the passes; the costs, the packed lengths and the counts are arrays.
- TableRefinement.PassGains: covers a pass whose tables are not halved, because a halved table is only best for the halved weights; and not the first, which starts from tables that are no codes.
- The work budget is an unbounded integer; its wrap-around is not modelled, and no claim depends on its value.
- Sharing of `arr1` and `arr2`: `fmap`, `ptr`, `quadrant`, `block` and `eclass` are separate arrays and the sorted pointers have exactly `nblock` entries. Overwriting is modelled where its safety is the claim: symbols over pointers, and the fallback sort's block bytes rebuilt from the sorted rows.
- The counters `total_in`, `total_out` and `currBlockNo`, which nothing else depends on.
- Copies of a loop that the source unrolls for speed (in `sendMTFValues`, `mainGtU`, the radix counting and the CRC) are written as the loop they unroll.
- The fields of headers and trailers (the map of characters, the selectors, the lengths of the codes) are read into values, and undoing the coding of the selectors is a function; `ArrayBounds` says where the source stores them. From the last length of a block on, decompression runs on arrays.
- `tt` is one array of 900000 entries whatever the level, in the small mode taken for `ll16`; every index stays below 100000 times the level. `ll4` and `cftab` are new for every block, and `limit`, `base` and `perm` are kept as sequences once their arrays have been filled.
- What the decompressor does after a selector has been written beyond its array: nothing can be said of it.
- BuffToBuff.Decompress: does not model the check that `small` is 0 or 1, which is a boolean here, because it only guards a C argument.
- Compressor.EState.Room: does not model the 32-bit limit on `avail_out`, because the caller's buffer is whatever size it says.
- HuffmanLengths.MakeCodeLengths: requires maxLen between 12 and 20 and a total weight below 2^23. The only caller passes 17, and at most 900001 symbols. Larger totals would leave the 32-bit packed weights, lengths over 20 the tables of the decoder; below 12 the bound on the depth of a tree no longer forces the end.
- Decompressor.DState.BzDecompress: says nothing about calls that follow a data error, a foreign header, a randomised block or an overrun (after a wrong header byte the source would go on with the next byte), nor which bytes were written when it reports a data error, because the source promises nothing about them.
- Compressor.EState.BzCompress: the room that is enough for a finish is a crude bound, twenty bits for every symbol, because it does not count on what the tables gain.
- Sfmt.Generator.FillArray32: requires, as the source asserts, a generator that stands at the end of its state and a size that is a multiple of four and at least N words.
- SFMT's vector-instruction, big-endian and 64-bit-only variants, its seeding (`init_gen_rand`, `init_by_array`), `fill_array64` and the conversions to floating point. The parameters are any with shifts of 1 to 7 bytes and a position inside the state.
- The table constants of `crctable.c` and `crc32.h`: the tables are defined by how they are generated.
- The rest of zlib (deflate, inflate, files), and everything in the repository outside `dep/bzip2`, `dep/zlib` and `dep/SFMT`: generated or plumbing code, or files that hold no logic.
