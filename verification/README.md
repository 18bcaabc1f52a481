# The DEFLATE codec and the write-back cache, modelled and proved in Dafny

The project models two parts of a SPARC system project and proves properties of the models.

**The DEFLATE codec of `miniz.c`** (RFC 1951, with the zlib wrapper of RFC 1950), in the portable
build the SPARC target uses: byte-wise match finder, 32-bit bit buffers, no unaligned access, no
assertions (proj/sparc-prog/Makefile:6). Compressor and decompressor are two programs written
independently of each other. They meet in a third, a reference decoder of a few recursive functions
over a string of bits (`Inflate`, with the canonical codes of `Canonical`, the tables of `Deflate`
and the block forms of `Blocks`). Everything the compressor does is proved to end in bits that the
reference decoder turns back into the input; everything the decompressor does is proved to agree
with the reference decoder, also over many calls, with its input in pieces and its output in a
buffer that is enlarged or in the 32 KB ring. `EndToEnd.ThereAndBack`, `EndToEnd.ThroughPieces` and
`EndToEnd.ThroughRing` put the two together: every input comes back.

Where the two programs and the reference decoder could agree on something else than the standards
say, the values of the standards stand beside them: the tables, the fixed codes and the order of the
header in `Rfc1951`, the checksum in closed form in `Adler`. `Refusals` and `Verdicts` tell which
streams are refused and which have a bad checksum, `EndToEnd.SyncPoint` and `EndToEnd.Restart` what a
flush lets a receiver do. What the compressor chooses is determined as well: which match is found
(`Windows.Window.FindMatch`), what lazy parsing makes of it (`Parsers.Parser.Round`), when a block is
ended (`Compression.Compressor.Turn`) and in which form it goes (`BlockFlush.PutTail`).

| layer | modules, one file each |
|---|---|
| bit strings, codes, reference decoder | `Bits`, `Canonical`, `CodeSpace`, `Deflate`, `Blocks`, `Rfc1951`, `Inflate`, `RoundTrip`, `Refusals`, `ReservedSymbols`, `Histories` |
| bit input and output | `BitOutput`, `BitInput`, `BitFields` |
| code lengths | `RadixSort`, `HuffmanOptimal`, `HuffmanForest`, `MinimumRedundancy`, `LengthLimit`, `UsedSymbols`, `CodeCosts`, `Shortening`, `CodeLengths`, `HuffmanTables` |
| tokens and window | `TokenBuffers`, `HashChains`, `Windows`, `Parsers` |
| blocks | `CodePacking`, `BlockStart`, `TokenEncoder`, `BlockEmitter`, `BlockFlush`, `BlockSizes`, `Compression` |
| decompressor | `DecodeTables`, `HuffDecode`, `MatchCopy`, `OutputBuffers`, `Inflaters` |
| checksum, whole | `Adler`, `Verdicts`, `EndToEnd` |

**The write-back data cache with its shared bus and RAM**: `DCacheDirectMap.sv`, `dcache_SRAM.sv`,
`Arbiter.sv` and the bus side of `System::tick`. Caches, arbiter and memory are clocked units with
registers, each proved to compute a step function on values (`DataCache` over the `Lanes` of a row,
`SystemBus`, `Arbiters`). One clock of the whole is `Arbiters.Cycle`. `CacheInvariant` states what
every clock keeps, `CacheResponses` and `CacheSteps` prove it state by state, `CacheMemory` shows
that the whole is a flat memory on every run, and `CacheBus` that bursts are atomic and responses
conserved. `CacheRequests` shows that nothing happens without a request, `CacheFetch` that the
instruction cache gets the words of the lines it asks for, and `CacheProgress` when an access is
acknowledged at all. The second cache on the bus is there with its state machine; whether one of its
look-ups hits is an input, so the statements hold for every behaviour of it.

A call of the decompressor that is suspended leaves its state behind and the next one goes on at the
same place. In the model the two are one place of the program, and what the caller does in between
stands there: `BitReader.NextCall` brings input, `OutputBuffer.Renew` makes room.

Where code and comments disagree the code is followed. The comment above the output buffer says that
a block with static codes always fits; that is proved (`BlockEmitter.StaticBound`). The comment in
`tdefl_flush_block` calls a dynamic block that does not fit extremely unlikely, if not impossible,
and an assertion that the build leaves out guards the bits that would be dropped. It is impossible:
minimum redundancy makes the codes no dearer than the static ones (`BlockEmitter.CheapestFits`), and
limiting them to 15 bits costs at most one bit for each literal or length and a tenth of a bit for
each distance (`Shortening.ShorteningCost`), so every dynamic block fits (`BlockSizes.DynamicFits`).
The retry with static codes is in the model all the same. The comment in `Arbiter.sv` draws direct
transitions between the two owners that the live code does not have.

Two things that one would expect do not always hold, and the conditions are exact. The match finder
marks the end of a hash chain with a zero, which is also how position 0 and every 65536th after it are
kept: bytes that repeat from there are not found (`Windows.RepeatFound`, `Windows.RepeatMissed`).
And memory drops a read of a line that is outstanding already: if the data cache asks for a line while
it is being read for the instruction cache, the access hangs for ever (`CacheProgress.NeverAnswered`,
`CacheProgress.BothAsk`); in every other case it is acknowledged (`CacheProgress.DroppedExactly`,
`CacheProgress.AnsweredFromReset`).

## Model

| member | source | states |
|---|---|---|
| Canonical.Disjoint | proj/sparc-prog/miniz.c:1896-1903 | the intervals of code space that canonical codes take never overlap |
| Canonical.CodeFits | proj/sparc-prog/miniz.c:1896-1903 | a code vector that does not over-fill the code space gives every symbol a code that fits its length |
| Canonical.PrefixFree | proj/sparc-prog/miniz.c:1896-1903 | no code the compressor assigns begins another |
| Canonical.MatchUnique | proj/sparc-prog/miniz.c:1413-1426 | at most one symbol's code begins a given bit string, so decoding is a function |
| Canonical.FindSymOf | proj/sparc-prog/miniz.c:1413-1426 | any bit string that begins with the code of s decodes to s |
| Canonical.ReverseCode | proj/sparc-prog/miniz.c:1902 | the reversal loop gives the number whose bits, least significant first, are the code most significant first |
| CodeSpace.FullComplete | proj/sparc-prog/miniz.c:1515-1518 | when the code space is exactly full, every 15 bits begin with some symbol's code |
| CodeSpace.FullDecodes | proj/sparc-prog/miniz.c:1515-1518 | with a full code space the reference decoder finds a symbol at every position |
| ReservedSymbols.OpenOnly | proj/sparc-prog/miniz.c:1428-1698 | the only streams on which the reference decoder has no answer are those that come upon length symbol 286 or 287, distance symbol 30 or 31, or bits to which a code of at most one symbol assigns nothing |
| CodeSpace.NodesBound | proj/sparc-prog/miniz.c:1523-1531 | for every accepted code the inner nodes below the look-up table are at most 288, so that no index leaves the 576 entries |
| Deflate.LengthInverse | proj/sparc-prog/miniz.c:1767-1781 | the decompressor's base and extra-bit tables give back every match length the compressor's symbol tables encode |
| Deflate.DistanceInverse | proj/sparc-prog/miniz.c:1783-1815 | the same for every distance from 1 to 32768, across the small and the large table |
| RoundTrip.TokensRoundTrip | proj/sparc-prog/miniz.c:1553-1612 | the bits of any token list, with any accepted codes, decode to exactly the bytes the tokens expand to, at the right position |
| RoundTrip.ItemsRoundTrip | proj/sparc-prog/miniz.c:1535-1550 | the code-length loop gives back what a list of 16/17/18 run items unpacks to |
| RoundTrip.DynamicRoundTrip | proj/sparc-prog/miniz.c:1504-1550 | the reference decoder reads back the header of a dynamic block and reaches its body with the same two codes |
| RoundTrip.StoredRoundTrip | proj/sparc-prog/miniz.c:1460-1489 | a raw block decodes to its bytes from any bit position |
| RoundTrip.StaticAcceptable | proj/sparc-prog/miniz.c:1498-1500 | the static codes fill the code space exactly |
| RoundTrip.StreamRoundTrip | proj/sparc-prog/miniz.c:1457-1670 | any sequence of raw, static and dynamic blocks, the last one final, decodes to the bytes the blocks stand for |
| Rfc1951.LengthTable | proj/sparc-prog/miniz.c:1430-1431 | length symbols 257 to 285: base lengths and numbers of extra bits as section 3.2.5 of RFC 1951 lists them |
| Rfc1951.DistanceTable | proj/sparc-prog/miniz.c:1432-1433 | distance symbols 0 to 29: base distances and numbers of extra bits, likewise |
| Rfc1951.LengthSymbol | proj/sparc-prog/miniz.c:1767-1781 | the symbol of a length is the one whose interval, from its base on, holds it; 258 has its own |
| Rfc1951.DistanceSymbol | proj/sparc-prog/miniz.c:1783-1815 | the symbol of a distance is the one whose interval holds it |
| Rfc1951.OrderTable | proj/sparc-prog/miniz.c:1934 | the code length lengths go in the order 16, 17, 18, 0, 8, 7, 9, 6, 10, 5, 11, 4, 12, 3, 13, 2, 14, 1, 15 |
| Rfc1951.RepeatTable | proj/sparc-prog/miniz.c:1542 | the repeats 16, 17 and 18 have 2, 3 and 7 extra bits and stand for runs from 3, 3 and 11 on |
| Rfc1951.RepeatMeaning | proj/sparc-prog/miniz.c:1537-1543 | 16 repeats the last length, 17 and 18 zeros, as often as base and extra bits say; anything below is itself |
| Rfc1951.StaticCodes | proj/sparc-prog/miniz.c:1498-1500 | each symbol of the fixed codes has the bits, most significant first, that section 3.2.6 of RFC 1951 prints |
| Rfc1951.NextCode | proj/sparc-prog/miniz.c:1896-1903 | the next symbol with the same length has the next number for its code |
| Rfc1951.ExampleCodes | proj/sparc-prog/miniz.c:1896-1903 | the example of section 3.2.2 of RFC 1951: its eight lengths get the eight codes printed there |
| Rfc1951.HeaderFields | proj/sparc-prog/miniz.c:1983-1990 | where each field of a dynamic header stands, and that the j-th length of the code length code is that of the j-th symbol in the fixed order |
| Refusals.TypeVerdict | proj/sparc-prog/miniz.c:1459-1494 | the three bits of a block: type 3 is refused, the other three lead to the three forms |
| Refusals.StoredVerdict | proj/sparc-prog/miniz.c:1462-1489 | a raw block is refused exactly if its second length is not the complement of the first or its bytes run out; otherwise its bytes are the output |
| Refusals.HeaderVerdict | proj/sparc-prog/miniz.c:1535-1548 | of the items of a header: refused exactly if they run past the number of lengths announced, or one of the two codes does not fill its space; otherwise the body is decoded with those two codes |
| Refusals.NothingToRepeat | proj/sparc-prog/miniz.c:1538-1541 | a header that begins with a repeat is refused |
| Refusals.TokenVerdict | proj/sparc-prog/miniz.c:1553-1619 | one token: refused exactly if its distance reaches back before the output, too much exactly if there is no room for it |
| Refusals.TooFar | proj/sparc-prog/miniz.c:1614-1619 | after any good tokens a distance beyond all output so far is refused |
| Refusals.FirstBad | proj/sparc-prog/miniz.c:1457-1670 | after any good blocks the verdict on the stream is that on the block that comes next |
| BitOutput.BitWriter.PutBits | proj/sparc-prog/miniz.c:1906-1915 | the bits put so far grow by exactly the value's bits; the buffer never holds more than 23 bits between steps; bytes past the end are dropped without disturbing the ones before |
| BitOutput.BitWriter.Restore | proj/sparc-prog/miniz.c:2187-2213 | rolling back pointer, bit buffer and bit count undoes everything put since, whatever was put |
| BitOutput.BitWriter.NothingDropped | proj/sparc-prog/miniz.c:2228 | while the buffer is not full, its bytes and the bit buffer are all the bits that were put |
| BitFields.FieldsThereAndBack | proj/sparc-prog/miniz.c:1386-1388 | values of up to 16 bits put one after another and padded are read back unchanged with the same widths |
| RadixSort.RadixSortSyms | proj/sparc-prog/miniz.c:1819-1833 | the buffer returned, whichever it is, holds a stable sort of the input by 16-bit key, also when the second pass is skipped |
| MinimumRedundancy.MergeStep | proj/sparc-prog/miniz.c:1841-1845 | one step merges the two lightest roots, keeps the forest in order, and its 16-bit sum does not wrap |
| HuffmanForest.DepthBound | proj/sparc-prog/miniz.c:1846 | no internal node is deeper than 29, so the 33 counters hold every length |
| HuffmanForest.DepthWeight | proj/sparc-prog/miniz.c:1841-1846 | the tree weighs at least a node times one Fibonacci number and its larger child times the one before, for the node's depth |
| HuffmanForest.LeafWeight | proj/sparc-prog/miniz.c:1841-1846 | a symbol of depth d has at most one in Fib(d + 1) of all uses |
| MinimumRedundancy.CalculateMinimumRedundancy | proj/sparc-prog/miniz.c:1836-1854 | for sorted positive weights summing to at most 65535 the keys become lengths that satisfy Kraft with equality, never increase with weight, and have the least total weighted length of all lengths that satisfy Kraft's inequality; symbols stay in place |
| HuffmanForest.MergeOk | proj/sparc-prog/miniz.c:1841-1845 | merging the two lightest roots keeps roots and parents in order, each parent outweighing its grandchildren, and the total weight |
| HuffmanOptimal.MergeLightest | proj/sparc-prog/miniz.c:1841-1845 | what the weights must cost at least, with the two lightest merged, they must cost before merging with the merged weight added; for every choice of lengths satisfying Kraft's inequality |
| HuffmanForest.NoneCheaper | proj/sparc-prog/miniz.c:1841-1845 | no lengths satisfying Kraft's inequality cost the weights less than the sum of all merged weights |
| HuffmanForest.TreeCost | proj/sparc-prog/miniz.c:1846-1853 | the leaves at their depths in the tree cost exactly that sum |
| MinimumRedundancy.LevelLeaves | proj/sparc-prog/miniz.c:1848-1853 | the leaves given a length at a level are exactly those at that depth of the tree |
| LengthLimit.FoldExcess | proj/sparc-prog/miniz.c:1861-1862 | folding the long codes at the limit over-fills the code space by no more codes than now have the limit's length |
| LengthLimit.DonorExists | proj/sparc-prog/miniz.c:1863-1867 | as long as the code space is over-filled there is a shorter code to lengthen |
| LengthLimit.SwapKeeps | proj/sparc-prog/miniz.c:1865-1867 | one round keeps the number of codes, drives no count negative and lowers the measure total - 2^max by one |
| LengthLimit.EnforceMaxCodeSize | proj/sparc-prog/miniz.c:1858-1869 | terminates with the same number of codes, none above the limit, filling the code space exactly; nothing changes if none was above it, and otherwise the longest codes were lengthened first |
| LengthLimit.WorkOn | proj/sparc-prog/miniz.c:1863-1868 | each round lengthens the longest code below the limit: shorter lengths keep their counts, and at most one code is half lengthened |
| LengthLimit.WorkBound | proj/sparc-prog/miniz.c:1863-1868 | the rounds are fewer than the codes, so few codes are lengthened, and only from lengths near the limit |
| Shortening.SlackBound | proj/sparc-prog/miniz.c:1858-1869 | the bits by which lengthened symbols outgrow their minimum-redundancy lengths: at most one for each use among 286 symbols, and one for each ten uses among 30 |
| Shortening.ShorteningCost | proj/sparc-prog/miniz.c:1858-1894 | so limiting the lengths to 15 bits costs at most that over the cheapest lengths of all, which is what the encoder's buffer is sized against |
| CodeCosts.LeastIsCheapest | proj/sparc-prog/miniz.c:1880-1894 | lengths handed to the symbols as the minimum-redundancy step gives them to the sorted frequencies code the symbols in the fewest bits of all lengths that serve |
| CodeLengths.ChooseLengths | proj/sparc-prog/miniz.c:1877-1894 | exactly the used symbols get lengths, within the limit, the code space is full, a more frequent symbol never has the longer code, no lengths are cheaper unless a code had to be shortened, and shortening to 15 bits costs at most one bit a use, among 30 symbols a tenth of that |
| HuffmanTables.HuffTable.OptimizeDynamic | proj/sparc-prog/miniz.c:1871-1904 | after the dynamic branch every symbol with a length has its canonical code, reversed as it is sent |
| HuffmanTables.HuffTable.OptimizeStatic | proj/sparc-prog/miniz.c:1873-1904 | the same for given lengths |
| CodePacking.Packer.Add | proj/sparc-prog/miniz.c:1954-1976 | one more code length: items sent and runs pending still stand for exactly the lengths seen |
| CodePacking.Packer.Finish | proj/sparc-prog/miniz.c:1977 | the packed items unpack to the whole vector of lengths, and they are its runs one by one: each with as many longest repeats as fit and one for the rest, or up to two plain lengths |
| BlockStart.TrimBody | proj/sparc-prog/miniz.c:1946-1951 | leaving trailing unused symbols out of the header does not change a bit of the block's body |
| BlockStart.PutClLengths | proj/sparc-prog/miniz.c:1988 | field j of the header is the length of symbol 16, 17, 18, 0, 8, 7, 9, 6, 10, 5, 11, 4, 12, 3, 13, 2, 14, 1 or 15, for j from 0 to 18 |
| BlockStart.Tables.StartStatic | proj/sparc-prog/miniz.c:1998-2014 | block type 1 is put and both tables hold the static codes |
| BlockStart.Tables.StartDynamic | proj/sparc-prog/miniz.c:1936-1996 | the bits put are those of a valid header whose trimmed lengths are the ones chosen for the histograms with end-of-block counted once, and which spares what it can: no unused symbol ends its three codes, the lengths are packed run by run, and the code length code is the best for that |
| TokenBuffers.LayoutReadable | proj/sparc-prog/miniz.c:2177-2178 | shifting the last flag byte down makes the buffer readable whether its group is partly filled or has just been allocated |
| TokenBuffers.TokenBuffer.RecordLiteral | proj/sparc-prog/miniz.c:2467-2473 | the recorded sequence grows by the literal; pointers, flags, byte count and histograms follow, and no 16-bit count wraps |
| TokenBuffers.TokenBuffer.RecordMatch | proj/sparc-prog/miniz.c:2475-2495 | the same for a match |
| TokenBuffers.TokenBuffer.Finish | proj/sparc-prog/miniz.c:2177-2178 | the buffer as the encoder will read it holds exactly the recorded tokens and ends where it should |
| TokenEncoder.CompressLzCodes | proj/sparc-prog/miniz.c:2108-2151 | reading the flag-byte buffer back puts exactly the bits of the recorded tokens and of end-of-block; the result says whether the buffer is not full |
| BlockEmitter.LitSum | proj/sparc-prog/miniz.c:2472-2494 | the literal/length histogram sums to the number of tokens |
| BlockEmitter.DistSum | proj/sparc-prog/miniz.c:2491-2492 | the distance histogram sums to the number of matches |
| BlockEmitter.HistogramsFit | proj/sparc-prog/miniz.c:2467-2495 | both sums are below 65536 for any token buffer that fits |
| BlockEmitter.StaticBound | proj/sparc-prog/miniz.c:843-847 | the static encoding of any token buffer of at most 65536 bytes is at most 650200 bits, under the output buffer's size less 16 |
| BlockEmitter.TokensCost | proj/sparc-prog/miniz.c:2108-2145 | the bits of the tokens are those of their symbols, as often as the histograms say, and the extra bits, which no code changes |
| BlockEmitter.CheapestFits | proj/sparc-prog/miniz.c:2187-2213 | with cheapest codes the body of a dynamic block is no longer than the static one may be, so it fits the output buffer |
| BlockEmitter.ThriftyFits | proj/sparc-prog/miniz.c:2187-2213 | also with codes that had to be shortened the body of any dynamic block is at most 673200 bits |
| BlockSizes.DynamicFits | proj/sparc-prog/miniz.c:2187-2228 | every dynamic block, with whatever went before it and comes after it, is shorter than the output buffer, so the assertion of 2228 cannot fail and no byte is dropped without it |
| Windows.GenuineCopy | proj/sparc-prog/miniz.c:1614-1629 | copying a genuine match byte by byte gives the next bytes of the source, overlap included |
| Windows.Window.ReadAt | proj/sparc-prog/miniz.c:2513-2531 | every index the match finder uses, mirrored or not, reads the right source byte |
| Windows.Window.Probe | proj/sparc-prog/miniz.c:2299-2318 | a 16-bit truncated chain position within the dictionary size is the ring place of the position that far back, also where 32-bit positions have come round; on the chain it is the next position with the same hash, and a hit exactly if the two bytes are there |
| Windows.Window.FindMatch | proj/sparc-prog/miniz.c:2299-2325 | a reported match is genuine and longer than before; at none of the positions that the chain leads to, as far as the probes go, do more bytes agree, nor as many at a nearer one; as long as nothing looks likely a probe is good for three positions; an empty chain finds nothing |
| Windows.RepeatFound | proj/sparc-prog/miniz.c:2299-2325 | three bytes that were in the dictionary before, at the latest position of their hash, are found with two probes if and only if that position is not a multiple of 65536 |
| Windows.RepeatMissed | proj/sparc-prog/miniz.c:2313 | four equal bytes at the start: the second starts the same three as the first, within reach, and its chain is empty, since position 0 is kept as the mark of an end |
| HashChains.RolledHash | proj/sparc-prog/miniz.c:2517 | the hash that is shifted on byte by byte is that of the last three bytes |
| HashChains.HeadsGrow | proj/sparc-prog/miniz.c:2518 | putting a position at the head of its chain leaves every head the latest position with its hash |
| HashChains.LinksGrow | proj/sparc-prog/miniz.c:2518 | and every link the one before it with the same hash, for the last 32768 positions |
| Windows.Window.Insert | proj/sparc-prog/miniz.c:2518 | the two array writes keep both |
| Windows.Window.Fill | proj/sparc-prog/miniz.c:2506-2540 | the ring and its mirror hold the source from the oldest dictionary byte on, and the hash chains lead through it, whether the hash is rolled or computed; the lookahead is filled to 258 bytes or the input is used up; dictionary and lookahead together stay within 32768; positions are kept on 32 bits and may come round |
| Parsers.Parser.Search | proj/sparc-prog/miniz.c:2545-2562 | what is looked for: the whole run of the last byte, nothing, or the match of the match finder; it is dropped exactly if it has three bytes from 8192 or more away, a distance equal to the place in the ring, or at most five bytes when filtering |
| Parsers.Parser.Decide | proj/sparc-prog/miniz.c:2563-2594 | the tokens recorded, the match put off and the step forward are those of lazy parsing, case by case, and tokens and pending literal stand for exactly the source consumed |
| Parsers.Parser.Round | proj/sparc-prog/miniz.c:2544-2599 | one round does to what was found at the lookahead just that, moves forward and keeps the parse lossless; the tokens since a full flush need nothing from before it |
| Parsers.Parser.NothingPending | proj/sparc-prog/miniz.c:2502-2613 | once the lookahead is empty every consumed byte has a token |
| Parsers.Parser.Reach | proj/sparc-prog/miniz.c:2167-2194 | the 32-bit difference of the lookahead's position and the block's start is how far the block really reaches back |
| BlockFlush.PutRaw | proj/sparc-prog/miniz.c:2193-2207 | a raw block is put, its bytes read back from the ring |
| BlockFlush.PutTail | proj/sparc-prog/miniz.c:2187-2213 | after any roll-back the bits are those of one valid block for the same tokens or bytes; it is raw exactly if its bytes are still in the ring and raw blocks are wanted or the coded block would take no fewer whole bytes, otherwise static if asked for or under 48 bytes, otherwise dynamic with the best codes |
| BlockFlush.PutTrailer | proj/sparc-prog/miniz.c:2215-2226 | padding and checksum of a finished stream, or an empty raw block |
| Compression.StreamSnoc | proj/sparc-prog/miniz.c:2162-2261 | bits handed over block by block through a re-used buffer join up to one stream |
| Compression.Compressor.FlushBlock | proj/sparc-prog/miniz.c:2162-2261 | always succeeds: what has been sent, with the bits held back, is a stream of whole blocks, the new one in the form that takes the fewest bytes, that stands for the source up to the tokens still held; after a sync or full flush nothing is held back; finished, it is a whole stream for all of it |
| Compression.Compressor.Turn | proj/sparc-prog/miniz.c:2544-2608 | one turn of the loop: the block is flushed exactly if fewer than eight bytes of the token buffer are left, or it stands for more than 31 KB and the tokens take too much room for them or raw blocks are wanted |
| Compression.Compressor.CompressNormal | proj/sparc-prog/miniz.c:2497-2613 | all the input is taken in, flushes on the way included, and with a flush all of it is coded |
| Compression.Compressor.Compress | proj/sparc-prog/miniz.c:2636-2690 | the statuses, exactly; for any sequence of calls and flushes the stream and checksum of all input so far; after a sync or full flush whole bytes have been sent that stand for all of it and end in an empty raw block; after a full flush the blocks that follow need nothing from before |
| Compression.Init | proj/sparc-prog/miniz.c:2697-2714 | a compressor that has sent nothing and taken in nothing |
| Adler.AdlerConcat | proj/sparc-prog/miniz.c:977-990 | the checksum of a concatenation can be continued from that of its first part |
| Adler.NoOverflow | proj/sparc-prog/miniz.c:981-987 | within a block of 5552 bytes neither deferred sum leaves 32 bits, even after an unreduced start |
| Adler.AdlerClosed | proj/sparc-prog/miniz.c:977-990 | the checksum in closed form: the sum of the bytes and their sum weighted by place, modulo 65521 |
| Adler.AdlerOfAll | proj/sparc-prog/miniz.c:977-990 | from the start value: one and the bytes, and the length and the weighted bytes |
| Adler.Update | proj/sparc-prog/miniz.c:977-990 | deferred reduction over blocks, eight bytes a round, gives the checksum of section 2.2 of RFC 1950, byte by byte and in closed form modulo 65521 |
| BitInput.BitReader.GetBits | proj/sparc-prog/miniz.c:1370-1388 | the value is that of the next n bits of the stream, and the position moves on by n, however many calls the bytes take to come |
| BitInput.BitReader.NextCall | proj/sparc-prog/miniz.c:1370-1384 | a call that ends for want of input has used all of it, and the next one goes on with what it brings |
| BitInput.PiecesFlat | proj/sparc-prog/miniz.c:1370-1384 | input cut into pieces of any sizes, empty ones too, is the same input |
| BitInput.BitReader.GetAligned | proj/sparc-prog/miniz.c:1463 | bytes on a byte boundary come from the bit buffer while it lasts and then from the input |
| DecodeTables.DecodeTable.Build | proj/sparc-prog/miniz.c:1508-1532 | lengths are refused exactly when they are not acceptable; otherwise look-up table and packed negative-index tree describe the code |
| HuffDecode.Determined | proj/sparc-prog/miniz.c:1394-1407 | the refill stops exactly when the bits held determine the symbol |
| HuffDecode.FillBits | proj/sparc-prog/miniz.c:1394-1407 | bytes are fetched one at a time only while the bits held do not determine a symbol |
| HuffDecode.LookUp | proj/sparc-prog/miniz.c:1422-1426 | look-up and tree walk give the symbol and its code length |
| HuffDecode.DecodeNext | proj/sparc-prog/miniz.c:1413-1426 | slow refill and two-byte prefetch alike return the reference decoder's symbol and move on by its code length |
| MatchCopy.CopyFast | proj/sparc-prog/miniz.c:1654-1667 | the three-byte loop with its tail is the sequential overlapping copy, also with the source ahead of the destination in the ring |
| OutputBuffers.OutputBuffer.Renew | proj/sparc-prog/miniz.c:1705-1758 | a full buffer ends the call: its bytes are handed over and summed, and the next call has room at the end of a larger buffer or at the front of the ring; without a next call all the room there is has been used |
| OutputBuffers.OutputBuffer.Return | proj/sparc-prog/miniz.c:1678-1697 | what has been handed over is all that was put, and the checksum carried from call to call is that of all of it |
| OutputBuffers.OutputBuffer.CopySlow | proj/sparc-prog/miniz.c:1620-1630 | the byte loop, with the source going around the ring, puts the whole match over as many calls as it takes, or as much of it as there will ever be room for |
| OutputBuffers.OutputBuffer.CopyMatch | proj/sparc-prog/miniz.c:1614-1667 | on either path the output grows by the match, each byte the one at its distance before it |
| Inflaters.Inflater.FastSymbols | proj/sparc-prog/miniz.c:1565-1603 | two symbols a round put the same bytes and stop at the same symbol as the reference |
| Inflaters.Inflater.TokenLoop | proj/sparc-prog/miniz.c:1552-1668 | all tokens of a block: the reference's output, position and status |
| Inflaters.Inflater.StoredBlock | proj/sparc-prog/miniz.c:1460-1489 | a raw block, from the bit buffer and then by block copies: the reference's output and status |
| Inflaters.Inflater.ReadClSizes | proj/sparc-prog/miniz.c:1505 | the three-bit fields of the header, in their order, become the lengths of symbols 16, 17, 18, 0, 8 and so on, the rest zero |
| Inflaters.Inflater.DynamicTables | proj/sparc-prog/miniz.c:1504-1550 | sizes, code lengths and the three tables of a dynamic block, or its refusal, as the reference has them |
| Inflaters.Inflater.Blocks | proj/sparc-prog/miniz.c:1457-1670 | the whole block loop ends with the reference's status, position and output, with its input in pieces and its output in an enlarged buffer or a ring |
| Inflaters.Inflater.Run | proj/sparc-prog/miniz.c:1428-1698 | from the first call to the last, for every input, zlib or raw, in any pieces, and any output buffer, on which the reference is defined: its status and its output; bytes past the end of the input are asked for only if the stream goes on there; of a zlib stream exactly its own bytes are taken, of a raw one up to three more |
| Inflaters.MemToMem | proj/sparc-prog/miniz.c:1729-1734 | one call into a buffer of any capacity: the reference's status and output |
| Inflaters.MemToHeap | proj/sparc-prog/miniz.c:1701-1727 | the whole output, if the reference finds the stream good and it fits the memory there is, and otherwise nothing |
| Inflaters.MemToCallback | proj/sparc-prog/miniz.c:1736-1766 | through a ring with whatever it held before: succeeds exactly if the stream is good after those bytes and the callback accepts enough pieces, which together are the output |
| Histories.HistoryForgotten | proj/sparc-prog/miniz.c:1736-1766 | a stream that is good by itself gives the same bytes whatever the ring held at first |
| EndToEnd.WholeStreamDecodes | proj/sparc-prog/miniz.c:1428-1698 | a finished stream, whatever number stands in the place of the checksum: a mismatch exactly if that is not the sum of the bytes its blocks stand for, and otherwise those bytes |
| Verdicts.HeaderIs | proj/sparc-prog/miniz.c:1449-1455 | which two header bytes are accepted, by their bits: a multiple of 31, no dictionary, method 8, and for a ring a window of at most 32768 |
| Verdicts.ZlibVerdict | proj/sparc-prog/miniz.c:1449-1695 | blocks between any two header bytes and any four bytes in the place of the checksum, whatever follows: refused, mismatch, or good and used up to its end, exactly by those |
| Verdicts.RawVerdict | proj/sparc-prog/miniz.c:1457-1672 | the same without header and checksum |
| EndToEnd.Judge | proj/sparc-prog/miniz.c:1428-1698 | the status of the decompressor, over any number of calls, on all such streams: failed exactly if the header is bad, an Adler mismatch exactly if the sum is, otherwise done with the bytes, and exactly the stream taken from the input |
| EndToEnd.SyncPoint | proj/sparc-prog/miniz.c:2681-2687 | after a sync or full flush the reference decoder, whatever bytes follow, stands at the end of the bytes sent with all of the source as its output |
| EndToEnd.Restart | proj/sparc-prog/miniz.c:2681-2687 | from the last full flush on a finished stream decodes, without anything from before, to the source since then |
| EndToEnd.ZlibEnds | proj/sparc-prog/miniz.c:2180-2220 | a zlib stream of the compressor begins with the bytes 78 and 01 and ends with its checksum, the most significant byte first |
| EndToEnd.CompressorRoundTrip | proj/sparc-prog/miniz.c:2636-2690 | whenever a compressor is done, however its input was split and flushed, what it sent decodes to all of its input |
| EndToEnd.CompressAll | proj/sparc-prog/miniz.c:2726-2733 | one call: the output decodes to the input, for every input, flags and format, without exception |
| EndToEnd.ThereAndBack | proj/sparc-prog/miniz.c:2726-2733 | compressor followed by decompressor, both as written, give back every input |
| EndToEnd.ThroughPieces | proj/sparc-prog/miniz.c:1370-1727 | so they do when the compressed bytes arrive in pieces of any sizes and the output buffer is enlarged as it fills |
| EndToEnd.ThroughRing | proj/sparc-prog/miniz.c:1736-1766 | and when the output goes through the 32 KB ring to a callback that accepts it |
| DataCache.StoreMeaning | proj/DCacheDirectMap.sv:121-163 | a store changes exactly the bytes it addresses, most significant first, for bytes, halfwords, words and doublewords |
| DataCache.LoadMeaning | proj/DCacheDirectMap.sv:98-119 | a load gives the bytes it addresses, most significant first, with the complement of the offset on the offset's own bits |
| DataCache.WideLoads | proj/DCacheDirectMap.sv:105-116 | with the complement on 64 bits, as wide as the variable it is assigned to, a load gives the same exactly if it is of a doubleword or of zeros |
| DataCache.WideShiftLow | proj/DCacheDirectMap.sv:105-116 | the two shift counts differ only above their low six bits |
| DataCache.DataCacheUnit.Combinational | proj/DCacheDirectMap.sv:77-260 | agrees with the step function, statement for statement; what the step function means is stated by the rows about it |
| DataCache.DataCacheUnit.ClockSrams | proj/dcache_SRAM.sv:34-44 | each SRAM reads the row as it was before the edge and writes its enabled lanes |
| DataCache.DataCacheUnit.Clock | proj/DCacheDirectMap.sv:262-288 | one clock edge of registers and SRAMs is the step function |
| SystemBus.MemorySystem.DramReadComplete | proj/system.cpp:198-208 | the eight doublewords of the line join the queue, each from its own address, starting from the word asked for and going round, with the tag of the request, for either cache; the request is no longer outstanding |
| SystemBus.MemorySystem.Tick1 | proj/system.cpp:99-196 | one positive tick: completions, queue, response pins, then the request pins |
| Arbiters.TopLevel.ClockAll | proj/Arbiter.sv:53-161 | caches, arbiter and memory together make one step of the machine |
| CacheInvariant.WriteLine | proj/system.cpp:128-133 | a data beat changes one word of one line of RAM and nothing else |
| CacheInvariant.AckIsOwn | proj/Arbiter.sv:53-154 | when the acknowledge pin answers the bus, each cache sees it exactly when its own request drives the bus |
| CacheResponses.CompletesKeep | proj/system.cpp:198-208 | however many reads complete, responses stay in order behind those queued |
| CacheResponses.PopKeeps | proj/system.cpp:111 | taking the front beat moves the data cache on by one word of its line, or leaves its words alone |
| CacheSteps.RespackOwner | proj/DCacheDirectMap.sv:234-251 | a response is acknowledged only by the cache whose tag it carries, and only in STATEE |
| CacheSteps.StepBeat | proj/DCacheDirectMap.sv:191-200 | a beat of the write-back puts the next word of the old line into RAM and keeps the invariant |
| CacheSteps.StepBurstEnd | proj/DCacheDirectMap.sv:202-204 | after the ninth beat the old line is in RAM |
| CacheSteps.StepRequest | proj/DCacheDirectMap.sv:221-233 | the tag is overwritten before the data come, and the invariant still holds |
| CacheSteps.StepTaken | proj/DCacheDirectMap.sv:234-251 | a beat of the refill puts the next word of the line in place |
| CacheSteps.StepNoBeat | proj/DCacheDirectMap.sv:252-258 | the cache goes back to the look-up only with all eight words in place and readable |
| CacheMemory.ClockAgrees | proj/DCacheDirectMap.sv:87-260 | every clock keeps the invariant; the view of memory changes only by an acknowledged store, in the lanes it enables; an acknowledged load returns the view |
| CacheMemory.StoreStep | proj/DCacheDirectMap.sv:121-163 | byte by byte: a clock changes the bytes of an acknowledged store and no others |
| CacheMemory.LoadStep | proj/DCacheDirectMap.sv:98-119 | byte by byte: an acknowledged load returns what is seen at its address |
| CacheMemory.RunKeeps | proj/DCacheDirectMap.sv:87-260 | the invariant holds wherever a run leads |
| CacheMemory.FlatMemory | proj/DCacheDirectMap.sv:87-260 | in every run each acknowledged load returns the bytes of the latest acknowledged stores before it over what was found at the start |
| CacheMemory.InitialInv | proj/dcache_SRAM.sv:24-29 | the invariant holds after reset, with every row dirty and its tag 15 |
| CacheMemory.FoundAfterReset | proj/dcache_SRAM.sv:24-29 | what a program finds after reset: RAM, but for the kilobyte that the sixteen dirty rows stand before |
| CacheMemory.FlatMemoryFromReset | proj/DCacheDirectMap.sv:87-260 | the flat-memory property for every run from reset |
| CacheMemory.FirstAccess | proj/DCacheDirectMap.sv:87-96 | runs with accesses exist: from reset, a request for a line the rows pretend to hold is acknowledged at its second clock |
| CacheMemory.CleanSettled | proj/DCacheDirectMap.sv:221-233 | wherever a run leads, a clean row that is not being refilled equals RAM |
| CacheBus.BurstArrives | proj/DCacheDirectMap.sv:180-214 | from the address beat on nothing else drives the bus until the last word; then the old line is in RAM and every other line as it was |
| CacheBus.OwnAcknowledge | proj/Arbiter.sv:53-154 | in every run a cache samples an acknowledge only for a request of its own that drives the bus, and never both caches |
| CacheBus.BeatStep | proj/system.cpp:111-122 | a taken beat leaves the front, new ones join the back, each is taken by the cache whose tag it carries, and the data cache takes the words of its line in order |
| CacheBus.BeatsConserved | proj/system.cpp:111-122 | over every run, beats taken and then those still queued are those queued at first and then those that arrived: none lost, repeated or out of turn |
| CacheFetch.FetchClock | proj/ICacheDirectMap.sv:102-142 | one clock: a beat that the instruction cache takes is the word its counter says of the line it asked for, as RAM stood when the read completed |
| CacheFetch.FetchedWords | proj/ICacheDirectMap.sv:102-142 | so it is in every run from reset |
| CacheRequests.RequestedFromReset | proj/DCacheDirectMap.sv:87-96 | in every run from reset an access is acknowledged only if it was requested |
| CacheRequests.LookUp | proj/DCacheDirectMap.sv:97-178 | the look-up acknowledges exactly if the row holds the line; otherwise a dirty row is written back and a clean one refilled |
| CacheRequests.HitInTwo | proj/DCacheDirectMap.sv:87-164 | a hit is acknowledged at the second clock and leaves the bus alone |
| CacheRequests.BusForRequest | proj/DCacheDirectMap.sv:180-233 | in every run the data cache drives the bus only for a request that is held: to write back a dirty row that another line must leave, or to read the line requested |
| CacheRequests.NothingFetched | proj/ICacheDirectMap.sv:82-116 | without a request of the fetch stage an idle instruction cache stays off the bus |
| CacheProgress.DroppedExactly | proj/system.cpp:168-178 | a read of the data cache is dropped by memory exactly if it gets the bus while a read of the same line is outstanding |
| CacheProgress.NeverAnswered | proj/DCacheDirectMap.sv:234-258 | and then no run, however long, acknowledges anything any more |
| CacheProgress.BothAsk | proj/system.cpp:168-178 | from reset: whenever both caches first ask for the same line, other than one the rows pretend to hold, and no read completes meanwhile, that happens |
| CacheProgress.Nearer | proj/DCacheDirectMap.sv:97-258 | otherwise every clock brings an access nearer to its acknowledge, except those in which its read is outstanding and does not complete |
| CacheProgress.AnsweredFromReset | proj/DCacheDirectMap.sv:97-258 | wherever a run from reset has led, an access under way is acknowledged within 37 clocks, not counting those, or has been dropped |

## Left out

- Inflaters.Inflater.Run: says nothing of streams on which the reference decoder has no answer, which `ReservedSymbols.OpenOnly` describes; there the source copies from a distance of zero or looks a symbol up in an empty entry. A call that ends for want of input returns what it has put and sums it; here that is done when the output next turns or decoding ends, which gives the same bytes and, by `Adler.AdlerConcat`, the same sum. The comment at miniz.c:1409-1412 has no byte read beyond the end of a stream: that none is asked for is proved, but of bytes that are there already the prefetch can take up to three that follow a raw stream
- Compression.Compressor.Compress: the callback of `tdefl_init` always accepts; output into caller-supplied buffers (`m_pOut_buf`), with what it leaves for the next call, is not modelled
- OutputBuffers.OutputBuffer.Renew: the ring has the 32768 bytes of `tinfl_decompress_mem_to_callback` and of `mz_inflate`, and other powers of two are not modelled; `realloc` enlarges the buffer where it stands
- Compression.Compressor.FlushBlock: the block counter is an unbounded number; `m_block_index` comes back to zero after 2^32 blocks, and a zlib stream that long would get a second header (miniz.c:2180)
- Parsers.Parser.Decide: the flags of `tdefl_init` are parameters, already taken apart, with the two numbers of probes it computes from them; null pointers are not modelled. `TDEFL_NONDETERMINISTIC_PARSING_FLAG`, which leaves the heads of the hash chains as they were, is not modelled
- Windows.Window.FindMatch: of a position behind the end of its chain, which a 16-bit entry can lead to when what it stood for has left the dictionary, nothing is said but that a match found there is genuine
- CacheBus.BurstArrives: the DRAM always accepts a transaction, which the assertions of system.cpp:94 and 172-174 demand; that a burst ends is part of `CacheProgress.AnsweredFromReset`
- CacheProgress.AnsweredFromReset: is about the data cache; a fetch for a line that the data cache is reading is dropped in the same way, and how long a fetch takes is not counted
- CacheMemory.FlatMemory: runs have no system calls, memory-mapped I/O, interrupts or keyboard, which write RAM or the queue behind the cache; requests are held until acknowledged and lie within RAM
- DataCache.LoadMeaning: the lane of a load is the complement of the offset within its own three, two or one bits. By the width rules of SystemVerilog the complement has the 64 bits of the variable it is assigned to, and the shift then leaves zeros (`DataCache.WideLoads`); a simulator whose shifts take the count modulo 64 gives what the model has (`DataCache.WideShiftLow`)
- Fast compression, unaligned and 64-bit variants of miniz.c: not compiled for the target
- ZIP archives, PNG, stdio wrappers, the zlib-style interface, `mz_deflateBound`: plumbing around the codec, or stated by the source as a guess only
- The instruction cache's own arrays, the pipeline, ELF loading and the kernel sources: outside the two parts
