# Verified models of a DEFLATE codec and its companions

This project models, in Dafny 4.11, the data-handling cores of an embedded SDK's third-party and driver code,
and proves what those cores are for:

- **miniz**: both halves of the DEFLATE codec. The compressor goes from the dictionary with its hash chains and
  mirrored tail, over the lazy parser, the LZ code buffer, in-place Moffat-Katajainen code lengths, length
  limiting, canonical codes, run coding of code lengths and bit packing, to flushing and the zlib wrapper. The
  decompressor is the resumable coroutine of `tinfl_decompress` with its bit reader, lookup tables and trees,
  window copies and put-back, and `mz_inflate` around it. Both are imperative models over arrays and classes.
  `Reference` is an independent meaning of the format, a machine that takes one item of the bit stream at a
  time (RFC 1950, RFC 1951); compressor and decompressor are each proved against it, and so against each other.
- **miniz ZIP index**: the heap-sorted name index and its binary search against the linear scan.
- **cJSON**: the child list, recursive duplication, printing into a growing or fixed buffer, and parsing. What a text
  means is told apart from both, as the grammar of RFC 8259 (`JsonGrammar`, `JsonStrings`), and what the parser accepts
  besides as a looser one (`JsonAccepted`).
- **cJSON_Utils**: the in-place merge sort of a child list, and JSON Pointer construction and lookup.
- **luat_transz**: random-access reads through a one-block cache, on top of the same decompressor model.
- **SPI driver**: the divisor search of `SPI_SetBusSpeed`.

## How it is built

Objects that the code updates in place are classes with the same fields (`Tdefl`, `Tinfl`, `Writer`,
`BitSource`, `Dict`, `CodeBuffer`, `Stream`, `Item`, `Printer`, `ParseBuffer`, `Reader`, `SpiResources`); loops
are loops; tables and windows are arrays. Each method is proved against a sequence, a bit string, a tree or a
grammar function, and the theorems are lemmas about those. Suspension points of the coroutine are the values of
`Inflator.Point`.

Reading order for the codec: `Bits`, `Canonical`, `Reference`, then `Merge` to `HuffmanCodes` and `DecodeTable`
(codes and tables; `LightCodes` and `LimitedCost` on what limiting costs), `LzBuffer` to `BlockCompressor` and
`OutputBound` (blocks), `Window`, `HashChains`, `MatchFinder`, `Dictionary`, `FlushMeaning` and `Compressor`
(compressor), `BitReader` to `Inflator` (decompressor), and `StreamTheorems`, `WholeInflate`, `MzInflate`,
`Fragments` (whole streams). `FormatRules` checks the numbers of the format, which both halves share, against the
rules of the RFCs. For JSON: `JsonText`, `JsonStrings`, `JsonGrammar`, `JsonAccepted`,
then `JsonPrinter` and `JsonParser`.

Preconditions worth knowing: a decompressor object is given, as a ghost, the whole stream of which it will receive
pieces, and the stream is one that the machine accepts or rejects (`DecodeRuns.Decided`); every finished stream of
the compressor is one (`StreamTheorems.CompressedDecided`).

The output buffer of the compressor never overflows. The code retries a block with fixed codes if a dynamic one does
not fit, calls that case "extremely unlikely (if not impossible)" (`thirdparty/miniz/miniz.c:1330`), and asserts at the
end that there was room. It is impossible: a dynamic code whose lengths had to be limited is nearly as short as the
best one (`LightCodes`, `LimitedCost`), so a block is hardly longer than in fixed codes (`BlockCost`), which fits
(`OutputBound.BlockSize`, `Compressor.Tdefl.EmitBlock`).

## Where the code and its documents differ

- RFC 6901 allows only digits in an array index. `decode_array_index_from_pointer` tests the first character where
  it means the current one (`thirdparty/cJSON/cJSON_Utils.c:284`), and takes an empty token as 0. The exact set of
  accepted tokens is `JsonPointer.IndexTokens`; pointers built by the library are not affected.
- `suffix_object` does not set the added item's own `next` (`thirdparty/cJSON/cJSON.c:1928-1932`), so appending keeps
  the list invariant exactly when that was null already or the list was empty (`ChildList.AddItemToArray`).
- The parser refuses nesting deeper than CJSON_NESTING_LIMIT while the printer does not, so print-then-parse is the
  identity exactly up to that depth (`JsonRoundTrip.PrintThenParse`).
- `cJSON.h` advises five spare bytes for `cJSON_PrintPreallocated`; one besides the terminator is exact
  (`JsonPrinter.PrintPreallocated`).
- `SPI_SetBusSpeed` says that it rounds to the nearest even divisor and rounds up (`interface/src/bsp_spi.c:384-386`). It
  divides integers first, so the bus can be faster than asked for; `SpiDivisor.RateReached` says exactly when, and
  `SpiDivisor.RateExceeded` is an example: 25.6 MHz for 20 MHz.
- The parser accepts more than RFC 8259, but nothing beyond `JsonAccepted.LooseAt`.
- A number of more than 63 characters is cut by the parser (`thirdparty/cJSON/cJSON.c:309`), so the numbers of
  `JsonGrammar.NumberAt` have at most that many. Characters that are not hexadecimal digits behind `\u` make the code
  unit 0, and a string ends for C at its first zero character; `JsonStrings.Reads` and `JsonGrammar.StringAt` say so.
- A position that is a multiple of 65536 looks like the end of a hash chain (`thirdparty/miniz/miniz.c:1780`), so the
  longest match can be missed there: the last clause of `HashChains.InReach`.
- `luat_transz_read` clips with a 32-bit sum that can wrap; `Transz.ClippedRight` gives the exact condition, which is a
  precondition of `Transz.Reader.Read`.

## Model

| member | source | states |
|---|---|---|
| BlockCompressor.BlockRoundTrip | thirdparty/miniz/miniz.c:2540-2841 | From any output state, the bits of a block, static or dynamic, bring the decompressor to exactly the expansion of the block's tokens, at the position right behind the end-of-block code (RFC 1951, sections 3.2.5 to 3.2.7) |
| BlockCompressor.CompressBlock | thirdparty/miniz/miniz.c:1246-1253 | The bits written are those of a well-formed block of exactly the tokens in the code buffer, appended to the earlier ones, fixed exactly if asked for and else with a compact header; success is reported exactly when the output pointer stayed below its end; besides a header of at most 4551 bits a block is at most one bit a token longer than in fixed codes, and no longer at all for fewer than 1596 tokens |
| Compressor.Tdefl.Lossless | thirdparty/miniz/miniz.c:1919-1985 | After any sequence of calls, pieces and flushes that finished, with any block types, decoding what the callback received can only end with exactly the input, its Adler-32, and nothing left over |
| StreamTheorems.CompressThenDecompress | thirdparty/miniz/miniz.c:2438-2917 | A resumable decompressor fed the compressor's output in pieces of any size, with room of any size, ends with the compressor's input, all bytes consumed, and a matching check value |
| StreamTheorems.CompressedInflates | thirdparty/miniz/miniz.c:1919-1985 | What a finished run of the compressor wrote inflates, with the right check value, to its input |
| StreamTheorems.CompressedDecided | thirdparty/miniz/miniz.c:1919-1985 | Every finished stream is accepted by the decompressor: it never runs out of bits, meets a bit string without code or a distance beyond the output |
| StreamTheorems.FlushedOut | thirdparty/miniz/miniz.c:1338-1367 | After a sync or full flush, a decompressor that has received what the callback got and waits has put out everything compressed so far and stands in front of a block, all bits taken |
| StreamTheorems.FlushedReached | thirdparty/miniz/miniz.c:1338-1367 | Having received more than that, it has put out at least as much |
| StreamTheorems.RestartFlushed | thirdparty/miniz/miniz.c:1971-1982 | From a full flush on, what the callback gets up to any later flush stands on its own, without wrapper or earlier output, for what was compressed from there on |
| StreamTheorems.RestartInflates | thirdparty/miniz/miniz.c:1971-1982 | And up to the end of the stream: no later match reaches behind the full flush |
| StreamTheorems.StreamingIsOneShot | thirdparty/miniz/miniz.c:2438-2917 | Two decompressors given the same stream, cut into calls in any way, that reached its end have the same output, position, state and check value |
| StreamTheorems.WaitingIsTheSame | thirdparty/miniz/miniz.c:2316-2362 | Where decompression waits for input depends only on the bytes received, not on how they were cut into calls |
| StreamTheorems.BitPosition | thirdparty/miniz/miniz.c:2316-2362 | At every suspension the stream position is 8 * bytes consumed - m_num_bits, and m_bit_buf holds exactly the next m_num_bits bits, after look-ahead and put-back; between calls that is less than a byte, or part of the item waited for |
| StreamTheorems.ConsumedExactly | thirdparty/miniz/miniz.c:2876-2885 | Whatever data follows the stream, at its end exactly the bytes of the stream are consumed, so any two runs consume the same bytes and keep no bits |
| StreamTheorems.WindowIsFlat | thirdparty/miniz/miniz.c:2778-2840 | An accepted stream decodes to the same bytes, position and trailer into a wrapping 32 KiB window and into a flat buffer |
| StreamTheorems.WindowBeginsFlat | thirdparty/miniz/miniz.c:2778-2840 | At any time, and also on rejected streams, what was decoded into the window begins what flat decoding gives |
| MzInflate.DeliveredIsFlat | thirdparty/miniz/miniz.c:440-550 | For any sequence of input and output sizes, the bytes mz_inflate has handed out at the end of the stream, in order and once each, are those of flat decoding |
| MzInflate.DeliveredBegins | thirdparty/miniz/miniz.c:497-530 | After every call the bytes handed out begin what flat decoding gives |
| MzInflate.StatusDecides | thirdparty/miniz/miniz.c:514-550 | What the last status says of the whole stream: accepted with all of its text handed out; accepted by no state; or not received completely; and the bytes handed out always begin the text |
| MzInflate.InflateRest | thirdparty/miniz/miniz.h:413-428 | Once the whole stream is at hand, calling mz_inflate again and again ends: with the whole text of a valid stream if the room holds one byte more, with an error only for an invalid one |
| Fragments.CompressedFragment | thirdparty/miniz/luat_transz.c:83-93 | A zlib stream of the compressor, read from its third byte as raw deflate, gives the compressed text: the fragment format of the reader |
| Adler32.DeferredReduction | thirdparty/miniz/miniz.c:49-62 | Reducing once per block equals reducing after every byte |
| Adler32.RawSumsFit | thirdparty/miniz/miniz.c:44-64 | In a block of at most 5552 bytes neither sum leaves 32 bits |
| Adler32.Adler | thirdparty/miniz/miniz.c:41-67 | The result is the per-byte-modulo Adler-32 of the bytes, for every reduced starting value and every length; 1 for a null pointer |
| Adler32.SumBlock | thirdparty/miniz/miniz.c:49-61 | The unrolled 32-bit loop computes the exact unreduced sums |
| Adler32.Concatenation | thirdparty/miniz/miniz.c:2892-2917 | Checksumming x and then y is checksumming their concatenation |
| Adler32.AdlerOfData | thirdparty/miniz/miniz.c:41-67 | The checksum of data from 1 on is (n + the sum of (n - i) * byte i) mod 65521 times 65536, plus (1 + the sum of the bytes) mod 65521 |
| Adler32.WeightedSumFirst | thirdparty/miniz/miniz.c:49-61 | The weights of that sum count down from n to 1 |
| Adler32.PackedConcatenation | thirdparty/miniz/miniz.c:2892-2917 | The same on the packed 32-bit values that callers pass on |
| Adler32.PackUnpack | thirdparty/miniz/miniz.c:43-66 | The two halves of a packed value come back |
| MinRedundancy.CalculateMinimumRedundancy | thirdparty/miniz/miniz.c:788-841 | In place: lengths with Kraft sum exactly one, 1 to 32, never growing with the frequency, and of least total weighted length among all prefix codes |
| MinRedundancy.DepthsAreMinimum | thirdparty/miniz/miniz.c:788-841 | The depths of the merged tree are such lengths |
| MinRedundancy.LengthsAreKraftComplete | thirdparty/miniz/miniz.c:821-840 | With frequencies summing to at most 65535 the lengths fit the 32 supported ones and their Kraft sum is one |
| MinRedundancy.TakeItem | thirdparty/miniz/miniz.c:803-809 | The next item is the lighter one of the node queue and the leaf queue |
| MinRedundancy.MergeTwo | thirdparty/miniz/miniz.c:801-817 | One merge in the shared array performs one step of the abstract merging and keeps its invariant, without overflow of the 16-bit keys |
| MinRedundancy.MergeAll | thirdparty/miniz/miniz.c:798-817 | The merging pass leaves the parent links of all nodes at the front of the array |
| MinRedundancy.LinksToDepths | thirdparty/miniz/miniz.c:818-820 | Parent links become depths |
| MinRedundancy.SkipLevel | thirdparty/miniz/miniz.c:827-831 | Counts the inner nodes of one depth |
| MinRedundancy.FillLevel | thirdparty/miniz/miniz.c:832-836 | Writes one depth to exactly the leaves of that depth |
| MinRedundancy.DepthsToLengths | thirdparty/miniz/miniz.c:821-840 | Depths of inner nodes become the depths of all leaves, level by level |
| Merge.StepReady | thirdparty/miniz/miniz.c:801-817 | Every merge keeps the queues sorted and the links, weights and shapes consistent |
| Merge.TwoLeft | thirdparty/miniz/miniz.c:801-817 | Two items are always left to merge, and the second one is never the node being made |
| HuffmanTree.HeightBound | thirdparty/miniz/miniz.c:788-847 | No inner node is deeper than 22 when the frequencies sum to at most 65535 (Fibonacci bound) |
| HuffmanTree.KraftOne | thirdparty/miniz/miniz.c:821-840 | The leaves of the merged tree have Kraft sum one |
| Optimality.MinimumCost | thirdparty/miniz/miniz.c:788-841 | No lengths that admit a prefix code cost less than the depths of the tree |
| Optimality.TreeCost | thirdparty/miniz/miniz.c:798-817 | The tree costs exactly the sum of its merges |
| Optimality.LightestLongest | thirdparty/miniz/miniz.c:803-816 | Exchange step: the two lightest items may be given the two greatest lengths at no cost |
| Optimality.LowerBound | thirdparty/miniz/miniz.c:798-817 | Whatever lengths the waiting items get, the remaining merges cost at least their weights |
| LengthLimit.EnforceMaxCodeSize | thirdparty/miniz/miniz.c:848-870 | Terminates with Kraft total exactly 2^max over lengths 1..max and the same number of codes; no count becomes negative; counts below the shortest code split are kept, and something is split only if a code was longer than max |
| LengthLimit.ShorterExists | thirdparty/miniz/miniz.c:861-867 | While the total is too large, a shorter code to split always exists |
| LengthLimit.RepairStep | thirdparty/miniz/miniz.c:858-869 | One repair lowers the total by exactly one and keeps the number of codes |
| LengthLimit.Repair | thirdparty/miniz/miniz.c:858-869 | The inner search in place performs that step |
| LengthLimit.FoldedIsRepairing | thirdparty/miniz/miniz.c:854-857 | After folding the long codes the repair loop's invariant holds |
| LengthLimit.Fold | thirdparty/miniz/miniz.c:854-855 | All longer codes are counted at the greatest length |
| LengthLimit.SumWeights | thirdparty/miniz/miniz.c:856-857 | The running total is the Kraft sum in units of 2^-max |
| LengthLimit.LimitedStep | thirdparty/miniz/miniz.c:858-869 | Every repair keeps what is known of the shortest length split so far, and how much was too much when it was split last |
| LengthLimit.LongCodesOnly | thirdparty/miniz/miniz.c:854-858 | Nothing is repaired unless some code was longer than max |
| LightCodes.NoExchangePays | thirdparty/miniz/miniz.c:788-841 | In a minimum redundancy code, the lightest items that fill 2^-j of the code space weigh at least those that fill the half and those that fill the quarter of it together |
| LightCodes.LightPart | thirdparty/miniz/miniz.c:788-841 | So the items that fill 2^-a of the code space weigh at most one part in Fib(a + 1) of all |
| LightCodes.LongHeavy | thirdparty/miniz/miniz.c:788-841 | A code of a bits needs frequencies that sum to at least Fib(a + 1) |
| LimitedCost.SmallShare | thirdparty/miniz/miniz.c:848-870 | With at most 2^(max - a) codes, all codes that limiting makes longer fill at most 2^-a of the code space |
| LimitedCost.LimitedBound | thirdparty/miniz/miniz.c:848-870 | Limiting the lengths costs at most (max - 1 - a) / Fib(a + 1) bits per symbol against any prefix code |
| LimitedCost.LightUnlimited | thirdparty/miniz/miniz.c:848-870 | Frequencies that sum to less than Fib(max + 2) keep the least cost |
| RadixSort.RadixSortSyms | thirdparty/miniz/miniz.c:754-785 | The result is one of the two arrays, a permutation of the input ordered by key, in which elements of equal keys keep their order |
| RadixSort.StableUnique | thirdparty/miniz/miniz.c:754-785 | There is only one such result: ordered by key, and stable |
| RadixSort.OfKeyInBuckets | thirdparty/miniz/miniz.c:767-783 | Distribution keeps the elements of one key in their order |
| RadixSort.DistributePass | thirdparty/miniz/miniz.c:767-783 | One pass moves every element into its bucket and keeps the order inside a bucket |
| RadixSort.Histogram | thirdparty/miniz/miniz.c:759-764 | Counts every digit |
| RadixSort.Offsets | thirdparty/miniz/miniz.c:769-775 | Offsets are where the buckets begin |
| RadixSort.BucketsPermutation | thirdparty/miniz/miniz.c:776-777 | Distribution rearranges the elements |
| RadixSort.SecondPassSorts | thirdparty/miniz/miniz.c:767-783 | The second pass sorts by the whole key because the first was stable |
| RadixSort.OnePassSorts | thirdparty/miniz/miniz.c:765-766 | Leaving out the second pass is right when all high digits are zero |
| HuffmanCodes.DynamicTable | thirdparty/miniz/miniz.c:882-922 | Exactly the used symbols get lengths, none above the limit, the code complete unless at most one symbol is used; each stored code is the reversed canonical code; the lengths cost least where the counts sum to less than Fib(limit + 2), and otherwise nearly least |
| HuffmanCodes.StaticTable | thirdparty/miniz/miniz.c:877-922 | For given lengths each stored code is the reversed canonical code |
| HuffmanCodes.AssignSizes | thirdparty/miniz/miniz.c:904-906 | The shortest lengths go to the most frequent symbols: along the sorted list the sizes never grow, and the counts are used up exactly |
| HuffmanCodes.AssignCodes | thirdparty/miniz/miniz.c:909-922 | Canonical numbering gives each used symbol its code, bit-reversed |
| HuffmanCodes.TableNear | thirdparty/miniz/miniz.c:882-906 | No lengths with which the used symbols have a prefix code take much less room than the table |
| HuffmanCodes.ValuesPermuted | thirdparty/miniz/miniz.c:898-906 | A sum over the symbols is the same in sorted order |
| HuffmanCodes.CountCodes | thirdparty/miniz/miniz.c:897-898 | Counts with the Kraft sum of the lengths; the lengths of a sorted list are those that the counts say |
| HuffmanCodes.LimitedCounts | thirdparty/miniz/miniz.c:894-900 | Sorting, minimum redundancy lengths and limiting give counts with Kraft sum one, made by limiting the counts of a minimum code |
| HuffmanCodes.CountsComplete | thirdparty/miniz/miniz.c:900-906 | Limited counts with Kraft sum one make a complete code |
| Canonical.PrefixFree | thirdparty/miniz/miniz.c:909-922 | No canonical code is the beginning of another (RFC 1951, section 3.2.2) |
| Canonical.UniqueDecoding | thirdparty/miniz/miniz.c:909-922 | At most one code starts a bit string |
| Canonical.CompleteDecodes | thirdparty/miniz/miniz.c:2595-2603 | Under a complete code every 15 bits start with a code |
| Canonical.CodeStart | thirdparty/miniz/miniz.c:909-918 | The counting scheme numbers code i as the start of its interval of the code space |
| Canonical.CodeFits | thirdparty/miniz/miniz.c:913-921 | Every code number fits its length |
| FormatRules.FixedCodes | thirdparty/miniz/miniz.c:1083-1092 | The fixed code is the table of RFC 1951, section 3.2.6: 00110000 to 10111111 for 0 to 143, 110010000 to 111111111 for 144 to 255, 0000000 to 0010111 for 256 to 279, 11000000 to 11000111 for 280 to 287 |
| FormatRules.FixedDistances | thirdparty/miniz/miniz.c:1092-1092 | Fixed distance codes are the five-bit numbers in order |
| FormatRules.LengthRule | thirdparty/miniz/miniz.c:2440-2441 | Bases and extra bits of lengths by the rule of section 3.2.5: eight of one length each, then four symbols for each number of extra bits, and 258 |
| FormatRules.DistanceRule | thirdparty/miniz/miniz.c:2442-2443 | The same for distances: four of one distance each, then two symbols for each number of extra bits |
| FormatRules.RunCodes | thirdparty/miniz/miniz.c:2646-2664 | 16 repeats the last length 3 to 6 times, 17 and 18 stand for 3 to 10 and 11 to 138 zeros |
| FormatRules.HeaderNumbers | thirdparty/miniz/miniz.c:2564-2569 | The three numbers of a dynamic header: bits of 5, 5 and 4, from 257, 1 and 4 on |
| FormatRules.BlockTypes | thirdparty/miniz/miniz.c:2493-2545 | Type bits 00, 01, 10 and 11 lead to a stored block at the next byte boundary, a fixed block, a dynamic block and failure |
| FormatRules.StoredLengths | thirdparty/miniz/miniz.c:2500-2512 | The length of a stored block is accepted exactly if the two bytes behind it are its complement |
| FormatRules.MatchCopies | thirdparty/miniz/miniz.c:2786-2840 | A match makes every byte that it appends the one a distance before, also where it overlaps itself |
| FormatRules.ZlibHeader | thirdparty/miniz/miniz.c:2483-2490 | The zlib header by the fields of RFC 1950, section 2.2: method 8, no dictionary, a multiple of 31, and no window larger than the output where that is a window |
| FormatRules.ByteOrder | thirdparty/miniz/miniz.c:925-941 | Bytes of the stream begin with their least significant bit |
| FormatRules.MostFirst | thirdparty/miniz/miniz.c:919-921 | Huffman codes begin with their most significant bit |
| FormatRules.CheckOrder | thirdparty/miniz/miniz.c:1346-1353 | The check value has its most significant byte first |
| BuildTable.TotalIsKraft | thirdparty/miniz/miniz.c:2593-2603 | The check total == 65536 says exactly that the code is complete |
| BuildTable.AcceptedIsFeasible | thirdparty/miniz/miniz.c:2600-2603 | What the check accepts leaves room for a prefix code |
| BuildTable.ReverseBits | thirdparty/miniz/miniz.c:2610-2611 | The loop reverses the code |
| BuildTable.RevIsCode | thirdparty/miniz/miniz.c:2609-2611 | Reversed, the numbered code is the canonical code in stream order |
| DecodeTable.Table.Build | thirdparty/miniz/miniz.c:2578-2643 | Succeeds exactly for complete or single codes, and then lookup and tree decode them, with every tree index in bounds |
| DecodeTable.Table.FillShort | thirdparty/miniz/miniz.c:2612-2621 | A short code fills every lookup slot that starts with it |
| DecodeTable.Table.InsertLong | thirdparty/miniz/miniz.c:2622-2642 | A long code gets a lookup slot, a path of nodes and a leaf, and no earlier code is disturbed |
| DecodeTable.Table.Descend | thirdparty/miniz/miniz.c:2629-2640 | One step down the tree makes a node exactly where there is none |
| DecodeTable.NodesFit | thirdparty/miniz/miniz.c:2622-2640 | There is room in the tree for every node a code accepted by the check needs |
| DecodeTable.FirstCodes | thirdparty/miniz/miniz.c:2588-2599 | First codes per length, total and number of used symbols |
| DecodeTable.CountLengths | thirdparty/miniz/miniz.c:2588-2592 | Number of codes of each length |
| DecodeTrie.AddShort | thirdparty/miniz/miniz.c:2612-2621 | A short code keeps the table a correct trie of the codes so far |
| DecodeTrie.AddLong | thirdparty/miniz/miniz.c:2641-2642 | So does the leaf of a long code |
| DecodeTrie.AddTop | thirdparty/miniz/miniz.c:2622-2627 | So does a new node in a lookup slot |
| DecodeTrie.AddInner | thirdparty/miniz/miniz.c:2632-2637 | So does a new node in a tree slot |
| HuffDecode.Decode | thirdparty/miniz/miniz.c:2394-2426 | Yields the one symbol whose code comes next and consumes exactly its length, or reports that all input is used and less than this code is at hand |
| HuffDecode.Fill | thirdparty/miniz/miniz.c:2363-2386 | Ends with the whole code of the next symbol at hand, or with the input used up short of it; a byte is read only while part of the code is missing |
| HuffDecode.Lookup | thirdparty/miniz/miniz.c:2411-2424 | With enough bits, lookup and tree walk return the symbol of the code at the front and its length |
| HuffDecode.Enough | thirdparty/miniz/miniz.c:2366-2382 | The test of the slow path says exactly whether the bits at hand hold a whole code |
| HuffDecode.Walk | thirdparty/miniz/miniz.c:2415-2420 | The tree walk ends at the symbol of the code |
| HuffDecode.TryWalk | thirdparty/miniz/miniz.c:2373-2382 | With the bits at hand only, the walk succeeds exactly if they hold the code |
| HuffDecode.TooShort | thirdparty/miniz/miniz.c:2366-2382 | With part of a code, neither table claims a symbol |
| CodeLengthRle.PackCodeLengths | thirdparty/miniz/miniz.c:1012-1051 | Expanding the 16/17/18 codes gives the lengths back, the packed array is never longer than the input, the counts are those of the codes, and every run of equal lengths is written with as many codes of 138 zeros or 6 repetitions as fit and one code for a rest of three or more (RFC 1951, section 3.2.7) |
| CodeLengthRle.Packer.FlushPrev | thirdparty/miniz/miniz.c:943-961 | A pending run of the previous length is written so that it expands to itself, in one code from three on |
| CodeLengthRle.Packer.FlushZeros | thirdparty/miniz/miniz.c:963-987 | The same for a run of zeros |
| CodeLengthRle.Packer.Put | thirdparty/miniz/miniz.c:1017-1043 | Every iteration adds exactly its length to what the codes and the pending runs stand for, and continues or starts a run |
| CodeLengthRle.RunCodedAt | thirdparty/miniz/miniz.c:1012-1051 | The codes of a vector are those of its maximal runs |
| CodeLengthRle.BegunMore | thirdparty/miniz/miniz.c:943-987 | One more of the same length: the rest grows, and is written when one code is just enough for it |
| CodeLengthRle.Packer.Finish | thirdparty/miniz/miniz.c:1044-1051 | At the end nothing is pending, and the codes are those of the runs |
| DynamicBlock.RunOps | thirdparty/miniz/miniz.c:2646-2664 | The decompressor's loop expands the run codes to the lengths they stand for |
| DynamicBlock.RunAllLenLens | thirdparty/miniz/miniz.c:2570-2576 | The code-length code sent in zigzag order is received |
| DynamicBlock.UnzigzagSent | thirdparty/miniz/miniz.c:1060-1066 | The lengths sent, put back in order, are the lengths |
| DynamicBlock.LengthsReceived | thirdparty/miniz/miniz.c:2570-2575 | The decompressor takes the k-th length of the header for the symbol that section 3.2.7 puts there: 16, 17, 18, 0, then 8 upwards and 7 downwards in turn; lengths not sent are 0 |
| DynamicBlock.UnzigzagPlaced | thirdparty/miniz/miniz.c:2444-2444 | The same order as a closed form, apart from the table of the code |
| DynamicBlock.SentPlaced | thirdparty/miniz/miniz.c:989-989 | The lengths are sent in that order |
| DynamicBlock.LenLensBitsAt | thirdparty/miniz/miniz.c:1065-1066 | Bits 3k to 3k + 2 behind the three numbers are the length of the k-th symbol of that order |
| DynamicBlock.RunDynamicHead | thirdparty/miniz/miniz.c:2562-2671 | A dynamic header is understood as exactly the tables it was made from |
| BitWriter.Writer.PutBits | thirdparty/miniz/miniz.c:925-941 | Appends exactly the given bits to the stream; whole bytes leave, fewer than eight bits stay |
| BitWriter.Writer.EmitByte | thirdparty/miniz/miniz.c:934-936 | A byte that does not fit the output buffer is dropped |
| BitWriter.Writer.NotFull | thirdparty/miniz/miniz.c:1240-1242 | While the end was not reached nothing was dropped |
| BitWriter.Writer.Rewind | thirdparty/miniz/miniz.c:1314-1315 | Going back to a saved point restores the stream of that point |
| BitWriter.OrIn | thirdparty/miniz/miniz.c:925-941 | Or-ing a value above the bits at hand appends its bits |
| BlockWriter.PutCode | thirdparty/miniz/miniz.c:1072-1072 | A stored code and its size put the canonical code of the symbol |
| BlockWriter.OptimizeTable | thirdparty/miniz/miniz.c:872-923 | The table for a set of counts, as sizes and codes |
| BlockWriter.StartDynamicBlock | thirdparty/miniz/miniz.c:991-1076 | Writes the header of exactly the two tables made from the counts, which take nearly least room; nothing is sent that need not be: no unused symbols at the end of either alphabet or of the code-length order, the codes of the runs, and nearly the best lengths for those |
| BlockWriter.PutOps | thirdparty/miniz/miniz.c:1068-1075 | Writes the packed codes with their extra bits |
| BlockWriter.CountLenLens | thirdparty/miniz/miniz.c:1060-1063 | No length of the code-length code that is used is left out, and the last one sent is used unless four are sent |
| BlockWriter.PutLenLens | thirdparty/miniz/miniz.c:1065-1066 | Writes the code-length code in its order |
| BlockWriter.TrimZeros | thirdparty/miniz/miniz.c:1002-1007 | Only unused symbols are trimmed, and all of them down to the least number |
| BlockWriter.StaticSizes | thirdparty/miniz/miniz.c:1083-1092 | The fixed lengths of RFC 1951, section 3.2.6 |
| BlockWriter.StartStaticBlock | thirdparty/miniz/miniz.c:1078-1098 | The header and tables of a fixed block |
| BlockWriter.HeaderGood | thirdparty/miniz/miniz.c:991-1076 | What was written is a well-formed header for both tables |
| Trimming.BodyTrim | thirdparty/miniz/miniz.c:1002-1011 | Codes and bits do not change when unused symbols at the end are trimmed |
| LzCodeWriter.CompressLzCodes | thirdparty/miniz/miniz.c:1198-1243 | Writes the bits of exactly the recorded tokens and the end-of-block code |
| LzCodeWriter.PutToken | thirdparty/miniz/miniz.c:1208-1237 | One token with its extra bits |
| LzCodeWriter.ReadFlags | thirdparty/miniz/miniz.c:1206-1207 | Reading a flag byte starts the next group of tokens |
| LzCodeWriter.ReadToken | thirdparty/miniz/miniz.c:1208-1237 | The flag bit and payload read are those of the next token |
| LzBuffer.CodeBuffer.RecordLiteral | thirdparty/miniz/miniz.c:1712-1723 | Appends the literal to the tokens that the buffer lays out |
| LzBuffer.CodeBuffer.RecordMatch | thirdparty/miniz/miniz.c:1725-1751 | Appends the match to the tokens that the buffer lays out |
| LzBuffer.CodeBuffer.Close | thirdparty/miniz/miniz.c:1272-1273 | The closed buffer is exactly the layout of the tokens, whose counts and bytes are kept |
| LzBuffer.CodeBuffer.Reset | thirdparty/miniz/miniz.c:1373-1380 | An empty buffer again |
| LzBuffer.CodeBuffer.HoldsMuch | thirdparty/miniz/miniz.c:1882-1883 | A buffer of n bytes stands for at least 8/9 of n bytes of input, but for two |
| LzBuffer.LitCountsMean | thirdparty/miniz/miniz.c:1722-1750 | Every literal or length symbol in use is counted, the unused end of the alphabet is not |
| LzBuffer.DistCountsMean | thirdparty/miniz/miniz.c:1747-1749 | The same for distances |
| Tokens.LengthAlphabet | thirdparty/miniz/miniz.c:1214-1216 | Symbol, extra bits and base of a length fit together |
| Tokens.DistanceAlphabet | thirdparty/miniz/miniz.c:1218-1230 | Symbol, extra bits and base of a distance fit together |
| BlockFormat.DecodeSymAt | thirdparty/miniz/miniz.c:2394-2426 | A code at the current position decodes to its symbol |
| BlockFormat.RunToken | thirdparty/miniz/miniz.c:2756-2840 | The bits of one token have its effect on the output |
| BlockFormat.RunBody | thirdparty/miniz/miniz.c:2673-2841 | The bits of a block body have the effect of its tokens and end behind the end-of-block code |
| BlockHeaders.StaticComplete | thirdparty/miniz/miniz.c:2546-2561 | The fixed codes are complete |
| BlockHeaders.RunStored | thirdparty/miniz/miniz.c:2498-2539 | A stored block yields its bytes |
| OutputBound.BlockSize | thirdparty/miniz/miniz.c:1330-1336 | Every block of a full code buffer, also with dynamic codes and limited lengths, is at most 675652 bits long, 5788 less than the output buffer holds: the case that the code calls extremely unlikely is impossible |
| BlockCost.TokensSize | thirdparty/miniz/miniz.c:1086-1180 | The tokens take the lengths of their symbols, as often as those are counted, and the extra bits |
| BlockCost.DynamicBodySize | thirdparty/miniz/miniz.c:1246-1253 | A block body in dynamic codes is at most one bit a token longer than in fixed codes, and no longer for fewer than 1596 tokens |
| BlockCost.HeaderSize | thirdparty/miniz/miniz.c:1053-1076 | No header of a dynamic block is longer than 4551 bits |
| LazyParse.StepParses | thirdparty/miniz/miniz.c:1807-1880 | Every decision of the lazy or greedy parser keeps the recorded tokens an exact account of the input from m_lz_code_buf_dict_pos, with m_total_lz_bytes its length and at most one byte pending |
| LazyParse.LazyWaits | thirdparty/miniz/miniz.c:1838-1875 | A short match is held back for one byte: if the next byte has a longer one, the byte is a literal and the longer one is taken or held back; if not, the match is taken and both steps move over exactly its length |
| LazyParse.EagerTakes | thirdparty/miniz/miniz.c:1862-1875 | With greedy parsing, or for long matches, what is found is recorded at once |
| MatchFinder.FindMatch | thirdparty/miniz/miniz.c:1482-1524 | The best match among the positions that the hash chain leads to within the probes: none of them has a longer match, no closer one has one as long; and whatever the chain holds where positions have wrapped, what is found is a real match, longer than before, within the dictionary size, read through the mirrored window tail |
| Window.ReadThrough | thirdparty/miniz/miniz.c:1501-1513 | Reading past the end of the window reads the mirror of its start |
| Window.Store | thirdparty/miniz/miniz.c:1773-1776 | Storing a byte twice at the start of the window keeps window and mirror in agreement |
| Window.CopyIsSource | thirdparty/miniz/miniz.c:1482-1524 | Copying a real match reproduces the source, also where it overlaps itself |
| MatchFinder.Probe | thirdparty/miniz/miniz.c:1497-1503 | A probe leads to the last position before with the same hash, or nothing within reach is left; a place that it passes over has no longer match |
| MatchFinder.ProbeChain | thirdparty/miniz/miniz.c:1491-1506 | Three positions are looked at for each probe counted, so all within the number of probes have been seen when it is used up |
| MatchFinder.Follow | thirdparty/miniz/miniz.c:1497-1503 | Following a link from a position of the chain |
| HashChains.NoneLonger | thirdparty/miniz/miniz.c:1482-1524 | Any match of three bytes or more in the dictionary with fewer positions of its hash in front of it than there are probes is no longer than the one found, unless a position on the way is a multiple of 65536, which stands for none |
| HashChains.Entered | thirdparty/miniz/miniz.c:1777-1780 | Entering the next position extends every chain and keeps the links of the last 32768 positions |
| HashChains.Rolling | thirdparty/miniz/miniz.c:1777-1777 | The rolling 15-bit hash is the hash of the last three bytes |
| HashChains.MatchHashes | thirdparty/miniz/miniz.c:1797-1797 | Positions that match in three bytes are on one chain |
| MatchFinder.Agreement | thirdparty/miniz/miniz.c:1510-1514 | The longest match at a distance |
| Dictionary.Dict.FillFast | thirdparty/miniz/miniz.c:1763-1783 | The look-ahead holds exactly the next input bytes, the dictionary still holds the last 32 KiB, and every position with two bytes behind it is in its hash chain |
| Dictionary.Dict.FillSlow | thirdparty/miniz/miniz.c:1784-1802 | The same at the start of the data |
| Dictionary.Dict.Fill | thirdparty/miniz/miniz.c:1762-1803 | Both, with the dictionary size cut to what was not overwritten |
| Dictionary.Dict.Move | thirdparty/miniz/miniz.c:1876-1880 | The look-ahead moves over what was recorded |
| Dictionary.Dict.RunMatch | thirdparty/miniz/miniz.c:1812-1829 | The longest run of the byte before, if it is three bytes or more |
| Dictionary.Dict.ChooseMatch | thirdparty/miniz/miniz.c:1807-1837 | What the parser is offered is no match, the same length as before, or a real match: the best one on the chain, or only the longest run, or nothing for raw blocks; and not one that is too short for its distance or for filtering |
| Compressor.Tdefl.constructor | thirdparty/miniz/miniz.c:1993-2027 | Everything starts empty and consistent |
| Compressor.Tdefl.ParseStep | thirdparty/miniz/miniz.c:1807-1880 | One step keeps the invariant of the parse and advances; what it records, saves and moves over is what the lazy or greedy rules say for the match found |
| Compressor.Tdefl.Round | thirdparty/miniz/miniz.c:1759-1891 | A round takes bytes from the input in order, parses one step exactly if the look-ahead is full or a flush is asked for, and leaves no block due |
| Compressor.Tdefl.FlushIfDue | thirdparty/miniz/miniz.c:1881-1890 | A block is written exactly when the code buffer is nearly full or compression does not pay, and then stands for more than 31 KiB |
| Compressor.Tdefl.DueMeans | thirdparty/miniz/miniz.c:1882-1883 | In both cases the block stands for more than 31 KiB |
| Compressor.Tdefl.CompressNormal | thirdparty/miniz/miniz.c:1753-1896 | All input is taken; with a flush nothing stays in the look-ahead, and without one less than a full look-ahead |
| Compressor.Tdefl.PutBlock | thirdparty/miniz/miniz.c:1306-1336 | Compressed, raw or fixed, the block stands for exactly the bytes since the last one; fixed codes for less than 48 bytes or if forced, and raw exactly if forced or where the compressed block saves at most a byte, with the bytes still in the dictionary; starting with an empty buffer it is never compressed a second time for lack of room, and is at most 42 bits longer than its bytes while those are in the dictionary |
| Compressor.Tdefl.WriteBlock | thirdparty/miniz/miniz.c:1272-1369 | Header, block and tail: the stream stands for everything up to the flush |
| Compressor.Tdefl.EmitBlock | thirdparty/miniz/miniz.c:1262-1371 | The output pointer ends below its end, as the code asserts, whatever the block and the flush, and nothing is written twice |
| Compressor.Tdefl.FlushBlock | thirdparty/miniz/miniz.c:1257-1409 | After a flush the stream encodes all tokens recorded, the code buffer is empty, the output pointer is below its end, and the callback has received every byte written |
| Compressor.Tdefl.FlushAll | thirdparty/miniz/miniz.c:1971-1982 | What the flush at the end of a call leaves; only a full flush gives up the dictionary |
| Compressor.Tdefl.ForgetDictionary | thirdparty/miniz/miniz.c:1976-1981 | Behind a full flush the stream starts afresh |
| FlushMeaning.BlockMeans | thirdparty/miniz/miniz.c:1306-1336 | A block of any kind appends the source bytes that it covers |
| FlushMeaning.BlockMeansSince | thirdparty/miniz/miniz.c:1306-1336 | The same told of the source since the last full flush alone |
| FlushMeaning.SyncSince | thirdparty/miniz/miniz.c:1355-1367 | A marker adds nothing to what the stream since the last full flush stands for |
| FlushMeaning.EndSince | thirdparty/miniz/miniz.c:1340-1353 | Padding and check value add nothing either |
| Compressor.Tdefl.UpdateAdler | thirdparty/miniz/miniz.c:1968-1969 | The check value is that of everything consumed |
| Compressor.Tdefl.Compress | thirdparty/miniz/miniz.c:1919-1985 | Each call keeps the invariant of the run; the statuses for misuse, for more to come and for the end; a sync or full flush that is accepted leaves the callback with whole bytes ending in 00 00 FF FF that stand for all input so far, nothing pending, and a full flush leaves an empty dictionary; no other call changes where the stream was last started afresh |
| FlushParts.HeaderFlags | thirdparty/miniz/miniz.c:1275-1294 | The header is a multiple of 31, without dictionary, and accepted by the decompressor; its level is 0 for up to one probe, 1 for 6, 16 or 32, 2 for 128 and 3 for other numbers |
| FlushParts.PutRawBlock | thirdparty/miniz/miniz.c:1316-1328 | A raw block of the bytes in the dictionary |
| FlushParts.PutSyncMarker | thirdparty/miniz/miniz.c:1358-1367 | The empty stored block of a sync flush: the last bytes are 00 00 FF FF and no bits are left over |
| FlushParts.MarkerWritten | thirdparty/miniz/miniz.c:1358-1367 | An empty stored block ends in those four bytes wherever it begins |
| FlushParts.PutTrailer | thirdparty/miniz/miniz.c:1346-1353 | The Adler-32, most significant byte first |
| FlushParts.PadToByte | thirdparty/miniz/miniz.c:1342-1345 | Zero bits to the next byte boundary |
| StreamMeaning.LeadsBlock | thirdparty/miniz/miniz.c:1306-1336 | A compressed block appends the expansion of its tokens, whatever follows |
| StreamMeaning.LeadsStored | thirdparty/miniz/miniz.c:1316-1328 | A stored block appends its bytes, whatever follows |
| BitReader.BitSource.GetBits | thirdparty/miniz/miniz.c:2346-2356 | Takes the next n bits, or reports that the bytes received do not hold them |
| BitReader.BitSource.NeedBits | thirdparty/miniz/miniz.c:2327-2334 | Loads bytes without moving the position |
| BitReader.BitSource.GetByte | thirdparty/miniz/miniz.c:2316-2325 | Takes the next byte |
| BitReader.BitSource.SkipToByte | thirdparty/miniz/miniz.c:2500-2500 | Moves to the next byte boundary |
| BitReader.BitSource.PutBack | thirdparty/miniz/miniz.c:2876-2885 | Returning bytes to the input does not move the position |
| BitReader.BitSource.SetInput | thirdparty/miniz/miniz.c:2438-2476 | The next input buffer continues the stream |
| OutWindow.Output.Put | thirdparty/miniz/miniz.c:2519-2519 | A byte put is the next byte of the output, in a flat buffer and in the window |
| OutWindow.Output.Back | thirdparty/miniz/miniz.c:2784-2794 | Reading dist back, modulo the window, reads that byte of the output |
| OutWindow.Output.Near | thirdparty/miniz/miniz.c:2825-2840 | So does reading through the source pointer |
| Inflator.Tinfl.constructor | thirdparty/miniz/miniz.c:2477-2480 | The state before the first byte |
| Inflator.Tinfl.HeaderByte | thirdparty/miniz/miniz.c:2481-2492 | The zlib header is accepted exactly as the reference machine accepts it |
| Inflator.Tinfl.HeadStep | thirdparty/miniz/miniz.c:2496-2546 | Block type and final flag |
| Inflator.Tinfl.RawHeaderStep | thirdparty/miniz/miniz.c:2501-2511 | Length and complement of a stored block, from the bit buffer or the input |
| Inflator.Tinfl.RawCopyStep | thirdparty/miniz/miniz.c:2522-2538 | Stored bytes are copied at once, as many as are left, as the input buffer has and as the output buffer has room for; nothing moves only if a buffer is used up |
| Inflator.Tinfl.LenCodeStep | thirdparty/miniz/miniz.c:2646-2671 | Code lengths are received and the tables built from them |
| Inflator.Tinfl.LenExtraStep | thirdparty/miniz/miniz.c:2659-2663 | A repeat code repeats |
| Inflator.Tinfl.BuildBoth | thirdparty/miniz/miniz.c:2578-2643 | Both tables are built, or the block is rejected |
| Inflator.Tinfl.LitSymbolStep | thirdparty/miniz/miniz.c:2676-2757 | Literals, also two at a time, and lengths are decoded as the reference machine decodes them |
| Inflator.Tinfl.DistExtraStep | thirdparty/miniz/miniz.c:2771-2783 | The distance must lie inside the output |
| Inflator.Tinfl.CopySlow | thirdparty/miniz/miniz.c:2786-2797 | Byte by byte, suspending only when another byte has no room |
| Inflator.Tinfl.CopyFast | thirdparty/miniz/miniz.c:2825-2840 | Three bytes at a time equals out[i] = out[i - dist], also where source and target overlap |
| Inflator.Tinfl.FinishBlocks | thirdparty/miniz/miniz.c:2847-2854 | After the last block, whatever was read ahead and whatever earlier calls left in it, the bit buffer is empty |
| Inflator.Tinfl.CarriedOn | thirdparty/miniz/miniz.c:2876-2885 | Bits that a call leaves in the bit buffer are less than a byte, or belong to the item waited for, which takes them all |
| Inflator.Tinfl.CheckStep | thirdparty/miniz/miniz.c:2858-2867 | The trailer byte by byte |
| Inflator.Tinfl.Resume | thirdparty/miniz/miniz.c:2292-2304 | From every suspension point the coroutine goes on in step with the reference machine and makes progress |
| Inflator.Tinfl.Run | thirdparty/miniz/miniz.c:2438-2871 | Terminates waiting for input, for room, or at the end, and then the machine waits, owes a byte, or has ended |
| Inflator.Tinfl.Decompress | thirdparty/miniz/miniz.c:2438-2917 | A call consumes a piece of the stream, appends to the output, and its status says exactly why it stopped; at the end of the stream exactly its bytes are consumed |
| Inflator.Tinfl.SumOutput | thirdparty/miniz/miniz.c:2892-2899 | The check value continues over the calls |
| DecodeRuns.ReachedEarly | thirdparty/miniz/miniz.c:2292-2314 | A state of the whole stream is reached as soon as the bits before its position are there |
| DecodeRuns.SameSuspension | thirdparty/miniz/miniz.c:2292-2314 | On the bits received so far there is one place to wait |
| DecodeRuns.OutputGrows | thirdparty/miniz/miniz.c:2515-2518 | What has been produced begins what the end has, and waiting for room means that the stream really has another byte |
| InflateSteps.SymbolStarved | thirdparty/miniz/miniz.c:2363-2386 | With less than a code at hand the machine cannot go on |
| MzInflate.Stream.Inflate | thirdparty/miniz/miniz.c:440-550 | A call consumes the next input and delivers the next output. Each code is returned exactly when: data error for a failing status, end of stream when the last byte is handed out, stream error for a bad flush value or sequence, buffer error without progress on empty input or with a full buffer at MZ_FINISH; with room left a call that returns MZ_OK makes progress |
| MzInflate.InflateAtOnce | thirdparty/miniz/miniz.c:468-492 | A first call with MZ_FINISH: end of stream, buffer error or data error, exactly as the stream inflates into the room, is longer, or inflates to nothing |
| MzInflate.Stream.HandOut | thirdparty/miniz/miniz.c:522-530 | Bytes leave the dictionary in order, as many as there is room for |
| MzInflate.Stream.Refill | thirdparty/miniz/miniz.c:511-522 | One call of the decompressor into the free part of the dictionary |
| MzInflate.Stream.Turns | thirdparty/miniz/miniz.c:509-550 | The loop ends, returns each code exactly in its case, and makes progress unless there is no room |
| ZipIndex.SortByFilename | thirdparty/miniz/miniz.c:3549-3599 | Heap sort: a permutation of the indices, no name before a smaller one: at the first place where two folded names differ the smaller byte comes first, and a beginning before the whole |
| ZipIndex.SiftDown | thirdparty/miniz/miniz.c:3566-3576 | Restores the heap below one place and touches nothing outside it |
| ZipIndex.PopMax | thirdparty/miniz/miniz.c:3583-3598 | The greatest name moves to the sorted end |
| ZipIndex.FilenameLess | thirdparty/miniz/miniz.c:3520-3537 | The strict order of case-folded names |
| ZipIndex.LessIsAhead | thirdparty/miniz/miniz.c:3520-3537 | The order of the code is the one just said, with the folding of A to Z alone written out |
| ZipIndex.FoldedEqual | thirdparty/miniz/miniz.c:4342-4351 | Names are equal exactly if they differ in the case of ASCII letters only |
| ZipIndex.FilenameCompare | thirdparty/miniz/miniz.c:4353-4368 | The sign is that of the order, zero exactly for equal folded names |
| ZipIndex.BinarySearch | thirdparty/miniz/miniz.c:4370-4408 | Finds an entry of that name, and fails only if there is none |
| ZipIndex.Scan | thirdparty/miniz/miniz.c:4447-4481 | The first entry of that name, or none |
| ZipIndex.StringEqual | thirdparty/miniz/miniz.c:4342-4351 | Equality of folded names |
| ZipIndex.IndexedLocate | thirdparty/miniz/miniz.c:4419-4481 | Sorting and searching succeeds exactly when the linear scan does, which is when an entry has the name; both return such an entry, the scan the first one |
| ZipIndex.FirstDifference | thirdparty/miniz/miniz.c:3529-3536 | The first difference, then the lengths, decide the order |
| Transz.Reader.Read | thirdparty/miniz/luat_transz.c:24-158 | Every read whose 32-bit sum offset + len does not wrap to something below the size, after any sequence of reads, returns exactly text[offset .. min(offset + len, total)), leaves the rest of the buffer alone, and the cache holds the block it names; for the other requests see Transz.ClippedRight |
| Transz.Reader.ReadBlocks | thirdparty/miniz/luat_transz.c:75-152 | Block by block, whatever the cache holds |
| Transz.Reader.Load | thirdparty/miniz/luat_transz.c:77-104 | Afterwards the cache holds the block, from the cache or freshly decompressed |
| Transz.Reader.Piece | thirdparty/miniz/luat_transz.c:115-151 | Aligned or not, crossing the block or not, the right bytes are copied |
| Transz.DecompressMemToMem | thirdparty/miniz/miniz.c:2963-2970 | Succeeds exactly if the stream inflates to a text that fits, and then the buffer starts with it |
| WholeInflate.Inflate | thirdparty/miniz/miniz.c:2438-2917 | All at once: done exactly if the stream inflates to a text that fits (with the right check value), out of room only if the text is longer, failed only if there is no text |
| WholeInflate.InflatesOnce | thirdparty/miniz/miniz.c:2438-2917 | A stream inflates to one text only |
| Transz.ClippedRight | thirdparty/miniz/luat_transz.c:49-51 | The length is clipped correctly exactly where the 32-bit sum offset + len does not wrap to something below the size |
| Transz.WrappedRequest | thirdparty/miniz/luat_transz.c:49-51 | A request whose sum wraps is not clipped |
| SpiDivisor.SpiResources.SetBusSpeed | interface/src/bsp_spi.c:366-457 | The divisor wanted is the least even number not below clock / bps; errors exactly for speed 0, a speed above the clock, and the one quotient that wraps; the divisor set is exact up to 512 and else nearest over all even cpsr in 2..254 and scr in 1..256, ties going to the last row and in it to the higher rate; where it is exact the speed times the divisor is below (divisor + 1) * bps |
| SpiDivisor.RoundedIsLeast | interface/src/bsp_spi.c:385-386 | Rounding the 32-bit quotient up to an even number gives the least even divisor, but for the one quotient that wraps to 0 |
| SpiDivisor.RateReached | interface/src/bsp_spi.c:385-386 | A divisor reached exactly gives at most the rate asked for exactly if the clock is below the divisor times (bps + 1) |
| SpiDivisor.RateExceeded | interface/src/bsp_spi.c:385-386 | 25.6 MHz are set for 20 MHz asked for at 51.2 MHz |
| SpiDivisor.SpiResources.SearchAll | interface/src/bsp_spi.c:403-447 | The search over all rows is globally nearest, also when it stops early, and settles ties as the code does |
| SpiDivisor.SpiResources.SearchRow | interface/src/bsp_spi.c:411-435 | The binary search is nearest in the searched half of its row, the smaller of two as near |
| SpiDivisor.UpperTriangleSuffices | interface/src/bsp_spi.c:406-412 | Half of the symmetric matrix is enough |
| SpiDivisor.RowChoice | interface/src/bsp_spi.c:427-434 | The unsigned wrap of the final comparison never changes the choice |
| SortList.SortList | thirdparty/cJSON/cJSON_Utils.c:484-593 | A chain of exactly the same nodes, each key before or equal to every later one: at the first place where the keys, folded if asked, differ, the smaller byte comes first, and a beginning before the whole; interior next and prev mutually inverse |
| SortList.Merge | thirdparty/cJSON/cJSON_Utils.c:534-592 | Merging two chains gives a chain of both, ordered if they are |
| SortList.Split | thirdparty/cJSON/cJSON_Utils.c:522-527 | Cutting at the middle gives two chains |
| SortList.Middle | thirdparty/cJSON/cJSON_Utils.c:509-521 | The slow pointer ends inside the list |
| SortList.IsSorted | thirdparty/cJSON/cJSON_Utils.c:498-507 | The list is left alone only if it is in order |
| SortList.CompareStrings | thirdparty/cJSON/cJSON_Utils.c:83-109 | The sign of the byte difference at the first place where the keys differ, folded or not as asked; zero exactly for equal keys |
| SortList.InOrderIsAhead | thirdparty/cJSON/cJSON_Utils.c:83-109 | Keys in order are those that compare as less or equal byte by byte |
| SortList.OneDifference | thirdparty/cJSON/cJSON_Utils.c:83-109 | Two keys part at one place only |
| SortList.OrderTransitive | thirdparty/cJSON/cJSON_Utils.c:83-109 | The order on keys is transitive |
| ChildList.AddItemToArray | thirdparty/cJSON/cJSON.c:1956-1987 | Appends to the abstract child list; the links stay right exactly if the list was empty or the item's own next was null |
| ChildList.InsertItemInArray | thirdparty/cJSON/cJSON.c:2263-2290 | Inserts before the given place, or appends |
| ChildList.DetachItem | thirdparty/cJSON/cJSON.c:2187-2221 | Removes the item, keeps the links of the rest, and leaves the item unlinked |
| ChildList.DetachItemFromArray | thirdparty/cJSON/cJSON.c:2223-2231 | By index; null and nothing changed outside the list |
| ChildList.ReplaceItem | thirdparty/cJSON/cJSON.c:2292-2339 | Replaces the item at its place, also as the only, first or last one |
| ChildList.ReplaceItemInArray | thirdparty/cJSON/cJSON.c:2341-2349 | By index; false and nothing changed outside the list |
| ChildList.GetArrayItem | thirdparty/cJSON/cJSON.c:1851-1868 | The child at the index, or null |
| ChildList.GetArraySize | thirdparty/cJSON/cJSON.c:1828-1849 | The length of the abstract list |
| ChildList.Duplicate | thirdparty/cJSON/cJSON.c:2706-2787 | A fresh tree of the same value that shares no item with the original, every child list linked with its head's prev at the last child |
| ChildList.LinkCopy | thirdparty/cJSON/cJSON.c:2747-2766 | A copied child is linked behind the one before |
| ChildList.CloseCopy | thirdparty/cJSON/cJSON.c:2768-2771 | The head's prev becomes the last child |
| ChildList.TreeUnique | thirdparty/cJSON/cJSON.c:2706-2787 | The value below an item is determined by the items |
| JsonPointer.FindAndGet | thirdparty/cJSON/cJSON_Utils.c:198-346 | A pointer is built exactly for the items on a path that has one, which is every item where only arrays and objects have children; looking it up gives this item back, in trees whose objects have distinct keys |
| JsonPointer.PointerRoundTrip | thirdparty/cJSON/cJSON_Utils.c:198-346 | The pointer of a path leads along that path, for keys with ~ and /, empty keys and any index (RFC 6901, sections 3 and 4) |
| PointerRules.PointerMeans | thirdparty/cJSON/cJSON_Utils.c:198-259 | A pointer is written by the rules of RFC 6901: for each step a / and the element's number in decimal without leading zeros, or a token that is read as the member's name |
| PointerRules.KeyMeans | thirdparty/cJSON/cJSON_Utils.c:173-196 | An escaped key is read as the key: first ~1 as /, then ~0 as ~ (section 4) |
| JsonPointer.FindPointer | thirdparty/cJSON/cJSON_Utils.c:198-259 | The pointer of the one path that leads to the target; none if no path has a pointer |
| JsonPointer.GetItem | thirdparty/cJSON/cJSON_Utils.c:301-346 | The item at the end of the path that the pointer leads along, or null |
| JsonPointer.SelectKid | thirdparty/cJSON/cJSON_Utils.c:313-333 | The child that the next token selects |
| JsonPointer.ComparePointers | thirdparty/cJSON/cJSON_Utils.c:120-154 | True exactly if the next token is the escaped key, up to case if asked |
| JsonPointer.EncodeString | thirdparty/cJSON/cJSON_Utils.c:173-196 | Writes the escaped key and its terminator, nothing before it |
| JsonPointer.EncodedLength | thirdparty/cJSON/cJSON_Utils.c:157-170 | The length of the escaped key |
| JsonPointer.DecodeIndex | thirdparty/cJSON/cJSON_Utils.c:274-299 | The index that the code reads from a token |
| JsonPointer.IndexRead | thirdparty/cJSON/cJSON_Utils.c:274-299 | A printed index is read back, whatever follows |
| JsonPointer.IndexTokens | thirdparty/cJSON/cJSON_Utils.c:278-294 | The code accepts exactly the empty token, "0", and a digit 1-9 followed by characters not below "0": more than RFC 6901 allows |
| JsonPointer.LetterAsDigit | thirdparty/cJSON/cJSON_Utils.c:284-288 | "1a" is taken as 59 |
| JsonPointer.EscapeInjective | thirdparty/cJSON/cJSON_Utils.c:173-196 | Two keys have the same escaped form only if they are the same |
| JsonPointer.SameExact | thirdparty/cJSON/cJSON_Utils.c:104-107 | Case-sensitive comparison is equality |
| JsonPointer.LeadsOnce | thirdparty/cJSON/cJSON_Utils.c:213-256 | There is one path to an item |
| JsonPointer.LedPointer | thirdparty/cJSON/cJSON_Utils.c:213-256 | Every path to an item has a pointer where only arrays and objects have children |
| JsonParser.PrintAndParse | thirdparty/cJSON/cJSON.c:1187-1249 | Printing succeeds exactly for printable trees of bounded text and gives that text; parsing it makes a tree of the same value, exactly if it is nested at most CJSON_NESTING_LIMIT deep |
| JsonRoundTrip.PrintThenParse | thirdparty/cJSON/cJSON.c:1095-1172 | Formatted or not, with the terminator counted or not, strict or not: parsing a printed value gives it back exactly if the nesting limit is kept, and nothing otherwise |
| JsonRoundTrip.ValueRead | thirdparty/cJSON/cJSON.c:1312-1364 | A printed value is read back anywhere in a text, at any depth the limit allows |
| JsonRoundTrip.TooDeep | thirdparty/cJSON/cJSON.c:1441-1449 | A printed value nested too deep is rejected |
| JsonRoundTrip.QuoteRead | thirdparty/cJSON/cJSON.c:773-899 | A printed string is read back, with every escape (RFC 8259, section 7) |
| JsonStrings.PiecesRead | thirdparty/cJSON/cJSON.c:773-899 | Text put together from characters, escape letters of the table of RFC 8259, section 7, \u units and surrogate pairs is read as what those stand for, also texts that the printer never writes |
| JsonStrings.ReadInPieces | thirdparty/cJSON/cJSON.c:773-899 | Whatever is read is put together so: any other escape is rejected |
| JsonStrings.EscapedMeans | thirdparty/cJSON/cJSON.c:836-862 | Exactly the letters of that table are escapes, each for its code point |
| JsonStrings.Utf8Means | thirdparty/cJSON/cJSON.c:707-763 | A code point is written as the UTF-8 sequence that decodes to it |
| JsonStrings.Utf8Only | thirdparty/cJSON/cJSON.c:707-763 | And no other sequence of that form decodes to it |
| JsonStrings.Hex4Means | thirdparty/cJSON/cJSON.c:615-648 | Four digits are their number, most significant first; zero if one is no digit |
| JsonStrings.StringShown | thirdparty/cJSON/cJSON.c:971-1016 | A printed string is its characters in order: quote, backslash, \b, \f, \n, \r, \t by letter, other control characters as \u00xx, all others as themselves |
| JsonRoundTrip.NumberRead | thirdparty/cJSON/cJSON.c:305-379 | A printed 32-bit integer is read back |
| JsonGrammar.TextIsRead | thirdparty/cJSON/cJSON.c:1095-1172 | Every JSON text of RFC 8259, with any spaces, escapes and forms of numbers, is read as its value exactly if the nesting limit is kept, and rejected otherwise |
| JsonGrammar.StrictTextIsRead | thirdparty/cJSON/cJSON.c:1095-1172 | The same where a terminator is required |
| JsonGrammar.ValueIsRead | thirdparty/cJSON/cJSON.c:1312-1364 | A value of the grammar inside a text is read to its end, at any depth the limit allows |
| JsonGrammar.ValueTooDeep | thirdparty/cJSON/cJSON.c:1441-1449 | And rejected at any other |
| JsonGrammar.StringIsRead | thirdparty/cJSON/cJSON.c:773-899 | A string of the grammar ends at its closing quote and is read up to its first zero character |
| JsonGrammar.NumberIsRead | thirdparty/cJSON/cJSON.c:305-379 | A number of the grammar of at most 63 characters is read as its value, cut off towards zero and at the ends of int |
| JsonGrammar.StrtodNumeral | thirdparty/cJSON/cJSON.c:305-379 | A numeral with minus, fraction and exponent is taken whole, and its value is that of its decimal digits |
| JsonGrammar.PrintedIsText | thirdparty/cJSON/cJSON.c:1187-1249 | What is printed is a text of that grammar for the value, formatted or not |
| JsonAccepted.TextAccepted | thirdparty/cJSON/cJSON.c:1095-1172 | Nothing else is accepted but texts of the same grammar with looser leaves, within the nesting limit: any character up to the space as space, numerals with leading zeros or a bare point, strings with raw control characters or code units without digits, a byte order mark in front, and, unless a terminator is asked for, anything behind |
| JsonAccepted.ValueAccepted | thirdparty/cJSON/cJSON.c:1312-1364 | What is read as a value is a value of that grammar, nested no deeper than the limit leaves |
| JsonAccepted.StringAccepted | thirdparty/cJSON/cJSON.c:773-899 | What is read as a string ends at its first quote that is not behind a backslash, and stands for what its pieces stand for |
| JsonAccepted.NumberAccepted | thirdparty/cJSON/cJSON.c:305-379 | What is read as a number is a numeral of at most 63 characters with that value |
| JsonLayout.ArrayLayout | thirdparty/cJSON/cJSON.c:1539-1598 | An array is printed on one line: its elements, with a comma, and a space if formatted |
| JsonLayout.ObjectLayout | thirdparty/cJSON/cJSON.c:1714-1825 | A formatted object has a line for each member, indented by a tab for every level, with a tab behind the colon; without formatting only the parts are written |
| JsonPrinter.PrintText | thirdparty/cJSON/cJSON.c:1187-1249 | Succeeds exactly for printable trees whose text has at most INT_MAX - 2 characters, and then returns the text, which JsonGrammar.PrintedIsText and JsonStrings.StringShown describe apart from the printer |
| JsonPrinter.PrintPreallocated | thirdparty/cJSON/cJSON.c:1292-1309 | Succeeds exactly if the buffer has two characters more than the text, and then holds it with its terminator |
| JsonPrinter.Printer.Ensure | thirdparty/cJSON/cJSON.c:439-522 | Room or failure exactly by the size limit; what was written is kept when the buffer moves |
| JsonPrinter.Printer.UpdateOffset | thirdparty/cJSON/cJSON.c:525-535 | The offset ends behind the text just written |
| JsonPrinter.Printer.PrintNumber | thirdparty/cJSON/cJSON.c:545-612 | The decimal digits of an integer |
| JsonPrinter.Printer.PrintString | thirdparty/cJSON/cJSON.c:902-1021 | The quoted and escaped string, in as much room as was counted |
| JsonPrinter.Printer.WriteEscaped | thirdparty/cJSON/cJSON.c:971-1016 | The escapes are written one behind the other |
| JsonPrinter.CountEscapes | thirdparty/cJSON/cJSON.c:926-950 | The number of characters that escaping adds |
| JsonPrinter.Printer.PrintValue | thirdparty/cJSON/cJSON.c:1367-1438 | The text of the value at this depth, written behind what was there; fails exactly for unprintable items or missing room |
| JsonPrinter.Printer.PrintArray | thirdparty/cJSON/cJSON.c:1539-1598 | The text of an array |
| JsonPrinter.Printer.PrintObject | thirdparty/cJSON/cJSON.c:1714-1825 | The text of an object, with its indentation |
| JsonPrinter.SupportedPlain | thirdparty/cJSON/cJSON.c:1367-1438 | What is printed of C strings and ints is within what is read back |
| JsonParser.Parse | thirdparty/cJSON/cJSON.c:1095-1172 | Builds exactly the items that the text stands for, fresh and linked, and reports where parsing ended; null exactly for the texts the grammar function rejects |
| JsonParser.ParseBuffer.ParseValue | thirdparty/cJSON/cJSON.c:1312-1364 | One value into an item, in step with the grammar function |
| JsonParser.ParseBuffer.ParseArray | thirdparty/cJSON/cJSON.c:1441-1536 | A child list of the elements, correctly linked; the nesting limit |
| JsonParser.ParseBuffer.ParseObject | thirdparty/cJSON/cJSON.c:1601-1711 | A child list of the members with their keys |
| JsonParser.ParseBuffer.ParseString | thirdparty/cJSON/cJSON.c:773-899 | The unescaped string, or failure |
| JsonParser.ParseBuffer.Decode | thirdparty/cJSON/cJSON.c:810-877 | Unescapes into a buffer of the size reckoned from the backslashes, which no input overruns |
| JsonParser.ParseBuffer.PutLiteral | thirdparty/cJSON/cJSON.c:652-770 | A \u escape or surrogate pair in UTF-8 |
| JsonParser.PutUtf8 | thirdparty/cJSON/cJSON.c:707-763 | The bytes of a code point |
| JsonParser.ParseBuffer.ParseHex4 | thirdparty/cJSON/cJSON.c:615-648 | Four hexadecimal digits; 0 if one is missing |
| JsonParser.ParseBuffer.ParseNumber | thirdparty/cJSON/cJSON.c:305-379 | The saturated integer of the number that strtod finds |
| JsonParser.ParseBuffer.SkipWhitespace | thirdparty/cJSON/cJSON.c:1038-1061 | Stops at the next character above space, never behind the last character |
| JsonParser.ViewOfParsed | thirdparty/cJSON/cJSON.c:1312-1364 | The items built for a value stand for that value |

## Left out

- Compressor: the fast level-1 parser, the 64-bit emitter and unaligned reads; the portable byte versions are modelled.
- Compressor: only the callback form of output, with a callback that accepts everything; the caller's own output buffer, BAD_PARAM for null pointers and a failing callback are not modelled.
- Compressor: positions are unbounded integers; the code uses them modulo 2^15 or 2^16 and as differences. A compressor started with nondeterministic parsing (hash and dictionary not cleared) is not modelled.
- Codes and sizes of a table are kept as one immutable pair after the table is built, and the radix sort's pairs are split into keys and symbols for the in-place length computation, which uses the keys only.
- Alphabet tables of lengths and distances are functions proved to fit the base and extra tables, not 256- and 512-entry arrays.
- Decompressor: the window is exactly 32768 bytes, as `mz_inflate` uses it; bad parameters, and streams that are neither accepted nor rejected (an incomplete single-symbol code, or a distance beyond the output that only a wrapping window cannot notice), are not modelled.
- Decompressor: the 64-bit bit buffer and the eight-byte copies of the unaligned variant.
- MzInflate.Stream.Inflate: a first call with MZ_FINISH, which decodes straight into the caller's buffer, is the method `MzInflate.InflateAtOnce` instead; calls after it are not modelled.
- ZIP archives: headers, extraction, writing and flags of the search; a directory is a sequence of names, each with a 16-bit length.
- SortList.SortList: the head's prev is left unspecified, as in the code, and the order is stated for items that all have keys (a missing key compares as greater to everything).
- cJSON: valuedouble and rounding. Numbers are ints, and `strtod` is its exact value in real arithmetic, so texts with fractions parse to the integer of the exact value.
- cJSON: raw items, hooks, failing allocation and freeing; sizes of strings beyond 32-bit arithmetic; the position reported for a failed parse.
- JsonParser.Parse: reading one character behind an unterminated buffer (`thirdparty/cJSON/cJSON.c:781` at the end of the content) counts as not finding a quote.
- ChildList.DetachItem, ChildList.ReplaceItem: stated for an item that is a child of the parent, which is what the code assumes.
- Adding to objects, references and case-insensitive member lookup: further callers of the same list operations.
- JSON Patch, merge patch and comparison in cJSON_Utils.
- Transz.Reader.Read: one data source for the lifetime of the cache and fragments that all decode; the cache is keyed by block number only. Null arguments and the scratch buffer's fixed address are not modelled.
- SpiDivisor.SpiResources.SetBusSpeed: other bits of CR0, and the clock lookup, which is a parameter.
- PNG writing, file I/O, time stamps, and all other drivers and clients of the repository.
