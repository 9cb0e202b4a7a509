# Verified models of a camera and control firmware and its components

The firmware streams camera pictures and takes haptic commands over Wi-Fi. Its hard algorithms are in
components it carries along. This project models them in Dafny and proves what they promise.

- **LZ77 compression of zlib** (`Lz77`, `RollingHash`, `HashChains`, `Flushing`, `Compressor`): window, hash chains
  in a ring, match search, lazy matching; the symbols expand to the input in every run, and every stream comes to
  its end.
- **Gzip header writer** (`GzipHeader`, `GzipFormat`): one header, however the output is cut, and a reader that
  gets everything back from it.
- **CRC-32** (`Gf2`, `Gf2Order`, `Crc32`, `Crc32Laws`, `Crc32Engine`): polynomial arithmetic, conditioning and
  residue, the braided loop, combination.
- **Adler-32** (`Adler32`): deferred sums, reduction without division, combination.
- **Buffered gzip reader** (`GzReader`): a cursor over one sequence.
- **JPEG encoder** (`JpegDct`, `JpegCosines`, `JpegZigzag`, `JpegBits`, `JpegHuffman`, `JpegScan`, `JpegTables`,
  `JpegMarkers`, `JpegEncoder`, `JpegPicture`): fixed-point transform, zigzag order, canonical codes, entropy coding,
  marker segments, and a decoder that gets the blocks back from the stream alone.
- **HPACK Huffman table generator** (`HuffmanTree`, `NibbleTable`, `TableGenerator`, `CodeList`, `HpackCodes`,
  `HpackOrder`): four bits at a time equals bit by bit, and what is encoded with the code list of the script comes back.
- **jsmn JSON tokenizer** (`JsonLexer`, `JsonParser`, `JsonStructure`, `JsonDocument`, `JsonPartial`, `Jsmn`): nesting,
  modes, resumption, texts that are cut off, and the tokens of every document.
- **Camera frame ownership** (`CameraFrames`, `CameraRuns`) and **haptic stream** (`HapticStream`): a protocol under all
  interleavings, and framing that does not depend on segmentation.

State that the code changes in place is a class with arrays; its methods are specified by functions on
sequences, and the theorems are about these functions. Checking everything: `dafny verify dfyconfig.toml`.

`Basics` and `BitStrings` hold what several of them share.

One statement that one might expect does not hold of the code: brackets outside strings need not balance after a
successful JSON parse, because a primitive may contain one. `JsonStructure.SwallowedBracket` gives an input, and
`JsonStructure.RawBalancedIffPlain` the exact condition. Others hold of the inputs the program uses and not of all
inputs; the conditions are proved, with an input that fails: the assertion in `_traverse` needs codes of at least
four bits (`NibbleTable.AssertionCondition`, `NibbleTable.AssertionCanFail`), codes made from arbitrary lengths fit
only under the inequality of Kraft (`JpegHuffman.CodesFitIffKraft`, `JpegHuffman.CodesThatDoNotFit`), `adler32_z`
reduces fully from every checksum and from most other words (`Adler32.Adler32Z`, `Adler32.StartTooLarge`), the
loop of `x2nmodp` ends for lengths that are not negative (`Crc32Engine.LoopEndsIff`), and the size of a picture is in
its header if it fits in sixteen bits (`JpegMarkers.SizeReadIff`). The loop of `fill_window` takes one
turn only (`Compressor.State.FillWindow`).

The description of `gzungetc` in `zlib.h` says that a pushed character is discarded by `gzseek`. The code keeps it when
the seek is to where the reader stands in a compressed file; the model follows the code, and
`GzReader.PushedThenSought` says when it happens.

## Model

| member | source | states |
|---|---|---|
| `Compressor.State.Run` | video_transmission/managed_components/espressif__zlib/zlib/deflate.c:946-1255 | Over any sequence of calls, input pieces, kinds of flush and output sizes, with any of the four strategies: what is supplied is the pieces joined, and the emitted symbols always expand to what is done of it; if the last call has room left, Z_FINISH ended the stream and the blocks handed out expand to all of the input, any other flush that was not refused has handed out all input too, and Z_NO_FLUSH has taken it all in |
| `Compressor.State.Deflate` | video_transmission/managed_components/espressif__zlib/zlib/deflate.c:978-1254 | One call takes in exactly its piece and leaves the symbols lossless; Z_STREAM_ERROR and Z_BUF_ERROR are returned in exactly the cases of the code; the stream ends only with everything handed out; Z_FINISH that does not end it used up the room and brought the end nearer; with room left a flush has handed out all input |
| `Compressor.State.LosslessFromInv` | video_transmission/managed_components/espressif__zlib/zlib/deflate.c:1811-2139 | Whatever step a compression function is at, all symbols so far expand to the input read, less lookahead and less the byte held back by lazy matching |
| `Compressor.State.DeflateSupplied` | video_transmission/managed_components/espressif__zlib/zlib/deflate.c:978-1228 | The same of a call on the input that is available, with the duplicate flush, the lack of room and the input after the end as the exact cases of Z_BUF_ERROR |
| `Compressor.State.FinishStream` | video_transmission/managed_components/espressif__zlib/zlib/zlib.h:326-332 | Calling with Z_FINISH until the stream ends does end it, however little room each call has, with all input in blocks that were handed out |
| `Compressor.State.Proceed` | video_transmission/managed_components/espressif__zlib/zlib/deflate.c:1176-1228 | Past the checks a call returns Z_OK or Z_STREAM_END: Z_FINISH ends the stream or used up the room and did something, and with room left any flush has done what it is for |
| `Compressor.State.EndBlock` | video_transmission/managed_components/espressif__zlib/zlib/deflate.c:1200-1224 | After a block that a flush asked for the marker is put, a full flush forgets the history, and as much as there is room for is handed out |
| `Compressor.State.FlushPending` | video_transmission/managed_components/espressif__zlib/zlib/deflate.c:915-932 | As many bytes as there are and as there is room for are handed out, and counted once |
| `Compressor.State.ForgetHistory` | video_transmission/managed_components/espressif__zlib/zlib/deflate.c:1211-1217 | With no lookahead a full flush restarts at the bottom of the window; the dictionary is sound again because nothing old can be reached |
| `Compressor.State.DeflateSlow` | video_transmission/managed_components/espressif__zlib/zlib/deflate.c:1910-2030 | The lazy strategy keeps the invariant over every turn, refill and window slide; it stops only for lack of room, after progress if the stream is to end, for lack of input with Z_NO_FLUSH, or when nothing is left unflushed |
| `Compressor.State.SlowStep` | video_transmission/managed_components/espressif__zlib/zlib/deflate.c:1929-2014 | One turn, exactly: the earlier match is emitted with its true distance if no longer one is found here, else the byte held back, if any, as a literal; what is found is the longest match of the chain within reach and budget, except that short ones may be dropped |
| `Compressor.State.SlowSearch` | video_transmission/managed_components/espressif__zlib/zlib/deflate.c:1932-1963 | The match found one byte earlier is kept as it was; a search is made exactly if the head of the chain is within MAX_DIST and the earlier match is below max_lazy; what it finds is a true match and, unless nice_match cuts it short, the longest within the budget |
| `Compressor.State.FindLonger` | video_transmission/managed_components/espressif__zlib/zlib/deflate.c:1948-1962 | A search, after which a match of up to five bytes is dropped under Z_FILTERED, and one of three bytes if it is farther than TOO_FAR |
| `Compressor.State.EmitPrevious` | video_transmission/managed_components/espressif__zlib/zlib/deflate.c:1967-1992 | The symbol added is the earlier match with its true distance, even if its start has slid to index -1, which the 32-bit subtraction absorbs |
| `Compressor.State.SkipPrevious` | video_transmission/managed_components/espressif__zlib/zlib/deflate.c:1981-1990 | The strings along the match are inserted as far as they lie in the input, and the dictionary stays sound |
| `Compressor.State.Defer` | video_transmission/managed_components/espressif__zlib/zlib/deflate.c:1994-2014 | The decision on the current byte is put off with the match, if any, remembered as a true one |
| `Compressor.State.EmitHeld` | video_transmission/managed_components/espressif__zlib/zlib/deflate.c:2017-2021 | The byte held back at the end of the input becomes a literal |
| `Compressor.State.DeflateFast` | video_transmission/managed_components/espressif__zlib/zlib/deflate.c:1811-1902 | The greedy strategy keeps the invariant; it stops only for lack of room, after progress if the stream is to end, for lack of input with Z_NO_FLUSH, or when nothing is left unflushed |
| `Compressor.State.FastStep` | video_transmission/managed_components/espressif__zlib/zlib/deflate.c:1829-1891 | One turn adds one symbol: a copy of the longest match of the chain within reach and budget, or the literal if there is none of three bytes |
| `Compressor.State.FastSearch` | video_transmission/managed_components/espressif__zlib/zlib/deflate.c:1832-1847 | A match that is kept is a true match, no longer than lookahead and within MAX_DIST; if the head of the chain is within MAX_DIST, it is the longest of the chain within the budget unless nice_match cuts the search short |
| `Compressor.State.SkipMatch` | video_transmission/managed_components/espressif__zlib/zlib/deflate.c:1854-1884 | After a match the rolling key and the dictionary are right for the next string on both branches |
| `Compressor.State.DeflateRle` | video_transmission/managed_components/espressif__zlib/zlib/deflate.c:2038-2103 | The run-length strategy keeps the invariant; it stops only for lack of room, after progress if the stream is to end, for lack of input with Z_NO_FLUSH, or when nothing is left unflushed |
| `Compressor.State.RleStep` | video_transmission/managed_components/espressif__zlib/zlib/deflate.c:2045-2093 | One turn adds one symbol: a copy of the longest run of the byte before, or the literal if it has fewer than three bytes |
| `Compressor.State.FindRun` | video_transmission/managed_components/espressif__zlib/zlib/deflate.c:2056-2076 | The run found repeats the byte before it, and no longer one fits MAX_MATCH and lookahead |
| `Compressor.State.DeflateHuff` | video_transmission/managed_components/espressif__zlib/zlib/deflate.c:2109-2139 | The literal strategy keeps the invariant; it stops only for lack of room, after progress if the stream is to end, for lack of input with Z_NO_FLUSH, or when nothing is left unflushed |
| `Compressor.State.LongestMatch` | video_transmission/managed_components/espressif__zlib/zlib/deflate.c:1348-1489 | A result above prev_length is a byte-for-byte match at distance 1 to MAX_DIST and no longer than lookahead; unless lookahead or nice_match cuts it short, no entry of the chain within the budget and above the limit matches longer |
| `Compressor.State.SearchChain` | video_transmission/managed_components/espressif__zlib/zlib/deflate.c:1349-1485 | The entries tried all have the same key and lie above the limit; the best length and its start belong together; unless it is nice, the best is the longest among all entries within the budget |
| `Compressor.State.NextEntry` | video_transmission/managed_components/espressif__zlib/zlib/deflate.c:1484-1485 | The next entry lies above the limit and has the same key; the search ends exactly at the end of the chain within reach or of the budget, the counter wrapping at zero |
| `Compressor.State.TryCandidate` | video_transmission/managed_components/espressif__zlib/zlib/deflate.c:1440-1470 | An entry that passes the end checks is compared in full; an entry that would beat the best is not missed |
| `Compressor.State.CompareStrings` | video_transmission/managed_components/espressif__zlib/zlib/deflate.c:1452-1468 | The unrolled loop gives the exact length of the common prefix, capped at MAX_MATCH, without reading past the window |
| `Compressor.State.ThirdByteMatches` | video_transmission/managed_components/espressif__zlib/zlib/deflate.c:1446-1453 | Two equal bytes and an equal key force the third byte, so it need not be compared |
| `Compressor.State.FillWindow` | video_transmission/managed_components/espressif__zlib/zlib/deflate.c:251-368 | The loop takes exactly one turn; on return the window holds the latest input, strstart leaves room for a search, the bytes a search may look at are initialised, and the window is full or the input is used up |
| `Compressor.State.FillRound` | video_transmission/managed_components/espressif__zlib/zlib/deflate.c:258-330 | A slide and a read keep every absolute position, and the distance of a pending match |
| `Compressor.State.SlideWindow` | video_transmission/managed_components/espressif__zlib/zlib/deflate.c:277-287 | The upper half moves down; the window, the dictionary and the strings left to insert still describe the same input |
| `Compressor.State.SlideHash` | video_transmission/managed_components/espressif__zlib/zlib/deflate.c:187-209 | Every entry of head and prev drops by the window size, or to NIL |
| `Compressor.State.ReadBuf` | video_transmission/managed_components/espressif__zlib/zlib/deflate.c:218-239 | As much input as fits is appended to the window and taken from the caller |
| `Compressor.State.InitKey` | video_transmission/managed_components/espressif__zlib/zlib/deflate.c:307-325 | The key restarts from two bytes and the strings left over from the previous input are inserted |
| `Compressor.State.ReadMore` | video_transmission/managed_components/espressif__zlib/zlib/deflate.c:301-325 | Each read has room for at least two bytes and takes exactly the smaller of that room and the input; the dictionary is brought up to date |
| `Compressor.State.ZeroAhead` | video_transmission/managed_components/espressif__zlib/zlib/deflate.c:339-364 | The bytes behind the data that a search may look at are initialised |
| `Compressor.State.InsertString` | video_transmission/managed_components/espressif__zlib/zlib/deflate.c:160-163 | The new string heads its chain, the chain below holds earlier strings of the same key, and the rolling key is ready for the next string |
| `Compressor.State.EmitCopy` | video_transmission/managed_components/espressif__zlib/zlib/deflate.h:340-370 | A true match recorded in those widths extends the expansion by exactly the matched bytes |
| `Compressor.State.FlushBlockOnly` | video_transmission/managed_components/espressif__zlib/zlib/deflate.c:1589-1604 | The flushed symbols expand to the text from block_start, which is what is passed as the stored alternative when it is still in the window; as much output as there is room for is handed out |
| `Compressor.State.constructor` | video_transmission/managed_components/espressif__zlib/zlib/deflate.c:379-523 | A new state satisfies the invariant for all window sizes and memory levels |
| `RollingHash.Rolling` | video_transmission/managed_components/espressif__zlib/zlib/deflate.c:135-141 | A key that is right for one string is right for the next after one update: the oldest byte drops out, for all settings of deflateInit2_ |
| `RollingHash.ThirdByte` | video_transmission/managed_components/espressif__zlib/zlib/deflate.c:1446-1453 | Keys of strings with equal first two bytes are equal only if the third bytes are |
| `RollingHash.KeyInTable` | video_transmission/managed_components/espressif__zlib/zlib/deflate.c:141-164 | Every key is an index of the head table |
| `HashChains.InsertKeeps` | video_transmission/managed_components/espressif__zlib/zlib/deflate.c:160-163 | Inserting a string keeps every head and every live link of the ring naming a string of the right key |
| `HashChains.SlideKeeps` | video_transmission/managed_components/espressif__zlib/zlib/deflate.c:187-209 | After a slide all surviving entries name the same strings at lower indices |
| `HashChains.ChainStep` | video_transmission/managed_components/espressif__zlib/zlib/deflate.c:1484-1485 | A link above the limit leads to an earlier string of the same key although slots of the ring are reused |
| `HashChains.SlotIsMask` | video_transmission/managed_components/espressif__zlib/zlib/deflate.c:156-163 | index & w_mask, bit by bit, is the place of a string in the ring, for every window size that is a power of two |
| `HashChains.SlotIsRemainder` | video_transmission/managed_components/espressif__zlib/zlib/deflate.c:156-163 | That place is the index modulo the window size |
| `Compressor.WindowSizeIsPower` | video_transmission/managed_components/espressif__zlib/zlib/deflate.c:386-442 | The window has two to the window bits bytes, at least two to the ninth, so that masking works |
| `Compressor.MemLevelSizes` | video_transmission/managed_components/espressif__zlib/zlib/deflate.c:444-455 | The symbol buffer, the head table, its mask and the shift of the rolling key follow from the memory level |
| `Flushing.RankOrders` | video_transmission/managed_components/espressif__zlib/zlib/deflate.c:132-133 | RANK orders the flush parameters by how much they flush, above the marks for no call and for an interrupted one |
| `HashChains.ForgetKeeps` | video_transmission/managed_components/espressif__zlib/zlib/deflate.c:170-175 | With a cleared head table no stale link can be reached |
| `Lz77.CopyReproduces` | video_transmission/managed_components/espressif__zlib/zlib/deflate.c:1557-1577 | Copying back by distance and length, overlap included, reproduces a match (section 3.2.5 of RFC 1951) |
| `Lz77.CopyExtends` | video_transmission/managed_components/espressif__zlib/zlib/deflate.c:1971-1974 | A true match appended as a symbol extends the expansion by the matched bytes |
| `Crc32Engine.Tables.Crc32Z` | video_transmission/managed_components/espressif__zlib/zlib/crc32.c:694-1010 | For every start value, length and alignment the braided loop, its last block and the byte loops give the bit-by-bit CRC; no buffer gives 0 |
| `Crc32Engine.Tables.Blocks` | video_transmission/managed_components/espressif__zlib/zlib/crc32.c:721-858 | The braided loop over any number of whole blocks, at least one, is the byte-wise register |
| `Crc32Engine.Tables.BraidWord` | video_transmission/managed_components/espressif__zlib/zlib/crc32.c:799-834 | Four table lookups move a word on by a whole block |
| `Crc32Engine.Tables.JoinBraids` | video_transmission/managed_components/espressif__zlib/zlib/crc32.c:837-858 | Running the last block word by word brings the five braids together |
| `Crc32Engine.Tables.CrcWord` | video_transmission/managed_components/espressif__zlib/zlib/crc32.c:676-681 | The CRC of one word is the register moved on by 32 bits |
| `Crc32Engine.Tables.constructor` | video_transmission/managed_components/espressif__zlib/zlib/crc32.c:310-334 | The tables hold what their definitions say: bytes moved by 8 bits, the powers x^(2^n), and bytes moved by a block |
| `Crc32Engine.Tables.MakeBraidRow` | video_transmission/managed_components/espressif__zlib/zlib/crc32.c:528-541 | A row of the braid table is each byte at the top moved on by the row exponent; the other rows stay |
| `Crc32Engine.MultModP` | video_transmission/managed_components/espressif__zlib/zlib/crc32.c:155-170 | For a nonzero first factor the loop terminates and is multiplication modulo p |
| `Crc32Engine.Tables.X2NModP` | video_transmission/managed_components/espressif__zlib/zlib/crc32.c:176-187 | x^(n 2^k) modulo p for all n and k, the table index wrapping at 32 |
| `Crc32Engine.LoopEndsIff` | video_transmission/managed_components/espressif__zlib/zlib/crc32.c:179-185 | The loop ends exactly for lengths that are not negative: a negative number shifted right stays negative |
| `Crc32Engine.Tables.CombineGen64` | video_transmission/managed_components/espressif__zlib/zlib/crc32.c:1034-1039 | The operator is x^(8 len2) and never zero |
| `Crc32Engine.Tables.Combine64` | video_transmission/managed_components/espressif__zlib/zlib/crc32.c:1021-1049 | The checksum of a joined text from the checksums of its parts, for every length |
| `Crc32.BraidStep` | video_transmission/managed_components/espressif__zlib/zlib/crc32.c:775-834 | One block of words, moved on by a block and added to the next, replaces both: what the braids rely on |
| `Crc32.CrcConcat` | video_transmission/managed_components/espressif__zlib/zlib/crc32.c:694-1010 | Updating over one text and then another is updating over both |
| `Crc32Laws.Conditioning` | video_transmission/managed_components/espressif__zlib/zlib/crc32.c:704-1009 | From start 0 the checksum of four bytes or more is the plain register over them with the first four inverted, inverted: what the two exclusive-ors mean |
| `Crc32Laws.Residue` | video_transmission/managed_components/espressif__zlib/zlib/crc32.c:704-1009 | A text followed by its checksum, low byte first, has the checksum 0x2144df1c, whatever the text |
| `Crc32Laws.BurstDetected` | video_transmission/managed_components/espressif__zlib/zlib/crc32.c:694-1010 | Two texts of equal length that differ only within four bytes next to each other have different checksums, from any start |
| `Crc32.CombineFormula` | video_transmission/managed_components/espressif__zlib/zlib/crc32.c:1021-1026 | The checksum of a joined text is the first one moved past the second text, plus the second |
| `Crc32.TableStep` | video_transmission/managed_components/espressif__zlib/zlib/crc32.c:716-719 | The byte-wise table step does what eight bit steps do |
| `Crc32.LoadStep` | video_transmission/managed_components/espressif__zlib/zlib/crc32.c:780-797 | Four byte steps are one step with a little-endian word |
| `Gf2Order.FullPeriod` | video_transmission/managed_components/espressif__zlib/zlib/crc32.c:176-187 | x^(2^32) = x modulo p, so that powers may be taken modulo 32 in the exponent of two |
| `Gf2Order.PowersWrap` | video_transmission/managed_components/espressif__zlib/zlib/crc32.c:182-183 | x^(2^k) depends only on k modulo 32 |
| `Gf2.XNonzero` | video_transmission/managed_components/espressif__zlib/zlib/crc32.c:155-170 | No power of x is zero modulo p |
| `GzipHeader.Writer.Run` | video_transmission/managed_components/espressif__zlib/zlib/deflate.c:1031-1173 | For every sequence of calls, output sizes and kinds of flush the bytes handed out are the one header, cut after the room there was in all |
| `GzipHeader.Writer.Call` | video_transmission/managed_components/espressif__zlib/zlib/deflate.c:960-1173 | A call with room hands out exactly that much more of the header or all that is left, is never refused, and the status only moves forward |
| `GzipHeader.Writer.FlushPending` | video_transmission/managed_components/espressif__zlib/zlib/deflate.c:915-932 | The bytes put are kept in order; either all are handed out or the room is used up |
| `GzipHeader.Writer.HcrcUpdate` | video_transmission/managed_components/espressif__zlib/zlib/deflate.c:938-943 | If the header CRC has seen the bytes before beg, it has now seen all, each once |
| `GzipHeader.Writer.WritePlain` | video_transmission/managed_components/espressif__zlib/zlib/deflate.c:1031-1055 | Without a gz_header the ten fixed bytes are the header |
| `GzipHeader.Writer.WriteFixed` | video_transmission/managed_components/espressif__zlib/zlib/deflate.c:1031-1080 | The fixed bytes and the length of the extra field, all seen by the header CRC |
| `GzipHeader.Writer.ExtraChunk` | video_transmission/managed_components/espressif__zlib/zlib/deflate.c:1086-1100 | A full pending buffer takes the next part of the extra field, and a call that stops here knows where to go on |
| `GzipHeader.Writer.WriteExtra` | video_transmission/managed_components/espressif__zlib/zlib/deflate.c:1082-1108 | The extra field is put once, over any number of calls |
| `GzipHeader.Writer.WriteString` | video_transmission/managed_components/espressif__zlib/zlib/deflate.c:1110-1148 | A string and its terminator are put once, over any number of calls |
| `GzipHeader.Writer.WriteCrc` | video_transmission/managed_components/espressif__zlib/zlib/deflate.c:1152-1173 | The header CRC field is the low half of the CRC of all bytes before it |
| `GzipHeader.TargetIsPrefix` | video_transmission/managed_components/espressif__zlib/zlib/deflate.c:1031-1173 | Every point at which a call can stop is a prefix of the same header (section 2.3 of RFC 1952) |
| `GzipFormat.HeaderReadBack` | video_transmission/managed_components/espressif__zlib/zlib/deflate.c:1031-1173 | A reader of section 2.3.1 of RFC 1952 gets from the header, whatever follows, exactly the text flag, the time, best or fastest, the system, the extra field, name and comment asked for, with the CRC16 checked, and what follows |
| `GzipFormat.FlagBits` | video_transmission/managed_components/espressif__zlib/zlib/deflate.c:1057-1062 | Each optional field has the flag bit of its own |
| `GzipFormat.HeaderIsMagic` | video_transmission/managed_components/espressif__zlib/zlib/gzread.c:122-128 | The header is what the gzip reader takes for a member |
| `JpegDct.Dct2D` | video_transmission/managed_components/espressif__esp32-camera/conversions/jpge.cpp:134-148 | For all samples in -128..127: no int32 overflows, no int16 cast truncates, the result is the two-dimensional fixed-point transform, and every coefficient is in the range of the entropy coder |
| `JpegDct.Dct1D` | video_transmission/managed_components/espressif__esp32-camera/conversions/jpge.cpp:116-132 | The factored butterflies compute the eight rows of the transform matrix exactly, within bounds linear in the span of the input |
| `JpegDct.OddPart` | video_transmission/managed_components/espressif__esp32-camera/conversions/jpge.cpp:124-132 | The shared products of the odd half add up to the four odd rows, and every partial sum fits |
| `JpegDct.EvenPart` | video_transmission/managed_components/espressif__esp32-camera/conversions/jpge.cpp:120-132 | The even half adds up to the four even rows, and every partial sum fits |
| `JpegDct.Quantize` | video_transmission/managed_components/espressif__esp32-camera/conversions/jpge.cpp:391-404 | The nearest multiple of the quantizer, ties away from zero |
| `JpegDct.LoadQuantized` | video_transmission/managed_components/espressif__esp32-camera/conversions/jpge.cpp:384-407 | Scan position k holds the coefficient at s_zag[k], quantized to the nearest multiple, and stays encodable |
| `JpegZigzag.ZagIsWalk` | video_transmission/managed_components/espressif__esp32-camera/conversions/jpge.cpp:45 | s_zag is the walk of section A.3.6 of ITU-T T.81: along the anti-diagonals, up where row plus column is even and down where it is odd, turning at the edges |
| `JpegZigzag.WalkIsBijection` | video_transmission/managed_components/espressif__esp32-camera/conversions/jpge.cpp:45 | The walk meets every row and column exactly once |
| `JpegZigzag.MetByZag` | video_transmission/managed_components/espressif__esp32-camera/conversions/jpge.cpp:384-407 | The place of a row and column in that walk, defined without the table, is where the coder puts the coefficient |
| `JpegCosines.RowsNearlyOrthonormal` | video_transmission/managed_components/espressif__esp32-camera/conversions/jpge.cpp:116-132 | The rows of the fixed-point matrix have length one and are orthogonal up to the rounding of its constants |
| `JpegCosines.RowFrequency` | video_transmission/managed_components/espressif__esp32-camera/conversions/jpge.cpp:116-132 | The row of index k changes sign exactly k times |
| `JpegCosines.TransformNear` | video_transmission/managed_components/espressif__esp32-camera/conversions/jpge.cpp:134-148 | Every coefficient is within five eighths of the exact product of the block with two rows of the matrix, scaled: what two roundings to the nearest can do |
| `JpegCosines.FormIsDot` | video_transmission/managed_components/espressif__esp32-camera/conversions/jpge.cpp:116-132 | What the butterflies compute for an index is the product with that row |
| `JpegHuffman.ComputeHuffmanTable` | video_transmission/managed_components/espressif__esp32-camera/conversions/jpge.cpp:151-184 | Each listed symbol gets the canonical code of its place, the last one if it is listed twice, and all others size 0 |
| `JpegHuffman.AssignCodes` | video_transmission/managed_components/espressif__esp32-camera/conversions/jpge.cpp:168-176 | Each code, scaled to 16 bits, starts where the codes before it end; every code is at most 2^23, and the running code is a 32-bit number throughout |
| `JpegHuffman.ComputeSizes` | video_transmission/managed_components/espressif__esp32-camera/conversions/jpge.cpp:158-166 | The lengths are listed in increasing order and closed by a zero |
| `JpegHuffman.CodesFitIffKraft` | video_transmission/managed_components/espressif__esp32-camera/conversions/jpge.cpp:168-176 | All codes fit their lengths exactly when the lengths satisfy the inequality of Kraft |
| `JpegHuffman.CodesThatDoNotFit` | video_transmission/managed_components/espressif__esp32-camera/conversions/jpge.cpp:168-176 | Three codes of one bit: the third does not fit, and the inequality fails |
| `JpegHuffman.CanonicalIsPrefixFree` | video_transmission/managed_components/espressif__esp32-camera/conversions/jpge.cpp:151-184 | For any lengths that satisfy the inequality of Kraft no code word begins another |
| `JpegTables.AllProper` | video_transmission/managed_components/espressif__esp32-camera/conversions/jpge.cpp:48-69 | The four standard tables satisfy the inequality and list as many symbols as codes |
| `JpegTables.AcLumaCovered` | video_transmission/managed_components/espressif__esp32-camera/conversions/jpge.cpp:50-58 | The luminance AC table has a code for every run of 0 to 15 with a size of 1 to 10, for the end of a block and for sixteen zeros |
| `JpegTables.AcChromaCovered` | video_transmission/managed_components/espressif__esp32-camera/conversions/jpge.cpp:61-69 | The chrominance AC table has a code for the same symbols |
| `JpegTables.DcCovered` | video_transmission/managed_components/espressif__esp32-camera/conversions/jpge.cpp:48-60 | The DC tables have a code for every size from 0 to 11 |
| `JpegTables.TableHolds` | video_transmission/managed_components/espressif__esp32-camera/conversions/jpge.cpp:178-184 | Every symbol of the canonical book has a nonzero size of at most 16 in the table, and its code is the word of the book |
| `JpegTables.BuildTable` | video_transmission/managed_components/espressif__esp32-camera/conversions/jpge.cpp:151-184 | The computed table agrees with the canonical book of the two lists, which is prefix-free |
| `JpegTables.BookIsUnique` | video_transmission/managed_components/espressif__esp32-camera/conversions/jpge.cpp:151-184 | There is only one canonical book for two lists |
| `JpegScan.CategoryBounds` | video_transmission/managed_components/espressif__esp32-camera/conversions/jpge.cpp:430-465 | Coefficients need at most 10 bits and differences of means at most 11 |
| `JpegScan.ExtendUndoes` | video_transmission/managed_components/espressif__esp32-camera/conversions/jpge.cpp:430-442 | The low bits written for a value, of v or of v - 1, decode to it (EXTEND, section F.2.2.1 of ITU-T T.81) |
| `JpegScan.AcReadBack` | video_transmission/managed_components/espressif__esp32-camera/conversions/jpge.cpp:444-470 | Run lengths, sixteen-zero symbols, magnitudes and the end of block decode to the same coefficients, whatever follows |
| `JpegScan.BlockReadBack` | video_transmission/managed_components/espressif__esp32-camera/conversions/jpge.cpp:409-471 | A coded block decodes to itself given the same prediction |
| `JpegScan.ScanReadBack` | video_transmission/managed_components/espressif__esp32-camera/conversions/jpge.cpp:409-471 | A scan of any blocks and components decodes to these blocks, and the decoder stops where the scan ends |
| `JpegBits.StuffingUndone` | video_transmission/managed_components/espressif__esp32-camera/conversions/jpge.cpp:203-216 | Removing stuffed zeros gives back the packed bytes and finds the first marker |
| `JpegBits.StuffHasNoMarker` | video_transmission/managed_components/espressif__esp32-camera/conversions/jpge.cpp:207-216 | No 0xFF of the scan is followed by anything but zero |
| `JpegEncoder.Encoder.PutBits` | video_transmission/managed_components/espressif__esp32-camera/conversions/jpge.cpp:203-216 | For at most 16 bits that fit their length, the scan grows by exactly these bits; bytes already sent stay above the 24 low bits and are ignored |
| `JpegEncoder.Encoder.EmitByte` | video_transmission/managed_components/espressif__esp32-camera/conversions/jpge.cpp:195-201 | One more byte is emitted; what the stream took plus the buffer is what was emitted, as long as no write failed |
| `JpegEncoder.Encoder.FlushOutputBuffer` | video_transmission/managed_components/espressif__esp32-camera/conversions/jpge.cpp:186-193 | The buffer goes to the stream once, and after a failed write nothing more does; all is well exactly if every write was accepted |
| `JpegEncoder.Encoder.CodeDc` | video_transmission/managed_components/espressif__esp32-camera/conversions/jpge.cpp:430-442 | The difference of means is written with its size and low bits |
| `JpegEncoder.Encoder.CodeAc` | video_transmission/managed_components/espressif__esp32-camera/conversions/jpge.cpp:444-470 | The loop writes the run-length code of all other coefficients |
| `JpegEncoder.Encoder.CodeCoefficientsPassTwo` | video_transmission/managed_components/espressif__esp32-camera/conversions/jpge.cpp:409-471 | One more block of the component is in the scan, with the prediction updated; every symbol used has a code |
| `JpegEncoder.Encoder.CodeBlock` | video_transmission/managed_components/espressif__esp32-camera/conversions/jpge.cpp:473-478 | What is coded is the quantized transform of the samples: at the place where the zigzag walk meets a row and column stands the nearest multiple of their coefficient |
| `JpegEncoder.Encoder.EmitHeader` | video_transmission/managed_components/espressif__esp32-camera/conversions/jpge.cpp:649-657 | The markers of the picture are emitted before the scan and become part of the stream |
| `JpegEncoder.Encoder.EmitDht` | video_transmission/managed_components/espressif__esp32-camera/conversions/jpge.cpp:276-292 | The loops add up the counts and write the segment of one Huffman table |
| `JpegEncoder.Encoder.EmitSof` | video_transmission/managed_components/espressif__esp32-camera/conversions/jpge.cpp:259-273 | The frame header with size, sampling and tables of every component |
| `JpegMarkers.HeaderReadBack` | video_transmission/managed_components/espressif__esp32-camera/conversions/jpge.cpp:649-655 | A reader of marker segments gets from the header the JFIF marker, all quantization and Huffman tables, the size modulo 65536, the components and the tables they use, and finds the scan behind it |
| `JpegMarkers.HuffRead` | video_transmission/managed_components/espressif__esp32-camera/conversions/jpge.cpp:276-292 | A table segment is read back as the same counts and symbols under the same destination |
| `JpegMarkers.SizeReadIff` | video_transmission/managed_components/espressif__esp32-camera/conversions/jpge.cpp:218-221 | A decoder sees the true size exactly when width and height fit in sixteen bits |
| `JpegMarkers.OrderReadBack` | video_transmission/managed_components/espressif__esp32-camera/conversions/jpge.cpp:480-513 | From the header of a picture whose size fits in sixteen bits a decoder knows how many blocks of which component come in which order |
| `JpegEncoder.BooksFound` | video_transmission/managed_components/espressif__esp32-camera/conversions/jpge.cpp:295-303 | The canonical books of the tables in the header, as far as the scan selects them, are the books that the coder used |
| `JpegEncoder.StreamDecodes` | video_transmission/managed_components/espressif__esp32-camera/conversions/jpge.cpp:649-676 | From header, scan and end marker alone a decoder gets every block, whatever canonical books it builds from the tables |
| `JpegPicture.EncodePicture` | video_transmission/managed_components/espressif__esp32-camera/conversions/jpge.cpp:569-676 | A picture line by line to the end: it succeeds exactly if every write was accepted, and then the stream alone gives back blocks that, undone by the zigzag walk, are for every row and column the nearest multiple of the transform of the samples, in the order a decoder expects if the size fits in sixteen bits |
| `JpegPicture.StreamIsImage` | video_transmission/managed_components/espressif__esp32-camera/driver/cam_hal.c:45-73 | What the encoder writes begins with the start marker and ends with the end marker that the camera driver looks for |
| `JpegPicture.ProcessMcuRow` | video_transmission/managed_components/espressif__esp32-camera/conversions/jpge.cpp:480-513 | A row adds the blocks of its MCUs, in order |
| `JpegPicture.CodeMcu` | video_transmission/managed_components/espressif__esp32-camera/conversions/jpge.cpp:480-513 | The blocks of one MCU come in the order of its sampling |
| `JpegEncoder.Encoder.ProcessEndOfImage` | video_transmission/managed_components/espressif__esp32-camera/conversions/jpge.cpp:671-676 | If no write failed the stream is what came before the scan, the stuffed scan padded with fewer than eight ones, and the end marker; a decoder gets every block back, and from the stream alone if the header came before it |
| `JpegEncoder.Encoder.constructor` | video_transmission/managed_components/espressif__esp32-camera/conversions/jpge.cpp:627-647 | The coder uses the canonical books of the standard tables, which are those of the picture, and they are usable |
| `NibbleTable.TableDecodes` | video_transmission/managed_components/espressif__nghttp/nghttp2/mkhufftbl.py:326-409 | For a full tree of 257 codes of at least four bits the printed table, run over any nibbles, gives the symbols of bit-by-bit decoding, fails exactly when EOS is decoded, and accepts exactly when at most seven ones are unfinished |
| `NibbleTable.AssertionCondition` | video_transmission/managed_components/espressif__nghttp/nghttp2/mkhufftbl.py:337-342 | The assertion of _traverse can never fail if and only if no code is shorter than four bits |
| `NibbleTable.AssertionCanFail` | video_transmission/managed_components/espressif__nghttp/nghttp2/mkhufftbl.py:337-342 | With two codes of one bit the assertion fails |
| `NibbleTable.WalkDecodes` | video_transmission/managed_components/espressif__nghttp/nghttp2/mkhufftbl.py:326-347 | The entry for four bits is what decoding these bits gives |
| `NibbleTable.TraverseSelects` | video_transmission/managed_components/espressif__nghttp/nghttp2/mkhufftbl.py:326-347 | The entries are in the order of the nibbles: entry n is the walk along the bits of n |
| `NibbleTable.SizeFromLeaves` | video_transmission/managed_components/espressif__nghttp/nghttp2/mkhufftbl.py:314-324 | A full tree has one inner node fewer than leaves: 257 symbols give the ids 0 to 255, and 256 is free for the fail state |
| `NibbleTable.RowOfId` | video_transmission/managed_components/espressif__nghttp/nghttp2/mkhufftbl.py:362-387 | The row printed at the place of an id is the row of the node with that id |
| `NibbleTable.NibbleStep` | video_transmission/managed_components/espressif__nghttp/nghttp2/mkhufftbl.py:362-387 | One lookup with its flags does what four bits do, from every state |
| `TableGenerator.Generate` | video_transmission/managed_components/espressif__nghttp/nghttp2/mkhufftbl.py:314-409 | For a full tree without short codes, numbering the nodes, building the transitions and printing them in place yields its table |
| `TableGenerator.Node.AddCode` | video_transmission/managed_components/espressif__nghttp/nghttp2/mkhufftbl.py:296-309 | Adding a code changes the tree in place into the tree with that code, and creates only new nodes |
| `TableGenerator.InsertTerm` | video_transmission/managed_components/espressif__nghttp/nghttp2/mkhufftbl.py:296-309 | Adding a code gives its path the symbol and changes no other path |
| `TableGenerator.Node.SetNodeId` | video_transmission/managed_components/espressif__nghttp/nghttp2/mkhufftbl.py:314-321 | Inner nodes are numbered in preorder and marked accepting when the path is at most seven ones |
| `TableGenerator.TraverseNode` | video_transmission/managed_components/espressif__nghttp/nghttp2/mkhufftbl.py:326-347 | The transitions appended to the start node are those of the tree, in order |
| `TableGenerator.BuildTransitions` | video_transmission/managed_components/espressif__nghttp/nghttp2/mkhufftbl.py:349-354 | Every node of the tree gets its transitions, and nothing else changes |
| `CodeList.ListIsUsable` | video_transmission/managed_components/espressif__nghttp/nghttp2/mkhufftbl.py:296-312 | Adding a complete, prefix-free list of 257 codes of at least four bits makes a full tree with 257 leaves |
| `CodeList.EncodedComesBack` | video_transmission/managed_components/espressif__nghttp/nghttp2/mkhufftbl.py:326-409 | Symbols encoded with these codes and padded with at most seven ones of EOS come back when the table runs over the nibbles, and the run is accepted |
| `CodeList.NodesArePrefixes` | video_transmission/managed_components/espressif__nghttp/nghttp2/mkhufftbl.py:296-309 | The nodes of the tree are the beginnings of the codes |
| `CodeList.TermsAreCodes` | video_transmission/managed_components/espressif__nghttp/nghttp2/mkhufftbl.py:296-309 | A node has a symbol exactly at the end of a code, and it is the symbol of that code |
| `CodeList.GenerateFromCodes` | video_transmission/managed_components/espressif__nghttp/nghttp2/mkhufftbl.py:296-409 | From such a list the script prints the table of its tree |
| `HpackCodes.ScriptListIsUsable` | video_transmission/managed_components/espressif__nghttp/nghttp2/mkhufftbl.py:15-273 | The 257 codes of the script are prefix-free, complete and at least four bits long, so that the table is right for them |
| `HpackCodes.ListIsPrefixFree` | video_transmission/managed_components/espressif__nghttp/nghttp2/mkhufftbl.py:15-273 | No code of the script begins another |
| `HpackCodes.ListIsComplete` | video_transmission/managed_components/espressif__nghttp/nghttp2/mkhufftbl.py:15-273 | Every string of at least thirty bits begins with a code of the script |
| `HpackOrder.ListIsCanonical` | video_transmission/managed_components/espressif__nghttp/nghttp2/mkhufftbl.py:15-273 | The words are in the order of their length and, among equal lengths, of their symbols, so that the lengths determine them (appendix B of RFC 7541) |
| `HpackCodes.OctetsComeBack` | video_transmission/managed_components/espressif__nghttp/nghttp2/mkhufftbl.py:326-430 | Any octets, encoded with the codes of the script and padded with at most seven ones, come back when its table runs over the nibbles |
| `HpackCodes.GenerateTable` | video_transmission/managed_components/espressif__nghttp/nghttp2/mkhufftbl.py:411-468 | With its own list the script prints the table of the tree of that list |
| `Adler32.Adler32Z` | video_transmission/managed_components/espressif__zlib/zlib/adler32.c:61-125 | For every start word and length both halves are right modulo 65521 and no sum leaves 32 bits; the result is the checksum of RFC 1950 unless one byte follows a second sum so large that one subtraction does not reduce it, which never happens from a checksum |
| `Adler32.StartTooLarge` | video_transmission/managed_components/espressif__zlib/zlib/adler32.c:70-78 | A start word for which one byte leaves the second sum too large |
| `Adler32.NmaxIsLargest` | video_transmission/managed_components/espressif__zlib/zlib/adler32.c:10-12 | 5552 is the largest number of bytes after which the second sum is sure to fit 32 bits from a reduced start, and it is small enough for every 16-bit start |
| `Adler32.Do1` | video_transmission/managed_components/espressif__zlib/zlib/adler32.c:14 | Within NMAX bytes a step of the deferred sums cannot overflow and stands for a step of the definition |
| `Adler32.FewBytes` | video_transmission/managed_components/espressif__zlib/zlib/adler32.c:84-94 | For fewer than 16 bytes one subtraction reduces the first sum |
| `Adler32.OneByte` | video_transmission/managed_components/espressif__zlib/zlib/adler32.c:70-78 | For one byte a subtraction reduces the first sum always and the second exactly if it stays below twice 65521 |
| `Adler32.UpdateConcat` | video_transmission/managed_components/espressif__zlib/zlib/adler32.c:61-125 | Updating over one text and then another is updating over both |
| `Adler32.Mod28` | video_transmission/managed_components/espressif__zlib/zlib/adler32.c:31-35 | MOD28 is the remainder for all numbers below 2^28 |
| `Adler32.Mod` | video_transmission/managed_components/espressif__zlib/zlib/adler32.c:36-40 | MOD is the remainder for all 32-bit numbers |
| `Adler32.Mod63` | video_transmission/managed_components/espressif__zlib/zlib/adler32.c:41-53 | MOD63 is the remainder for all lengths |
| `Adler32.Combine` | video_transmission/managed_components/espressif__zlib/zlib/adler32.c:133-155 | The checksum of a joined text from those of its parts, for every length; a negative length gives 0xffffffff |
| `Adler32.ClosedForm` | video_transmission/managed_components/espressif__zlib/zlib/adler32.c:142-149 | The sums after a text in closed form, from which the formula follows |
| `Adler32.Subtract` | video_transmission/managed_components/espressif__zlib/zlib/adler32.c:150-153 | The conditional subtractions reduce both sums fully |
| `Jsmn.Parser.Parse` | video_transmission/managed_components/espressif__jsmn/include/jsmn.h:272-458 | With a token array the parser and the array end as the parse from where they stood; without one the result is the count |
| `Jsmn.Parser.ParsePrimitive` | video_transmission/managed_components/espressif__jsmn/include/jsmn.h:137-191 | A primitive up to its delimiter becomes a token, or the parser is put back unchanged |
| `Jsmn.Parser.ParseString` | video_transmission/managed_components/espressif__jsmn/include/jsmn.h:196-267 | A string up to its closing quote becomes a token, or the parser is put back unchanged |
| `Jsmn.Parser.CloseContainer` | video_transmission/managed_components/espressif__jsmn/include/jsmn.h:313-363 | The backward search closes the innermost open container if its kind fits, and the enclosing one becomes the parent |
| `Jsmn.Parser.OpenContainer` | video_transmission/managed_components/espressif__jsmn/include/jsmn.h:286-311 | A container is opened as the parent of what follows, or nothing changes for lack of room |
| `JsonStructure.Structure` | video_transmission/managed_components/espressif__jsmn/include/jsmn.h:272-458 | After success brackets outside strings and primitives balance by kind, starts increase strictly, any two tokens are nested or disjoint, and each container spans from its opening to just past its matching closing bracket |
| `JsonStructure.SucceedsIffBalanced` | video_transmission/managed_components/espressif__jsmn/include/jsmn.h:272-458 | With room for the tokens counted, a text that lexes is accepted exactly when those brackets balance by kind |
| `JsonStructure.RawBalancedIffPlain` | video_transmission/managed_components/espressif__jsmn/include/jsmn.h:146-167 | Counting the brackets inside primitives as well, an accepted text is balanced if and only if no primitive contains an opening bracket |
| `JsonStructure.SwallowedBracket` | video_transmission/managed_components/espressif__jsmn/include/jsmn.h:146-167 | A text that is accepted although its brackets outside strings do not balance, because a primitive contains one |
| `JsonStructure.StepKeeps` | video_transmission/managed_components/espressif__jsmn/include/jsmn.h:280-446 | Every character handled keeps the nesting invariant |
| `JsonPartial.CutIsPartial` | video_transmission/managed_components/espressif__jsmn/include/jsmn.h:448-455 | A text that parses, cut anywhere inside its first object or array, fails with JSMN_ERROR_PART |
| `JsonPartial.StringEndExact` | video_transmission/managed_components/espressif__jsmn/include/jsmn.h:207-266 | A string ends exactly at a quote that comes after nothing but characters of a string and well-formed escapes |
| `JsonPartial.PrimitiveEndExact` | video_transmission/managed_components/espressif__jsmn/include/jsmn.h:146-168 | A primitive ends exactly at the end of the text or at a blank, comma, colon or closing bracket, and has only printable characters before |
| `JsonDocument.DocumentParses` | video_transmission/managed_components/espressif__jsmn/include/jsmn.h:272-458 | Any document, written with any blanks, parses to exactly its tokens: a container has as its size the number of its elements or members, a key size one, and every token spans its own text |
| `JsonDocument.ItemRuns` | video_transmission/managed_components/espressif__jsmn/include/jsmn.h:366-401 | An element counts once for its container, a member once for its container and once for its key |
| `JsonDocument.CloseRuns` | video_transmission/managed_components/espressif__jsmn/include/jsmn.h:313-365 | A closing bracket completes the innermost container and goes back to the one around it |
| `JsonParser.ModesAgree` | video_transmission/managed_components/espressif__jsmn/include/jsmn.h:272-458 | If the token mode succeeds the counting mode gives the same number |
| `JsonParser.CountedIsEnough` | video_transmission/managed_components/espressif__jsmn/include/jsmn.h:106-116 | Room for the number counted is always enough |
| `JsonParser.RoomMatters` | video_transmission/managed_components/espressif__jsmn/include/jsmn.h:106-116 | A parse runs out of room exactly when more tokens are made than there is room for; otherwise the room makes no difference |
| `JsonParser.Resumes` | video_transmission/managed_components/espressif__jsmn/include/jsmn.h:272-458 | Continuing after a lack of room with more room ends like one parse with that room |
| `GzReader.Reader.ReadAll` | video_transmission/managed_components/espressif__zlib/zlib/gzread.c:268-342 | Requests of any sizes deliver the data in order, nothing lost, repeated or changed, whichever copy path is taken |
| `GzReader.Reader.Run` | video_transmission/managed_components/espressif__zlib/zlib/gzread.c:268-496 | Any reads, gzgetc, gzungetc, seeks, rewinds and tells in any order: every reply and every step is that of one cursor, errors included |
| `GzReader.OrdinaryTrace` | video_transmission/managed_components/espressif__zlib/zlib/gzread.c:268-342 | In such a run without pushing back, every read delivers the data from the position that gztell64 would give |
| `GzReader.Reader.GzRead` | video_transmission/managed_components/espressif__zlib/zlib/gzread.c:345-374 | gzread: the next bytes, or -1 after an error or for a request that does not fit in an int |
| `GzReader.Reader.Read` | video_transmission/managed_components/espressif__zlib/zlib/gzread.c:268-342 | The next bytes of what is ahead, as many as asked for or all; a pending seek is carried out first |
| `GzReader.Reader.ReadTurn` | video_transmission/managed_components/espressif__zlib/zlib/gzread.c:284-338 | Each of the four ways to get bytes delivers a prefix of what is ahead |
| `GzReader.Reader.Getc` | video_transmission/managed_components/espressif__zlib/zlib/gzread.c:408-431 | The next byte or -1; the fast path may ignore seeks because a pending seek means an empty buffer |
| `GzReader.Reader.Ungetc` | video_transmission/managed_components/espressif__zlib/zlib/gzread.c:438-496 | The byte, cut to eight bits, comes before what is ahead; it is refused exactly when the output buffer is full, which is a fatal error that empties the buffer |
| `GzReader.RefusalMeansPushed` | video_transmission/managed_components/espressif__zlib/zlib/gzread.c:313-314 | One push-back is always allowed: where one is refused, a byte was pushed before and no call since has read or moved |
| `GzReader.PushesFit` | video_transmission/managed_components/espressif__zlib/zlib/zlib.h:1529-1530 | On a reader that was just opened as many push-backs in a row succeed as the size of the buffer |
| `GzReader.PushedThenSought` | video_transmission/managed_components/espressif__zlib/zlib/zlib.h:1531-1532 | After a push-back a seek forward drops the byte, except a seek to where the reader stands, which keeps it if the file is compressed or the byte stands before the start |
| `GzReader.Reader.Skip` | video_transmission/managed_components/espressif__zlib/zlib/gzread.c:236-262 | As many bytes as there are, up to the number asked for, are passed over |
| `GzReader.Reader.Fetch` | video_transmission/managed_components/espressif__zlib/zlib/gzread.c:208-233 | What is ahead is unchanged, and either some of it is in the buffer or there is nothing |
| `GzReader.Reader.Decomp` | video_transmission/managed_components/espressif__zlib/zlib/gzread.c:156-200 | Output is the next bytes of the member, fewer than asked for only at its end |
| `GzReader.Reader.LookForHeader` | video_transmission/managed_components/espressif__zlib/zlib/gzread.c:76-149 | A member, trailing garbage, the end or a plain file are told apart by the bytes of the file, not of the buffer |
| `GzReader.Reader.Avail` | video_transmission/managed_components/espressif__zlib/zlib/gzread.c:43-65 | Moving and loading the input buffer leaves the reader where it is |
| `GzReader.Reader.Load` | video_transmission/managed_components/espressif__zlib/zlib/gzread.c:12-34 | All bytes asked for, or all that the file has, over any number of short reads |
| `GzReader.Reader.SeekTo` | video_transmission/managed_components/espressif__zlib/zlib/gzlib.c:339-409 | gztell64 afterwards is the value returned; back, and anywhere in a plain file, the data from there is ahead, forward what was in front goes on; it fails exactly for a target that is negative and behind the position |
| `GzReader.Reader.Rewind` | video_transmission/managed_components/espressif__zlib/zlib/gzlib.c:318-336 | The data from the start, also after a member was found |
| `GzReader.Reader.SeekCopied` | video_transmission/managed_components/espressif__zlib/zlib/gzlib.c:366-380 | In a plain file the file position is moved and buffered or pushed bytes are dropped |
| `CameraRuns.Run` | video_transmission/managed_components/espressif__esp32-camera/driver/cam_hal.c:104-231 | Any interleaving of driver steps, DMA buffers, interrupts, receives, checks and gives is a run of a machine with one function for its steps, and keeps the invariant; each receive is answered; the frames among the answers are, in order, those that the log adds with stamp and contents; and the whole log is of complete frames in the order of capture, none twice |
| `CameraRuns.PictureArrives` | video_transmission/managed_components/espressif__esp32-camera/driver/cam_hal.c:140-215 | A picture that fits, buffer by buffer from an empty frame to VSYNC, becomes the newest frame of the queue byte for byte, and no other frame changes; if an image does not begin like one, or a raw picture has the wrong size, nothing is queued |
| `CameraRuns.FreeFrameFound` | video_transmission/managed_components/espressif__esp32-camera/driver/cam_hal.c:75-103 | If a frame is free, a search that is not interrupted finds one and empties it, whether the driver was idle or a frame has just ended |
| `CameraRuns.DriverStep` | video_transmission/managed_components/espressif__esp32-camera/driver/cam_hal.c:104-231 | Wherever cam_task is in the handling of a VSYNC event, its next step changes all fields as the machine says |
| `CameraRuns.OtherMove` | video_transmission/managed_components/espressif__esp32-camera/driver/cam_hal.c:104-231 | So does every other step of either side |
| `CameraFrames.Camera.FillsOnlyFree` | video_transmission/managed_components/espressif__esp32-camera/driver/cam_hal.c:75-103 | The driver never fills a frame that is queued or held |
| `CameraFrames.Camera.EnabledIffFree` | video_transmission/managed_components/espressif__esp32-camera/driver/cam_hal.c:75-88 | en is 1 exactly when the frame is not queued, held or in flight |
| `CameraFrames.Camera.BeginSearch` | video_transmission/managed_components/espressif__esp32-camera/driver/cam_hal.c:399-403 | Keeping the newest of more than one frame, a search begun while the application holds none is sure of a free frame |
| `CameraFrames.Camera.ScanOne` | video_transmission/managed_components/espressif__esp32-camera/driver/cam_hal.c:75-88 | A sure search does not end without a frame, even if the application runs between its turns |
| `CameraFrames.Camera.VsyncReading` | video_transmission/managed_components/espressif__esp32-camera/driver/cam_hal.c:165-198 | An image that was begun, or a raw picture of exactly the right size, leaves the free frames and is the newest; anything else stays free |
| `CameraFrames.Camera.Send` | video_transmission/managed_components/espressif__esp32-camera/driver/cam_hal.c:199-200 | A frame is queued as the newest, or, only when the newest frames are kept, the queue is full |
| `CameraFrames.Camera.Pop` | video_transmission/managed_components/espressif__esp32-camera/driver/cam_hal.c:202-215 | The oldest queued frame is taken back, or the new one is freed if the application emptied the queue |
| `CameraFrames.Camera.Push` | video_transmission/managed_components/espressif__esp32-camera/driver/cam_hal.c:204-208 | The second send succeeds: the new frame is the newest in the queue |
| `CameraFrames.Camera.NewestStays` | video_transmission/managed_components/espressif__esp32-camera/driver/cam_hal.c:199-215 | A frame that was queued stays the newest in the queue until it is received, except while it is swapped for a newer one |
| `CameraFrames.Camera.Take` | video_transmission/managed_components/espressif__esp32-camera/driver/cam_hal.c:477-492 | A received frame was at the head of the queue, is complete, is held by nobody else, and is logged with its stamp and contents as newer than any received before |
| `CameraFrames.Camera.Judge` | video_transmission/managed_components/espressif__esp32-camera/driver/cam_hal.c:493-513 | A held image is cut after its last end marker, or given back if it has none |
| `CameraFrames.Camera.CamTake` | video_transmission/managed_components/espressif__esp32-camera/driver/cam_hal.c:477-520 | With any number of tries: a frame the caller then holds, ending in the end marker if it is an image, or -1 and nothing more held than before |
| `CameraFrames.VerifyEoi` | video_transmission/managed_components/espressif__esp32-camera/driver/cam_hal.c:60-73 | The last end marker after offset 0, or -1 if there is none |
| `CameraFrames.Camera.BufferReceived` | video_transmission/managed_components/espressif__esp32-camera/driver/cam_hal.c:145-163 | The new contents, count and state: a buffer without room is dropped, every other one is counted, an image that does not begin like one is abandoned; no frame is written past its end, and with direct DMA every image is abandoned, because its length is still zero |
| `CameraFrames.Camera.Give` | video_transmission/managed_components/espressif__esp32-camera/driver/cam_hal.c:523-531 | Giving back a held frame frees it and touches no other |
| `HapticStream.ReceiveAll` | video_transmission/main/softAP.c:456-497 | What is decoded is the stream cut into groups of six with the remainder left over, and both duties are those of the last valid group, however the stream is cut into pieces |
| `HapticStream.Parse` | video_transmission/main/softAP.c:388-402 | Two speeds if all six characters are digits, and only then; their digits are the six characters |
| `HapticStream.ParseReads` | video_transmission/main/softAP.c:388-402 | The six digits of two speeds are read as these speeds |
| `HapticStream.SpeedsComeBack` | video_transmission/main/softAP.c:464-473 | Speeds written one after the other come back in order |
| `HapticStream.DutyNearest` | video_transmission/main/softAP.c:479-482 | The duty is the number nearest to the same share of 1023 as the intensity is of 999, and no other is as near |
| `HapticStream.LastSpeedsCount` | video_transmission/main/softAP.c:471-498 | The duties are those of the last valid group; invalid ones change nothing |
| `HapticStream.DutyMonotone` | video_transmission/main/softAP.c:479-482 | Larger intensities give strictly larger duties, from 0 to 1023 |

## Left out

- Crc32Engine.Tables.X2NModP: does not model negative lengths, on which the loop of the code does not end (`Crc32Engine.LoopEndsIff`).
- Crc32Engine.Tables.CombineGen64: does not model negative lengths, for the same reason.
- Crc32Engine.Tables.Combine64: does not model negative lengths, for the same reason.
- TableGenerator.Generate: does not model trees with a missing child or a code below four bits, on which the script stops with an error, nor more than 16384 codes, where node numbers would run into the flags.
- GzReader.Reader.LookForHeader: does not model the allocation of the buffers on the first call; they are there from the start.
- CameraRuns.PictureArrives: does not model pictures that the DMA writes to the frames directly: their bytes are arbitrary there, and JPEG images are always abandoned (`CameraFrames.Camera.BufferReceived`).
- CameraFrames.Camera.VsyncReading: does not model the conversion in `ll_cam_memcpy`, only that it makes at most as many bytes as the code reckons with.
- CameraFrames.Camera.Take: does not model the DMA reset after a timeout, nor the conversion of raw pictures in frames written by the DMA; the checks of `cam_take` that follow the receive are in `CameraFrames.Camera.Judge`.
- CameraFrames.Camera.BufferReceived: does not model the comparison of the start marker with bytes behind a first buffer of fewer than three bytes.
- Block output and decompression (`trees.c`, `inflate.c`): symbols are the output of the compressor, and inflate is an oracle that takes some input and makes the next bytes of a member.
- The byte layout of `sym_buf` and `pending_buf` in the compressor: symbols are a sequence; how many bytes each block or marker takes is an arbitrary function of its number.
- The trailers and the zlib header (two bytes) of `deflate`: easy members.
- `deflate_stored`, `deflateParams`, `deflateSetDictionary`, `deflatePrime`, `deflateBound`, `deflateCopy`: they mix strategies or depend on bit-level output.
- The ARM, big-endian and table-printing parts of `crc32.c`: not used on this target.
- 32-bit limits of positions in the JSON parser and of file offsets in the gzip reader: integers are unbounded there.
- Failed reads, corrupt or truncated members and lack of memory in the gzip reader; the fatal errors modelled are a byte pushed back into a full buffer and a request that does not fit in an int. `gzdirect`, `gzgets` and `gzclearerr` are not modelled; the first can fill the buffer while a seek is pending.
- `load_block_*`, colour conversion, edge duplication, quantizer scaling and the memory of the JPEG encoder: per-sample copies and clamps; the samples of each block are any values in -128..127 and quantizers any in 1..255.
- The C decoder that uses the HPACK table is not part of the repository; a run of the table is modelled by its entries and flags. The flags and the id are added instead of or-ed, which is the same as they do not meet. The second table that the script prints, a copy of its list, is left out.
- Strict mode and parent links of jsmn: not in the default build.
- `cam_give_all` and the DMA setup: the first breaks ownership by design, the other is register access.
- Sockets, Wi-Fi, PWM output, audio, sensor drivers and display: wrappers over libraries and registers.
