# DEFLATE codec, checksums and request pipeline

A Dafny model of the parts of this extension whose correctness is hardest to see from the code: the
DEFLATE compressor and decompressor in `zlib/` (RFC 1951), the CRC-32 and Adler-32 checksums (RFC 1952 and
RFC 1950), and the two-thread request pipeline of the extension itself.

`dafny verify dfyconfig.toml` checks everything.

## What is proved

**The reference decoder.** Module `Reference` says what a raw DEFLATE stream means: the block states of
`inflate()` over an abstract bit stream, without buffers, accumulator or window. Compressor and
decompressor share no code; each is proved against this decoder, and they meet there.

**Huffman codes.** The canonical code of a vector of lengths is defined once (`Canonical`). `gen_codes` assigns it,
`inflate_table` builds tables that look it up (`InflateTable`, `DecodeTable`), and the space its sub-tables need is
bounded, so that the space check never fires (`TableSpace`). `build_tree` with its array heap makes a tree of
least total weight among all prefix codes, and `gen_bitlen` repairs lengths that are too long so that the Kraft sum is exactly 1
(`Heap`, `TreeBuilding`, `Huffman`, `BitLengths`, `BuildCode`).

**Blocks.** What `send_tree`, `compress_block` and `_tr_flush_block` write is read back by the reference decoder in each of the
three forms, and the sizes predicted by `opt_len` and `static_len` are exact (`RunCoding` to `FlushBlock`). The order of the code length code is
pinned by a law of its own (`CodeLengthOrder`).

**inflate.** The class `Inflater` is the resumable machine with its bit accumulator, tables, circular window and
fast loop. Every state keeps its fields in step with a state of the reference decoder, whatever input
and output space it is given (`BitReader` to `Inflate`). `SplitIndependence` draws the conclusion: however input and output are
cut into calls, the output and the verdict are the same.

**deflate.** The class `Deflater` has the sliding window, the hash chains, `longest_match` and the four matching loops.
At every loop head the blocks written and the tokens tallied account for the input up to `strstart`, less
the one literal that `deflate_slow` keeps in suspense; the chains hold every string inserted, and each turn codes the longest match that
the search of its length should find (`HashChains`, `Matching`, `Coverage`, `Deflate`). `RoundTrip` states the round trip over both classes.

**Checksums.** The table-driven, the little-endian and the big-endian CRC equal the bit-serial register, and the
combination by matrix squaring equals the CRC of the concatenation (`Crc`, over exclusive or on numbers in `Xors`); and that register holds
the remainder by the polynomial whose exponents the source lists (`Polynomial`, `CrcRemainder`). The deferred sums of Adler-32 stay within 32 bits and
equal the definition (`Adler`).

**Pipeline.** Both threads are program counters over shared queues and locks; an action is one step of one thread. Conservation, order,
single delivery, absence of lock cycles, draining and delivery hold in every interleaving (`Pipeline`).

## Where the code and its documentation differ

- `inflate_fast()` is documented to be entered with fewer than 8 bits in the accumulator (`zlib/inffast.c:29`). A call that ended in the
  middle of a literal/length code can leave up to 14 bits, and the next call enters the fast loop with them. The
  bits are then fewer than the code needs, which is what `Inflater.FastLoop` requires and what makes giving
  bytes back safe. The assumption fails exactly in a call that begins in LEN with 8 bits or more (the caller finds the number of bits in
  `data_type`, `zlib/inflate.c:1269`), has at least 6 bytes of input and has room for at least 258 bytes: `Inflater.Inflate` states this in
  both directions. `FastEntry.EntersWithEight` is such a call.
- The space check of `inflate_table()` can never fire in the calls that inflate makes; it is in the model all the same.

## How to read the model

Bit patterns are numbers, shifted and cut by `Shl`, `Shr` and `Low`; a stream is a sequence of Booleans, lowest bit of each byte first.
`Inflater.fed`, `Inflater.ref`, `Deflater.data`, `Deflater.given` and `Deflater.ref` are ghost fields: the input read and the output written in all calls, and the state of the
reference decoder. The arrays `dyn_ltree` and `dyn_dtree` are pairs of arrays, one for each half of a `ct_data`.
`Deflater.matchStart` is signed: the source subtracts from an unsigned `match_start` when the window slides, and the signed number gives the same
distance as its wrap-around would.

## Model

| member | source | states |
|---|---|---|
| Canonical.BiReverse | zlib/trees.c:1158-1168 | the low `len` bits of the code in reverse order, for every code and length |
| Canonical.FirstCodes | zlib/trees.c:577-592 | next_code[l] is the first code of length l that section 3.2.2 of RFC 1951 defines, for counts that a set of lengths within the Kraft bound has |
| Canonical.GenCodes | zlib/trees.c:572-605 | every symbol with a length gets its canonical code, bit-reversed, in place of its frequency; other entries stay |
| Canonical.PrefixFree | zlib/trees.c:572-605 | at most one symbol's code begins any bit stream |
| Canonical.Total | zlib/trees.c:572-605 | if the lengths are complete, some symbol's code begins every bit stream |
| Canonical.MatchesIffInterval | zlib/trees.c:572-605 | a stream begins with the code of n exactly if its reversed first 15 bits lie in the interval of n |
| InflateTable.CodesLeft | zlib/inftrees.c:130-139 | the running count of unused codes is negative exactly for over-subscribed lengths and 0 exactly for complete ones |
| InflateTable.SortSymbols | zlib/inftrees.c:141-148 | the symbols in use, sorted by length and then by symbol |
| InflateTable.Replicate | zlib/inftrees.c:230-237 | the entry is put at every index of the table whose low bits are the code, and nowhere else |
| InflateTable.Increment | zlib/inftrees.c:239-248 | the backwards increment of a reversed code is the reversal of the incremented code, or 0 after the last one |
| InflateTable.SubTableBits | zlib/inftrees.c:266-274 | the size of a sub-table: large enough for every longer code with the same root bits, and exactly filled by them |
| InflateTable.FillTables | zlib/inftrees.c:200-297 | fills root and sub-tables so that every lookup is right, and never runs out of space in the calls inflate makes |
| InflateTable.InflateTable | zlib/inftrees.c:32-304 | -1 exactly for over-subscribed or incomplete sets that are not allowed; otherwise a table that looks up every stream right; the space check never fires for at most 286 and 30 symbols at 9 and 6 root bits |
| TableSpace.EnoughLens | zlib/inftrees.c:276-279 | however the code lengths of up to 286 symbols fall, the sub-tables of a 9-bit root table fit in ENOUGH_LENS entries |
| TableSpace.EnoughDists | zlib/inftrees.c:276-279 | the same for up to 30 symbols, a 6-bit root table and ENOUGH_DISTS |
| DecodeTable.PartialLookup | zlib/inflate.c:1054-1058 | an entry whose bits are all in a partly filled accumulator is the entry that every continuation of the stream gives |
| DecodeTable.CompleteTable | zlib/inftrees.c:213-287 | when the tables are filled up to the last code of a complete set, each stream that begins with the code of n leads to the entry of n |
| DecodeTable.OneBitTable | zlib/inftrees.c:290-297 | the one incomplete code that is allowed: its single one-bit code, and an error entry for the other bit |
| Symbols.LengthTables | zlib/trees.c:255-268 | _length_code and base_length as tr_static_init builds them agree with the definition by extra bits, 258 having a code of its own |
| Symbols.DistTables | zlib/trees.c:270-286 | _dist_code with its two halves and base_dist agree with the definition by extra bits |
| Symbols.LengthBaseAgrees | zlib/inftrees.c:60-65 | base and extra bits of each length code are the same in the decoder's tables as in the encoder's |
| Symbols.DistBaseAgrees | zlib/inftrees.c:66-73 | the same for distance codes |
| BitWriter.Writer.SendBits | zlib/trees.c:211-223 | the bits of the value are appended to the stream, low bit first, whether or not the 16-bit buffer overflows |
| BitWriter.Writer.Flush | zlib/trees.c:1173-1185 | the stream stays the same and at most 7 bits stay in the buffer |
| BitWriter.Writer.Windup | zlib/trees.c:1190-1203 | the stream is padded with zero bits to a byte boundary |
| RunCoding.OpsRoundTrip | zlib/trees.c:748-793 | the operations for any lengths, performed, give the lengths back, and none repeats before a first length |
| TreeSending.ScanTree | zlib/trees.c:703-742 | counts exactly the symbols that send_tree sends for the same lengths, and sets the guard after them |
| TreeSending.SendTree | zlib/trees.c:748-793 | appends the codes and counts of exactly those operations |
| TreeSending.OpsRun | zlib/inflate.c:959-1005 | the decoder in the CODELENS state reads any operations back as their effect on the lengths so far |
| Heap.PqDownHeap | zlib/trees.c:451-474 | restores the heap order below a node, keeping the same nodes in the heap |
| TreeBuilding.PqRemove | zlib/trees.c:430-435 | removes a node of least frequency and, of those, of least depth, and restores the heap |
| TreeBuilding.CollectSymbols | zlib/trees.c:630-639 | the heap holds exactly the symbols of non-zero frequency, max_code is the largest, and the others get length 0 |
| TreeBuilding.ForceTwo | zlib/trees.c:646-653 | at least two symbols are in the heap; those added have frequency 1, and their cost is taken back in advance |
| TreeBuilding.Combine | zlib/trees.c:663-688 | the list in heap order is a tree over all symbols, each merge adding up frequencies and taking two least nodes; the depth of each father is that of its deeper son and one more |
| TreeBuilding.DepthIsHeight | zlib/trees.c:673-674 | the depth kept for a node, the tie breaker between equal frequencies, is the height of its tree as long as that fits in 8 bits |
| Huffman.GreedyFrom | zlib/trees.c:664-686 | merging two least nodes at every step is never worse than any prefix code on the same nodes |
| Huffman.Optimal | zlib/trees.c:663-688 | the depths in such a tree have a total weight that no prefix code on the same leaves goes below |
| Huffman.KraftExcess | zlib/trees.c:511-526 | the number of inner nodes at the limit is how far the Kraft sum of the limited depths exceeds 1 |
| Huffman.TreeDepths | zlib/trees.c:663-691 | every tree of merges has depths, not cut at any limit, that are a prefix code for its leaves and weigh exactly what the inner nodes sum up to |
| Huffman.TreeIsLeast | zlib/trees.c:663-691 | no prefix code on the leaves, of any lengths, weighs less than the inner nodes of a greedy tree |
| BuildCode.BuildTree | zlib/trees.c:615-697 | the tree is one of least weight among all prefix codes for the used symbols, always; the lengths are a complete code within max_length, of least weight too if none overflows, and in any case no longer for a more frequent symbol; its codes, and exact growth of opt_len and static_len; the frequencies stay within 16 bits |
| BitLengths.FirstPass | zlib/trees.c:505-525 | each length is one more than the father's, at most max_length; overflow counts the nodes that were cut |
| BitLengths.PassRepairing | zlib/trees.c:526-542 | overflow is twice the Kraft excess in units of 2^-max_length |
| BitLengths.RepairStep | zlib/trees.c:533-541 | one turn takes one unit off the Kraft excess and keeps the number of leaves |
| BitLengths.SomeShorter | zlib/trees.c:534-535 | while there is excess some shorter length is in use, so that the search for one ends above 0 |
| BitLengths.Repair | zlib/trees.c:532-542 | ends with a Kraft sum of exactly 1 and the same number of leaves |
| BitLengths.Reassign | zlib/trees.c:549-560 | gives the leaves the repaired lengths, growing along the list from the most frequent to the least, and corrects opt_len by exactly the difference |
| BitLengths.GrowingFair | zlib/trees.c:545-560 | such lengths are fair: of two symbols the more frequent has no longer code |
| Huffman.InFrequencyOrder | zlib/trees.c:666-671 | the list that pqremove fills goes from the most frequent node to the least |
| Huffman.LeastIsFair | zlib/trees.c:663-691 | lengths of least weight are fair too |
| BitLengths.GenBitlen | zlib/trees.c:486-561 | all lengths are at most max_length, the set is complete, and opt_len and static_len grow by exactly the cost of the symbols; the depths in the tree if none overflows, and fair if some do |
| BuildCode.ForcedCost | zlib/trees.c:646-652 | what was taken off for forced codes is exactly what they cost |
| Blocks.CompressBlock | zlib/trees.c:1064-1109 | appends the codes and extra bits of the tallied tokens and the end of the block |
| Blocks.SendAllTrees | zlib/trees.c:834-858 | appends the counts, the code length code in the order of bl_order, and both trees |
| CodeLengthOrder.LengthSent | zlib/trees.c:71-75 | the encoder sends the length of each symbol in the field that the law gives it: 16, 17, 18, 0, then the lengths from 8 outwards, the smaller one first at equal distance |
| CodeLengthOrder.LengthRead | zlib/inflate.c:642-643 | the decoder gives each symbol the length in that field, and 0 if the field was not sent |
| CodeLengthOrder.TablesFollow | zlib/inflate.c:642-643 | both tables, each written out on its own, have every symbol at the place that the law counts out for it |
| BlockDecoding.OrdersAgree | zlib/trees.c:71-72 | the table of the encoder is that of the decoder |
| DynamicTrees.BuildBlTree | zlib/trees.c:799-828 | a code for the tree operations, the last length to send, and opt_len grown by exactly the size of the tree representation |
| DynamicTrees.PadTree | zlib/trees.c:572-605 | lengths of 0 at the end do not change any code |
| StaticTrees.BothTrees | zlib/trees.c:288-305 | the static trees are the fixed codes of section 3.2.6 of RFC 1951 |
| StaticTrees.SameTokens | zlib/trees.c:301-305 | the 30 distance codes of the encoder are the first of the decoder's 32 |
| BlockCost.BodyCost | zlib/trees.c:523-524 | what the frequencies and lengths predict is the number of bits that compress_block sends |
| TokenCoding.TokensRun | zlib/inflate.c:1044-1196 | the decoder reads the bits of any tokens back and performs them |
| BlockDecoding.StoredRun | zlib/inflate.c:887-919 | the decoder reads a stored block back |
| BlockDecoding.FixedRun | zlib/inflate.c:866-874 | the decoder reads a fixed block back |
| BlockDecoding.DynRun | zlib/inflate.c:920-1043 | the decoder reads a dynamic block back, trees included |
| FlushBlock.Encoder.constructor | zlib/trees.c:379-402 | an empty stream and no tokens |
| FlushBlock.Encoder.Tally | zlib/deflate.h:326-342 | one more token, its frequencies counted; true exactly at lit_bufsize-1 |
| FlushBlock.Encoder.MakeTrees | zlib/trees.c:927-942 | both trees and the code length code; opt_len and static_len are the exact sizes of what would be sent |
| FlushBlock.Encoder.FlushBlock | zlib/trees.c:911-1009 | writes one block for the tokens, in the form the sizes call for; 3+opt_len and 3+static_len are the lengths of its dynamic and its fixed form, whichever is written; stored exactly if no longer and still in the window; pads after the last |
| FlushBlock.StoredBlock | zlib/trees.c:863-881 | header, padding, the length and its complement, the bytes |
| FlushBlock.Encoder.Align | zlib/trees.c:896-906 | appends an empty fixed block |
| FlushBlock.Encoder.StoreNothing | zlib/deflate.c:1025 | appends an empty stored block, which ends on a byte boundary |
| FlushBlock.BlockRun | zlib/inflate.c:849-1196 | whichever form a block has, the decoder reads it back to the data it stands for |
| FlushBlock.DeliverBlock | zlib/inflate.c:849-1196 | a stream that decodes to some output, with one more block, decodes to that output and the data of the block |
| Runs.StepExtend | zlib/inflate.c:849-1196 | a step that was possible is the same however much more input follows |
| Runs.StepOk | zlib/inflate.c:849-1196 | every step keeps the codes in force prefix-free, lengths within 3 to 258 and distances within 1 to 32768 |
| Runs.RunUnique | zlib/inflate.c:849-1196 | two runs on one stream that cannot go on are the same |
| Runs.FixedComplete | zlib/inflate.c:291-307 | the fixed codes are complete |
| BitReader.UnreadPull | zlib/inflate.c:506-512 | a byte added above the bits held gives the next bits of the stream |
| BitReader.UnreadDrop | zlib/inflate.c:527-531 | dropping low bits moves the position in the stream |
| BitReader.DecodeByTable | zlib/inflate.c:1054-1070 | a table entry whose bits are there is the symbol that the bits decode to |
| BitReader.LenByTable | zlib/inflate.c:1073-1092 | what the LEN state makes of an entry's operation is the reference's step |
| BitReader.DistByTable | zlib/inflate.c:1122-1129 | what the DIST state makes of an entry's operation is the reference's step |
| BitAccumulator.PullByte | zlib/inflate.c:506-512 | one more byte in the accumulator, the reference where it was |
| BitAccumulator.NeedBits | zlib/inflate.c:516-520 | enough bits, or all input read and still too few |
| BitAccumulator.NextCode | zlib/inflate.c:1054-1070 | the entry for the code at the front, through at most one sub-table, or all input read and the code incomplete; fewer than 8 bits more than the code |
| BitAccumulator.StoredLength | zlib/inflate.c:887-902 | the length of a stored block, an error exactly if its complement is wrong, or a wait for input |
| ReadLengths.CodeLengthLens | zlib/inflate.c:938-945 | lengths of the code length code in their order, zeros after, or a wait at exactly where it stopped |
| ReadLengths.ReadRun | zlib/inflate.c:966-1003 | the repeats that a code length symbol asks for, an error if nothing precedes or there are too many |
| ReadLengths.ReadCodeLens | zlib/inflate.c:959-1005 | the two arrays of lengths as the reference reads them, or a wait between two symbols |
| Copying.AtCopied | zlib/inflate.c:1179-1187 | the reference copies n bytes of a match one at a time, overlaps included |
| Copying.CopySplit | zlib/inflate.c:1184-1189 | a match copied in pieces is the match |
| Inflate.MakeFixed | zlib/inflate.c:278-319 | the fixed tables, as built under BUILDFIXED |
| Inflate.Inflater.constructor | zlib/inflate.c:189-237 | a new raw stream: nothing read, nothing written |
| Inflate.Inflater.DoType | zlib/inflate.c:849-886 | keeps the reference in step; the header of a block or the end |
| Inflate.Inflater.DoStored | zlib/inflate.c:887-902 | keeps the reference in step; the length of a stored block |
| Inflate.Inflater.DoCopy | zlib/inflate.c:903-919 | keeps the reference in step; as many stored bytes as input and output allow |
| Inflate.Inflater.DoTable | zlib/inflate.c:920-937 | keeps the reference in step; the three counts, too large ones an error |
| Inflate.Inflater.DoLenLens | zlib/inflate.c:938-958 | keeps the reference in step; the code length code and its table |
| Inflate.Inflater.DoCodeLens | zlib/inflate.c:959-1041 | keeps the reference in step; the code lengths and both tables, each error case |
| Inflate.Inflater.DoLen | zlib/inflate.c:1053-1092 | keeps the reference in step; a literal, a length, the end or an error |
| Inflate.Inflater.DoLenExt | zlib/inflate.c:1093-1102 | keeps the reference in step; the extra bits of a length |
| Inflate.Inflater.DoDist | zlib/inflate.c:1103-1129 | keeps the reference in step; a distance or an error |
| Inflate.Inflater.DoDistExt | zlib/inflate.c:1130-1145 | keeps the reference in step; the extra bits of a distance |
| Inflate.Inflater.DoMatch | zlib/inflate.c:1146-1190 | keeps the reference in step; part of a match from window or output, an error exactly if it reaches before the start of all output |
| Inflate.Inflater.DoLit | zlib/inflate.c:1191-1196 | keeps the reference in step; one literal |
| Inflate.Inflater.FastWindow | zlib/inffast.c:199-238 | the part of a match that comes from the window, in its three layouts |
| Inflate.Inflater.CopyDirect | zlib/inffast.c:252-263 | a match copied by threes is the match |
| Inflate.Inflater.FastMatch | zlib/inffast.c:169-264 | the whole match, or an error exactly if it reaches before the start of all output; exactly len bytes are written |
| InflateFast.Pull | zlib/inffast.c:105-106 | a byte pulled ahead of need; hold stays within 32 bits |
| InflateFast.FastPiece | zlib/inffast.c:104-168 | one literal, or one length and distance, as the reference decodes them; at most 6 bytes are read |
| InflateFast.GiveBack | zlib/inffast.c:292-296 | after the unused bytes are given back fewer than 8 bits are left, and they are the next bits of the stream |
| Inflate.Inflater.FastTurn | zlib/inffast.c:103-290 | one turn: some number of reference steps, at most 6 bytes read and 258 written |
| Inflate.Inflater.Fast | zlib/inffast.c:50-307 | refines the slow states: some number of reference steps from LEN to LEN, TYPE or BAD, with fewer than 8 bits left |
| Inflate.Inflater.FastLoop | zlib/inffast.c:37-47 | needs only that what is left over is less than the next code has; then giving bytes back never goes past the start of the call |
| FastEntry.EightBitsLeft | zlib/inffast.c:22-29 | an inflater that was given a certain 7 bytes in one call and is left in LEN with 8 bits in the accumulator |
| FastEntry.EntersWithEight | zlib/inffast.c:22-29 | whatever the next bytes are, its next call with 6 of them and room for 258 enters the fast loop with 8 bits or more, against the comment |
| Inflate.Inflater.Turn | zlib/inflate.c:655-1245 | one turn keeps the reference in step, stops only to wait and otherwise makes progress; a turn that goes on does not leave LEN with 8 bits or more |
| Inflate.Inflater.Loop | zlib/inflate.c:655-1245 | ends finished, or waiting for input or output that is not there; only its first turn can enter the fast loop with 8 bits or more |
| Inflate.Inflater.Inflate | zlib/inflate.c:622-1275 | input read is appended to what was fed, output written is what the reference wrote on it, the window holds the last 32768 bytes, and the return code is the reference's verdict: Z_BUF_ERROR exactly if the stream is neither finished nor wrong and nothing was read or written; the fast loop is entered with 8 bits or more if and only if the call begins in LEN with 8 bits or more, 6 bytes of input and room for 258 |
| Inflate.Inflater.GetDictionary | zlib/inflate.c:1291-1313 | the last 32768 bytes of all output, in order |
| Inflate.Inflater.DoneAligned | zlib/inflate.c:852-855 | after the last block exactly the bytes used have been read |
| SplitIndependence.OnePath | zlib/inflate.c:622-1275 | two states reached on prefixes of one stream lie on one path, so that one's output begins the other's |
| SplitIndependence.SplitIndependent | zlib/inflate.c:622-1275 | for any cutting of input and output: same output, same verdict and same input used once nothing is left to do |
| Window.LastNConcat | zlib/inflate.c:396-444 | keeping the last n bytes after every update is keeping the last n of everything |
| Window.SlidingWindow.Update | zlib/inflate.c:396-444 | the circular buffer holds the last wsize bytes of the old history and the new output; the write index is the count until it is full |
| Window.SlidingWindow.GetDictionary | zlib/inflate.c:1302-1310 | the history in order |
| HashChains.Rolls | zlib/deflate.c:163 | three updates give the key of the last three bytes, whatever came before |
| HashChains.ThirdByte | zlib/deflate.c:1337-1340 | equal keys and equal first two bytes make the third bytes equal, as a key has at least 8 bits |
| HashChains.HashTable.constructor | zlib/deflate.c:1194-1200 | an empty table |
| HashChains.HashTable.Insert | zlib/deflate.c:182-185 | every chain holds all inserted strings of one key that are in the window, newest first; the head returned is the newest older string of the key, or NIL exactly if there is none past the first byte of the window |
| HashChains.HashTable.Slide | zlib/deflate.c:201-225 | the same when all positions move down by a window |
| HashChains.HashTable.Follow | zlib/deflate.c:1372-1373 | the next entry of a chain is strictly older, of the same key, and was not overwritten |
| HashChains.HashTable.Clear | zlib/deflate.c:192-194 | an empty table again |
| HashChains.TableInserts | zlib/deflate.c:182-185 | the new string becomes the newest of its key, its link is the newest before it, and every other head, and every link still in range, is the newest string of its key as before |
| Matching.ThirdAgrees | zlib/deflate.c:1330-1342 | the byte that longest_match does not compare agrees |
| Matching.MatchLength | zlib/deflate.c:1344-1356 | how far the two strings agree, up to 258 |
| Matching.LongestMatch | zlib/deflate.c:1236-1377 | a result above prev_length is a true match within lookahead and MAX_DIST; unless it has 258 bytes, fills the lookahead or is nice enough, every string inserted past the first byte of the window and less than MAX_DIST back that agrees further has max_chain newer ones of its key before it |
| Matching.WalkFinds | zlib/deflate.c:1371-1373 | the chain is followed without a gap: a string of the key within the limit is among the first n candidates, or n newer ones come before it |
| Matching.CopyIsData | zlib/deflate.c:1864-1868 | copying from a match continues the data, overlaps included |
| Coverage.CoversLiteral | zlib/deflate.h:326-332 | tokens that account for the data up to a point, with the next byte as literal, account for one more |
| Coverage.CoversMatch | zlib/deflate.h:333-342 | the same for a match |
| Coverage.CoversBlock | zlib/deflate.c:1605-1611 | flushing a block moves the decoder to where its tokens end |
| Deflate.Deflater.constructor | zlib/deflate.c:239-330 | a new stream for level, window size and memory level; the hash key is wide enough for a byte and forgets after three |
| Deflate.Deflater.TallyLit | zlib/deflate.h:326-332 | the tokens account for one more byte |
| Deflate.Deflater.TallyDist | zlib/deflate.h:333-342 | the tokens account for the bytes of the match |
| Deflate.Deflater.SlideWindow | zlib/deflate.c:1507-1518 | the window holds the same data a window further on, and the chains all strings that are still past its first byte |
| Deflate.Deflater.ReadBuf | zlib/deflate.c:1164-1189 | as much input as fits goes into the window after the lookahead |
| Deflate.Deflater.InsertPending | zlib/deflate.c:1539-1555 | exactly the pending strings are inserted, as many as there is input for, and the running hash is ready for the next |
| Deflate.Deflater.FillWindow | zlib/deflate.c:1482-1599 | input read is appended to the data; strings, chains, tokens and a suspended match stay right across slides, and pending strings are inserted; room for a search is left |
| Deflate.Deflater.FlushPending | zlib/deflate.c:730-748 | bytes handed out are the beginning of the stream, in order, each once |
| Deflate.Deflater.WriteBlock | zlib/deflate.c:1605-1611 | the block decodes to the data since block_start; if it is offered to be stored it is in the window and at most 65535 bytes long |
| Deflate.Deflater.FindMatch | zlib/deflate.c:1856-1863 | a match that can be tallied and reaches back over no full flush, if one is found; none that the search should find is longer |
| Deflate.Deflater.FastAdvance | zlib/deflate.c:1870-1900 | past the match: every string of a short one inserted, or the hash started anew |
| Deflate.Deflater.FastFind | zlib/deflate.c:1848-1863 | ends without a match only if no string inserted past the first byte of the window and less than MAX_DIST back agrees on three bytes, but for those with max_chain newer ones of the key before them |
| Deflate.Deflater.FastTurn | zlib/deflate.c:1848-1907 | one more token: the longest match that the search should find, if it has three bytes, and otherwise the literal; with exactly the strings inserted that the length calls for |
| Deflate.Deflater.DeflateFast | zlib/deflate.c:1824-1918 | at every loop head the tokens since the last flush account for the data up to strstart; ends as its block state says |
| Deflate.Deflater.SlowFind | zlib/deflate.c:1948-1982 | the previous match, and the longest at strstart that the search should find, if the previous one is shorter than max_lazy; one discarded exactly if it is filtered or three bytes far back |
| Deflate.Deflater.SlowAdvance | zlib/deflate.c:2000-2009 | past the previous match, exactly its strings with three bytes of input inserted |
| Deflate.Deflater.SlowMatch | zlib/deflate.c:1986-2009 | one more token, the previous match; the data up to strstart is accounted for, and no literal is in suspense |
| Deflate.Deflater.SlowLiteral | zlib/deflate.c:2013-2024 | the literal in suspense is accounted for |
| Deflate.Deflater.SlowTally | zlib/deflate.c:1945-2042 | lazy evaluation: a match in suspense is coded if the one found at strstart is not longer; otherwise that one is in suspense, one byte further on |
| Deflate.Deflater.DeflateSlow | zlib/deflate.c:1926-2049 | at every loop head the tokens account for the data up to strstart, less the one literal in suspense |
| Deflate.Deflater.RunLength | zlib/deflate.c:2079-2096 | how often the previous byte repeats, at most 258 and the lookahead, and none fewer; 0 exactly if less than three times |
| Deflate.Deflater.RleTurn | zlib/deflate.c:2075-2114 | one more token: that run as a match at distance 1, and otherwise the literal |
| Deflate.Deflater.DeflateRle | zlib/deflate.c:2057-2125 | the same for runs |
| Deflate.Deflater.HuffTurn | zlib/deflate.c:2149-2154 | one more token: the literal at strstart |
| Deflate.Deflater.DeflateHuff | zlib/deflate.c:2130-2163 | the same for literals only |
| Deflate.Deflater.EndLoop | zlib/deflate.c:1911-1917 | the last block finishes the stream, or the block is completed |
| Deflate.Deflater.Align | zlib/deflate.c:1022-1037 | appends exactly the empty block of the kind of flush; a full flush leaves no string inserted, and from then on no match is tallied that reaches back over it |
| Deflate.Deflater.Deflate | zlib/deflate.c:763-1047 | input read is appended to the data and output to what was given; Z_STREAM_END means that the bytes given decode to exactly the data; a sync or full flush with output space left means that all data so far can be decoded, a full flush that the history is forgotten; Z_BUF_ERROR exactly if there is no room, nothing to do and no stronger flush than before, or input after the end |
| Deflate.RankOrder | zlib/deflate.c:155 | RANK orders the flush values strictly, Z_BLOCK between none and a partial flush |
| Deflate.Deflater.Output | zlib/deflate.c:763-1047 | at any time the stream so far decodes to a beginning of the data |
| RoundTrip.RoundTrips | zlib/inflate.c:622-1275 | after Z_STREAM_END an inflater fed those bytes in any pieces writes nothing but the data, and in the end exactly the data, having read exactly those bytes |
| RoundTrip.FlushShowsAll | zlib/deflate.c:1021-1043 | after a sync or full flush an inflater with nothing left to do has written all the data so far |
| RoundTrip.NothingElse | zlib/inflate.c:622-1275 | what an inflater makes of any part of the output is a beginning of the data |
| Crc.MakeCrcTable | zlib/crc32.c:89-128 | from the exponents of the polynomial: entry n of table k is what byte n and k zero bytes do to the register; tables 4 to 7 are the byte reversals |
| Polynomial.MakePattern | zlib/crc32.c:95-106 | the loop over the exponents reverses the polynomial with those terms: bit 31 - e for each e and no other |
| Polynomial.PatternIs | zlib/crc32.c:387 | the pattern is the constant written out in crc32_combine_ |
| CrcRemainder.RegisterIsRemainder | zlib/crc32.c:63-82 | from any start the register is congruent, modulo the polynomial with those exponents, to what went in: start times x^n plus the bits times x^32 |
| CrcRemainder.TheRemainder | zlib/crc32.c:63-82 | it is the only polynomial of degree below 32 that is |
| Crc.FeedAtOnce | zlib/crc32.c:109-113 | bits that go through the register one by one may as well be xor-ed in beforehand |
| Crc.ByteByTable | zlib/crc32.c:198 | a byte by the table is eight bit-serial steps |
| Crc.CrcBytes | zlib/crc32.c:225-233 | the byte-at-a-time loop computes the bit-serial CRC |
| Crc.WordByTable | zlib/crc32.c:260-262 | four bytes by four tables are 32 bit-serial steps |
| Crc.CrcLittle | zlib/crc32.c:266-296 | equals the bit-serial CRC for every buffer, start value and alignment |
| Crc.CrcBig | zlib/crc32.c:306-337 | the same on the byte-reversed register |
| Crc.CrcConcat | zlib/crc32.c:202-234 | the CRC of a concatenation goes on from the CRC of its first part |
| Crc.MatrixTimes | zlib/crc32.c:344-358 | the matrix of an operator applied to a vector is the operator |
| Crc.MatrixSquare | zlib/crc32.c:361-369 | the matrix for twice as many zero bits |
| Crc.CrcCombine | zlib/crc32.c:372-425 | len2 zero bytes go through crc1 by successive squarings |
| Crc.CombinedIsCrc | zlib/crc32.c:372-425 | for all byte sequences the combination of their CRCs is the CRC of their concatenation |
| Crc.Combine | zlib/crc32.c:372-425 | crc32_combine_ of the CRCs of two sequences is the CRC of the concatenation |
| Adler.NmaxIsLargest | zlib/adler32.c:14-15 | the sums fit in 32 bits for n bytes exactly if n is at most NMAX |
| Adler.AddOne | zlib/adler32.c:16 | one more byte; neither sum exceeds 32 bits within NMAX bytes |
| Adler.Adler32 | zlib/adler32.c:63-131 | equals the sums reduced after every byte, the first in the low and the second in the high 16 bits, for every reduced start value and buffer; 1 without a buffer |
| Adler.EitherWay | zlib/adler32.c:27-42 | wherever adler32_z reduces its sums they are small enough for the reductions without division: 32 bits for MOD, 28 for MOD28 after fewer than 16 bytes |
| Adler.Mod28Is | zlib/adler32.c:27-37 | equals the remainder for every 28-bit number |
| Adler.ModIs | zlib/adler32.c:38-42 | equals the remainder for every 32-bit number |
| Adler.Mod63Is | zlib/adler32.c:43-55 | equals the remainder for every number below 2^63 |
| Adler.Adler32Combine | zlib/adler32.c:143-169 | the combination of two checksums; 2^32-1 for a negative length |
| Adler.CombinedIsChecksum | zlib/adler32.c:157-168 | the checksums of two sequences combine to that of their concatenation |
| Pipeline.LockedQueue.Pop | queue.h:52-58 | takes the oldest item; only from a queue that is not empty |
| Pipeline.LockedQueue.Push | queue.h:60-63 | puts an item at the end |
| Pipeline.AsyncPerformRequests | extension.cpp:167-189 | takes requests in order until ten have entered curl or none is left; those whose InitCurl fails are deleted |
| Pipeline.TakesTen | extension.cpp:174-186 | a wake-up takes at least ten requests or all of them, and at most ten enter curl |
| Pipeline.PerfRuns | extension.cpp:167-189 | the steps of the transition system for one wake-up take and add the same requests as the method |
| Pipeline.StepInv | extension.cpp:60-290 | every step of either thread keeps the invariant |
| Pipeline.Pipelined | extension.cpp:60-290 | in every run each request is in exactly one place, is delivered at most once, enters curl in submission order, and is delivered in the order of completion, with none left out |
| Pipeline.PopsFindSomething | extension.cpp:203-206 | the frame hook never pops an empty queue although it looked without the lock |
| Pipeline.NoCycle | extension.cpp:203-211 | the threads never wait for each other's locks in a cycle, even when a callback submits a request |
| Pipeline.SomeoneRuns | extension.cpp:167-213 | unless both threads are idle, one of them can take a step |
| Pipeline.Drains | extension.cpp:174-186 | without new requests n queued ones are taken within ceil(n/10) wake-ups |
| Pipeline.FrameDelivers | extension.cpp:203-212 | a frame that finds completed requests and gets to its end has delivered the oldest, and leaves the others and those that arrived meanwhile |
| Pipeline.DeliversFound | extension.cpp:203-212 | in every run the deliveries are as many as the frames that found a completed request, in the order of completion: n requests are delivered by n such frames |
| Pipeline.FrameEnds | extension.cpp:203-212 | every such frame can get to its end without another step of the loop thread, once that is out of the lock |
| Pipeline.TransfersComplete | extension.cpp:60-90 | every transfer that finishes is put into the completed queue, once |
| Pipeline.WholeWay | extension.cpp:60-290 | a run in which a request is submitted, taken, transferred and delivered |
| Pipeline.StaysPosted | extension.cpp:198-201 | a posted wake-up stays posted until the loop thread acts on it |
| Pipeline.FramePosts | extension.cpp:198-201 | every frame that finds requests posts a wake-up that the idle loop thread can take |

## Left out

- Deflater: `deflate_stored` (level 0), `deflateParams`, `deflateTune`, `deflatePrime`, `deflateBound` and preset dictionaries; they are separate bookkeeping.
- Deflater: the contents of `pending_buf` are a sequence without a capacity, and `d_buf` and `l_buf` are arrays of their own; the overlay of the three is not modelled.
- Deflater: `high_water` and the zeroing of bytes after the data in the window, which only keeps memory checkers quiet; the comparisons may read any byte there.
- Inflater: zlib and gzip headers and trailers; the stream is raw, with a window of 32768 bytes.
- Inflater: `inflateBack`, `inflatePrime`, `inflateSync`, `inflateUndermine`, `inflateMark`, `inflateCopy` and `inflateSetDictionary`; the fields `back` and `was` that only some of these read.
- Inflater: flush values other than Z_NO_FLUSH, which only return earlier; the states TYPEDO, COPY_ and LEN_ are merged with TYPE, COPY and LEN.
- Inflater: allocation and its failure; the window is there from the start but counts as empty until it is first used.
- Inflate.MakeFixed: the fixed tables are built by `inflate_table` as under BUILDFIXED, not read from `inffixed.h`.
- Matching.MatchLength: the comparison unrolled eight times is one loop; the same bytes count.
- Inflate.Inflater.FastWindow: the copying loop unrolled three times for the rest of a match from the window is one loop.
- Deflate.Deflater.DeflateFast: which matches are chosen is stated turn by turn (`FastTurn`, `SlowTally`, `RleTurn`, `HuffTurn`); the contract of a whole loop only says what its tokens mean.
- Unaligned, 16-bit, assembler and FASTEST variants, and INFLATE_STRICT.
- Pipeline: `InitCurl` and the completion of a transfer are choices of the environment; curl, libuv and SourceMod are not part of this model. Unloading the extension is left out, and unlocked reads of `Empty` are single steps.
- `zlib/gz*.c`, `zlib/compress.c`, `zlib/uncompr.c` and all of `curl/`, the natives and the JSON code: file access, thin drivers and plumbing.
