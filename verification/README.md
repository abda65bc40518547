# Compression codecs: models and proofs

Dafny models of five components, each with both of its ends where it has two, and proofs about them.
`dafny verify dfyconfig.toml` checks everything.

**bzip2.** The block coder from the run-length code to the bits and back: the main block sort with its
budget, cached orders and synthesised buckets, and the fallback sort on its packed header bits; both
inverse transforms; move-to-front with zero runs (written over the sorted pointers by the encoder, kept in
sixteen windows by the decoder); code lengths, canonical codes and their decoding tables; header fields;
and the two streams that a caller drives with buffers of any size. The decoder is given its input in
pieces and stops in the middle of anything; what it comes to is compared with a function of all the bits,
for any bytes. `BzRoundTrip.ThereAndBack` puts the ends together. Files:

- sorting: `Permutations`, `Rotations`, `HeaderBits`, `ByteView`, `RadixPass`, `SegmentSort`,
  `SegmentSortStack`, `FallbackSort`, `MainCompare`, `MainSimple`, `MainQuick`, `MainBuckets`, `MainOrder`,
  `MainWalk`, `MainCopy`, `MainScan`, `MainSteps`, `MainSort`, `BlockSorting`;
- unsorting: `InverseBwt`, `PackedLinks`, `Unsort`;
- codes: `BitStream`, `BitFeed`, `CanonicalCodes`, `WeightHeap`, `Huffman`, `CodeLengths`, `MoveToFront`,
  `MtfEncoder`, `MtfWindows`, `SymbolStream`, `MtfDecoder`, `TableChoice`;
- blocks: `BlockFormat`, `BlockHeader`, `BlockWriter`, `BlockCodec`, `SectionSteps`, `SectionReader`,
  `BlockDecoder`, `BlockOutput`;
- streams: `RunLength`, `StreamFormat`, `StreamSpec`, `Streams`, `Compressor`, `StreamDecoder`, `BzRoundTrip`,
  `StreamExamples`.

**BriefLZ.** The packed format with its tag words reserved among the bytes, the encoder and both
decoders, and the packers of all ten levels: greedy, lazy, bucketed, the backwards parse on overlapping
work arrays, and the forwards parse over re-rooted binary trees, with its optimality. What every level
chooses is given as a function of the input, or by what no other parse can beat. Files `Blz*`.

**crush.** Bit packing, the hash chains in their ring, the codes of lengths and offsets, which matches are
chosen, compressor and decompressor. Files `Crush*`.

**fast-lzma2 thread pool.** The mutex and condition variable protocol, each critical section one step,
for any number of workers and any interleaving. File `ThreadPool`.

**fast-lzma2 dictionary buffer.** Single and double buffering with an aligned overlap and resets. File
`DictBuffer`.

Arrays that the programs write in place are arrays here, and objects whose fields are updated are
classes. Formats and decoders are also given as functions; methods are proved to agree with these, and
the round trips are proved about them.

## Model

| member | source | states |
|---|---|---|
| Rotations.KeyIsLexicographic | bzip2/blocksort.c:345-467 | comparing rotations through numeric keys is comparing their texts as strings, for every length compared |
| HeaderBits.SkipFlags | bzip2/blocksort.c:277-295 | scanning the header table bit by bit, then word by word, then bit by bit ends at the first flag that differs from the one wanted |
| HeaderBits.Raise | bzip2/blocksort.c:198-199 | raises one flag of the packed table and leaves every other flag as it was |
| ByteView.SetByte | bzip2/blocksort.c:216-238 | writing a byte of an array of words changes that byte of the byte view and no other |
| RadixPass.FillBuckets | bzip2/blocksort.c:233-245 | the counting pass leaves a permutation of all positions grouped by first character, each bucket starting where the smaller characters end |
| SegmentSort.SimpleSort | bzip2/blocksort.c:30-60 | the two-stride insertion sort rearranges only its segment and leaves it in order of rank |
| SegmentSort.Split | bzip2/blocksort.c:121-149 | the three-way partition leaves the segment rearranged into equal, less, greater, equal bands |
| SegmentSortStack.Round | bzip2/blocksort.c:105-178 | one turn of the stack loop sorts a segment or replaces it by two that halve it level by level |
| SegmentSortStack.QSort3 | bzip2/blocksort.c:92-180 | the explicit-stack quicksort sorts its range by rank, permutes nothing outside, and never fills its stack of 100 (assertion 1004 cannot fire) |
| FallbackSort.FillRanks | bzip2/blocksort.c:261-267 | before a pass every position is ranked exactly as the rotation h further on compares |
| FallbackSort.BucketRefined | bzip2/blocksort.c:296-312 | sorting a bucket by those ranks and marking the changes classifies it by twice as many characters |
| FallbackSort.NextBucket | bzip2/blocksort.c:274-297 | finds the next bucket of more than one row through the packed header bits and the sentinels |
| FallbackSort.Pass | bzip2/blocksort.c:253-316 | one pass turns rows classified by h characters into rows classified by 2h; when no bucket was refined all rows are distinct |
| FallbackSort.ClassifiedEnough | bzip2/blocksort.c:251-320 | rows classified by as many characters as the block has, or all distinct, are the sorted rotations |
| FallbackSort.FallbackSort | bzip2/blocksort.c:211-329 | ends with fmap a permutation listing all cyclic rotations in non-decreasing order and with the block restored in the words that held the ranks |
| FallbackSort.FindOrigPtr | bzip2/blocksort.c:1080-1088 | the row of the block itself exists and is found (assertion 1003 cannot fire) |
| MainCompare.MainGtU | bzip2/blocksort.c:345-469 | while quadrants tell only true orders, "greater" comes only for a rotation not below the other and "not greater" only for one not above it; nothing past place nblock + 33 is read, and the budget never grows |
| MainSimple.MainSimpleSort | bzip2/blocksort.c:484-560 | rearranges only its segment, whose rotations share d characters, and leaves it sorted unless the budget runs out |
| MainQuick.DepthDecides | bzip2/blocksort.c:657-687 | of rotations that share d characters the next one decides, or is shared as well |
| MainQuick.RoundStands | bzip2/blocksort.c:638-715 | a turn of the stack loop keeps the range sorted but inside the segments on the stack, which halve every second level and need ever less effort |
| MainQuick.MainQSort3 | bzip2/blocksort.c:620-717 | sorts a range whose rotations share two characters unless the budget runs out; the stack of 100 never holds more than 34 segments (assertion 1001 cannot fire) |
| MainBuckets.CountPairs | bzip2/blocksort.c:769-792 | counts the pairs of neighbouring characters, read from the end, and clears the quadrants |
| MainBuckets.PlacePairs | bzip2/blocksort.c:802-831 | leaves a permutation of all positions grouped by their first two characters, and the table at the start of each group |
| MainOrder.RunningOrder | bzip2/blocksort.c:836-861 | every big bucket once, in ascending order of size |
| MainWalk.KeysRank | bzip2/blocksort.c:907-933 | behind one character rotations are in the order of those a step further on, from either end; those that leave their character precede those that stay |
| MainWalk.WalkEnds | bzip2/blocksort.c:919-931 | reading a growing list of rotations and adding those one step back lists every rotation of the big bucket that is greater (from the right: less) than the one a step further on |
| MainCopy.LeftStep | bzip2/blocksort.c:919-924 | one turn of the first scan puts a rotation into the next place of its bucket, in which there is room |
| MainCopy.RightStep | bzip2/blocksort.c:925-930 | one turn of the second scan does so from the other end and overwrites nothing the first one wrote |
| MainScan.ScansDone | bzip2/blocksort.c:907-942 | after both scans every bucket [t, ss] with t not done is filled and sorted and all others are as they were; the scans meet, or the block is one character only (assertion 1007 cannot fire) |
| MainSteps.SortBuckets | bzip2/blocksort.c:867-905 | step 1: every small bucket [ss, j], j != ss, is sorted and marked, and no other is disturbed |
| MainSteps.Synthesise | bzip2/blocksort.c:907-942 | step 2: from these the buckets [t, ss] of all characters not done follow sorted |
| MainSort.RenewQuadrants | bzip2/blocksort.c:987-1003 | step 3: the new quadrants, overshoot included, still tell only true orders and fit 16 bits (assertion 1002 cannot fire) |
| MainSort.MainSort | bzip2/blocksort.c:751-1011 | with the budget not below zero at the end, ptr lists all rotations in non-decreasing order |
| BlockSorting.SameColumn | bzip2/blocksort.c:1056-1061 | whichever sort was used, the last column is the same, for every block |
| BlockSorting.SameRows | bzip2/blocksort.c:1056-1061 | all sorts give the same rows exactly if no two rotations of the block are alike |
| BlockSorting.Budget | bzip2/blocksort.c:1056-1066 | the work allowed is at most 33 a byte, none for the lowest factors |
| BlockSorting.BlockSort | bzip2/blocksort.c:1031-1088 | short blocks by the fallback sort, others by the main sort and, when its budget has run out, the fallback sort: sorted rotations, the block unchanged, and the row of the block |
| InverseBwt.StableRankShifts | bzip2/decompress.c:556-564 | the stable sort of the last column takes a row to one reading one character earlier, also when rotations repeat |
| InverseBwt.ShowsNext | bzip2/bzlib_private.h:444-448 | following the inverse of that sort moves one position on in the block |
| PackedLinks.SetEntry | bzip2/bzlib_private.h:457-475 | a 20-bit entry split over a word and a nibble is stored without touching any other entry, its pair included |
| Unsort.BuildLinks | bzip2/decompress.c:556-563 | building the links above the characters in one array keeps every character readable and links each row to the next |
| Unsort.ReversePointers | bzip2/decompress.c:535-544 | pointer reversal turns round exactly the cycle through origPtr, whatever other cycles the block has |
| Unsort.IndexIntoF | bzip2/bzlib.c:687-698 | the bisection finds the character whose bucket holds the row |
| Unsort.UnsortInverts | bzip2/decompress.c:507-580 | the column of a block's sorted rotations, read along its links from the row that is the block, is the block |
| Unsort.ReadFast | bzip2/decompress.c:507-580 | any column in any order, with any start row, is read in the fast form as its links say, no access leaving the block |
| Unsort.ReadSmall | bzip2/decompress.c:525-553 | so it is in the small form with its packed entries and reversed pointers |
| BitStream.BitsOfShifted | bzip2/compress.c:73-79 | shifting new bits in below the old ones appends them |
| BitStream.BitWriter.W | bzip2/compress.c:58-79 | appends exactly the n low bits of v to what has been written, whole bytes leaving the buffer on the way |
| BitStream.BitWriter.FinishWrite | bzip2/compress.c:46-55 | sends out what is pending, up to 32 bits, padded with fewer than eight |
| BitFeed.Feed.GetBits | bzip2/decompress.c:43-64 | delivers the next n bits of all that was and will be fed; if there are too few yet, all input has been taken in and no pending bit is lost |
| CanonicalCodes.AssignCodes | bzip2/huffman.c:150-163 | every symbol gets its canonical code |
| CanonicalCodes.PrefixFree | bzip2/huffman.c:150-163 | while Kraft's sum is at most 1, codes fit their lengths and none begins another |
| CanonicalCodes.CreateDecodeTables | bzip2/huffman.c:168-200 | the limit, base and perm tables belong to the lengths, and no table made from any lengths leads outside the alphabet |
| CanonicalCodes.FetchFinds | bzip2/decompress.c:88-101 | the loop over the tables reads each code word back as its symbol, whatever follows |
| CanonicalCodes.ScanConfined | bzip2/decompress.c:88-101 | for tables made from any lengths at all and any bits, a symbol read is in the alphabet |
| CanonicalCodes.FetchSame | bzip2/huffman.c:168-200 | all tables made from the same lengths read the same symbols from any bits, whatever else they hold |
| WeightHeap.UpHeap | bzip2/huffman.c:38-46 | sifting up keeps the entries and restores the heap order |
| WeightHeap.DownHeap | bzip2/huffman.c:48-59 | sifting down keeps the entries and restores the heap order |
| Huffman.MergeCheaper | bzip2/huffman.c:96-114 | whatever lengths the codes have, the two lightest nodes can be made one so that the rest costs less by at least their weight |
| CodeLengths.MergeKeeps | bzip2/huffman.c:96-114 | merging the two lightest roots keeps sums, retirement order and the growth that bounds depths |
| CodeLengths.ClimbGrows | bzip2/huffman.c:96-131 | weights grow at least like the Fibonacci numbers on the way to the root |
| CodeLengths.TooLongIsHeavy | bzip2/huffman.c:119-131 | a tree deeper than 12 has a total weight above two a leaf |
| CodeLengths.FlattenTotal | bzip2/huffman.c:143-147 | flattening lowers the total, unless all weights are at most two already |
| CodeLengths.TreeKraft | bzip2/huffman.c:119-131 | depths of a whole tree have Kraft sum exactly 1 |
| CodeLengths.TreeCheapest | bzip2/huffman.c:96-131 | the depths of the leaves cost no more, weight by weight, than any lengths whose Kraft sum is at most 1, however long |
| CodeLengths.HeavierShorter | bzip2/huffman.c:119-131 | in such lengths a heavier symbol never has the longer one |
| CodeLengths.MakeCodeLengths | bzip2/huffman.c:63-148 | for every frequency vector within the block limits it ends with lengths from 1 to maxLen and Kraft sum exactly 1 that no prefix code beats for the starting weights, flattened as often as cheapest lengths came out longer than maxLen and no oftener |
| CodeLengths.MoreOftenShorter | bzip2/huffman.c:79-131 | where nothing is flattened a symbol that occurs more often has no longer code |
| MoveToFront.RunDecodes | bzip2/compress.c:173-197 | the digits RUNA and RUNB sent for a run add up to its length |
| MoveToFront.UndoCodes | bzip2/decompress.c:381-492 | undoing the codes, runs and list positions, gives back what was coded, for any list and any sequence within it |
| MtfEncoder.GenerateMtfValues | bzip2/compress.c:118-230 | the codes written over the sorted pointers are those of the block's last column and are counted right; no pointer is overwritten before it is read |
| MtfWindows.InitWindows | bzip2/decompress.c:364-376 | the sixteen windows list 0 to 255 |
| MtfWindows.Rebuild | bzip2/decompress.c:463-477 | moving all windows back to the top of the array leaves the list as it is |
| MtfWindows.TakeToFront | bzip2/decompress.c:429-481 | delivers entry nn and leaves exactly the plain list with that entry moved to the front, the windows disjoint and inside the array |
| SymbolStream.StreamRoundTrip | bzip2/decompress.c:74-102 | codes written under any grouping and any complete tables are read back, with the bits behind them untouched |
| SymbolStream.StreamSame | bzip2/decompress.c:74-102 | the symbols read depend on the lengths and selectors only |
| SymbolStream.SymbolReader.Next | bzip2/decompress.c:74-102 | delivers the next symbol, changing tables every fifty, or the error; run out of input in the middle of a symbol, it keeps what it has of it and goes on from there |
| MtfDecoder.DataState.Take | bzip2/decompress.c:383-492 | a digit of a run, the end, or a place in the list, decoded in place, leaves the codes to come standing for the rest of the block |
| MtfDecoder.DataState.Resume | bzip2/decompress.c:356-500 | however the input is cut, what is stored in the end is what the codes of the whole stand for, and a failure is reported exactly when the codes have it |
| BlockHeader.BodyRoundTrip | bzip2/decompress.c:242-335 | reading a written header gives back every field |
| BlockHeader.SectionRoundTrip | bzip2/decompress.c:222-335 | a written section is read as what it is, block or end of stream |
| SectionSteps.BodyFrom | bzip2/decompress.c:242-335 | the fields of a block header, one stage after the other, are those of the parse of its bits |
| SectionSteps.StepAgrees | bzip2/decompress.c:222-335 | from every place the header may have been left at, reading one number more, or finding it wrong, agrees with the parse of all bits |
| SectionSteps.TooFew | bzip2/decompress.c:43-64 | bits that do not make up the next number make up no header |
| SectionReader.SectionState.Resume | bzip2/decompress.c:167-191 | going on from what was saved with any input finds the section, or the error, that the bits as a whole have |
| SectionReader.UnplaceAll | bzip2/decompress.c:303-320 | undoing the move-to-front coding of the selectors in place gives what the parse gives |
| BlockWriter.PutHeader | bzip2/compress.c:629-651 | writes exactly the bits of a block's header |
| BlockWriter.PutMap | bzip2/compress.c:499-521 | the two-level map of bytes in use is written as it is read |
| BlockWriter.PutData | bzip2/compress.c:551-596 | writes each code in the table its group selects |
| TableChoice.BestTable | bzip2/compress.c:325-375 | picks a table that none is cheaper than for the group, every earlier one being dearer |
| TableChoice.ChooseAll | bzip2/compress.c:313-390 | every group has the first of the cheapest tables for it, and each table counts exactly the codes of the groups it was given |
| TableChoice.SettleTables | bzip2/compress.c:313-465 | from any first guess, four passes, each giving every group its cheapest table and remaking every table as cheapest lengths for the codes it was given; every table is complete with lengths 1 to 17 |
| BlockCodec.CompressBlock | bzip2/compress.c:602-651 | appends to the bits written those of an encoding of the block, whose selectors and tables come from such a pass |
| BlockCodec.TablesWrite | bzip2/compress.c:440-495 | tables settled on can write every code of the block |
| BlockCodec.ColumnDecodes | bzip2/decompress.c:356-500 | the data written for a block decodes to the last column of its sorted rotations |
| BlockCodec.HeaderDecodes | bzip2/decompress.c:242-335 | a written header is read as itself, its data coming next |
| BlockCodec.DataDecodes | bzip2/decompress.c:356-500 | the data of a written block decode to its codes, and exactly its bits are used up |
| BlockCodec.ColumnIs | bzip2/decompress.c:356-500 | the column decoded is that of the sorted rotations |
| BlockDecoder.StartData | bzip2/decompress.c:336-380 | after any header that was read, what the data will decode to is what the bits have, with tables made from the lengths read |
| BlockDecoder.OpenBlock | bzip2/decompress.c:494-582 | any column within the block size, from anyone, is opened in either form; its characters are those its links read |
| RunLength.UnrlePairs | bzip2/bzlib.c:214-243 | decoding the runs as written gives the text they came from, runs of four to 255 with their counts |
| RunLength.WritePending | bzip2/bzlib.c:252-256 | writing the pending run out adds its text and nothing else |
| Compressor.EState.AddCharToBlock | bzip2/bzlib.c:261-284 | one character more adds exactly itself to the text of the runs and the pending run |
| Compressor.EState.AddPairToBlock | bzip2/bzlib.c:214-247 | the pending run goes into the block in at most five bytes, marked in the map and counted in the checksum |
| Compressor.EState.CopyInputUntilStop | bzip2/bzlib.c:287-330 | takes input to the end, to a full block or to what was announced; the block never exceeds 100000 * blockSize100k - 10 bytes after the last run is written |
| Compressor.EState.CopyOutputUntilStop | bzip2/bzlib.c:332-357 | hands out the compressed bytes in order, once each |
| Compressor.EState.CompressGathered | bzip2/bzlib.c:376-393 | the gathered block joins the stream and the checksum of all blocks |
| Compressor.EState.PrepareNewBlock | bzip2/bzlib.c:117-127 | forgetting bytes that have all been handed out loses nothing |
| Compressor.EState.HandleTurn | bzip2/bzlib.c:359-400 | one turn moves bytes whenever some wait and there is room, or there is input, or a last block is to be made of what there is |
| Compressor.EState.HandleCompress | bzip2/bzlib.c:359-403 | keeps the account of every byte over any alternation of input and output; outside a flush it makes progress exactly when bytes can move, and it leaves nothing waiting while there is room |
| Compressor.EState.BzCompress | bzip2/bzlib.c:407-464 | the code of every call, by mode, action, announced and present input and what can move: SequenceError and ParamError exactly when the program gives them, nothing moved; FlushOk and FinishOk only with the room used up; the end only when the finished bits of exactly the bytes taken are all handed out, a flush only when nothing is held back; a Run closes only full blocks, the other calls at most a last one that is not |
| BlockOutput.CharSource.Get | bzip2/bzlib_private.h:133-149 | delivers the characters of any block in order in both forms, those of a randomised block masked |
| BlockOutput.TurnComes | bzip2/bzlib_private.h:133-149 | the countdown is at one exactly for the last character but one of an interval of two or more, by the running sums of the intervals |
| BlockOutput.ChangedCharacters | bzip2/bzlib_private.h:133-149 | in a randomised block, all intervals being at least one, exactly those characters are changed, in their lowest bit |
| BlockOutput.OutputState.StartRun | bzip2/bzlib.c:589-606 | takes up to three like characters, or four and their count |
| BlockOutput.OutputState.UnrleFast | bzip2/bzlib.c:536-681 | hands out the text of the block in order, any number of bytes at a time; a block ending without its count is reported |
| BlockOutput.OutputState.UnrleSmall | bzip2/bzlib.c:703-803 | so does the small form |
| StreamDecoder.DState.ReadSection | bzip2/decompress.c:222-340 | with any input reads on in a section and comes to the block, the end or the error that all bits have, the combined checksum included |
| StreamDecoder.DState.HandOut | bzip2/bzlib.c:818-852 | hands out as much of a block as there is room for; once all is out its checksum decides |
| StreamDecoder.DState.BzDecompress | bzip2/bzlib.c:808-858 | any bytes, cut in any way at both ends: the end is reported exactly when the bytes decode to a text and all of it is out, an error only if they do not; MagicError exactly if the bytes given are no beginning of 42 5A 68 and a digit from 31 to 39, DataError only behind such a header |
| StreamDecoder.ReadBack | bzip2/bzlib.c:808-858 | reading any stream that decodes to a text, fed and taken in pieces of any size, gives that text |
| BzRoundTrip.BlockDecodes | bzip2/compress.c:602-665 | one written block decodes to its text, and the rest of the stream follows |
| BzRoundTrip.FinishedDecodes | bzip2/compress.c:602-665 | every stream the compressor can finish decodes to the text of its blocks |
| BzRoundTrip.EndedStream | bzip2/bzlib.c:407-464 | a compressing stream brought to its end by any calls has handed out a finished stream of exactly the bytes taken |
| BzRoundTrip.ThereAndBack | bzip2/bzlib.c:407-464 | and decompressing it gives those bytes, in either form, fed and taken in pieces of any size |
| StreamExamples.EmptyDecodes | bzip2/decompress.c:197-340 | the fourteen bytes of the empty stream, for each block size, decode to nothing with nothing left over |
| StreamExamples.LetterDecodes | bzip2/compress.c:602-665 | 37 bytes written out, a stream of one block, are a stream the compressor may finish with for the text of one 'a', and decode to it when the checksum rule gives the four bytes stored |
| BlzFormat.PutReads | brieflz/brieflz.c:282-354 | bits and bytes put through reserved two-byte tags are read back in order, so both sides agree where each tag stands |
| BlzTokens.GammaReads | brieflz/brieflz.c:356-397 | a gamma code reads as its value |
| BlzTokens.TokensRead | brieflz/depack.c:180-224 | tokens that spell the input are read back as the input |
| BlzTokens.DepackPacked | brieflz/depack.c:180-224 | any tokens that spell x pack to bytes that unpack to x |
| BlzEncoder.PutBitsAll | brieflz/brieflz.c:301-353 | putting bits at once is putting them one by one, also across the end of a tag |
| BlzEncoder.BlzState.PutBits | brieflz/brieflz.c:301-353 | the 32-bit shift form does that |
| BlzEncoder.EntryIsGamma | brieflz/brieflz.c:79-215 | every entry of the encoder's table is the gamma code built bit by bit |
| BlzEncoder.BlzState.PutGamma | brieflz/brieflz.c:355-397 | puts the gamma code of its value, by table or bit by bit |
| BlzEncoder.BlzState.Finalize | brieflz/brieflz.c:399-417 | completes the last tag, giving the whole packed bytes |
| BlzDecoder.DecodeIsWalk | brieflz/depack.c:39-104 | every entry of the decoder's table agrees with reading pairs of bits one by one |
| BlzDecoder.DepackState.GetGamma | brieflz/depack.c:147-178 | with the table, the gamma code is read as bit by bit |
| BlzDecoder.DepackFast | brieflz/depack.c:180-224 | for bytes that unpack to the size, gives what they unpack to |
| BlzDecoder.DepackSafe | brieflz/depacks.c:208-290 | on any bytes terminates inside both buffers and succeeds exactly when they unpack to the size, with the same bytes |
| BlzChoice.ExtendsBack | brieflz/brieflz_lazy.h:127-136 | a match of the next position that also fits one byte earlier is a match here |
| BlzChoice.RecentIs | brieflz/brieflz_hashbucket.h:100-114 | the k-th last position has the hash and k positions with it behind it; there is none if fewer have it |
| BlzChoice.GreedyTakes | brieflz/brieflz.c:502-548 | level 1 takes all that agrees with the last position of the same hash exactly if that is five bytes, or four at an offset below 0x7E00; else a literal |
| BlzChoice.NothingAlike | brieflz/brieflz.c:509-548 | where no earlier position has the hash, levels 1 and 2 write a literal |
| BlzChoice.LazyTakes | brieflz/brieflz_lazy.h:104-169 | where level 1's match is worth writing level 2 takes one at least as long, or a literal exactly if the last position of the next one's hash gives a match that looks better and does not reach back |
| BlzChoice.BestOutdoes | brieflz/brieflz_hashbucket.h:116-152 | no position of the bucket agrees for more than the best match has, or for one character more at over eight times its offset, unless the best is of the accepted length |
| BlzChoice.BucketTakes | brieflz/brieflz_hashbucket.h:154-244 | levels 3 and 4 take a match at least as long as the best one, or a literal because a position of the next bucket looks better than one as long |
| BlzLookup.InsertFront | brieflz/brieflz_hashbucket.h:102-114 | after an insertion every bucket holds the last positions with its hash, the latest first |
| BlzLookup.Pack | brieflz/brieflz.c:457-574 | level 1: whatever the table held, the packed bytes are those of tokens that spell the input, each the one chosen where it stands |
| BlzLookup.PackLazy | brieflz/brieflz_lazy.h:45-190 | level 2: the same with level 2's choices |
| BlzLookup.PackHashBucket | brieflz/brieflz_hashbucket.h:57-260 | levels 3 and 4: the same with theirs, for any bucket size and accepted length |
| BlzCost.TokenEventsCost | brieflz/brieflz.c:243-255 | the cost function is the number of bits a token is written in |
| BlzCost.PackedFits | brieflz/brieflz.c:438-442 | a parse of at most nine bits a byte fits the published bound |
| BlzLeparse.SweepSettles | brieflz/brieflz_leparse.h:141-226 | after the backwards sweep every entry is a true token with the cost of the path it starts, at most nine bits a byte, left-extended ones included |
| BlzLeparse.NoOverflow | brieflz/brieflz_leparse.h:182-190 | with 9 * n below 2^32 the assertion on match costs holds: none is as large as what is left to the largest word |
| BlzLeparse.SweepSame | brieflz/brieflz_leparse.h:141-226 | what stood in the table before the sweep makes no difference to what the swept table tells |
| BlzLeparse.PathParses | brieflz/brieflz_leparse.h:228-250 | following the table spells the input at the cost the table gives |
| BlzLeparseShared.SharesEntered | brieflz/brieflz_leparse.h:97-112 | writing an entry of the overlapping arrays reads as writing it in separate ones |
| BlzLeparseShared.BuildChains | brieflz/brieflz_leparse.h:114-133 | each link is the last earlier position with the same hash, which determines the chains |
| BlzLeparseShared.PackLeparse | brieflz/brieflz_leparse.h:54-255 | on the shared array the tokens are those of the parse over separate arrays, a function of input, depth and accepted length; their cost is at most nine bits a byte and the output fits the bound |
| BlzLeparseChoice.SearchWeighs | brieflz/brieflz_leparse.h:157-225 | a search leaves its position no dearer than any length of any match it looked at, and looks at as many as depth allows unless one is long enough or is carried left |
| BlzLeparseChoice.LeparseChooses | brieflz/brieflz_leparse.h:141-250 | the tokens are the path of a table that has considered every position: each entry is that of the next one carried left, or no dearer than a literal and every match weighed |
| BlzLeparseChoice.LeparseWeighsNearest | brieflz/brieflz_leparse.h:141-226 | at any depth what is not carried is no dearer than every length of the match with the last earlier position of its hash |
| BlzLeparseChoice.LeparseWeighsAll | brieflz/brieflz_leparse.h:141-226 | without limits, where nothing is carried, no dearer than every length of the match with any earlier position of its hash |
| BlzTree.SplitOrdered | brieflz/brieflz_btparse.h:184-280 | splitting a tree at a string keeps both halves ordered and on their sides of it |
| BlzTree.LostToCur | brieflz/brieflz_btparse.h:226-262 | with depth enough a position is dropped only for a nearer one that agrees as far as can still matter |
| BlzTreeArray.DescendDown | brieflz/brieflz_btparse.h:263-279 | one step down with two open slots keeps the promise that filling them makes the re-rooted tree |
| BlzForward.NoCheaperParse | brieflz/brieflz_btparse.h:130-283 | a table relaxed by every token tried gives no parse made of such tokens more than it costs |
| BlzForward.BackIsCheapest | brieflz/brieflz_btparse.h:296-303 | the tokens arriving at the end are then a cheapest parse |
| BlzBtparse.CoveredNext | brieflz/brieflz_btparse.h:165-283 | every earlier position stays in its tree, or a nearer one that agrees with it as far as can still matter |
| BlzBtparse.RootRelaxes | brieflz/brieflz_btparse.h:153-239 | within limits, at every position outside matches of the accepted length every length of the match with the last position of its hash has been tried |
| BlzBtparse.SearchTree | brieflz/brieflz_btparse.h:165-283 | the search makes cur the root of its tree, tries every length of the match with the old root and, at full depth, every match the format allows at its nearest position |
| BlzBtparseMain.Gather | brieflz/brieflz_btparse.h:294-303 | moving the tokens to the end of the arrays they are read from loses none |
| BlzBtparseMain.PackBtparse | brieflz/brieflz_btparse.h:54-331 | the output spells the input and fits the published bound; at any depth no parse is cheaper whose matches are with the last position of the same hash and outside matches of the accepted length; with depth and length unlimited none at all; while costs are far from overflow |
| BlzLevels.FiveFar | brieflz/brieflz.c:516-525 | a match of five bytes, taken however far back it is, costs more than five literals exactly from offset 67108352 on |
| BlzLevels.ChosenFits | brieflz/brieflz.c:516-548 | what levels 1 to 4 choose from within that distance fits the published bound |
| BlzLevels.PackLevel | brieflz/brieflz.c:601-629 | levels 1 to 10 pack tokens that spell the input, others are refused; the tokens are those the level chooses with its parameters: one by one (1 to 4), those of the backwards parse (5 to 7), cheapest of those tried (8 and 9), cheapest of all (10); all levels fit the bound, levels 1 to 4 up to that size and the others while costs fit a word |
| BlzLevels.RoundTrip | brieflz/brieflz.c:601-629 | the bytes packed at every level are the level's tokens, unpack to the input, and are given back by both decoders |
| CrushBits.BitSink.PutBits | crush/crush.cpp:37-47 | appends the n bits of x lowest first, 31 bits sufficing for what is pending |
| CrushBits.BitSource.GetBits | crush/crush.cpp:55-66 | delivers the next n bits, reading only as many bytes as hold them |
| CrushBits.LowBitsAppend | crush/crush.cpp:39 | or-ing a number in above the pending bits puts its bits behind them |
| CrushFormat.LengthReads | crush/crush.cpp:232-262 | the six tiers of lengths decode uniquely |
| CrushFormat.OffsetReads | crush/crush.cpp:264-271 | the slots of offsets decode uniquely |
| CrushFormat.TokenReads | crush/crush.cpp:226-278 | every literal and match is read back, with the bits behind it |
| CrushFormat.TokenCost | crush/crush.cpp:187-188 | ruling out the shortest far matches, no token takes more than nine bits a byte |
| CrushFormat.TellsMore | crush/crush.cpp:315-356 | bits that unpack to a beginning of x, and then a true token, unpack to that much more of it |
| CrushChains.Rolls | crush/crush.cpp:105-113 | a rolled hash is the hash of the last three or four characters, nothing older left in it |
| CrushChains.LinksGrow | crush/crush.cpp:281-289 | overwriting a slot of the ring keeps the link of every position still in the window |
| CrushChains.InsertOne | crush/crush.cpp:281-289 | after an insertion heads and links are the last positions with each hash, never stale |
| CrushChoice.BestAtLeastShort | crush/crush.cpp:165-180 | the match found is no shorter than that with the last position of the three characters' hash |
| CrushChoice.BestOutweighs | crush/crush.cpp:182-205 | no position on the chain of four characters, as far as the level follows it, agrees for more than the match found has and the eighth cuts its distance costs |
| CrushChoice.TakenAtLeast | crush/crush.cpp:207-208 | at levels 0 and 1 what was found is taken, unless it is of the least length and too far |
| CrushChoice.NextLongerHas | crush/crush.cpp:210-241 | level 2 gives a match up only if a position of the next one's chain is longer by more than its distance costs |
| CrushChoice.NextLongerIf | crush/crush.cpp:210-241 | and it does so whenever a position within the chain's depth is |
| Crush.Penalty | crush/crush.cpp:125-134 | counts how often a must be cut to an eighth to be no more than b |
| Crush.Choose | crush/crush.cpp:165-241 | chooses exactly what the searches over the text find and the rules on distance and the next position leave: a literal, or a true match of length 3 to 566 at an offset from 1 to the window's size |
| Crush.Compress | crush/crush.cpp:136-301 | at each level the output is the bits of the tokens chosen position by position, unpacks to the input and takes at most nine bits a byte |
| Crush.Decompress | crush/crush.cpp:304-356 | gives what the bits unpack to, overlapping copies included; 0 for an offset before the start |
| Crush.RoundTrip | crush/crush.cpp:136-356 | what is compressed at every level is the tokens chosen, keeps its bound, unpacks to the input and is decompressed to it |
| ThreadPool.Pool.Section | fast-lzma2/fl2_pool.c:60-85 | a worker's critical section counts its job done and wakes the waiter, then sleeps, leaves, or takes the next index |
| ThreadPool.Pool.Pop | fast-lzma2/fl2_pool.c:72-75 | the index taken had been handed to no one |
| ThreadPool.Pool.StartCall | fast-lzma2/fl2_pool.c:79 | read after the unlock, function and argument are still those of the range the index is from, and the index's call has not begun before |
| ThreadPool.Pool.AddRange | fast-lzma2/fl2_pool.c:151-167 | a range added after the last wait makes its indices, and no others, the ones to be taken |
| ThreadPool.Pool.WaitCheck | fast-lzma2/fl2_pool.c:186-187 | when the locked wait leaves without shutdown, the call of every index of every range has returned |
| ThreadPool.Pool.SomeoneGoesOn | fast-lzma2/fl2_pool.c:63-82 | while the caller sleeps some worker is neither asleep nor gone: no wake-up is lost |
| ThreadPool.Pool.WaitAll | fast-lzma2/fl2_pool.c:170-190 | under every interleaving, with any given number of wake-ups for no reason, the wait ends, with each index handed to one worker and its call returned |
| ThreadPool.Pool.NoIndexTwice | fast-lzma2/fl2_pool.c:72-75 | no two workers hold the same index |
| DictBuffer.DictBuffer.Init | fast-lzma2/dict_buffer.c:34-61 | starts anew with any size and overlap, keeping arrays that are large enough |
| DictBuffer.DictBuffer.Put | fast-lzma2/dict_buffer.c:121-133 | takes as much input as fits, in order, and disturbs nothing before it |
| DictBuffer.DictBuffer.GetBlock | fast-lzma2/dict_buffer.c:146-159 | hands out exactly the bytes not handed out yet, with the input just before them in front, none older than the last reset; the total stays within the reset interval; the hash has had the same bytes |
| DictBuffer.DictBuffer.Shift | fast-lzma2/dict_buffer.c:177-218 | keeps at least the overlap and fewer than 16 bytes more, cut off at a multiple of 16, at the front of the next array, or resets; happens exactly when needed; of two arrays the one left is untouched |
| DictBuffer.DictBuffer.Carry | fast-lzma2/dict_buffer.c:198-216 | the kept bytes, from a multiple of 16 on, are copied right, overlapping moves within one array included |
| DictBuffer.DictBuffer.ShiftMakesRoom | fast-lzma2/dict_buffer.c:177-218 | when all has been handed out and the overlap fits with its alignment, a shift makes room |
| DictBuffer.DictBuffer.Feed | fast-lzma2/fl2_compress.c:966-995 | over a whole run the blocks handed out concatenate to the input and, with two arrays, each stays as it was until the next |

## Left out

- MainSort.MainSort: block, quadrants and the pointers of the fallback sort are arrays of their own; in the program the first two share one allocation with the words the fallback sort uses, and work arrays live as long as the stream.
- MainCompare.MainGtU: comparisons written out one after the other in the program are loops of twelve and of eight; likewise the unrolled counting and placing loops.
- StreamDecoder.DState.BzDecompress: after an error no further call is made.
- BlockOutput.CharSource.Get: the 512 intervals of randomised blocks may be any numbers.
- SectionReader.SectionState.Resume: the labels and saved locals of the program are one record with a stage; a number wider than eight bits is asked for byte by byte, as there.
- The first partition of the coding tables in `sendMTFValues`: any first guess is allowed, which is more than the program can make.
- TableChoice.SettleTables: frequencies and costs are natural numbers, since 900000 codes keep them far from 16 and 32 bits.
- Checksums: block and stream checksums are a fold with any step function, compared as the program compares them; `LetterDecodes` asks of it the checksum of one character.
- Verbosity, allocation and its callbacks, the 64-bit byte counters, the file layer and the command line of bzip2.
- HeaderBits.SkipFlags: words of the header table are natural numbers below 2^32 with functions for their bits.
- Unsort.BuildLinks: the or of a shifted link into a word whose upper part is clear is written as an addition.
- Loops that test at their end are written with the test at the beginning and the first turn before them.
- BitStream.BitWriter.W: the output bytes are a growing sequence; that they fit the space behind the block in the program's array is not stated.
- Hash functions of BriefLZ and crush are the programs'; nothing depends on them but which matches are found.
- BlzBtparseMain.PackBtparse: at limited depth only matches with the last position of a hash are named as tried; the positions further down the tree are tried as far as depth goes, and which they are is not stated.
- BlzEncoder.EntryIsGamma: the encoder's table is given by the recurrence its 512 entries follow, not entry by entry.
- The costs of levels 8 to 10 are natural numbers with the program's rescaling; what no parse can beat, and the bound, are stated where rescaling cannot happen.
- BlzLevels.PackLevel: output grows as needed. Levels 1 to 4 weigh no costs; beyond inputs of 67108352 bytes, where single matches of five bytes can take more than nine bits a byte (`FiveFar`), the published bound is not stated for them. Work memory is allocated per call.
- Crush.Decompress: stated for bits that do not run out and output that fits its array, the program checking neither.
- The unlocked early return and the timed wait of `FL2POOL_waitAll`, thread creation failing, and joining.
- DictBuffer.DictBuffer.Init: allocation always succeeds, and sums of sizes stay below 2^64.
- The other codecs of the repository, which are not there with both ends, and the benchmark around them.
