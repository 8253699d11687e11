# DEFLATE in zlib 1.2.8, modelled and proved in Dafny

zlib compresses bytes into DEFLATE streams (RFC 1951) and back. This project models both
directions for raw streams, from the bit buffer and the Huffman trees up to `deflate()` and
`inflate()`, and the two checksums. The code that works by updating things in place is
modelled as classes and methods over arrays; each is proved against a specification on
values, and the specifications are related to each other by lemmas.

The main results:

- **Round trip.** Whatever level, strategy, window size, memory level, flush modes and cutting
  of the input and of the output a compressor is run with, what it has delivered when it
  returns `Z_STREAM_END` is read back by a decoder, however that one is fed and drained, as
  exactly the original data (`Deflate.Compressor.Deflate`, `Streams.RoundTrip`).
- **Resumability.** What `inflate()` yields depends on the bytes of the stream only, not on how
  input and output were cut into buffers, for every stream whose distances fit the window
  (`Streams.SameOutcome`, `Streams.Prefix`).
- **Table space.** `ENOUGH_LENS` and `ENOUGH_DISTS` are enough: no set of code lengths that a
  block can announce and `inflate_table` accepts runs out of table space
  (`Enough.EnoughSpace`). The source refers to an exhaustive search for these constants; here
  they follow from a count of the codes that a sub-table must hold.
- **Expansion.** A stream made with `Z_NO_FLUSH` and `Z_FINISH` alone is never longer than the
  conservative formula of `deflateBound()`, and with that much space it is finished.
- **Huffman coding.** `build_tree` gives an optimal prefix code unless a length had to be cut;
  the cutting ends with a complete code within the limit and is determined by the depths
  (`HuffmanOrder.CutDetermined`); `inflate_table` accepts exactly the lengths it should and its
  tables decode the canonical code.
- **Exact costs.** `opt_len` and `static_len` are the lengths in bits of what is written, and no
  other kind of block would have been shorter.
- **Matches.** Hash chains hold all strings of a hash; `longest_match` examines them nearest
  first, although it never compares the third byte, and reports the nearest of the longest.
- **Lazy matching.** All tokens of a compressor follow from what was found at each string: a
  match is taken exactly if the next string has none that is longer (`Choices.LazyRule`), and
  every string is searched that should be (`Deflate.Compressor.DeflateSlow`).
- **The fast loop.** `inflate_fast` takes the steps of the slow modes, within six bytes of input
  and 258 of output an iteration.
- **Checksums.** The table-driven, slice-by-four and blocked forms equal the one-line
  definitions, the combine functions give the checksum of the concatenation, and the CRC of a
  text with its own CRC behind it is the one known residue (`Crc.Residue`).

How the parts fit together:

| layer | files |
|---|---|
| bits and the canonical code | `Bits`, `Canonical`, `GenCodes`, `BitWriter`, `Accumulator` |
| decoding tables | `TableSpace`, `InflateTable`, `Enough` |
| symbols, run lengths, blocks as bit strings | `Symbols`, `CodeLengths`, `Blocks` |
| Huffman trees | `HuffmanCost`, `Heap`, `HuffmanTree`, `Depths`, `LengthLimit`, `Leaves`, `BuildTree`, `HuffmanOrder` |
| writing blocks | `BlockCost`, `TokenWriter`, `FlushBlock`, `Expansion` |
| matching | `Hash`, `HashChains`, `Matcher`, `Window`, `Choices`, `Lossless`, `Deflate` |
| decoding | `Inflater` (one step of an abstract decoder on a bit string), `InflaterRuns`, `ExactRuns`, `Tracking`, `OutputWindow`, `Inflate` (the decoder with its buffers), `Streams` |
| checksums | `Adler`, `Crc` |

Names follow zlib: `BuildTree.Builder` holds what `build_tree` works on, `FlushBlock.Encoder` the
block under construction, `Window.SlidingWindow` the window and the hash table,
`Deflate.Compressor` a whole compressor and `Inflate.Decoder` a whole decompressor. A class
carries ghost fields for what it stands for: the input so far (`SlidingWindow.data`), the
abstract decoder at the same place (`Decoder.abs`), everything taken and given
(`Decoder.earlier`, `Decoder.prior`). `Deflate.Output` is the output side of a `z_stream`: what
has been delivered and how much space is left. `Deflate.Log` records what the compression
functions have seen at each string and all tokens they have made.

Where the code and its documentation disagree, the code is followed. The comments at
`inflate_fast` (`zlib-1.2.8/inffast.c:46` and `zlib-1.2.8/inffast.c:309`) say that fewer than eight
bits are held on entry, and rest on it the claim that giving back unused bytes does not go back
too far. Eight and more bits can be held, when a call ended inside a long code:
`Streams.MayHoldByte` gives a stream of seven bytes after which every decoder waits with eight
bits in hand. Giving back is safe all the same, for every input: `Inflate.Decoder.InflateFast` is
proved without that assumption. A byte or more is held at the beginning of a code only if the
code could not be found without the last byte (`Inflate.Decoder.HeldForCode`), and only on the
first turn of a call (`Inflate.Decoder.DoMode`).

`zlib-1.2.8/zlib.h:328-331` promises `Z_STREAM_END` from a single call with `Z_FINISH` and as much
output space as `deflateBound()` says. The stream is finished and delivered then, but when it
uses up all of the space the code returns `Z_OK`; with the conservative formula that happens
for no data at level 0 (`Expansion.BoundAttained`). `Deflate.Compressor.Deflate` says exactly when:
`Z_STREAM_END` comes back if and only if space is left.

To verify everything: `dafny verify dfyconfig.toml --resource-limit 2000000`.

## Model

| member | source | states |
|---|---|---|
| Canonical.ZeroFirst | zlib-1.2.8/inftrees.c:80-81 | the first code, by length and then by symbol, is all zeros |
| Canonical.CodeAfter | zlib-1.2.8/inftrees.c:81-83 | of two codes next to each other in that order the second is the first plus one, with zeros appended up to its length |
| Canonical.StartOrder | zlib-1.2.8/inftrees.c:78-80 | with codes read as intervals of the code space, an earlier symbol's interval ends no later than a later symbol's begins |
| Canonical.PrefixFree | zlib-1.2.8/inftrees.c:130-136 | if the lengths are not over-subscribed, which is what this loop checks, a bit string begins with at most one symbol's code |
| Canonical.CompleteDecodes | zlib-1.2.8/inftrees.c:130-138 | every point of the code space that the lengths fill lies in some symbol's interval; with complete lengths, which this check demands, that is every bit string |
| InflateTable.BackwardIncrement | zlib-1.2.8/inftrees.c:241-250 | on the bit-reversed code the loop adds one unit of its length in normal order, and gives 0 exactly when the code space is exhausted |
| InflateTable.Replicate | zlib-1.2.8/inftrees.c:232-239 | the entry is stored at just the indices whose low bits are the code, and no other entry of the table changes |
| InflateTable.SubTableBits | zlib-1.2.8/inftrees.c:268-276 | the sub-table is indexed by as many bits as the longest later code that shares its prefix has more than the root, no fewer and no more |
| InflateTable.CheckLengths | zlib-1.2.8/inftrees.c:130-138 | the remaining space is negative iff the code lengths are over-subscribed and zero iff they are complete |
| InflateTable.SortSymbols | zlib-1.2.8/inftrees.c:145-147 | work holds all coded symbols, ordered by length and by symbol within a length |
| InflateTable.FillTables | zlib-1.2.8/inftrees.c:199-300 | the main loop: returns 1 iff the space needed (the root table, and a sub-table for the longest code below each root entry) exceeds what the type allows; otherwise exactly that space is used and every index is filled for the canonical code; entries before the table are untouched |
| InflateTable.BuildTable | zlib-1.2.8/inftrees.c:106-305 | returns -1 iff the lengths are not acceptable (over-subscribed, or incomplete other than no code at all or codes of one bit that are not for CODES), 1 iff they are and the space needed exceeds what the type allows, else 0, the space needed, the root width, and tables that represent the code |
| InflateTable.TableDecodes | zlib-1.2.8/inftrees.c:106-305 | for every 15-bit window of a stream, one root lookup and at most one sub-table lookup give the symbol and number of bits of the canonical code, or the invalid-code marker when no code matches; never an undefined slot |
| TableSpace.ShortCodes | zlib-1.2.8/inftrees.c:112-128 | if no code is longer than the index asked for, the root table is no larger than that index and there are no sub-tables |
| Enough.FillCount | zlib-1.2.8/inftrees.c:268-276 | codes in order of length that fill r units of length l, the last of length b, number at least r + b - l |
| Enough.SubTableCodes | zlib-1.2.8/inftrees.c:259-288 | a sub-table has no more entries than its codes and what the range of their lengths adds |
| Enough.Bounded | zlib-1.2.8/inftrees.c:259-288 | all sub-tables together have no more entries than there are codes longer than the root, and what one sub-table for the whole range of lengths would add; and their number is even |
| Enough.EnoughSpace | zlib-1.2.8/inftrees.h:38-51 | 852 entries are enough for every acceptable code of at most 286 literals and lengths with an index of nine bits, and 592 for every one of at most 30 distances with six |
| Symbols.LengthBase | zlib-1.2.8/inftrees.c:60-62 | the decoder's base lengths are the least lengths the encoder's codes stand for: three more than the sum of the ranges of all earlier codes |
| Symbols.DistBase | zlib-1.2.8/inftrees.c:66-69 | the decoder's base distances are one more than the sum of the ranges of all earlier codes of the encoder |
| Symbols.LengthCodeUnique | zlib-1.2.8/trees.c:257-270 | at most one code stands for a match length, 258 included |
| Symbols.DistCodeUnique | zlib-1.2.8/trees.c:272-288 | at most one code stands for a distance |
| Symbols.LengthBitsAre | zlib-1.2.8/trees.c:61-62 | a length code has an extra bit more for every four codes from 8 on, the last one none |
| Symbols.DistBitsAre | zlib-1.2.8/trees.c:64-65 | a distance code has an extra bit more for every two codes from 4 on |
| Symbols.InitLengths | zlib-1.2.8/trees.c:257-270 | the loops fill base_length and _length_code with the codes of section 3.2.5 of RFC 1951 |
| Symbols.InitNearDists | zlib-1.2.8/trees.c:272-280 | the same for distances up to 256 |
| Symbols.InitFarDists | zlib-1.2.8/trees.c:281-288 | the same for larger distances, in steps of 128 |
| Symbols.StaticTables.DCode | zlib-1.2.8/deflate.h:305-306 | the two-part table lookup gives the code whose range holds the distance |
| TokenWriter.StaticInit | zlib-1.2.8/trees.c:234-314 | all static tables: symbol tables, and the canonical, bit-reversed codes of the fixed trees |
| GenCodes.BiReverse | zlib-1.2.8/trees.c:1154-1164 | the loop reverses the low bits of a code |
| Bits.RevIsMsb | zlib-1.2.8/trees.c:598-603 | sending a reversed code low bit first puts the code on the stream with its most significant bit first |
| GenCodes.FirstCodes | zlib-1.2.8/trees.c:585-590 | next_code holds the first canonical code of each length |
| GenCodes.GenCodes | zlib-1.2.8/trees.c:575-607 | every symbol of the tree with a length gets its canonical code, reversed; no other code changes |
| BitWriter.Writer.SendBits | zlib-1.2.8/trees.c:188-225 | bytes written plus bits buffered grow by the bits of the value, lowest first; unused bits of bi_buf stay zero |
| BitWriter.Writer.BiFlush | zlib-1.2.8/trees.c:1169-1181 | the stream is unchanged and at most seven bits stay buffered |
| BitWriter.Writer.BiWindup | zlib-1.2.8/trees.c:1186-1199 | zeros are appended up to a byte boundary and nothing stays buffered |
| BitWriter.Writer.CopyBlock | zlib-1.2.8/trees.c:1205-1226 | zeros up to a byte boundary, the length, its complement and the bytes |
| Accumulator.Pulled | zlib-1.2.8/inflate.c:489-495 | hold still begins with the unread bits of the stream when the next byte is added above them |
| Accumulator.Peeked | zlib-1.2.8/inflate.c:505-507 | BITS(n) is the number written by the next n bits of the stream |
| Accumulator.Dropped | zlib-1.2.8/inflate.c:509-514 | DROPBITS(n) moves the place in the stream by n |
| Accumulator.LookupFinds | zlib-1.2.8/inflate.c:1031-1048 | indexing the tables with hold, although it may not hold 15 bits, gives the symbol the bits at hand determine; if they determine none, the entry asks for more bits than are held |
| CodeLengths.ScanTree | zlib-1.2.8/trees.c:705-744 | counts each run symbol exactly as often as it occurs in the run-length coding of the tree |
| CodeLengths.SendTree | zlib-1.2.8/trees.c:750-795 | writes the same run-length coding, each symbol with its code and extra bits |
| CodeLengths.RoundTrip | zlib-1.2.8/trees.c:836-860 | for any two lists of lengths the codings, one after the other, expand to exactly the two lists, and neither begins with a repeat |
| CodeLengths.EncodeOk | zlib-1.2.8/trees.c:756-795 | every run is within the range its extra bits can express, and there are no more runs than lengths |
| CodeLengths.ZeroStretch | zlib-1.2.8/trees.c:754-792 | a stretch of k zeros, whatever comes before and after, is coded 138 at a time, and what is left as one symbol unless it is less than three |
| CodeLengths.SameStretch | zlib-1.2.8/trees.c:754-792 | k more lengths equal to the one before are coded six at a time, and what is left as one symbol unless it is less than three |
| CodeLengths.NewStretch | zlib-1.2.8/trees.c:754-792 | a stretch of k new lengths is coded as up to three by themselves, else as one length and a repeat for up to six more, and so on |
| BlockCost.RunsBitsCost | zlib-1.2.8/trees.c:705-829 | the bits of a run-length coding are the counted frequencies times code lengths and extra bits |
| BlockCost.FreqsTally | zlib-1.2.8/trees.c:1017-1030 | one more token is one more of its literal or length symbol, and of its distance symbol |
| BlockCost.TokensBitsCost | zlib-1.2.8/trees.c:1060-1105 | the bits of a token buffer are its symbol frequencies times code lengths and extra bits, plus the end of block |
| Heap.PqDownHeap | zlib-1.2.8/trees.c:453-476 | extends the heap order to node k; the heap holds the same nodes and everything above k is untouched |
| Heap.RootSmallest | zlib-1.2.8/trees.c:424-437 | the node on top of a heap is the least by frequency, then depth |
| BuildTree.Builder.PqRemove | zlib-1.2.8/trees.c:428-437 | takes a node of least frequency, and leaves a heap of the others |
| HuffmanCost.KraftInequality | zlib-1.2.8/trees.c:530-544 | the code words of any prefix code fit into the code space |
| HuffmanCost.MergeBest | zlib-1.2.8/trees.c:662-688 | if a code is best once two least weights are replaced by their sum, splitting that node gives a best code |
| HuffmanTree.MergeStep | zlib-1.2.8/trees.c:662-688 | one step of the merge loop keeps: every node once, sons before fathers, frequencies that add up, and a best code of the remaining nodes that extends to a best code of all symbols |
| Depths.LeafDepths | zlib-1.2.8/trees.c:507-527 | after the first pass exactly the leaves have a depth |
| Depths.OverflowIffDeep | zlib-1.2.8/trees.c:512-527 | overflow is zero iff no leaf is deeper than the limit |
| LengthLimit.ExcessStart | zlib-1.2.8/trees.c:512-528 | after the first pass overflow is twice the excess over the code space, in units of the longest code |
| LengthLimit.ShorterExists | zlib-1.2.8/trees.c:535-536 | as long as there is excess, some shorter length is in use: the search for one ends inside the array |
| LengthLimit.RepairStep | zlib-1.2.8/trees.c:534-544 | a round conserves the number of leaves and takes away one unit, so overflow goes down by two; the longest length is in use |
| LengthLimit.CutNext | zlib-1.2.8/trees.c:534-544 | a round that takes its leaf from the longest length in use keeps this: lengths below the shortest one given up hold what they held, and those between it and the limit at most one leaf, the last of them at most two |
| BuildTree.Builder.ShorterLevel | zlib-1.2.8/trees.c:535-536 | finds the longest length in use below the limit |
| BuildTree.Builder.Repair | zlib-1.2.8/trees.c:533-544 | the loop ends with no excess and the number of leaves unchanged; it has given up leaves of the longest length in use below the limit, one after the other: shorter ones are as many as before, and between there is only what came of the last leaf given up |
| LengthLimit.ShortenedSame | zlib-1.2.8/trees.c:533-544 | the outcome of such a cut is determined: two complete sets of lengths for as many symbols that are cuts of the same depths have equally many symbols of each length |
| BuildTree.Builder.Reassign | zlib-1.2.8/trees.c:546-564 | lengths are handed out again so that bl_count counts them, from the rarest symbol with the longest length on, and opt_len is corrected by exactly the change |
| BuildTree.Builder.GenBitLen | zlib-1.2.8/trees.c:488-565 | the lengths are complete, within the limit, positive for exactly the leaves; equal to the tree depths if none is too deep, else the depths cut as in `Repair`, the longest lengths for the rarest symbols; opt_len and static_len grow by exactly the cost of the symbols |
| BuildTree.Builder.ForceTwo | zlib-1.2.8/trees.c:643-655 | a tree with fewer than two symbols is given symbols of frequency one, preferably below code 2, and the lengths are corrected for them |
| BuildTree.Builder.MergeAll | zlib-1.2.8/trees.c:657-690 | the merge loop ends with a tree whose inner frequencies sum to the cost of a best code, and the depth that breaks ties is that of the tree: 0 for a leaf, one more than the deeper son for an inner node |
| BuildTree.Builder.BuildTree | zlib-1.2.8/trees.c:617-699 | a complete code within the limit for all used symbols and at least two; best possible unless a length was cut, and then cut as in `Repair`; canonical codes; opt_len and static_len grow by exactly the cost |
| HuffmanOrder.RarerNeverShorter | zlib-1.2.8/trees.c:488-565 | in every tree, cut or not, a symbol never has a shorter code than a more frequent one |
| HuffmanOrder.CutDetermined | zlib-1.2.8/trees.c:488-565 | how many symbols have each length follows from the tree, cut or not: outcomes can differ only in which of equally frequent symbols has which length |
| BuildTree.Optimal | zlib-1.2.8/trees.c:609-699 | unless a length was cut, no prefix code at all, of whatever lengths, makes the symbols cost less |
| TokenWriter.CompressBlock | zlib-1.2.8/trees.c:1060-1105 | appends the codes and extra bits of all tokens and the end of block |
| FlushBlock.Encoder.Tally | zlib-1.2.8/trees.c:1010-1055 | the buffer grows by the token, the frequencies stay those of the buffer, and the result says whether it is full |
| FlushBlock.Encoder.BuildBlTree | zlib-1.2.8/trees.c:801-829 | opt_len grows by exactly the bits of the two run-length coded trees and their header; the code is the Huffman code of the run symbols; lengths up to the last non-zero one in transmission order are kept |
| FlushBlock.Encoder.SendAllTrees | zlib-1.2.8/trees.c:836-860 | writes the header of a dynamic block: counts, code length code in the order of `Blocks.HeaderOrder`, and both trees |
| FlushBlock.Encoder.BuildTrees | zlib-1.2.8/trees.c:907-938 | all three codes are those that `build_tree` makes for the frequencies of the tokens and of the run-length coding; opt_len is the exact number of bits of header and tokens with them, static_len that of the tokens with the fixed codes |
| FlushBlock.Encoder.FlushBlock | zlib-1.2.8/trees.c:907-1004 | writes one well-formed block that stands for the input since the last one; which kind follows from the exact costs, level and strategy; the last block ends on a byte boundary |
| FlushBlock.BlockCosts | zlib-1.2.8/trees.c:958-990 | the block takes 3+opt_len bits if dynamic, 3+static_len if fixed, and the bytes, padding and 35 bits if stored |
| FlushBlock.Cheapest | zlib-1.2.8/trees.c:940-989 | unless Z_FIXED is asked for, the block takes no more bytes than it would with Huffman trees, with the fixed codes, or stored |
| Blocks.BlockHeader | zlib-1.2.8/trees.c:870-895 | a block begins with the last-block bit and two bits for its kind, 00 stored, 10 fixed and 01 dynamic as they are sent |
| FlushBlock.Encoder.Align | zlib-1.2.8/trees.c:892-901 | writes an empty fixed block, and keeps at most seven bits |
| Hash.ThirdByte | zlib-1.2.8/deflate.c:1249-1254 | with at least eight hash bits, strings that agree in two bytes and in their hash agree in the third |
| Hash.PrimedNext | zlib-1.2.8/deflate.c:161-167 | updating the running hash with a byte gives the hash of the last three bytes: older ones have been shifted out |
| HashChains.ChainsInsert | zlib-1.2.8/deflate.c:186-189 | inserting a string keeps the invariant of all chains: each link leads to the last string before with the same hash, so that a chain has all of them |
| HashChains.ChainsSlide | zlib-1.2.8/deflate.c:1426-1449 | sliding the window and all links keeps the invariant for the text from the middle on: links to dropped strings end the chain |
| HashChains.ChainNext | zlib-1.2.8/deflate.c:1284-1285 | the link of a string that is not too far back is the last inserted string before it with the same hash, or 0 if there is none |
| Matcher.UncomparedByte | zlib-1.2.8/deflate.c:1242-1254 | a candidate from the chain that agrees with the current string in the first two bytes agrees in the third |
| Matcher.ScanMatch | zlib-1.2.8/deflate.c:1253-1269 | the length found is that of the common prefix, up to 258 |
| Matcher.LongestMatch | zlib-1.2.8/deflate.c:1148-1289 | examines the strings of the same hash nearest to the current one, nearest first, and stops at the first match that is good enough, at the distance limit or when its budget is spent, and not before; what it reports, before it is cut to the lookahead, is the longest agreement with any string examined, or the incoming length, and the match is the nearest one of that length |
| Window.SlidingWindow.InsertString | zlib-1.2.8/deflate.c:186-189 | chains and running hash stay right, and the head returned is the last earlier string with the same hash |
| Window.SlidingWindow.FillWindow | zlib-1.2.8/deflate.c:1390-1532 | input moves into the window, which holds the same text as before, slid down if it was nearly full; exactly the strings that are still in the window and the pending ones are inserted; then there is enough lookahead or no more input |
| Window.SlidingWindow.Search | zlib-1.2.8/deflate.c:1148-1289 | all of the above in terms of the input: the candidates, the reasons to stop, the longest match and the nearest of that length; what is reported above the incoming length repeats the input at that distance |
| Window.SlidingWindow.PassMatch | zlib-1.2.8/deflate.c:1674-1704 | passing over a match inserts its strings exactly if it is not too long and enough bytes follow, and keeps chains and running hash right |
| Window.SlidingWindow.PassPrevious | zlib-1.2.8/deflate.c:1804-1814 | passing over the match of the previous string inserts all its strings that have enough bytes ahead |
| Window.SlidingWindow.RunLength | zlib-1.2.8/deflate.c:1882-1900 | the result is exactly how often the previous byte repeats, up to 258 and within the lookahead, or 0 if that is less than three |
| Lossless.YieldsLiteral | zlib-1.2.8/deflate.c:1706-1710 | if the buffered tokens expand to the input up to here, so they do with the next byte as a literal |
| Lossless.YieldsCopy | zlib-1.2.8/deflate.c:1668-1674 | the same with a match where the input repeats itself, overlapping or not |
| Deflate.Compressor.FlushBlockOnly | zlib-1.2.8/deflate.c:1538-1547 | the stream then stands for the input up to strstart, by way of the window or, if the block began before it, of the tokens alone |
| Deflate.Compressor.FlushPending | zlib-1.2.8/deflate.c:642-662 | the stream is unchanged, as much of the pending output as fits is delivered, in order, and all of it if space is left |
| Deflate.Compressor.DeflateStored | zlib-1.2.8/deflate.c:1564-1619 | keeps: blocks written stand for the input up to block_start, which is never negative; ends with all input written or waiting as the state says |
| Deflate.Compressor.StoredEmit | zlib-1.2.8/deflate.c:1592-1612 | before a flush, blocks are only written when they have as many bytes as the length field, the pending buffer or the window allows |
| Deflate.Compressor.DeflateFast | zlib-1.2.8/deflate.c:1628-1722 | keeps: blocks written and tokens buffered stand for the input up to strstart, across slides and flushes; all tokens so far are those of a run through the strings in which each is searched whenever a string of the same hash is near enough, every match found is taken, and a byte is a literal only where none was found |
| Deflate.Compressor.DeflateSlow | zlib-1.2.8/deflate.c:1730-1853 | keeps the same for the input less the one byte pending when match_available; all tokens so far are those of a lazy run: each string is searched whenever a string of the same hash is near enough and the match of the previous one is shorter than max_lazy_match |
| Choices.LazyRule | zlib-1.2.8/deflate.c:1792-1845 | what becomes of a string that waits: a match exactly if it has one, of three bytes at least and not discarded for Z_FILTERED or TOO_FAR, and the next string has none that is longer; otherwise a literal |
| Choices.ChoiceWhy | zlib-1.2.8/deflate.c:1792-1845 | every token of a lazy run comes from a string that waited: a literal from one without a match or with a longer one after it, a match from one with no longer match after it |
| Deflate.Compressor.SlowFind | zlib-1.2.8/deflate.c:1760-1787 | the current string is inserted, and searched exactly if the previous match is shorter than max_lazy_match and there is a candidate; the length kept is the one found unless it is discarded |
| Deflate.Compressor.DeflateRle | zlib-1.2.8/deflate.c:1861-1928 | keeps the same with runs only: at every byte the longest run of the byte before is taken if it is at least three, up to 258 and within the lookahead, and a byte is a literal only where there is none |
| Deflate.Compressor.DeflateHuff | zlib-1.2.8/deflate.c:1934-1967 | keeps the same with exactly one literal for each byte |
| Deflate.Compressor.constructor | zlib-1.2.8/deflate.c:271-319 | any level, strategy, memLevel and windowBits start in the invariant with the parameters of the level and the sizes asked for; distances will stay within the window, also for windowBits 8, which is made 9 |
| Deflate.Compressor.Mark | zlib-1.2.8/deflate.c:923-939 | the marker of a flush stands for nothing and is exactly an empty stored block, ending with 00 00 ff ff on a byte boundary, the ten bits of an empty fixed block for a partial flush, or nothing for Z_BLOCK; a full flush forgets all strings |
| Deflate.Compressor.Deflate | zlib-1.2.8/deflate.c:665-950 | for any sequence of calls, inputs and output spaces: what has been delivered is the beginning of the stream written, whose blocks decode to a beginning of the input, to all of it after a completed flush; a finished stream is whole bytes that inflate to all input with distances within MAX_DIST; Z_STREAM_END means that all is delivered with space left, Z_OK with space left that all that was asked for is done, Z_STREAM_ERROR another flush mode after the end, and Z_BUF_ERROR exactly no space, input after the end that is not held up by pending output, or a repeated flush with nothing to do; all tokens are those that level and strategy choose; under Z_NO_FLUSH and Z_FINISH alone the stream is within the bound, and with that much space a Z_FINISH call finishes and delivers it |
| Expansion.TokenCost | zlib-1.2.8/deflate.c:556-564 | with the fixed codes a token takes at most nine bits for each byte it stands for |
| Expansion.BlockPrice | zlib-1.2.8/trees.c:940-989 | a block for n bytes takes at most 9n+10 bits unless it is stored; a stored one is chosen over codes only if it takes at most 9n+27 |
| Expansion.LeanBlock | zlib-1.2.8/deflate.c:574-576 | a block of at least 127 bytes keeps the stream within the running bound |
| Expansion.LeanEnd | zlib-1.2.8/deflate.c:574-576 | with any last block, and padded to bytes, a stream for n bytes has at most n + ((n+7)>>3) + ((n+63)>>6) + 5 bytes |
| Expansion.LeanBelow | zlib-1.2.8/deflate.c:574-576 | before its last block a stream is always shorter than the bound |
| Expansion.BoundAttained | zlib-1.2.8/deflate.c:574-576 | a stored block without data, which is the whole stream for no data at level 0, is as long as the bound |
| Blocks.TokensRun | zlib-1.2.8/inflate.c:1019-1173 | the modes LEN to LIT, run on the bits of any token buffer, append exactly its expansion |
| Blocks.TreesRun | zlib-1.2.8/inflate.c:897-1018 | the modes TABLE to CODELENS, run on a dynamic header, arrive at LEN with exactly its two lists of lengths |
| Blocks.BlockRun | zlib-1.2.8/inflate.c:826-1173 | any block, stored, fixed or dynamic, decodes to the bytes it stands for, using exactly its bits |
| Blocks.StreamRun | zlib-1.2.8/inflate.c:826-1173 | any sequence of blocks ending with a last one decodes to the bytes they stand for |
| Inflater.OrderPlace | zlib-1.2.8/inflate.c:625-626 | the order in which code length code lengths are sent has an inverse |
| Inflater.OrderTable | zlib-1.2.8/inflate.c:625-626 | the table of `inflate()` is that order, written without a table: 16, 17, 18, 0, then in turn 8, 9, ... upwards and 7, 6, ... downwards |
| FlushBlock.BlOrder | zlib-1.2.8/trees.c:71-72 | and so is the table of the encoder |
| Blocks.HeaderOrder | zlib-1.2.8/trees.c:848-851 | after the counts of a dynamic header the i-th three bits are the length of the i-th symbol in that order |
| Blocks.LenLensOrder | zlib-1.2.8/inflate.c:915-922 | in mode LENLENS the i-th three bits become the length of the i-th symbol in that order, and the lengths that are not sent are zero |
| Inflater.FixedCode | zlib-1.2.8/trees.c:293-301 | the fixed literal/length code is the one listed in section 3.2.6 of RFC 1951: codes from 00110000, 110010000, 0000000 and 11000000 on |
| Inflater.FixedDistCode | zlib-1.2.8/trees.c:303-307 | the fixed code of a distance symbol is the symbol in five bits |
| InflaterRuns.FindStable | zlib-1.2.8/inflate.c:1031-1035 | once the bits at hand determine a symbol, or that there is none, more bits do not change it |
| InflaterRuns.NextOk | zlib-1.2.8/inflate.c:826-1173 | every step keeps the decoder's invariant: lengths, counts and codes valid, match lengths and distances in range, output bytes |
| InflaterRuns.NextStable | zlib-1.2.8/inflate.c:605-1252 | a step that can be taken on some input is the same step on more input |
| InflaterRuns.Resumable | zlib-1.2.8/inflate.c:523-604 | for the abstract decoder, which has all the space it wants: cutting the input into any pieces and stopping wherever they run out ends in the same state with the same bits left |
| ExactRuns.NextTight | zlib-1.2.8/inflate.c:605-1252 | a step depends on no bits but those it uses |
| ExactRuns.SettledUnique | zlib-1.2.8/inflate.c:605-1252 | at most one state of the decoder waits for more than a given stream, or fails on it, whatever path led there |
| ExactRuns.OutputPrefix | zlib-1.2.8/inflate.c:605-1252 | output is only ever added: any earlier state has a beginning of it |
| OutputWindow.Window.Update | zlib-1.2.8/inflate.c:379-427 | read from wnext and round, the window holds the last bytes of what it held followed by the new output, as many as fit |
| OutputWindow.Window.Locate | zlib-1.2.8/inflate.c:1148-1154 | the run found in the array is the text from that distance back, up to the end of the array |
| OutputWindow.Window.GetDictionary | zlib-1.2.8/inflate.c:1279-1287 | copies the text of the window in order, and only that |
| Tracking.TypeNext | zlib-1.2.8/inflate.c:834-862 | what the code computes from hold in this mode is the step of the abstract decoder, or a wait when bits are missing |
| Tracking.StoredNext | zlib-1.2.8/inflate.c:864-876 | the same for a stored header: the two halves of hold decide between an error and the length |
| Tracking.TableNext | zlib-1.2.8/inflate.c:897-914 | the same for the counts of a dynamic block, with the limits on them |
| Tracking.RepeatLength | zlib-1.2.8/inflate.c:947-981 | the same for a repeat: error without a previous length or beyond the counts, else so many lengths are appended |
| Tracking.LengthsEnd | zlib-1.2.8/inflate.c:987-1017 | the same at the end of the lengths: error without an end-of-block code or when either set is not acceptable |
| Tracking.LenNext | zlib-1.2.8/inflate.c:1030-1069 | the same for a literal or length code found through the tables |
| Tracking.DistNext | zlib-1.2.8/inflate.c:1080-1106 | the same for a distance code |
| Tracking.MatchRun | zlib-1.2.8/inflate.c:1123-1167 | a run of copied bytes each equal to the byte at the distance before it, overlap included, is as many steps of the abstract decoder |
| Inflate.Decoder.NeedBits | zlib-1.2.8/inflate.c:497-503 | bytes are taken only while bits are missing, and if they run out the decoder can take no step on the input it has |
| Inflate.Decoder.FixedTables | zlib-1.2.8/inflate.c:261-302 | the tables of the fixed codes decode those codes |
| Inflate.Decoder.DoType | zlib-1.2.8/inflate.c:826-863 | through a block header the decoder stays at the place of the abstract one, or both fail; the mode returns only for want of input |
| Inflate.Decoder.DoStored | zlib-1.2.8/inflate.c:864-877 | the same through the lengths of a stored block, whose complement is checked |
| Inflate.Decoder.DoCopy | zlib-1.2.8/inflate.c:880-896 | the same through stored bytes; it may also return for want of output space, and changes the output from put on only |
| Inflate.Decoder.DoTable | zlib-1.2.8/inflate.c:897-914 | the same through the three counts of a dynamic block |
| Inflate.Decoder.DoLenLens | zlib-1.2.8/inflate.c:915-935 | the same through the lengths of the code length code, in the order of `Blocks.LenLensOrder`; its table is then in place |
| Inflate.Decoder.DoCodeLens | zlib-1.2.8/inflate.c:936-1018 | the same through the code lengths and their repeats; unless the lengths are in error the tables of both codes are then in place |
| Inflate.Decoder.BuildTables | zlib-1.2.8/inflate.c:994-1017 | both tables are built iff both sets of lengths are acceptable: there is always room; each decodes its code |
| Inflate.Decoder.DecodeCode | zlib-1.2.8/inflate.c:1031-1046 | bytes are pulled until the entry is within the bits held; the entry is then the one for the code on the stream, through a sub-table if need be |
| Inflate.Decoder.SlowLen | zlib-1.2.8/inflate.c:1030-1069 | the same through a literal or length code, found with one lookup or two |
| Inflate.Decoder.DoLenExt | zlib-1.2.8/inflate.c:1070-1079 | the same through the extra bits of a length |
| Inflate.Decoder.DoDist | zlib-1.2.8/inflate.c:1080-1106 | the same through a distance code |
| Inflate.Decoder.DoDistExt | zlib-1.2.8/inflate.c:1107-1122 | the same through the extra bits of a distance |
| Inflate.Decoder.DoMatch | zlib-1.2.8/inflate.c:1123-1167 | one turn of the copy, from window or output, cut to what is contiguous and to the space left, gives the next bytes of the match in order, overlap included; a distance beyond the window is an error; it returns only for want of space |
| Inflate.Decoder.DoLit | zlib-1.2.8/inflate.c:1168-1173 | the literal is appended to the output, or the mode returns for want of space |
| Inflate.Decoder.FastIteration | zlib-1.2.8/inffast.c:118-307 | one iteration on six bytes of input and 258 of space: takes steps of the abstract decoder to the next LEN, TYPE or error, loads at most six bytes, writes at most 258 |
| Inflate.Decoder.GiveBack | zlib-1.2.8/inffast.c:309-313 | whole unused bytes go back to the input, fewer than eight bits stay, and the decoder is again at the place of the abstract one |
| Inflate.Decoder.InflateFast | zlib-1.2.8/inffast.c:67-324 | the fast loop keeps decoder and abstract decoder at the same place, never gives back bytes from before the call, and leaves fewer than eight bits, for any number of bits on entry |
| Inflate.Decoder.HeldForCode | zlib-1.2.8/inflate.c:1031-1035 | a byte or more is held at the beginning of a code only if the code could not be found without the last byte taken in |
| Inflate.Decoder.DoMode | zlib-1.2.8/inflate.c:638-1222 | each turn of the mode switch uses input, fills output or moves to a later mode, so the loop ends; only on the first turn of a call can a code begin with a byte or more in hand |
| Inflate.Decoder.Inflate | zlib-1.2.8/inflate.c:605-1252 | for any input and output buffers: takes a beginning of the input, fills a beginning of the output and nothing else, stops short of filling it only when settled on all the input so far; returns Z_STREAM_END iff the stream has ended, Z_DATA_ERROR iff the stream is in error or a distance is beyond the window, and Z_BUF_ERROR for no progress or an unfinished Z_FINISH |
| Streams.SameOutcome | zlib-1.2.8/inflate.c:523-604 | two decoders that have settled on the same stream, whose distances fit their windows, however it was cut into inputs and its output into buffers, have produced the same output and are in the same mode; if it is not an error, at the same byte with the same bits held |
| Streams.Prefix | zlib-1.2.8/inflate.c:605-1252 | at any moment a decoder has produced a beginning of what one settled on a stream whose distances fit its window produces |
| Streams.StrayedWhy | zlib-1.2.8/inflate.c:1126-1133 | the only error that is not the stream's own is a distance beyond the decoder's window |
| Streams.WindowSuffices | zlib-1.2.8/inflate.c:1126-1133 | with a 32K window the distances of every stream fit |
| Streams.NotStrayed | zlib-1.2.8/inflate.c:1126-1133 | on a stream whose distances fit its window a decoder makes no error that is not the stream's own |
| Streams.SettledReach | zlib-1.2.8/inflate.c:1107-1122 | the distances of a stream fit a window iff the largest one met when decoding stops, for want of input or in error, fits |
| Streams.RoundTrip | zlib-1.2.8/inflate.c:605-1252 | a decoder that has settled on a compressed stream is done with exactly the original data and the whole stream used, if its window is as large as the compressor's distances |
| Streams.MayHoldByte | zlib-1.2.8/inffast.c:40-46 | a stream of seven bytes on which the decoder waits in mode LEN with eight bits in hand |
| Streams.HoldsByte | zlib-1.2.8/inffast.c:40-46 | every decoder given such a stream holds those bits when it is called again, which is how the fast loop is entered with eight |
| Adler.SumsFit | zlib-1.2.8/adler32.c:14-16 | over NMAX bytes both sums stay below 2^32, whatever reduced values they begin with; over fewer than 16 bytes they suit the cheaper reductions |
| Adler.Mod28Is | zlib-1.2.8/adler32.c:29-39 | without division, the remainder for numbers below 2^28 |
| Adler.ModIs | zlib-1.2.8/adler32.c:40-44 | the same for all 32-bit numbers |
| Adler.Mod63Is | zlib-1.2.8/adler32.c:45-57 | the same for all 63-bit numbers |
| Adler.Sums | zlib-1.2.8/adler32.c:104-129 | the inner loops give the plain sum and the weighted sum without overflow |
| Adler.Adler32 | zlib-1.2.8/adler32.c:65-133 | for every buffer and valid start the word holds the two sums modulo 65521, with division or without |
| Adler.Continued | zlib-1.2.8/adler32.c:65-133 | a checksum continued over a second buffer is that of both |
| Adler.ZeroBytes | zlib-1.2.8/adler32.c:65-133 | from the initial value 1, n zero bytes leave 1 in the low half and n modulo 65521 in the high half |
| Adler.CombineIs | zlib-1.2.8/adler32.c:136-162 | the combined checksum is that of the concatenation, with division or without |
| Crc.StepLinear | zlib-1.2.8/crc32.c:113-114 | shifting the register by one bit is linear over exclusive-or |
| Crc.PolyIs | zlib-1.2.8/crc32.c:105-108 | the exponents give the polynomial 0xedb88320 |
| Crc.MakeCrcTable | zlib-1.2.8/crc32.c:110-129 | table k holds the register after each byte value and k zero bytes, tables 4 to 7 the same byte-swapped |
| Crc.Crc32 | zlib-1.2.8/crc32.c:204-236 | the byte-wise loop gives the bit-at-a-time checksum |
| Crc.Crc32Little | zlib-1.2.8/crc32.c:241-278 | four bytes at a time, for every buffer, alignment and start, the same |
| Crc.Crc32Big | zlib-1.2.8/crc32.c:281-320 | the same on byte-swapped registers and tables |
| Crc.Continued | zlib-1.2.8/crc32.c:204-236 | a checksum continued over a second buffer is that of both |
| Crc.RegisterAtOnce | zlib-1.2.8/crc32.c:241-243 | a text can be added to the register at once and shifted through afterwards |
| Crc.Residue | zlib-1.2.8/crc32.c:204-236 | a text followed by four bytes has the checksum 0x2144df1c exactly if these are its own checksum, lowest byte first |
| Crc.MatrixTimes | zlib-1.2.8/crc32.c:327-341 | the matrix times the vector, over exclusive-or |
| Crc.MatrixSquare | zlib-1.2.8/crc32.c:344-352 | the square of the operator for n zero bits is the one for 2n |
| Crc.Combined | zlib-1.2.8/crc32.c:355-408 | the checksum of a concatenation from those of the parts: the first shifted through as many zeros as the second is long, exclusive-or the second |
| Crc.Crc32Combine | zlib-1.2.8/crc32.c:355-408 | alternating squarings apply exactly 8*len2 zero bits; given the checksums of two texts and the length of the second, the result is the checksum of the concatenation |

## Left out

- zlib and gzip headers and trailers, preset dictionaries, `deflatePrime`, `inflatePrime`, `inflateSync`, the copy functions, `deflateParams` and `deflateTune`: streams are raw and their parameters fixed.
- The gz file functions, `infback.c`, memory allocation and its failures, NULL arguments, tracing, `detect_data_type` and `data_type`, and everything outside zlib.
- `Z_BLOCK` and `Z_TREES` for `inflate()`: the early returns and the modes LEN_ and COPY_ that exist for them; only `Z_FINISH` or not is a parameter.
- The sizes ENOUGH_LENS and ENOUGH_DISTS are proved to be enough, not to be the least that are.
- Literal tables of `trees.h`, `inffixed.h` and `crc32.h`: the loops that generate them are modelled instead.
- The overlay of `pending_buf`, `d_buf` and `l_buf`: pending output and tokens are sequences without limit, and delivered bytes stay in the one sequence of pending output.
- 32-bit `opt_len` and `static_len`: unbounded numbers; frequencies, lengths and codes are within 16 bits by proof.
- Zeroing of the window beyond the input (`high_water`): what lies there is arbitrary in the model.
- Unrolled loops are loops by byte, comparison in steps of two bytes or three included, and the registers that `inflate()` and `inflate_fast()` load are the fields themselves.
- Decoding tables are read as sequences taken when they are built, so that `lencode` and `distcode` do not alias `codes`; the output window is allocated with the decoder.
- `deflate_state` is several objects: `BitWriter.Writer`, `BuildTree.Builder`, `FlushBlock.Encoder`, `Window.SlidingWindow` and `Deflate.Compressor`.
- The tight case of `deflateBound()` for the default settings, and `compressBound()`.
