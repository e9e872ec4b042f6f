# Verified models of the vendored libbacktrace, picojson and fp16 code

Most of this repository drives other systems. The code with hard promises is the C and C++ it
ships: libbacktrace's decompressors, DWARF tables, sort and allocator, picojson's parser and
printer, and the bit-level conversions between float and half. This project models that code in
Dafny and proves what it is for, each time against a short definition that does not mention the
code: canonical Huffman codes, streams of bits, byte-by-byte copies, per-byte checksums, exact
interval arithmetic, grammars, linear scans, nearest values, abstract sequences.

`dafny verify dfyconfig.toml` checks everything.

| files | what they model |
|---|---|
| `Words`, `Bits`, `ReverseCounter`, `Canonical`, `HuffmanTable`, `SecondaryDemand`, `HuffmanBuilder`, `DemandBound` | building and using the two-level Huffman tables of the zlib inflater |
| `Lz77`, `BitReader`, `DeflateSpec`, `Inflate`, `DynamicBlock`, `StoredBlock`, `FixedTables`, `DeflateStream`, `Zlib`, `StreamExamples`, `CutExamples` | the bit buffer, match copies, blocks of all types, whole deflate and zlib streams |
| `BitWriter`, `BlockWriter`, `HeaderWriter`, `StreamWriter` | a deflate writer by the standard, and the round trips through the inflater |
| `Adler32` | the checksum with deferred modulo |
| `RangeCoder`, `Lzma`, `LzmaCopy` | the LZMA range decoder as arithmetic coding and in 32 bits, and the LZMA match copy |
| `FreeList`, `AllocatorRuns`, `AlignedRuns` | the mmap allocator, sequential and as a state machine over all interleavings |
| `Qsort`, `ElementSwap`, `Search`, `PcLookup`, `LineTable` | the in-place sort and the address and line indexes built with it |
| `Leb128`, `AbbrevSpec`, `Abbreviations` | the DWARF reader and the two-pass abbreviation tables |
| `ModuleList`, `UnitPublication` | the lock-free list append and the publication of a unit's tables |
| `JsonSpec`, `JsonGrammar`, `JsonExact`, `JsonRoundTrip`, `JsonAgreement`, `JsonOrder`, `JsonText`, `JsonInput`, `JsonParser`, `JsonPrinter` | picojson's parser, validator and printer, and the grammar they are about |
| `FloatSpec`, `FloatConvert`, `FloatExtend` | narrowing and widening of floating-point formats |

Code that works in place is a class or a method with loops, proved against functions on values;
protocols are state machines whose steps are single atomic accesses. Machine words are natural
numbers with the wrap-around written out: 64-bit in the bit buffer and the LEB128 readers, 32-bit
in the checksum, the range decoder and the copy checks, the format's own width in the conversions.

Promises that one might expect and that do not hold are stated with the condition under which they
do, and with an input on which they fail.

- A zlib stream with its checksum behind it is refused, though nothing is wrong with it, if and only
  if it ends in a dynamic block, (address + size) mod 4 is 3, and its end-of-block code and the
  padding have at most 6 bits together (`Zlib.NearIffShortEnd`, `StreamExamples.ShortEndExists`), or
  a code asks for more than 512 secondary slots (`HuffmanBuilder.BuildTable`,
  `DemandBound.RisingIsGreedy`), which complete codes never do (`DemandBound.DemandAtMost`), or a
  bounds check is cut to 32 bits below the length it compares (`Inflate.CopyAllowedIsFit`,
  `StoredBlock.CopyStored`, `CutExamples.ZeroFileCut`, `CutExamples.ThreeCut`), which never happens
  below 4 GiB (`DeflateStream.SmallFateNotCut`).
- A stored block starts where the standard has it if and only if its header does not end on a byte
  boundary (`BitReader.Reader.Rewind`, `DeflateStream.RulesAgree`, `StreamExamples.AlignedDiffers`).
- Re-aligning stays inside the input if and only if as many bytes are left as the address lacks
  (`BitReader.Reader.Align`, `StreamExamples.OverrunExists`).
- Copying an LZMA match ends if and only if its distance is not 0xffffffff (`LzmaCopy.CopyMatch`,
  `LzmaCopy.LastDistanceHangs`).
- After a direct bit the code is below the range if and only if it was not the last value of an odd
  range (`Lzma.DirectKeepsIff`, `Lzma.DirectCanBreak`).
- An ignored line row repeats the stored one if and only if the base address is zero, although a
  comment says it always does (`LineTable.IgnoredIsRepeat`, `LineTable.RowIsLost`).
- Simultaneous readers of a unit are safe if and only if they computed the same, which a comment
  presumes (`UnitPublication.SafeIffSame`, `UnitPublication.Clash`).
- The JSON validator and parser agree if and only if no number token met overflows
  (`JsonAgreement.ValidatorIsParser`, `JsonAgreement.OverflowSplits`).
- The address lookup can miss an enclosing range (`PcLookup.EnclosingCanBeMissed`);
  `PcLookup.Lookup` says exactly which range it finds.

## Model

| member | source | states |
|---|---|---|
| `ReverseCounter.IncIsSuccessor` | 3rdparty/libbacktrace/elf.c:1340-1371 | reading a j-bit word backwards, the increment of `code` is plus one modulo 2^j |
| `ReverseCounter.Increment` | 3rdparty/libbacktrace/elf.c:1362-1371 | the search for the highest zero bit computes that increment for every j-bit word, all ones included |
| `ReverseCounter.AddAtAdds` | 3rdparty/libbacktrace/elf.c:1403-1412 | one carry chain of the reverse add adds 2^k modulo 2^j to the reversed word |
| `ReverseCounter.ReverseAdd` | 3rdparty/libbacktrace/elf.c:1395-1420 | the loop over the bits of `jcnt` adds the whole count to the reversed word modulo 2^j, and fails exactly when the count needs more than j bits |
| `ReverseCounter.BulkAddIsStepping` | 3rdparty/libbacktrace/elf.c:1395-1415 | adding a count in bulk gives the same word as that many single increments |
| `Canonical.KraftIsCodeSpace` | 3rdparty/libbacktrace/elf.c:1275-1373 | the Kraft sum of the lengths is the end of the code space that the canonical assignment of RFC 1951, section 3.2.2, uses up |
| `Canonical.MatchUnique` | 3rdparty/libbacktrace/elf.c:1320-1324 | canonical codes are prefix free: no stream starts with the codes of two symbols |
| `Canonical.CompleteCode` | 3rdparty/libbacktrace/elf.c:1320-1324 | if the Kraft sum is exactly one, every stream starts with the code of some symbol |
| `Bits.MsbReverses` | 3rdparty/libbacktrace/elf.c:1340-1371 | bit k of a word read backwards is bit j - 1 - k of the word: reading backwards is bit reversal |
| `HuffmanTable.PrimaryStep` | 3rdparty/libbacktrace/elf.c:1326-1334 | filling every 2^j-th slot keeps the primary table exact: each short code leads to its symbol from every byte that starts with it, and no other slot is used |
| `HuffmanTable.OpenStep` | 3rdparty/libbacktrace/elf.c:1464-1481 | opening a secondary table keeps the two-level table exact, with regions that do not overlap |
| `HuffmanTable.FillStep` | 3rdparty/libbacktrace/elf.c:1503-1517 | filling a long code's slots in its prefix's region adds exactly that symbol |
| `HuffmanTable.FinishSecondary` | 3rdparty/libbacktrace/elf.c:1423-1540 | when all lengths are done, lookup of any stream that starts with a symbol's code gives the symbol and its length |
| `SecondaryDemand.OpenFits` | 3rdparty/libbacktrace/elf.c:1464-1481 | counting down from the longest length, the slots used so far and those still needed add up, so a new secondary table fits if the demand of the lengths does |
| `HuffmanBuilder.CountLengths` | 3rdparty/libbacktrace/elf.c:1246-1273 | fails iff a length is 16 or more; otherwise `start` and `next` chain the symbols of every length in order |
| `HuffmanBuilder.Fill` | 3rdparty/libbacktrace/elf.c:1326-1334 | the fill loop writes exactly the slots congruent to the code, stays in the table, and fails only on a slot in use |
| `HuffmanBuilder.PrimaryTable` | 3rdparty/libbacktrace/elf.c:1280-1373 | for a Kraft sum of at most one it succeeds and the primary table is exact; `code` ends on the first 9-bit code |
| `HuffmanBuilder.FirstCodes` | 3rdparty/libbacktrace/elf.c:1375-1421 | the bulk-computed start codes are the canonical first codes of the lengths 9 to 15 |
| `HuffmanBuilder.OpenSecondary` | 3rdparty/libbacktrace/elf.c:1455-1501 | the current secondary table is the one of the code's prefix, opened if needed, and wide enough for it |
| `HuffmanBuilder.SecondaryTables` | 3rdparty/libbacktrace/elf.c:1423-1533 | for a Kraft sum of at most one it succeeds if and only if the lengths ask for at most 512 slots, and then leaves an exact table |
| `HuffmanBuilder.BuildTable` | 3rdparty/libbacktrace/elf.c:1232-1540 | all accesses stay below 1024; for lengths up to 15 with Kraft sum at most one it succeeds if and only if the secondary tables need at most 512 slots, and then the two-level lookup decodes every code with its length |
| `SecondaryDemand.NothingUnopened` | 3rdparty/libbacktrace/elf.c:1423-1533 | at the end every prefix of a long code has its table, so the slots used are the slots asked for |
| `DemandBound.NextIsFull` | 3rdparty/libbacktrace/elf.c:1423-1429 | the table of a prefix is no larger than the number of codes under the next prefix, if that one is full |
| `DemandBound.DemandAtMost` | 3rdparty/libbacktrace/elf.c:1167-1175 | any code of n symbols asks for at most n + 256 slots and a complete one for at most n + 128, so complete codes of up to 384 symbols are never refused |
| `DemandBound.RisingIsGreedy` | 3rdparty/libbacktrace/elf.c:1464-1473 | 267 lengths with a Kraft sum below one that ask for at least 514 slots and are refused |
| `Lz77.LzUnique` | 3rdparty/libbacktrace/elf.c:2302-2382 | the LZ77 copy is the only extension in which every new byte repeats the one `dist` back |
| `Lz77.CopyMatch` | 3rdparty/libbacktrace/elf.c:2302-2382 | fill, single copy and pieces all give the byte-by-byte copy; every memcpy is between disjoint ranges; nothing else in the buffer changes |
| `LzmaCopy.RoundMovesIff` | 3rdparty/libbacktrace/elf.c:3566-3577 | in 32 bits a round of the copying loop copies at least one byte if and only if the distance is not 0xffffffff |
| `LzmaCopy.AllowedMeans` | 3rdparty/libbacktrace/elf.c:3536-3547 | for every other distance the 32-bit checks say that the match starts in the dictionary and ends in the output |
| `LzmaCopy.CopyMatch` | 3rdparty/libbacktrace/elf.c:3536-3578 | of the matches that the checks let through, exactly those at distance 0xffffffff never end; all others are the byte-by-byte copy and change nothing else |
| `LzmaCopy.FarDistanceFits` | 3rdparty/libbacktrace/elf.c:3487-3531 | distances from slots fit in 32 bits, and 0xffffffff is that of slot 63 with all bits one |
| `LzmaCopy.FarDistancesTile` | 3rdparty/libbacktrace/elf.c:3487-3531 | the slots from 14 on tile the distances from 128 to 2^32 - 1: each goes on where the one before it ends |
| `LzmaCopy.LastDistanceHangs` | 3rdparty/libbacktrace/elf.c:3536-3578 | such a match passes the checks and its round copies nothing |
| `BitReader.Reader.constructor` | 3rdparty/libbacktrace/elf.c:1755-1757 | a reader at a byte holds no bits |
| `BitReader.Reader.Align` | 3rdparty/libbacktrace/elf.c:1755-1764 | taking bytes up to an aligned address consumes no stream bits and holds at most 24; it reads past the input if and only if fewer bytes are left than the address lacks |
| `BitReader.Reader.Fetch` | 3rdparty/libbacktrace/elf.c:1110-1156 | `val` stays the next `bits` bits of the stream, at most 46 are held, 15 are available on success; it fails if and only if fewer than 15 bits are left up to the last aligned word of the input |
| `BitReader.Reader.Drop` | 3rdparty/libbacktrace/elf.c:1781-1782 | dropping bits moves the position by exactly that many and leaves the rest in `val` |
| `BitReader.Reader.Rewind` | 3rdparty/libbacktrace/elf.c:1798-1806 | after giving back bytes the reader stands on the first byte boundary behind its position, which is the standard's place for a stored block if and only if the position was not a boundary itself |
| `BitReader.Reader.Skip` | 3rdparty/libbacktrace/elf.c:1816-1836 | moving over whole bytes moves the position by their bits |
| `StoredBlock.CopyStored` | 3rdparty/libbacktrace/elf.c:1791-1830 | the block found there is copied, and the reader left behind it, if and only if it fits and the room left in the input and in the output, cast to 32 bits, is not less than its length |
| `Inflate.DecodeSymbol` | 3rdparty/libbacktrace/elf.c:2204-2221 | from an exact table the lookup returns the symbol whose code comes next and consumes its bits |
| `Inflate.LengthFormula` | 3rdparty/libbacktrace/elf.c:2250-2276 | the shift expressions equal the length table of RFC 1951, section 3.2.5 |
| `Inflate.DistanceFormula` | 3rdparty/libbacktrace/elf.c:2300-2348 | the shift expressions equal the distance table of RFC 1951, section 3.2.5 |
| `BlockWriter.LengthsTile` | 3rdparty/libbacktrace/elf.c:2250-2276 | the length codes below the last tile the lengths: each starts where the one before it ends, from 3 on, four of each width |
| `BlockWriter.LastLength` | 3rdparty/libbacktrace/elf.c:2252-2253 | the last code stands for 258 alone, the greatest length the others could reach |
| `BlockWriter.DistancesTile` | 3rdparty/libbacktrace/elf.c:2300-2348 | the distance codes tile the distances in the same way, from 1 on, two of each width |
| `BlockWriter.LastDistance` | 3rdparty/libbacktrace/elf.c:2300-2348 | and end with 32768 |
| `Inflate.ReadLength` | 3rdparty/libbacktrace/elf.c:2248-2276 | the length read is base plus extra bits of the standard; fails only for symbols above 285 or at the end of the input |
| `Inflate.ReadDistance` | 3rdparty/libbacktrace/elf.c:2278-2348 | the distance read is that of the standard; fails only for symbols above 29 or at the end of the input |
| `Inflate.CopyAllowedIsFit` | 3rdparty/libbacktrace/elf.c:2349-2360 | the 32-bit comparisons accept only copies that start in the output and end in the buffer; of those they refuse exactly the ones where the output so far, or the room left, is less than the distance, or the length, above a positive multiple of 4 GiB |
| `Inflate.InflateBlock` | 3rdparty/libbacktrace/elf.c:2191-2384 | the main loop computes the block of RFC 1951 from the bit position: on success output and end are the standard's, and for any size it succeeds if and only if the standard accepts, the fetch in front of the end-of-block code finds its word, and no match of the block is refused by those comparisons though it fits |
| `BitWriter.SymbolBack` | 3rdparty/libbacktrace/elf.c:2204-2221 | under any valid lengths every symbol with a code, written as section 3.1.1 of RFC 1951 packs codes, is read back |
| `BitWriter.NumberBack` | 3rdparty/libbacktrace/elf.c:2254-2263 | every n-bit number, written low bit first, is read back |
| `BlockWriter.MatchBack` | 3rdparty/libbacktrace/elf.c:2248-2348 | for every length from 3 to 258 and every distance from 1 to 32768, what a writer of the standard emits is read as that length and distance |
| `BlockWriter.BlockBack` | 3rdparty/libbacktrace/elf.c:2191-2384 | every sequence of literals and matches, written under any codes, is read as what byte-by-byte expansion makes of it, and ends where its bits end |
| `DeflateSpec.BlockGoesOn` | 3rdparty/libbacktrace/elf.c:2191-2242 | every other fetch of a block comes before that one |
| `Inflate.CompleteNeverNoCode` | 3rdparty/libbacktrace/elf.c:2191-2384 | with complete codes no stream leaves the behaviour undefined |
| `DynamicBlock.ReadCodeLengthCode` | 3rdparty/libbacktrace/elf.c:1881-2011 | the unrolled reads give the code length code in the standard's order, never using bits that are not held |
| `DynamicBlock.ReadLengthStep` | 3rdparty/libbacktrace/elf.c:2027-2168 | one literal or repeat code extends the lengths as section 3.2.7 of RFC 1951 says |
| `HeaderWriter.RepeatsMean` | 3rdparty/libbacktrace/elf.c:2053-2168 | symbol 16 repeats the length before it 3 to 6 times, 17 and 18 give 3 to 10 and 11 to 138 zeros, and what was read stays |
| `HeaderWriter.OrderIsOutward` | 3rdparty/libbacktrace/elf.c:1881-2011 | the stored order of the code length code is arithmetic: 16, 17, 18, 0, then outwards from 8 in turns |
| `HeaderWriter.RunsBack` | 3rdparty/libbacktrace/elf.c:2022-2168 | however lengths are cut into single ones, repeats and zeros, they are read back |
| `HeaderWriter.OneByOne` | 3rdparty/libbacktrace/elf.c:2022-2168 | any lengths below 16 whose symbols have codes can be cut so |
| `HeaderWriter.HeaderBack` | 3rdparty/libbacktrace/elf.c:1861-2168 | every header that a writer can emit is read back: the three sizes, and all lengths |
| `HeaderWriter.DynamicBack` | 3rdparty/libbacktrace/elf.c:1861-2384 | every dynamic block, written with any header, any codes and any literals and matches, is read back |
| `DynamicBlock.ReadHeader` | 3rdparty/libbacktrace/elf.c:1861-2168 | the whole header: sizes, code length code and all lengths are the standard's, with its refusals |
| `DynamicBlock.InflateDynamic` | 3rdparty/libbacktrace/elf.c:1861-2384 | a whole dynamic block, from its header bits to its end, is decoded as RFC 1951, sections 3.2.5 and 3.2.7, define it; a right one is refused if and only if that last fetch fails, a code asks for more than 512 slots, or a match that fits is refused |
| `DynamicBlock.CompleteNotGreedy` | 3rdparty/libbacktrace/elf.c:2179-2186 | complete literal codes, and any distance codes, never ask for that many |
| `FixedTables.FixedComplete` | 3rdparty/libbacktrace/elf.c:1556-1564 | the fixed codes of RFC 1951, section 3.2.6, fill the code space exactly |
| `FixedTables.FixedNeverNoCode` | 3rdparty/libbacktrace/elf.c:1845-1849 | so no stream leaves the meaning of a fixed block undefined |
| `FixedTables.BuildFixed` | 3rdparty/libbacktrace/elf.c:1544-1591 | the generator of the fixed tables cannot fail, and its tables decode the fixed codes |
| `FixedTables.LitTableDecodes` | 3rdparty/libbacktrace/elf.c:1615-1663 | the 368 constants of the literal table decode every fixed code, with its length, from every stream that starts with it, and no stream leads to a slot behind the table |
| `FixedTables.DistTableDecodes` | 3rdparty/libbacktrace/elf.c:1665-1699 | the 256 constants of the distance table likewise |
| `DeflateStream.RulesAgree` | 3rdparty/libbacktrace/elf.c:1791-1806 | if no stored block's header ends on a byte boundary, the stream as the code reads it is the stream of the standard, whatever blocks it has |
| `DeflateStream.SameByteIff` | 3rdparty/libbacktrace/elf.c:1798-1806 | for one block the two places agree if and only if the header does not end on a byte boundary |
| `StreamExamples.AlignedDiffers` | 3rdparty/libbacktrace/elf.c:1798-1806 | a whole stream, an empty dynamic block and a stored block on a boundary, that the standard reads and the code refuses |
| `DeflateStream.InflateOne` | 3rdparty/libbacktrace/elf.c:1784-2385 | a block of any of the four types ends with the output and position of its meaning, or is refused for one of the exact reasons; it tells whether re-aligning left the input |
| `DeflateStream.FateIn` | 3rdparty/libbacktrace/elf.c:1766-2385 | no fetch of a stream comes behind the last one, and re-aligning leaves the input only in its last three bytes |
| `DeflateStream.FetchByKind` | 3rdparty/libbacktrace/elf.c:1766-2385 | the last fetch is 7 bits from the end if the last block is fixed, the length of the end code if it is dynamic, and more than 35 if it is stored |
| `DeflateStream.InflateBlocks` | 3rdparty/libbacktrace/elf.c:1766-2385 | the loop over blocks of all types computes the whole stream; for any size it succeeds if and only if the stream is right, its last fetch finds a word, no code asks for more than 512 slots and no bounds check is cut; a re-alignment past the input is a failure only if another block follows |
| `StreamWriter.StreamBack` | 3rdparty/libbacktrace/elf.c:1766-2385 | every sequence of stored, fixed and dynamic blocks, written by the standard, is read as the bytes its blocks stand for |
| `DeflateStream.SmallFateNotCut` | 3rdparty/libbacktrace/elf.c:1822-1830 | with input and output below 4 GiB no bounds check is cut |
| `Zlib.InflateOne` | 3rdparty/libbacktrace/elf.c:1754-2385 | one zlib body: alignment loses no bit, and output and end are the stream's |
| `Zlib.Inflate` | 3rdparty/libbacktrace/elf.c:1707-2396 | accepts only the header of RFC 1950, section 2.2; on a single stream success means the whole buffer holds exactly what the stream decodes to, and a refusal has one of those reasons |
| `Zlib.HeaderByFields` | 3rdparty/libbacktrace/elf.c:1724-1752 | by the fields of RFC 1950, section 2.2: method 8, a window of at most 32K, no preset dictionary, and the check a multiple of 31, and no other header |
| `Zlib.UsualHeaders` | 3rdparty/libbacktrace/elf.c:1724-1752 | the headers of the four levels are accepted; one that asks for a dictionary, right otherwise, is refused |
| `Zlib.NearIffShortEnd` | 3rdparty/libbacktrace/elf.c:2201-2202 | with the four checksum bytes behind it, a stream that ends in a fixed or stored block is never refused for nearness; one that ends in a dynamic block is, if and only if (address + size) mod 4 is 3 and its end code and the padding have at most 6 bits |
| `Zlib.InflateAndVerify` | 3rdparty/libbacktrace/elf.c:2524-2538 | a stream with its checksum behind it is accepted if and only if its output has the size asked for, the last four bytes are its Adler-32, no code asks for more than 512 slots, no bounds check is cut, and it does not end in that short way; if no stored block's header ends on a byte boundary, this is an if-and-only-if about the files of RFC 1950 and RFC 1951 |
| `StreamWriter.WrittenIsFile` | 3rdparty/libbacktrace/elf.c:2524-2538 | behind an accepted header and before its checksum, that stream is a right zlib file of those bytes |
| `StreamWriter.FileExists` | 3rdparty/libbacktrace/elf.c:1707-2396 | every sequence of blocks has such a file, under every accepted header |
| `StreamWriter.InflateWritten` | 3rdparty/libbacktrace/elf.c:2524-2538 | decompressing what was written gives back what was meant: it succeeds unless one of the exact reasons for refusing right files applies, and then the buffer holds the bytes of the blocks |
| `StreamExamples.ShortEndExists` | 3rdparty/libbacktrace/elf.c:2201-2202 | a right zlib stream of 18 bytes that is refused at an address like 1 |
| `StreamExamples.OverrunExists` | 3rdparty/libbacktrace/elf.c:1832-1840 | a stream of 7 bytes with which nothing is wrong, and behind which re-aligning reads a byte past the input |
| `StreamExamples.InflateEnding` | 3rdparty/libbacktrace/elf.c:1707-2396 | inflating it succeeds and has read past the input |
| `CutExamples.ZeroFileCut` | 3rdparty/libbacktrace/elf.c:1822-1830 | a zlib file of k stored blocks of 65535 zeros is right by the standard, fills its output and has its checksum; the only thing that can refuse it is a check that is cut, and that happens if and only if k is at least 65533 |
| `CutExamples.InflateZeroFile` | 3rdparty/libbacktrace/elf.c:2524-2538 | such a file is accepted if and only if k is below 65533 |
| `CutExamples.ThreeCut` | 3rdparty/libbacktrace/elf.c:2349-2360 | a literal and a match of three bytes are right in every output of four bytes or more, and refused if and only if the size is at least 4 GiB and one to three bytes above a multiple of it |
| `Adler32.DeferredFits` | 3rdparty/libbacktrace/elf.c:2424-2427 | up to 5552 bytes after a reduction both sums fit in 32 bits |
| `Adler32.DeferredStep` | 3rdparty/libbacktrace/elf.c:2429-2463 | adding a byte without reducing keeps both sums congruent to the per-byte checksum |
| `Adler32.SumsClosed` | 3rdparty/libbacktrace/elf.c:2402-2523 | the per-byte checksum in closed form: one plus the sum of the bytes, and the sum of all such sums, modulo 65521 |
| `Adler32.CheckOfAbc` | 3rdparty/libbacktrace/elf.c:2402-2523 | the check bytes of abc are 02 4d 01 27 |
| `Adler32.VerifyChecksum` | 3rdparty/libbacktrace/elf.c:2402-2523 | for data of any length accepts exactly the four bytes of RFC 1950, sections 2.2 and 8.2; no addition wraps |
| `Adler32.DetectsOneByte` | 3rdparty/libbacktrace/elf.c:2398-2400 | changing one byte always changes the check bytes |
| `RangeCoder.Bound` | 3rdparty/libbacktrace/elf.c:2910-2912 | for every probability the model can hold, each part of a normalized range has at least 2^16 values |
| `RangeCoder.Adapt` | 3rdparty/libbacktrace/elf.c:2913-2925 | a probability stays between 31 and 2017 and moves towards the bit seen |
| `RangeCoder.BoundIsShare` | 3rdparty/libbacktrace/elf.c:2913 | the bound is the share of the range that the probability gives to zero, within less than the probability |
| `RangeCoder.AdaptMoves` | 3rdparty/libbacktrace/elf.c:2914-2926 | a probability moves by a 32nd of its distance from the end it moves to, truncated |
| `RangeCoder.SeenBitGains` | 3rdparty/libbacktrace/elf.c:2913-2926 | seeing a bit never shrinks that bit's own part of the range and never grows the other's |
| `RangeCoder.NormalizedSound` | 3rdparty/libbacktrace/elf.c:2882-2899 | widening keeps the code below the range and both in 32 bits, and one byte restores a range of 2^24 |
| `RangeCoder.RunReady` | 3rdparty/libbacktrace/elf.c:2905-2927 | in every run with input, however contexts depend on earlier bits, probabilities stay in 31..2017, the code below the range and the range at least 2^16 |
| `RangeCoder.ChunksReady` | 3rdparty/libbacktrace/elf.c:3195-3363 | and so through any sequence of chunks, with the range reset at each and the probabilities carried on or reset |
| `RangeCoder.BothPartsRemain` | 3rdparty/libbacktrace/elf.c:2910-2925 | at every bit of such a run both parts of the range are non-empty |
| `RangeCoder.DecodesIff` | 3rdparty/libbacktrace/elf.c:2882-2927 | a stream decodes to given bits iff the number it spells lies in the interval those bits cut out by exact arithmetic |
| `RangeCoder.MessagesApart` | 3rdparty/libbacktrace/elf.c:2905-2927 | intervals of different messages of one length have no number in common |
| `RangeCoder.RoundTrip` | 3rdparty/libbacktrace/elf.c:2882-2927 | any message coded as any number of its interval is read back, from any range and probabilities, and leaves the distance from the lower end as code |
| `Lzma.Decoder.constructor` | 3rdparty/libbacktrace/elf.c:3334-3346 | a decoder over the compressed bytes with its own probability table |
| `Lzma.Decoder.Restart` | 3rdparty/libbacktrace/elf.c:3334-3363 | fails iff fewer than five bytes are left; otherwise probabilities, range and code are reset, and the code is below the range iff the four bytes are not all 0xff |
| `Lzma.Decoder.Normalize` | 3rdparty/libbacktrace/elf.c:2882-2899 | in 32-bit arithmetic, the widening of the exact coder |
| `Lzma.Decoder.ReadBit` | 3rdparty/libbacktrace/elf.c:2905-2927 | in 32- and 16-bit arithmetic, the bit and the next state of the exact coder: nothing wraps |
| `Lzma.FirstTwoBits` | 3rdparty/libbacktrace/elf.c:2905-2927 | the first two bits of given bytes, with all the numbers in between |
| `Lzma.WidenedBit` | 3rdparty/libbacktrace/elf.c:2882-2927 | a zero and a one for which the range is widened first, and a range that needs no byte |
| `Lzma.Decoder.ReadInteger` | 3rdparty/libbacktrace/elf.c:2932-2952 | reads n bits down a tree of probabilities; the result is their number, most significant first |
| `Lzma.TreeContexts` | 3rdparty/libbacktrace/elf.c:2932-2952 | every prefix of bits has a probability of its own: the base plus a one followed by the bits |
| `Lzma.Decoder.ReadReversed` | 3rdparty/libbacktrace/elf.c:2957-2979 | reads the same bits; the result is their number, least significant first |
| `Lzma.ReversedIsMirror` | 3rdparty/libbacktrace/elf.c:2954-2979 | the two readings of the same bits are bit reversals of each other |
| `Lzma.IntegerRoundTrip` | 3rdparty/libbacktrace/elf.c:2932-2952 | every n-bit integer can be coded from any state and is read back |
| `Lzma.DirectKeepsIff` | 3rdparty/libbacktrace/elf.c:3510-3524 | the masked subtraction of a direct bit tells the half of the range; the code stays below the range iff it was not the last value of an odd range |
| `Lzma.DirectBreaksAfter` | 3rdparty/libbacktrace/elf.c:3510-3524 | after every message that leaves an odd range of at least 2^24, some stream makes code equal range at the next direct bit |
| `Lzma.DirectCanBreak` | 3rdparty/libbacktrace/elf.c:3510-3524 | a run of the decoder from a reset, over given bytes, that does |
| `FreeList.FreedDropsSmallest` | 3rdparty/libbacktrace/mmap.c:77-106 | small blocks change nothing; a list below 16 gains the block; a full one drops a smallest of all 17 and nothing else |
| `FreeList.FreedInOrder` | 3rdparty/libbacktrace/mmap.c:77-106 | the list in order: the block goes to the front and the smallest is cut out, or nothing changes if none is smaller than the block |
| `FreeList.Rounded` | 3rdparty/libbacktrace/mmap.c:148-150 | the least multiple of eight from the size on |
| `FreeList.FreedBytes` | 3rdparty/libbacktrace/mmap.c:73-108 | freeing adds no byte that was not freed |
| `FreeList.TakenBytes` | 3rdparty/libbacktrace/mmap.c:139-156 | what is left on the list and what is given out are disjoint parts of what was there |
| `FreeList.FreeBlocks.constructor` | 3rdparty/libbacktrace/mmap.c:60-69 | the list starts empty |
| `FreeList.FreeBlocks.FreeLocked` | 3rdparty/libbacktrace/mmap.c:73-108 | the walk with `ppsmall` puts the list in the specified state; 16 entries stay 16 |
| `FreeList.FreeBlocks.AllocLocked` | 3rdparty/libbacktrace/mmap.c:137-159 | finds a block iff one is large enough, takes the first, and puts its rounded rest back |
| `AllocatorRuns.TotalStep` | 3rdparty/libbacktrace/mmap.c:110-238 | no step of any thread puts a byte in two places; only mmap adds bytes, and none that anybody has |
| `AllocatorRuns.ExclusiveStep` | 3rdparty/libbacktrace/mmap.c:125-162 | the lock is taken exactly while one thread is between test-and-set and release, and never two |
| `AllocatorRuns.StepInv` | 3rdparty/libbacktrace/mmap.c:73-238 | every step keeps: no byte in two places, mutual exclusion, at most 16 entries, and what each scan and walk knows of the list |
| `AllocatorRuns.RunInv` | 3rdparty/libbacktrace/mmap.c:73-238 | hence in every state of every interleaving of any number of threads |
| `AllocatorRuns.NoOverlap` | 3rdparty/libbacktrace/mmap.c:73-238 | live blocks and free-list blocks are pairwise disjoint, within each kind and across |
| `AllocatorRuns.OnlyHolderWrites` | 3rdparty/libbacktrace/mmap.c:125-162 | a step that changes the list is by the thread inside the lock, with nobody else inside |
| `AllocatorRuns.NeverBlocked` | 3rdparty/libbacktrace/mmap.c:125-238 | no thread ever waits: from every reachable state every thread can step, lock taken or not |
| `AllocatorRuns.CriticalSection` | 3rdparty/libbacktrace/mmap.c:125-238 | whatever other threads do meanwhile, a critical section turns the list into what the sequential operation makes of the list at entry |
| `AllocatorRuns.FreeIsAtomic` | 3rdparty/libbacktrace/mmap.c:218-237 | from taking to releasing the lock a free is one backtrace_free_locked |
| `AllocatorRuns.AllocIsAtomic` | 3rdparty/libbacktrace/mmap.c:130-162 | from taking to releasing the lock an allocation is one first-fit take, or leads to mmap if nothing fits |
| `AlignedRuns.StepOnEight` | 3rdparty/libbacktrace/mmap.c:148-238 | if callers free what starts on a multiple of eight and mmap maps there, every step leaves all blocks on multiples of eight |
| `AlignedRuns.RunOnEight` | 3rdparty/libbacktrace/mmap.c:148-238 | hence in every state of every interleaving |
| `AlignedRuns.AnswersOnEight` | 3rdparty/libbacktrace/mmap.c:148-238 | every block that an allocation hands out starts on a multiple of eight, as the comment about alignment wants |
| `AlignedRuns.ThirteenOfSixtyFour` | 3rdparty/libbacktrace/mmap.c:139-156 | 13 bytes of a block of 64 leave 48, 16 bytes further |
| `JsonRoundTrip.StringRoundTrip` | 3rdparty/picojson/picojson.h:537-573 | any string, escaped and quoted, is read back and reading stops behind the quote |
| `JsonRoundTrip.NumberRoundTrip` | 3rdparty/picojson/picojson.h:875-942 | a number token that converts back is read back, up to the first character that is not of a number |
| `JsonRoundTrip.TreeRoundTrip` | 3rdparty/picojson/picojson.h:591-655 | any tree printed at any depth, before any text, is read back and that text is left |
| `JsonRoundTrip.RoundTrip` | 3rdparty/picojson/picojson.h:576-581 | compact and pretty output of any tree parse to its value, leaving nothing or the final newline |
| `JsonGrammar.PiecesParsed` | 3rdparty/picojson/picojson.h:791-832 | any sequence of characters, short escapes, code points and surrogate pairs is read as the string it spells |
| `JsonGrammar.Complete` | 3rdparty/picojson/picojson.h:896-951 | every text of the grammar of RFC 8259, with any white space and any escapes, is parsed to the value it denotes, whatever comes behind it |
| `JsonGrammar.LastFieldCounts` | 3rdparty/picojson/picojson.h:853-872 | an object's value at a name is that of the last field with this name |
| `JsonExact.StringSound` | 3rdparty/picojson/picojson.h:791-832 | whatever the string parser accepts is such a sequence, with the value it spells |
| `JsonExact.Sound` | 3rdparty/picojson/picojson.h:896-951 | whatever the parser accepts is white space and a text of the grammar, with the value that text denotes and the rest behind it |
| `JsonExact.ParseIff` | 3rdparty/picojson/picojson.h:896-951 | the parser reads a value and leaves a rest if and only if the input is white space, a text that denotes the value, and the rest |
| `JsonExact.Unambiguous` | 3rdparty/picojson/picojson.h:896-951 | so no text denotes two values or ends in two places |
| `JsonGrammar.StandardIsToken` | 3rdparty/picojson/picojson.h:875-894 | the scanner takes every number of section 6 of RFC 8259 in whole, and others, such as 01 |
| `JsonOrder.OrderIrrelevant` | 3rdparty/picojson/picojson.h:624-640 | the order in which an object's entries are visited does not change the value |
| `JsonOrder.HasOrder` | 3rdparty/picojson/picojson.h:624-640 | every value is the value of some printable tree, so the round trip covers all values |
| `JsonAgreement.ContextsAgree` | 3rdparty/picojson/picojson.h:834-951 | the checking parse never throws, and the building parse throws or stops where the checking one does |
| `JsonAgreement.ThrowsIff` | 3rdparty/picojson/picojson.h:978-1076 | the building parse throws if and only if one of the number tokens that the checking parse converts is not finite |
| `JsonAgreement.ValidatorIsParser` | 3rdparty/picojson/picojson.h:978-1076 | for every input both contexts succeed alike and stop at the same place if and only if no number token met converts to a value that is not finite |
| `JsonAgreement.OverflowSplits` | 3rdparty/picojson/picojson.h:1001-1004 | on 1e999 they differ: one throws, the other succeeds |
| `JsonInput.Input.constructor` | 3rdparty/picojson/picojson.h:671-672 | the reader starts at the first character on line 1 |
| `JsonInput.Input.Getc` | 3rdparty/picojson/picojson.h:673-686 | the lazily advanced cursor delivers the next character, or -1 at the end |
| `JsonInput.Input.Ungetc` | 3rdparty/picojson/picojson.h:687 | the last character becomes unread again |
| `JsonInput.Input.SkipWs` | 3rdparty/picojson/picojson.h:697-705 | leaves the input behind leading white space |
| `JsonInput.Input.ExpectChar` | 3rdparty/picojson/picojson.h:706-713 | consumes the character if it comes next after white space, else only the white space |
| `JsonInput.Input.Match` | 3rdparty/picojson/picojson.h:714-722 | consumes the longest common prefix and tells whether it is the whole pattern |
| `JsonInput.Input.ParseQuadHex` | 3rdparty/picojson/picojson.h:725-746 | the number of four hexadecimal digits, or -1 in front of the first character that is none |
| `JsonParser.ParseCodePoint` | 3rdparty/picojson/picojson.h:748-789 | escapes, surrogate pairs and their failures as the grammar function gives them |
| `JsonText.SpacesByCode` | 3rdparty/picojson/picojson.h:697-705 | white space is 20, 09, 0a and 0d in hexadecimal, and nothing else |
| `JsonText.DigitsByPlace` | 3rdparty/picojson/picojson.h:725-746 | hexadecimal digits of both cases have the value of their place, and other characters are none |
| `JsonText.EscapesByCode` | 3rdparty/picojson/picojson.h:806-819 | the eight short escapes stand for the codes of section 7 of RFC 8259, and there are no others |
| `JsonText.CodePointRead` | 3rdparty/picojson/picojson.h:748-789 | every code point, escaped with one or two groups of four digits, is read as bytes that decode to it |
| `JsonParser.EncodeUtf8` | 3rdparty/picojson/picojson.h:772-787 | the bytes are the UTF-8 form of every code point |
| `JsonText.Utf8Back` | 3rdparty/picojson/picojson.h:772-787 | a decoder written from RFC 3629 gets every code point back from its bytes, whatever follows them |
| `JsonText.Utf8Shortest` | 3rdparty/picojson/picojson.h:772-787 | whatever that decoder reads as this code point is at least as long, and these bytes if as long |
| `JsonParser.ParseStringBody` | 3rdparty/picojson/picojson.h:791-832 | the loop delivers what the grammar function says, value and rest |
| `JsonParser.ParseNumberToken` | 3rdparty/picojson/picojson.h:874-894 | the token is the longest run of number characters |
| `JsonParser.ParseNumber` | 3rdparty/picojson/picojson.h:920-943 | conversion, failure and throw as the grammar function says |
| `JsonParser.ParseLiteral` | 3rdparty/picojson/picojson.h:902-912 | `null`, `true` and `false` as the grammar function says |
| `JsonParser.ParseValue` | 3rdparty/picojson/picojson.h:896-951 | the recursive parser delivers the grammar's result and rest for every input, and terminates because each call has less input |
| `JsonParser.ParseArray` | 3rdparty/picojson/picojson.h:834-851 | arrays likewise |
| `JsonParser.ParseObject` | 3rdparty/picojson/picojson.h:853-872 | objects likewise; a repeated key keeps its last value |
| `JsonPrinter.PrintString` | 3rdparty/picojson/picojson.h:568-574 | the escaping loop writes the quoted string |
| `JsonPrinter.Indent` | 3rdparty/picojson/picojson.h:583-589 | a newline and two spaces per level |
| `JsonPrinter.Separate` | 3rdparty/picojson/picojson.h:603-608 | a comma except before the first, and indentation unless compact |
| `JsonPrinter.PrintItems` | 3rdparty/picojson/picojson.h:602-610 | the loop over an array writes its specified text |
| `JsonPrinter.PrintEntries` | 3rdparty/picojson/picojson.h:625-638 | the loop over an object writes its specified text |
| `JsonPrinter.Print` | 3rdparty/picojson/picojson.h:591-655 | the printer appends the specified text for every tree and indentation |
| `JsonText.NewLines` | 3rdparty/picojson/picojson.h:583-589 | two spaces for each level, none when compact |
| `JsonText.ArrayLayout` | 3rdparty/picojson/picojson.h:597-618 | an array in print: each item on a line of its own one level deeper |
| `JsonText.ObjectLayout` | 3rdparty/picojson/picojson.h:619-648 | an object in print: key, colon, a space unless compact; empty ones stay on their line |
| `FloatSpec.NearestUnique` | 3rdparty/compiler-rt/builtin_fp16.h:63-165 | nearest with ties to even determines the result |
| `FloatConvert.Ranges` | 3rdparty/compiler-rt/builtin_fp16.h:108-131 | the wrapped comparison of two differences selects exactly the exponents that are normal in the narrow format |
| `FloatConvert.NormalNearest` | 3rdparty/compiler-rt/builtin_fp16.h:108-120 | shift, rebias and round give the nearest value, with carry into the exponent and into infinity |
| `FloatConvert.StickyRounds` | 3rdparty/compiler-rt/builtin_fp16.h:140-153 | rounding the shifted significand with a sticky bit is rounding the exact quotient |
| `FloatConvert.DenormalNearest` | 3rdparty/compiler-rt/builtin_fp16.h:131-154 | the subnormal branch gives the nearest value |
| `FloatConvert.TruncateIsNearest` | 3rdparty/compiler-rt/builtin_fp16.h:63-165 | for all formats with at least two bits to drop and biases at least the source's significand width apart, truncation of every non-NaN magnitude is the nearest destination value, ties to even |
| `FloatConvert.FloatToHalf` | 3rdparty/compiler-rt/builtin_fp16.h:63-165 | float to half is such a pair of formats |
| `FloatConvert.TruncateNaN` | 3rdparty/compiler-rt/builtin_fp16.h:121-127 | a NaN stays a NaN: it becomes quiet and keeps the upper bits of its payload |
| `FloatExtend.CountLeadingZeros` | 3rdparty/compiler-rt/builtin_fp16.h:33-61 | 32 minus the bit length, zero included |
| `FloatExtend.ExtendExact` | 3rdparty/compiler-rt/builtin_fp16.h:167-244 | widening keeps the value of every finite magnitude, subnormals included |
| `FloatExtend.TruncateExtend` | 3rdparty/compiler-rt/builtin_fp16.h:63-244 | truncating an extended value gives it back, sign and infinities included, for every non-NaN |
| `FloatExtend.ExtendNaN` | 3rdparty/compiler-rt/builtin_fp16.h:213-220 | a NaN stays a NaN and keeps its whole payload, quiet bit included |
| `FloatExtend.TruncateExtendNaN` | 3rdparty/compiler-rt/builtin_fp16.h:63-244 | widening and narrowing a NaN sets its quiet bit and changes nothing else |
| `Qsort.Swap` | 3rdparty/libbacktrace/sort.c:72-97 | exchanges two elements and nothing else |
| `ElementSwap.SwapBytes` | 3rdparty/libbacktrace/sort.c:45-58 | the byte loop exchanges two areas that do not overlap and nothing else |
| `ElementSwap.SwapElements` | 3rdparty/libbacktrace/sort.c:45-58 | on memory seen as an array of elements of any size, that is the exchange the sort needs |
| `Qsort.Partition` | 3rdparty/libbacktrace/sort.c:72-90 | permutes the window so that the pivot ends where everything before is smaller and nothing behind is |
| `Qsort.Step` | 3rdparty/libbacktrace/sort.c:66-107 | one round: partition, recursion into the smaller side, and the window that is left |
| `Qsort.Sort` | 3rdparty/libbacktrace/sort.c:60-108 | for every array and total preorder the window is sorted and permuted, the rest untouched, and recursion is at most floor(log2 count) + 1 deep |
| `Search.BinarySearch` | 3rdparty/libbacktrace/dwarf.c:3986-3989 | finds a position the comparison accepts iff there is one |
| `PcLookup.CompareIsPreorder` | 3rdparty/libbacktrace/dwarf.c:1570-1588 | the unit comparator is a total preorder |
| `PcLookup.BuildIndex` | 3rdparty/libbacktrace/dwarf.c:4300-4304 | sorting before the all-ones sentinel gives a lookup table with the same entries |
| `PcLookup.Lookup` | 3rdparty/libbacktrace/dwarf.c:3982-4022 | for every pc but all-ones an entry is found iff one with the greatest low at most pc has high above pc, and of those it has the least high and then the greatest line offset; all-ones finds none |
| `PcLookup.WalkForward` | 3rdparty/libbacktrace/dwarf.c:3998-4004 | from any bsearch hit ends on the last entry whose low is at most pc |
| `PcLookup.WalkBack` | 3rdparty/libbacktrace/dwarf.c:4005-4017 | finds the covering entry with the least high, and then the greatest line offset, in the group of that low, or none |
| `PcLookup.DisjointIsScan` | 3rdparty/libbacktrace/dwarf.c:3982-4022 | for disjoint ranges that is the one range covering pc |
| `PcLookup.EnclosingCanBeMissed` | 3rdparty/libbacktrace/dwarf.c:4014-4015 | an enclosing range with a smaller low that is not found |
| `LineTable.LineVector.constructor` | 3rdparty/libbacktrace/dwarf.c:2613-2646 | the vector starts empty |
| `LineTable.LineVector.AddLine` | 3rdparty/libbacktrace/dwarf.c:2613-2646 | appends the row with its base added and its number, unless its pc without the base, file and line are those of the last row |
| `LineTable.IgnoredIsRepeat` | 3rdparty/libbacktrace/dwarf.c:2621-2628 | an ignored row repeats the stored one if and only if the base address is zero |
| `LineTable.RowIsLost` | 3rdparty/libbacktrace/dwarf.c:2621-2628 | three rows of a moved module of which one is lost, and an address that therefore gets the wrong line |
| `LineTable.SortedIsStable` | 3rdparty/libbacktrace/dwarf.c:1616-1638 | any sort by the comparator gives the stable sort by pc of the emitted rows |
| `LineTable.BuildLines` | 3rdparty/libbacktrace/dwarf.c:3304-3322 | the table is that sort followed by the sentinel |
| `LineTable.FindLine` | 3rdparty/libbacktrace/dwarf.c:4123-4127 | finds a row iff some row has pc at most the query, and then the last emitted among those with the greatest such pc |
| `Leb128.UnsignedRoundTrip` | 3rdparty/libbacktrace/dwarf.c:954-985 | every number, encoded, is read back wherever it stands |
| `Leb128.SignedRoundTrip` | 3rdparty/libbacktrace/dwarf.c:987-1022 | every signed number, encoded, is read back wherever it stands |
| `Leb128.StandardExamples` | 3rdparty/libbacktrace/dwarf.c:954-1022 | the examples of tables 7.7 and 7.8 of DWARF 5 |
| `Leb128.Buffer.constructor` | 3rdparty/libbacktrace/dwarf.c:1698-1706 | a buffer at an offset |
| `Leb128.Buffer.Require` | 3rdparty/libbacktrace/dwarf.c:755-771 | true iff enough bytes are left, else underflow is recorded |
| `Leb128.Buffer.Advance` | 3rdparty/libbacktrace/dwarf.c:773-784 | moves iff enough bytes are left |
| `Leb128.Buffer.ReadByte` | 3rdparty/libbacktrace/dwarf.c:803-812 | the next byte, or zero and underflow |
| `Leb128.Buffer.ReadUleb128` | 3rdparty/libbacktrace/dwarf.c:954-985 | the number of DWARF 5, section 7.6, modulo 2^64 however long it is; or zero, underflow and nothing left |
| `Leb128.Buffer.ReadSleb128` | 3rdparty/libbacktrace/dwarf.c:987-1022 | the signed number wrapped to 64 bits, sign extension included; or zero, underflow and nothing left |
| `AbbrevSpec.TableRoundTrip` | 3rdparty/libbacktrace/dwarf.c:1709-1828 | every well-formed table, written by section 7.5.3 of DWARF 5, is read back with all codes, tags, attributes and implicit constants |
| `AbbrevSpec.TableExample` | 3rdparty/libbacktrace/dwarf.c:1709-1828 | a table of one unit in bytes, with an implicit constant of minus one and an ordinary attribute |
| `Abbreviations.CountAttrs` | 3rdparty/libbacktrace/dwarf.c:1723-1730 | counts the attributes of the list, or underflows iff it is cut short |
| `Abbreviations.CountTable` | 3rdparty/libbacktrace/dwarf.c:1711-1738 | succeeds iff the bytes hold a whole table, and returns its number of entries |
| `Abbreviations.FillAttrs` | 3rdparty/libbacktrace/dwarf.c:1782-1813 | into an array of the counted size it writes exactly the attributes of the list and stops where the count did |
| `Abbreviations.FillBody` | 3rdparty/libbacktrace/dwarf.c:1762-1818 | one entry with all its fields, if the memory for its attributes is granted |
| `Abbreviations.FillTable` | 3rdparty/libbacktrace/dwarf.c:1749-1820 | writes exactly the counted entries in order, without underflow, if and only if every request for memory is granted |
| `Abbreviations.ReadAbbrevs` | 3rdparty/libbacktrace/dwarf.c:1681-1830 | succeeds iff the offset is in the section, a whole table stands there and every request for memory is granted; the result is that table sorted by code, with the same codes |
| `Abbreviations.LookupAbbrev` | 3rdparty/libbacktrace/dwarf.c:1832-1857 | by position or binary search, finds an entry with the code iff there is one |
| `ModuleList.StepInv` | 3rdparty/libbacktrace/dwarf.c:4250-4384 | every atomic step keeps the list linked in append order, without repeats, all published nodes in it |
| `ModuleList.RunInv` | 3rdparty/libbacktrace/dwarf.c:4250-4384 | hence in every state of every interleaving of adders and readers |
| `ModuleList.OnlyAppends` | 3rdparty/libbacktrace/dwarf.c:4361-4384 | over a run the list grows only at its tail |
| `ModuleList.PointersSpellOrder` | 3rdparty/libbacktrace/dwarf.c:4250-4262 | following the pointers gives the nodes in append order, each once, and then ends: no cycle, none lost |
| `ModuleList.AppendedStays` | 3rdparty/libbacktrace/dwarf.c:4361-4384 | a node whose append returned is in the list for ever after, once |
| `ModuleList.ReaderSeesPrefix` | 3rdparty/libbacktrace/dwarf.c:4250-4262 | what a reader has seen is a prefix of the append order |
| `ModuleList.ReaderSeesAll` | 3rdparty/libbacktrace/dwarf.c:4250-4262 | a reader that reaches the end has seen every node appended by then |
| `ModuleList.FailedSwap` | 3rdparty/libbacktrace/dwarf.c:4361-4384 | a swap fails iff another append came in between, so some thread always makes progress |
| `UnitPublication.PublicationSafe` | 3rdparty/libbacktrace/dwarf.c:4052-4107 | if whoever could read the lines computed what all store, in every schedule a thread that sees lines sees fields that belong to them; nobody reads behind lines published as -1 |
| `UnitPublication.Clash` | 3rdparty/libbacktrace/dwarf.c:4052-4107 | for any thread that could read the lines and any other, a schedule after which it sees the other's counts and functions beside its own lines |
| `UnitPublication.SafeIffSame` | 3rdparty/libbacktrace/dwarf.c:4052-4107 | publication is safe in every schedule if and only if every thread that could read the lines computed what all others store |

## Left out

- Zlib.Inflate: nothing is claimed of concatenated zlib streams, where the bytes read ahead are not given back; the loop itself is modelled.
- HuffmanBuilder.BuildTable: says nothing of rejection when the Kraft sum exceeds one, because symbol 0 with length 1 has entry 0, which counts as a free slot.
- DeflateStream.InflateBlocks: where re-aligning behind a stored block left the input and more blocks follow, nothing is said, because they begin with bytes that are not part of the input.
- LZMA streams above the range decoder: the properties byte, variable-length sizes, the state machine of matches and literals, and lengths.
- RangeCoder.ChunksReady: where chunks start and which contexts a bit has are parameters; direct bits are not part of the runs, so `LzmaCopy.LastDistanceHangs` gives a slot and its bits, not the bytes that encode them.
- AllocatorRuns: blocks given to munmap just disappear; mmap returns any region that nobody has, or fails; `size_t` overflow and page alignment are not modelled; the memory order is sequentially consistent.
- FreeList.FreeBlocks.FreeLocked: the links of the list are a sequence, not pointers stored in the blocks.
- Growing vectors on the allocator (`backtrace_vector_*`).
- JsonGrammar.Complete: the grammar leaves out lone surrogates, which RFC 8259 allows to be refused, and number tokens whose conversion fails; conversion and printing of numbers are parameters with their own round trip; locales and the int64 variant are not modelled.
- JsonParser.ParseValue: the partly built value after a failure is not described.
- Search.BinarySearch: the C library's bsearch as an ordinary binary search.
- PcLookup.Lookup: the later walk back over units without line numbers is not modelled, nor is the same walk over function addresses, which only has another comparator; merging of ranges when they are added is not modelled either.
- LineTable.LineVector.AddLine: the line number program that emits the rows is not modelled.
- Leb128.Buffer.ReadUleb128: the shift counter is unbounded; in 32 bits it would come round after a number of more than 600 million bytes. The message for numbers above 64 bits is not modelled. Leb128.Buffer.ReadSleb128: likewise.
- Abbreviations.ReadAbbrevs: what a failure frees is not modelled; the underflow tests of the filling pass are dead code here, because that pass is shown not to underflow.
- ModuleList and UnitPublication: sequentially consistent memory; in the publication the contents are computed before the run, and the search for another unit after a failed read is not modelled.
- ELF, Mach-O, PE and XCOFF files, unwinding, reading of compilation units, and the repository's Python: input and output, or easy members.
