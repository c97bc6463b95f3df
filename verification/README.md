# EMILE: decompression, checksums, ext2, memory banks and containers

EMILE boots Linux on old Macintoshes. Its second stage reads a kernel from an ext2 file
system or from a list of extents, decompresses it with a copy of zlib 1.2.3, and tells the
kernel about its memory. This project models the parts of that path with the most state and
arithmetic, each on the data the C code works on, and proves what they are for.

* **Huffman tables** (`Canonical`, `Tables`, `TableSteps`, `InfTrees`, `BuildTable`,
  `InflateTable`). The specification is the canonical code of section 3.2.2 of RFC 1951: the
  code of a symbol is a number computed from the lengths alone. `inflate_table` is a method on
  arrays with the source's loops. Its table decodes exactly that code: every lookup by the root
  table and at most one link gives the symbol whose reversed code begins the bits, and every
  allocated slot is accounted for.
* **Deflate** (`Streams`, `Machine`, `Slicing`, `Rfc1951`, `Encoder`, `Accepted`, `Reference`,
  `BitBuffer`, `Runs`, `Window`, `Inflate`, `Session`). Three layers. `Rfc1951` is a reference
  decoder over a bit string, by recursion, with no notion of stopping. `Encoder` has the format
  from the writer's side, and `Accepted` shows that the reference decoder takes exactly that.
  `Machine` is a resumable machine that takes one step at a time for as long as there are bits
  and room; `Reference` proves that it finishes exactly when the reference decoder succeeds,
  with the same output, and `Slicing` that cutting up input and output changes nothing.
  `Inflate` is the C code: a class with the fields of `inflate_state`, bytes in, a bit
  accumulator, tables in arrays, a circular window, and one method for each case of the switch;
  every method is proved to make the machine's steps, and so is `inflate_fast`. `Session` joins
  the layers for whole runs, and `FastEntry` has one that enters `inflate_fast` in a way that
  its comments exclude. Raw streams only (`wrap` 0, `wbits` 15), with `Z_NO_FLUSH`,
  `BUILDFIXED`, and without `INFLATE_STRICT`.
* **Checksums** (`Crc`, `CrcCombine`, `Adler`). CRC-32 is a shift register over single bits
  (section 8 of RFC 1952), Adler-32 two sums reduced after each byte (section 2.2 of RFC 1950).
  The tables, the four bytes at a time in either byte order, the deferred reductions and both
  combine functions are proved to compute them.
* **Block cache of ext2** (`Ext2`), **memory banks** (`Bank`), **extent lists** (`Container`),
  and the **search for a synchronisation point** (`SyncSearch`), each as the C code has it and
  against a definition that does not mention how it is done.

Conventions. `Bits.Shl`, `Shr` and `Low` are `<<`, `>>` and masking with `(1 << n) - 1` on
unsigned numbers; `ShiftsAreDivision` relates them to division. C widths are explicit where they
matter: the subset types `u32`, `u16` and `byte` are checked at every assignment, so that a
verified method on them does not overflow; `Bank.Plus` and `Container.Extended` wrap as the C
code does; the CRC is on `bv32`. Ghost fields of the class record what earlier calls took and
wrote. A loop inside a case of the switch (LENLENS, CODELENS) and a fall-through to the next
case are further turns of the loop around the switch.

What the proofs show about the code beyond its comments:

* `ENOUGH` is not only large enough in practice (`inftrees.h` says that this is not proved):
  with at most 288 symbols and 9 root bits the literal/length table needs at most 864 entries and the
  distance table at most 608. The overflow return of `inflate_table` cannot happen in `inflate`.
* `inflate_fast` states that fewer than eight bits are at hand on entry. `inflate` does not
  always meet that: resumed in the middle of a symbol it can have eight
  (`FastEntry.EnterWithEightBits` has an input), and never more than fourteen. It does exactly if
  the call goes on from less than a byte of earlier input (`Session.AtSymbol`), and always after
  the first pass of a call. What it meets in any case is that these bits do not complete a symbol,
  and that is enough for the bytes given back never to reach in front of the input.
* The fall back from a sub-table to the root table in the invalid-code loop of `inflate_table`
  is never taken: only the lone one-bit code gets there.
* A code length code without any symbol is accepted, and reads as a length of zero after each
  bit. The reference decoder follows the code here (`Machine.DecodeCl`).
* Streams are valid by the code's rules: at most 286 literal/length and 30 distance codes, and
  each code complete, empty, or a single one-bit code; the empty one fails when it is used.
* `adler32` of a single byte leaves its second half unreduced when it starts from a half near
  65535; `adler32_combine` leaves 65521 for zero, and expects halves of at most 65521.
* Triple indirection in `ext2_get_block_addr` starts from the root of double indirection; the
  project proves for exactly which blocks the address is right.
* `ext2_read_data` casts its offset to `int`. A file may be larger than 2 GiB, and from there on
  it reads from the wrong place (`Ext2.TwoGiB`); `Ext2.StartsRightIff` says that it does not below.
* `bank_add_mem` needs ranges that end below the top of the address space
  (`Bank.TopOfMemory` shows what happens otherwise, `Bank.AddsRightIff` when exactly it does, for
  any table).
* An extent has 16 bits for its count and 32 for its offset; the list stands for the file exactly
  if every run fits.

## Model

| member | source | states |
|---|---|---|
| `Canonical.KraftIsEnd` | libgzip/inftrees.c:130-138 | the running count of the length check ends at the Kraft sum of the lengths: the sum over the symbols of 2^(15 - length) |
| `Canonical.Oversubscribed` | libgzip/inftrees.c:132-136 | a length at which the running count goes below zero means a Kraft sum above one |
| `Canonical.PrefixFree` | libgzip/inftrees.c:75-90 | no canonical code is a prefix of another, in the bit-reversed form in which indices are compared |
| `Canonical.CodesInOrder` | libgzip/inftrees.c:75-90 | codes of one length are consecutive numbers in the order of the symbols, shorter codes come before longer ones, and the first is zero |
| `Canonical.FindCode` | libgzip/inftrees.c:137-138 | with a Kraft sum of one, every index begins with the code of some symbol |
| `Canonical.MatchUnique` | libgzip/inftrees.c:75-90 | at most one symbol's code begins a bit string |
| `Canonical.MatchesHuff` | libgzip/inftrees.c:83-86 | a bit string begins with a symbol's code, sent from its most significant bit, exactly if the low bits of the little-endian number are the reversed code |
| `TableSteps.SkipLengths` | libgzip/inftrees.c:140-144 | across lengths without codes the next code is the last one plus one, shifted, and the offsets into the sorted order move on by the codes counted |
| `InfTrees.NextInOrder` | libgzip/inftrees.c:252-257 | in the sorted order the symbol behind one of rank j of its length is the one of rank j + 1, or the first of the next length in use, one place further on |
| `TableSteps.IncRev` | libgzip/inftrees.c:241-250 | the backwards increment is adding one to the code and reversing, and zero after the last code |
| `TableSteps.NextCur` | libgzip/inftrees.c:241-257 | after the increment, and zeros appended when the length grows, the index is that of the next symbol's code |
| `TableSteps.AddShort` | libgzip/inftrees.c:232-239 | storing a code of at most root bits keeps what the table holds for all earlier symbols and adds this one |
| `TableSteps.AddLong` | libgzip/inftrees.c:232-239 | the same for a code in the current sub-table; no slot of another symbol or sub-table is touched |
| `TableSteps.AddLink` | libgzip/inftrees.c:283-287 | linking a new sub-table overwrites no entry of an earlier symbol |
| `TableSteps.TakenMore` | libgzip/inftrees.c:264-288 | every slot behind the root table up to used lies in the sub-table of a symbol already stored |
| `TableSteps.SizeCovers` | libgzip/inftrees.c:268-276 | the sub-table size guessed from the remaining counts is enough for every code with these root bits |
| `TableSteps.SizeReached` | libgzip/inftrees.c:268-276 | and no larger than the codes that follow need: the next code with other root bits is at least as long |
| `TableSteps.PrefixCost` | libgzip/inftrees.c:278-281 | a finished sub-table has used up at least as many symbols as it has slots of its first length |
| `TableSteps.TablesFit` | libgzip/inftrees.h:38-44 | the space bound, computed from the lengths, is at most 864 entries for any literal/length code, 608 for any distance code, and 128 for the code length code: together below ENOUGH |
| `InfTrees.MakeEntry` | libgzip/inftrees.c:217-230 | the entry for a symbol, from the base and extra tables, is the one that the length and distance codes of RFC 1951 define |
| `Tables.LengthsTile` | libgzip/inftrees.c:60-65 | the length codes cover 3 to 257 without gap or overlap, and the last is 258 |
| `Tables.DistancesTile` | libgzip/inftrees.c:66-73 | the distance codes cover 1 to 32768 without gap or overlap |
| `Tables.ExtraGrows` | libgzip/inftrees.c:60-73 | how many extra bits there are: none for the first lengths and distances, and then one more with every four lengths and every two distances |
| `Tables.RefusedIff` | libgzip/inftrees.c:130-138 | unacceptable lengths by their Kraft sum alone: above one, or between zero and one unless, for lengths and distances, no code is longer than one bit |
| `InfTrees.LengthTables` | libgzip/inftrees.c:60-65 | the table of length bases and extra bits agrees with the formula |
| `InfTrees.DistanceTables` | libgzip/inftrees.c:66-73 | the table of distance bases and extra bits agrees with the formula |
| `InfTrees.Replicate` | libgzip/inftrees.c:232-239 | stores the entry in exactly the slots whose low index bits are the code |
| `InfTrees.Increment` | libgzip/inftrees.c:241-250 | computes the backwards increment |
| `InfTrees.SubTableSize` | libgzip/inftrees.c:268-276 | the guessed size covers all codes with these root bits and is tight |
| `BuildTable.StoreSymbol` | libgzip/inftrees.c:217-239 | one symbol more is held by the table, in the root table or the current sub-table |
| `BuildTable.OpenSubTable` | libgzip/inftrees.c:264-288 | the loop goes on in a fresh sub-table behind the used space, or reports that the space of a LENS table ran out |
| `BuildTable.NextSymbol` | libgzip/inftrees.c:259-289 | the loop invariant holds for the next symbol, in the same sub-table or a new one |
| `BuildTable.FollowingCode` | libgzip/inftrees.c:241-257 | the length and index of the next code in sorted order; after the last code the index is zero exactly for a complete code |
| `BuildTable.FillTables` | libgzip/inftrees.c:200-289 | after the main loop the table holds every symbol, every slot is allocated, and huff is zero exactly if the code is complete |
| `InflateTable.CountLengths` | libgzip/inftrees.c:106-110 | count[l] is the number of symbols of length l |
| `InflateTable.FindBounds` | libgzip/inftrees.c:112-128 | the smallest and largest length in use, or a largest of zero for no symbols |
| `InflateTable.CheckLengths` | libgzip/inftrees.c:130-138 | accepts exactly complete codes, and, for lengths and distances, the lone one-bit code |
| `InflateTable.SortSymbols` | libgzip/inftrees.c:140-147 | work[] holds each symbol at its rank by length and then by value |
| `InflateTable.LastIndex` | libgzip/inftrees.c:298-301 | only the lone one-bit code leaves an index for the invalid-code loop, and then just one slot |
| `InflateTable.FillInvalid` | libgzip/inftrees.c:291-323 | the invalid-code loop terminates and writes only that slot |
| `InflateTable.InflateTable` | libgzip/inftrees.c:32-329 | returns -1 exactly for a Kraft sum above one, and for one between zero and one but for the lone one-bit code of lengths or distances, +1 only without space, and otherwise a table that holds every code, every slot in exactly one sub-table, with exactly the root bits asked for, clamped to the shortest and longest code; nothing in front of the table changes |
| `Inflate.InflateState.BuildClTable` | libgzip/inflate.c:863-872 | inflate_table on the code length code succeeds exactly if it is acceptable: the space never runs out |
| `Inflate.InflateState.BuildCodes` | libgzip/inflate.c:928-947 | so do the two calls for a dynamic block, and both tables fit into codes[] one behind the other |
| `Tables.LookupFinds` | libgzip/inflate.c:957-972 | a lookup through the root table and at most one link finds the symbol whose code the bits begin with, with entry bits adding up to its length |
| `Tables.LookupMisses` | libgzip/inflate.c:957-972 | and the invalid marker if no code begins them |
| `Tables.LookupSound` | libgzip/inflate.c:957-972 | every lookup stays inside the table and gives one or the other |
| `Tables.EverySlot` | libgzip/inftrees.c:232-287 | in the table of a complete code every allocated slot is a root link or holds the symbol whose code leads to that slot |
| `Tables.SlotUnique` | libgzip/inftrees.c:232-287 | no two codes share a slot: lookups that begin with the codes of different symbols end in different slots of every finished table, symbols with the same entry included |
| `Bits.Widths` | libgzip/zconf.h:261-264 | the types byte, u16 and u32 have no more than eight, 16 and 32 bits |
| `Bits.ShiftsAreDivision` | libgzip/inflate.c:450-458 | shifting and masking are multiplication, division and remainder by a power of two |
| `Streams.DecodeMono` | libgzip/inflate.c:957-961 | a symbol once decoded does not change when more bits arrive |
| `Streams.DecodeByTable` | libgzip/inflate.c:957-972 | what a lookup in the bits at hand gives is what the canonical code says of the stream, or that more bits are needed |
| `Streams.TakesMore` | libgzip/inflate.c:957-961 | a symbol that was incomplete in the bits at hand is longer than they are |
| `Streams.MoreIsShort` | libgzip/inflate.c:957-961 | fifteen bits always decide a symbol |
| `Machine.StepKeeps` | libgzip/inflate.c:587-1125 | every step keeps positions and codes well formed, takes bits or writes output or lowers the phase rank, and never writes beyond the limit |
| `Machine.FixedOK` | libgzip/inflate.c:212-232 | both fixed codes of section 3.2.6 of RFC 1951 are complete, and acceptable to inflate_table |
| `Machine.FixedCodes` | libgzip/inflate.c:219-223 | lengths and codes of the fixed literal/length code, as section 3.2.6 of RFC 1951 lists them |
| `Machine.FixedDistCodes` | libgzip/inflate.c:231-232 | a fixed distance code is the five bits of its number |
| `Machine.OrderRank` | libgzip/inflate.c:574-575 | the order in which code length code lengths are sent is a permutation of the 19 symbols |
| `Machine.OrderIsOutwards` | libgzip/inflate.c:574-575 | the order is 16, 17, 18, 0 and then outwards from 8 |
| `Machine.RepeatsTile` | libgzip/inflate.c:889-912 | what the repeats of code lengths cover: 3 to 6 of the one before, and 3 to 138 zeros without gap or overlap |
| `Slicing.StepMono` | libgzip/inflate.c:472-552 | a step taken with less input and room is the step taken with more |
| `Slicing.Resume` | libgzip/inflate.c:472-552 | stopping for want of input or room and going on later ends where not stopping ends |
| `Slicing.CallsAreOne` | libgzip/inflate.c:472-552 | any sequence of calls ends where one call with all of the input, and the corresponding room, ends |
| `Slicing.SameEnd` | libgzip/inflate.c:472-552 | runs with different room, of which neither writes more than the other has room for, end in the same configuration |
| `Slicing.SlicingDoesNotMatter` | libgzip/inflate.c:472-552 | two ways of slicing the same input and output space end in the same output, position and state, with the same number of bytes consumed, unless one of them wrote more than the other had room for; an exactly filled buffer is included |
| `Reference.RunSymbols` | libgzip/inflate.c:950-1076 | the machine decodes literals, lengths and distances to exactly the reference decoder's output, or gets stuck when that fails |
| `Reference.RunStored` | libgzip/inflate.c:807-836 | the same for stored blocks |
| `Reference.RunDynamic` | libgzip/inflate.c:837-949 | the same for dynamic blocks |
| `Reference.RunCodeLengths` | libgzip/inflate.c:876-932 | the same for the code lengths, whose repeats may cross from literal to distance lengths |
| `Reference.RunBlock` | libgzip/inflate.c:773-806 | the same for every block type |
| `Reference.MachineIsReference` | libgzip/inflate.c:554-1125 | for every bit string and limit the machine finishes exactly if the reference decoder of RFC 1951 succeeds within the limit, with its output and its end position |
| `Encoder.CopyIsPeriodic` | libgzip/inflate.c:1046-1070 | the bytes of a match are those at the distance, over and over if there are fewer |
| `Encoder.ReadData` | libgzip/inflate.c:950-1076 | literals and matches written in any acceptable codes are read back |
| `Encoder.ReadLengths` | libgzip/inflate.c:876-912 | code lengths written singly, as repeats and as runs of zeros are read back |
| `Encoder.RoundTrip` | libgzip/inflate.c:773-1076 | whatever blocks, codes, matches and repeats a compressor chooses, decoding gives the data back, and the position behind them |
| `Accepted.AcceptsFormat` | libgzip/inflate.c:773-1076 | the reference decoder accepts exactly what a compressor may write: every stream that decodes is written by some choice of blocks, codes, matches and repeats, and the data are what that stands for |
| `BitBuffer.Pulled` | libgzip/inflate.c:433-439 | pulling a byte keeps hold equal to the last bits of the bytes taken |
| `BitBuffer.LowBits` | libgzip/inflate.c:450-451 | BITS(n) is the next n bits of the stream as a number |
| `BitBuffer.Dropped` | libgzip/inflate.c:454-458 | DROPBITS(n) leaves the bits behind them |
| `BitBuffer.GivenBack` | libgzip/inffast.c:287-291 | giving whole bytes back leaves the accumulator of the bytes still taken |
| `BitBuffer.HoldBound` | libgzip/inflate.c:433-439 | hold is below 2^bits |
| `Window.WindowIsHistory` | libgzip/inflate.c:347-370 | the circular window read in order is exactly the last min(wsize, total) bytes of output |
| `Window.Extended` | libgzip/inflate.c:356-369 | less than a window of output copied in, wrapping, keeps that |
| `Window.Refilled` | libgzip/inflate.c:350-354 | so does a window replaced as a whole |
| `Window.TooFar` | libgzip/inflate.c:1039-1043 | the distance check on whave and the output of this call rejects exactly the distances beyond everything written |
| `Window.Chunk` | libgzip/inflate.c:1049-1058 | where in the window the bytes that far back are, up to its end or the write position |
| `Runs.MatchRun` | libgzip/inflate.c:1046-1070 | n bytes of a match are a path of exactly n steps, which write the self-overlapping string of section 3.2.3 of RFC 1951 |
| `Runs.CopyRun` | libgzip/inflate.c:820-835 | n bytes of a stored block at once are a path of exactly n steps, which write those bytes |
| `Runs.PathFacts` | libgzip/inflate.c:587-1125 | a path of n steps keeps configurations well formed, moves on, and ends where the whole run ends |
| `Runs.PathJoin` | libgzip/inflate.c:587-1125 | m steps and then n steps are m + n steps |
| `Inflate.InflateState.constructor` | libgzip/inflate.c:103-185 | a fresh raw decoder is valid and at the start of a block |
| `Inflate.InflateState.NeedBits` | libgzip/inflate.c:443-447 | NEEDBITS: enough bits at hand, the stream position unchanged, or no more input |
| `Inflate.InflateState.TakeBits` | libgzip/inflate.c:443-458 | NEEDBITS, BITS and DROPBITS take the next number off the stream, and leave fewer than eight bits |
| `Inflate.InflateState.NextSymbol` | libgzip/inflate.c:957-973 | decodes one symbol, pulling no byte before it is needed, and leaves fewer than eight bits; or all input is taken and the symbol is incomplete |
| `Inflate.InflateState.FixedTables` | libgzip/inflate.c:205-246 | builds the fixed tables once, and they decode the fixed codes |
| `Inflate.InflateState.AtType` | libgzip/inflate.c:773-806 | at a block boundary fewer than eight bits are at hand, and what the machine does there |
| `Inflate.InflateState.AtLen` | libgzip/inflate.c:950-957 | at a symbol fewer than eight bits are at hand, or up to fourteen that do not complete it; and what the machine does there |
| `Inflate.InflateState.FirstSymbol` | libgzip/inffast.c:287-291 | the first symbol of the fast path ends behind the bytes that were at hand, so that no byte from before is given back |
| `Inflate.InflateState.StepType` | libgzip/inflate.c:773-806 | the block header makes the machine's step, or waits as it does; the state it leaves is on the run of the machine, at least one step on, or unchanged where the machine stops |
| `Inflate.InflateState.StepStored` | libgzip/inflate.c:807-819 | the stored header, from the byte boundary on; the state it leaves is on the run of the machine, at least one step on, or unchanged where the machine stops |
| `Inflate.InflateState.StepCopy` | libgzip/inflate.c:820-836 | as much of a stored block as there is input and room for, or the machine waits; the state it leaves is on the run of the machine, at least one step on, or unchanged where the machine stops |
| `Inflate.InflateState.StepTable` | libgzip/inflate.c:837-854 | the counts of a dynamic block |
| `Inflate.InflateState.StepLenLens` | libgzip/inflate.c:855-875 | the code length code lengths, and the table built from them |
| `Inflate.InflateState.StepCodeLens` | libgzip/inflate.c:876-949 | the code lengths with their repeats, and the two tables built from them |
| `Inflate.InflateState.StepLen` | libgzip/inflate.c:957-992 | a literal/length symbol by the slow path |
| `Inflate.InflateState.StepLenExt` | libgzip/inflate.c:993-1000 | the extra bits of a length |
| `Inflate.InflateState.StepDist` | libgzip/inflate.c:1001-1025 | a distance symbol |
| `Inflate.InflateState.StepDistExt` | libgzip/inflate.c:1026-1045 | the extra bits of a distance, and the check that it does not reach too far back |
| `Inflate.InflateState.MatchSource` | libgzip/inflate.c:1048-1064 | where a match is copied from, in the window or in the output, and how much of it at once |
| `Inflate.InflateState.CopyByte` | libgzip/inflate.c:1067-1069 | one byte of a match, read at the pointer, is the byte at the distance |
| `Inflate.InflateState.StepMatch` | libgzip/inflate.c:1046-1070 | as much of a match as comes from one place and fits; the state it leaves is on the run of the machine, at least one step on, or unchanged where the machine stops |
| `Inflate.InflateState.StepLit` | libgzip/inflate.c:1071-1076 | one literal byte, or the machine waits for room |
| `Inflate.InflateState.UpdateWindow` | libgzip/inflate.c:323-371 | the window holds the end of everything written |
| `Inflate.InflateState.FastSymbol` | libgzip/inffast.c:127-133 | a symbol decoded without checking for input, by the root table and at most one link |
| `Inflate.InflateState.FastCopy` | libgzip/inffast.c:186-259 | the three window cases and the copies unrolled by three yield the self-overlapping string |
| `Inflate.InflateState.FastPair` | libgzip/inffast.c:139-270 | a length/distance pair behind its length code takes at most 33 bits; its end is on the run of the machine |
| `Inflate.InflateState.FastTurn` | libgzip/inffast.c:120-285 | one turn takes at most 6 input bytes and writes at most 258; its end is on the run of the machine, that is of the slow path |
| `Inflate.InflateState.InflateFast` | libgzip/inffast.c:67-302 | ends in a configuration that the steps of the machine, that is the slow path, pass through, with fewer than eight bits at hand and unused bytes given back; on return in LEN, input or room is short |
| `Inflate.InflateState.Run` | libgzip/inflate.c:587-1125 | the loop around the switch terminates where the machine stops on all input given and the room there is, having taken exactly the bytes that stopping there calls for |
| `Inflate.InflateState.StoppedRight` | libgzip/inflate.c:1127-1142 | waiting for input all of it is taken, and waiting for room less than a byte is left in the accumulator: the bytes taken are a function of the configuration and the stream |
| `Inflate.InflateState.Pass` | libgzip/inflate.c:587-1125 | one pass of the switch keeps the invariant and stays on the run of the machine; when it goes on, fewer than eight bits are at hand except for a stored header or an error, so that only the first pass of a call can begin a symbol with more |
| `Inflate.InflateState.HandBack` | libgzip/inffast.c:287-300 | unused whole bytes are given back exactly |
| `Inflate.InflateState.Leave` | libgzip/inflate.c:1133-1142 | bytes taken and written become history, and the window invariant holds again whenever the window can still be needed |
| `Inflate.InflateState.Inflate` | libgzip/inflate.c:554-1152 | one call: the new state is where the machine stops, what was taken and written is exactly accounted for, the number of bytes taken is the one that state calls for, and the return code says how it ended |
| `Session.Feed` | libgzip/inflate.c:472-552 | any sequence of calls on a fresh decoder ends in the state, with the output and the number of bytes taken that the abstract sequence of calls has, and the last return code reports how it ended |
| `Session.FedAlike` | libgzip/inflate.c:472-552 | two decoders fed the same input in different pieces have written and taken the same bytes, are in the same state and report the same, unless one wrote more than the other had room for |
| `Session.AtSymbol` | libgzip/inffast.c:40-46 | when a call stops at a literal/length symbol, all of the input is taken and what is at hand is what lies behind the position: the next call begins with fewer than eight bits exactly if less than a byte of the input lies there |
| `Session.AnyCallsDecode` | libgzip/inflate.c:472-552 | however a stream is cut up, the calls end with exactly the reference decoder's output if there is room, and report the end of the stream only then |
| `Session.Continues` | libgzip/inflate.c:472-552 | for a stream that can still be continued to a valid one no error is reported, and what is written is the beginning of its output |
| `Session.Decompress` | libgzip/inflate.c:472-552 | fed any calls, a fresh decoder reports the end of the stream exactly if the reference decoder accepts their input and there is room, and has then written the reference output and taken the bytes that the stream reaches into; what it has written is always the beginning of the output of every valid continuation, and after a data error there is none |
| `Session.Uncompress` | libgzip/inflate.c:472-552 | decompression undoes compression: fed any calls, a fresh decoder reports the end of the stream exactly if their input is what a compressor may write for data that there is room for, and has then written those data |
| `FastEntry.EnterWithEightBits` | libgzip/inffast.c:40-46 | inflate_fast is entered with eight bits at hand: after a first call with 9A 30 61 C2 84 09 13, any second call with six bytes and 258 places takes the fast path so |
| `FastEntry.RunsTo` | libgzip/inflate.c:957-961 | on that input the machine decodes five literals of nine bits and stops in front of a sixth of which it has eight |
| `SyncSearch.CountIsLongest` | libgzip/inflate.c:1249-1256 | the counter stays the longest prefix of 00 00 FF FF that ends what was read |
| `SyncSearch.PatternIsEmptyBlock` | libgzip/inflate.c:1228-1238 | the four bytes searched for are an empty stored block, and nothing else is |
| `SyncSearch.Syncsearch` | libgzip/inflate.c:1239-1260 | over a further piece of input the counter stays that prefix, and the search stops at once when the pattern is complete |
| `SyncSearch.SearchPieces` | libgzip/inflate.c:1286-1293 | over any slicing of the input the search stops right behind the first occurrence in all of it |
| `SyncSearch.FirstOccurrence` | libgzip/inflate.c:1239-1260 | no occurrence begins earlier than the one found |
| `SyncSearch.NoOccurrence` | libgzip/inflate.c:1239-1260 | a search that read everything without finding the pattern: it does not occur |
| `Crc.ChecksumAppend` | libgzip/crc32.c:219-335 | a CRC over a concatenation is the composition of the CRCs |
| `Crc.Residue` | libgzip/crc32.c:106-125 | a string followed by its own checksum, lowest byte first, leaves 0xDEBB20E3 in the register, whatever the string |
| `Crc.RegisterLinear` | libgzip/crc32.c:342-423 | a change to the shift register goes through a string as through zeros |
| `Crc.ByTable` | libgzip/crc32.c:215 | eight shifts are one table lookup and a move |
| `Crc.FourBytes` | libgzip/crc32.c:256-258 | four bytes one by one are one word and 32 shifts |
| `Crc.QuadShifts` | libgzip/crc32.c:256-258 | 32 shifts are four lookups in the tables for zero to three zero bytes |
| `Crc.BigQuadIsRev` | libgzip/crc32.c:296-298 | four lookups in the reversed tables are the reversal of that |
| `Crc.CrcTable.Polynomial` | libgzip/crc32.c:115-118 | the list of exponents makes the pattern 0xedb88320 |
| `Crc.CrcTable.MakeCrcTable` | libgzip/crc32.c:106-148 | all eight tables hold the register for each byte and up to three zero bytes, and the byte reversals |
| `Crc.CrcTable.Plain` | libgzip/crc32.c:242-250 | a byte at a time equals the shift register |
| `Crc.CrcTable.Little` | libgzip/crc32.c:262-292 | four bytes at a time on a little-endian machine equals the shift register, for every address of the buffer |
| `Crc.CrcTable.Big` | libgzip/crc32.c:302-334 | so does the reversed register on a big-endian machine |
| `Crc.CrcTable.Crc32` | libgzip/crc32.c:219-251 | whichever way is chosen the result is that of the shift register, and 0 for no buffer |
| `CrcCombine.TimesLinear` | libgzip/crc32.c:342-356 | a matrix times a vector is linear over exclusive or |
| `CrcCombine.ProductComposes` | libgzip/crc32.c:359-367 | multiplying the columns composes the operators |
| `CrcCombine.SquareDoubles` | libgzip/crc32.c:359-367 | squaring the operator for n zero bits gives that for 2n |
| `CrcCombine.OneBitShifts` | libgzip/crc32.c:383-390 | the initial matrix is one step of the shift register |
| `CrcCombine.Gf2MatrixTimes` | libgzip/crc32.c:342-356 | the loop over the bits of the vector computes the product, and never passes the 32nd column |
| `CrcCombine.Gf2MatrixSquare` | libgzip/crc32.c:359-367 | squares the operator |
| `CrcCombine.CombinedIsChecksum` | libgzip/crc32.c:370-423 | the CRC of a concatenation from those of its parts |
| `CrcCombine.Crc32Combine` | libgzip/crc32.c:370-423 | the even/odd loop applies exactly the zeros of the second string, so that the result is the CRC of the concatenation for all byte strings |
| `Adler.RawIsSum` | libgzip/adler32.c:57-125 | putting the reduction off changes the sums only by multiples of 65521 |
| `Adler.SumIs` | libgzip/adler32.c:57-125 | the checksum without a loop: 1 and the sum of the bytes, and the sum of the first sums on the way, modulo 65521, in halves of 16 bits; 1 is that of no bytes |
| `Adler.NmaxFits` | libgzip/adler32.c:11-13 | NMAX bytes never overflow 32 bits, even from halves up to 65535 |
| `Adler.NmaxIsLargest` | libgzip/adler32.c:11-13 | NMAX is the largest number of bytes that cannot make either sum overflow 32 bits, over all buffers of that length and all reduced halves to start from |
| `Adler.Mod` | libgzip/adler32.c:23-42 | the chain of subtractions is the remainder, for every 32-bit value |
| `Adler.Mod4` | libgzip/adler32.c:43-50 | so is the short chain, for what fewer than 16 bytes can reach |
| `Adler.Adler32` | libgzip/adler32.c:57-125 | from 1 on, 32 bits made of 1 and the sum of the bytes, and of each byte as often as there are bytes from it on; from any value the byte-at-a-time sums up to multiples of 65521, exactly those from reduced halves, and reduced in every case but one byte added to a large second half |
| `Adler.Concatenated` | libgzip/adler32.c:128-149 | the sums of a concatenation from those of its parts and the length of the second |
| `Adler.Adler32Combine` | libgzip/adler32.c:128-149 | the halves are congruent to those of the concatenation's checksum, and each is from 1 to 65521 |
| `Ext2.AddrRight` | libext2/ext2_utils.c:180-213 | up to triple indirection the block address is that of the pointer tree |
| `Ext2.AddrRightIff` | libext2/ext2_utils.c:180-230 | it is so on every disk exactly for those blocks: triple indirection starts from the wrong root |
| `Ext2.FileIsTree` | libext2/ext2_utils.c:180-285 | so the bytes found are those of the file that the pointer tree defines |
| `Ext2.SizeFits` | libext2/ext2_utils.c:215-229 | no file of 32-bit size needs more than triple indirection |
| `Ext2.WordIsBits` | libext2/ext2_utils.c:200 | a block pointer is the number of the 32 bits of its four bytes, lowest first |
| `Ext2.BlockOnDevice` | libext2/ext2_utils.c:73-87 | byte i of block b is the byte at b times the block size plus i of the device, exactly as long as its sector number fits 32 bits |
| `Ext2.DirectAddr` | libext2/ext2_utils.c:186-189 | blocks 0 to 11 are named in the inode |
| `Ext2.IndirectAddr` | libext2/ext2_utils.c:191-202 | the next are named in block 12 |
| `Ext2.DoubleAddr` | libext2/ext2_utils.c:204-217 | the next in the blocks named in block 13 |
| `Ext2.TripleAddr` | libext2/ext2_utils.c:219-229 | and the next by two more steps below the root of triple indirection |
| `Ext2.StartsRightIff` | libext2/ext2_utils.c:247-249 | the block and the place that reading starts with, computed from (int)offset, are those of the byte at offset exactly if the offset is below 2^31 |
| `Ext2.StartsWrong` | libext2/ext2_utils.c:247-249 | from there on the place is negative or zero, and the block is numbered from the top of 32 bits down |
| `Ext2.TwoGiB` | libext2/ext2_utils.c:247-249 | at offset 2^31 with blocks of 1024 bytes the block asked for is 0xFFE00000, beyond triple indirection, and not 0x200000 |
| `Ext2.Volume.constructor` | libext2/ext2_mount.c:44-49 | after mounting, the buffer holds block 0 and current says so |
| `Ext2.Volume.ReadBlock` | libext2/ext2_utils.c:73-87 | the buffer always holds the block that current names |
| `Ext2.Volume.GetBlockAddr` | libext2/ext2_utils.c:180-230 | the address of a file block, with pointer blocks read through the same cache |
| `Ext2.Volume.ReadData` | libext2/ext2_utils.c:232-285 | for every offset and length: -1 past the end; below 2 GiB exactly the min(length, size - offset) bytes of the file that are asked for, nothing else, and their number, and those of the pointer tree before triple indirection; from 2 GiB on the bytes at StartAt when that stays inside the block read, and otherwise an access outside it |
| `Bank.AddedAdds` | second/bank.c:37-97 | adding a range apart from all banks keeps them disjoint, and covers exactly the old address pairs and the new; the table is unchanged only when it is full and no bank touches the range |
| `Bank.Merged` | second/bank.c:54-74 | merging two banks and moving the last into the gap keeps exactly the pairs covered |
| `Bank.AvailRises` | second/bank.c:280-290 | the memory available rises by exactly the size of the range |
| `Bank.RoomFor26` | second/bank.c:90-91 | fewer than 26 banks always have a place, and 26 of them take in only what touches one |
| `Bank.TopOfMemory` | second/bank.c:43-46 | a range that ends at the top of the address space breaks this: its end wraps to 0 |
| `Bank.Lost` | second/bank.c:43-63 | when a join wraps, the beginning of one of the two ranges is no longer found |
| `Bank.AddsRightIff` | second/bank.c:43-46 | for any table of banks apart from each other and the range, anywhere in the address space: the pairs covered are the old ones and those of the range exactly if the table has a place and no join wraps, neither that with the bank touched nor the merge that follows it |
| `Bank.ScanMaps` | second/bank.c:120-132 | pages scanned into a table that is never full: it maps exactly what the MMU maps |
| `Bank.MemoryMap.AddMem` | second/bank.c:37-97 | the table after bank_add_mem, case by case |
| `Bank.MemoryMap.InitMemoryMap` | second/bank.c:120-132 | the page loop, for every top of memory from which it does not wrap, and for an injective translation the mapping it records |
| `Bank.MemoryMap.FindByPhysical` | second/bank.c:198-210 | finds a bank that has the physical address, if one does |
| `Bank.MemoryMap.Physical2Logical` | second/bank.c:249-266 | the one logical address that the table maps to a physical one, or -1 if there is none |
| `Bank.MemoryMap.InitAndTranslate` | second/bank.c:249-266 | after the page loop, for an injective translation that fits the table, the logical address found for a physical one is the one that the MMU translates to it, and -1 means that there is none |
| `Bank.MemoryMap.MemAvail` | second/bank.c:280-290 | the sum of the sizes, which fits 32 bits |
| `Container.RunsAreFile` | libemile/emile_scsi_create_container.c:150-178 | the runs stand for the file's blocks, in order |
| `Container.NoneMergeable` | libemile/emile_scsi_create_container.c:165-172 | no two neighbouring runs could be one |
| `Container.CountIsCeiling` | libemile/emile_scsi_create_container.c:157-159 | block k of a file is looked up exactly if it has a byte of the file, or is the first |
| `Container.ExtentsAreFile` | libemile/emile_scsi_create_container.c:150-181 | the extents stand for exactly the file's sectors if and only if every count fits 16 bits and every offset 32 bits (unless a block is smaller than a sector, when there are none) |
| `Container.EveryByte` | libcontainer/container_read.c:32-34 | every byte of a file is a byte of a sector of one of its blocks |
| `Container.CreateContainer` | libemile/emile_scsi_create_container.c:140-182 | writes the extents of the runs and the end mark, and fails exactly if FIBMAP refuses the first block or they do not fit |
| `Container.SeekBlock` | libcontainer/container_read.c:16-41 | the sector that holds a byte offset of what the extents stand for, or 0 behind their end |
| `Container.SeekIsFibmap` | libcontainer/container_read.c:16-41 | in a container that fits, the sector found for every byte of the file is the one FIBMAP gives |
| `Container.InstallAndSeek` | libcontainer/container_read.c:16-41 | the container that the installer makes from FIBMAP, searched by the boot loader: when every run fits 16 and 32 bits and none looks like the end mark, for each byte of a file of that size the sector found is first + fibmap(block) times the sectors of a block + the sector in it |

## Left out

- zlib and gzip wrappers (HEAD with `wrap`, FLAGS to HCRC, DICTID, DICT, the trailer checks), `inflatePrime`, `inflateCopy`, `inflateEnd`, memory allocation and its failure: plumbing around the raw path.
- `inflateSetDictionary`: it leaves `write` at 0 with `whave` above 0, so that the window invariant of `Window` does not hold afterwards.
- `inflateSync` around the search: it aligns `hold` by a left shift before it searches, which is not what the search needs.
- Flush modes other than `Z_NO_FLUSH`: they change only the return code and where Z_BLOCK stops.
- `total_in`, `total_out`, `data_type` and `msg`: bookkeeping for callers; the ghost fields `past` and `hist` record the bytes themselves.
- Sizes beyond 32 bits for `avail_in` and `avail_out`: input and output of a call are sequences and arrays of any length.
- Inflate.InflateState.Inflate: the null checks with `Z_STREAM_ERROR` are not modelled, because a Dafny reference is never null.
- Inflate.InflateState.UpdateWindow: the window exists from the start, because allocation is not modelled.
- Inflate.InflateState.FastSymbol: the `goto` back to the dispatch after a link is one `if`, because a table has no link behind a link.
- InflateTable.InflateTable: the space for a table is a precondition, computed from the lengths; `TableSteps.TablesFit` shows that `inflate` always meets it.
- Crc.CrcTable.Little: words are put together from bytes, and unrolling by eight is a loop of eight; the address of the buffer is a parameter.
- Crc.CrcTable.MakeCrcTable: the guard against two tasks making the table at once is not modelled.
- CrcCombine.Crc32Combine: a negative length is not modelled.
- Adler.Adler32: a null buffer of length 1, which the C code would read, is taken for a null buffer.
- Adler.Adler32Combine: congruence and range are stated for halves of at most 65521; above that a sum can need a 17th bit, which the model keeps but nothing is claimed about.
- Ext2.Volume.ReadData: what an access outside the block in the buffer yields is not modelled (`Outside`), and a negative offset is not.
- Ext2.FileIsTree: stops where triple indirection begins, because the code's address is not the tree's from there on (`Ext2.AddrRightIff`).
- Holes read as block 0, device errors, inode and group descriptor decoding, and directories of ext2.
- Bank.MemoryMap.AddMem: what becomes of ranges that overlap banks is not claimed; the banks of one machine do not.
- `extractBanks`, `malloc_contiguous`, `bank_find_by_logical`, the walks of the MMU tables (a given translation here), and the PowerPC memory map.
- Container.CreateContainer: device queries and error messages are left out, FIBMAP is a given function, and an entry is written before the check for room, so that the array has one place more than `maxblocks`.
- Container.InstallAndSeek: nothing is claimed about files with a run that does not fit or that begins at sector 0, which the search takes for the end mark.
- Container.SeekBlock: 32-bit overflow of byte positions is not modelled; files are smaller than that.
- `container_read`: its buffer is declared as an array of pointers, so that byte offsets into it scale by the pointer size.
- libconfig, consoles, SCSI and floppy drivers, partition maps, the user interface and the installation tools: hardware, input and output, or thin accessors.
