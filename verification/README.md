# Kernel and build-tool algorithms of an RTOS SDK

A model of the parts of a Zephyr-derived RTOS SDK whose correctness spans several functions or whole
runs, with proofs. `dafny verify dfyconfig.toml` checks the project.

- **Symbol tables** (`PairCoding`, `TokenChoice`, `KallsymsCompressor`, `KallsymsImage`,
  `KallsymsWriter`, `KallsymsLookup`, `KallsymsLimits`, `KallsymsRoundTrip`). The build tool compresses symbol names by pair
  encoding in place; the kernel decompresses them on lookup. The two are shown to undo each other.
- **Memory pool** (`PoolGeometry`, `PoolProtocol`, `PoolCalls`, `PoolScan`, `PoolBitmap`, `PoolRounding`,
  `PoolGrid`, `NodeLists`, `PoolNodes`, `MemPool`). Every locked section is a step of a protocol that any threads may
  interleave. In every reachable state the free and held blocks partition the pool and no four free partners are left
  unmerged, for exactly the pools whose sizes allow it. The free lists are linked through the free blocks themselves, in
  memory: no step writes into a block that another thread holds, and nothing that threads write into their blocks disturbs
  the lists. Such a pool is an exact grid of blocks; in a pool of one block the end of the grid may lie behind the buffer,
  and blocks there are marked free but never listed.
- **Pipes** (`PipeStream`, `PipeProtocol`, `PipeBuffer`, `PipeCursor`, `PipeCalls`). Ring buffer, waiting
  readers and writers and direct copies; the stream is first in, first out over every run.
- **Page tables** (`PageRegions`, `PageTables`, `PageTranslation`, `MmuGenerator`). The generated binary, read
  by the two-level walk of 32-bit paging (section 4.3 of the Intel SDM, Volume 3A), translates exactly
  the listed regions.
- **Mailboxes** (`MailboxProtocol`, `MailboxRuns`, `MailboxClear`, `Mailbox`), **message queues** (`MsgqProtocol`,
  `MsgQueue`), the **ready queue** (`ReadyQueue`), **thread timers** (`ThreadTimer`, `TimerPass`, `TimerCalls`) and the
  **item ring buffer** (`ItemRing`). `WaitQueue` and `Arithmetic` are shared.

Code that updates fields or buffers is a class or a method with loops, proved against functions on values;
the properties of those functions are lemmas. What a call tells its caller and what it leaves behind is stated in
terms of the state before it, and over runs what is on record is shown to be what the calls of the run said. Sections under the interrupt or scheduler lock are atomic.
Doubly linked lists are sequences, except in the memory pool, whose list nodes share the memory that it hands out.
Where a property that the source suggests does not hold, there is a lemma with a counterexample and one that says
exactly when it holds:

- a scan of the memory pool that other threads interrupt can miss a block: `PoolScan.FreesCauseMiss`,
  `PoolScan.BreaksAndAllocsCauseMiss`; exactly when it cannot: `PoolScan.ReliableIff`;
- rounded level sizes are not quarters of each other: `PoolGeometry.RoundedQuarters`, `PoolGeometry.RoundingIsExactIff`;
- a rounded quarter can reach into the next block and take its number: `PoolRounding.OverlappingQuarter`,
  `PoolRounding.SeparateIff`, `PoolRounding.NumberedIff`;
- a largest block that is not a multiple of four bytes is lost once it is freed: `PoolRounding.LostBlock`,
  `PoolRounding.ContainedIff`;
- a free bit can lie outside the words of its level: `PoolBitmap.SharedBit`, `PoolBitmap.ThirtyThreeBlocks`,
  `PoolBitmap.InBoundsIff`;
- a free block of four bytes has no room for its list node, and is then handed out twice: `PoolNodes.SameBlockTwice`,
  `PoolRounding.NodesFitIff`;
- with more than 2^20 blocks of a size, two have the same id: `PoolRounding.SharedId`, and for pools without the failures
  above `PoolRounding.IdentifiedIff`;
- the pools in which none of the last five happens are exactly those of `PoolRounding.SoundIff`;
- a symbol name of 64 codes can overrun the buffer of the build tool: `KallsymsLimits.LongNameOverruns`,
  `KallsymsLimits.FitsIff`;
- two kinds of memory regions do not get the addresses they ask for: `PageTranslation.EmptyRegionOpensSlot`,
  `PageTranslation.UpperHalfCutOff`, `PageTranslation.OrdinaryMapsIff`;
- an overlap of regions is only found when it is a containment: `MmuGenerator.PartialOverlapPasses`,
  `MmuGenerator.InsideIff`;
- the first region of a 4 MB slot can take write access from the others: `PageTranslation.ReadOnlyNeighbour`,
  `PageTranslation.WriteAccessIff`;
- a call that clears a mailbox and is interrupted can go on with a sender that no longer waits; its thread then runs
  although its message was received and not disposed of, or its descriptor is freed twice: `MailboxClear.ReleasedEarly`,
  `MailboxClear.FreedTwice`; exactly which interruptions do this: `MailboxClear.ReliableIff`;
- in a message queue without room, senders and receivers do not meet: `MsgqProtocol.NoRoomNoMeeting`,
  `MsgqProtocol.OneKindIff`;
- a timer with a negative period can be called twice in one pass, and two can keep it from ending:
  `TimerPass.CalledTwice`, `TimerPass.Endless`, `TimerPass.PassRightIff`.

The documentation of memory pools asks for a smallest block of at least four bytes; the code needs eight, and the model
follows the code. The comment above the purge of message queues speaks of threads that wait to write; the code sends waiting
receivers away too, and the model follows the code.

## Model

| member | source | states |
|---|---|---|
| `KallsymsRoundTrip.BuildAndLookup` | sdk014_ZS285A/kernel/kallsyms.c:204-225 | end to end: for every sorted symbol list whose tables fit their formats and every address in one of the two text ranges at or above the first symbol, the lookup in the compressed tables gives the original name (type character dropped, cut to 31 characters) of the first alias at the greatest address not above it |
| `KallsymsRoundTrip.BuildAndLookupShort` | sdk014_ZS285A/kernel/kallsyms.c:204-225 | the same for every sorted symbol list whose names have fewer than 64 codes, without any condition on the compressed tables |
| `KallsymsLimits.ShortNamesFit` | sdk014_ZS285A/scripts/kallsyms.c:299-390 | if every name has fewer than 64 codes, the tables fit their formats, whatever tokens the compressor chooses |
| `KallsymsLimits.CompressedParts` | sdk014_ZS285A/scripts/kallsyms.c:502-528 | every token that the compressor makes stands for characters that occur together in one of the original names |
| `KallsymsLimits.OptimizeParts` | sdk014_ZS285A/scripts/kallsyms.c:502-528 | each filled slot keeps that so |
| `KallsymsLimits.OptimizeFully` | sdk014_ZS285A/scripts/kallsyms.c:502-528 | with a free slot for every code of the names, compression goes on until each name is one code |
| `KallsymsLimits.FitsIff` | sdk014_ZS285A/scripts/kallsyms.c:376-383 | for a list with no more codes than unused slots the tables fit if and only if every name has fewer than 64 codes; otherwise a token overruns the 64-byte buffer |
| `KallsymsLimits.LongNameOverruns` | sdk014_ZS285A/scripts/kallsyms.c:376-383 | one symbol of 64 codes whose token does |
| `KallsymsWriter.BuildTables` | sdk014_ZS285A/scripts/kallsyms.c:547-560 | from the symbol list to the tables: the kernel's decoding of every symbol is its original name |
| `KallsymsWriter.ReadMap` | sdk014_ZS285A/scripts/kallsyms.c:239-270 | one entry per symbol, each with its own buffer that holds the name and a NUL |
| `KallsymsWriter.WriteSrc` | sdk014_ZS285A/scripts/kallsyms.c:299-390 | the emitted tables are exactly the layout of the final coding |
| `KallsymsWriter.WriteNames` | sdk014_ZS285A/scripts/kallsyms.c:352-374 | the name stream and, every 256 symbols, a marker with the stream offset |
| `KallsymsWriter.WriteTokens` | sdk014_ZS285A/scripts/kallsyms.c:376-389 | each token string is the full expansion of its code, found at its index |
| `KallsymsWriter.TokenText` | sdk014_ZS285A/scripts/kallsyms.c:380-382 | the printed row is the expansion of that code, read back up to its NUL |
| `KallsymsWriter.ExpandSymbol` | sdk014_ZS285A/scripts/kallsyms.c:274-297 | the recursive expansion writes the meaning of the codes and terminates, because tokens refer only to literals and higher-numbered tokens |
| `KallsymsWriter.ExpandInto` | sdk014_ZS285A/scripts/kallsyms.c:278-293 | one code: itself if literal, otherwise the expansion of its row |
| `KallsymsWriter.ExpandSlot` | sdk014_ZS285A/scripts/kallsyms.c:282-289 | the row of a token expands to what its code stands for |
| `PairCoding.ReplaceKeepsMeaning` | sdk014_ZS285A/scripts/kallsyms.c:443-482 | replacing a pair by its token, greedily from the left, leaves the expansion of a name unchanged |
| `PairCoding.ReplaceRestores` | sdk014_ZS285A/scripts/kallsyms.c:443-482 | writing every code of the new token as its pair again gives the name back |
| `PairCoding.ReplaceLeavesNone` | sdk014_ZS285A/scripts/kallsyms.c:443-482 | no occurrence of the pair is left, and of equal codes in a row the leftmost two are taken |
| `PairCoding.ReplaceUnique` | sdk014_ZS285A/scripts/kallsyms.c:443-482 | replacement is the only form of a name that can be undone, leaves no pair behind, and of equal codes in a row takes the leftmost two |
| `PairCoding.FillKeepsLayered` | sdk014_ZS285A/scripts/kallsyms.c:508-527 | filling free slots downwards keeps every token referring upwards only, so expansion is well founded |
| `PairCoding.FillKeepsMeaning` | sdk014_ZS285A/scripts/kallsyms.c:518-525 | a new token does not change the meaning of names that do not use its slot |
| `PairCoding.ReplaceKeepsCovered` | sdk014_ZS285A/scripts/kallsyms.c:443-482 | compressed names only use occupied slots |
| `PairCoding.ExpansionIsLiteral` | sdk014_ZS285A/scripts/kallsyms.c:274-297 | an expansion consists of literal characters only |
| `PairCoding.TotalCountUpdate` | sdk014_ZS285A/scripts/kallsyms.c:457-480 | forgetting the old and learning the new form of one symbol keeps the totals exact |
| `PairCoding.PairCountIs` | sdk014_ZS285A/scripts/kallsyms.c:396-411 | a pair count is the number of places in the symbol where the pair stands |
| `PairCoding.TotalCountIs` | sdk014_ZS285A/scripts/kallsyms.c:413-428 | and over all symbols the number of occurrences in any of them |
| `PairCoding.NothingLeftToPair` | sdk014_ZS285A/scripts/kallsyms.c:515-517 | no pair anywhere means that no name has two codes |
| `TokenChoice.NoProfitNoPair` | sdk014_ZS285A/scripts/kallsyms.c:515-517 | the early break happens only when every symbol has at most one code left |
| `TokenChoice.BestPairOccurs` | sdk014_ZS285A/scripts/kallsyms.c:484-499 | a profitable best pair occurs in some name |
| `TokenChoice.BestIsMostFrequent` | sdk014_ZS285A/scripts/kallsyms.c:484-499 | the pair chosen has more occurrences in the symbols than any other pair, or equally many and a smaller index |
| `TokenChoice.MostFrequentUnique` | sdk014_ZS285A/scripts/kallsyms.c:484-499 | there is only one such pair |
| `TokenChoice.UseSlotRepresents` | sdk014_ZS285A/scripts/kallsyms.c:512-526 | one slot filled and used: the names still mean the originals |
| `TokenChoice.OptimizeRepresents` | sdk014_ZS285A/scripts/kallsyms.c:502-528 | the whole optimisation leaves the meaning of all names unchanged |
| `TokenChoice.OptimizeExhausts` | sdk014_ZS285A/scripts/kallsyms.c:502-528 | it ends with all slots in use or with no name longer than one code |
| `TokenChoice.OptimizeGreedy` | sdk014_ZS285A/scripts/kallsyms.c:502-528 | the whole optimisation is a history in which each time the highest free slot gets the pair with the most occurrences at that moment and every symbol uses it as far as possible, until no slot or no pair is left |
| `TokenChoice.RealSymbolsRepresent` | sdk014_ZS285A/scripts/kallsyms.c:531-545 | in the initial table every name stands for itself |
| `KallsymsCompressor.MemMove` | sdk014_ZS285A/scripts/kallsyms.c:466 | overlapping move inside a buffer, everything else unchanged |
| `KallsymsCompressor.FindToken` | sdk014_ZS285A/scripts/kallsyms.c:430-439 | the first position of the pair in the searched range, or none |
| `KallsymsCompressor.SearchSkipsDead` | sdk014_ZS285A/scripts/kallsyms.c:470-473 | searching past the live bytes finds no pair there, since they are NUL |
| `KallsymsCompressor.ReplaceOne` | sdk014_ZS285A/scripts/kallsyms.c:462-468 | one turn: the code is written and the gap closed, inside the allocation |
| `KallsymsCompressor.ReplaceTurn` | sdk014_ZS285A/scripts/kallsyms.c:462-475 | the code is written, the gap closed, and the next occurrence in the rest found |
| `KallsymsCompressor.ReplacingTurn` | sdk014_ZS285A/scripts/kallsyms.c:462-475 | the turn and the next search together lead back to the loop's state |
| `KallsymsCompressor.ReplaceInPlace` | sdk014_ZS285A/scripts/kallsyms.c:460-475 | the in-place loop equals greedy left-to-right non-overlapping replacement |
| `KallsymsCompressor.SymEntry.constructor` | sdk014_ZS285A/scripts/kallsyms.c:151-164 | an entry's buffer holds the name followed by a NUL |
| `KallsymsCompressor.Compressor.LearnSymbol` | sdk014_ZS285A/scripts/kallsyms.c:396-402 | each pair count grows by the number of places in the name where the pair stands |
| `KallsymsCompressor.Compressor.ForgetSymbol` | sdk014_ZS285A/scripts/kallsyms.c:405-411 | each pair count shrinks by the number of places in the name where the pair stands |
| `KallsymsCompressor.Compressor.CompressEntry` | sdk014_ZS285A/scripts/kallsyms.c:448-481 | one symbol is rewritten and all pair counts stay exact |
| `KallsymsCompressor.Compressor.CompressSymbols` | sdk014_ZS285A/scripts/kallsyms.c:443-482 | every symbol is rewritten by greedy replacement and all pair counts stay exact |
| `KallsymsCompressor.Compressor.FindBestToken` | sdk014_ZS285A/scripts/kallsyms.c:485-499 | no pair has more occurrences in the current symbols, and every pair with a smaller index has fewer |
| `KallsymsCompressor.Compressor.CountTokens` | sdk014_ZS285A/scripts/kallsyms.c:413-428 | the initial pair counts are exact |
| `KallsymsCompressor.Compressor.InsertRealSymbols` | sdk014_ZS285A/scripts/kallsyms.c:531-545 | exactly the characters that occur become literals |
| `KallsymsCompressor.Compressor.FillSlot` | sdk014_ZS285A/scripts/kallsyms.c:519-525 | the chosen pair is placed and used in all symbols |
| `KallsymsCompressor.Compressor.OptimizeSlot` | sdk014_ZS285A/scripts/kallsyms.c:508-527 | one turn of the slot loop refines the specification's turn and keeps the counts exact |
| `KallsymsCompressor.Compressor.OptimizeResult` | sdk014_ZS285A/scripts/kallsyms.c:502-528 | the in-place optimisation refines its specification for every symbol list; a greedy history leads from the symbols to the result |
| `KallsymsCompressor.BestPairIsNotNul` | sdk014_ZS285A/scripts/kallsyms.c:506-507 | until slot 0 is filled no chosen pair contains NUL, which the in-place search relies on |
| `KallsymsImage.LayoutDescribes` | sdk014_ZS285A/kernel/kallsyms.c:62-134 | encoding and decoding are inverse for every symbol |
| `KallsymsImage.LayoutReadable` | sdk014_ZS285A/kernel/kallsyms.c:79-99 | every token index leads to a NUL-terminated string |
| `KallsymsImage.TokenStringFound` | sdk014_ZS285A/kernel/kallsyms.c:84 | the string found for a code is the text written for it |
| `KallsymsImage.TokenBytes` | sdk014_ZS285A/scripts/kallsyms.c:376-389 | byte for byte: the characters of the code, a NUL, and the next string right behind |
| `KallsymsImage.DecodeExpands` | sdk014_ZS285A/kernel/kallsyms.c:79-99 | decoding a record through the token table is expansion |
| `KallsymsImage.StreamAt` | sdk014_ZS285A/kernel/kallsyms.c:113-134 | each symbol's record lies at its stream offset |
| `KallsymsImage.RecordBytes` | sdk014_ZS285A/kernel/kallsyms.c:68-78 | byte for byte: a length byte, the codes of the name, and the next record right behind |
| `KallsymsImage.SkipReaches` | sdk014_ZS285A/kernel/kallsyms.c:130-131 | skipping records from a marker reaches the wanted one |
| `KallsymsImage.MarkerReaches` | sdk014_ZS285A/kernel/kallsyms.c:122-133 | marker and scan together find the record of every symbol |
| `KallsymsImage.ReadBack` | sdk014_ZS285A/kernel/kallsyms.c:62-134 | the codes read at that record are the symbol's codes |
| `KallsymsImage.IndexFits` | sdk014_ZS285A/scripts/kallsyms.c:386-388 | every token index fits the emitted 16-bit word |
| `KallsymsLookup.CopyToken` | sdk014_ZS285A/kernel/kallsyms.c:88-98 | one token string is appended, less the very first character, until the buffer is full |
| `KallsymsLookup.ExpandSymbol` | sdk014_ZS285A/kernel/kallsyms.c:62-107 | the buffer holds the decoded name without its first character, cut to fit and NUL-terminated; the returned offset is the next record |
| `KallsymsLookup.ShownIs` | sdk014_ZS285A/kernel/kallsyms.c:79-105 | the buffer then holds the characters of the name behind its first, at most the buffer less one, and a NUL |
| `KallsymsLookup.OwnerUnique` | sdk014_ZS285A/kernel/kallsyms.c:143-160 | at most one position is the first alias of the greatest address not above the given one |
| `KallsymsLookup.EndBoundsOwner` | sdk014_ZS285A/kernel/kallsyms.c:164-175 | exactly the addresses from a symbol's start to its end belong to it; to the symbols at the last address, every address above |
| `KallsymsLookup.GetSymbolPos` | sdk014_ZS285A/kernel/kallsyms.c:136-183 | binary search and alias scan find that position, with size and offset in 32-bit arithmetic |
| `KallsymsLookup.GetSymbolOffset` | sdk014_ZS285A/kernel/kallsyms.c:113-134 | the record offset of any symbol |
| `KallsymsLookup.Lookup` | sdk014_ZS285A/kernel/kallsyms.c:204-225 | on tables that describe a symbol list, the name, size and offset for an address; nothing outside the text ranges |
| `KallsymsLookup.LookupName` | sdk014_ZS285A/kernel/kallsyms.c:217-218 | the buffer holds the name of the symbol at a position, cut to fit |
| `PoolGeometry.ExactSizes` | sdk014_ZS285A/kernel/mempool.c:241-245 | in an exact geometry rounding never changes a level size: they are the exact quarters |
| `PoolGeometry.RoundingIsExactIff` | sdk014_ZS285A/include/kernel.h:3423 | four blocks fill one of the level above at every level if and only if 4^n_levels divides max_sz |
| `PoolGeometry.RoundedQuarters` | sdk014_ZS285A/kernel/mempool.c:241-245 | a pool of one 1280-byte block where they do not |
| `PoolGeometry.LevelFillsBuffer` | sdk014_ZS285A/kernel/mempool.c:84-87 | the blocks of any level fill the buffer |
| `PoolGeometry.AtStart` | sdk014_ZS285A/kernel/mempool.c:29-37 | block_num inverts block_ptr, and a block lies inside the buffer |
| `PoolGeometry.AtInRange` | sdk014_ZS285A/kernel/mempool.c:34-37 | every byte of the buffer lies in a block of every level |
| `PoolProtocol.AllocKeepsInv` | sdk014_ZS285A/kernel/mempool.c:152-164 | taking a block keeps tiling, list agreement and merging |
| `PoolProtocol.BreakKeepsInv` | sdk014_ZS285A/kernel/mempool.c:203-226 | splitting a held block keeps them |
| `PoolProtocol.BreakOutcome` | sdk014_ZS285A/kernel/mempool.c:212-221 | the quarters 1 to 3 become free, those that fit are listed behind the others in ascending order, and the first is held |
| `PoolProtocol.FreeKeepsInv` | sdk014_ZS285A/kernel/mempool.c:166-196 | one locked level of freeing keeps them, merged or not |
| `PoolProtocol.StepKeepsInv` | sdk014_ZS285A/kernel/mempool.c:139-226 | every step of any thread keeps the invariant |
| `PoolProtocol.InitInv` | sdk014_ZS285A/kernel/mempool.c:117-122 | a new pool satisfies it |
| `PoolProtocol.InitOutcome` | sdk014_ZS285A/kernel/mempool.c:117-122 | its top-level blocks are listed in ascending order, and nothing else is free or held |
| `PoolProtocol.RunKeepsInv` | sdk014_ZS285A/kernel/mempool.c:139-226 | every interleaving of steps keeps it |
| `PoolProtocol.ReachableInv` | sdk014_ZS285A/kernel/mempool.c:139-226 | in every reachable state free and held blocks partition the grid of blocks exactly, without gap or overlap, each free list holds exactly the free blocks of its level that fit the buffer, and no four partners are free; in an exact pool the grid is the buffer (`PoolGrid.GridOfExact`) |
| `PoolProtocol.SplitTiles` | sdk014_ZS285A/kernel/mempool.c:212-221 | a partition stays one when a block is replaced by its quarters |
| `PoolProtocol.MergeTiles` | sdk014_ZS285A/kernel/mempool.c:175-187 | and when four quarters are replaced by their block |
| `PoolProtocol.FreeRegionIsBlock` | sdk014_ZS285A/kernel/mempool.c:175-189 | since free quads are always merged, a region made of free blocks is one free block or inside one |
| `PoolProtocol.UntouchedIsFree` | sdk014_ZS285A/kernel/mempool.c:235-260 | a region that overlaps no held block lies in a free block at least as large |
| `PoolProtocol.ExhaustedIff` | sdk014_ZS285A/kernel/mempool.c:242-260 | all lists down to a level are empty if and only if every aligned region of that level's size that threads can get overlaps a held block |
| `PoolProtocol.NothingHeld` | sdk014_ZS285A/kernel/mempool.c:117-122 | with nothing held exactly the n_max top-level blocks are free |
| `PoolCalls.BreakDownKeepsInv` | sdk014_ZS285A/kernel/mempool.c:276-278 | breaking down to the wanted level keeps the invariant |
| `PoolCalls.BreakDownHeld` | sdk014_ZS285A/kernel/mempool.c:276-278 | of the blocks held only the one that is broken down changes |
| `PoolCalls.FreeAllKeepsInv` | sdk014_ZS285A/kernel/mempool.c:166-196 | freeing with its recursion up the levels keeps it |
| `PoolCalls.FreeUndoesBreak` | sdk014_ZS285A/kernel/mempool.c:166-226 | freeing the kept quarter right after a break restores the state, lists included |
| `PoolCalls.FreeUndoesBreakDown` | sdk014_ZS285A/kernel/mempool.c:166-226 | the same for a whole chain of breaks |
| `PoolCalls.AllocFreeIdentity` | sdk014_ZS285A/kernel/mempool.c:228-286 | a successful allocation followed by freeing that block leaves the same blocks free at every level; only its place in the list changes |
| `PoolScan.AllocsAreHarmless` | sdk014_ZS285A/kernel/mempool.c:242-260 | a scan interrupted only by allocations gives up only if, at its end, no block of the needed size is free or can be made |
| `PoolScan.BreaksAreHarmless` | sdk014_ZS285A/kernel/mempool.c:242-260 | interrupted only by breaks, only if that was so at its start |
| `PoolScan.FreesCauseMiss` | sdk014_ZS285A/kernel/mempool.c:242-260 | interrupted by frees, from a reachable state, it can report no memory although a fitting block was free at every moment |
| `PoolScan.BreaksAndAllocsCauseMiss` | sdk014_ZS285A/kernel/mempool.c:242-260 | so it can when blocks are broken and allocated meanwhile, without any free |
| `PoolScan.ReliableIff` | sdk014_ZS285A/kernel/mempool.c:242-260 | over all geometries, reachable states and interruptions by steps of given kinds: the report was true at some moment if and only if frees are not among the kinds, nor breaks and allocations both |
| `PoolBitmap.InitSizeBounds` | sdk014_ZS285A/kernel/mempool.c:97-115 | the sizes in the initialisation loop shrink but stay positive, and the quarters lose less than four bytes of the largest block |
| `PoolBitmap.CarvedAtMost` | sdk014_ZS285A/kernel/mempool.c:103 | rounding adds fewer than one block per top-level block to the counts of a level |
| `PoolBitmap.ExactCarved` | sdk014_ZS285A/kernel/mempool.c:103 | in an exact geometry the blocks counted at initialisation are the blocks used |
| `PoolBitmap.InBoundsIff` | sdk014_ZS285A/kernel/mempool.c:47-55 | in an exact pool every free bit has storage of its own if and only if there are at most 32 top-level blocks |
| `PoolBitmap.PlacesDistinct` | sdk014_ZS285A/kernel/mempool.c:47-55 | two bits that each lie in the storage of their own level are different bits, whatever their levels |
| `PoolBitmap.SharedBit` | sdk014_ZS285A/kernel/mempool.c:203-221 | a pool of one 1280-byte block in which breaking a block of level 3 sets a bit that lies outside the words of level 4, in the place of a bit of level 5 |
| `PoolBitmap.ThirtyThreeBlocks` | sdk014_ZS285A/kernel/mempool.c:107-108 | a pool of 33 blocks whose last bit lies outside its word |
| `PoolBitmap.CarvedAgainstReserved` | sdk014_ZS285A/include/kernel.h:3445-3478 | in an exact geometry the carved words are the reserved ones and one more for a level of exactly 32 blocks |
| `PoolBitmap.CarvedBelowNext` | sdk014_ZS285A/include/kernel.h:3445-3478 | all levels above one together carve no more words than one bit per block of that level needs |
| `PoolBitmap.ReservationSuffices` | sdk014_ZS285A/include/kernel.h:3445-3478 | for every pool whose buffer has 32-bit addresses, rounded or not, of up to 16 levels, the words carved at start-up fit the reservation |
| `PoolBitmap.ShiftsFit` | sdk014_ZS285A/include/kernel.h:3446-3447 | in a pool of less than 512 MB no shift of the sizing macros overflows an int |
| `PoolBitmap.FullWordLevelIff` | sdk014_ZS285A/include/kernel.h:3449-3454 | among the first n levels there is one of exactly 32 blocks, whose own reservation is zero, if and only if there are 2, 8 or 32 top-level blocks and n is above 2, 1 or 0 |
| `PoolRounding.SoundIff` | sdk014_ZS285A/kernel/mempool.c:166-226 | for every defined pool, rounded or not: the blocks that initialisation and breaking make lie in the buffer, no quarter reaches into another block, every number is right, every block has room for a list node and an id of its own, and every touched bit is in its level's storage, if and only if max_sz is a multiple of four, each level is cut into exact quarters or has a single block, there are at most 32 top-level blocks and at most 2^20 of the smallest, and these have eight bytes or more |
| `PoolRounding.NodesFitIff` | sdk014_ZS285A/include/misc/dlist.h:27-36 | every block has room for the two pointers of a list node if and only if the smallest have eight bytes or more |
| `PoolRounding.IdentifiedIff` | sdk014_ZS285A/include/kernel.h:2867-2871 | among the pools with regular levels, a max_sz that is a multiple of four and at most 32 top-level blocks: the 20 bits of an id hold the number of every block if and only if there are at most 2^20 of the smallest |
| `PoolRounding.SharedId` | sdk014_ZS285A/include/kernel.h:2867-2871 | a pool of 32 MB in which the block at 8 MB has the id of the block at its start |
| `PoolRounding.SoundShiftsFit` | sdk014_ZS285A/include/kernel.h:3446-3447 | in a pool of this kind no shift of the sizing macros overflows an int |
| `PoolRounding.NumberedIff` | sdk014_ZS285A/kernel/mempool.c:203-221 | the number that breaking gives a quarter is block_num of its address, for every block, if and only if each level is cut into exact quarters or has a single block, and max_sz is a multiple of four or there is one top-level block |
| `PoolRounding.SeparateIff` | sdk014_ZS285A/kernel/mempool.c:203-221 | no quarter reaches into a block that it was not cut from, and the top-level blocks do not overlap, in exactly the same pools |
| `PoolRounding.ContainedIff` | sdk014_ZS285A/kernel/mempool.c:89-92 | every block fits the buffer, and so is listed again when it is freed, if and only if max_sz is a multiple of four |
| `PoolRounding.TouchedStored` | sdk014_ZS285A/kernel/mempool.c:47-82 | in those pools, with at most 32 top-level blocks, the bit of a block, those of its partners and those of its quarters lie in the storage of their level |
| `PoolRounding.OwnBit` | sdk014_ZS285A/kernel/mempool.c:47-55 | and no two blocks, of the same or of different levels, share a bit |
| `PoolRounding.RegularPlaced` | sdk014_ZS285A/kernel/mempool.c:29-37 | and block_ptr of a block's number is its address |
| `PoolRounding.RegularIsExact` | sdk014_ZS285A/kernel/mempool.c:241-245 | with more than one top-level block only exact pools are of that kind |
| `PoolRounding.Overlap` | sdk014_ZS285A/kernel/mempool.c:212-219 | otherwise a quarter of the first block of some level reaches into the second one |
| `PoolRounding.OverlappingQuarter` | sdk014_ZS285A/kernel/mempool.c:212-219 | two blocks of 52 bytes: the quarter at byte 48 reaches into the second block, has the number of that block's first quarter, and is listed in its place when that one is freed |
| `PoolRounding.LostBlock` | sdk014_ZS285A/kernel/mempool.c:191-193 | one block of 50 bytes, which is not listed again when it is freed |
| `PoolGrid.HeldApart` | sdk014_ZS285A/kernel/mempool.c:139-226 | in every pool of `PoolRounding.SoundIff`, after any interleaving of steps: the blocks that threads hold lie in the buffer and have no byte in common |
| `PoolGrid.BlocksApart` | sdk014_ZS285A/kernel/mempool.c:139-226 | the same for all blocks, free or held, that fit |
| `PoolGrid.NoMemoryIff` | sdk014_ZS285A/kernel/mempool.c:242-260 | in every such pool and state, all lists down to a level are empty if and only if each block that initialisation and breaking can make at that level overlaps a held one in memory |
| `PoolGrid.TouchesIff` | sdk014_ZS285A/kernel/mempool.c:29-37 | overlapping in the grid is overlapping in memory |
| `PoolGrid.UsableIsBlock` | sdk014_ZS285A/kernel/mempool.c:203-221 | the blocks that the protocol can hand out are blocks that initialisation and breaking make |
| `PoolGrid.BlockIsUsable` | sdk014_ZS285A/kernel/mempool.c:203-221 | and the other way round |
| `PoolGrid.CapIff` | sdk014_ZS285A/kernel/mempool.c:89-92 | block_fits is a bound on the block's number |
| `PoolGrid.CapsRoomy` | sdk014_ZS285A/kernel/mempool.c:212-221 | the top-level blocks and the first quarter of every block that fits do fit |
| `PoolGrid.GridSizes` | sdk014_ZS285A/kernel/mempool.c:241-245 | below level 0 the grid has the rounded level sizes of the pool |
| `PoolGrid.GridInBounds` | sdk014_ZS285A/kernel/mempool.c:47-82 | every block of the grid, also one behind the end of the buffer, has its bit in the storage of its level |
| `PoolGrid.GridOfExact` | sdk014_ZS285A/kernel/mempool.c:241-245 | the grid of an exact pool is the pool itself, and all its blocks fit |
| `PoolGrid.HeldId` | sdk014_ZS285A/kernel/mempool.c:280-284 | in such a pool the id of a held block is its number |
| `NodeLists.InitLinked` | sdk014_ZS285A/include/misc/dlist.h:180-184 | an initialised list in memory has no nodes |
| `NodeLists.FirstIs` | sdk014_ZS285A/include/misc/dlist.h:224-253 | the head is the first node, and the list tests empty if and only if it has none |
| `NodeLists.AppendLinked` | sdk014_ZS285A/include/misc/dlist.h:325-332 | appending a node that shares no word with the list or its nodes appends it, forwards and backwards, and writes to nothing else |
| `NodeLists.RemoveLinked` | sdk014_ZS285A/include/misc/dlist.h:445-449 | removing a node takes it out of the list and does not write to the node itself |
| `PoolNodes.StateSpread` | sdk014_ZS285A/kernel/mempool.c:152-226 | in every proper state of a pool of `PoolRounding.SoundIff` the nodes of all listed blocks lie in the buffer and share no word |
| `PoolNodes.AllocOn` | sdk014_ZS285A/kernel/mempool.c:152-164 | the list in memory yields the first block of the protocol's list, and the rest stays linked |
| `PoolNodes.BreakOn` | sdk014_ZS285A/kernel/mempool.c:203-226 | breaking links the quarters that fit |
| `PoolNodes.FreeOn` | sdk014_ZS285A/kernel/mempool.c:191-193 | freeing links a block that fits |
| `PoolNodes.MergeOn` | sdk014_ZS285A/kernel/mempool.c:175-184 | merging unlinks the partners that fit |
| `PoolNodes.StepOn` | sdk014_ZS285A/kernel/mempool.c:139-226 | every step leaves the lists of the next protocol state in memory, and writes only to list heads and to nodes listed before or after it |
| `PoolNodes.InitOn` | sdk014_ZS285A/kernel/mempool.c:102-122 | a new pool has its lists in memory, whatever was there before |
| `PoolNodes.WriteOn` | sdk014_ZS285A/kernel/mempool.c:139-150 | what a thread writes into a block that it holds disturbs no list |
| `PoolNodes.RunOn` | sdk014_ZS285A/kernel/mempool.c:139-226 | after any interleaving of steps and such writes, the lists in memory are those of the protocol |
| `PoolNodes.HeldKept` | sdk014_ZS285A/kernel/mempool.c:139-226 | a word in a block that is held before and after a step is not written by it |
| `PoolNodes.ContentsKept` | sdk014_ZS285A/kernel/mempool.c:139-226 | a block stays with its holder and keeps its contents through any number of actions of other threads |
| `PoolNodes.SameBlockTwice` | sdk014_ZS285A/kernel/mempool.c:203-221 | one block of 16 bytes with quarters of four, wherever the list heads are: once it is taken and broken, a word behind the buffer is overwritten and two allocations return the same block (or, if the list head is that word, two quarters are lost) |
| `MemPool.Pool.constructor` | sdk014_ZS285A/kernel/mempool.c:94-123 | for every pool of `PoolRounding.SoundIff`: the initialised pool refines the initial state, with its lists in memory, although a bitmap pointer shares a word with the first inline bitmap |
| `MemPool.Pool.InitLevels` | sdk014_ZS285A/kernel/mempool.c:102-115 | for every defined pool, each level's bitmap is inline or starts behind those before it, and the inline words that are used, except that of level 0, hold no pointer |
| `MemPool.Pool.InitBlocks` | sdk014_ZS285A/kernel/mempool.c:117-122 | all top-level blocks are listed and marked free |
| `MemPool.Pool.WriteBit` | sdk014_ZS285A/kernel/mempool.c:57-71 | exactly one bit changes |
| `MemPool.Pool.PartnersSetIff` | sdk014_ZS285A/kernel/mempool.c:76-82 | the four partner bits are all set if and only if the four blocks of the quad are free |
| `MemPool.Pool.AllocBlock` | sdk014_ZS285A/kernel/mempool.c:152-164 | refines the allocation step, or reports an empty list |
| `MemPool.Pool.FreeBlockStep` | sdk014_ZS285A/kernel/mempool.c:171-195 | one locked section refines the freeing step |
| `MemPool.Pool.TakeQuad` | sdk014_ZS285A/kernel/mempool.c:176-184 | the merging loop clears four bits and unlinks the other three blocks |
| `MemPool.Pool.FreeBlock` | sdk014_ZS285A/kernel/mempool.c:166-196 | the recursion refines freeing up the levels and terminates |
| `MemPool.Pool.ReleaseQuarters` | sdk014_ZS285A/kernel/mempool.c:212-221 | three quarters become free, in order |
| `MemPool.Pool.BreakBlock` | sdk014_ZS285A/kernel/mempool.c:203-226 | refines the breaking step; the address stays |
| `MemPool.Pool.ScanLevels` | sdk014_ZS285A/kernel/mempool.c:241-255 | the level sizes, the smallest level that fits and the deepest non-empty level down to it |
| `MemPool.Pool.BreakToLevel` | sdk014_ZS285A/kernel/mempool.c:276-278 | repeated breaking yields the first block of the wanted level inside the block taken |
| `MemPool.Pool.TakeAndBreak` | sdk014_ZS285A/kernel/mempool.c:262-285 | the block id and address returned belong to a held block of the wanted level |
| `MemPool.Pool.PoolAlloc` | sdk014_ZS285A/kernel/mempool.c:228-286 | fails if and only if the lists of all levels whose blocks hold the request are empty, that is the request exceeds the largest block or every block of the smallest fitting size overlaps a held one; otherwise the first block of the deepest of these lists that is not empty is broken down to the smallest fitting level and the caller holds the block at the same address |
| `MemPool.TookHeld` | sdk014_ZS285A/kernel/mempool.c:262-285 | the caller holds the block that it got, and all others are held as before |
| `MemPool.Pool.Release` | sdk014_ZS285A/kernel/mempool.c:324-342 | freeing a held block by its id refines freeing up the levels |
| `MemPool.FitLevelIff` | sdk014_ZS285A/kernel/mempool.c:247-251 | exactly the levels up to the chosen one hold the request |
| `PipeStream.DropPerCall` | sdk014_ZS285A/kernel/pipes.c:576-639 | what is taken from a waiting writer plus what it keeps is what it had, per call |
| `PipeStream.ServePerCall` | sdk014_ZS285A/kernel/pipes.c:432-465 | what a waiting reader receives plus what it still wants is what it wanted, per call |
| `PipeStream.ServeOrder` | sdk014_ZS285A/kernel/pipes.c:432-465 | each byte goes to the reader in whose request it falls, counted in queue order |
| `PipeStream.ServeRanks` | sdk014_ZS285A/kernel/pipes.c:432-465 | readers leave from the front; those that stay keep order and priority |
| `PipeStream.DropRanks` | sdk014_ZS285A/kernel/pipes.c:576-639 | writers leave from the front; those that stay keep order and priority |
| `PipeProtocol.PutKeepsInv` | sdk014_ZS285A/kernel/pipes.c:386-527 | a put keeps waiting rules, stream order and every call's balance |
| `PipeProtocol.GetKeepsInv` | sdk014_ZS285A/kernel/pipes.c:529-670 | a get keeps them |
| `PipeProtocol.WriterTimeoutKeepsInv` | sdk014_ZS285A/kernel/pipes.c:515-526 | so does a writer's timeout |
| `PipeProtocol.ReaderTimeoutKeepsInv` | sdk014_ZS285A/kernel/pipes.c:657-669 | so does a reader's timeout |
| `PipeProtocol.WaitingWriter` | sdk014_ZS285A/kernel/pipes.c:504-507 | a waiting writer has handed over exactly what it no longer has |
| `PipeProtocol.WaitingReader` | sdk014_ZS285A/kernel/pipes.c:651-654 | a waiting reader has received exactly what it no longer wants |
| `PipeProtocol.WokenReader` | sdk014_ZS285A/kernel/pipes.c:432-465 | a put wakes a waiting reader if and only if the reader has received all that it asked for |
| `PipeProtocol.WokenWriter` | sdk014_ZS285A/kernel/pipes.c:576-639 | a get wakes a waiting writer if and only if all of its data was accepted |
| `PipeProtocol.StepKeepsInv` | sdk014_ZS285A/kernel/pipes.c:386-670 | every step keeps the invariant |
| `PipeProtocol.RunKeepsInv` | sdk014_ZS285A/kernel/pipes.c:386-670 | every run keeps it |
| `PipeProtocol.StreamOrder` | sdk014_ZS285A/kernel/pipes.c:169-232 | over every run the bytes accepted equal the bytes delivered followed by the ring; readers wait only at an empty ring, writers only at a full one, never both, each for something |
| `PipeProtocol.PutCalls` | sdk014_ZS285A/kernel/pipes.c:523-526 | what the pipe accepted from a call is a prefix of its data, and its reported count is exact |
| `PipeProtocol.GetCalls` | sdk014_ZS285A/kernel/pipes.c:666-669 | a call that ended received its request less what it gave up |
| `PipeProtocol.PutNoWait` | sdk014_ZS285A/kernel/pipes.c:264-293 | a put that may not wait fails and changes nothing if and only if the bytes that waiting readers want and the room in the ring are together fewer than its minimum; otherwise it moves exactly what fits, which is at least its minimum |
| `PipeProtocol.GetNoWait` | sdk014_ZS285A/kernel/pipes.c:264-293 | a get that may not wait fails and changes nothing if and only if ring and waiting writers together have fewer bytes than its minimum; otherwise it takes the front of them, at least its minimum |
| `PipeProtocol.PutSucceeds` | sdk014_ZS285A/kernel/pipes.c:432-514 | a put that does not fail hands over the front of its data, as much as readers and ring can take, behind what they have; with the rest the caller waits with its priority, or it is given back |
| `PipeProtocol.GetSucceeds` | sdk014_ZS285A/kernel/pipes.c:560-656 | a get that does not fail receives the front of what ring and writers have, the ring is full again or the writers are empty, and a caller that is still short waits with its priority or gives up |
| `PipeProtocol.RecordedCalls` | sdk014_ZS285A/kernel/pipes.c:386-670 | over every run, the data on record for a put and the size on record for a get are those of the call |
| `PipeProtocol.OnlyCallsRecorded` | sdk014_ZS285A/kernel/pipes.c:386-670 | and nothing else is on record |
| `PipeProtocol.PutsOwnData` | sdk014_ZS285A/kernel/pipes.c:523-526 | over every run, the bytes accepted from a put call are a prefix of the data that it was made with |
| `PipeProtocol.RemoveIs` | sdk014_ZS285A/kernel/pipes.c:515-526 | a call that times out leaves its queue, and nobody else does |
| `PipeProtocol.WaitersByCalls` | sdk014_ZS285A/kernel/pipes.c:484-522 | over every run, whoever waits does so with the priority of the call that made it wait |
| `PipeProtocol.RefillKeepsOrder` | sdk014_ZS285A/kernel/pipes.c:613-639 | refilling the ring only moves the border between ring and writers |
| `PipeBuffer.RingAppend` | sdk014_ZS285A/kernel/pipes.c:178-193 | a run copied behind the contents extends them, across the wrap |
| `PipeBuffer.RingDrop` | sdk014_ZS285A/kernel/pipes.c:214-229 | dropping from the front moves the read index, across the wrap |
| `PipeBuffer.Buffer.constructor` | sdk014_ZS285A/kernel/pipes.c:129-139 | an empty ring |
| `PipeBuffer.Buffer.CopyIn` | sdk014_ZS285A/kernel/pipes.c:146-159 | a byte copy into the buffer |
| `PipeBuffer.Buffer.CopyOut` | sdk014_ZS285A/kernel/pipes.c:146-159 | a byte copy out of the buffer |
| `PipeBuffer.Buffer.PutRun` | sdk014_ZS285A/kernel/pipes.c:178-193 | one round appends the part that fits before the wrap |
| `PipeBuffer.Buffer.Append` | sdk014_ZS285A/kernel/pipes.c:180-190 | a run is copied behind the contents and the write index wraps at the end of the buffer |
| `PipeBuffer.Buffer.Put` | sdk014_ZS285A/kernel/pipes.c:169-196 | two rounds append as much as fits |
| `PipeBuffer.Buffer.GetRun` | sdk014_ZS285A/kernel/pipes.c:214-229 | one round takes the part before the wrap |
| `PipeBuffer.Buffer.Discard` | sdk014_ZS285A/kernel/pipes.c:222-227 | the run leaves the contents and the read index wraps at the end of the buffer |
| `PipeBuffer.Buffer.Get` | sdk014_ZS285A/kernel/pipes.c:206-232 | two rounds take the oldest bytes, up to the request |
| `PipeCursor.XferPrepare` | sdk014_ZS285A/kernel/pipes.c:264-331 | whether the call can go ahead, and exactly the waiters that can be served in full |
| `PipeCursor.ServedFits` | sdk014_ZS285A/kernel/pipes.c:303-328 | those waiters fit the request, and one more would not |
| `PipeStream.InsertRanks` | sdk014_ZS285A/kernel/sched.c:199-225 | the wait queues of pipes are ordered by the insertion of all wait queues |
| `PipeCalls.Pend` | sdk014_ZS285A/kernel/sched.c:199-225 | insertion behind all threads of the same or higher priority |
| `PipeCalls.Pipe.constructor` | sdk014_ZS285A/kernel/pipes.c:129-139 | an initialised pipe refines the initial state |
| `PipeCalls.Pipe.FeedReaders` | sdk014_ZS285A/kernel/pipes.c:432-465 | waiting readers get the data in queue order, the last one in part |
| `PipeCalls.Pipe.FeedFully` | sdk014_ZS285A/kernel/pipes.c:432-450 | the readers that can be served in full get their bytes; of those left the first wants more than remains |
| `PipeCalls.Pipe.MoveOut` | sdk014_ZS285A/kernel/pipes.c:432-474 | the data movement of a put equals its specification |
| `PipeCalls.Pipe.PendOrReturn` | sdk014_ZS285A/kernel/pipes.c:476-526 | return, or pend with the remaining data |
| `PipeCalls.Pipe.PutInternal` | sdk014_ZS285A/kernel/pipes.c:386-527 | the put up to its return or pend refines the put step |
| `PipeCalls.Pipe.Put` | sdk014_ZS285A/kernel/pipes.c:672-681 | fails if and only if it may not wait and readers and ring can take less than its minimum; otherwise it hands over, waits and reports as `PipeProtocol.PutSucceeds` says, and keeps the invariant |
| `PipeCalls.DrainWriters` | sdk014_ZS285A/kernel/pipes.c:576-611 | the caller gets the writers' bytes in order, past an empty ring |
| `PipeCalls.Pipe.RefillBuffer` | sdk014_ZS285A/kernel/pipes.c:618-639 | the rest of the chosen writers refills the ring |
| `PipeCalls.Pipe.MoveIn` | sdk014_ZS285A/kernel/pipes.c:560-639 | the data movement of a get equals its specification |
| `PipeCalls.Pipe.GetInternal` | sdk014_ZS285A/kernel/pipes.c:529-670 | the get up to its return or pend refines the get step |
| `PipeCalls.Pipe.QueueOrReturn` | sdk014_ZS285A/kernel/pipes.c:641-670 | return, or pend with the rest of the request |
| `PipeCalls.Pipe.Get` | sdk014_ZS285A/kernel/pipes.c:529-670 | fails if and only if it may not wait and ring and writers have less than its minimum; otherwise it receives, waits and reports as `PipeProtocol.GetSucceeds` says, and keeps the invariant |
| `PipeCalls.Pipe.WriterTimesOut` | sdk014_ZS285A/kernel/pipes.c:515-526 | a writer that times out leaves the queue alone and reports exactly the bytes that the pipe accepted from it |
| `PipeCalls.Pipe.ReaderTimesOut` | sdk014_ZS285A/kernel/pipes.c:657-669 | a reader that times out leaves the queue alone and reports exactly the bytes delivered to it |
| `PageRegions.FirstChunkHas` | sdk014_ZS285A/scripts/gen_mmu.py:124-145 | which entries of its first slot a region gets |
| `PageRegions.ExtraChunksHas` | sdk014_ZS285A/scripts/gen_mmu.py:158-202 | the further slots cover exactly the remaining bytes, as far as the loop goes |
| `PageRegions.ChunksCover` | sdk014_ZS285A/scripts/gen_mmu.py:123-202 | the pieces of an aligned region cover exactly the addresses it maps, over any number of 4 MB slots |
| `PageRegions.CutOffCover` | sdk014_ZS285A/scripts/gen_mmu.py:165-166 | a region that reaches the end of the address space keeps only its first slot |
| `PageRegions.AcceptedIff` | sdk014_ZS285A/scripts/gen_mmu.py:207-220 | alignment checking refuses a region if and only if its start is unaligned, or its size is and it ends below 4 GB |
| `PageTables.DirectoryLeadsToTable` | sdk014_ZS285A/scripts/gen_mmu.py:236-241 | a directory entry is present if and only if its slot is used, and then points at the file position of its own table |
| `PageTables.WordFields` | sdk014_ZS285A/scripts/gen_mmu.py:278-287 | the fields of an entry do not disturb each other |
| `PageTables.BitIs` | sdk014_ZS285A/scripts/gen_mmu.py:260-264 | a bit of a number is the number divided by the power of two, modulo 2 |
| `PageTables.WordFlags` | sdk014_ZS285A/scripts/gen_mmu.py:266-348 | the flags of every word of the file by arithmetic on the permissions: an entry that is not present is 0, a directory entry has no flag above bit 2, a table entry has bit 9 and no other |
| `PageTables.WalkFinds` | sdk014_ZS285A/scripts/gen_mmu.py:266-353 | a two-level hardware walk of the file, which would stop at a large page, finds an entry for exactly the recorded pages and maps each page to itself |
| `PageTranslation.ChunksShape` | sdk014_ZS285A/scripts/gen_mmu.py:144-191 | a region is recorded in exactly the slots that it opens |
| `PageTranslation.BuildRecords` | sdk014_ZS285A/scripts/gen_mmu.py:123-202 | for every address: whether it is recorded, the rights of the last region that maps it and of the first in its slot |
| `PageTranslation.BuildWellFormed` | sdk014_ZS285A/scripts/gen_mmu.py:123-202 | all slots lie below 1024 and hold something |
| `PageTranslation.EmittedTranslates` | sdk014_ZS285A/scripts/gen_mmu.py:266-353 | for every list of accepted regions and every address: the walk is absent if no region maps the address; otherwise it is the address itself, writable if bit 1 of the last region that maps it and bit 1 or 29 of the first region of its slot are set, and for users if bit 2, and bit 2 or 28, are |
| `PageTranslation.GrantedIs` | sdk014_ZS285A/scripts/gen_mmu.py:319-325 | the rights of an entry are those of the last region that maps it |
| `PageTranslation.OpenerIs` | sdk014_ZS285A/scripts/gen_mmu.py:276-280 | the directory flags are those of the first region recorded in the slot |
| `PageTranslation.MapsInterval` | sdk014_ZS285A/scripts/gen_mmu.py:123-202 | the addresses that a region gets are one interval, with its end stated for ordinary, empty and cut-off regions |
| `PageTranslation.OrdinaryMapsIff` | sdk014_ZS285A/scripts/gen_mmu.py:135-166 | a region gets the addresses it asks for if and only if it is neither empty at a slot boundary nor cut off at the end of the address space |
| `PageTranslation.EmptyRegionOpensSlot` | sdk014_ZS285A/scripts/gen_mmu.py:135-145 | an accepted empty region that makes a whole 4 MB slot present |
| `PageTranslation.UpperHalfCutOff` | sdk014_ZS285A/scripts/gen_mmu.py:164-166 | an accepted 2 GB region of which only the first 4 MB are present |
| `PageTranslation.WriteAccessIff` | sdk014_ZS285A/scripts/gen_mmu.py:276-280 | a page keeps its own region's write access if and only if the first region in its slot does not take it away |
| `PageTranslation.ReadOnlyNeighbour` | sdk014_ZS285A/scripts/gen_mmu.py:276-280 | two regions where it does |
| `MmuGenerator.InsideIff` | sdk014_ZS285A/scripts/gen_mmu.py:104-118 | the overlap test reports a non-empty region if and only if it is contained in an earlier one, and an empty one if and only if it lies at or between the ends of an earlier one |
| `MmuGenerator.PartialOverlapPasses` | sdk014_ZS285A/scripts/gen_mmu.py:104-118 | two partly overlapping regions that pass it |
| `MmuGenerator.BuildAligned` | sdk014_ZS285A/scripts/gen_mmu.py:207-220 | all recorded pieces are aligned if and only if all regions are acceptable |
| `MmuGenerator.SlotCount` | sdk014_ZS285A/scripts/gen_mmu.py:548-552 | the output buffer is exactly as large as what is written |
| `MmuGenerator.EntriesFitIff` | sdk014_ZS285A/scripts/gen_mmu.py:286-290 | all directory words fit 32 bits if and only if the last table starts below 4 GB |
| `MmuGenerator.TableWordFits` | sdk014_ZS285A/scripts/gen_mmu.py:344-352 | every table word fits 32 bits |
| `MmuGenerator.EmittedClean` | sdk014_ZS285A/scripts/gen_mmu.py:282-342 | no word of a written file has a flag that it should not have |
| `MmuGenerator.Generator.constructor` | sdk014_ZS285A/scripts/gen_mmu.py:11-34 | the empty global tables |
| `MmuGenerator.Generator.Record` | sdk014_ZS285A/scripts/gen_mmu.py:46-65 | a piece is appended to its slot, and the slot listed once |
| `MmuGenerator.Generator.MarshalRegion` | sdk014_ZS285A/scripts/gen_mmu.py:124-202 | the loop over further slots records exactly the region's pieces, in order |
| `MmuGenerator.Generator.FindOverlap` | sdk014_ZS285A/scripts/gen_mmu.py:98-121 | whether some region lies inside an earlier one |
| `MmuGenerator.Generator.ReadRegions` | sdk014_ZS285A/scripts/gen_mmu.py:78-204 | the directory of all regions and its slots in ascending order, or an overlap |
| `MmuGenerator.Generator.ValidateAlignment` | sdk014_ZS285A/scripts/gen_mmu.py:207-220 | whether every recorded piece is aligned |
| `MmuGenerator.Generator.DirectoryEntryOf` | sdk014_ZS285A/scripts/gen_mmu.py:269-287 | the word of one directory entry |
| `MmuGenerator.Generator.CreateDirectory` | sdk014_ZS285A/scripts/gen_mmu.py:266-291 | the first 1024 words are the directory; packing fails exactly if a table lies above 4 GB |
| `MmuGenerator.Generator.EntryOf` | sdk014_ZS285A/scripts/gen_mmu.py:317-348 | the scan over a slot's pieces yields the entry with the last matching rights |
| `MmuGenerator.Generator.CreateTable` | sdk014_ZS285A/scripts/gen_mmu.py:316-353 | 1024 words of one table |
| `MmuGenerator.Generator.CreateTables` | sdk014_ZS285A/scripts/gen_mmu.py:312-353 | all tables in slot order, filling the buffer |
| `MmuGenerator.Generator.Emit` | sdk014_ZS285A/scripts/gen_mmu.py:548-555 | the buffer is the emitted file |
| `MmuGenerator.Generator.Generate` | sdk014_ZS285A/scripts/gen_mmu.py:530-559 | each way of ending happens exactly in its case, and a written file translates exactly the addresses that the regions map, with the rights of `PageTranslation.EmittedTranslates` and no stray flags |
| `MailboxProtocol.StepKeepsNoPair` | sdk014_ZS285A/kernel/mailbox.c:239-324 | no step leaves a waiting sender next to a compatible waiting receiver |
| `MailboxProtocol.PutKeepsNoPair` | sdk014_ZS285A/kernel/mailbox.c:239-324 | sending does not |
| `MailboxProtocol.GetKeepsNoPair` | sdk014_ZS285A/kernel/mailbox.c:437-487 | receiving does not |
| `MailboxProtocol.StepKeepsPlaces` | sdk014_ZS285A/kernel/mailbox.c:176-223 | no step creates, loses or duplicates a thread or an asynchronous descriptor; a clearing step is a turn on a message that waits |
| `MailboxProtocol.StepKeepsFates` | sdk014_ZS285A/kernel/mailbox.c:239-487 | no step, with clearing steps as above, loses or duplicates a message |
| `MailboxProtocol.ExchangeFaithful` | sdk014_ZS285A/kernel/mailbox.c:124-164 | after a match both sides know each other, have swapped information words, and the receiver sees the sender's data and the smaller size |
| `MailboxProtocol.FinishConcludes` | sdk014_ZS285A/kernel/mailbox.c:176-223 | after disposal the receiver has a prefix of the sender's data, the sender knows its length, its block is released and its semaphore given exactly if there is one |
| `MailboxProtocol.ClearKeepsIntact` | sdk014_ZS285A/kernel/mailbox.c:499-519 | a message that is cleared while it waits reports size 0 and no receiver to its sender, with its own size as information word, releases its block and gives its semaphore exactly if there is one |
| `MailboxProtocol.StepKeepsIntact` | sdk014_ZS285A/kernel/mailbox.c:124-487 | every received, disposed or cleared message is a faithful image of the message sent |
| `MailboxRuns.StepKeepsInv` | sdk014_ZS285A/kernel/mailbox.c:124-487 | every step, with clearing steps on messages that wait, keeps all of this and the priority order of both queues |
| `MailboxRuns.InitInv` | sdk014_ZS285A/kernel/mailbox.c:80-110 | it holds after initialisation |
| `MailboxRuns.RunKeepsInv` | sdk014_ZS285A/kernel/mailbox.c:124-487 | it holds after every run of such steps |
| `MailboxRuns.DescriptorInOnePlace` | sdk014_ZS285A/kernel/mailbox.c:36-46 | in every state that such runs reach each asynchronous descriptor is free, taken to send, in the transmit queue or in one received message, exactly one of these |
| `MailboxRuns.MessageHasOneFate` | sdk014_ZS285A/kernel/mailbox.c:239-487 | in every state that such runs reach each message is waiting, received, disposed of, cleared or given up, exactly once |
| `MailboxRuns.ReceivedCanBeConsumed` | sdk014_ZS285A/kernel/mailbox.c:356-370 | a received message can always be consumed: the sender's buffer is long enough |
| `MailboxRuns.BestReceiver` | sdk014_ZS285A/kernel/mailbox.c:257-261 | the receiver chosen has the highest priority among the compatible ones, and waited longest among equals |
| `MailboxRuns.BestSender` | sdk014_ZS285A/kernel/mailbox.c:451-456 | the same for the sender chosen |
| `MailboxRuns.OnlyForDisposal` | sdk014_ZS285A/kernel/mailbox.c:288-298 | a sender whose message was received neither runs nor waits in a queue |
| `MailboxRuns.HeldUntilDisposal` | sdk014_ZS285A/kernel/mailbox.c:193-222 | it resumes in a step of such a run if and only if that step disposes of its message |
| `MailboxRuns.SendHandsOver` | sdk014_ZS285A/kernel/mailbox.c:257-298 | a send goes to the first waiting receiver such that each side names the other or anybody; that receiver runs and the sender does not |
| `MailboxRuns.SendFindsNobody` | sdk014_ZS285A/kernel/mailbox.c:301-323 | a send that no waiting receiver accepts waits with its priority, or is given up and changes no queue |
| `MailboxRuns.ReceiveTakes` | sdk014_ZS285A/kernel/mailbox.c:451-466 | a receive takes the first waiting message such that each side names the other or anybody, and wakes nobody |
| `MailboxRuns.ReceiveFindsNothing` | sdk014_ZS285A/kernel/mailbox.c:468-479 | a receive that accepts no waiting message waits with its priority, or changes nothing |
| `MailboxRuns.ConsumeOutcome` | sdk014_ZS285A/kernel/mailbox.c:356-370 | consuming into a buffer tells both sides the smaller size and copies that much of the sender's data; discarding tells both 0 and copies nothing; the sender is released |
| `MailboxRuns.PostedByCalls` | sdk014_ZS285A/kernel/mailbox.c:326-353 | over every run, the messages on record are those of the send calls, in order |
| `MailboxRuns.WaitingBySend` | sdk014_ZS285A/kernel/mailbox.c:307-323 | over every run, a waiting message waits as it was sent, with the priority of its call |
| `MailboxRuns.WaitingByGet` | sdk014_ZS285A/kernel/mailbox.c:476-479 | over every run, a waiting receiver waits as it asked, with the priority of its call |
| `MailboxRuns.AskedByCalls` | sdk014_ZS285A/kernel/mailbox.c:437-487 | over every run, what a receiver waits for and received a message with is what its call asked for |
| `Mailbox.MessageMatch` | sdk014_ZS285A/kernel/mailbox.c:124-164 | the field-by-field update is the exchange; without a match nothing changes |
| `MailboxClear.ReliableIff` | sdk014_ZS285A/kernel/mailbox.c:499-519 | over all runs from the start in which clearing calls are interrupted by actions of given kinds: every turn clears a message that still waits, if and only if messages are not received, timed out or cleared by others meanwhile |
| `MailboxClear.StaysWaiting` | sdk014_ZS285A/kernel/mailbox.c:499-519 | the other kinds leave every waiting message in the queue |
| `MailboxClear.GetsMiss` | sdk014_ZS285A/kernel/mailbox.c:499-519 | receiving makes a turn go wrong, in a run from the start |
| `MailboxClear.TimeoutsMiss` | sdk014_ZS285A/kernel/mailbox.c:499-519 | so does a sender's timeout |
| `MailboxClear.ClearsMiss` | sdk014_ZS285A/kernel/mailbox.c:499-519 | and so does another call that clears |
| `MailboxClear.ReleasedEarly` | sdk014_ZS285A/kernel/mailbox.c:511-518 | a run after which a sender is ready although its message was received and not disposed of |
| `MailboxClear.FreedTwice` | sdk014_ZS285A/kernel/mailbox.c:206-214 | a run after which an asynchronous descriptor is on the stack of free descriptors twice |
| `MailboxClear.RightRun` | sdk014_ZS285A/kernel/mailbox.c:489-524 | a run of calls in which every turn is right is a run of the mailbox steps |
| `MailboxClear.RightRunKeepsInv` | sdk014_ZS285A/kernel/mailbox.c:489-524 | so all invariants hold in it |
| `MailboxClear.HarmlessKeepsInv` | sdk014_ZS285A/kernel/mailbox.c:489-524 | and in every run whose calls are interrupted only by the other kinds |
| `MailboxClear.CooperativeKeepsInv` | sdk014_ZS285A/kernel/sched.c:125-139 | and in every run in which only threads that are not preemptible clear the mailbox |
| `MailboxClear.CallSweeps` | sdk014_ZS285A/kernel/mailbox.c:499-519 | when a call that only the other kinds interrupt has ended, none of the messages that waited at its start still waits |
| `MailboxClear.LateMessageStays` | sdk014_ZS285A/kernel/mailbox.c:499-519 | a message that comes in before the remembered sender is not cleared |
| `MailboxClear.CallIsClearAll` | sdk014_ZS285A/kernel/mailbox.c:489-524 | the turns of a call that is not interrupted clear the mailbox message by message |
| `MailboxClear.ClearAllEmpties` | sdk014_ZS285A/kernel/mailbox.c:489-524 | that removes every waiting message in order, releases every sender and touches no receiver |
| `Mailbox.Mbox.constructor` | sdk014_ZS285A/kernel/mailbox.c:63-110 | the initial state |
| `Mailbox.Mbox.FindReceiver` | sdk014_ZS285A/kernel/mailbox.c:257-261 | the first compatible receiver |
| `Mailbox.Mbox.HandTo` | sdk014_ZS285A/kernel/mailbox.c:262-298 | the receiver leaves its queue and runs, the sender waits for disposal |
| `Mailbox.Mbox.MessagePut` | sdk014_ZS285A/kernel/mailbox.c:239-324 | refines the sending step and returns the right code |
| `Mailbox.Mbox.Put` | sdk014_ZS285A/kernel/mailbox.c:326-332 | a synchronous send fails if and only if it may not wait and no waiting receiver and the message name each other or anybody; a failed send changes no queue; otherwise its caller is held; its message goes on record as it was given |
| `Mailbox.Mbox.AsyncAlloc` | sdk014_ZS285A/kernel/mailbox.c:36-40 | takes the top descriptor from the stack for the caller, or none if it is empty |
| `Mailbox.Mbox.AsyncPut` | sdk014_ZS285A/kernel/mailbox.c:346-353 | an asynchronous send keeps the invariant and does not hold its caller |
| `Mailbox.Mbox.FindSender` | sdk014_ZS285A/kernel/mailbox.c:451-456 | the first compatible message |
| `Mailbox.Mbox.MessageGet` | sdk014_ZS285A/kernel/mailbox.c:448-479 | refines the receiving step and returns the right code |
| `Mailbox.Mbox.Get` | sdk014_ZS285A/kernel/mailbox.c:437-479 | succeeds if and only if some waiting message and the receiver name each other or anybody; otherwise it waits, or fails and changes nothing |
| `Mailbox.Mbox.ReleaseSender` | sdk014_ZS285A/kernel/mailbox.c:206-222 | the sender's descriptor is freed or its thread made ready |
| `Mailbox.Mbox.DataGet` | sdk014_ZS285A/kernel/mailbox.c:356-370 | the caller gets the front of the sender's data, as long as the smaller of both sizes, or nothing when it discards; the sender is told that length; its thread is made ready or its descriptor pushed |
| `Mailbox.Mbox.DataCheck` | sdk014_ZS285A/kernel/mailbox.c:422-435 | a message stays received, and nothing changes, if and only if it has data and no buffer was given; otherwise the sender is told the length copied |
| `Mailbox.Mbox.ClearMsg` | sdk014_ZS285A/kernel/mailbox.c:489-524 | when no other thread runs during the call: refines clearing message by message; the cleared messages are those that waited, in order |
| `Mailbox.Mbox.SenderTimesOut` | sdk014_ZS285A/kernel/mailbox.c:317-323 | the sender alone leaves the queue and is ready, and its message is given up |
| `Mailbox.Mbox.ReceiverTimesOut` | sdk014_ZS285A/kernel/mailbox.c:476-479 | the receiver alone leaves the queue and is ready |
| `MsgqProtocol.StepKeepsOneKind` | sdk014_ZS285A/kernel/msg_q.c:63-181 | waiting threads stay all receivers at an empty ring or all senders at a full one |
| `MsgqProtocol.RightKind` | sdk014_ZS285A/kernel/msg_q.c:73-138 | a put only ever wakes a receiver, a get only ever a sender |
| `MsgqProtocol.StepKeepsOrder` | sdk014_ZS285A/kernel/msg_q.c:63-181 | accepted messages leave in the order of acceptance, each once, delivered or purged |
| `MsgqProtocol.RunKeeps` | sdk014_ZS285A/kernel/msg_q.c:63-181 | both over every run |
| `MsgqProtocol.NoRoomNoMeeting` | sdk014_ZS285A/kernel/msg_q.c:71-103 | in a queue without room a sender and a receiver end up waiting side by side |
| `MsgqProtocol.OneKindIff` | sdk014_ZS285A/kernel/msg_q.c:63-181 | in every run the waiting threads are of one kind if and only if the queue has room for a message |
| `MsgqProtocol.PurgeOutcome` | sdk014_ZS285A/kernel/msg_q.c:165-181 | a purge ends every message of the ring and refuses every waiting thread, in order |
| `MsgqProtocol.StepRecorded` | sdk014_ZS285A/kernel/msg_q.c:63-181 | each step adds exactly its own call to that record |
| `MsgqProtocol.CallsRecorded` | sdk014_ZS285A/kernel/msg_q.c:63-181 | over every run, per thread and message: the puts accepted, waiting and sent away are the put calls that did not fail at once; and likewise the gets |
| `MsgqProtocol.AcceptedFromCall` | sdk014_ZS285A/kernel/msg_q.c:63-138 | every accepted message is that of a put call of the run, also if it had to wait for a get |
| `MsgqProtocol.RunWaitersCalled` | sdk014_ZS285A/kernel/msg_q.c:94-103 | over every run, every waiting thread waits with the priority and the buffer of its own call |
| `MsgQueue.StoreOne` | sdk014_ZS285A/kernel/msg_q.c:88-93 | a message written at the write pointer is the last of the ring, across the wrap |
| `MsgQueue.TakeOne` | sdk014_ZS285A/kernel/msg_q.c:121-126 | the message at the read pointer is the first of the ring, across the wrap |
| `MsgQueue.Msgq.constructor` | sdk014_ZS285A/kernel/msg_q.c:49-61 | an empty queue |
| `MsgQueue.Msgq.Put` | sdk014_ZS285A/kernel/msg_q.c:63-109 | with room in the ring the caller's message is the last one accepted, and lies in the first waiting receiver's buffer or at the end of the ring; without, the caller fails or waits with its message and priority, and nothing else changes |
| `MsgQueue.Msgq.Get` | sdk014_ZS285A/kernel/msg_q.c:111-163 | the caller gets the oldest message, and the first waiting sender's message is accepted and becomes the last of the ring; without a message the caller fails or waits with its priority, and nothing else changes |
| `MsgQueue.Msgq.Deliver` | sdk014_ZS285A/kernel/msg_q.c:121-126 | the oldest message leaves the ring for the caller's buffer |
| `MsgQueue.Msgq.AdmitSender` | sdk014_ZS285A/kernel/msg_q.c:129-138 | a waiting sender's message becomes the last of the ring |
| `MsgQueue.Msgq.Purge` | sdk014_ZS285A/kernel/msg_q.c:165-181 | all waiting threads are refused and the ring is emptied |
| `MsgQueue.Msgq.Expire` | sdk014_ZS285A/kernel/sched.c:199-225 | that waiting thread alone leaves the queue, and is refused |
| `WaitQueue.PendThread` | sdk014_ZS285A/kernel/sched.c:199-225 | the scan inserts behind all threads of the same or higher priority |
| `WaitQueue.InsertOrdered` | sdk014_ZS285A/kernel/sched.c:199-225 | a wait queue stays ordered by priority |
| `ReadyQueue.StepKeepsProper` | sdk014_ZS285A/kernel/sched.c:71-120 | adding, removing and moving keep one queue ordered by priority in which each thread is once |
| `ReadyQueue.RunKeepsProper` | sdk014_ZS285A/kernel/sched.c:71-120 | so does any sequence of them |
| `ReadyQueue.StepIs` | sdk014_ZS285A/kernel/sched.c:71-120 | an added thread goes behind all threads of its or a higher priority and before all others; a removed one leaves the others as they were; a moved one is removed and added again |
| `ReadyQueue.InItsList` | sdk014_ZS285A/kernel/sched.c:71-120 | each ready thread is once in the list of its priority and in no other list |
| `ReadyQueue.AppendIsInsert` | sdk014_ZS285A/kernel/sched.c:71-82 | appending to the list of its priority is insertion into one queue ordered by priority |
| `ReadyQueue.RemoveFromList` | sdk014_ZS285A/kernel/sched.c:99-108 | taking a thread out of its list takes it out of the ordered queue |
| `ReadyQueue.FirstBit` | sdk014_ZS285A/kernel/include/ksched.h:203-227 | the lowest set bit over all bitmap words belongs to the first list that is not empty |
| `ReadyQueue.HeadIs` | sdk014_ZS285A/kernel/sched.c:44-58 | that list's first thread is the head of the ordered queue |
| `ReadyQueue.StillAgrees` | sdk014_ZS285A/kernel/sched.c:19-37 | bitmap and lists agree after one list and its bit change |
| `ReadyQueue.FlattenOrdered` | sdk014_ZS285A/kernel/sched.c:19-120 | the lists one after the other are ordered by priority |
| `ReadyQueue.ReadyQ.constructor` | sdk014_ZS285A/kernel/sched.c:71-82 | a queue with one thread |
| `ReadyQueue.ReadyQ.WriteBit` | sdk014_ZS285A/kernel/sched.c:19-37 | exactly one bit changes |
| `ReadyQueue.ReadyQ.HighestReady` | sdk014_ZS285A/kernel/include/ksched.h:203-227 | the index of the first list that is not empty |
| `ReadyQueue.ReadyQ.Head` | sdk014_ZS285A/kernel/sched.c:44-58 | the head of the ordered queue |
| `ReadyQueue.ReadyQ.Add` | sdk014_ZS285A/kernel/sched.c:71-90 | the thread stands behind all of its or a higher priority and before all others; lists, bitmap and cache are those of that queue, and the cache is its head |
| `ReadyQueue.ReadyQ.Remove` | sdk014_ZS285A/kernel/sched.c:99-120 | the thread alone leaves the queue, while another is ready; lists, bitmap and cache are those of the rest |
| `ReadyQueue.ReadyQ.MoveToEnd` | sdk014_ZS285A/kernel/sched.c:306-323 | the thread ends up behind all threads of its priority; lists, bitmap and cache are those of that queue |
| `ThreadTimer.CompareInWindow` | sdk014_ZS285A/kernel/thread_timer.c:28 | inside half the 32-bit range the wrapped comparison is the real one |
| `ThreadTimer.HalfApart` | sdk014_ZS285A/kernel/thread_timer.c:28 | two times compare as each before the other if and only if they are half the range apart |
| `ThreadTimer.InsertSorted` | sdk014_ZS285A/kernel/thread_timer.c:71-86 | insertion keeps the queue sorted |
| `ThreadTimer.StartSorted` | sdk014_ZS285A/kernel/thread_timer.c:109-130 | so does starting a timer that is already queued |
| `ThreadTimer.RemoveIs` | sdk014_ZS285A/kernel/thread_timer.c:59-69 | removing takes out that timer and nothing else |
| `ThreadTimer.DueExactly` | sdk014_ZS285A/kernel/thread_timer.c:176-180 | the due timers are exactly those before the first that is not |
| `ThreadTimer.RestartDueIff` | sdk014_ZS285A/kernel/thread_timer.c:187-190 | a timer that starts again during a pass is due at once if and only if its period takes it back to the pass's time |
| `ThreadTimer.TimeoutExact` | sdk014_ZS285A/kernel/thread_timer.c:155-167 | waiting for the reported timeout, which is never negative, is exactly long enough for the first timer, and no timer is due before; without timers it is K_FOREVER |
| `TimerPass.TurnKeepsGood` | sdk014_ZS285A/kernel/thread_timer.c:176-183 | the saved pointer to the next timer stays in the list through removal and insertion, whatever the period |
| `TimerPass.SteadyNoneAgain` | sdk014_ZS285A/kernel/thread_timer.c:187-190 | with periods that are not negative and a clock that does not go back no restarted timer is due at once |
| `TimerPass.MidwayTurn` | sdk014_ZS285A/kernel/thread_timer.c:176-197 | a restarted timer that is not due goes behind all due ones |
| `TimerPass.PassLeavesNoneDue` | sdk014_ZS285A/kernel/thread_timer.c:169-198 | then the queue after a pass is sorted and nothing in it is due |
| `TimerPass.RightPass` | sdk014_ZS285A/kernel/thread_timer.c:169-198 | and the pass ends and has called each due timer once, in expiry order |
| `TimerPass.CalledAre` | sdk014_ZS285A/kernel/thread_timer.c:185-196 | each timer that has a function is called, in list order, and no other |
| `TimerPass.RightPassLeaves` | sdk014_ZS285A/kernel/thread_timer.c:182-190 | the list then holds the timers that were not due as they were, and each due timer with a function and a period, one period later than the clock at its turn; nothing else |
| `TimerPass.WrongPass` | sdk014_ZS285A/kernel/thread_timer.c:169-198 | otherwise the first timer that is due again was called, and is called a second time or left in the list while due |
| `TimerPass.PassRightIff` | sdk014_ZS285A/kernel/thread_timer.c:169-198 | the pass ends, has called exactly the due timers once and in order and leaves none due, if and only if no timer that starts again is due at once |
| `TimerPass.CalledTwice` | sdk014_ZS285A/kernel/thread_timer.c:169-198 | two timers, one with a negative period, that is called twice in one pass |
| `TimerPass.Endless` | sdk014_ZS285A/kernel/thread_timer.c:169-198 | two timers with negative periods that keep a pass going as long as the clock stands still |
| `TimerCalls.Timers.RemoveTimer` | sdk014_ZS285A/kernel/thread_timer.c:59-69 | that timer is taken out if it is in the list, and nothing else changes |
| `TimerCalls.Timers.InsertTimer` | sdk014_ZS285A/kernel/thread_timer.c:71-86 | the timer goes before the first that expires later |
| `TimerCalls.Timers.Start` | sdk014_ZS285A/kernel/thread_timer.c:109-130 | restart with a new expiry time, modulo 2^32 |
| `TimerCalls.Timers.FireAt` | sdk014_ZS285A/kernel/thread_timer.c:182-196 | one expired timer is removed, restarted if periodic, and called |
| `TimerCalls.Timers.HandleExpired` | sdk014_ZS285A/kernel/thread_timer.c:169-198 | the loop over the list is the pass, for all periods and times for which it ends |
| `ItemRing.ParsePrint` | sdk014_ZS285A/misc/ring_buffer.c:18-22 | parsing the printed words gives the items back |
| `ItemRing.PrintAppend` | sdk014_ZS285A/misc/ring_buffer.c:24-57 | printing one more item appends its words |
| `ItemRing.FirstItem` | sdk014_ZS285A/misc/ring_buffer.c:69-78 | the first header describes the first item: 16 bits type, 8 bits length, 8 bits value |
| `ItemRing.MaskIsModulo` | sdk014_ZS285A/misc/ring_buffer.c:37-49 | for a size that is a power of two, masking an index is taking it modulo the size |
| `ItemRing.SpaceIs` | sdk014_ZS285A/include/misc/ring_buffer.h:170-191 | the free space is the size less one less the words in use, and head equals tail only when empty |
| `ItemRing.WriteNext` | sdk014_ZS285A/misc/ring_buffer.c:38-41 | a word written behind the contents leaves them alone, across the wrap |
| `ItemRing.DropFront` | sdk014_ZS285A/misc/ring_buffer.c:85-91 | advancing the head drops exactly the first words |
| `ItemRing.Ring.constructor` | sdk014_ZS285A/include/misc/ring_buffer.h:73-113 | an empty ring, with or without a mask |
| `ItemRing.Ring.Index` | sdk014_ZS285A/misc/ring_buffer.c:37-49 | both index forms agree with modulo |
| `ItemRing.Ring.Put` | sdk014_ZS285A/misc/ring_buffer.c:24-57 | the item is appended if and only if its words fit; otherwise only the drop count grows |
| `ItemRing.Ring.WriteWords` | sdk014_ZS285A/misc/ring_buffer.c:31-49 | header and data words behind the contents |
| `ItemRing.Ring.Get` | sdk014_ZS285A/misc/ring_buffer.c:59-95 | the oldest item with type, value and data; an empty ring or a short buffer changes nothing and says how long the item is |
| `ItemRing.Ring.ReadWords` | sdk014_ZS285A/misc/ring_buffer.c:80-92 | the data words of the first item |

## Left out

- Interrupt handlers, context switching and priority changes: represented only as boundaries of steps.
- Symbol tables: reading and filtering the symbol list, `qsort`, the exit for an empty list, assembler text and its relocation (an emitted address is the symbol's address), and the option that omits names. Counts are unbounded.
- KallsymsWriter.BuildTables: for lists whose compressed names have at most 255 codes and whose token texts have at most 63 characters; `KallsymsLimits` says which lists these are. Below the first symbol's address only `KallsymsLookup.Lookup` says what is found.
- KallsymsRoundTrip.BuildAndLookup: the same condition; `KallsymsRoundTrip.BuildAndLookupShort` has one on the names alone.
- Memory pool: waiting and retrying in `k_mem_pool_alloc`, waking of waiters, pool ids, and pools of 2 GB and more, whose sizes an int does not hold. A bitmap word is a sequence of 32 booleans; list heads and bitmaps lie outside the buffer.
- MemPool.Pool.constructor: for the pools of `PoolRounding.SoundIff`, in a 32-bit address space. In all others the code itself loses or confuses blocks, lets them or their nodes overlap, or writes bits into foreign words; their steps are not modelled.
- PoolRounding.SoundIff: about the blocks that initialisation and breaking make; what merging makes of them in pools that are not sound is not modelled.
- PoolBitmap.ReservationSuffices: takes the shifts of the sizing macros as unbounded; `PoolBitmap.ShiftsFit` says that they are exact below 512 MB, and `PoolRounding.SoundShiftsFit` in every pool that works.
- MemPool.Pool.PoolAlloc: describes a run that no other thread interrupts; interrupted runs are covered step by step in `PoolProtocol`, and the scan in `PoolScan.ReliableIff`.
- Pipes: the asynchronous path, overflow of `size_t` sums, and user buffers in memory (what a reader receives is a sequence per call).
- Page tables: reading and writing files, byte order, verbose output; the input is the unpacked list of regions and the output buffer is a sequence of words.
- MmuGenerator.Generator.Generate: the translation is stated for a page directory that is loaded at a page boundary, as the generator assumes.
- Mailboxes: descriptors are values rather than memory that both sides point to; a receiver does not use the descriptor of an undisposed message for another receive; `k_mbox_data_block_get` and `k_mbox_get_pending_msg_cnt`. A thread that finds no free descriptor just does not proceed.
- Mailbox.Mbox.ClearMsg: describes a call during which no other thread runs; interrupted calls are in `MailboxClear`.
- MailboxClear.ReleasedEarly: a turn on a sender that no longer waits also writes to the links of whatever queue that sender was or is in; that is not modelled. A switch to another thread while disposing frees a block or gives a semaphore counts as one behind it.
- Message queues: a message slot is one array element, not `msg_size` bytes.
- Ready queue: a thread keeps its priority while it is queued; the configuration without threads.
- TimerCalls.Timers.HandleExpired: callbacks leave the list alone, and the pass ends (`TimerPass.Endless` shows one that does not).
- TimerPass.PassRightIff: for times within half the 32-bit range, outside of which the comparison is no order (`ThreadTimer.HalfApart`).
- Item ring buffer: the byte mode; sums of indices do not overflow 32 bits.
- Mutexes, semaphores, stacks, work queues, polling, memory slabs, drivers and the remaining scripts: simpler than the above, or dependent on code that is not part of this model.
