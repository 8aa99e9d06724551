# Verified models of the rv32-5stage software stack

This project models, in Dafny, the parts of the repository whose correctness is hard to see from any one
function, and proves what the code and its comments promise about them.

- **CoreMark list engine** (`ListCells`, `ListNodes`, `ListSort`, `ListOps`, `ListOrders`, `ListBench`, `ListScore`,
  `ListRestore`, `ListInit`, `ListItems`, `ListRun`, `ListSeeds`): the linked list on a heap of `ListHead` and `ListData` objects, the in-place
  bottom-up merge sort for any total preorder and for comparators that change what they compare, the promise that a
  benchmark call leaves the list as it found it, exactly when that promise holds, and for which seeds and sizes.
- **CRC-16** (`Crc16`, `CrcPoly`): the byte loop against a bitwise register, its algebra over messages of any length,
  and the register as the remainder of a division of polynomials over GF(2).
- **Coherence by set displacement** (`DCache`, `DCacheRuns`, `Displace`, `GemmCoherence`): a direct-mapped write-back
  cache over DRAM, the maintenance walks of the cache driver, and the data side of a GEMM batch.
- **GEMM driver protocol** (`GemmProtocol`): threads, mutex, semaphore, interrupt and accelerator queue, interleaved
  statement by statement.
- **Interrupt controller** (`Intc`, `IntcStarts`, `IntcCalls`): the edge latch cycle by cycle, the ISR and the enable
  and disable routines, both halves of the promise (no edge lost, no handler without an edge), and those routines
  called by several threads.
- **CoreMark state machine** (`ScanGrammar`, `Scanner`, `ScanBytes`, `StateBench`): the scanner against a grammar of
  symbols and of bytes, tilings, and the corrupt/undo pair over blocks made by the initialiser.
- **MMIO handshake** (`Mmio`): request, pending, done and latched data of two device channels in a pipeline that any
  other source can freeze.
- **Number formatting** (`Numbers`) and **matrix kernels** (`Matrix`); `Modulus` holds shared arithmetic.

Code that works on values became functions and lemmas. Code that updates objects, arrays or registers became classes
and methods with loops, proved against functions or predicates on values; the lemmas are about those. Machine words
appear as bit vectors in the list and state modules, as bit sequences in `Crc16`, as sets of source numbers in `Intc`,
and as integers with explicit wrap-around elsewhere.

What comes from outside is a parameter. The results of `core_bench_state` and `core_bench_matrix` inside `calc_func` are
an arbitrary function of the call number; other CPU activity during a cache walk or a batch is an arbitrary sequence of
accesses; interrupt edges, stalls, traps and device answers are arbitrary per cycle; thread scheduling, timeouts and
poll-mode switches are arbitrary.

## Where the code and its comments disagree

The model follows the code.

- `src/intc.v:78-81` and `zephyr/drivers/interrupt_controller/intc_rv32_5stage.c:97-98` say that an edge in the very
  cycle of a write-1-to-clear survives; the expression drops it. `Intc.ClearDropsEdges` gives the exact condition.
  The ISR's own clear is harmless, because the dropped bit is in its mask and its handler has not started; the clear in
  `intr_enable` does lose such an edge (`Intc.EnableKeepsLaterEdges`).
- `gemm_run_batch` flushes the B operand even of a tile marked `src_coherent`
  (`zephyr/drivers/misc/gemm_rv32_5stage.c:233-243`); the flag skips the A flush only.
- The cache driver says that the accelerator driver flushes a destination before the DMA
  (`zephyr/drivers/cache/cache_rv32_5stage.c:43-54`); `gemm_run_batch` never does, it only displaces destinations after
  the batch (`zephyr/drivers/misc/gemm_rv32_5stage.c:224-264` and `317-323`). So it needs destinations that are not
  dirty; `DCacheRuns.DisplacedDestination` shows exactly why, and `Displace.SafeUsage` is about the documented usage.
- `core_list_mergesort` speaks of the empty list at `fpga/coremark/src/core_list_join.c:587` but dereferences the tail at
  line 584, so a non-empty list is required.
- `core_bench_list` promises that the list is back to its original state (line 157). That is not true of every list
  it accepts. `ListRestore.RestoredIff` gives the exact condition: ascending indices, and no two words of equal index
  inverted before the index sort. `ListRun.BenchOnce` shows, for every seed and block size, that a single search for
  index 0 restores the list if and only if the generated indices are pairwise different; `ListRun.SeedSixBreaks` is a
  seed that fails, `ListRun.SeedSevenLosesNode` one for which the chain from `res->list` loses a node, and
  `ListSeeds` says for which sizes the shipped seeds are safe. The sort's own comment expects the header always to
  stay first (lines 495-496); with an inner index of 0 it does not.
- One of the texts `core_init_state` lists as scientific, "-87e+832" (`fpga/coremark/src/core_state.c:122`), has no point,
  and the scanner accepts an exponent only behind a float; `ScanBytes.PatternMeans` says for which seeds it is picked.
- The undo pass of `core_bench_state` is commented as undoing the corruption if the seeds are equal
  (`fpga/coremark/src/core_state.c:99`); `StateBench.UndoneIff` gives the exact condition and `StateBench.NineIsLost` an
  input for which equal seeds are not enough.

## Assumptions

- A latched and enabled interrupt runs before the next driver statement of any thread (the `prompt` parameter of
  `GemmProtocol`). `GemmProtocol.LateInterruptMisleads` shows that it is needed.
- The destinations of a batch are not dirty when it is submitted, the accelerator writes destination lines only, and the
  CPU leaves operand and destination lines alone while the batch runs. `DCacheRuns.DisplacedDestination` shows why.
- A source is enabled only while it is masked (the `masked` parameter of `Intc`; `Intc.LosesIff` and
  `Intc.ReenableLosesEdge` show why), and child handlers do not write the controller's registers.
- Calls of `intr_enable` and `intr_disable` do not overlap; `Intc` has one thread inside them. Nothing in the driver
  enforces that: `IntcCalls.OverlapLosesEnable` is a run that loses an enable, and `IntcCalls.WriteUndoesIff` says
  exactly when.
- A device answers only a request of an earlier cycle, and each request once.

## Model

| member | source | states |
|---|---|---|
| `ListNodes.RunKernel` | fpga/coremark/src/core_list_join.c:87-109 | the value an uncached word yields: the kernel's answer for operation codes 0 and 1, the word itself otherwise; the kernels are called once for the former and not for the latter, and an answer is recorded in crcstate or crcmatrix exactly if only zero is on record; the running CRC is not touched here |
| `ListNodes.KernelBits` | fpga/coremark/src/core_list_join.c:79-88 | which words call a kernel, by their bits 0 to 2 |
| `ListNodes.Evaluate` | fpga/coremark/src/core_list_join.c:82-110 | the computed value, folded into the running CRC exactly once |
| `ListNodes.CalcFunc` | fpga/coremark/src/core_list_join.c:70-115 | afterwards bit 7 is set and the low seven bits are the result; the upper byte never changes; a cached word is returned without any computation, word and CRC untouched |
| `ListNodes.Compare` | fpga/coremark/src/core_list_join.c:121-143 | every comparator: both words end up settled, each word only evolves (index and upper byte kept, settled words unchanged), and the result is at most zero exactly if the first word is not behind the second; for the two comparators of the program it is the difference of the keys after the call |
| `ListNodes.WordBitsAt` | fpga/coremark/src/core_list_join.c:110 | position i of the word that enters the CRC is bit i of the machine word |
| `ListCells.Remember` | fpga/coremark/src/core_list_join.c:111-112 | caching keeps the upper byte and stores exactly the seven-bit value |
| `ListCells.Regenerate` | fpga/coremark/src/core_list_join.c:137-141 | regeneration restores the low byte from its backup and is the identity on regenerated words |
| `ListCells.UpperDetermines` | fpga/coremark/src/core_list_join.c:137-141 | a regenerated word is determined by its upper byte |
| `ListCells.WordParts` | fpga/coremark/src/core_list_join.c:70-79 | bit by bit: bit 7 is the cache flag, bits 0 to 6 the cached value, bits 8 to 15 the backup |
| `ListCells.RememberBits` | fpga/coremark/src/core_list_join.c:111-112 | bit by bit: bits 8 to 15 are kept, bit 7 is set, bits 0 to 6 are those of the value |
| `ListCells.RegenerateBits` | fpga/coremark/src/core_list_join.c:137-141 | bit by bit: both bytes are the upper one |
| `ListSort.Append` | fpga/coremark/src/core_list_join.c:568-577 | one link step changes exactly one next pointer (or the head) and no data |
| `ListSort.FromP` | fpga/coremark/src/core_list_join.c:537-566 | which run gives the next node: the comparator is called only when both runs are non-empty, and on a tie the first run wins |
| `ListSort.TakeP` | fpga/coremark/src/core_list_join.c:552-559 | taking the head of the first run keeps the merge invariant (permutation, order, stability) |
| `ListSort.TakeQ` | fpga/coremark/src/core_list_join.c:560-566 | taking the head of the second run keeps the merge invariant |
| `ListSort.MergeStep` | fpga/coremark/src/core_list_join.c:534-578 | one turn of the merge loop keeps the whole merge state, pointers included, with at most one comparator call |
| `ListSort.Merge` | fpga/coremark/src/core_list_join.c:534-578 | two neighbouring runs become one ordered stable run, with fewer comparator calls than nodes |
| `ListSort.StepAlong` | fpga/coremark/src/core_list_join.c:519-528 | q ends insize places along, or at the end of the list |
| `ListSort.MergePair` | fpga/coremark/src/core_list_join.c:518-581 | merging one pair of runs advances the pass invariant by exactly one merge |
| `ListSort.MergePass` | fpga/coremark/src/core_list_join.c:510-582 | one pass: all nodes are in runs of twice the size, and nmerges counts the merges |
| `ListSort.Terminate` | fpga/coremark/src/core_list_join.c:584 | ending the list changes the last next pointer only |
| `ListSort.CountMerges` | fpga/coremark/src/core_list_join.c:586-588 | a pass with at most one merge is one whose single merge covered the list, and conversely |
| `ListSort.SortRound` | fpga/coremark/src/core_list_join.c:508-591 | one round doubles the run length and stops exactly when the runs cover the list |
| `ListSort.MergeSort` | fpga/coremark/src/core_list_join.c:500-596 | for any non-empty list and any comparator that is a total preorder, the two that change the words they compare included: a NULL-terminated list of the same nodes, a permutation in stable order of the final words, every word only evolved by the comparator, at most (n-1) calls per pass |
| `ListSort.SortedMeans` | fpga/coremark/src/core_list_join.c:484-498 | sorted, for an arbitrary comparator: never descending, and ties keep their order |
| `ListSort.SortWith` | fpga/coremark/src/core_list_join.c:500-596 | the same sort stated without ranks for an arbitrary total preorder that leaves the words alone |
| `ListSort.PassesIsLog2` | fpga/coremark/src/core_list_join.c:508-591 | the number of passes is the base-two logarithm of the length, rounded up |
| `ListSort.MaxCallsIsLinearithmic` | fpga/coremark/src/core_list_join.c:508-591 | the call bound is (n-1) times the number of passes |
| `ListOps.Find` | fpga/coremark/src/core_list_join.c:435-450 | the first node that matches by index, or by low data byte when the index is negative; NULL exactly if there is none |
| `ListOps.Reverse` | fpga/coremark/src/core_list_join.c:465-477 | the same nodes in reverse order |
| `ListOps.CacheNext` | fpga/coremark/src/core_list_join.c:189-196 | the node behind the hit becomes the second node, all others keep their order; nothing happens at the end of the list |
| `ListOps.Remove` | fpga/coremark/src/core_list_join.c:377-390 | the data pointers of the item and its successor are swapped and the successor is unlinked |
| `ListOps.UndoRemove` | fpga/coremark/src/core_list_join.c:408-420 | the data pointers are swapped back and the removed node is linked behind the modified one |
| `ListOrders.SortedSettles` | fpga/coremark/src/core_list_join.c:500-596 | sorting two or more nodes compares every one of them, so every word is settled |
| `ListBench.FindInList` | fpga/coremark/src/core_list_join.c:177 | the search in the current list order |
| `ListBench.CacheHit` | fpga/coremark/src/core_list_join.c:189-196 | the current order after caching |
| `ListBench.Search` | fpga/coremark/src/core_list_join.c:176-197 | one search: the first match, the order after reversal and caching, hit or miss, and the data bit it adds to the return value |
| `ListBench.SearchTurn` | fpga/coremark/src/core_list_join.c:176-199 | one turn of the loop with its counters and the next index to look for |
| `ListBench.SearchLoop` | fpga/coremark/src/core_list_join.c:174-203 | all find_num turns, as the trace of orders and counters they determine; the words are not touched |
| `ListBench.CrcTail` | fpga/coremark/src/core_list_join.c:214-218 | one CRC step over the first node's word for every node from the finder on |
| `ListBench.RemoveAndUndo` | fpga/coremark/src/core_list_join.c:208-222 | remove, find, CRC and undo leave every next and info pointer as it was, and the CRC is that of the list without its second item |
| `ListBench.SortOutcome` | fpga/coremark/src/core_list_join.c:205-224 | after a sort of two or more nodes every word is settled: bit 7 set for the data sort, regenerated for the index sort |
| `ListBench.SortList` | fpga/coremark/src/core_list_join.c:205-224 | a sort of the current list: words evolved, and the new order is the stable sort of the old one |
| `ListBench.DataPhase` | fpga/coremark/src/core_list_join.c:205-207 | the data sort, stable and with every word cached, happens exactly for a positive finder_idx; upper bytes and indices survive it |
| `ListBench.IndexPhase` | fpga/coremark/src/core_list_join.c:223-224 | the new order is the stable index sort of the order before, and every word is the original one regenerated |
| `ListBench.BackupRestores` | fpga/coremark/src/core_list_join.c:134-143 | words whose backups are intact, once regenerated, are the original words regenerated |
| `ListBench.RegenAllIff` | fpga/coremark/src/core_list_join.c:134-143 | and those are the original words exactly if every low byte equalled its backup |
| `ListBench.BenchList` | fpga/coremark/src/core_list_join.c:159-236 | for every list of at least three nodes, any finder_idx and seed3 and any kernel results: no info pointer changes, every word ends regenerated, the final order is the stable index sort of the order the searches and the data sort left, the chain from res->list is the original one exactly if that order is the original one, and the return value is the score of the recorded searches run through the two CRC stretches |
| `ListScore.ScoreTurn` | fpga/coremark/src/core_list_join.c:176-204 | every turn of the searches changes the score, modulo 2^16, by 4 and bits 0-and-9 of the word found for a hit, by -1 and bit 8 of the second word of the reversed list for a miss |
| `ListScore.ScoreBegins` | fpga/coremark/src/core_list_join.c:162-204 | the score starts at 0 |
| `ListScore.RepeatIsRegister` | fpga/coremark/src/core_list_join.c:214-218 | repeating the CRC step is the register over that many copies of the word |
| `ListScore.CrcRemovedMeans` | fpga/coremark/src/core_list_join.c:208-218 | how many copies of the first word are fed while the second item is out, by the position of the first match |
| `ListScore.ReturnValue` | fpga/coremark/src/core_list_join.c:159-236 | the return value is the CRC register, started from the score, over copies of the first word after the data sort and then of the first word of the final list |
| `ListRestore.RestoredIff` | fpga/coremark/src/core_list_join.c:157 | the promise, exactly: the original order is back if and only if the list was in ascending index order and no two words of equal index were the wrong way round before the index sort |
| `ListRestore.RestoredIffWords` | fpga/coremark/src/core_list_join.c:174-224 | for every finder_idx up to 0, so without data sort, and every number of searches: the order before the index sort is a function of the words, and the list is restored if and only if it is ascending and that function inverts no equal pair |
| `ListRestore.DistinctRestores` | fpga/coremark/src/core_list_join.c:157 | strictly ascending indices are enough for every finder_idx and every number of searches |
| `ListRestore.OnceIff` | fpga/coremark/src/core_list_join.c:174-224 | a condition to check before the call: one search that hits the first word or none, without data sort, restores the list if and only if it is in ascending order with pairwise different indices |
| `ListRestore.HeadBehind` | fpga/coremark/src/core_list_join.c:174-224 | if the first two words share their index, the same call leaves the original head behind the second node |
| `ListRestore.BenchFit` | fpga/coremark/src/core_list_join.c:159-236 | a list in strict index order with intact backups is back to its original state, nodes and words |
| `ListRestore.Iterate` | fpga/coremark/src/core_main.c:52-73 | any number of iterations leave such a list and its words as they were; every round makes a call with finder_idx 1 and one with -1, each result is folded into the running CRC, the second call finds it as the first left it, and crclist is its value after the first round (0 if there is none) |
| `ListInit.InsertNew` | fpga/coremark/src/core_list_join.c:336-361 | the new cell is linked behind the insertion point with the given word, or nothing changes when either area is used up |
| `ListInit.InsertSecond` | fpga/coremark/src/core_list_join.c:276-289 | an insertion behind the head: the new item is second, the others keep their order |
| `ListInit.FillItems` | fpga/coremark/src/core_list_join.c:267-289 | exactly size-1 cells are used; head, tail and items hold the words the seed prescribes |
| `ListInit.IndexItems` | fpga/coremark/src/core_list_join.c:290-306 | every node but head and tail gets its sequential or mixed index |
| `ListInit.SentinelsStay` | fpga/coremark/src/core_list_join.c:307 | by stability the head sentinel stays first even among equal indices, and the tail sentinel stays last |
| `ListInit.Init` | fpga/coremark/src/core_list_join.c:251-320 | for every seed and block size of at least 120 (size/5 at most 0x7fff): exactly blksize/20-3 different nodes and words of the block, NULL-terminated, ascending by index, sentinels first and last, every low byte equal to its backup, and the contents a permutation of what the seed prescribes |
| `ListItems.ItemMeans` | fpga/coremark/src/core_list_join.c:281-286 | the data word of item i, for every i and seed: bits 0 to 2 are i mod 8, bits 3 to 6 are (seed xor i) mod 16, bit 7 is clear and the upper byte repeats the lower |
| `ListItems.MixedBits` | fpga/coremark/src/core_list_join.c:299-303 | the pseudo-random index bit by bit: position xor seed, with the next position's low bits joined in at 8 to 10 and bits 14 and 15 clear |
| `ListItems.LowByteMeans` | fpga/coremark/src/core_list_join.c:443-449 | what a search for data compares is the number in bits 0 to 7 |
| `ListRun.PristineIffDistinct` | fpga/coremark/src/core_list_join.c:290-307 | the initial list is in strict index order exactly if the generated indices do not collide |
| `ListRun.Run` | fpga/coremark/src/core_main.c:52-73 | initialisation and any number of iterations: the list is what initialisation built |
| `ListRun.BenchOnce` | fpga/coremark/src/core_list_join.c:159-320 | for every seed and block size: initialisation and one call with finder_idx 0 and a single search leave the list as it was if and only if the generated indices do not collide |
| `ListRun.SeedSixCollides` | fpga/coremark/src/core_list_join.c:299-303 | seed 6 collides: positions 1 and 7 of a 20-cell block both get index 1 |
| `ListRun.SeedSixBreaks` | fpga/coremark/src/core_list_join.c:157 | so with seed 6 and 20 cells that call leaves the list in another order |
| `ListRun.SeedSevenLosesNode` | fpga/coremark/src/core_list_join.c:299-303 | with seed 7 and 10 to 39 cells the head sentinel is no longer first, so the chain from res->list has lost a node |
| `ListSeeds.LargeBlocksCollide` | fpga/coremark/src/core_list_join.c:299-303 | from 323 cells on indices collide, whatever the seed |
| `ListSeeds.ShippedSeedsIff` | fpga/coremark/core_portme.c:28-37 | seeds 0 and 0x3415 give pairwise different indices exactly up to 322 cells |
| `ListSeeds.ProfileSeedIff` | fpga/coremark/core_portme.c:38-42 | seed 8 does so exactly up to 322 cells and outside every other range of 40 cells |
| `Crc16.Crcu8Loop` | fpga/coremark/src/core_util.c:164-188 | the loop computes the shift register over eight bits, which `CrcPoly.RegisterIsRemainder` characterises |
| `Crc16.Crcu16Calls` | fpga/coremark/src/core_util.c:189-195 | the two byte calls are the register over sixteen bits |
| `Crc16.Crcu32` | fpga/coremark/src/core_util.c:196-207 | the two half-word calls are the register over thirty-two bits |
| `Crc16.CrcIsRegister` | fpga/coremark/src/core_util.c:164-207 | a message of any number of bytes: byte calls equal the bitwise register |
| `Crc16.RegisterLinear` | fpga/coremark/src/core_util.c:164-207 | linearity over GF(2) in message and state together |
| `Crc16.RegisterBijective` | fpga/coremark/src/core_util.c:164-207 | for a fixed message the map on states is a bijection, with an explicit inverse |
| `Crc16.WordIntoState` | fpga/coremark/src/core_util.c:189-195 | crcu16(w, c) equals crcu16(0, w xor c) |
| `Crc16.BurstDetected` | fpga/coremark/src/core_util.c:164-207 | two different messages that differ only inside 16 consecutive bits never have the same CRC |
| `CrcPoly.RegisterDivides` | fpga/coremark/src/core_util.c:164-188 | long division over GF(2): message x^16 + state x^n equals the feedback bits times x^16 + x^15 + x^2 + 1, plus the register, for every message and state |
| `CrcPoly.RegisterIsRemainder` | fpga/coremark/src/core_util.c:164-207 | both ways: the register holds r exactly if r is the remainder of message x^16 + state x^n by x^16 + x^15 + x^2 + 1, the coefficients given as a list |
| `CrcPoly.CrcIsRemainder` | fpga/coremark/src/core_util.c:164-188 | so is the checksum of any message of bytes from crc 0: the remainder of message x^16 |
| `CrcPoly.BitsOfValue` | fpga/coremark/src/core_util.c:189-207 | the bits of a number have its value modulo 2^w |
| `DCache.TouchKeeps` | src/dcache_bram.v:299-341 | a fill changes neither the CPU's view outside the DMA's lines nor DRAM inside them |
| `DCache.StepRefinesFlat` | zephyr/drivers/cache/cache_rv32_5stage.c:16-25 | one access of cache over DRAM is one access of a flat memory |
| `DCacheRuns.RunKeeps` | zephyr/drivers/cache/cache_rv32_5stage.c:43-54 | through any run in which the CPU stays off the DMA's lines, only DMA bytes reach those lines in DRAM and all else is a flat memory |
| `DCacheRuns.RunRefinesFlat` | zephyr/drivers/cache/cache_rv32_5stage.c:16-25 | every run of CPU accesses is a run of the flat memory |
| `DCacheRuns.LastWritten` | zephyr/drivers/cache/cache_rv32_5stage.c:16-25 | the flat memory: after any run a byte holds what the CPU or the DMA last wrote to it, and else what it held before |
| `DCacheRuns.AbsentMeans` | zephyr/drivers/cache/cache_rv32_5stage.c:49-54 | once none of the DMA's lines is cached the CPU reads what the DMA wrote and the memory is coherent from then on |
| `DCacheRuns.DisplacedDestination` | zephyr/drivers/cache/cache_rv32_5stage.c:37-41 | a displaced destination shows the DMA's data exactly if the line was not dirty |
| `DCacheRuns.ShadowedDestination` | zephyr/drivers/cache/cache_rv32_5stage.c:9-11 | a destination shows the DMA's data without displacement exactly if it is not resident |
| `Displace.MaskIsMod` | zephyr/drivers/cache/cache_rv32_5stage.c:67-68 | masking with DC_SETS-1 is reduction modulo DC_SETS for every set count the build check admits |
| `Displace.GeometryMatters` | zephyr/drivers/cache/Kconfig:35-44 | the walk touches every line's own set exactly if the configured set count is a multiple of the real one |
| `Displace.LinesMeet` | zephyr/drivers/cache/cache_rv32_5stage.c:79-84 | the lines of a range are exactly those of its bytes |
| `Displace.Soc.DisplaceSet` | zephyr/drivers/cache/cache_rv32_5stage.c:85-89 | one iteration puts every watched line of that set out of the cache and brings none in, under any other accesses off the watched lines; no two iterations of any walks need see the same accesses |
| `Displace.Soc.DisplaceRange` | zephyr/drivers/cache/cache_rv32_5stage.c:79-92 | afterwards no line that meets the range is resident, whatever else the CPU accesses off the range meanwhile |
| `Displace.Soc.DisplaceAll` | zephyr/drivers/cache/cache_rv32_5stage.c:94-103 | afterwards no line off the buffer is resident, but for interleaved accesses |
| `Displace.FlushOutcome` | zephyr/drivers/cache/cache_rv32_5stage.c:140-144 | after a flush DRAM equals the earlier CPU view on the range and the CPU still sees the same everywhere |
| `Displace.InvdOutcome` | zephyr/drivers/cache/cache_rv32_5stage.c:146-154 | after invd on DMA-owned lines the CPU reads the DMA's data |
| `Displace.SafeUsage` | zephyr/drivers/cache/cache_rv32_5stage.c:43-54 | flush, DMA, invd over every interleaving equals the flat memory with the DMA's writes in place |
| `GemmCoherence.FlushTiles` | zephyr/drivers/misc/gemm_rv32_5stage.c:224-245 | after the submit loop no line it flushed is dirty |
| `GemmCoherence.FlushOperands` | zephyr/drivers/misc/gemm_rv32_5stage.c:144-164 | -EINVAL for no tiles, else no operand line of any tile is dirty |
| `GemmCoherence.DisplaceDests` | zephyr/drivers/misc/gemm_rv32_5stage.c:317-323 | no destination line of any tile is resident afterwards |
| `GemmCoherence.FetchSeesCpuView` | zephyr/drivers/misc/gemm_rv32_5stage.c:227-243 | at every moment of the batch DRAM holds, on every operand line fetched, what the CPU saw at submission |
| `GemmCoherence.ResultsReachCpu` | zephyr/drivers/misc/gemm_rv32_5stage.c:317-323 | afterwards the memory is the flat memory with the DMA writes as stores, now and later |
| `GemmCoherence.RunBatch` | zephyr/drivers/misc/gemm_rv32_5stage.c:189-329 | the whole batch: every fetch sees the CPU's view and every later CPU read of a destination returns the DMA's byte, over all interleavings |
| `GemmProtocol.NextInv` | zephyr/drivers/misc/gemm_rv32_5stage.c:189-329 | every statement of every thread, the interrupt, timeouts (also while the completion edge is latched) and the hardware keep the invariant |
| `GemmProtocol.RunInv` | zephyr/drivers/misc/gemm_rv32_5stage.c:189-329 | the invariant holds in every state of every run |
| `GemmProtocol.OneBatch` | zephyr/drivers/misc/gemm_rv32_5stage.c:216-295 | at most one batch is in flight, and nobody else is past the lock meanwhile |
| `GemmProtocol.PushAndKickAccepted` | zephyr/drivers/misc/gemm_rv32_5stage.c:202-264 | no descriptor is ever dropped although QUEUE_FREE is read outside the lock, no kick is ignored, and what is kicked is the caller's batch |
| `GemmProtocol.SuccessIsOwn` | zephyr/drivers/misc/gemm_rv32_5stage.c:276-295 | a taken semaphore or polled completion belongs to the batch kicked in that call, and a take uses the signal up |
| `GemmProtocol.ReturnCode` | zephyr/drivers/misc/gemm_rv32_5stage.c:264-328 | over every run: a call that kicked a batch returns 0 exactly if its wait did not time out, and then the hardware has completed that very batch since the kick; otherwise it returns -ETIMEDOUT; either way it has given up the lock |
| `GemmProtocol.CallChecked` | zephyr/drivers/misc/gemm_rv32_5stage.c:199-211 | over every run: the exact conditions for -EINVAL, -EBUSY and going on; a refused call has touched nothing, and -EBUSY for a batch the queue could hold means that another thread has the lock |
| `GemmProtocol.RefusedReturns` | zephyr/drivers/misc/gemm_rv32_5stage.c:199-211 | a refused call returns that code without ever taking the lock |
| `GemmProtocol.KicksWhatWasGiven` | zephyr/drivers/misc/gemm_rv32_5stage.c:189-264 | over every run: the kick starts a queue that holds exactly as many tiles as the call was given |
| `GemmProtocol.ModeMeans` | zephyr/drivers/misc/gemm_rv32_5stage.c:166-173 | over every run: a batch is polled for exactly if the last gemm_set_poll_mode to write the mode asked for polling |
| `GemmProtocol.WakeupKept` | zephyr/drivers/misc/gemm_rv32_5stage.c:262-286 | while a thread waits for a batch the hardware has completed, its interrupt or its own take can go ahead: no wakeup is lost to the semaphore reset |
| `GemmProtocol.InterruptWakes` | zephyr/drivers/misc/gemm_rv32_5stage.c:111-135 | after that interrupt the waiting thread can take the semaphore at once and collects its batch |
| `GemmProtocol.PollReleased` | zephyr/drivers/misc/gemm_rv32_5stage.c:277-285 | a polling thread leaves its loop exactly if its own batch is completed |
| `GemmProtocol.InFlightProgresses` | zephyr/drivers/misc/gemm_rv32_5stage.c:264-295 | a batch in flight is completed exactly if the hardware is not busy, and busy hardware can always take its next step |
| `GemmProtocol.FreeMeansIdle` | zephyr/drivers/misc/gemm_rv32_5stage.c:286-328 | whenever the lock is free, timeouts included, the hardware is idle and its queue empty |
| `GemmProtocol.LateInterruptMisleads` | zephyr/drivers/misc/gemm_rv32_5stage.c:278-283 | if a latched interrupt may run late, polling and then switching to interrupts lets a stale completion satisfy the next batch |
| `Intc.ClearDropsEdges` | src/intc.v:68-81 | the register keeps what its comment promises exactly if no cleared source fires in the cycle of the clear |
| `Intc.Service` | zephyr/drivers/interrupt_controller/intc_rv32_5stage.c:61-67 | the loop ends and dispatches every masked-in source exactly once, in ascending order |
| `Intc.ClockInv` | zephyr/drivers/interrupt_controller/intc_rv32_5stage.c:47-111 | every clock, whatever the CPU does, keeps every owed edge in PENDING or in the running ISR's mask |
| `Intc.InitClears` | zephyr/drivers/interrupt_controller/intc_rv32_5stage.c:134-146 | whatever was enabled and pending before, initialisation leaves nothing enabled, nothing owed and no source of the controller pending |
| `Intc.EdgeKept` | zephyr/drivers/interrupt_controller/intc_rv32_5stage.c:53-67 | over every run an edge on an enabled source stays latched with the line up, or in the ISR's hand, until its handler starts |
| `Intc.EnableKeepsLaterEdges` | zephyr/drivers/interrupt_controller/intc_rv32_5stage.c:70-103 | between the clear and the unmasking PENDING holds the source exactly if it fired strictly after the cycle of the clear |
| `Intc.LosesIff` | zephyr/drivers/interrupt_controller/intc_rv32_5stage.c:70-103 | a clock after boot loses an edge if and only if it is the clear of an intr_enable on a source that is already enabled, pending or firing, and not in the hand of the ISR |
| `Intc.NothingLost` | zephyr/drivers/interrupt_controller/intc_rv32_5stage.c:47-111 | when only masked sources are enabled, no clock of any run loses an edge |
| `Intc.ReenableLosesEdge` | zephyr/drivers/interrupt_controller/intc_rv32_5stage.c:100 | without that rule there is a run from boot that loses one |
| `IntcStarts.PendingIff` | src/intc.v:68-81 | over every run PENDING holds a source exactly if it fired, or was pending at boot, and has not been cleared since, a clear in the clock of the edge included |
| `IntcStarts.StartedFired` | zephyr/drivers/interrupt_controller/intc_rv32_5stage.c:47-67 | over every run: a handler starts only for an enabled source that its ISR read in PENDING, that is one that fired (or was pending at boot) before that read and was not cleared in between |
| `IntcStarts.StartsPaid` | zephyr/drivers/interrupt_controller/intc_rv32_5stage.c:47-67 | in any stretch of any run: handler starts and what is outstanding at the end are at most the edges in it and what was outstanding at its beginning |
| `IntcStarts.NeverMoreOften` | zephyr/drivers/interrupt_controller/intc_rv32_5stage.c:47-67 | a handler is never started more often than its source fired, an edge pending at boot included |
| `IntcStarts.CallTakesEffect` | zephyr/drivers/interrupt_controller/intc_rv32_5stage.c:70-111 | over every run: when a call of intr_enable or intr_disable returns, its source is enabled or disabled as asked and no other source has changed |
| `Intc.Registers.Initialize` | zephyr/drivers/interrupt_controller/intc_rv32_5stage.c:134-146 | from any registers: nothing enabled, and a source is pending exactly if it fired after the clear |
| `Intc.Registers.IntrEnable` | zephyr/drivers/interrupt_controller/intc_rv32_5stage.c:70-103 | with ISR runs between the accesses: the new enable mask; a masked source is pending afterwards exactly if it fired after the clear; masked sources only collect edges, and no other edge is lost but to an ISR that serves it |
| `Intc.Registers.IntrDisable` | zephyr/drivers/interrupt_controller/intc_rv32_5stage.c:105-111 | the new enable mask; masked sources only collect edges, and no edge is lost but to an ISR that serves it |
| `IntcCalls.WriteUndoesIff` | zephyr/drivers/interrupt_controller/intc_rv32_5stage.c:70-111 | with any number of threads: a call sets its own bit as asked, and its write undoes a change to another source exactly if that bit changed since its read |
| `IntcCalls.AloneKeeps` | zephyr/drivers/interrupt_controller/intc_rv32_5stage.c:70-111 | when calls do not overlap, no access changes the bit of another source |
| `IntcCalls.OverlapLosesEnable` | zephyr/drivers/interrupt_controller/intc_rv32_5stage.c:70-103 | two overlapping calls of intr_enable can leave the first source masked |
| `ScanGrammar.ModeMeans` | fpga/coremark/src/core_state.c:216-330 | every state but INVALID is reached on exactly its language: sign, integer, float, mantissa, open exponent, scientific |
| `ScanGrammar.InvalidMeansHopeless` | fpga/coremark/src/core_state.c:216-330 | INVALID is reached exactly when no continuation can be a number |
| `Scanner.TokenMeans` | fpga/coremark/src/core_state.c:216-330 | a token's state says what its text is; an invalid token is the shortest hopeless prefix |
| `ScanBytes.BytesDecided` | fpga/coremark/src/core_state.c:194-330 | on bytes, over character codes: the state after a text is INT, FLOAT or SCIENTIFIC exactly if the text is [+-]?[0-9]+, [+-]?[0-9]*.[0-9]*, or such a float and [eE][+-][0-9]+, and INVALID exactly if no continuation is any of them |
| `ScanBytes.TokenOfBytes` | fpga/coremark/src/core_state.c:216-330 | the same for every token of a block: its bytes hold no comma and no NUL, its state says which number they are, and what is skipped behind it |
| `Scanner.Switch` | fpga/coremark/src/core_state.c:230-326 | the transition and the transition counts it books |
| `Scanner.Transition` | fpga/coremark/src/core_state.c:216-330 | one call consumes exactly one token, advances, stays before the first NUL, and books its counts |
| `Scanner.TokenUnique` | fpga/coremark/src/core_state.c:216-330 | the token at a position is determined by the text |
| `Scanner.TilesUnique` | fpga/coremark/src/core_state.c:66-69 | the tiling of a text into tokens is determined by the text |
| `Scanner.Scan` | fpga/coremark/src/core_state.c:66-76 | the calls tile the block up to its first NUL and final_counts sums to the number of tokens, mode by mode |
| `StateBench.Corrupt` | fpga/coremark/src/core_state.c:77-83 | the stepping loop changes exactly the bytes at multiples of the step that are not commas |
| `StateBench.UndoneIff` | fpga/coremark/src/core_state.c:77-103 | for any two seeds: the second pass restores the block exactly if every stepped byte is a comma, or the seeds agree in their low byte and do not turn it into one |
| `StateBench.NineIsLost` | fpga/coremark/src/core_state.c:77-103 | a block for which the undo fails: a stepped 9 under seed byte 0x15 |
| `StateBench.InitState` | fpga/coremark/src/core_state.c:139-191 | the greatest number of patterns that leaves two bytes, in seed order with commas, then zeros |
| `ScanBytes.PatternMeans` | fpga/coremark/src/core_state.c:111-178 | what the seed picks: an integer exactly for seed mod 8 below 3, a float for 3 and 4, a number with exponent for 5 and 6 unless seed/8 mod 4 is 2, and for that ("-87e+832") and for 7 a text that can never be a number |
| `StateBench.ShippedSeedsUndo` | fpga/coremark/core_portme.c:28-42 | the shipped seeds restore every initial block for every size and step |
| `StateBench.ScansStayInside` | fpga/coremark/src/core_state.c:77-96 | for every initial block of at least two bytes, any seeds and any step of at least two, both scans meet a NUL inside the block |
| `StateBench.GridStaysInside` | fpga/coremark/src/core_state.c:66-103 | steps with a common divisor of at least two: any number of calls on one block, with any seeds, stays inside it |
| `StateBench.CalcStaysInside` | fpga/coremark/src/core_list_join.c:83-97 | so every call that calc_func makes, after any history of calls and for any seeds, stays inside the block |
| `StateBench.AlwaysInsideIff` | fpga/coremark/src/core_state.c:66-103 | equal seeds stay inside every initial block, for any number of calls and any steps of at least two, if and only if their low byte is not a comma |
| `StateBench.CommaSeedRunsOut` | fpga/coremark/src/core_state.c:77-96 | a seven-byte block and two steps for which a comma seed uses up both zero bytes |
| `StateBench.StepOneRunsOut` | fpga/coremark/src/core_state.c:77-96 | with a step of one the second scan can find no NUL in the block |
| `StateBench.Checksum` | fpga/coremark/src/core_state.c:105-109 | the checksum is the CRC register over the sixteen counters in order |
| `StateBench.CountersInOrder` | fpga/coremark/src/coremark.h:123-134 | the message has 64 bits per mode in the order of the enumeration: the count of tokens and the count of transitions |
| `StateBench.BenchState` | fpga/coremark/src/core_state.c:45-111 | both scans tile their texts with the counters carried over, the block ends as corrupted twice, and the result is the CRC of all counters |
| `Mmio.ClockChannel` | Testbenches/cpu_baseline.v:330-349 | one clock of a request/pending/done channel |
| `Mmio.Pipeline.Clock` | Testbenches/cpu_baseline.v:330-374 | one clock of both channels, the reservation monitor, EX/MEM and MEM/WB together |
| `Mmio.ValidIsAccess` | src/reservation_monitor.v:17-45 | no conditional store ever reaches a device, so whether the stage holds a device access is fixed by the frozen instruction |
| `Mmio.TickInv` | Testbenches/cpu_baseline.v:330-374 | every cycle keeps the channel invariant |
| `Mmio.TickLog` | Testbenches/cpu_baseline.v:330-374 | a cycle extends the bus record of the instruction in MEM or completes it |
| `Mmio.ExactlyOnce` | Testbenches/cpu_baseline.v:301-374 | over every run from reset, with any stalls, traps and answer delays: the bus record is the retired instructions in order, each device access with exactly one request and one answer, and the committed data is that answer's |
| `Mmio.RetiresWhenReleased` | Testbenches/cpu_baseline.v:304-317 | an access retires in exactly the first cycle after its answer in which no other source stalls |
| `Mmio.DecodeMeans` | Testbenches/cpu_baseline.v:269-289 | the device windows and the local addresses as ranges |
| `Mmio.MemoryFreezes` | Testbenches/cpu_baseline.v:290-317 | off the devices an instruction is held exactly by a stall, or by a miss on cached memory if it loads or its store commits, and it commits the data of that cycle |
| `Mmio.ConditionalIff` | src/reservation_monitor.v:17-45 | over every run from reset: a store-conditional succeeds exactly if the last load-reserved hit was for its address and no trap, store-conditional or completed store has come since |
| `Numbers.TablesHoldDigits` | fpga/coremark/ee_printf.c:30-31 | both tables hold the digits of bases up to 36 |
| `Numbers.NumeralLength` | fpga/coremark/ee_printf.c:98-107 | the numeral has no superfluous digit |
| `Numbers.NumeralBits` | fpga/coremark/ee_printf.c:98-107 | a word of w bits has at most w digits in any base |
| `Numbers.Convert` | fpga/coremark/ee_printf.c:98-107 | the digits land reversed in the 66-character array, never past its end, for words of up to 64 bits |
| `Numbers.RenderedLength` | fpga/coremark/ee_printf.c:109-139 | the length is the width, or sign, prefix and the larger of precision and digits if that is more |
| `Numbers.ReadBack` | fpga/coremark/ee_printf.c:52-140 | reading the output back, for every base, width, precision and flag combination, gives the sign and the magnitude |
| `Numbers.PrintedValue` | fpga/coremark/ee_printf.c:52-140 | so a signed field reads as the argument itself and an unsigned one as the argument modulo 2^w |
| `Numbers.Number` | fpga/coremark/ee_printf.c:52-140 | null for a base outside 2..36 with the buffer untouched; otherwise exactly the rendered text is written and the end returned |
| `Numbers.SkipAtoi` | fpga/coremark/ee_printf.c:43-50 | the 32-bit value of the leading digits, and the position behind them |
| `Numbers.AtoiRecoversIff` | fpga/coremark/ee_printf.c:43-50 | skip_atoi, 32-bit wrap included, recovers a printed non-negative decimal exactly if it is zero, or fits a signed int and nothing but digits stands in front of it |
| `Matrix.AddConst` | fpga/coremark/src/core_matrix.c:284-295 | every entry is increased with 16-bit wrap-around |
| `Matrix.Wrap16Means` | fpga/coremark/src/core_matrix.c:284-295 | the 16-bit wrap-around: the one number of the range that differs by a multiple of 2^16 |
| `Matrix.AddedBack` | fpga/coremark/src/core_matrix.c:135-161 | adding val and then -val restores every matrix, whatever wraps |
| `Matrix.MulConst` | fpga/coremark/src/core_matrix.c:268-279 | every cell is entry times constant |
| `Matrix.MulVect` | fpga/coremark/src/core_matrix.c:302-314 | the first N cells are the 32-bit row products, the rest is untouched |
| `Matrix.MulMatrix` | fpga/coremark/src/core_matrix.c:321-359 | every cell in row order is the 32-bit inner product, plain or of extracted bit fields |
| `Modulus.Wrap32Means` | fpga/coremark/src/core_matrix.c:321-359 | the 32-bit wrap-around: the one number of the range that differs by a multiple of 2^32 |
| `Matrix.ProductAt` | fpga/coremark/src/core_matrix.c:321-359 | the cell at i*N+j is row i times column j |
| `Matrix.ExtractMeans` | fpga/coremark/src/core_matrix.c:49 | a term of the bit-extracting product is bits 2 to 5 of the product times its bits 5 to 11, in two's complement |
| `Matrix.OverflowFreeIff` | fpga/coremark/src/core_matrix.c:321-336 | no 32-bit accumulator overflows for any entries in range exactly if N is at most 128 |
| `Matrix.ProductsExact` | fpga/coremark/src/core_matrix.c:321-359 | in the benchmark's ranges every product cell is the exact integer sum |
| `Matrix.VectExact` | fpga/coremark/src/core_matrix.c:302-314 | so is every cell of the matrix-vector product |
| `Matrix.MatrixTest` | fpga/coremark/src/core_matrix.c:129-162 | A is restored and B untouched for every N and val, each of the four result matrices is what it should be, and the result is the CRC over their sums |
| `Matrix.MatrixSum` | fpga/coremark/src/core_matrix.c:237-262 | the 16-bit count over the elements in row order |
| `Matrix.SumCounts` | fpga/coremark/src/core_matrix.c:226-262 | matrix_sum is ten per element that takes the accumulator past the clip value plus one per other element bigger than its predecessor, in 16 bits |
| `Matrix.AccumulatorMeans` | fpga/coremark/src/core_matrix.c:246-251 | the accumulator is the 32-bit sum of the elements since the last of the former |
| `Matrix.Big` | fpga/coremark/src/core_matrix.c:48 | the upper four bits are set and the lower twelve kept |
| `Matrix.RemMeans` | fpga/coremark/src/core_matrix.c:203-208 | the generator's remainder differs from the dividend by a multiple of the divisor |
| `Matrix.Word16Means` | fpga/coremark/src/core_matrix.c:129-162 | the bits a 16-bit value is fed to the CRC as have its value modulo 2^16 |
| `Matrix.BenchMatrix` | fpga/coremark/src/core_matrix.c:90-103 | the result of matrix_test folded into the CRC, with A restored |
| `Matrix.Dimension` | fpga/coremark/src/core_matrix.c:191-196 | the largest N with 8 N^2 below the block size; for an empty block the wrapped 0xFFFFFFFF |
| `Matrix.InitMatrix` | fpga/coremark/src/core_matrix.c:180-224 | the dimension, A in 0..255, B in 16 bits, and every entry as the generator prescribes |

## Left out

- ListRestore.Iterate: what the data sort of a call with finder_idx 1 folds into the running CRC between two results depends on the kernel answers and on the order of the comparator calls, and is stated per call of `calc_func` only (`ListNodes.CalcFunc`); crclist is returned rather than stored.
- ListSort.MergeSort: the doubling of `insize` is on unbounded integers.
- ListInit.Init: cells and data words are two sequences of objects given by the caller; their placement in one byte block is not modelled.
- Scanner.Scan: works on the classified text of the block; counters are unbounded, and the checksum takes their low 32 bits.
- StateBench.InitState: block sizes are unbounded, so the 32-bit sum in its loop condition cannot wrap; a size of 0 is excluded, because the source's decrement then wraps and it writes outside any block.
- Displace.Soc.DisplaceRange: the line size is fixed at 16 bytes and addresses are unbounded.
- GemmCoherence.RunBatch: covers contiguous destinations of `tile_bytes` only, not strided ones.
- GemmProtocol.NextInv: statistics and time stamps are not modelled; a null tile array counts as no tiles.
- Intc.ClockInv: one thread at a time is inside the driver's routines; several are the subject of `IntcCalls`, which models ENABLE alone.
- Mmio.ExactlyOnce: starts from reset; a reset in the middle of an access is not modelled, and the data cache, instruction cache and divider appear only as stalls.
- Numbers.Number: widths and precisions are unbounded integers, and negating the smallest argument wraps as it does on the hardware.
- Matrix.InitMatrix: the placement and alignment of the three matrices in the memory block are not modelled, and a block size of zero is excluded, because the source's dimension then wraps (`Matrix.Dimension`) and it writes outside any block.
- The rest of `cpu_baseline.v` (forwarding, hazards, traps, the divider) and the other RTL: only the parts named above are modelled.
- `cvt.c`, the floating-point half of `ee_printf.c` and the format-string parser: binary floating point and easy dispatch.
- `core_portme.c`, the reporting in `core_main.c`, UART drivers and samples: device polling, timing and output.
