# EMBODIOS AI kernel: a verified model

This Dafny project models the parts of the EMBODIOS bare-metal AI kernel whose correctness is
hardest to see from the code, and proves what their comments and callers rely on. Check it
with `dafny verify dfyconfig.toml`.

| part | files | source |
|---|---|---|
| work-stealing thread pool and spinning barrier | `ThreadPool*.dfy`, `ParallelKernels.dfy`, `Barrier.dfy`, `Sums.dfy`, `Common.dfy` | `kernel/ai/parallel_inference.c` |
| quantised formats and fused kernels | `Quant*.dfy`, `RealSums.dfy` | `kernel/ai/streaming_inference.c` |
| fixed-point, lane-split and tiled products | `FixedPoint.dfy`, `Blocked.dfy` | `kernel/ai/simd_ops.c`, `memory_opt.c`, `quantized_ops.c` |
| key/value cache | `KvCache.dfy`, `KvHistory.dfy` | `kernel/ai/kv_cache_enhanced.c` |
| BPE tokeniser | `Bpe*.dfy` | `kernel/ai/bpe_tokenizer.c` |
| GGUF metadata | `Gguf*.dfy` | `kernel/ai/gguf_parser.c` |
| GDB stub | `Gdb*.dfy` | `kernel/core/gdb_stub.c` |
| model registry | `ModelRegistry.dfy` | `kernel/ai/model_registry.c` |

How the parts are modelled:

- **Thread pool and barrier.** Transition systems: every access to a location that changes while
  threads run is one step, a schedule is any sequence of steps of any number of threads, under
  sequential consistency. Reads of a descriptor's constant fields are merged into the step next to
  them, which `HeldDescriptorStays` justifies. A work descriptor lives on the stack of its call; a
  thread that follows a pointer to a dead or null descriptor goes to `Fault`, and `RoundIsolation`
  shows that none ever does.
- **Floats.** Where the result does not depend on rounding (which element is computed by whom, from
  which nibble), float operations are uninterpreted. Where two formulas are compared, they are
  exact reals.
- **Fixed point.** `fixed_t` is a 32-bit range of `int`, `>> 16` is floor division, 32-bit casts and
  additions wrap, 64-bit sums wrap where the source's order of addition matters.
- **State.** The cache, the vocabulary, the parser's cursor, the breakpoint table and the registry
  are classes with the source's fields. Each method is proved equal to a function on the state,
  and the theorems about runs are about those functions.
- **Parameters.** Input streams, the allocator's and the model parser's answers and file contents
  are parameters. Clocks, console output, interrupt masking and statistics on cycles are left out.

Where the code and its own comments or callers' expectations disagree, the model follows the code:

- `parallel_for` does not always return. A worker that is still in its last wait when the next round
  is published stays there, and the main thread waits for it for ever. For the caller the exact
  condition is `NextCallIsLostIff`: a call can be scheduled so that it never returns if and only if
  some worker is in that wait when it is made; otherwise every fair schedule makes it return
  (`FairCallReturns`). On a pool with a worker every pair of calls can go that
  way (`AnyNextCallCanBeLost`); `LostWakeup` is a concrete run of two threads and two calls.
- The cache writes past its buffer in two ways. Its float interface stores 4-byte vectors whatever
  the configured element type, so a half-precision cache has room for about half of its positions;
  and where something may be evicted but eviction frees nothing, a store past the end is written
  behind the last slot. `StoresStayInBoundsIff` is the exact condition for single stores,
  `BatchesStayInBoundsIff` the one for batches, `HalfPrecisionOverruns` an instance in the
  repository's default dimensions. The sliding shift counts in configured elements as well, so only
  with 4-byte elements is the cache a suffix of the history (`HistoryIff`).
- SentencePiece preprocessing drops a one-byte text (`PreprocessingCompleteIff`), and GPT-2
  round trips hold for exactly the texts and vocabularies of `RoundTripIff` (`HalfMarkersFail` is one
  that fails).
- A GGUF score or token-type array is stepped over without a bounds check (`LeavesFileIff`,
  `OverlongScores`), doubles that are denormal are rejected although the header comment of the file
  says they are allowed (`DoubleAcceptedIff`, `DenormalRejected`), a vocabulary text above 1024 bytes
  is neither stored nor stepped over (`LongVocabulary`), and token types other than INT32 are read as
  an array inside the array. `PairParsedIff` is the exact condition under which a pair is read as it is meant.
- The GDB receiver cuts an over-long packet silently when the part it dropped sums to 0
  (`SentAcceptedIff`, `SilentlyCut`), and the sender escapes nothing (`FrameReceivedIff`).
- The transposed embedding extractors read the next row's blocks for the last tokens of a vocabulary
  that the block size does not divide (`ColumnValueQ4K`, `ColumnInsideIff`).
- The registry's header speaks of three models, of loads that never activate and of an active model
  that cannot be unloaded. The code has eight slots, activates the first model loaded
  (`LoadOutcome`) and hands over to another when the active one is unloaded (`UnloadHandsOver`).

## Model

| member | source | states |
|---|---|---|
| ThreadPoolSafety.RangesPartition | kernel/ai/parallel_inference.c:208-213 | the fixed ranges of deterministic mode, the main thread's included, contain every item of the call, nothing else and no item twice, for every total and thread count |
| ThreadPoolSafety.ChunkCases | kernel/ai/parallel_inference.c:399-404 | the chunk size asked for, or the smallest with which a chunk for each thread is more than all items |
| ThreadPoolSafety.OwedOnce | kernel/ai/parallel_inference.c:222-236 | until a round is cleared an item is executed at most once, is owed exactly if it has not been executed, and then by one place only: the counter, the main thread or one worker |
| ThreadPoolSafety.AllExecuted | kernel/ai/parallel_inference.c:451-458 | once the main thread has seen every acknowledgement, every item has been executed exactly once |
| ThreadPoolSafety.AllAcked | kernel/ai/parallel_inference.c:453-455 | when `workers_done` has reached T - 1, every worker is behind its acknowledgement of this very round |
| ThreadPoolSafety.StepKeepsInv | kernel/ai/parallel_inference.c:174-461 | each atomic step of any worker or of the main thread, in either mode, keeps the protocol invariant |
| ThreadPoolSafety.ExecKeepsInv | kernel/ai/parallel_inference.c:174-461 | so does every schedule, over any number of successive calls |
| ThreadPoolResults.ReachableInv | kernel/ai/parallel_inference.c:257-317 | every state reachable from the initialised pool satisfies the invariant |
| ThreadPoolResults.ExactlyOnce | kernel/ai/parallel_inference.c:397-461 | when `parallel_for` has returned, each index was passed to the work function exactly once and the array is the sequential result |
| ThreadPoolResults.ScheduleIndependence | kernel/ai/parallel_inference.c:327-461 | any two schedules, thread counts and modes leave the same array |
| ThreadPoolResults.CompletedIsExact | kernel/ai/parallel_inference.c:438 | throughout a round `completed` is the total less the unclaimed and the claimed but uncommitted items; at the total every item has run |
| ThreadPoolResults.RoundIsolation | kernel/ai/parallel_inference.c:189-250 | no worker holds or follows a descriptor whose call has returned, and one that saw `work_available` never reads a null `current_work` |
| ThreadPoolResults.HeldDescriptorStays | kernel/ai/parallel_inference.c:206-234 | while a worker that holds a descriptor does not move, the descriptor stays in place with its work function, total and chunk size, whatever the other threads do |
| ThreadPoolResults.SpentIsStable | kernel/ai/parallel_inference.c:242-249 | a worker past its acknowledgement of a round cannot get back in front of it |
| ThreadPoolResults.AtMostOneAck | kernel/ai/parallel_inference.c:243 | along every schedule a worker acknowledges a round at most once |
| ThreadPoolResults.CounterBound | kernel/ai/parallel_inference.c:224-225 | `next_item` stays below total + (T + 1) * chunk, so it cannot wrap when that fits an int |
| ThreadPoolProgress.StaleNeverReturns | kernel/ai/parallel_inference.c:247-249 | once a round is open while a worker still waits for an earlier one to be cleared, no schedule makes the call return |
| ThreadPoolProgress.EffectiveStepsLowerRank | kernel/ai/parallel_inference.c:174-461 | in a round without such a worker every effective step lowers a natural-number rank |
| ThreadPoolProgress.EffectiveStepsBounded | kernel/ai/parallel_inference.c:174-461 | so along every schedule of such a round at most that many steps have an effect before the call returns |
| ThreadPoolProgress.RankBounded | kernel/ai/parallel_inference.c:174-461 | and the rank is at most T * (9 + n) + 4 * n for T threads and n items |
| ThreadPoolProgress.SomeStepIsEffective | kernel/ai/parallel_inference.c:174-461 | and until the call returns some thread always has an effective step |
| ThreadPoolProgress.RoundReturns | kernel/ai/parallel_inference.c:427-461 | so from any point of such a round the call can be driven to its return |
| ThreadPoolProgress.ReturnsIffNoStale | kernel/ai/parallel_inference.c:247-249 | an open round can return if and only if no worker is still waiting for an earlier round |
| ThreadPoolProgress.NextCallIsLostIff | kernel/ai/parallel_inference.c:247-249 | a call can be scheduled so that it can never return if and only if some worker is still waiting for the previous round to be cleared when it is made |
| ThreadPoolFairness.FairScheduleReturns | kernel/ai/parallel_inference.c:174-461 | a call without stale workers returns under every schedule of more sweeps than it has effective steps left, where a sweep holds at least one step of each thread in any order |
| ThreadPoolFairness.FairCallReturns | kernel/ai/parallel_inference.c:327-461 | a call made while no worker waits returns under every schedule of more than T * (9 + n) + 4 * n + 3 such sweeps |
| ThreadPoolProgress.AnyNextCallCanBeLost | kernel/ai/parallel_inference.c:247-249 | with at least one worker, any first call can be scheduled to return such that any second call may never do so |
| ThreadPoolProgress.LostWakeup | kernel/ai/parallel_inference.c:247-249 | a concrete reachable run of two threads and two calls of one item each whose second call never returns |
| ParallelKernels.MatmulWorker | kernel/ai/parallel_inference.c:478-493 | writes exactly its rows; row r is the last of the running sums that add weight r * cols + c times input c, from zero, in the order of c |
| ParallelKernels.RowIsProduct | kernel/ai/parallel_inference.c:484-490 | the row the kernel reads and sums is that one |
| ParallelKernels.ChunkIsShare | kernel/ai/parallel_inference.c:507-511 | the chunks of a product are a thread's share of the rows, but at least 16 |
| ParallelKernels.SwigluWorker | kernel/ai/parallel_inference.c:683-690 | rewrites exactly its elements of the gate in place |
| ParallelKernels.ParallelMatmulIsSequential | kernel/ai/parallel_inference.c:498-514 | under every schedule, thread count and mode every output row ends as that running sum of its own weights |
| ParallelKernels.ParallelSwigluIsSequential | kernel/ai/parallel_inference.c:693-702 | the same for the in-place SwiGLU |
| Barrier.StepKeepsInv | kernel/ai/parallel_inference.c:122-139 | each atomic step of the barrier keeps its invariant |
| Barrier.BarrierSafety | kernel/ai/parallel_inference.c:122-139 | no thread leaves its k-th wait before all have entered theirs, and threads are never more than one phase apart |
| Barrier.NeverBlocked | kernel/ai/parallel_inference.c:128-137 | some thread inside the barrier, or one that has yet to arrive, can always move on |
| QuantFormats.MasksAreArithmetic | kernel/ai/streaming_inference.c:930-938 | the masks and shifts of the packing on bytes are the arithmetic the model uses |
| QuantFormats.PackedScales | kernel/ai/streaming_inference.c:930-938 | for any eight 6-bit scales and mins packed into the twelve bytes as the format lays them out, the decoder reads back each scale as the scale and each min as the min |
| QuantFormats.ScalePackingIsExact | kernel/ai/streaming_inference.c:930-938 | the eight 6-bit scales and mins determine the twelve packed bytes and are determined by them |
| QuantFormats.PackedValues | kernel/ai/streaming_inference.c:972-977 | for any 256 4-bit values packed in runs of 64, low nibbles first, the decoder reads each at its place |
| QuantFormats.Unpacked | kernel/ai/streaming_inference.c:930-977 | every block was packed from some fields, so what is said of packed blocks is said of all |
| QuantFormats.WeightOfPacked | kernel/ai/streaming_inference.c:944-977 | element e of a block is (d * scale) * value - dmin * min of the fields it was packed from, with the scale and min of its sub-block |
| QuantFormats.DequantHalf | kernel/ai/streaming_inference.c:972-977 | one run of 32 outputs from one nibble of 32 bytes, everything else in the output unchanged |
| QuantFormats.StreamDequantQ4K | kernel/ai/streaming_inference.c:940-983 | fills the output with the element map of the format for whole blocks: whatever fields the blocks were packed from, with exactly their values |
| QuantFormats.StoreColumnValue | kernel/ai/streaming_inference.c:1647-1670 | the group, nibble and scale index computed for one position select the same element of that map |
| QuantFormats.ExtractEmbeddingQ4KTransposed | kernel/ai/streaming_inference.c:1639-1672 | for every token, row r gets the value, in terms of the packed fields, at the addressed position of the addressed block, up to the first read past the table, and whether there is one |
| QuantFormats.ColumnValueQ4K | kernel/ai/streaming_inference.c:1641-1654 | that value is the one the streaming dequantiser puts at the token in row r, or, for the tail of a vocabulary that 256 does not divide, one of row r + 1 |
| QuantFormats.ColumnInsideIff | kernel/ai/streaming_inference.c:1641-1654 | all reads of a column lie in a table of whole rows if and only if the token's block is one of a row's |
| QuantFormats.ExtractEmbeddingQ80Transposed | kernel/ai/streaming_inference.c:1596-1610 | the same for Q8_0 tables |
| QuantFormats.ColumnValueQ80 | kernel/ai/streaming_inference.c:1598-1606 | and what it reads there, for whole blocks and for the tail of the vocabulary |
| QuantFused.KernelTermSplits | kernel/ai/streaming_inference.c:778-793 | a sub-block's contribution is its dequantised product plus its min times the gap of the stored sum |
| QuantFused.KernelSum | kernel/ai/streaming_inference.c:760-797 | over any number of blocks the kernel's sum is the dequantised dot product plus exactly those gap terms |
| QuantFused.GroupLoop | kernel/ai/streaming_inference.c:781-788 | the integer sum over one sub-block picks the nibbles the format assigns to it |
| QuantFused.VecDotQ4KQ81 | kernel/ai/streaming_inference.c:760-797 | the fused dot product equals dequantise-then-dot plus the sum of the gap terms dmin * m * (d * sum qs - s), in terms of the decoder and of the packed fields |
| QuantFused.FusedOfFields | kernel/ai/streaming_inference.c:760-797 | both sums in terms of the fields the weights were packed from, with nothing of the decoder in them |
| QuantError.QuantiseElement | kernel/ai/streaming_inference.c:457-463 | an element is within half a scale step of the input and neither clamp ever changes it |
| QuantError.MaxAndSum | kernel/ai/streaming_inference.c:439-445 | the largest magnitude, which some element has, and the sum |
| QuantError.QuantizeRowQ81 | kernel/ai/streaming_inference.c:432-465 | every whole block of 32 is quantised: right scale, stored sum and elements within half a step; other blocks are untouched |
| QuantMatmul.VecDotQ80Q81 | kernel/ai/streaming_inference.c:601-617 | the integer form equals the dot product of the two dequantised rows |
| QuantMatmul.TermsQ80 | kernel/ai/streaming_inference.c:601-617 | the terms of the sums below: weight times original input, weight times quantised input, magnitude of the weight times half a step |
| QuantMatmul.DotErrorQ80 | kernel/ai/streaming_inference.c:601-617 | its distance from the exact product is at most the sum over blocks of d0 * d1 / 2 * sum of absolute weights |
| QuantMatmul.MatmulQ80Fused | kernel/ai/streaming_inference.c:631-652 | nothing is written when the buffer is too small; otherwise every output row is within that bound |
| QuantMatmulQ4K.GapSum | kernel/ai/streaming_inference.c:452-454 | the gap of a quantised block is the sum of its elements' quantisation errors |
| QuantMatmulQ4K.FusedIsExactPlusError | kernel/ai/streaming_inference.c:760-797 | the gap terms cancel the min part of the quantisation error exactly: only the scaled nibbles contribute |
| QuantMatmulQ4K.FusedIsClose | kernel/ai/streaming_inference.c:760-797 | so the error bound contains no min term |
| QuantMatmulQ4K.CloseOfFields | kernel/ai/streaming_inference.c:760-823 | that bound in terms of the packed fields: the sum of |d * scale * value| times half the step of the input block |
| QuantMatmulQ4K.MatmulQ4KFused | kernel/ai/streaming_inference.c:803-823 | nothing is written when the buffer is too small; otherwise every output is within that bound of the exact product of its own row of blocks with the input |
| FixedPoint.VecDotScalar | kernel/ai/simd_ops.c:1036-1042 | the scalar reference: one 64-bit sum, one shift |
| FixedPoint.FixedIsKept | kernel/ai/simd_ops.c:1036-1042 | what a sum is turned into is the only 32-bit number that the sum, divided by 2^16 and rounded down, differs from by a multiple of 2^32 |
| FixedPoint.AddFour | kernel/ai/simd_ops.c:118-127 | one four-element round keeps the two lanes the sums of the even and odd products |
| FixedPoint.VecDotNeon | kernel/ai/simd_ops.c:78-143 | for every length the unrolled two-lane loop returns the scalar reference's value |
| FixedPoint.MatmulScalar | kernel/ai/simd_ops.c:1049-1062 | every cell is what is kept of the running sum of the products of elements i * k + idx and idx * n + j |
| FixedPoint.CellIs | kernel/ai/simd_ops.c:1049-1062 | the row and column the products are stated with have those elements |
| FixedPoint.MatmulNeon | kernel/ai/simd_ops.c:199-278 | the column-gathering form gives the same matrix |
| FixedPoint.WrapThenShift | kernel/ai/memory_opt.c:35-43 | the 32 bits kept of a shifted 64-bit sum do not depend on whether that sum wrapped |
| Blocked.BlockedWithin | kernel/ai/memory_opt.c:27-43 | t separately shifted blocks are never above one shift and at most t - 1 below it |
| Blocked.BlockedSumNext | kernel/ai/memory_opt.c:20-49 | each block adds the sum of its own 32 terms, or of those left, divided by 2^16 and rounded down |
| Blocked.TermIs | kernel/ai/memory_opt.c:35-43 | the terms of a cell are the products of elements r * K + idx and idx * N + c |
| Blocked.TruncationBound | kernel/ai/memory_opt.c:27-43 | over the whole depth: at most ceil(K/32) - 1 below, never above |
| Blocked.TruncationBoundIsTight | kernel/ai/memory_opt.c:40-42 | for up to 65536 blocks there are two matrices whose product ends exactly that far below the naive one |
| Blocked.TileCell | kernel/ai/memory_opt.c:35-43 | one cell of one tile: overwritten at depth 0, added to afterwards, no other cell touched |
| Blocked.TileStack | kernel/ai/memory_opt.c:27-46 | one tile position over all depths: its cells are complete, no other cell touched |
| Blocked.MatmulTiled | kernel/ai/memory_opt.c:20-49 | every cell of C ends as the sum of its separately shifted blocks, whatever it held before |
| Blocked.TiledCellBound | kernel/ai/memory_opt.c:20-49 | so every cell is the naive product less a loss of at most ceil(K/32) - 1, wrapped to 32 bits |
| Blocked.DequantizeBlockQ80 | kernel/ai/quantized_ops.c:267-275 | the 32 fixed-point values of a block, inside 24 bits |
| Blocked.DequantIsExact | kernel/ai/quantized_ops.c:267-275 | a value is exactly twice the product of scale and quant: the shift loses nothing |
| Blocked.RowTermIs | kernel/ai/quantized_ops.c:267-275 | element k of block t contributes 2 * scale * quant * input to its row |
| Blocked.BlockDot | kernel/ai/quantized_ops.c:725-733 | one call of the dot product adds exactly the shifted part of the row that the block covers, also for a partial last block |
| Blocked.MatmulQ80 | kernel/ai/quantized_ops.c:713-739 | every output is the sum of its row's separately shifted blocks |
| Blocked.Q80RowBound | kernel/ai/quantized_ops.c:713-739 | every output is the single-shift product of the dequantised row less a loss of at most blocks_per_row - 1, wrapped to 32 bits |
| KvCache.SlotOfPut | kernel/ai/kv_cache_enhanced.c:390-399 | storing a vector changes its own slot and no other |
| KvCache.SlotOfShift | kernel/ai/kv_cache_enhanced.c:315-328 | the left shift by d slots moves slot d + i to slot i |
| KvCache.ShiftLeft | kernel/ai/kv_cache_enhanced.c:325-328 | the overlapping byte loop is a move to the front, in both buffers |
| KvCache.Layer.ApplyEviction | kernel/ai/kv_cache_enhanced.c:297-352 | the layer's new state for all four policies, and what the cache-wide counter gains |
| KvCache.EvictionCases | kernel/ai/kv_cache_enhanced.c:297-352 | what each policy does field by field to a layer above its window, and that nothing happens to any other |
| KvCache.BatchCases | kernel/ai/kv_cache_enhanced.c:444-456 | only a batch that ends beyond the first max tokens evicts |
| KvCache.Layer.Store | kernel/ai/kv_cache_enhanced.c:378-406 | the layer after a store that is not refused: evicted from, and written if the vector ends inside the buffer |
| KvCache.Cache.Store | kernel/ai/kv_cache_enhanced.c:357-418 | the result code or the write past the end in every case, that a refused store changes nothing, that other layers are untouched, and all statistics |
| KvCache.Cache.StoreBatch | kernel/ai/kv_cache_enhanced.c:423-484 | the same for batches, those past the end with eviction on included |
| KvCache.Cache.GetKeys | kernel/ai/kv_cache_enhanced.c:490-529 | the result code, exactly the requested bytes in the caller's buffer, and the hits |
| KvCache.Cache.GetValues | kernel/ai/kv_cache_enhanced.c:534-569 | the same for values, where no hit is counted |
| KvCache.Cache.Reset | kernel/ai/kv_cache_enhanced.c:275-288 | every layer gets seq_len and start_pos 0 and keeps keys, values, evictions, stores and hits; the current length becomes 0 and the resets are counted; an uninitialised cache is left alone |
| KvCache.Cache.Create | kernel/ai/kv_cache_enhanced.c:116-234 | no cache exactly for a bad configuration or a refused allocation, otherwise layers with pairwise distinct buffers, all empty |
| KvHistory.StoresStayInBoundsIff | kernel/ai/kv_cache_enhanced.c:378-397 | no run of stores at any positions leaves the buffer if and only if the buffer has room for max_seq_len float vectors and nothing is evicted, or the policy is sliding with a non-empty window shorter than that room |
| KvHistory.SlotsAreExact | kernel/ai/kv_cache_enhanced.c:51-62 | a vector stored at a slot ends inside the page-aligned buffer if and only if the slot is below the room of that condition |
| KvHistory.RoomForMax | kernel/ai/kv_cache_enhanced.c:34-62 | 4-byte elements always leave room for max_seq_len vectors, 2-byte elements never do once the data fills a page |
| KvHistory.HalfPrecisionOverruns | kernel/ai/kv_cache_enhanced.c:378-397 | in the default dimensions with half-precision elements every store at positions 1024 to 2047 leaves the buffer |
| KvHistory.BatchesStayInBoundsIff | kernel/ai/kv_cache_enhanced.c:445-461 | every accepted batch stays inside the buffer if and only if nothing is evicted and there is room for max_seq_len vectors |
| KvHistory.EvictKeepsSuffix | kernel/ai/kv_cache_enhanced.c:311-334 | with 4-byte elements an eviction leaves a shorter suffix of the token history and counts what it dropped |
| KvHistory.AppendKeepsSuffix | kernel/ai/kv_cache_enhanced.c:387-404 | a store behind the last slot appends its token to that suffix |
| KvHistory.SlidingWindowRefinesHistory | kernel/ai/kv_cache_enhanced.c:357-418 | after n stores slot i holds token start_pos + i, start_pos + seq_len = n, evictions since the reset equal start_pos, and seq_len is n up to the first eviction and window + 1 after; with 2-byte elements up to the first eviction |
| KvHistory.HistoryAfterReset | kernel/ai/kv_cache_enhanced.c:275-418 | whatever a layer held before a reset, what is stored in order afterwards is kept as its suffix |
| KvHistory.ResetAndStore | kernel/ai/kv_cache_enhanced.c:275-418 | the same of the cache itself: a reset followed by in-order stores of any arrays through the public calls |
| KvHistory.HistoryIff | kernel/ai/kv_cache_enhanced.c:312-334 | a sliding cache that stays in its buffer is a suffix of every history if and only if its elements have 4 bytes |
| KvHistory.ReadersSeeHistory | kernel/ai/kv_cache_enhanced.c:490-569 | what the two readers copy out are that token's key and value |
| KvHistory.BatchIsStores | kernel/ai/kv_cache_enhanced.c:453-472 | a batch store is the same as its tokens stored one at a time |
| BpeVocabulary.InsertAppends | kernel/ai/bpe_tokenizer.c:106-145 | an accepted insertion adds one record to the log of insertions and changes none |
| BpeVocabulary.InsertKeepsWellFormed | kernel/ai/bpe_tokenizer.c:106-145 | and keeps chains, text ownership and the reverse table right |
| BpeVocabulary.ChainIsBucket | kernel/ai/bpe_tokenizer.c:134-137 | chains are acyclic and in their own bucket: a walk meets exactly the bucket's older records, each once, newest first |
| BpeVocabulary.TextsDisjoint | kernel/ai/bpe_tokenizer.c:124-129 | no byte of the text pool belongs to two entries |
| BpeVocabulary.FindIsMapLookup | kernel/ai/bpe_tokenizer.c:150-167 | the most recent insertion of a text is what a map built by replaying the insertions holds |
| BpeVocabulary.TextOfFind | kernel/ai/bpe_tokenizer.c:139-143 | with distinct ids, the text of the id of a text is that text |
| BpeVocabulary.Vocabulary.Djb2 | kernel/ai/bpe_tokenizer.c:84-91 | the 32-bit hash |
| BpeVocabulary.HashWrapsOnce | kernel/ai/bpe_tokenizer.c:84-91 | wrapping at every byte gives the unbounded hash modulo 2^32 |
| BpeVocabulary.Vocabulary.Insert | kernel/ai/bpe_tokenizer.c:106-145 | 0 and one more record, or -1 and nothing changed, with the exact condition |
| BpeVocabulary.Vocabulary.Lookup | kernel/ai/bpe_tokenizer.c:150-167 | the id of the most recent successful insertion of the text, or -1 |
| BpeVocabulary.Vocabulary.TokenText | kernel/ai/bpe_tokenizer.c:497-499 | the text an id points at, its length found by `strlen` |
| BpeVocabulary.Vocabulary.Load | kernel/ai/bpe_tokenizer.c:408-416 | the log after loading the model's list, with distinct ids |
| BpeVocabulary.LoadedNext | kernel/ai/bpe_tokenizer.c:97-138 | a token of the list joins the log exactly if its text has 1 to 64 bytes and fits behind the earlier ones in a pool of 16 bytes a token |
| BpeVocabulary.AllLoadedIff | kernel/ai/bpe_tokenizer.c:394-416 | the whole list is loaded, in order, if and only if no text is empty or above 64 bytes and their bytes with terminators are at most 16 a token |
| BpeText.Preprocess | kernel/ai/bpe_tokenizer.c:238-313 | the buffer holds the truncating loop's output and its terminator, for every style and text |
| BpeText.FullIsMarked | kernel/ai/bpe_tokenizer.c:238-313 | every byte but a blank is copied; a GPT-2 marker stands exactly where a word begins behind a blank or newline, a SentencePiece marker there too unless only blanks came before |
| BpeText.Gpt2Growth | kernel/ai/bpe_tokenizer.c:240-274 | in GPT-2 mode the output is at most twice the input |
| BpeText.PreprocessingCompleteIff | kernel/ai/bpe_tokenizer.c:238-313 | nothing is truncated if and only if the mode is GPT-2, the text is not one byte long, or that byte is a blank |
| BpeText.BackIsLossFree | kernel/ai/bpe_tokenizer.c:245-271 | whatever was preprocessed, converting the markers back gives a text without tabs, stray spaces or unspaced line starts |
| BpeText.PreprocessingReversibleIff | kernel/ai/bpe_tokenizer.c:245-271 | converting the markers back gives the text itself if and only if it is such a text |
| BpeText.RenderInto | kernel/ai/bpe_tokenizer.c:501-545 | a token's text is rendered by its three cases, as far as the buffer goes |
| BpeText.RenderedCases | kernel/ai/bpe_tokenizer.c:501-545 | the three cases by the first bytes of a token's text |
| BpeText.ConvertUndoesSpelling | kernel/ai/bpe_tokenizer.c:523-545 | the third case undoes the GPT-2 spelling of spaces and newlines in any text without the byte 0xC4 |
| BpeText.BadPieceShows | kernel/ai/bpe_tokenizer.c:512-545 | a piece that splits a marker, or repeats one after leading with one, leaves half a marker in the text |
| BpeTokenizer.Tokenizer.LongestMatch | kernel/ai/bpe_tokenizer.c:189-197 | the longest vocabulary match at a position and its id: no text that ends behind it within 64 bytes is in the vocabulary, and length 0 says that none at all is |
| BpeTokenizer.Tokenizer.EncodeGreedy | kernel/ai/bpe_tokenizer.c:179-226 | the tokens are a segmentation of the text, up to the token limit, and the only one |
| BpeTokenizer.SegmentationIff | kernel/ai/bpe_tokenizer.c:179-226 | a token list is the greedy output if and only if its tokens stand for consecutive pieces of the text, each the longest vocabulary text at its place, or one byte as its byte token or UNK where there is none, ending with the text or at the limit |
| BpeTokenizer.ByteTokenSpelling | kernel/ai/bpe_tokenizer.c:205-220 | a byte token is spelled `<0x`, the high digit, the low digit, `>`, in upper case |
| BpeTokenizer.Tokenizer.Encode | kernel/ai/bpe_tokenizer.c:433-467 | start token, segmentation of the preprocessed text, end token if room is left; only the start token if the buffer is refused |
| BpeTokenizer.Tokenizer.Decode | kernel/ai/bpe_tokenizer.c:479-552 | a prefix of the unbounded decoding, as long as the buffer allows, NUL-terminated |
| BpeTokenizer.DecodedAppend | kernel/ai/bpe_tokenizer.c:479-552 | one more token adds its bytes behind those of the others |
| BpeTokenizer.TokenBytesCases | kernel/ai/bpe_tokenizer.c:488-501 | which text an id is rendered by, and which ids contribute nothing |
| BpeRoundTrip.GreedyDecodes | kernel/ai/bpe_tokenizer.c:179-226 | decoding a covered segmentation converts the markers back if no piece spoils one, and shows half a marker otherwise |
| BpeRoundTrip.RoundTripIff | kernel/ai/bpe_tokenizer.c:433-552 | decode(encode(text)) = text if and only if the text is loss-free and no piece spoils a marker |
| BpeRoundTrip.RoundTrip | kernel/ai/bpe_tokenizer.c:433-552 | in that case a buffer for the text itself is enough |
| BpeRoundTrip.EncodeThenDecode | kernel/ai/bpe_tokenizer.c:433-552 | a tokeniser loaded from a list encodes and decodes a text: the result, and when it is the text |
| BpeRoundTrip.HalfMarkersFail | kernel/ai/bpe_tokenizer.c:512-545 | a concrete vocabulary and loss-free text, covered and in any buffers, that does not come back |
| GgufFormat.SkipEncoded | kernel/ai/gguf_parser.c:693-768 | a well-formed value, with arrays nested to any depth, is skipped to its last byte |
| GgufFormat.SkippedIsValue | kernel/ai/gguf_parser.c:693-768 | whatever is skipped successfully was a well-formed value of that type |
| GgufFormat.SkipSucceedsIff | kernel/ai/gguf_parser.c:693-768 | skipping succeeds exactly when such a value stands at the cursor |
| GgufFormat.SkipValue | kernel/ai/gguf_parser.c:718-768 | recursion ends because a success consumes bytes; no outcome moves the cursor past the end of the file |
| GgufFormat.Reader.ReadInt | kernel/ai/gguf_parser.c:257-273 | a little-endian integer if enough bytes are left, else nothing moves |
| GgufFormat.Reader.ReadText | kernel/ai/gguf_parser.c:550-573 | a string within the limits, and where each failure leaves the cursor |
| GgufFormat.Reader.SkipOne | kernel/ai/gguf_parser.c:718-768 | the mutually recursive skippers are the skip functions above |
| GgufMetadata.TokensReadIff | kernel/ai/gguf_parser.c:1075-1096 | the vocabulary loop reads a list of texts with its exact length and content if and only if none is above 1024 bytes |
| GgufMetadata.TokenTypesParsedIff | kernel/ai/gguf_parser.c:1143-1170 | a token-type array is passed over exactly if it is stepped over as INT32 within the limit or its elements spell a well-formed array themselves |
| GgufMetadata.PairParsedIff | kernel/ai/gguf_parser.c:771-1176 | any pair the format allows is parsed to its last byte with exactly its effect (`GgufKeys` says which) if and only if its double is accepted, its texts are short and not too many, and its token types meet that condition |
| GgufMetadata.MetadataParsed | kernel/ai/gguf_parser.c:1178-1231 | any list of such pairs moves the cursor by exactly its encoded length and leaves the effects in order |
| GgufKeys.CountKept | kernel/ai/gguf_parser.c:831-1043 | for each of six prefixes and seven subkeys, an unsigned integer sets exactly the field the subkey names to its value; any other type changes nothing |
| GgufKeys.RealKept | kernel/ai/gguf_parser.c:885-1032 | the same for the two parameters read from floats and doubles |
| GgufKeys.GeneralKept | kernel/ai/gguf_parser.c:794-829 | architecture and name are kept up to 63 and 127 bytes, file type and quantisation version as they are |
| GgufKeys.AlignmentKept | kernel/ai/gguf_parser.c:809-822 | 2 to the k-th with k at most 20 becomes the alignment, anything else becomes 32 |
| GgufKeys.TokenizerKept | kernel/ai/gguf_parser.c:1046-1170 | the tokeniser's name is kept up to 63 bytes, a token array becomes the vocabulary, scores and token types leave nothing |
| GgufKeys.TokenIdKept | kernel/ai/gguf_parser.c:1054-1071 | each of the three token ids sets its own field |
| GgufKeys.UnlistedIgnored | kernel/ai/gguf_parser.c:794-1176 | any other key, or a listed key with another type, leaves the description unchanged |
| GgufKeys.PairRead | kernel/ai/gguf_parser.c:771-1176 | integers, floats and texts in a file are read with exactly that effect, for every key |
| GgufKeys.CountRead | kernel/ai/gguf_parser.c:771-882 | so a file's integer parameter ends in the field its key names, and no other field changes |
| GgufMetadata.LeavesFileIff | kernel/ai/gguf_parser.c:1116-1147 | on arbitrary bytes a value leaves the cursor past the file exactly for a score or token-type array longer than what is left |
| GgufMetadata.MetadataLeaveFileIff | kernel/ai/gguf_parser.c:1219-1224 | on arbitrary bytes the metadata end past the file exactly when some pair is such an array, and count as parsed exactly when it is the last one announced |
| GgufMetadata.OverlongScores | kernel/ai/gguf_parser.c:1116-1130 | a concrete file of one pair is parsed with success to four bytes past its end |
| GgufMetadata.DoubleAcceptedIff | kernel/ai/gguf_parser.c:920-930 | a double under a known key is accepted exactly when it is no NaN, infinity or denormal |
| GgufKeys.DoubleAccepted | kernel/ai/gguf_parser.c:518-547 | by its sign, exponent and mantissa: the normal numbers and the two zeros |
| GgufMetadata.BadDoubleStopsParsing | kernel/ai/gguf_parser.c:920-930 | a rejected double behind any list of regular pairs ends the metadata there, with the pairs in front of it in the description |
| GgufMetadata.DenormalRejected | kernel/ai/gguf_parser.c:920-930 | a concrete well-formed pair, the smallest positive double as a rotary base, is refused |
| GgufMetadata.LongTokenStopsShort | kernel/ai/gguf_parser.c:1083-1095 | a last vocabulary text above 1024 bytes leaves the cursor short by exactly its length |
| GgufMetadata.LongVocabulary | kernel/ai/gguf_parser.c:1083-1095 | a concrete vocabulary of one text of 1025 bytes: success, no text stored, the cursor 1025 bytes short |
| GgufMetadata.Parser.ReadVocabulary | kernel/ai/gguf_parser.c:1075-1096 | the vocabulary loop's texts and cursor |
| GgufMetadata.Parser.ParseOne | kernel/ai/gguf_parser.c:794-1176 | cursor, description and result for the value of every kind of key |
| GgufMetadata.Parser.ParseKvPair | kernel/ai/gguf_parser.c:771-1176 | cursor, description and result of one pair on arbitrary bytes |
| GgufMetadata.Parser.ParseMetadata | kernel/ai/gguf_parser.c:1219-1224 | and of the whole loop |
| GdbPackets.HexInverse | kernel/core/gdb_stub.c:127-135 | digits and values are inverse, and exactly the digits have values |
| GdbPackets.HexTable | kernel/core/gdb_stub.c:127-135 | digits are sent from the table in lower case and read in either case |
| GdbPackets.PairIsShiftOr | kernel/core/gdb_stub.c:257 | the shift and or of two digit values on 32 bits, bad digits included |
| GdbPackets.BadDigits | kernel/core/gdb_stub.c:257 | what a pair with a bad digit is read as |
| GdbPackets.SendPacket | kernel/core/gdb_stub.c:152-178 | what goes out on the line |
| GdbPackets.FrameOfOk | kernel/core/gdb_stub.c:152-178 | for instance `$OK#9a` |
| GdbPackets.ReceivePacket | kernel/core/gdb_stub.c:203-269 | the loop is the receiver function, and the caller's buffer holds the packet with its terminator |
| GdbPackets.AttemptOutcome | kernel/core/gdb_stub.c:217-266 | one attempt, through noise and abandoned starts, ends in a packet and '+' or in '-' and a fresh start |
| GdbPackets.Recovery | kernel/core/gdb_stub.c:203-269 | any number of bad attempts is answered by as many '-' and then the good one is returned |
| GdbPackets.SentAcceptedIff | kernel/core/gdb_stub.c:239-243 | a sent frame is accepted exactly when it fits or the bytes that did not fit sum to 0 |
| GdbPackets.SilentlyCut | kernel/core/gdb_stub.c:239-243 | a concrete frame of three bytes is received as a packet of one and acknowledged |
| GdbPackets.ReceiveRecoversSend | kernel/core/gdb_stub.c:152-269 | receiving recovers what was sent, through noise and bad frames |
| GdbPackets.ReceivedWasFramed | kernel/core/gdb_stub.c:203-269 | on any input a returned packet was what followed the last '$', with a matching checksum, and all earlier answers were '-' |
| GdbPackets.FrameReceivedIff | kernel/core/gdb_stub.c:152-269 | for data that fits, what is received is what was sent if and only if it holds neither '$' nor '#' |
| GdbRegisters.OrIsPlus | kernel/core/gdb_stub.c:306 | or-ing a byte above the ones read so far is adding it |
| GdbRegisters.OnesAbsorb | kernel/core/gdb_stub.c:305-306 | after a pair that is not two digits nothing changes the register any more |
| GdbRegisters.WriteDump | kernel/core/gdb_stub.c:296-313 | writing back a dump of some registers sets exactly those |
| GdbRegisters.ReadShort | kernel/core/gdb_stub.c:296-312 | digits that end early leave the upper bytes of a register zero |
| GdbRegisters.ReadBad | kernel/core/gdb_stub.c:296-312 | behind k good pairs a bad one sets every bit above its lowest four, whatever follows |
| GdbRegisters.RegistersRoundTrip | kernel/core/gdb_stub.c:275-312 | a full dump written back restores all 24 registers |
| GdbRegisters.DumpRegisters | kernel/core/gdb_stub.c:275-294 | the dump as the loops produce it |
| GdbRegisters.DumpAt | kernel/core/gdb_stub.c:275-294 | byte j of register i stands as two digits at 16 * i + 2 * j of the dump |
| GdbRegisters.WriteRegisters | kernel/core/gdb_stub.c:296-312 | the register array after a write of any argument, short or malformed ones included |
| GdbBreakpoints.SetKeeps | kernel/core/gdb_stub.c:403-426 | setting keeps addresses distinct, counted and trapped, and the memory beneath unchanged |
| GdbBreakpoints.RemoveKeeps | kernel/core/gdb_stub.c:428-441 | so does removing |
| GdbBreakpoints.Codes | kernel/core/gdb_stub.c:403-441 | when each call fails, and what it leaves at the address |
| GdbBreakpoints.RunKeeps | kernel/core/gdb_stub.c:393-441 | over every sequence of calls memory with each active address replaced by its saved byte stays the same |
| GdbBreakpoints.MemoryRestored | kernel/core/gdb_stub.c:393-441 | when no breakpoint is left memory is what it was, and otherwise it differs at active addresses only |
| GdbBreakpoints.RemovingAllRestores | kernel/core/gdb_stub.c:428-441 | removing all, in any order, restores it |
| GdbBreakpoints.GdbStub.SetBreakpoint | kernel/core/gdb_stub.c:403-426 | memory, table, counter and code after a set |
| GdbBreakpoints.GdbStub.RemoveBreakpoint | kernel/core/gdb_stub.c:428-441 | the same after a removal |
| ModelRegistry.InitKeeps | kernel/ai/model_registry.c:120-156 | initialising keeps the registry's invariant |
| ModelRegistry.LoadKeeps | kernel/ai/model_registry.c:209-286 | so does a load, successful or not |
| ModelRegistry.LoadOutcome | kernel/ai/model_registry.c:209-286 | exactly when a load succeeds, which slot it takes, the size of its workspace and the gain in memory, when it activates, and that a failed one changes nothing |
| ModelRegistry.SwitchKeeps | kernel/ai/model_registry.c:432-473 | so does a switch; it succeeds exactly for a loaded model, which it makes the only active one, and changes nothing otherwise |
| ModelRegistry.UnloadKeeps | kernel/ai/model_registry.c:339-417 | so does an unload; it succeeds exactly for a loaded model, whose slot and memory it gives back, and changes nothing otherwise |
| ModelRegistry.UnloadHandsOver | kernel/ai/model_registry.c:357-376 | unloading the active model activates the lowest other loaded one, if there is one |
| ModelRegistry.ShutdownKeeps | kernel/ai/model_registry.c:163-182 | after a shutdown every slot is empty |
| ModelRegistry.RunInvariant | kernel/ai/model_registry.c:120-473 | after every sequence of calls: at most one active slot and it is active_id, one is active exactly when any is loaded, the counts, the memory sum and the heap blocks agree with the slots |
| ModelRegistry.Undisturbed | kernel/ai/model_registry.c:209-473 | a loaded model and its workspace stay in their slot until it is unloaded or the registry shut down |
| ModelRegistry.Manager.LoadModel | kernel/ai/model_registry.c:209-286 | state and code after a load, through the transient LOADING state |
| ModelRegistry.Manager.SwitchTo | kernel/ai/model_registry.c:432-473 | state and code after a switch |
| ModelRegistry.Manager.UnloadModel | kernel/ai/model_registry.c:339-417 | state and code after an unload |
| ModelRegistry.Manager.ShutDown | kernel/ai/model_registry.c:163-182 | the state after the shutdown loop |

## Left out

- ThreadPoolResults.CounterBound: the counters of the model are unbounded; the lemma says up to where a 32-bit counter must reach for the model to be exact.
- QuantFused.VecDotQ4KQ81: exact reals; rounding of float additions and of the fp16 scales is not modelled.
- QuantError.QuantizeRowQ81: the scale and the sum are stored as exact reals, not rounded to fp16.
- KvCache.Cache.Store: ends the model of a call at a write past the buffer; what that write does to other memory is not modelled.
- KvCache.Cache.StoreBatch: the same.
- KvHistory.SlidingWindowRefinesHistory: past the first eviction for 4-byte elements only, because with 2-byte elements it is false (`KvHistory.HistoryIff`). The fixed-point interface of the cache, which does check the element type, is left out.
- QuantFormats.ExtractEmbeddingQ4KTransposed: ends at the first read past the table; what the source would find there is not modelled.
- BpeTokenizer.Tokenizer.Encode: token scores are stored by the source and never used, and are left out; the allocations of `bpe_tokenizer_init` succeed.
- BpeRoundTrip.RoundTripIff: for texts without the bytes 0xC4, 0xA0 and 0xE2, which the markers are made of; all of ASCII is included. SentencePiece round trips are lossy by design and left out.
- GgufMetadata.MetadataParsed: lists of pairs that `PairParsedIff` characterises one by one; behind the first pair that is misread nothing is claimed but where the cursor can go. The narrowing of a double to a float is not computed.
- GdbBreakpoints.GdbStub.SetBreakpoint: the address lies in the modelled memory; the source dereferences any address. Memory writes by the debugger while breakpoints are set are left out.
- ModelRegistry.Manager.LoadModel: the model parser's and the allocator's answers are parameters; names, capabilities and timestamps are left out.
- `parallel_set_num_threads`, `parallel_shutdown` and a pool whose workers could not all be spawned: the protocol needs a fixed number of live threads.
- The attention and RMSNorm workers (`kernel/ai/parallel_inference.c`): the same distribution of items, around approximated exponentials and square roots.
- Weak memory: the barriers of the source are taken to give sequential consistency.
- The SSE2, AVX2 and NEON forms of the fused kernels, the Q2_K, Q5 and Q6_K formats, the transposed Q6_K extractor and `decode_k_scales`: other packings or other arithmetic than the scalar Q4_K and Q8_0 code.
- The chunked `matmul_stream`, `matmul_transposed_q8_0`, `matvec_neon` and `transpose`: loops around what is proved here, easier members of the same kind.
- GGUF header, tensor table and block-device loading; GGUF validation of the loaded model.
- GDB memory and single-register commands, command dispatch, serial ports.
- Ring and attention eviction as policies: `KvCache.EvictionCases` says what the code does for them; that the data do not follow a ring's start is not judged.
- Interrupt masking and timing, console output, benchmarks, shell commands, GPU back ends, the rest of the kernel.
