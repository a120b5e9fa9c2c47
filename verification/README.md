# Verification of the kllm serving core

A Dafny model of the kernel-integrated LLM serving engine, from the prompt bytes written to the
character device to the tokens read back from it: the eBPF tokenizer and the reference tokenizer,
the shared token ring, the KV cache (probe table over a slab allocator), the continuous-batching
scheduler, paged attention, token sampling, the response ring, and the wavefront fetch of KV blocks.

`dafny verify dfyconfig.toml` checks everything. Dafny 4.11.

## How the model is built

* Code that changes buffers, objects or counters in place is a method or a class over arrays and
  fields. Each such method is proved against a function on values (`SchedulerSpec.Step`,
  `CacheSpec.Insert`, `Bpe.Merged`, ...), and the properties are lemmas about those functions over
  every run.
* The two rings are also state machines whose steps are the single loads and stores of producer and
  consumer, interleaved in any order under sequential consistency. Unbounded histories stand behind
  the masked 32-bit indices.
* 32-bit wrap-around and masking are written out (`Bits.Wrap32`, `Bits.And`); masking is proved to be
  the remainder for powers of two. Bitmap words are 64-bit numbers with recursively defined bits.
* Inference results, dispatch decisions, the outcome of allocations, mappings, user copies and
  ioctls, the clock and the random draw are parameters. SHA-256 is an arbitrary function of the token
  prefix. Attention is over the reals, with any exponential function that is positive and turns sums
  into products.
* Floats in sampling are `NaN`, minus infinity, a real number or plus infinity, with C's comparison.

## Where a promised property fails, and when it holds

Each entry names the exact condition under which the property holds, and most name an input or a run
on which it fails.

* Tokenizer: the two tokenizers agree on a prompt if and only if at most 128 merges are needed
  (`Tokenizer.KernelEqualsReferenceIff`). 258 letters l need 129 with the benchmark's own table
  (`Tokenizer.TokenizersDiffer`). The rank order of merge results is needed
  (`Bpe.ResultOrderIsNeeded`).
* Reactor: the poller takes at most 256 tokens and treats each batch as a complete prompt. One poll is
  the whole prompt if and only if the prompt leaves at most 256 tokens, which never holds above 384
  bytes (`Reactor.OnePollIsPromptIff`); 385 equal bytes become two prompts
  (`Reactor.PromptSplitInTwo`). The polls together do yield the prompt (`Reactor.PollsYieldPrompt`).
* KV index: eviction leaves no tombstone, so lookup can miss a key that was inserted and never evicted
  (`CacheLoss.ResidentKeyLost`). In runs that evict nothing the index is a map
  (`CacheSpec.RunActsAsMap`). After any other call the answer for every key is given exactly
  (`CacheAnswers.RunAnswers`): an insert that evicts keeps another key that was found if and only if
  that key's path does not reach the victim's cell, or runs through it and the new entry takes that
  cell (`CacheAnswers.EvictingInsertKeepsIff`). From a table without holes, every resident key is
  still found if and only if the new entry takes the victim's cell, or no other resident has all its
  copies behind it (`CacheAnswers.EvictingInsertFindsAllIff`). A hole alone does not lose a key
  (`CacheLoss.HoleWithoutLoss`).
* Scheduler: `kllm_batch_create` zeroes the pool and zero means PREFILL, which `find_free_slot` never
  returns, so a freshly created scheduler never accepts a request
  (`SchedulerLiveness.ZeroedPoolNeverAccepts`). In every run a submission is accepted if and only if
  the requests in flight and the initially dead slots leave a slot over and its buffer can be allocated
  (`SchedulerLiveness.AcceptedIff`).
* Scheduler: left alone, it drains whatever inference returns if and only if it is idle, or the batch
  size is positive and every waiting prompt fits the prefill budget (`SchedulerLiveness.GoesIdleIff`).
  One prompt longer than the budget keeps it busy for ever (`SchedulerStarvation.LongPromptBlocks`).
* Scheduler: while requests keep coming, every request of every run on a pool of n slots ends within
  the steps it has left if and only if n is at most the batch size, and n prompts of maximum length fit
  the budget or the budget is 2^32 - 1 (`SchedulerStarvation.ServesAllIff`). Otherwise the request in
  the last slot can starve for any number of iterations (`SchedulerStarvation.RequestStarves`).
  In any pool a request ends if, at every iteration, the active requests up to its slot fit the batch
  and the prompts waiting up to it the budget (`SchedulerProgress.RequestEnds`).
* Scheduler: the prefill phase runs the longest prefix of the queue that fits the budget if and only if
  the 32-bit sum does not wrap around there (`SchedulerPolicy.PrefillsLongestFittingPrefix`). With the
  largest budget and 131072 submissions it does (`SchedulerStarvation.SumWrapsInRun`).
* Response ring: everything offered is accepted if and only if no token is offered to a full ring
  (`ResponseProtocol.NothingLostIff`).
* Response path: the device carries untagged words. A reader can split them back into the responses if
  and only if no token is the sentinel and no two requests send between two end marks
  (`ResponseStream.StreamSplitsIff`). One request at a time without failures is enough
  (`ResponseStream.OneAtATimeSplits`); two at a time are not
  (`ResponseStream.InterleavedDoesNotSplit`).
* GPU attention: only lane 0 rescales its accumulators. The components of the other lanes are right
  for all values if and only if the first scored token has the largest score
  (`Softmax.UnscaledRightIff`). Two tokens, the second scoring higher, are enough for a wrong component
  (`PagedAttention.KernelDiffersFromScalar`).
* Token ring: `kllm_ring_consume` does not look at the head. On an empty ring it returns a stale slot
  and leaves indices that claim a full ring (`TokenRing.Ring.Consume`).
* The comment in `kllm_ring.h` speaks of about 524,224 slots; the code rounds down to a power of two,
  which is what the model assumes.

## Model

| member | source | states |
|---|---|---|
| RingIndex.Slot | kernel/chardev/kllm_ring.h:54-57 | masking a 32-bit result with `slot_count - 1` is the remainder of the unbounded result, also after wrap-around |
| RingIndex.CountsAreExact | kernel/chardev/kllm_ring.h:60-87 | available and free computed from the masked indices are exactly the tokens in the ring and the places left; the full test succeeds exactly with all but one slot in use |
| RingIndex.FreePlusAvailable | kernel/chardev/kllm_ring.h:60-87 | free + available = slot_count - 1 for all indices |
| RingProtocol.StepKeepsInv | kernel/chardev/kllm_ring.h:67-98 | every producer and consumer step, with stale reads, keeps the ring consistent with what was published and delivered |
| RingProtocol.RunKeepsInv | kernel/chardev/kllm_ring.h:67-98 | so does every interleaving |
| RingProtocol.DeliveredIsPrefix | userspace/include/kllm_ring_user.h:51-91 | in every interleaving the tokens delivered, and those being copied, are a prefix of the tokens published |
| RingProtocol.UnreadSlotsUntouched | bpf/tokenizer.bpf.c:195-205 | in every interleaving no step changes a slot that holds an unread token |
| RingProtocol.StopsOnlyWhenFull | bpf/tokenizer.bpf.c:195-201 | the producer stops early exactly when all but one slot are undelivered at the moment it reads the tail |
| RingProtocol.AtRest | kernel/chardev/kllm_ring.h:60-87 | at rest available is the number of undelivered tokens and free + available = slot_count - 1 |
| RingProtocol.SingleReadSteps | userspace/include/kllm_ring_user.h:59-70 | a single read is the head read, one copy and the tail update of the consumer |
| RingProtocol.BatchDelivers | userspace/include/kllm_ring_user.h:73-91 | a batch read, with any producer steps in between, delivers the oldest min(available, max) tokens published when it read the head |
| RingProtocol.BatchEqualsSingles | userspace/include/kllm_ring_user.h:73-91 | in every interleaving it delivers the tokens and leaves the tail of that many single reads |
| TokenRing.Ring.constructor | kernel/chardev/llm_prompt.c:315-327 | a new ring is empty |
| TokenRing.Ring.FreeSlots | kernel/chardev/kllm_ring.h:60-65 | the number of tokens that still fit |
| TokenRing.Ring.Produce | kernel/chardev/kllm_ring.h:67-79 | appends the token, or reports full exactly when slot_count - 1 tokens wait |
| TokenRing.Ring.AvailableTokens | userspace/include/kllm_ring_user.h:50-57 | the number of tokens waiting |
| TokenRing.Ring.Consume | userspace/include/kllm_ring_user.h:59-70 | removes and returns the oldest waiting token; on an empty ring it returns a stale slot and the indices claim slot_count - 1 tokens |
| TokenRing.Ring.ConsumeBatch | userspace/include/kllm_ring_user.h:72-91 | removes the oldest min(available, max) tokens, in order, into the buffer and touches nothing beyond |
| TokenRing.Ring.PublishBatch | bpf/tokenizer.bpf.c:191-208 | appends the longest prefix that fits and bumps the sequence id |
| Bpe.Best | bpf/tokenizer.bpf.c:109-121 | the scan ends at the leftmost pair of lowest rank below 2^32 - 1, or finds none |
| Bpe.OnlyTopRankIgnored | bpf/tokenizer.bpf.c:107-121 | of two tokens the pair is chosen exactly when it is listed with a rank below 2^32 - 1 |
| Bpe.PassesOrStuck | bpf/tokenizer.bpf.c:106-136 | a bounded run ends with nothing left to merge, or after exactly that many merges; each merge removes one token |
| Bpe.FewerMergesThanTokens | bpf/tokenizer.bpf.c:106-136 | n tokens need fewer than n merges |
| Bpe.ScanPicksFirst | bpf/tokenizer.bpf.c:109-121 | once earlier pairs are gone, the scan picks the first occurrence of the next merge of the list |
| Bpe.SweepAbsorbsFirst | tests/bench_tokenizer.c:103-111 | merging the first occurrence beforehand does not change what a sweep returns |
| Bpe.MergedEqualsSweepFrom | tests/bench_tokenizer.c:99-113 | merging to the end equals the rank-ordered sweeps, for every well-formed table and every sequence without earlier pairs |
| Bpe.MergedEqualsSweepIff | bpf/tokenizer.bpf.c:179-182 | a bounded number of passes equals the sweeps if and only if that many merges are enough |
| Bpe.MergedPreservesBytes | bpf/tokenizer.bpf.c:126-133 | merging never changes the bytes a sequence stands for |
| Bpe.BenchmarkTableIsWellFormed | tests/bench_tokenizer.c:66-73 | the repository's own merge list meets the conditions of these results |
| Bpe.ResultOrderIsNeeded | tests/bench_tokenizer.c:99-113 | a table whose second merge yields an operand of the first makes the two tokenizers differ |
| Tokenizer.Scratch.FindBest | bpf/tokenizer.bpf.c:109-124 | finds that pair in the buffer, or that there is none |
| Tokenizer.Scratch.ReplacePair | bpf/tokenizer.bpf.c:126-133 | replaces the pair by the merged token and closes the gap |
| Tokenizer.Scratch.MergePass | bpf/tokenizer.bpf.c:95-137 | stops exactly when nothing can be merged, else merges the best pair |
| Tokenizer.Scratch.LoadBytes | bpf/tokenizer.bpf.c:166-177 | loads one token per byte for the first 2048 bytes |
| Tokenizer.Scratch.MergeLoop | bpf/tokenizer.bpf.c:179-182 | at most 128 merges |
| Tokenizer.Scratch.Tokenize | bpf/tokenizer.bpf.c:150-211 | the error cases, the tokens left in the buffer, the count returned, and the prefix published to the ring |
| Tokenizer.SweepTurn | tests/bench_tokenizer.c:103-111 | one turn of the in-place compaction |
| Tokenizer.SweepInPlace | tests/bench_tokenizer.c:99-113 | compacting in place computes the sweep |
| Tokenizer.UserspaceTokenize | tests/bench_tokenizer.c:86-119 | returns the sweeps of the first max_tokens bytes; nothing when the buffer cannot be allocated |
| Tokenizer.KernelEqualsReferenceIff | bpf/tokenizer.bpf.c:150-211 | both tokenizers return the same tokens for the first 2048 bytes exactly when at most 128 merges are needed, always for 129 bytes or fewer |
| Tokenizer.KernelTokensOfL | bpf/tokenizer.bpf.c:179-182 | with the benchmark's table, 2n letters l become n tokens 257 for every n up to 128, and min(2n, 2048) - 128 tokens are left for every larger n |
| Tokenizer.TokenizersDiffer | tests/bench_tokenizer.c:62-73 | with that table 258 letters l leave 130 tokens in the kernel and 129 in the reference |
| Tokenizer.KernelTokensDecode | bpf/tokenizer.bpf.c:166-182 | the tokens expand to the first min(len, 2048) bytes, and merging ended stuck or after exactly 128 merges |
| Tokenizer.ReferenceTokensDecode | tests/bench_tokenizer.c:94-118 | so do the reference tokenizer's tokens |
| Reactor.BatchesJoin | userspace/reactor/kllm_reactor.c:62-66 | cutting into batches of 256 loses and reorders nothing; there is one batch per started 256 tokens |
| Reactor.Reactor.Poll | userspace/reactor/kllm_reactor.c:56-95 | takes the oldest min(waiting, 256) tokens as one prompt and counts both; idle exactly on an empty ring |
| Reactor.Reactor.PollUntilIdle | userspace/reactor/kllm_reactor.c:52-96 | repeated polls take everything waiting, cut into those batches |
| Reactor.ServePrompt | bpf/tokenizer.bpf.c:150-211 | tokenizing and polling: the reactor sees what was waiting followed by the prompt's tokens that fit the ring, in batches; nothing for a rejected prompt |
| Reactor.TokenCount | bpf/tokenizer.bpf.c:166-182 | a prompt leaves min(len, 2048) tokens less the merges needed, at most 128 |
| Reactor.PollsYieldPrompt | userspace/reactor/kllm_reactor.c:52-66 | the polls of an idle ring with one prompt join to its tokens and expand to its first min(len, 2048) bytes |
| Reactor.OnePollIsPromptIff | userspace/reactor/kllm_reactor.c:62-73 | one poll is the whole prompt exactly when at most 256 tokens are left: always up to 256 bytes, never above 384 |
| Reactor.PromptSplitInTwo | userspace/reactor/kllm_reactor.c:72-73 | 385 equal bytes are dispatched as two prompts, for every table |
| ArenaAlloc.AlignUp | userspace/kvcache/arena_alloc.c:37-41 | the least multiple of the alignment that is large enough |
| ArenaAlloc.Create | userspace/kvcache/arena_alloc.c:43-123 | no arena exactly when no block rounded up to whole 4096-byte pages fits or mapping or allocation fails; else an empty arena of as many slots as fit, whose addresses all hold a block, inside the region and apart from one another |
| ArenaAlloc.BlocksDisjoint | userspace/kvcache/arena_alloc.c:196-201 | the pointers handed out: slot 0 is at the base, every slot whole slots behind it, each block ends before the next slot's address and before the end of the region, the last one included; no pointer for the index past the last slot |
| ArenaAlloc.NothingBeforeHint | userspace/kvcache/arena_alloc.c:30-31 | no slot before the hint's word is free |
| ArenaAlloc.Arena.constructor | userspace/kvcache/arena_alloc.c:100-120 | exactly the slots below total_slots are free |
| ArenaAlloc.Arena.TakeFirst | userspace/kvcache/arena_alloc.c:138-153 | a scan loop takes the lowest free slot of its range and changes no other slot |
| ArenaAlloc.Arena.Alloc | userspace/kvcache/arena_alloc.c:135-173 | returns the lowest-numbered free slot, found at or after the hint, or nothing exactly when none is free; keeps used_slots = alloc_count - free_count = allocated slots |
| ArenaAlloc.Arena.Release | userspace/kvcache/arena_alloc.c:175-188 | frees exactly the slot the pointer points into, keeps the hint invariant, and keeps the counters right for an allocated slot |
| ArenaAlloc.Arena.SlotIndex | userspace/kvcache/arena_alloc.c:190-194 | inverts the slot address |
| ProbeTable.Bucket | userspace/kvcache/cache_index.c:35-42 | the first four hash bytes as a little-endian number, modulo the capacity |
| ProbeTable.BucketOfBytes | userspace/kvcache/cache_index.c:35-42 | that number spelled out byte by byte, lowest first |
| ProbeTable.Probe | userspace/kvcache/cache_index.c:90-108 | the probe succeeds exactly when a copy of the key has an unbroken path, and returns the nearest |
| ProbeTable.FirstEmpty | userspace/kvcache/cache_index.c:148-154 | the first empty cell on the key's path |
| ProbeTable.FoundIffResident | userspace/kvcache/cache_index.c:87-109 | in a table without holes a probe finds exactly the resident keys |
| ProbeTable.FillKeepsNoHoles | userspace/kvcache/cache_index.c:148-163 | inserting leaves no hole on any probe path |
| ProbeTable.FillKeepsFound | userspace/kvcache/cache_index.c:148-163 | inserting does not change where a found key is found |
| ProbeTable.FillAnswers | userspace/kvcache/cache_index.c:148-163 | in any table, what a probe finds after an empty cell is filled: what it found before; else something new only if the cell was the first gap of its path, possibly an older copy behind it |
| ProbeTable.ClearLosesCrossingKeys | userspace/kvcache/cache_index.c:182-187 | clearing a cell loses exactly the keys whose path crosses it |
| CacheSpec.LoadTestIsExact | userspace/kvcache/cache_index.c:131-132 | the double comparison with 0.85 is 20 * occupied >= 17 * capacity |
| CacheSpec.Lru | userspace/kvcache/cache_index.c:111-126 | the scan's victim is occupied and has the oldest timestamp, the lowest cell of several, if any timestamp is below the maximum |
| CacheSpec.VictimIsOccupied | userspace/kvcache/cache_index.c:131-136 | in a crowded table the victim is a resident that owns an allocated slot |
| CacheSpec.RoomOnEveryPath | userspace/kvcache/cache_index.c:148-166 | below the load factor every probe path has an empty cell |
| CacheSpec.InsertOutcome | userspace/kvcache/cache_index.c:128-168 | an evicting insert never fails, another fails exactly when the arena is full and then changes nothing, the final fallback is unreachable |
| CacheSpec.InsertStores | userspace/kvcache/cache_index.c:141-163 | a successful insert writes one empty cell, with the key, the time, flags 0 and the lowest slot free then, and changes nothing else but the evicted entry |
| CacheSpec.InsertKeepsInv | userspace/kvcache/cache_index.c:128-168 | insert keeps ownership, the occupancy count and the load bound |
| CacheSpec.LookupKeepsInv | userspace/kvcache/cache_index.c:87-109 | so does lookup |
| CacheSpec.EvictKeepsInv | userspace/kvcache/cache_index.c:170-191 | so does evict, which returns true exactly when lookup would have answered, then frees that block, and otherwise changes nothing |
| CacheSpec.HitIsLive | userspace/kvcache/cache_index.c:100-104 | a hit yields an allocated slot stored under exactly the hash asked for |
| CacheSpec.AlwaysAnEmptyCell | userspace/kvcache/cache_index.c:131-139 | capacities of 8 or more always keep an empty cell |
| CacheSpec.RunKeepsInv | userspace/kvcache/cache_index.c:87-191 | in every run occupied entries and allocated slots are in one-to-one correspondence and `occupied` is their number |
| CacheSpec.OwnsCount | userspace/kvcache/cache_index.c:193-198 | the number of allocated slots is the number of occupied entries |
| CacheSpec.LookupActs | userspace/kvcache/cache_index.c:87-109 | lookup answers like a map and changes no answer |
| CacheSpec.InsertActs | userspace/kvcache/cache_index.c:141-163 | an insert that evicts nothing adds the key to that map, keeping the first block of a key already there |
| CacheSpec.RunActsAsMap | userspace/kvcache/cache_index.c:87-191 | in every run that takes nothing out, evict calls that find nothing included, lookup finds a key if and only if it was inserted, and returns its first block |
| CacheSpec.EvictAnswers | userspace/kvcache/cache_index.c:170-191 | after an eviction by key, exactly the keys whose path does not cross the cell keep their block; the others are lost |
| CacheAnswers.InsertAnswersAll | userspace/kvcache/cache_index.c:128-168 | the answer for every key after any insert, with or without eviction, in terms of the table before |
| CacheAnswers.RunAnswers | userspace/kvcache/cache_index.c:87-191 | in every run, after every call, the answer for every key in terms of the state before the call |
| CacheAnswers.EvictingInsertKeepsIff | userspace/kvcache/cache_index.c:131-163 | in every run, an insert that evicts keeps another key's block exactly when its path does not reach the victim's cell, or runs through it and the new entry takes that cell |
| CacheAnswers.EvictingInsertLoses | userspace/kvcache/cache_index.c:131-163 | a key whose path crosses the victim's cell is lost when the new entry goes elsewhere |
| CacheAnswers.EvictingInsertKeepsNoHolesIff | userspace/kvcache/cache_index.c:131-163 | a table without holes stays without holes exactly when the new entry takes the victim's cell or no other path runs through it |
| CacheAnswers.EvictingInsertFindsAllIff | userspace/kvcache/cache_index.c:131-163 | from a table without holes, every resident key is still found exactly when the new entry takes the victim's cell or no other resident has all its copies behind it |
| CacheLoss.HoleWithoutLoss | userspace/kvcache/cache_index.c:148-163 | a table with a hole in which every resident key is found, since a key can be stored twice |
| CacheLoss.ResidentKeyLost | userspace/kvcache/cache_index.c:131-163 | a run of nine calls on eight cells after which a resident key, never evicted, is not found |
| CacheSpec.StampedWithLastTouch | userspace/kvcache/cache_index.c:100-103 | in every run an entry carries the time of its block's latest insert or hit |
| CacheSpec.EvictsLeastRecentlyUsed | userspace/kvcache/cache_index.c:111-139 | with an increasing clock the evicted block is the one whose latest insert or hit in the whole run is oldest |
| CacheStats.RunCounts | userspace/kvcache/cache_index.c:97-186 | in every run hits, misses, insertions and evictions count exactly the lookups that answered, those that did not, the inserts that returned a block, and the inserts and evicts that took an entry out; occupied is insertions less evictions |
| CacheIndex.Create | userspace/kvcache/cache_index.c:50-77 | refuses exactly the capacities that are not powers of two and failed allocations; else an empty index |
| CacheIndex.Index.constructor | userspace/kvcache/cache_index.c:61-76 | all cells empty, nothing allocated |
| CacheIndex.Index.Find | userspace/kvcache/cache_index.c:90-105 | the probe loop computes the probe |
| CacheIndex.Index.Lookup | userspace/kvcache/cache_index.c:87-109 | refines the lookup of the state machine, block address included |
| CacheIndex.Index.FindLru | userspace/kvcache/cache_index.c:111-126 | computes the victim |
| CacheIndex.Index.Clear | userspace/kvcache/cache_index.c:134-138 | frees the cell's block and marks the cell empty, arena and index together |
| CacheIndex.Index.MakeRoom | userspace/kvcache/cache_index.c:131-139 | evicts the victim exactly when the load factor is reached |
| CacheIndex.Index.Store | userspace/kvcache/cache_index.c:141-163 | allocates the lowest free slot and stores it in the first empty cell of the key's path |
| CacheIndex.Index.Insert | userspace/kvcache/cache_index.c:128-168 | refines the insert of the state machine and keeps the two-object invariant |
| CacheIndex.Index.Evict | userspace/kvcache/cache_index.c:170-191 | refines the evict of the state machine and keeps the two-object invariant |
| CacheIndex.Index.Occupancy | userspace/kvcache/cache_index.c:193-198 | index occupancy equals the arena's used_slots |
| SchedulerSpec.FirstDone | userspace/reactor/batch_scheduler.c:91-103 | the first DONE slot, idle or any, or none |
| SchedulerSpec.Queue | userspace/reactor/batch_scheduler.c:137-152 | exactly the slots holding a request in that phase, in slot order |
| SchedulerSpec.SubmitKeepsInv | userspace/reactor/batch_scheduler.c:107-135 | submitting keeps ids distinct, counts right and responses untouched; a refused submission changes nothing |
| SchedulerSpec.DecodeSlotKeepsInv | userspace/reactor/batch_scheduler.c:173-230 | a decode step keeps counts right and every client's response faithful, on every branch |
| SchedulerSpec.RetireSlotKeepsInv | userspace/reactor/batch_scheduler.c:278-287 | retiring keeps the active count the number of non-zero ids |
| SchedulerSpec.StepKeepsInv | userspace/reactor/batch_scheduler.c:232-290 | an iteration keeps all of it and leaves no finished request in the pool |
| SchedulerSpec.RunKeepsInv | userspace/reactor/batch_scheduler.c:107-290 | so does every run, whatever inference and dispatch return |
| SchedulerSpec.Conservation | userspace/reactor/batch_scheduler.c:131-132 | in every run active is the number of ids, ids are distinct, and total = completed + failed + active |
| SchedulerSpec.ResponsesAreFaithful | userspace/reactor/batch_scheduler.c:203-225 | in every run a completed request's client got its generated tokens in order and one end mark, preceded at maximum length by one unappended token |
| SchedulerPolicy.PrefillsLongestFittingPrefix | userspace/reactor/batch_scheduler.c:241-254 | the prefill phase runs exactly the longest prefix of the queue that fits the budget, if and only if the 32-bit sum does not wrap at the prompt behind it |
| SchedulerPolicy.PrefilledAt | userspace/reactor/batch_scheduler.c:154-171 | prefilling a prefix of the queue moves exactly those slots to decode with their dispatched targets |
| SchedulerPolicy.SumWraps | userspace/reactor/batch_scheduler.c:244-253 | with the largest budget, 131072 queued prompts of maximum length wrap the sum |
| SchedulerPolicy.DecodesEachOnce | userspace/reactor/batch_scheduler.c:271-276 | the decode phase takes each request of the batch one step and leaves other slots alone |
| SchedulerPolicy.IterationPolicy | userspace/reactor/batch_scheduler.c:232-276 | both, for every iteration of every run and every 32-bit budget, with at most max_batch_size decodes |
| SchedulerOutcome.DecodeOutcome | userspace/reactor/batch_scheduler.c:173-230 | which inference result decides a step (the GPU's for target GPU, failure without one; the CPU's for target CPU, or the GPU's exactly when that fails and there is a GPU, and then the target is GPU), and the four outcomes failed, ended, appended and maximum length: slot, events sent, counters |
| SchedulerOutcome.StepOutcome | userspace/reactor/batch_scheduler.c:232-290 | the same for a whole iteration and any request of its batch, whatever the others do: the slot after retirement and what its client is sent, with the dispatched target if it is prefilled in that iteration |
| SchedulerOutcome.StepCounts | userspace/reactor/batch_scheduler.c:228-275 | an iteration counts as many generated tokens as it sends |
| SchedulerOutcome.GeneratedIsSent | userspace/reactor/batch_scheduler.c:228-229 | in every run the counter of generated tokens is the number of tokens sent |
| SchedulerOutcome.IdsInOrder | userspace/reactor/batch_scheduler.c:126-132 | in every run the n-th accepted request gets id n |
| SchedulerLiveness.DeadStaysDead | userspace/reactor/batch_scheduler.c:89-105 | no call brings a dead slot back or makes a usable one dead |
| SchedulerLiveness.AcceptedIff | userspace/reactor/batch_scheduler.c:107-135 | in every run a submission is accepted exactly when active requests and initially dead slots leave a slot over and the buffer can be allocated; then the lowest idle slot holds it under the next id, keeping its target, and nothing else changes but the three counters |
| SchedulerLiveness.ZeroedPoolNeverAccepts | userspace/reactor/batch_scheduler.c:62-62 | a pool created zeroed never accepts a request |
| SchedulerLiveness.DonePoolAcceptsWhileRoom | userspace/reactor/batch_scheduler.c:107-116 | a pool of DONE slots accepts exactly while active < max_requests |
| SchedulerLiveness.StepLowersMeasure | userspace/reactor/batch_scheduler.c:232-290 | an iteration with work strictly lowers the sum over active requests of the steps left, for any inference results |
| SchedulerLiveness.GoesIdle | userspace/reactor/batch_scheduler.c:232-295 | the scheduler goes idle within that many iterations |
| SchedulerLiveness.NeverIdle | userspace/reactor/batch_scheduler.c:245-276 | a prompt over the budget, or batch size zero, keeps it busy for ever |
| SchedulerLiveness.GoesIdleIff | userspace/reactor/batch_scheduler.c:232-295 | in every run it drains whatever inference returns if and only if it is idle, or batch size is positive and waiting prompts fit the budget |
| SchedulerProgress.StepServes | userspace/reactor/batch_scheduler.c:232-290 | an iteration with room for the requests up to a slot ends the request there or lowers the steps it has left, whatever the other slots hold |
| SchedulerProgress.RequestEnds | userspace/reactor/batch_scheduler.c:107-290 | in every run with submissions, a request has ended after as many iterations as it had steps left, if at each of them the active requests up to its slot fit the batch and the prompts waiting up to it the budget |
| SchedulerProgress.AmplePoolServesAll | userspace/reactor/batch_scheduler.c:107-290 | so has every request of a pool no larger than the batch, with budget for that many prompts of maximum length or of all 32 bits |
| SchedulerStarvation.RequestStarves | userspace/reactor/batch_scheduler.c:137-152 | for every other pool and every k, a run in which the request in the last slot has not ended after k iterations |
| SchedulerStarvation.ServesAllIff | userspace/reactor/batch_scheduler.c:107-290 | every request of every run on a pool of n slots ends within the steps it has left exactly when the pool is ample in that sense |
| SchedulerStarvation.SubmitAt | userspace/reactor/batch_scheduler.c:89-135 | a submission takes the first idle slot and changes no other |
| SchedulerStarvation.LongPromptBlocks | userspace/reactor/batch_scheduler.c:245-254 | a run that never drains: one prompt longer than the budget |
| SchedulerStarvation.SumWrapsInRun | userspace/reactor/batch_scheduler.c:244-253 | a run that reaches a queue on which the sum wraps |
| Scheduler.Scheduler.FindFreeSlot | userspace/reactor/batch_scheduler.c:89-105 | an idle DONE slot first, left as it is; else any DONE slot, entirely zeroed |
| Scheduler.Scheduler.FillSlot | userspace/reactor/batch_scheduler.c:122-134 | the claimed slot holds the prompt under the next id, and the counters move by one |
| Scheduler.Scheduler.Submit | userspace/reactor/batch_scheduler.c:107-135 | refines the submission of the state machine, id and failed allocation included |
| Scheduler.Scheduler.Enqueue | userspace/reactor/batch_scheduler.c:143-150 | one slot goes to the queue of its phase, if any |
| Scheduler.Scheduler.RebuildQueues | userspace/reactor/batch_scheduler.c:137-152 | both queues list exactly the waiting slots, in order |
| Scheduler.Scheduler.RunPrefill | userspace/reactor/batch_scheduler.c:154-171 | moves the request to decode with the dispatched target |
| Scheduler.Scheduler.RunDecodeStep | userspace/reactor/batch_scheduler.c:173-230 | refines the decode step: escalation, failure, end of sequence, append, maximum length; returns 1 exactly when a token was generated |
| Scheduler.Scheduler.PrefillLoop | userspace/reactor/batch_scheduler.c:245-254 | refines the prefill phase |
| Scheduler.Scheduler.DecodeLoop | userspace/reactor/batch_scheduler.c:266-276 | refines the decode phase and counts its tokens |
| Scheduler.Scheduler.RetirePhase | userspace/reactor/batch_scheduler.c:278-287 | refines the retire loop |
| Scheduler.Scheduler.Step | userspace/reactor/batch_scheduler.c:232-290 | refines a whole iteration, keeps the invariant, and returns the tokens generated |
| WarpDot.LaneDot | userspace/gpu/paged_attention.cu:72-78 | a lane adds every w-th product from its own on |
| WarpDot.LanesCoverAll | userspace/gpu/paged_attention.cu:74-78 | the lanes together add every product once |
| WarpDot.Shuffle | userspace/gpu/paged_attention.cu:80-82 | one shuffle folds the upper half of the lanes in use into the lower half |
| WarpDot.WarpReduce | userspace/gpu/paged_attention.cu:80-82 | lane 0 ends with the sum over the warp, for every power-of-two width |
| WarpDot.WarpDotProduct | userspace/gpu/paged_attention.cu:72-84 | lane 0 holds the dot product of the scalar loop, for every vector length |
| Softmax.OnlineSumIsExpSum | userspace/gpu/paged_attention.cu:86-91 | the running sum is the sum of exponentials relative to the running maximum |
| Softmax.OnlineAccIsNumerator | userspace/gpu/paged_attention.cu:86-105 | the rescaled accumulator is the weighted sum relative to the running maximum |
| Softmax.OnlineEqualsTwoPass | userspace/compute/ace_attention.c:99-131 | for any scores and values the online recurrence gives the two-pass result |
| Softmax.TwoPassIsSoftmax | userspace/compute/ace_attention.c:113-131 | the two-pass result is the sum of exp(x) v over the sum of exp(x): subtracting the maximum changes nothing |
| Softmax.UnscaledAgrees | userspace/gpu/paged_attention.cu:96-105 | without rescaling the result is the same when the first score is the largest |
| Softmax.UnscaledRightIff | userspace/gpu/paged_attention.cu:87-105 | without rescaling the result is right for all values if and only if no score exceeds both the first and -1e20 |
| Softmax.UnscaledWrong | userspace/gpu/paged_attention.cu:87-105 | with scores 0 and 1 and values 1 and 0 it is wrong |
| PagedAttention.AddValue | userspace/gpu/paged_attention.cu:100-105 | a lane adds the weighted value to exactly the components it keeps |
| PagedAttention.UpdateLane | userspace/gpu/paged_attention.cu:86-105 | one step of the recurrence in every register, rescaled in lane 0 only |
| PagedAttention.ScoreToken | userspace/gpu/paged_attention.cu:70-106 | a scored token, scaled, advances the recurrence of the whole warp |
| PagedAttention.ScoreIs | userspace/gpu/paged_attention.cu:72-84 | a score is the scale times the sum of q[d] k[d], for every scale, dimension and token |
| PagedAttention.TwoPassIsAttention | userspace/compute/ace_attention.c:99-131 | two-pass attention over the scores is the quotient of the sums of exp(scale q.k) v and exp(scale q.k), written without scores or a maximum; zero without tokens |
| PagedAttention.ScoreBlock | userspace/gpu/paged_attention.cu:55-107 | a valid page contributes its tokens, an invalid one nothing |
| PagedAttention.PagedAttentionKernel | userspace/gpu/paged_attention.cu:24-119 | every component written is the online softmax over the tokens of the valid pages; those that lane 0 keeps are attention, exp(scale q.k) v summed over exp(scale q.k) summed; components beyond the registers are zero |
| PagedAttention.PagesInOrder | userspace/gpu/paged_attention.cu:43-70 | with all pages valid these are the tokens of the sequence, in order |
| PagedAttention.ScoredAt | userspace/gpu/paged_attention.cu:55-70 | with invalid pages among them, the tokens of a valid page follow those of the valid pages before it, in order, and an invalid page adds none |
| PagedAttention.ScorePass | userspace/compute/ace_attention.c:99-111 | each score is the scale times the inner product; the maximum is one of them and at least as large as all |
| PagedAttention.SoftmaxPass | userspace/compute/ace_attention.c:113-120 | the normalised weights |
| PagedAttention.WeightedSum | userspace/compute/ace_attention.c:124-130 | one component of the weighted sum |
| PagedAttention.Components | userspace/compute/ace_attention.c:122-131 | the component loop |
| PagedAttention.AttentionScalar | userspace/compute/ace_attention.c:94-132 | every component is that quotient, for one head and query |
| PagedAttention.KernelMatchesScalar | userspace/gpu/paged_attention.cu:109-118 | the kernel's lane-0 components equal the scalar attention and that quotient; all components do when the first score is the largest |
| PagedAttention.KernelDiffersFromScalar | userspace/gpu/paged_attention.cu:96-105 | a query and two tokens on which lane 1 of a warp of two writes another component |
| Sampling.SampleGreedy | userspace/decode/decode_loop.c:59-71 | the lowest index with the largest logit, for every vector; 0 if none exceeds minus infinity |
| Sampling.GreedyUnique | userspace/decode/decode_loop.c:59-71 | that determines the token |
| Sampling.BubbleUp | userspace/decode/decode_loop.c:137-147 | the new entry moves up past everything smaller, the rest keeps its order, value and index together |
| Sampling.InsertKeepsTopK | userspace/decode/decode_loop.c:133-149 | inserting behind everything not smaller keeps the first k candidates of the prefix |
| Sampling.TopKScan | userspace/decode/decode_loop.c:128-149 | the arrays end with the first k candidates in stable descending order, values matching indices |
| Sampling.TopKIsSortPrefix | userspace/decode/decode_loop.c:119-149 | for NaN-free logits that list is a prefix of every stable descending sort of the vocabulary |
| Sampling.EnoughCandidates | userspace/decode/decode_loop.c:128-149 | with k entries above minus infinity the list has k entries |
| Sampling.SampleTemperature | userspace/decode/decode_loop.c:73-111 | greedy at temperature zero or below and when memory is short; else the first index whose cumulative probability reaches the draw, or the last; always an index of a non-empty vocabulary |
| Sampling.SampleTopK | userspace/decode/decode_loop.c:113-157 | greedy at temperature zero or below and when either allocation fails; otherwise the first k candidates' entry at the drawn position, index 0 beyond their end; the draw from all logits for k = 0 or k at least the vocabulary; always an index of the vocabulary |
| Sampling.SampleToken | userspace/decode/decode_loop.c:159-185 | at temperature zero or below every method returns the greedy token; above it temperature and top-p return the draw from all logits, top-k the draw from the first k candidates; always an index of the vocabulary |
| Sampling.DrawnUnique | userspace/decode/decode_loop.c:97-107 | the cumulative sums and the draw determine the index |
| SoftmaxDraw.CumulativeIsPortion | userspace/decode/decode_loop.c:84-103 | for finite logits the cumulative sums are the portions of the softmax at the temperature, whatever maximum is subtracted |
| SoftmaxDraw.DrawSelects | userspace/decode/decode_loop.c:97-107 | a draw from 0 to 1 selects token t exactly in an interval as long as exp(x_t / T) over the sum of all; the last token is never taken by default |
| SoftmaxDraw.DrawToken | userspace/decode/decode_loop.c:79-111 | the maximum, exponential, normalising and cumulative loops return the token so drawn |
| ResponseProtocol.CopyIndexWraps | kernel/chardev/llm_prompt.c:181-200 | the one or two stretches of a read are the ring positions after the tail |
| ResponseProtocol.StepKeepsInv | kernel/chardev/llm_prompt.c:77-207 | every produce and every part of a read, faults included, keeps the ring consistent with its history |
| ResponseProtocol.ReadIsPrefix | kernel/chardev/llm_prompt.c:177-206 | in every interleaving with the unlocked copy, the data read is a prefix of the accepted tokens |
| ResponseProtocol.DroppedOnlyWhenFull | kernel/chardev/llm_prompt.c:78-89 | a token is dropped exactly when all but one slot are unread |
| ResponseProtocol.NothingLostIff | kernel/chardev/llm_prompt.c:67-89 | in every interleaving everything offered was accepted exactly when no token was offered to a full ring, and then the reader has a prefix of it |
| ResponsePath.Device.Produce | kernel/chardev/llm_prompt.c:77-89 | appends the token unless all but one slot are unread |
| ResponsePath.Device.Ioctl | kernel/chardev/llm_prompt.c:262-286 | -14, -22 above 256 tokens and -25 in that order, the tokens or the sentinel 0xFFFFFFFF offered, and the prefix of them that fits |
| ResponsePath.Device.EmitAll | kernel/chardev/llm_prompt.c:274-275 | offers all tokens in order; those that fit are kept |
| ResponsePath.Device.Read | kernel/chardev/llm_prompt.c:155-207 | removes the oldest min(unread, max) tokens in order, across the wrap, and returns their bytes; a fault in either copy returns -EFAULT, an empty ring -EAGAIN, and both leave everything unread |
| ResponsePath.ResponseEmit | userspace/reactor/kllm_response.c:46-67 | offers exactly the original sequence in order when no ioctl fails, and the ring keeps the prefix that fits; on a failure -14 and exactly the whole chunks of 256 before it |
| ResponseStream.SplitsIff | kernel/chardev/llm_prompt.c:262-286 | for every orderly log: the words split back into the responses exactly when no token is the sentinel and no two requests send between two end marks |
| ResponseStream.EndedIsCompleted | userspace/reactor/batch_scheduler.c:207-225 | in every run a request whose end mark was sent has completed, and exactly its generated tokens were sent |
| ResponseStream.StreamSplitsIff | userspace/reactor/batch_scheduler.c:207-225 | the same for every run, in terms of what the completed requests generated |
| ResponseStream.OneAtATimeSplits | userspace/reactor/batch_scheduler.c:207-225 | with one request in flight at a time, none failed and no sentinel token, the reader recovers every response |
| ResponseStream.ReaderRecovers | kernel/chardev/llm_prompt.c:155-207 | through a response ring that is never full when a token is offered, a reader has at any time recovered the first responses in full |
| ResponseStream.InterleavedDoesNotSplit | kernel/chardev/llm_prompt.c:278-281 | a run with two requests in flight whose stream does not split |
| Wavefront.InitBlockTable | userspace/compute/infer_gpu.c:76-78 | the first block is at the region's start, each next one a block size further, the last one ends inside the region |
| Wavefront.DescriptorFields | userspace/compute/infer_gpu.c:113-126 | the same of the descriptors' addresses; each has the key of everything up to its block's end, the size modulo 2^32, and all layers from 0 |
| Wavefront.FillDesc | userspace/compute/infer_gpu.c:113-126 | the key of the covered prefix and the block's address |
| Wavefront.FetchKvBlocks | userspace/compute/infer_gpu.c:99-142 | the submitted wavefronts concatenate to one descriptor per block in order, none empty or over 64 blocks, all but the last full; a failed submission leaves exactly the earlier full ones |
| Wavefront.BuildKvFetch | userspace/gpu/nvme_ep_wavefront.c:113-145 | the descriptors of the first 64 blocks |
| Wavefront.BuildersAgree | userspace/gpu/nvme_ep_wavefront.c:113-145 | run on one sequence, the two builders produce the same key, address and size for every block; the single wavefront is the first 64 of them |
| Wavefront.LastKeyIsLookupKey | userspace/compute/infer_cpu.c:51-55 | the last block's key is the key the CPU path looks up |
| Wavefront.SharedKeysIff | userspace/gpu/nvme_ep_wavefront.c:102-112 | with an injective hash two sequences share a key exactly for the same block of both, among the first common/perBlock, or anywhere if the sequences are equal; one direction for every hash |
| Wavefront.KeysDistinct | userspace/gpu/nvme_ep_wavefront.c:106-108 | with an injective hash no two blocks of a sequence share a key |

## Left out

- RingProtocol: weak-memory effects of the fences, and several producers or several consumers, which the protocol does not support.
- ResponseProtocol: several concurrent readers; waiting and wake-ups in read() and poll().
- Reactor.Reactor.Poll: what is done with a batch (hashing is a stub, lookup and dispatch are modelled elsewhere), and polls that overlap the producer, which RingProtocol covers.
- CacheIndex.Create: capacity zero, which passes the power-of-two test; the index assumes a positive capacity and that it is the arena's only user.
- CacheIndex.Index.Insert: timestamps of 2^64 - 1; the monotonic clock is assumed below that.
- CacheIndex.Index.Lookup: the same.
- ArenaAlloc.Arena.Release: a pointer outside the arena; the 64-bit counters are unbounded.
- Scheduler.Scheduler.Submit: 32-bit wrap-around of the request id, and prompts longer than the 32768-token buffer, which the source does not check.
- SchedulerSpec.SubmitKeepsInv: prompts longer than that buffer.
- SchedulerSpec.ResponsesAreFaithful: speaks of what is offered to the response path; what a full response ring drops is stated by ResponseProtocol.DroppedOnlyWhenFull.
- SchedulerSpec: statistics that are only displayed (current queue and batch sizes, iteration count), timestamps, priority and the preempted flag, which nothing reads.
- Softmax: floating-point rounding, expf and BF16 conversion.
- PagedAttention: memory layout, grouped-query head mapping, the HIP and Xe variants of the kernel, and the SIMD variants of the scalar code.
- Sampling.SampleTemperature: the random draw; whether it reaches each cumulative sum is a parameter. SoftmaxDraw gives the parameter for finite logits over the reals, not for NaN and infinities.
- SoftmaxDraw: floating-point rounding of the probabilities and of their sum.
- Wavefront.FetchKvBlocks: 32-bit overflow of the prefix length in tokens, and waiting for completions, since the poll function is a stub that never reports one.
- SHA-256 is an arbitrary function; injectivity is a hypothesis of two lemmas only.
- The byte layout inside a KV block and the OCP MX scales: arithmetic on sizes that would only add easy members.
- mmap, NUMA binding, SPDK start-up, GPU back-end loading, weight loading, tracing, the dispatch counters and the latency benchmarks.
