# Verified model of the inference engine's core

A Dafny 4.11 model of the parts of this repository whose correctness is hardest to see from one function at a
time, with machine-checked proofs. `dafny verify dfyconfig.toml` checks everything.

What is modelled, and the main results:

- **The tiered, paged KV cache** (`Residency`, `LruLinks`, `CacheModel`, `PagedKVCache`). The class keeps the
  source's fields: page buffers, page states, the linked list in index vectors, `hot_count`, the cold file. It is
  proved to refine a plain map from (layer, kv_head, position) to a pair of vectors, under any page limit and any run
  of operations, also when another cache of the process appends to the same file. The hot pages are always the
  most recently used ones, every victim is the least recently used one, and a larger limit never keeps less.
- **Attention over the pages** (`Attention`): the page-by-page loops compute scaled dot-product attention over that map,
  characterised by its weights, and panic exactly when the pages needed do not fit the limit.
- **Prefill and decode** (`Network`, `Executor`): both run on the real cache class and are proved against one recursive,
  causal definition of the network that has no cache and no loop order, and that definition against the layer equations
  number by number. From that: batched prefill equals token-by-token decode, and `generate` yields the autoregressive
  sequence.
- **Quantised kernels** (`QuantFormats`, `QuantBlocks`, `HalfFloats`, `Q4Kernels`, `Q6Kernels`): the row-outer, block-outer
  batched and multi-matrix Q4_K kernels equal "dequantise, then dot product"; the Q6_K kernel does exactly when it reads
  no zero or subnormal block scale that matters. Dequantisation undoes an encoder in plain arithmetic. Bytes are 8-bit
  vectors with the source's shifts and masks.
- **Parallel drivers** (`LinearDrivers`): the row partition is exact for any number of threads, and any order of
  completion gives the same product. `WeightedNet` plugs them and the rotary embedding into the network of `Executor`.
- **GGUF** (`DTypes`, `GgufFormat`, `GgufLayout`, `GgufTheorems`, `GgufFile`): the parser is proved to be a pure reading
  function; that function inverts an encoder written from the GGUF specification ("File Structure"), whose bytes are
  given number by number, rejects every truncated header, and leads to every payload.
- **Integer kernels** (`Int8Dot`, `Q16Softmax`): lanes are 32-bit registers that wrap; the exact conditions under which
  the results are right are proved both ways.
- **Tensor layout, sampler, rotary embedding** (`TensorLayout`, `Sampling`, `Rope`).

Conventions. `f32` is `real`; `exp`, `cos`, `sin`, the half crate's decoding of an `f16` and the UTF-8 repair of strings
are parameters, with the properties the proofs use stated as preconditions (`ExpLike`, `PositiveExp`, `ExpCore`,
`Circular`, `IsHalf`, `ValidString`). `usize` is unbounded except where wrap-around matters: the RAM budget, GGUF byte
counts and offsets are computed modulo 2^64, the integer kernels modulo 2^32. A panic or an error return is a result, not a precondition,
unless the source leaves the check to its caller. A limit of 0 pages behaves like 1, as in the code.

Properties that turned out false, with the exact condition proved: a range of pages is hot afterwards only if it is
no longer than the limit (`Residency.RangeResidentIff`); the vector form of the fixed-point softmax loses a
probability of 1.0 exactly when the maximum stands alone in a whole group of 16 with every other logit more than 655360
below it (`Q16Softmax.SoftmaxKernel`, failing input in `LosesTheMaximum`); its outputs keep the order of the logits
exactly when no difference to the maximum overflows, or every logit is the maximum or overflows, or the sum of the
exponentials exceeds 2^32 (`Q16Softmax.SoftmaxKernel`, failing input in `OrderCanBreak`); rotary scores depend on the
distance of two positions only within the context (`Rope.HeldDistanceExactly`, `Rope.SameScoresExactly`, failing input in
`Rope.PastTheContext`); the Q6_K kernel agrees with the dequantiser only if it reads the block scales right
(`Q6Kernels.KernelExactly`, failing input in `Q6Kernels.ZeroScaleFails`); the unguarded row ranges
(`LinearDrivers.UnguardedExactly`); the 8-bit dot product above 131071 elements (`Int8Dot.ExactWhenItFits`); the byte
count of IQ4_XS tensors, always eight times too large for whole blocks (`DTypes.EightTimesIq4Xs`).

## Model

| member | source | states |
|---|---|---|
| `Residency.HotIsMostRecent` | swamp-engine/src/cache.rs:211-323 | Stack property: after any trace of page accesses from an empty cache, under any limit, the hot list is exactly the first min(limit, allocated) pages of the order of last use, an order in which no limit occurs |
| `Residency.RecencyOrderIsByLastUse` | swamp-engine/src/cache.rs:161-187 | In that order, a page stands before another only if it was used at a moment after which the other was never used again |
| `Residency.ColdPagesAreLeastRecent` | swamp-engine/src/cache.rs:211-242 | Every hot page has been used since the last use of every cold page |
| `Residency.EveryVictimIsLeastRecent` | swamp-engine/src/cache.rs:211-215 | Every page that is ever evicted, also by the later allocations of one access that allocates several pages, is the hot page whose last use is the oldest at that moment |
| `Residency.AllocSomeIsRun` | swamp-engine/src/cache.rs:307-313 | The states between the allocations of one access are themselves states of a run, so what holds of every run holds there too |
| `Residency.LargerLimitKeepsMore` | swamp-engine/src/cache.rs:307-323 | Inclusion: on one trace the hot list under a smaller limit is a prefix of that under a larger one, so a larger limit never loses a page that a smaller one keeps |
| `Residency.AccessKeepsWellFormed` | swamp-engine/src/cache.rs:307-323 | One access keeps the hot list duplicate-free, within the allocated pages and of length exactly min(allocated, max(1, limit)), allocates just up to the page, and leaves the page at the head |
| `Residency.RangeFront` | swamp-engine/src/cache.rs:327-331 | After a range access the hot list starts with the last min(range, max(1, limit)) pages of the range, latest first, even when pages are allocated and evicted on the way |
| `Residency.RangeResidentIff` | swamp-engine/src/cache.rs:324-331 | A range access leaves its whole range hot if and only if the range is not longer than max(1, limit); the comment on the function does not name that condition |
| `LruLinks.EncodingIsUnique` | swamp-engine/src/cache.rs:161-207 | Head, tail and the two link vectors determine the recency list: no two lists have the same encoding |
| `LruLinks.InsertEncodes` | swamp-engine/src/cache.rs:147-155 | Linking a page that is on no list in front of the head encodes that page followed by the old list |
| `LruLinks.RemoveEncodes` | swamp-engine/src/cache.rs:190-208 | Unlinking a page encodes the old list without it, and empties its links |
| `LruLinks.TouchEncodes` | swamp-engine/src/cache.rs:161-187 | The pointer updates of touch_lru on a page that is not the head encode move-to-front of the old list |
| `LruLinks.EncodedList` | swamp-engine/src/cache.rs:130-207 | Place by place: next and prev of a listed page are its neighbours, head and tail the ends, and a page off the list has no links |
| `CacheModel.OffsetInPage` | swamp-engine/src/cache.rs:343-346 | The vector of any layer, kv_head and slot lies inside the page |
| `CacheModel.OffsetsApart` | swamp-engine/src/cache.rs:343-346 | The vectors of two different (layer, kv_head, slot) cells share no word of the page |
| `CacheModel.SlotFromBase` | swamp-engine/src/ops.rs:119-134 | The attention loops' address, a slot counted from the head's base, is offset_in_page of that slot |
| `CacheModel.PageLayout` | swamp-engine/src/cache.rs:343-346 | The order of the vectors in a page: slots, then kv_heads, then layers, head_dim words each, from word 0 without a gap to the page's last word |
| `CacheModel.WriteHeadsEntry` | swamp-engine/src/cache.rs:354-371 | The copy loop changes the vectors of its layer and slot for the heads done, and no other vector of the page |
| `CacheModel.SaveAtEntry` | swamp-engine/src/cache.rs:412-434 | A save is a map update: the entries of its layer and position become the token's vectors, every other entry keeps its value, entries of newly allocated pages are zero |
| `CacheModel.SavedByNumber` | swamp-engine/src/cache.rs:412-434 | After a save, number j of K and V at every kv_head of that layer and position is number kv_head * head_dim + j of the token's; every other entry keeps its value |
| `CacheModel.RunReadsBack` | swamp-engine/src/cache.rs:348-434 | After any run under any limit, number j at a layer, kv_head and position is number kv_head * head_dim + j of what the last operation saved there that saved at that layer and position |
| `CacheModel.RunLeavesZeros` | swamp-engine/src/cache.rs:130-158 | And zero where no operation saved |
| `CacheModel.EnsureEntry` | swamp-engine/src/cache.rs:307-331 | Making pages hot changes no entry |
| `CacheModel.RunPages` | swamp-engine/src/cache.rs:307-323 | How many pages a run has allocated, and where current_pos stands, read off the operations alone |
| `CacheModel.RunIsPlainMap` | swamp-engine/src/cache.rs:211-323 | The cache refines a map: after any run of saves, advances, resets, range accesses and appends by others, under any limit, every entry of an allocated page is the K and V last saved there, or zeros |
| `CacheModel.LimitIsInvisible` | swamp-engine/src/cache.rs:70-78 | Two limits give the same map after the same run |
| `CacheModel.RunResidency` | swamp-engine/src/cache.rs:307-434 | A run of cache operations is, for residency, the run of the page accesses that it makes |
| `CacheModel.RunHotIsMostRecent` | swamp-engine/src/cache.rs:161-242 | Stack property of the cache: after any run of operations under any limit, the hot list is the first min(limit, allocated) pages of the order of last use |
| `CacheModel.RunColdIsLeastRecent` | swamp-engine/src/cache.rs:211-242 | After any run of operations every hot page has been used since the last use of every cold page |
| `CacheModel.RunLargerLimitKeepsMore` | swamp-engine/src/cache.rs:307-323 | After one run of operations the hot list under a smaller limit is a prefix of that under a larger one |
| `PagedCache.PagedKVCache.constructor` | swamp-engine/src/cache.rs:64-103 | A new cache is empty; its page limit is the one computed from the budget, or the largest integer without one; the cold file keeps what it already held |
| `PagedCache.PagedKVCache.InsertAtHead` | swamp-engine/src/cache.rs:147-155 | The page is put before the whole list |
| `PagedCache.PagedKVCache.RemoveFromLru` | swamp-engine/src/cache.rs:190-208 | The page leaves the list, the others keep their order |
| `PagedCache.PagedKVCache.TouchLru` | swamp-engine/src/cache.rs:161-187 | Exactly move-to-front, whether or not the page is already the head |
| `PagedCache.PagedKVCache.EvictOnePage` | swamp-engine/src/cache.rs:211-242 | The tail of the list is spilled and nothing else changes; an empty list is left alone; what the file held stays its prefix |
| `PagedCache.PagedKVCache.Spill` | swamp-engine/src/cache.rs:219-241 | K then V of the victim stand at the old end of the file, its state says so, its buffers are gone; contents of all pages stay |
| `PagedCache.PagedKVCache.AllocHotPage` | swamp-engine/src/cache.rs:130-158 | One page of zeros is added, at the head of the list; all invariants are kept |
| `PagedCache.PagedKVCache.ReloadColdPage` | swamp-engine/src/cache.rs:245-301 | A cold page comes back with the contents it was evicted with, after room has been made; a hot page is left alone |
| `PagedCache.PagedKVCache.AllocUpTo` | swamp-engine/src/cache.rs:308-313 | The allocation loop creates pages of zeros up to the one asked for, evicting before each when the limit is reached |
| `PagedCache.PagedKVCache.EnsurePage` | swamp-engine/src/cache.rs:307-323 | The state afterwards is one access of the model: same contents, page hot and most recent |
| `PagedCache.PagedKVCache.EnsurePagesHot` | swamp-engine/src/cache.rs:327-331 | The state afterwards is a range access of the model |
| `PagedCache.PagedKVCache.CopyHeads` | swamp-engine/src/cache.rs:354-371 | The copy loop writes each head's K and V into its own place |
| `PagedCache.PagedKVCache.SaveTokenAt` | swamp-engine/src/cache.rs:412-434 | save_at: at (layer, pos), number j of every kv_head's K and V is number kv_head * head_dim + j of the token's; every other entry of the map stays |
| `PagedCache.PagedKVCache.SaveToken` | swamp-engine/src/cache.rs:348-372 | save: the same at current_pos |
| `PagedCache.PagedKVCache.Advance` | swamp-engine/src/cache.rs:436-438 | current_pos goes up by one, nothing else changes |
| `PagedCache.PagedKVCache.Reset` | swamp-engine/src/cache.rs:444-446 | current_pos becomes 0; pages, list and file stay |
| `PagedCache.PagedKVCache.GetK` | swamp-engine/src/cache.rs:376-382 | The K vector of the plain map, or the panic, exactly when the page is not hot |
| `PagedCache.PagedKVCache.GetV` | swamp-engine/src/cache.rs:386-392 | The V vector likewise; it too looks at the K buffer |
| `PagedCache.PagedKVCache.KVector` | swamp-engine/src/cache.rs:397-401 | The words behind k_page_ptr at a slot are the map's K vector |
| `PagedCache.PagedKVCache.VVector` | swamp-engine/src/cache.rs:405-409 | The words behind v_page_ptr at a slot are the map's V vector |
| `PagedCache.PagedKVCache.OtherCacheAppends` | swamp-engine/src/cache.rs:112-127 | Appends to the shared file by another cache change nothing that this cache holds |
| `PagedCache.PagedKVCache.RunAll` | swamp-engine/src/cache.rs:307-446 | The class, run through any sequence of operations from empty, holds what the model says |
| `PagedCache.ListInvariant` | swamp-engine/src/cache.rs:130-207 | In every valid state: the list is duplicate-free, links are neighbours by place, hot_count is its length and equals min(allocated, max(1, limit)) |
| `PagedCache.StorageInvariant` | swamp-engine/src/cache.rs:211-301 | In every valid state: a page has buffers exactly when hot, no two pages share one; each cold page owns a whole range of the file holding its K then its V, disjoint from every other |
| `PagedCache.SoundEvict` | swamp-engine/src/cache.rs:217-241 | Spilling the tail keeps the storage invariant |
| `PagedCache.SoundReload` | swamp-engine/src/cache.rs:260-300 | Reloading a cold page from its range keeps it |
| `PagedCache.SoundAlloc` | swamp-engine/src/cache.rs:130-158 | Allocating a page keeps it |
| `PagedCache.ListAfterRun` | swamp-engine/src/cache.rs:130-323 | In the class, after any run of operations, the list is the most recent part of all pages used, and exactly its pages have buffers |
| `PagedCache.LimitExactly` | swamp-engine/src/cache.rs:68-73 | A number is the limit for a budget of m megabytes if and only if the K buffers of so many pages, of four bytes a word, stay within m * 2^20 modulo 2^64, or within one page, and those of one page more do not; it is at least 1, and 2^64 - 1 without a budget |
| `Attention.StableSoftmax` | swamp-engine/src/ops.rs:149-159 | Subtracting any constant before exp and multiplying by the inverse sum gives the softmax average |
| `Attention.HeadOutputExactly` | swamp-engine/src/ops.rs:130-183 | The unpaged definition is attention and nothing else is: weights that add up to 1, in the ratios of exp(scale * q.k_t), and the average of the values with those weights |
| `Attention.ScaleIntoQuery` | swamp-engine/src/ops.rs:135 | The scale may as well be multiplied into the query |
| `Attention.TwoPositions` | swamp-engine/src/ops.rs:130-183 | Two positions in closed form: the exponentials of the two scaled dot products weigh the two values |
| `Attention.OutputAttends` | swamp-engine/src/ops.rs:102-184 | In the output of all heads, head h is attention of query head h over the keys and values of kv_head h / (n_heads / n_kv_heads) |
| `Attention.ScorePage` | swamp-engine/src/ops.rs:123-141 | Inside a page every position is scored once, in order, from the right key; the running maximum is that of the scores so far |
| `Attention.ScorePass` | swamp-engine/src/ops.rs:117-143 | The page loop scores every position up to valid_end exactly once |
| `Attention.SoftmaxPass` | swamp-engine/src/ops.rs:144-159 | Masking, exp and normalisation leave the weights of positions up to valid_end; masked positions weigh nothing |
| `Attention.SumPass` | swamp-engine/src/ops.rs:161-183 | The page loop adds up every position's value once, from zero |
| `Attention.AttentionHead` | swamp-engine/src/ops.rs:102-184 | One head's slice of the output is unpaged softmax attention over the plain map; the rest of the output is untouched |
| `Attention.AttentionForward` | swamp-engine/src/ops.rs:82-186 | Every head of the output is scaled dot-product attention over the keys and values of its kv_head at positions 0 to valid_end, in the terms of HeadOutputExactly; the panic comes exactly when the pages up to valid_end do not fit the limit |
| `Network.LayerExactly` | swamp-engine/src/executor.rs:421-507 | One layer of the reference is the only vector with: every head attends to the rotated keys and the values of tokens 0..=t; the projection of that is added number by number to the state; silu of the gate times up of the normalised sum is projected and added |
| `Network.ForwardPassExactly` | swamp-engine/src/executor.rs:90-187 | The hidden states of the reference are the only table that starts from the embeddings and takes that step at every layer and token |
| `Network.FinalExactly` | swamp-engine/src/executor.rs:48-190 | Its last hidden state is where such a table ends, and nothing else is |
| `Network.GeneratedExactly` | swamp-engine/src/executor.rs:368-550 | The autoregressive sequence is the prompt followed by tokens each of which is the draw from the logits of where such a table over all tokens before it ends |
| `Executor.SaveKeepsMatch` | swamp-engine/src/executor.rs:114-117 | Saving the reference's key and value of one more (layer, token) keeps the cache in step with the reference |
| `Executor.AttentionMatches` | swamp-engine/src/executor.rs:136-140 | On a cache in step with the reference for positions up to t, paged attention is the reference's causal attention |
| `Executor.SaveRows` | swamp-engine/src/executor.rs:113-117 | The save loop of a prefill layer |
| `Executor.AttendRows` | swamp-engine/src/executor.rs:136-140 | The attention loop of a prefill layer: row t sees positions 0..=t only, although all rows have been saved; it panics exactly when the pages up to the last row do not fit the limit |
| `Executor.NextHeadMatches` | swamp-engine/src/ops.rs:102-184 | Each further query head of paged attention is the reference's |
| `Executor.PrefillLayer` | swamp-engine/src/executor.rs:90-187 | One layer of prefill takes the reference's hidden states of layer l to those of layer l + 1 for all tokens |
| `Executor.PrefillBatch` | swamp-engine/src/executor.rs:48-190 | Layer-outer prefill, on any cache and for any prompt, empty included, panics exactly when there is a layer and the pages of the prompt do not fit the limit; otherwise the hidden state of the last token is where a forward pass of plain layer equations ends (IsFinalState), the keys and values at the prompt's positions are the reference's, and every other entry of the cache stays as it was |
| `Executor.DecodeLayer` | swamp-engine/src/executor.rs:421-507 | One layer of the decode body takes the token's hidden state from layer l to l + 1 |
| `Executor.DecodeToken` | swamp-engine/src/executor.rs:409-507 | The token-outer body returns where a forward pass of plain layer equations over all tokens so far leaves the last of them (IsFinalState) |
| `Executor.DecodePrompt` | swamp-engine/src/executor.rs:402-549 | The decode body once per prompt token, on any cache at position 0, panics under the same condition, and otherwise leaves the reference's keys and values at the prompt's positions and every other entry as it was |
| `Executor.PrefillEqualsDecode` | swamp-engine/src/executor.rs:373-396 | Batched prefill equals token-by-token decode, from two caches with the same contents: same last hidden state, same entry at every layer, kv_head and position, same current_pos equal to the prompt length, for any number of layers, any prompt and any two limits; each panics exactly when the pages of the prompt do not fit its limit |
| `Executor.MatchingStoresAgree` | swamp-engine/src/executor.rs:90-187 | Two caches in step with the reference for the same (layer, token) pairs, and equal elsewhere before, hold the same map |
| `Network.HiddenOfPrefix` | swamp-engine/src/executor.rs:136-140 | Causality: a token's hidden state does not depend on later tokens |
| `Executor.MatchesLonger` | swamp-engine/src/executor.rs:402-412 | What the cache holds for a run of tokens it holds for every longer run, so no step has to recompute it |
| `Executor.PrefillPrompt` | swamp-engine/src/executor.rs:373-399 | Prefill, the advances and the first draw |
| `Executor.GenerateStep` | swamp-engine/src/executor.rs:403-550 | One decode step appends the token drawn from the reference's logits over all tokens so far |
| `Executor.Generate` | swamp-engine/src/executor.rs:368-550 | generate() panics exactly when the pages of all positions it processes do not fit the limit, and otherwise yields the prompt followed by tokens each drawn from the logits of where a forward pass over all tokens before it ends (IsGenerated); with a prompt of more than one token it yields one token even for max_tokens 0 |
| `WeightedNet.NetMaps` | swamp-engine/src/executor.rs:102-185 | Which tensor each linear map of the network multiplies by, and its height |
| `WeightedNet.NetTurns` | swamp-engine/src/executor.rs:113-117 | The network's rotations turn every pair of every query head and every kv_head by the position, held at the last one of the context, times the pair's frequency |
| `WeightedNet.LinearRows` | swamp-engine/src/executor.rs:102-110 | forward_linear_batch, as prefill calls it, gives for each row the network's linear map of that row |
| `WeightedNet.LinearTokens` | swamp-engine/src/executor.rs:439-445 | forward_linear_multi, as decode calls it, gives the same maps of one vector |
| `WeightedNet.LinearToken` | swamp-engine/src/executor.rs:484 | forward_linear, as decode calls it, likewise |
| `WeightedNet.Rotate` | swamp-engine/src/executor.rs:448 | apply_rope_ufc gives the network's rotation of query and key once the table reaches the held position |
| `WeightedNet.PrefillEqualsDecodeOnWeights` | swamp-engine/src/executor.rs:373-396 | So batched prefill equals token-by-token decode on the network whose linear maps are the kernels' products |
| `QuantFormats.DequantisedAt` | swamp-gguf/src/quant/q4_k.rs:278-322 | Element j of block b of a dequantised row is the format's element formula on that block's bytes |
| `QuantFormats.DequantisedWithin` | swamp-engine/src/linear.rs:39-43 | Only a block's own bytes matter: cut out of a longer buffer it is worth the same |
| `QuantFormats.BlocksDotIsDot` | swamp-kernels/src/fused_gemv_q4k.rs:466-508 | Summing block by block is the dot product of the dequantised row with x |
| `QuantFormats.RowsWithin` | swamp-engine/src/linear.rs:34-45 | A run of rows cut out of the weight bytes, times x, is that run of the whole product |
| `QuantBlocks.Q4Back` | swamp-gguf/src/quant/q4_k.rs:278-322 | An encoded Q4_K block dequantises, in plain arithmetic, to d * scales[j / 32] * q[j] - dmin * mins[j / 32] |
| `QuantBlocks.EveryQ4Block` | swamp-kernels/src/fused_gemv_q4k.rs:708-724 | Every 144 bytes are an encoded block: decoding and encoding them gives them back |
| `QuantBlocks.Q6Back` | swamp-gguf/src/quant/q6_k.rs:22-57 | An encoded Q6_K block dequantises to d * scales[j / 16] * (q[j] - 32), with signed scales and six-bit levels |
| `QuantBlocks.EveryQ6Block` | swamp-gguf/src/quant/q6_k.rs:22-57 | Every 210 bytes are an encoded block |
| `QuantBlocks.ProductIsLinear` | swamp-kernels/src/fused_gemv_q4k.rs:466-508 | The product with a matrix is linear in the vector |
| `QuantBlocks.Q4Entry` | swamp-kernels/src/fused_gemv_q4k.rs:466-508 | Its entry in row r and column 256 b + j, the product with a unit vector, is that number of the block that 144 * (r * n + b) bytes precede |
| `QuantBlocks.Q6Entry` | swamp-kernels/src/fused_gemv_q6k.rs:248-291 | The same for Q6_K, with blocks of 210 bytes |
| `Q4Kernels.UnpackScales` | swamp-kernels/src/fused_gemv_q4k.rs:30-43 | The unpacked fields are the format's 6-bit scales and minima |
| `Q4Kernels.UnpackPacked` | swamp-kernels/src/fused_gemv_q4k.rs:708-724 | Unpacking what the packing of make_q4k_block made of eight scales and eight minima below 64 gives them back |
| `Q4Kernels.PackUnpacked` | swamp-gguf/src/quant/q4_k.rs:37-53 | Packing what was unpacked gives the 12 bytes back: no bit is lost |
| `Q4Kernels.Dequant` | swamp-gguf/src/quant/q4_k.rs:21-33 | dequant_q4k: the dequantised row cut to the length of dst, last block included, or BufferTooSmall with dst unchanged |
| `Q4Kernels.AddBlock` | swamp-kernels/src/fused_gemv_q4k.rs:479-505 | The pair loop adds the block's part of the dot product to the accumulator |
| `Q4Kernels.GemvScalar` | swamp-kernels/src/fused_gemv_q4k.rs:466-510 | The row-outer kernel writes, for each row, the dot product of the dequantised row with x, and nothing else |
| `Q4Kernels.BatchedScalar` | swamp-kernels/src/fused_gemv_q4k.rs:650-698 | The block-outer batched kernel adds exactly that product to every token's outputs |
| `Q4Kernels.GemvMulti` | swamp-kernels/src/fused_gemv_q4k.rs:401-460 | The multi-matrix kernel writes that product for every matrix, and zeros past its rows |
| `Q6Kernels.Widened` | swamp-kernels/src/fused_gemv_q6k.rs:270-277 | Joining in 16 bits, cutting to i8 and subtracting 32 with wrap-around is the exact six-bit value less 32 |
| `Q6Kernels.Dequant` | swamp-gguf/src/quant/q6_k.rs:8-57 | dequant_q6k: the dequantised row cut to the length of dst, or BufferTooSmall with dst unchanged |
| `Q6Kernels.AddFour` | swamp-kernels/src/fused_gemv_q6k.rs:268-286 | One pass of the inner loop adds the four products that share l |
| `Q6Kernels.QuartersAreHalf` | swamp-kernels/src/fused_gemv_q6k.rs:261-288 | The interleaved sum of a half is its sum in order |
| `Q6Kernels.GemvScalar` | swamp-kernels/src/fused_gemv_q6k.rs:248-291 | The kernel writes, for each row, the dot product with x of the row dequantised with the kernel's own reading of the block scales |
| `HalfFloats.RawIsNormal` | swamp-kernels/src/fused_gemv_q6k.rs:11-20 | For every 16-bit pattern the assembled bits are a normal binary32, and its value: exponent 0 becomes minus two to the 114 and beyond |
| `HalfFloats.KernelHalfExactly` | swamp-kernels/src/fused_gemv_q6k.rs:6-20 | On finite binary16 values the kernel's decoder is right if and only if the value is neither zero nor subnormal |
| `HalfFloats.InfinityIsFinite` | swamp-kernels/src/fused_gemv_q6k.rs:11-20 | Infinity is read as two to the 16 |
| `HalfFloats.HalfByBytes` | swamp-kernels/src/fused_gemv_q6k.rs:6-20 | From the numbers of the two bytes: the value of every finite binary16, and what the kernel reads from any two bytes |
| `HalfFloats.SomeHalves` | swamp-kernels/src/fused_gemv_q6k.rs:6-20 | 0x3E00 is 1.5, 0xC000 is -2, 0x7BFF is 65504 and 0x0001 is 2 to the -24 |
| `Q6Kernels.BlockExactly` | swamp-kernels/src/fused_gemv_q6k.rs:256-286 | A block has the same weights for the kernel and for the dequantiser if and only if its scale is neither zero nor subnormal or all its levels are zero |
| `Q6Kernels.KernelExactly` | swamp-kernels/src/fused_gemv_q6k.rs:248-291 | With finite scales, the kernel equals dequantise-then-multiply for every x if and only if no block with a zero or subnormal scale has a nonzero level |
| `Q6Kernels.ZeroScaleFails` | swamp-kernels/src/fused_gemv_q6k.rs:15-16 | A block of scale zero, worth zero, whose every weight the kernel takes to be two to the 119 |
| `LinearDrivers.ExactlyOneThread` | swamp-engine/src/linear.rs:31-38 | For any number of threads each row lies in exactly one guarded range |
| `LinearDrivers.LeastShare` | swamp-engine/src/linear.rs:31 | The rows of a thread are the least number with which all threads cover the rows |
| `LinearDrivers.SliceFits` | swamp-engine/src/linear.rs:40-41 | A thread's byte slice lies inside the tensor |
| `LinearDrivers.RunThread` | swamp-engine/src/linear.rs:34-46 | A thread's closure writes its rows of the product and nothing else |
| `LinearDrivers.ForwardLinear` | swamp-engine/src/linear.rs:14-67 | Any number of threads completing in any order give the matrix, as its kernel decodes it, times x; a shape mismatch changes nothing |
| `LinearDrivers.ForwardLinearMulti` | swamp-engine/src/linear.rs:96-149 | The same for each tensor in turn, over cleared outputs |
| `LinearDrivers.ForwardLinearBatch` | swamp-engine/src/linear.rs:176-239 | Every vector of the batch gets the same product as from forward_linear, whether the rows (Q4_K) or the vectors (Q6_K) are shared out, in any order of completion |
| `LinearDrivers.BatchByRows` | swamp-engine/src/linear.rs:194-232 | The Q4_K arm: threads running the batched kernel on their rows of cleared outputs |
| `LinearDrivers.BatchByVectors` | swamp-engine/src/linear.rs:336-364 | fallback_gemv: each vector is served by exactly one thread, through a buffer of its own |
| `LinearDrivers.ProductExactly` | swamp-engine/src/linear.rs:14-67 | What the drivers compute is dequantise-then-multiply for every x: always on Q4_K, and on a Q6_K tensor of finite scales if and only if its kernel reads them right |
| `LinearDrivers.ForwardGemvs` | swamp-engine/src/linear.rs:278-332 | Tensors of different heights sharing the partition of the tallest each get their whole product |
| `LinearDrivers.UnguardedExactly` | swamp-engine/src/linear.rs:71-79 | The arms without the guard subtract safely if and only if the last thread starts within the rows |
| `LinearDrivers.UnguardedFails` | swamp-engine/src/linear.rs:150-158 | Five rows on four threads violate that |
| `DTypes.ToU32` | swamp-gguf/src/dtype.rs:9-39 | Every type has a code that from_u32 maps back to it |
| `DTypes.OtherCodes` | swamp-gguf/src/dtype.rs:43-76 | from_u32 fails exactly for 4, 5 and numbers above 30, and each code it knows is its type's |
| `DTypes.KQuantCodes` | swamp-gguf/src/dtype.rs:43-76 | Codes 10 to 15 are the K-quants in the order of the specification; FirstCodes, IQuantCodes and LastCodes give the others |
| `DTypes.PlainSizes` | swamp-gguf/src/dtype.rs:79-132 | A plain number is a block of its own, of its width in bytes |
| `DTypes.BlockSizesOf32` | swamp-gguf/src/dtype.rs:79-132 | Types in blocks of 32: the size is that of the scales and of 32 levels at so many bits |
| `DTypes.KQuantSizes` | swamp-gguf/src/dtype.rs:79-132 | K-quants in blocks of 256: the size is that of the scales, of the sub-blocks' scales and of 256 levels |
| `DTypes.EightTimesIq4Xs` | swamp-gguf/src/dtype.rs:86-128 | IQ4_XS: its 136 bytes are the fields of 256 elements but are counted for every 32, so nbytes_for gives eight times the bytes of any number of whole blocks |
| `DTypes.NElems` | swamp-gguf/src/tensor_info.rs:20-22 | The element count is the product of the dimensions modulo 2^64 |
| `DTypes.NBytesExact` | swamp-gguf/src/dtype.rs:135-139 | Where nothing wraps, nbytes_for is the type size times the number of blocks, rounded up |
| `DTypes.BytesOfRows` | swamp-gguf/src/dtype.rs:135-139 | nbytes_for of an nr by nc tensor holds all its rows, and for whole blocks is exactly their bytes |
| `GgufFormat.LeOfPut` | swamp-gguf/src/metadata.rs:151-167 | Little-endian integers of any width come back |
| `GgufTheorems.StableHeader` | swamp-gguf/src/mmap.rs:33-72 | For any bytes: parsing a prefix of a file either gives the same as the whole file, having used only the prefix, or runs out |
| `GgufTheorems.StableValue` | swamp-gguf/src/metadata.rs:202-225 | The same for one metadata value |
| `GgufTheorems.StableTensor` | swamp-gguf/src/mmap.rs:59-72 | The same for one tensor description |
| `GgufTheorems.ScalarBack` | swamp-gguf/src/metadata.rs:202-225 | An encoded scalar of any of the twelve kinds is read back, two's complement included |
| `GgufTheorems.ValueBack` | swamp-gguf/src/metadata.rs:202-245 | An encoded value, array or not, is read back, and exactly its bytes are used |
| `GgufTheorems.KVsBack` | swamp-gguf/src/mmap.rs:50-57 | Encoded pairs are read back as the map of inserting them in order |
| `GgufTheorems.DistinctKeysKept` | swamp-gguf/src/mmap.rs:50-57 | With distinct keys that map holds exactly the pairs |
| `GgufTheorems.TensorBack` | swamp-gguf/src/mmap.rs:59-72 | An encoded tensor description is read back |
| `GgufTheorems.HeaderBack` | swamp-gguf/src/mmap.rs:33-75 | Round trip, versions 2 and 3: an encoded header followed by any bytes is read back, and the position after it is its length |
| `GgufTheorems.TruncatedRejected` | swamp-gguf/src/mmap.rs:33-72 | Every proper prefix of an encoded header is rejected as too short |
| `GgufLayout.HeaderBytes` | swamp-gguf/src/mmap.rs:33-48 | An encoded header starts with the bytes of GGUF, the version, the number of tensors and the number of pairs, little-endian, then the pairs and the tensors |
| `GgufLayout.LongerValues` | swamp-gguf/src/metadata.rs:202-245 | A string is code 8, its length in eight bytes and its bytes; an array is code 9, the element code, the length and the elements |
| `GgufLayout.LongValues` | swamp-gguf/src/metadata.rs:202-225 | 64-bit values are codes 10, 11 and 12 and eight bytes, the low half first; ByteValues, ShortValues and WordValues give the other kinds |
| `GgufLayout.PairBytes` | swamp-gguf/src/mmap.rs:50-57 | A pair is its key as a string, then code and value |
| `GgufLayout.TensorBytes` | swamp-gguf/src/mmap.rs:59-72 | A tensor description is name, number of dimensions, dimensions, type code and offset |
| `GgufLayout.VersionOne` | swamp-gguf/src/mmap.rs:33-48 | An empty file of version 1 has 32-bit counts |
| `GgufLayout.OtherStarts` | swamp-gguf/src/mmap.rs:37-45 | Any other magic is an invalid magic, any version but 1, 2 and 3 unsupported, whatever follows |
| `GgufLayout.UnknownCodes` | swamp-gguf/src/metadata.rs:202-225 | The value codes are 0 to 12, with 9 for arrays; others are reported as unknown |
| `GgufLayout.TruthByte` | swamp-gguf/src/metadata.rs:202-225 | A truth value may be any byte and is false only for zero |
| `GgufFile.Reader.TakeBytes` | swamp-gguf/src/metadata.rs:193-198 | The next n bytes and the position after them, or Eof |
| `GgufFile.Reader.TakeUint` | swamp-gguf/src/metadata.rs:129-167 | The little-endian value of the next bytes |
| `GgufFile.Reader.TakeString` | swamp-gguf/src/metadata.rs:185-191 | Length, then bytes, made valid UTF-8 |
| `GgufFile.Reader.TakeValue` | swamp-gguf/src/metadata.rs:202-225 | parse_metadata_value is the pure reading function, errors included |
| `GgufFile.Reader.TakeElems` | swamp-gguf/src/metadata.rs:227-243 | The element loops of parse_metadata_array |
| `GgufFile.Reader.TakeKVs` | swamp-gguf/src/mmap.rs:50-57 | The loop over the pairs |
| `GgufFile.Reader.TakeTensor` | swamp-gguf/src/mmap.rs:59-72 | One tensor description, 32- or 64-bit dimensions by version |
| `GgufFile.Reader.TakeHeader` | swamp-gguf/src/mmap.rs:33-75 | The parser up to the end of the header is the pure reading function, for versions 1 to 3, errors included |
| `GgufFile.Parse` | swamp-gguf/src/mmap.rs:33-91 | parse is the pure parsing function; it succeeds exactly when the header can be read, and the data section starts at the first multiple of 32 from the header's end on |
| `GgufFile.LeastMultiple` | swamp-gguf/src/mmap.rs:74-77 | An offset is where the data section starts if and only if it is divisible by 32, at least the header's end and less than 32 past it |
| `GgufFile.TensorRawBytes` | swamp-gguf/src/mmap.rs:110-117 | The file's bytes from the tensor's offset, in 64-bit arithmetic, if they are all there |
| `GgufFile.FindTensor` | swamp-gguf/src/mmap.rs:94-96 | The first tensor of that name, or none |
| `GgufFile.RawBytesExactly` | swamp-gguf/src/mmap.rs:110-117 | Where the byte count does not wrap: the bytes from the offset on, as many as the blocks of the type need, or none exactly when the file ends before |
| `GgufFile.PayloadFound` | swamp-gguf/src/mmap.rs:74-117 | A payload laid at its tensor's declared offset from the first multiple of 32 after the header is what the parsed file returns for that tensor |
| `GgufFile.TruncatedFile` | swamp-gguf/src/mmap.rs:33-72 | A header cut short anywhere is no file |
| `Int8Dot.FlipSignBit` | swamp-kernels/src/lib.rs:507-508 | Flipping the sign bit of a byte and reading it as unsigned adds 128 |
| `Int8Dot.Bias` | swamp-kernels/src/lib.rs:510-517 | The unsigned dot product is the signed one plus 128 times the sum of the activations |
| `Int8Dot.Reduce` | swamp-kernels/src/lib.rs:526-535 | The horizontal sum is the sum of the lanes up to wrap-around, whichever lanes wrap |
| `Int8Dot.IntDotIsLinear` | swamp-kernels/src/lib.rs:486-544 | The dot product that the results are stated in is linear in the activations |
| `Int8Dot.IntDotUnit` | swamp-kernels/src/lib.rs:486-544 | And with a unit vector it is one weight |
| `Int8Dot.GemvVnni` | swamp-kernels/src/lib.rs:486-544 | For any length, whichever lanes wrap, the result is the exact dot product of the part in registers, wrapped once to 32 bits, plus the exact tail, times the scale |
| `Int8Dot.GemvAvx2` | swamp-kernels/src/lib.rs:548-580 | The same for registers of 32 bytes |
| `Int8Dot.ExactWhenItFits` | swamp-kernels/src/lib.rs:486-544 | The result is exact if and only if the part in registers fits in 32 bits |
| `Int8Dot.FitsUpTo131071` | swamp-kernels/src/lib.rs:486-544 | It always fits for up to 131071 elements |
| `Int8Dot.OverflowsAt131072` | swamp-kernels/src/lib.rs:486-544 | The bound is tight: 131072 elements, all -128, give minus 2^31 |
| `Int8Dot.NoLaneWraps` | swamp-kernels/src/lib.rs:498-520 | Up to 2047 registers no lane of either accumulator wraps on any pass: each is its exact sum |
| `Int8Dot.CorrectionFits` | swamp-kernels/src/lib.rs:522-524 | Up to 131071 elements neither the shift nor the subtraction wraps, and each corrected lane is the signed dot product of its elements |
| `Int8Dot.ReduceFits` | swamp-kernels/src/lib.rs:526-535 | And none of the four additions of the horizontal sum wraps |
| `Q16Softmax.MaxLogit` | swamp-kernels/src/lib.rs:116-135 | The lane-wise maximum, folded, and the tail give the largest logit |
| `Q16Softmax.FormsAgreeUnless` | swamp-kernels/src/lib.rs:153-173 | The 32-bit and the 64-bit product agree for every exponential except 1.0 of a sum of 1.0, where the 32-bit one is zero |
| `Q16Softmax.SoftmaxKernel` | swamp-kernels/src/lib.rs:113-179 | The outputs are those of the 64-bit form if and only if the maximum does not stand alone in a group of 16 with every other logit more than 655360 below it, and all zero then; and they keep the order of the logits if and only if no difference to the maximum overflows, or every logit is the maximum or overflows, or the sum exceeds 2^32 |
| `Q16Softmax.AloneExactly` | swamp-kernels/src/lib.rs:143-173 | That condition on the logits says exactly when the exponentials add up to 1.0 with the 1.0 in a group |
| `Q16Softmax.LosesTheMaximum` | swamp-kernels/src/lib.rs:153-173 | Sixteen logits that meet it: the 64-bit form gives the first one 1.0 |
| `Q16Softmax.OutputSum` | swamp-kernels/src/lib.rs:153-173 | The outputs of the 64-bit form add up to more than 65536 - 2n and at most 65536 |
| `Q16Softmax.ScaledOrderExactly` | swamp-kernels/src/lib.rs:143-172 | The outputs of the 64-bit form keep the order of the logits under exactly the same condition |
| `Q16Softmax.OverflowOvertakes` | swamp-kernels/src/lib.rs:143-151 | Whenever it fails, a logit whose difference overflows gets more than a larger one that does not reach the maximum |
| `Q16Softmax.OutputsInOrder` | swamp-kernels/src/lib.rs:169-172 | Larger exponentials have outputs at least as large |
| `Q16Softmax.OrderCanBreak` | swamp-kernels/src/lib.rs:143-172 | Three logits whose outputs are 32768, 32768 and 0: the smallest gets as much as the largest, the middle one nothing |
| `TensorLayout.ComputeStrides` | swamp-tensors/src/layout.rs:25-33 | Each stride is the product of the later dimensions |
| `TensorLayout.OffsetFor` | swamp-tensors/src/layout.rs:56-64 | Offset plus the sum of index times stride, or the panic, exactly for a wrong rank or an index out of range |
| `TensorLayout.IsContiguous` | swamp-tensors/src/layout.rs:67-76 | True exactly when the strides are compute_strides of the shape |
| `TensorLayout.FlatInRange` | swamp-tensors/src/layout.rs:56-64 | Offsets of valid indices lie below the size |
| `TensorLayout.FlatInjective` | swamp-tensors/src/layout.rs:56-64 | Different valid indices have different offsets |
| `TensorLayout.FlatOnto` | swamp-tensors/src/layout.rs:25-64 | Every offset below the size is that of some valid indices |
| `TensorLayout.CpuTensor.Get` | swamp-tensors/src/tensor.rs:98-101 | The element at the indices, or the panic |
| `TensorLayout.CpuTensor.Set` | swamp-tensors/src/tensor.rs:103-107 | A map update: that element changes and no other |
| `Sampling.Softmax` | swamp-engine/src/sampler.rs:29-45 | Step 1 gives the softmax of the logits at the temperature: positive, summing to 1 |
| `Sampling.SortedIsSort` | swamp-engine/src/sampler.rs:47-48 | The sort is by falling probability, a permutation, and stable |
| `Sampling.TopK` | swamp-engine/src/sampler.rs:50-60 | Step 3 keeps the k most probable, renormalised to 1 |
| `Sampling.TopP` | swamp-engine/src/sampler.rs:62-81 | Step 4 keeps the shortest prefix whose mass reaches top_p, renormalised to 1 |
| `Sampling.ShortestIsUnique` | swamp-engine/src/sampler.rs:64-72 | There is only one such prefix |
| `Sampling.Pick` | swamp-engine/src/sampler.rs:83-91 | The draw returns the one candidate in whose cumulative interval it lies; the loop always finds it |
| `Sampling.ExactlyOneInterval` | swamp-engine/src/sampler.rs:83-91 | No draw lies in two intervals |
| `Sampling.KeptByStages` | swamp-engine/src/sampler.rs:50-81 | The stages together are one conditioning: each kept token has its softmax probability divided by that of all kept |
| `Sampling.OneEntryEach` | swamp-engine/src/sampler.rs:47-48 | No token stands twice in the sorted list |
| `Sampling.Sample` | swamp-engine/src/sampler.rs:22-95 | The candidates are a permutation of the softmax of the logits at the temperature, sorted; the token returned is that of the one kept candidate whose interval the draw lies in |
| `Rope.BuildTable` | swamp-engine/src/ops.rs:20-37 | Row m of the table holds cosine and sine of m times each frequency |
| `Rope.RopeTables.InitLut` | swamp-engine/src/ops.rs:20-37 | A head size gets a table of the length asked for unless it has one already, which stays even when shorter |
| `Rope.SecondInitIgnored` | swamp-engine/src/ops.rs:23-25 | After a first initialisation for `first` positions and a second for more, the rotation works exactly for held positions below `first` |
| `Rope.ApplyRotationPair` | swamp-engine/src/ops.rs:69-80 | Each pair of neighbours of the head is turned, an odd last entry and the rest of the buffer stay |
| `Rope.RopeTables.ApplyRope` | swamp-engine/src/ops.rs:42-66 | Every pair of every head of q and k is turned by the position, held at the last one of the context, times its frequency; the panic comes exactly when the head size has no table or a table that ends before that row |
| `Rope.RotatedIsTurned` | swamp-engine/src/ops.rs:42-80 | In plain terms: numbers 2k and 2k + 1 of every head are turned by the angle pos * freq(k), an odd last number of a head and whatever follows the heads stay |
| `Rope.FirstPositionStays` | swamp-engine/src/ops.rs:42-80 | Position 0 turns nothing |
| `Rope.RotatedDot` | swamp-engine/src/ops.rs:54-79 | The dot product of two rotated heads, pair by pair, through the difference of the angles |
| `Rope.ScoreByHeldDistance` | swamp-engine/src/ops.rs:54-79 | The score of a query at m against a key at n depends on the difference of the held positions only |
| `Rope.HeldDistanceExactly` | swamp-engine/src/ops.rs:54 | The difference of the held positions is m - n if and only if both are within the context or m is n |
| `Rope.OnlyTheDistance` | swamp-engine/src/ops.rs:54-79 | Within the context the score depends on m - n only |
| `Rope.SameScoresExactly` | swamp-engine/src/ops.rs:54-79 | Two pairs of positions score alike for all heads if and only if their held distances are equal, given a first pair that tells distances apart |
| `Rope.PastTheContext` | swamp-engine/src/ops.rs:54-79 | A query past the context scores as at distance 0 against the last position, and not as at its own distance |
| `Rope.NormKept` | swamp-engine/src/ops.rs:54-79 | Rotation keeps a head's squared norm |

## Left out

- Rounding: all floating-point arithmetic is exact, so results hold up to rounding only.
- The cold file is a sequence of words; a byte offset of the source is four times the model's.
- Reading and parsing the environment variable of the RAM budget, file and allocation failures, and page alignment.
- Threads: a parallel loop is an order in which its iterations complete. That iterations may interleave is covered by
  the proof that they write disjoint ranges (`LinearDrivers.ExactlyOneThread`), not modelled as such; the per-head loop of
  attention and the per-row loops of prefill are sequential here.
- The network's norms, activation and final logits are functions of one token's vector.
- The loops of `Executor` call the network's maps; that these are what the drivers compute is proved beside them
  (`WeightedNet`), for Q4_K and Q6_K tensors.
- Skipped layers, the GPU path, prefetching, the profiler, the policy engine and a closed output channel in
  `generate`, as well as tokenisation and decoding of tokens to text.
- SIMD forms of the Q4_K and Q6_K kernels, which read the bytes differently from the scalar ones, and the other
  quantised formats.
- `forward_linear` on other types (dense after dequantisation), and `forward_linear_batch` on them, which runs the Q4_K
  kernel on their bytes.
- Q6Kernels.KernelExactly: block scales are finite, since an infinite or not-a-number scale has no value in the reals.
- GgufTheorems.HeaderBack: versions 2 and 3 only, since version 1 strings are read with 64-bit lengths where the
  specification has 32; arrays of arrays and `general.alignment` are not handled by the parser either.
- Allocation by a count read from a file (`with_capacity`) can abort on a hostile count; reading is modelled, allocating
  is not. A header is taken to be shorter than 2^63 bytes.
- Metadata getters and their fallbacks across architectures are lookups.
- Q16Softmax.SoftmaxKernel: the exponential between its clamps is any monotone function from 0 to 1.0, not the rounded
  hardware one; the scalar fallback of the same routine, which shifts by 32, is a different function.
- The scalar fallback of the 8-bit dot product and `matmul_w3`.
- Sampling.Sample: logits are finite; the fallback for a draw that no interval takes is shown to be unreachable and not
  modelled.
- Copy-on-write of tensor buffers is value semantics; NUMA buffers and the arena are left out.
- Hybrid clock, server, metrics, circuit breaker, thermal control, tokenizer and command-line tools: plumbing.
