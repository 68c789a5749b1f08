# Verification of libembedding's algorithmic core

libembedding wraps ONNX Runtime and llama.cpp to compute text, image and sparse embeddings and to rerank documents.
Around the inference calls sit algorithms whose correctness does not depend on the model: how texts are split over
workers and batches, how results are put back in order, how rankings are measured, how vectors are normalised,
quantised and compared, how result buffers are allocated and released. This project models those algorithms in Dafny
and proves what they promise. `dafny verify dfyconfig.toml` checks all of it.

## What is proved

**Embedding pool** (`EmbeddingPool`, `EmbedStream`, `PoolEmbedding`). The texts are split into the smallest equal shares
that cover them. Whatever calls fail, `embed` returns the in-order list of the embeddings of exactly the texts whose
call succeeded, where the call a text travels in is described by that share and the batch size alone; with no failure it
is the plain map over the texts, for every worker count and batch size. The concurrent `embed_stream` is a step system
(main thread, workers, mutex, one callback per step). In every interleaving the callbacks made so far are a prefix of
what `embed` returns; no reachable state is deadlocked; every run is bounded, and a run that cannot continue has
delivered everything exactly once. Over the library's own dense embedding call, with padding-independent sessions, both
give the embedding of each text on its own (of those whose call succeeded, and of all texts when nothing throws), for
every worker count, batch size, batch strategy and interleaving, and the same rows as one library call on all the texts.

**Rankings and their metrics** (`DiscountedGain`, `RankingMetrics`, `RerankerQuality`). nDCG@k is in [0, 1], for every
list and every k, because no order has a larger truncated DCG than the relevance-descending one (a rearrangement
inequality by Abel summation, assuming of log2 only that it is positive and increasing). It is 1 exactly when the
first k relevances are ideal. Average precision is 1 exactly for a non-empty prefix of hits. Promoting a relevant item
never hurts any metric. The C++ nDCG@10 is in [0, 1] on every output of the reranker,
and so are the averages of a whole quality run; a list of results keeps that bound under all judgments if and only if
its first ten places name distinct documents.

**Reranker** (`Tokenizing`, `Batching`, `BatchRuns`, `Reranker`). The ranking is a permutation of all (index, score)
pairs in descending score order. With a padding-independent model every item carries the score of its own text, the
query, " [SEP] " and the document in this order, whatever the batch size. The call fails exactly when encoding or
running some batch throws.

**Dense embedding** (`TokenTensor`, `Pooling`, `OnnxBatching`, `DenseEmbedding`, `TextEmbedding`). The library's
embedding loop fails exactly when counting tokens or some batch throws. Otherwise every row of the flat result is the
pooled and normalised row of its text, at its text's own place, under every strategy and batch size; with a
padding-independent session it is the embedding of that text alone; and it has norm 1 or is zero whatever the session
computes.

**Length bucketing** (`PaddingCost`, `BucketingCost`). For every tokenizer, processing the texts longest first is
optimal over all orders, for all corpora of n texts, **if and only if** b divides n, or n <= b, or all texts that encode
have the same number of tokens. It always wastes at most b * (most tokens - fewest tokens) cells. The diagnostic
benchmark sorts by characters instead: that keeps the same bound when token counts follow character counts, and bounds
the padding of the corpora drawn from a pool of texts at all **if and only if** b = 1 or texts of the pool that encode
and have as many characters have as many tokens.

**Vectors** (`VectorGeometry`, `Normalize`, `Int8`). Cauchy-Schwarz in every dimension, the range of the cosine, the
triangle inequality, agreement of the three rankings on unit vectors; in-place normalisation, its idempotence and its
exact zero threshold; the error bound and the projection law of int8 quantisation.

**Sparse embeddings** (`Splade`, `SparseDot`, `Pruning`, `SparseHeap`, `SparseEmbed`, `SparseOptions`). The
postprocessing keeps exactly the positive scores, so both sparse dot products of two texts equal the dense dot product
of their score vectors; the pruning laws; and heap conservation: the embedding call releases everything when any batch
throws, one free after a successful call restores the heap, a second free does nothing, and no block is freed twice.

**Smaller pieces** (`WorkQueue`, `Bmp`, `IntList`, `LruCache`). The fetch-add work queue, the BMP writer against a
decoder, the comma-list parser against a printer, and the embedding cache: every history leaves a larger cache holding
all that a smaller one holds (the inclusion property of LRU); without expiry, a key that was stored or found is found
again **if and only if** fewer than `capacity` other keys were stored or found since; and the buffer a lookup hands out
stays allocated exactly until its key is overwritten, evicted, cleared or found expired.

The functions that results speak of are pinned from outside as well: by what they come to on the raw cells, characters
or list places (`Pooling.AveragedCell`, `Bmp.PixelIs`, `LruCache.LookupEffect`, `IntList.AtoiIs`), by a product law
(`RankingMetrics.NdcgIs`, `VectorGeometry.CosineIs`, `Int8.CodeIs`), or by a relation with one solution
(`EmbeddingPool.ShareIs`, `Tokenizing.SentIsEncoded`).

## Conventions

- `float` and `double` are `real`; `sqrt` is any function that squares back; `log2(i + 2)` is any positive strictly
  increasing function; `log(1 + x)` is any positive non-decreasing function on positive arguments.
- The model is an uninterpreted function of the tensors it is given. "Padding-independent" means: for batches as the
  loops send them (in every row the tokens first, under ones, then padding to the longest row, under zeros, and all type
  ids zero) its output for a row is a function of that row's tokens. It may use their positions and the type ids; it may
  not look at the padding or at other rows. This is stated as a predicate where it is used
  (`Reranker.PaddingIndependent`, `DenseEmbedding.PaddingIndependent`, `SparseEmbed.PaddingIndependent`) over the cells
  of the tensors, and `Tokenizing.SentIsEncoded` proves that the loops send nothing else. The repository itself says of
  dynamically quantised models that batch composition changes their output slightly (`README.md:917`).
- A call that may throw returns an `Option`; a C status is the datatype `Status`. Null arguments are empty inputs or
  nullable arrays.
- `std::sort` is `Sorting.SortInPlace`, whose contract leaves the order of ties open. Python's `sorted` is the stable
  `Sorting.SortDesc`. Python slices with negative bounds follow Python.
- A call's `batch_size <= 0` selects the context's default, as in the code.

## Where code and documentation disagree

- `LENGTH_BUCKET` is documented to minimise padding (`include/libembedding/types.h:282`, `README.md:236`). It does so
  exactly when b divides n, n <= b, or all texts that encode have the same number of tokens
  (`BucketingCost.BucketingOptimalIff`); for every other n and b, any two such texts of different
  token counts make up a corpus that another order embeds with fewer cells (`BucketingCost.BucketingLoses`).
- The diagnostic benchmark sorts by characters, while padding is in tokens. Two texts with as many characters but
  different token counts make up character-sorted corpora whose padding exceeds every bound
  (`BucketingCost.TiesWasteWithoutBound`).
- `compute_ndcg_at_10` is a normalised measure exactly for lists that name no document twice in their first ten places:
  such a list scores at most 1 under all judgments, and a list that does repeat one scores above 1 when just the listed
  documents are relevant (`RerankerQuality.NdcgAt10BoundedIff`). The reranker never repeats a document. The function
  also reads `ideal[i]` for the first ten ranks, so it needs that many judgments.
- `l2_normalize` turns rows of norm at most 1e-12 into zeros; every other row gets norm exactly 1.
- Threshold-then-cut and cut-then-threshold agree exactly for `top_k >= 0`; a negative `top_k` counts from the end of
  different lists.
- The sparse options `top_k` and `min_weight` are documented as limits (`include/libembedding/types.h:295-296`), but
  `lembed_sparse_text_embedding_embed` never reads its options argument. A stored vector is the documented one exactly
  when it is within the limits anyway (`SparseOptions.AsDocumentedIff`). A context whose model has a vocabulary of V
  entries honours them for all texts exactly when `top_k` is 0 or at least V and `min_weight <= 0`
  (`SparseOptions.AlwaysHonouredIff`).
- The statistic `batches_run` is documented as the number of inference batches (`python/README.md:238`). A successful
  dense call adds the batches of its batch size, but under the sequential strategy it runs every text on its own; the
  two numbers agree exactly when the strategy is not sequential, the batch size is 1, or there is one text
  (`TextEmbedding.CountsItsRunsIff`).

## Model

| member | source | states |
|---|---|---|
| Batching.BatchesTile | include/libembedding/detail/batch.hpp:30-41 | the batches start at 0, abut, are never empty and end at the total |
| Batching.InOneBatch | include/libembedding/detail/batch.hpp:30-41 | each position lies in exactly the batch its quotient names |
| Batching.CountBatches | include/libembedding/detail/batch.hpp:30-33 | the batch count is the number of non-empty steps of size b that reach the total |
| Batching.RangeOf | include/libembedding/detail/batch.hpp:35-41 | batch i is the range between the i-th and the next step, cut at the total |
| EmbeddingPool.Embed | include/libembedding/cpp/embedding_pool.hpp:71-107 | the pool returns the partial results of all workers in worker order, with the batch default applied; nothing for no texts |
| EmbeddingPool.EmbedSubset | include/libembedding/cpp/embedding_pool.hpp:215-241 | one worker returns its successful batches, one after the other |
| EmbeddingPool.EmptySuffix | include/libembedding/cpp/embedding_pool.hpp:86-89 | workers without texts form a suffix that contributes nothing, so stopping at the first loses no text |
| EmbeddingPool.ShareIs | include/libembedding/cpp/embedding_pool.hpp:77-89 | what a worker gets is the one p with (p - 1) * workers < texts <= p * workers: the smallest equal share that covers the input |
| EmbeddingPool.Shares | include/libembedding/cpp/embedding_pool.hpp:82-89 | with p that share, worker w gets texts w * p to w * p + p, cut at the end of the input |
| EmbeddingPool.OneCall | include/libembedding/cpp/embedding_pool.hpp:215-229 | a text travels in one call only: one worker, one start and one end fit the description by p and the batch size |
| EmbeddingPool.EveryTextTravels | include/libembedding/cpp/embedding_pool.hpp:215-229 | and in some call: every text is in a batch of an existing worker |
| EmbeddingPool.InOrderSurvivors | include/libembedding/cpp/embedding_pool.hpp:71-107 | whatever batches fail, the first n workers yield exactly the texts of their shares whose own call succeeded, in text order, the call being described by p and the batch size alone |
| EmbeddingPool.EmbedReturnsSurvivors | include/libembedding/cpp/embedding_pool.hpp:71-107 | the shares cover the input: all workers together yield every surviving text, in text order |
| EmbeddingPool.EmbedIsMap | include/libembedding/cpp/embedding_pool.hpp:71-107 | with no failure the result is the single-text embedding mapped over the input, for all worker counts and batch sizes |
| EmbedStream.StepInv | include/libembedding/cpp/embedding_pool.hpp:130-156 | every step of the main thread and of every worker keeps the invariant on locks, published subsets and delivered callbacks |
| EmbedStream.DeliveredInTextOrder | include/libembedding/cpp/embedding_pool.hpp:111-159 | in every state of every interleaving the callbacks made are a prefix of the sequential result |
| EmbedStream.JoinedMeansDelivered | include/libembedding/cpp/embedding_pool.hpp:146-158 | once all threads are joined the callbacks are exactly the sequential result, trailing empty workers included |
| EmbedStream.SomeThreadCanMove | include/libembedding/cpp/embedding_pool.hpp:141-158 | no deadlock: until the join some thread has a step |
| EmbedStream.EveryRunCompletes | include/libembedding/cpp/embedding_pool.hpp:111-159 | runs have bounded length, and one that cannot be extended has delivered everything |
| EmbedStream.StreamIsMap | include/libembedding/cpp/embedding_pool.hpp:111-159 | with no failure a finished stream has called back every text's embedding once, in text order |
| PoolEmbedding.CallWorker | include/libembedding/cpp/embedding_pool.hpp:225-237 | one worker call on a batch, with the number of texts as batch size, fails or returns one row per text, each at its text's place; no texts fail |
| PoolEmbedding.CallEmbeds | include/libembedding/detail/text_embedding_impl.hpp:291-370 | a successful call of a padding-independent model returns the embedding of every text on its own, in text order |
| PoolEmbedding.WorkersEmbed | include/libembedding/cpp/embedding_pool.hpp:215-241 | the calls of workers that are configured alike meet what the pool asks of its backend: each fails or maps the single-text embedding over its batch |
| PoolEmbedding.PoolReturnsEmbeddings | include/libembedding/cpp/embedding_pool.hpp:71-107 | `embed` returns the embedding of every text whose call succeeded, on its own, in text order, for all workers, batch sizes and strategies |
| PoolEmbedding.StreamDeliversEmbeddings | include/libembedding/cpp/embedding_pool.hpp:111-159 | a finished `embed_stream` has called back exactly those, in every interleaving |
| PoolEmbedding.PoolIsMap | include/libembedding/cpp/embedding_pool.hpp:71-107 | when nothing throws `embed` returns the embedding of every text on its own |
| PoolEmbedding.StreamIsMap | include/libembedding/cpp/embedding_pool.hpp:111-159 | when nothing throws a finished `embed_stream` has called back the embedding of every text on its own once, in text order |
| PoolEmbedding.PoolAgreesWithOneCall | include/libembedding/cpp/embedding_pool.hpp:71-107 | when nothing throws row k of the pool's result is row k of one library call on all texts, under any batch size and order of that call |
| Sorting.SortDescCorrect | benchmarks/reranking/bench_quality.py:37-41 | the stable sort is a permutation in descending key order |
| Sorting.SortDescFilter | benchmarks/reranking/bench_quality.py:37-41 | stability: sorting commutes with keeping the elements of any predicate |
| Sorting.SortInPlace | include/libembedding/reranker.h:364-367 | the array becomes some permutation of itself in descending key order |
| DiscountedGain.AbelInequality | benchmarks/reranking/bench_quality.py:26-31 | under a decreasing discount, dominated prefix sums give a dominated discounted sum, strictly so if one proper prefix is strictly dominated |
| DiscountedGain.DcgIsSum | benchmarks/reranking/bench_quality.py:26-31 | the DCG is the sum over all ranks of the gain there divided by the logarithm of that rank |
| DiscountedGain.TopPrefixIsBest | benchmarks/reranking/bench_quality.py:40-44 | no j items of a list gain more than the first j of its gain-descending order |
| DiscountedGain.DominatedDcg | benchmarks/reranking/bench_quality.py:26-31 | dominated prefixes give at most the DCG, and equal DCGs force equal gains rank by rank |
| RankingMetrics.ComputeDcg | benchmarks/reranking/bench_quality.py:26-31 | the loop computes the DCG of the sliced list |
| RankingMetrics.GainLaws | benchmarks/reranking/bench_quality.py:30 | the gain is 0 for relevance 0, 1 for relevance 1, and gain + 1 multiplies where relevances add up |
| RankingMetrics.ComputedDcgOfOne | benchmarks/reranking/bench_quality.py:26-31 | the computed DCG of one item times the first logarithm is its gain |
| RankingMetrics.ComputedDcgOfConcat | benchmarks/reranking/bench_quality.py:26-31 | the computed DCG of a list and what follows it is the sum of both, the latter under the logarithms of its own ranks |
| RankingMetrics.RankedIs | benchmarks/reranking/bench_quality.py:35-38 | the ranking is a permutation of the items in descending score order, and of each score in the order they came |
| RankingMetrics.ComputeNdcg | benchmarks/reranking/bench_quality.py:34-46 | the function computes nDCG of the stably score-sorted list and its result lies in [0, 1] |
| RankingMetrics.NdcgIs | benchmarks/reranking/bench_quality.py:34-46 | nDCG times the DCG of any descending order of the relevances is the DCG of the ranking, both cut at k; it is 0 when that order gains nothing |
| RankingMetrics.IdealOrderIsBest | benchmarks/reranking/bench_quality.py:40-44 | no order of the relevances beats the descending one at any cut, and only an order with the same first k relevances equals it |
| RankingMetrics.NdcgInUnitInterval | benchmarks/reranking/bench_quality.py:34-46 | nDCG@k is in [0, 1] for all scores, relevances and k |
| RankingMetrics.NdcgIsOneIff | benchmarks/reranking/bench_quality.py:34-46 | with a positive ideal, nDCG@k is 1 exactly when the first k relevances are the ideal first k |
| RankingMetrics.ComputeMrr | benchmarks/reranking/bench_quality.py:49-55 | the scan returns the reciprocal of the first hit's rank, and 0 exactly when nothing is relevant |
| RankingMetrics.HitsAre | benchmarks/reranking/bench_quality.py:49-55 | a rank is a hit exactly when the relevance there reaches the threshold |
| RankingMetrics.ReciprocalRankIs | benchmarks/reranking/bench_quality.py:49-55 | the value times the rank of the first hit, counted from 1, is 1; it is 0 when there is none |
| RankingMetrics.RecallIsOfRanking | benchmarks/image/bench_multimodal.py:101-108 | the recall with the total taken over the unsorted list is a property of the ranking, in [0, 1] |
| RankingMetrics.RecallIs | benchmarks/image/bench_multimodal.py:101-108 | recall times all hits is the hits of the first k ranks |
| RankingMetrics.ComputeMap | benchmarks/image/bench_multimodal.py:133-146 | the loop computes the mean over the hits of the precision at each hit |
| RankingMetrics.AveragePrecisionIs | benchmarks/image/bench_multimodal.py:133-146 | average precision times the number of hits is the sum of the precisions at the ranks that hold one |
| RankingMetrics.AveragePrecisionRange | benchmarks/image/bench_multimodal.py:133-146 | average precision is in [0, 1] and is 1 exactly when the hits form a non-empty prefix |
| RankingMetrics.PromotingARelevantItem | benchmarks/image/bench_multimodal.py:101-146 | moving a relevant item one rank up past an irrelevant one strictly raises average precision and lowers none of recall, nDCG, reciprocal rank |
| Tokenizing.EncodedRow | include/libembedding/detail/tokenizer_impl.hpp:247-281 | what the mask shows of a padded row is the text's own encoding cut at the maximum, whatever the rest of the batch is |
| Tokenizing.EncodedIsPadded | include/libembedding/detail/tokenizer_impl.hpp:247-281 | an encoded batch is a function of the texts' token rows, cut at the maximum: those rows padded to the longest of them, tokens under ones and padding under zeros |
| Tokenizing.SentIsEncoded | include/libembedding/detail/tokenizer_impl.hpp:247-281 | any tensors that hold the texts' cut encodings row by row, under ones, padded to the longest under zeros, with zero type ids, are those of the encoded batch: nothing else can be sent |
| Tokenizing.FlattenRows | include/libembedding/reranker.h:332-341 | cells i*len to i*len+len of the flat tensor are row i |
| Tokenizing.FlattenBatch | include/libembedding/reranker.h:332-341 | the flat tensors hold the encoded rows one after the other |
| BatchRuns.InBatchesIsMap | include/libembedding/reranker.h:318-351 | when every batch treats its items one by one, running in batches of any size is the map over the items |
| BatchRuns.InBatchesSucceedsIff | include/libembedding/reranker.h:318-351 | the batch loop succeeds exactly when the run of every batch j * b to j * b + b does |
| BatchRuns.InBatchesAtPlace | include/libembedding/reranker.h:318-351 | and result j * b + i of the whole is result i of batch j |
| Reranker.RunBatchIs | include/libembedding/reranker.h:324-345 | one batch is the session's run on the tensors of its texts' tokens, and fails when a text of it cannot be encoded |
| Reranker.ScoresExistIff | include/libembedding/reranker.h:318-351 | scores exist exactly when the session returns on every batch of pairs; then every text "query [SEP] document" can be encoded |
| Reranker.RankedByOwnPair | include/libembedding/reranker.h:318-367 | with a padding-independent model every ranked item carries the score of the tokens of one text: the query, " [SEP] " and the item's document, in this order, cut at the maximum length |
| Reranker.ScoresAreIndependentOfBatching | include/libembedding/reranker.h:318-351 | with a padding-independent model the scores are those of each document's own query-document pair, in document order, for every batch size |
| Reranker.BatchSizeDoesNotMatter | include/libembedding/reranker.h:318-351 | two batch sizes give the same scores when no batch throws |
| Reranker.PermutedPairsAreDistinct | include/libembedding/reranker.h:359-367 | a permutation of the pairs names every document once, with its own score |
| Reranker.Context.ScoreAll | include/libembedding/reranker.h:312-351 | the batch loop succeeds exactly when no batch's encoding or run throws and then holds every document's score at its index |
| Reranker.Context.Rerank | include/libembedding/reranker.h:297-381 | status for empty input, throwing encoding or run, and success; on success all pairs in descending score order and updated statistics, otherwise nothing changes |
| RerankerQuality.ComputeNdcgAt10 | benchmarks/bench_reranker_compare.cpp:179-203 | the two loops and the sort compute discounted hits over the best value the judgments allow |
| RerankerQuality.NdcgAt10Is | benchmarks/bench_reranker_compare.cpp:179-203 | the metric times the discounts of the leading min(10, places, relevant documents) ranks is the sum of the discounts of the hits among the first ten places |
| RerankerQuality.HitsAtMostPositives | benchmarks/bench_reranker_compare.cpp:186-192 | a list of distinct indices hits no more relevant documents than there are |
| RerankerQuality.NdcgAt10Range | benchmarks/bench_reranker_compare.cpp:179-203 | when the places that are read name distinct documents the metric is in [0, 1], and 1 exactly when the leading ranks are all relevant |
| RerankerQuality.RerankedNdcgInUnitInterval | benchmarks/bench_reranker_compare.cpp:179-203 | every permutation of the reranker's pairs scores in [0, 1], for every judgment list |
| RerankerQuality.NdcgAt10BoundedIff | benchmarks/bench_reranker_compare.cpp:179-203 | a list of non-negative indices scores at most 1 under all judgments if and only if its first ten places name distinct documents |
| RerankerQuality.RepeatedIndexExceedsOne | benchmarks/bench_reranker_compare.cpp:179-203 | a list that repeats a document in its first ten places scores above 1 under the judgments that make just its documents relevant |
| RerankerQuality.ComputeMrr | benchmarks/bench_reranker_compare.cpp:208-219 | the scan over ranked indices is the reciprocal rank of the hit pattern |
| RerankerQuality.MeasureQuery | benchmarks/bench_reranker_compare.cpp:236-251 | both metrics of one query are those of a descending permutation of the scored documents, or of no results when the call fails, and lie in [0, 1] |
| RerankerQuality.MeasureQuality | benchmarks/bench_reranker_compare.cpp:224-254 | both averages are the means over all queries of the metrics of their rankings and lie in [0, 1], whatever the model does and whichever calls fail; without queries there is no average |
| RerankerQuality.TotalsAre | benchmarks/bench_reranker_compare.cpp:236-254 | the totals behind the averages are the sums over all queries of each query's own metric |
| PaddingCost.ChunksCoverTexts | include/libembedding/types.h:279-283 | for one abstract length per text: in any order the texts of length at least t need that many slots in chunks of length at least t |
| PaddingCost.CellsOfChunk | include/libembedding/types.h:279-283 | for one abstract length per text: one batch takes as many cells as it has texts times the longest |
| PaddingCost.CellsAddUp | include/libembedding/types.h:279-283 | for one abstract length per text: full batches and what follows them take their own cells |
| PaddingCost.SortedIsOptimal | include/libembedding/types.h:279-283 | for one abstract length per text: with full chunks no order takes fewer cells than either sorted order |
| PaddingCost.DescendingOptimalIff | include/libembedding/types.h:279-283 | for one abstract length per text, out of any set of lengths: longest first minimises padding for all n texts if and only if b divides n, n <= b, or only one length can occur |
| PaddingCost.AscendingOptimalIff | include/libembedding/types.h:279-283 | the same for shortest first, again for one abstract length per text |
| PaddingCost.WasteAtMostVariation | include/libembedding/types.h:279-283 | for one abstract length per text, in any order: the padding is at most b times the total variation of the lengths |
| PaddingCost.SortedWaste | include/libembedding/types.h:279-283 | for one abstract length per text: in sorted order the padding is at most b * (longest - shortest) cells, for every n |
| Pooling.Pool | include/libembedding/detail/pooling.hpp:27-82 | row i of the buffer becomes the tensor's own row, the first token's row, or the attention-masked mean of text i, and no text's row disturbs another's |
| Pooling.AveragedCell | include/libembedding/detail/pooling.hpp:64-80 | every mean-pooled cell times the number of tokens the mask shows is the sum of that cell over those tokens; it is 0 when none is shown |
| Pooling.CopiedCell | include/libembedding/detail/pooling.hpp:27-62 | first-token pooling and pooled tensors copy the tensor's cell of the text's first token, or of the text |
| Pooling.MeanIsAverage | include/libembedding/detail/pooling.hpp:64-80 | the mean of some rows times their number is their sum, component by component |
| Pooling.MeanOfPermuted | include/libembedding/detail/pooling.hpp:64-80 | the order of the rows does not matter |
| Pooling.MeanOfOne | include/libembedding/detail/pooling.hpp:53-57 | the mean of one row is that row, so copying an already pooled tensor agrees with pooling it |
| OnnxBatching.OnnxEmbed | include/libembedding/detail/text_embedding_impl.hpp:283-373 | fails exactly when counting tokens or some batch's encoding or run throws; otherwise every text's pooled and normalised row stands at the text's place in the flat result, and the cells used are those of the chosen order cut into chunks |
| OnnxBatching.RunAndPool | include/libembedding/detail/text_embedding_impl.hpp:321-361 | one batch becomes its normalised pooled rows, one after the other, in batch size times most tokens cells |
| OnnxBatching.RunBatchIs | include/libembedding/detail/text_embedding_impl.hpp:314-341 | one batch is the session's run on the tensors of its texts' tokens, and fails when a text of it cannot be encoded |
| DenseEmbedding.EmbeddingsInPlace | include/libembedding/detail/text_embedding_impl.hpp:307-370 | with a padding-independent session row k is the embedding of text k alone, under every strategy and batch size |
| DenseEmbedding.EmbeddingOfText | include/libembedding/detail/text_embedding_impl.hpp:346-361 | that embedding, component by component: the rows of the text's cut encoding averaged, or the first of them, divided by the length of the result, zero when that is at most 1e-12 |
| TextEmbedding.Context.Embed | include/libembedding/detail/text_embedding_impl.hpp:378-434 | status for empty input, for a batch size that dynamic quantisation forbids, for a throw and for success; on success a new buffer with every text's row at its place and updated statistics, otherwise no buffer and nothing changes |
| TextEmbedding.CountsItsRunsIff | include/libembedding/detail/text_embedding_impl.hpp:307-417 | the batches added to the statistics are the batches of the loop if and only if the strategy is not sequential, the batch size is 1, or there is one text |
| DenseEmbedding.RowsAreUnitOrNull | include/libembedding/detail/text_embedding_impl.hpp:361-370 | every returned row has norm 1 or is zero, whatever the session computes |
| OnnxBatching.ChooseOrder | include/libembedding/detail/text_embedding_impl.hpp:291-305 | the processing order is a permutation, by descending token count when bucketing, the identity otherwise; it fails exactly when a text to be counted cannot be encoded |
| BucketingCost.BucketingSavesCells | include/libembedding/detail/text_embedding_impl.hpp:295-312 | when b divides n or n <= b bucketing never takes more token cells than fixed batching of the given order |
| BucketingCost.BucketingWaste | include/libembedding/detail/text_embedding_impl.hpp:295-312 | bucketing takes between the total token count and that plus b * (most tokens - fewest tokens) cells |
| BucketingCost.BucketingOptimalIff | include/libembedding/detail/text_embedding_impl.hpp:295-312 | for every tokenizer, no order of any n texts takes fewer token cells than bucketing if and only if b divides n, n <= b, or all texts that encode have as many tokens |
| BucketingCost.BucketingLoses | include/libembedding/detail/text_embedding_impl.hpp:295-312 | otherwise one text with more tokens and n - 1 with fewer, all of which encode, take fewer cells with the long one last |
| BucketingCost.EmbedInChunks | benchmarks/bench_diagnostic.cpp:221-226 | the loop of library calls allocates the token cells of the corpus cut into chunks, in the order given, when no call fails |
| BucketingCost.SortedBenchmark | benchmarks/bench_diagnostic.cpp:61-67 | the benchmark pays the token cells of its character-sorted corpus; when token counts follow character counts these waste at most chunk * (most tokens - fewest tokens) |
| BucketingCost.CharacterSortBoundedIff | benchmarks/bench_diagnostic.cpp:61-67 | sorting by characters bounds the token padding of the corpora drawn from a pool of texts if and only if b = 1 or texts of the pool that encode and have as many characters have as many tokens |
| BucketingCost.TiesWasteWithoutBound | benchmarks/bench_diagnostic.cpp:61-67 | two texts that encode and have as many characters but different token counts make character-sorted corpora that waste more than any bound |
| VectorGeometry.CosineSimilarity | include/libembedding/similarity.h:46-56 | the loop computes the cosine, 0 for missing input or a zero vector, and always a value in [-1, 1] |
| VectorGeometry.DotIsSum | include/libembedding/similarity.h:58-65 | the dot product is the sum over all components of their products |
| VectorGeometry.CosineIs | include/libembedding/similarity.h:46-56 | the cosine times both lengths is the dot product; without a direction it is 0 |
| VectorGeometry.DistanceIs | include/libembedding/similarity.h:67-75 | the square of the distance is the sum of the squared differences |
| VectorGeometry.DotProduct | include/libembedding/similarity.h:58-65 | the loop computes the dot product of the first dim components, 0 for missing input |
| VectorGeometry.EuclideanDistance | include/libembedding/similarity.h:67-75 | the loop computes the distance of the first dim components, 0 for missing input |
| VectorGeometry.CauchySchwarz | include/libembedding/similarity.h:46-56 | the squared dot product is at most the product of the squared norms, in every dimension |
| VectorGeometry.CosineRange | include/libembedding/similarity.h:46-56 | the cosine is symmetric and in [-1, 1] |
| VectorGeometry.CosineIsOneIff | include/libembedding/similarity.h:46-56 | the cosine is 1 exactly when the vectors have the same direction |
| VectorGeometry.DistanceIsMetric | include/libembedding/similarity.h:67-75 | the distance is symmetric, non-negative, and 0 exactly between equal vectors |
| VectorGeometry.TriangleInequality | include/libembedding/similarity.h:67-75 | the direct distance is at most the distance over a third vector |
| VectorGeometry.UnitRankingsAgree | include/libembedding/similarity.h:46-75 | for unit vectors dot product, cosine and ascending distance order candidates alike |
| Normalize.L2Normalize | include/libembedding/detail/normalize.hpp:20-33 | the buffer becomes its row-normalised form in place; a count or dimension that is not positive changes nothing |
| Normalize.NormalizedRows | include/libembedding/detail/normalize.hpp:20-33 | row i depends on row i alone, and cells beyond the block stay as they were |
| Normalize.NormalizedRowIs | include/libembedding/detail/normalize.hpp:24-31 | every component of a normalised row times the length of the row is that component of the row, and 0 when the length is at most 1e-12 |
| Normalize.UnitOrZero | include/libembedding/detail/normalize.hpp:27-31 | a row gets norm 1 exactly when its norm exceeded 1e-12, and otherwise becomes zero |
| Normalize.NormalizeIdempotent | include/libembedding/detail/normalize.hpp:20-33 | a second call changes no cell |
| Int8.QuantizeToInt8 | benchmarks/image/bench_vector_quantize.py:69-81 | every row is quantised on its own; an empty row makes the call fail |
| Int8.CodeIs | benchmarks/image/bench_vector_quantize.py:74-79 | a code is the place on the scale from -128 to 127 with its fraction dropped towards zero; a constant row has codes 0 |
| Int8.DequantizedIs | benchmarks/image/bench_vector_quantize.py:84-87 | a dequantised value stands code + 128 of 255 parts of the width above the minimum |
| Int8.CodesFitAndKeepOrder | benchmarks/image/bench_vector_quantize.py:74-79 | codes are in [-128, 127] and a larger component never gets a smaller code |
| Int8.RoundTripError | benchmarks/image/bench_vector_quantize.py:69-87 | the round trip is off by less than (max - min)/255, and exact at the minimum, at the maximum and on constant rows |
| Int8.DequantizedExtremes | benchmarks/image/bench_vector_quantize.py:84-87 | the dequantised row has the original minimum and maximum |
| Int8.QuantizeIsProjection | benchmarks/image/bench_vector_quantize.py:69-87 | quantising the dequantised row gives the same codes again |
| Bmp.CreateBenchmarkImage | include/libembedding/detail/autotune_bench_image.hpp:26-62 | the nested loops write the header, then the padded rows in order |
| Bmp.EncodeIsImage | include/libembedding/detail/autotune_bench_image.hpp:26-50 | the buffer has exactly 54 + rowSize * height bytes and its header fields decode to a consistent image of that width and height |
| Bmp.HeaderIs | include/libembedding/detail/autotune_bench_image.hpp:26-50 | the header, byte by byte |
| Bmp.PixelIs | include/libembedding/detail/autotune_bench_image.hpp:52-58 | the three bytes of pixel (x, y): 255ths of width and height rounded down, and 128 |
| Bmp.PaddingIs | include/libembedding/detail/autotune_bench_image.hpp:59-61 | the bytes between the pixels of a row and the next multiple of four are zero |
| Bmp.DecodeRecoversPixel | include/libembedding/detail/autotune_bench_image.hpp:52-61 | a decoder that follows the header finds pixel (x, y) at 54 + rowSize * y + 3 * x with the colours written for it |
| WorkQueue.StepInv | benchmarks/baseline_bench.cpp:94-110 | every atomic step keeps each handed-out index in flight or embedded exactly once |
| WorkQueue.NoDuplicates | benchmarks/baseline_bench.cpp:100-106 | in every state of every interleaving no text of the round is embedded twice and none outside the corpus at all |
| WorkQueue.EveryRunEmbedsEachTextOnce | benchmarks/baseline_bench.cpp:94-115 | a run that cannot go on has done all rounds, each embedding every text once with the counter ending at corpus + sessions, in all corpus * iterations embeddings |
| WorkQueue.RunsAreBounded | benchmarks/baseline_bench.cpp:97-110 | no schedule takes more than iterations * (2 * corpus + sessions + 1) steps |
| WorkQueue.SomeThreadCanMove | benchmarks/baseline_bench.cpp:97-110 | until all rounds are over some thread can move |
| Splade.SpladePostprocess | include/libembedding/detail/sparse_postprocess.hpp:33-67 | each text's sparse vector is computed from the visible rows of that text alone |
| Splade.ScoreIsMax | include/libembedding/detail/sparse_postprocess.hpp:43-55 | an entry's score bounds every visible token's activation, is positive exactly when some visible logit is, and is then one of the activations |
| Splade.ExtractedTerms | include/libembedding/detail/sparse_postprocess.hpp:57-63 | extracted indices increase strictly and every value is the positive score at its index |
| Splade.LogitIsStored | include/libembedding/detail/sparse_postprocess.hpp:43-63 | every positive logit of a shown token has its entry stored, with at least its log(1 + logit) |
| Splade.StoredIsLogit | include/libembedding/detail/sparse_postprocess.hpp:43-63 | every stored entry is log(1 + logit) of a shown token's positive logit there |
| Splade.ScatterOfExtracted | include/libembedding/detail/sparse_postprocess.hpp:57-63 | scattering the sparse vector gives the score vector back: nothing is lost |
| Splade.SparseDotIsScoreDot | benchmarks/sparse/bench_sparse_similarity.py:51-58 | both sparse dot products of two postprocessed texts are the dense dot product of their scores |
| SparseDot.SparseDotsAgree | benchmarks/sparse/bench_sparse_similarity.py:51-58 | for distinct indices the index-match sum, the lookup sum and the dense dot product agree |
| SparseDot.SparseDotSymmetric | benchmarks/sparse/bench_sparse_similarity.py:51-58 | both sparse forms are symmetric |
| Pruning.PruneVector | benchmarks/sparse/bench_sparse_autotune.py:34-37 | the filter loop, stable sort and slice compute threshold-then-top-k |
| Pruning.PruneIs | benchmarks/sparse/bench_sparse_autotune.py:34-37 | what is kept is a front part of the terms in descending order of absolute value: all reach the threshold, at most k, and with fewer the next one falls short |
| Pruning.PruneOrderIrrelevant | benchmarks/sparse/bench_sparse_autotune.py:33-42 | threshold-then-top-k and top-k-then-threshold keep the same terms in the same sequence |
| Pruning.OrderNeverMattersIff | benchmarks/sparse/bench_sparse_autotune.py:33-42 | the two orders agree for all inputs if and only if k >= 0 |
| Pruning.KeptOutweighDropped | benchmarks/sparse/bench_sparse_autotune.py:33-42 | kept and dropped terms make up the survivors, and no dropped one exceeds a kept one in absolute value |
| Pruning.PruneComposes | benchmarks/sparse/bench_sparse_autotune.py:33-42 | two prunings are one with the larger threshold and the smaller k |
| SparseHeap.FillCell | include/libembedding/sparse_text_embedding.h:265-279 | hanging new buffers into an empty cell adds exactly them to what the result owns, still without sharing |
| SparseHeap.SparseEmbeddings.FreeBuffers | include/libembedding/types.h:418-421 | the loop frees exactly the buffers owned by the cells, each once |
| SparseHeap.SparseEmbeddings.Free | include/libembedding/types.h:416-426 | releasing removes exactly the blocks the result owns and empties it; an empty result is left alone |
| SparseEmbed.CellBuilds | include/libembedding/sparse_text_embedding.h:265-279 | one more copied text keeps the result well-formed, its earlier contents, and the rest of the heap |
| SparseEmbed.Context.FillAll | include/libembedding/sparse_text_embedding.h:224-281 | the batch loop fills one cell per text in order, or stops at the first batch whose encoding, run or postprocessing throws, with a result that can still be released |
| SparseEmbed.Context.Embed | include/libembedding/sparse_text_embedding.h:206-296 | status by case, the same for all options; on success every cell holds its text's whole vector in buffers of its own and the rest of the heap is as before; on a throw in encoding, run or postprocessing the heap is back to what it was and the result is empty |
| SparseOptions.AsDocumentedIff | include/libembedding/types.h:295-296 | the stored vector has the documented terms if and only if it has at most top_k of them (or top_k is 0) and all reach min_weight |
| SparseOptions.AlwaysHonouredIff | include/libembedding/types.h:295-296 | for a vocabulary of V > 0 entries: the stored vectors are the documented ones for all scores if and only if top_k is 0 or at least V and min_weight is at most 0 |
| SparseOptions.TopOneIsIgnored | include/libembedding/types.h:295-296 | one visible token with two positive logits: both terms are stored although one was asked for |
| SparseEmbed.EmbedList | python/src/libembedding/sparse_text_embedding.py:110-144 | the wrapper returns what was computed and leaves the heap as it found it, whether it returns or raises |
| SparseEmbed.FreeTwice | include/libembedding/types.h:416-426 | one free after the call restores the heap and a second one does nothing |
| SparseEmbed.VectorsAreIndependentOfBatching | include/libembedding/sparse_text_embedding.h:224-262 | with a padding-independent session the vectors are those of each text's own tokens, in text order, for every batch size |
| SparseEmbed.VectorOfText | include/libembedding/sparse_text_embedding.h:224-262 | a text's vector: an entry is stored exactly when some row of logits of its cut encoding is positive there, with the largest log(1 + logit) |
| SparseEmbed.RunBatchIs | include/libembedding/sparse_text_embedding.h:224-250 | one batch is the session's run on the tensors of its texts' tokens, and fails when a text of it cannot be encoded |
| IntList.ParseIntList | benchmarks/bench_reranker_compare.cpp:388-403 | the loop terminates and returns the value of every comma-separated segment; no argument gives the defaults |
| IntList.AtoiIs | benchmarks/bench_reranker_compare.cpp:393-401 | a segment's value: white space skipped, one sign taken, digits up to the first other character, 0 without digits |
| IntList.DigitsRead | benchmarks/bench_reranker_compare.cpp:393-401 | digits are read in base ten |
| IntList.JoinSplit | benchmarks/bench_reranker_compare.cpp:393-401 | the segments rejoined by commas are the input |
| IntList.SplitCounts | benchmarks/bench_reranker_compare.cpp:393-401 | there is one more segment than there are commas and none contains one |
| IntList.SplitJoin | benchmarks/bench_reranker_compare.cpp:393-401 | splitting undoes joining of comma-free parts |
| IntList.ParseInvertsPrint | benchmarks/bench_reranker_compare.cpp:388-403 | parsing the decimal, comma-separated print of a non-empty list of ints gives the list |
| LruCache.LRUCache.Get | include/libembedding/detail/embedding_cache_impl.hpp:40-55 | a live entry is found in its allocated buffer and becomes most recent, an expired one is dropped and its buffer freed, a miss changes nothing; list, map and buffers stay consistent |
| LruCache.LookupEffect | include/libembedding/detail/embedding_cache_impl.hpp:40-55 | entry by entry: a hit moves its key to the front of the list and changes nothing else, an entry past its time goes, a miss does nothing |
| LruCache.LRUCache.Put | include/libembedding/detail/embedding_cache_impl.hpp:57-90 | an existing key is overwritten and refreshed, a new one goes to the front and evicts the last of a full cache, capacity 0 stores nothing; exactly the entries' buffers stay allocated |
| LruCache.InsertionOrder | include/libembedding/detail/embedding_cache_impl.hpp:57-90 | an insertion brings its key to the front; of the others only the last key of a full cache goes, and only for a new key |
| LruCache.InsertionEntries | include/libembedding/detail/embedding_cache_impl.hpp:57-90 | the vector is stored in a new buffer with a new time to live, and keys that stay listed keep their entries |
| LruCache.LRUCache.Remove | include/libembedding/detail/embedding_cache_impl.hpp:124-129 | the key leaves list and map and its buffer is freed once; every other key keeps its entry and its place among the others, and list and map still agree |
| LruCache.LRUCache.Clear | include/libembedding/detail/embedding_cache_impl.hpp:92-100 | every buffer is freed exactly once and list and map are empty |
| LruCache.BufferLifetime | include/libembedding/detail/embedding_cache_impl.hpp:40-90 | an operation leaves a stored key's buffer allocated and unchanged if and only if it does not overwrite, evict or clear the key or find it expired |
| LruCache.HandleStaysAlive | include/libembedding/detail/embedding_cache_impl.hpp:50-54 | the buffer a lookup handed out is still allocated and unchanged after every history of operations that do not free it |
| LruCache.GetAfterPut | include/libembedding/detail/embedding_cache_impl.hpp:40-90 | after every history that does not free it, what was stored is found in its buffer until it expires |
| LruCache.RunKeepsValid | include/libembedding/detail/embedding_cache_impl.hpp:36-134 | after every history list and map hold the same distinct keys, no more than the capacity |
| LruCache.LargerCacheIncludesSmaller | include/libembedding/detail/embedding_cache_impl.hpp:40-90 | after every history a larger cache holds every entry of a smaller one with the same vector and expiry |
| LruCache.HitsAreMonotone | include/libembedding/detail/embedding_cache_impl.hpp:40-55 | a hit in the smaller cache is a hit with the same vector in the larger one |
| LruCache.FoundAgainIff | include/libembedding/detail/embedding_cache_impl.hpp:40-90 | the LRU law without expiry: a key that was stored or found is found again after operations on other keys if and only if these stored or found fewer than capacity keys |
| LruCache.RunSurvives | include/libembedding/detail/embedding_cache_impl.hpp:40-90 | the same from any state: the keys in front of it count as well |
| LruCache.FoundKeysSurvive | include/libembedding/detail/embedding_cache_impl.hpp:40-55 | a lookup makes its key most recent: after any operations on fewer than capacity other keys it gives what it gave |
| LruCache.UnusedKeyIsEvicted | include/libembedding/detail/embedding_cache_impl.hpp:57-90 | a key that is left alone while capacity other keys are stored or found is gone |
| LruCache.RecentKeysSurvive | include/libembedding/detail/embedding_cache_impl.hpp:40-90 | without expiry a stored key is found in its original buffer after every history that touches fewer than capacity other keys |

## Left out

- ONNX Runtime and llama.cpp inference, single-text tokenisation, image decoding, downloads and file access: parameters or uninterpreted functions.
- The llama.cpp branch of the reranker, and the backend routing around it.
- Float rounding, NaN and infinities: all arithmetic is exact.
- EmbeddingPool.Embed: the futures are run one after the other; their concurrency adds nothing because tasks share no mutable state. Their exceptions are not modelled.
- PoolEmbedding.CallWorker: every worker has the same tokenizer, pooling, dimension and strategy, as the constructor gives them; the sessions may differ and may fail at one call and not at another.
- EmbedStream.StepInv: writing `done[w]` is one atomic step. The original is a `vector<bool>` that the main thread writes outside the lock while workers read it, which C++ does not allow; callbacks that throw are not modelled either.
- WorkQueue.StepInv: the pool's session locking inside one embedding and a call that throws are not modelled.
- Integer overflow in the pool's and the batches' index arithmetic; only the BMP writer states its range (`Bmp.FitsInt`).
- Bmp.CreateBenchmarkImage: width and height of 0 or more; the original divides by them only inside the loops.
- Out-of-memory: allocation succeeds, except that `malloc(0)` may give NULL; exceptions are those of encoding, the session and the postprocessing.
- SparseHeap.SparseEmbeddings.Free: a result is assumed to own what its fields point at, as after construction or an embedding call; uninitialised structs are not modelled.
- SparseEmbed.Context.Embed: the type-id tensor is all zeros as in the code; latency statistics and the storage format option are not modelled.
- TextEmbedding.Context.Embed: the llama.cpp branch and the latency statistics; the null checks other than for no texts.
- OnnxBatching.OnnxEmbed: tensors have two or three dimensions and the context's embedding size; the buffers that the context keeps between calls are local, and type ids are the zeros the tokenizer gives. What the caller does with the result of a failed call is not modelled.
- BucketingCost.EmbedInChunks: the context's strategy is the default one, which the benchmark keeps.
- LruCache.LRUCache.Put: buffers are named by a counter and never reused; the mutex is not modelled and the clock is a parameter.
- IntList.ParseIntList: `atoi` without overflow.
- Copies of the metric functions in other benchmarks, timing, memory measurement, autotuning, model registries and option tables.
