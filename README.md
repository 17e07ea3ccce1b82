# Stack-trace clustering pipeline, in Dafny

This project models the core of the graph-network repository, a tool that
groups crash reports by their stack traces, and proves properties of that
model. It covers the following parts:

- **The vocabulary graph** (`graph/core/graph_manager.py`).
  - `NodeManager` keeps a pool of frame nodes keyed by the hash of the frame. Each node has a weight, out- and in-edge counters, and per-trace frequency counters.
  - `StacktraceManager` keeps five tables of tracked traces.
  - `GraphManager.add` chooses between a one-shot path and a chunked path, and, when it succeeds, ends by discarding both managers.
  - Modules `GraphPool` and `GraphPoolFacts` hold the pool updates as functions, with their counting lemmas. `TraceTables` holds the tables and `track`. `GraphBatches` holds `add` as a function of the old state, and `GraphManagers` holds the classes that perform the updates in place.
- **The JSON serialiser and loader** (`build/graph_saver.py`, `graph/build/graph_loader.py`): modules `GraphSaver` and `GraphLoader`, with a round-trip theorem.
- **The out-of-core clusterer** (`bigdata/core/bigdata.py`): module `BigData`. The HDF5 files are maps keyed by the path strings the code builds. It proves that `execute` fails exactly on an empty chunk or an all-zero row, and that otherwise each cluster list opens with its pivot, followed by later documents that score at least the threshold against it.
- **The in-memory greedy clusterer** (`graph/core/graph_algorithms.py`): module `GraphAlgorithms`. It proves that the clusters partition the documents, that each cluster is opened by its pivot, and that the clustering is maximal.
- **Trace utilities** (`graph/util.py`): module `TraceUtil`, covering the per-position representation of a group of traces and the common-sequence merge.
- **Validation and reporting**:
  - `core/graph_evaluation.py` is split between module `TokenValidation` (the static `validate`) and module `GraphEvaluation` (`fit` and the per-cluster report).
  - `core/constraint.py` is module `Constraint`.
  - `graph/core/graph_parser.py` is module `GraphParsing`.
  - `graph/core/report.py` is module `Report`.
- **The render-pruning rule** (`graph/viz/graph_render.py`): module `GraphRender`.

Module `Strings` holds Python's `sep.join`, `str.split` on one character and `str(n)`. Module `Wrappers` holds `Option`, `Result` and the Python exceptions the code can raise.

Whatever the code cannot decide by itself is passed in as a parameter:

- **The content hash.** MD5 is a parameter `h: Hasher` (a function from string to string). Lemmas that need distinct frames to have distinct hashes require `Injective(h)`.
- **Dictionary order.** Where the source iterates a dict and the order matters, the order is a parameter `order` that lists each key once. This applies to the saved node list, the render token list and the membership-row columns.
- **Set order.** Where the source turns a set into a list, the model picks any element.
- **The regex frame extractor** (`parse_with_regex`) is a function parameter `findFrames`.
- **The shared list `Constraint.VALUES`** is a parameter `values` where it is read. Module `Constraint` has a `ConstraintValues` object shared by all constructions.
- **The class attribute `STANDARD_MAX_NODES`** is a shared `RenderLimits` object.
- **Similarity scores.** The bigdata clusterer gets them from a function `sim`. The in-memory clusterer gets a matrix of `real`.

Exceptions are error results (`Result`, `Option` or an `ok` flag), never preconditions.

## Model

| member | source | states |
|---|---|---|
| GraphPool.Bump | graph/core/graph_manager.py:226-229 | `d[k] = d.get(k, 0) + 1` raises the count of `k` by one, leaves every other count alone, and adds `k` as a key |
| GraphPool.HashAll | graph/core/graph_manager.py:125-127 | the hash of every frame, position by position, same length |
| GraphPool.RegisterFrame | graph/core/graph_manager.py:218-221 | one registration keeps every old key and leaves a node at the frame's hash; it fails (KeyError) only when the frame string is a key but its hash is not |
| GraphPool.RegisterFrames | graph/core/graph_manager.py:218-221 | after registering a whole trace every frame has a node at its hash and no old key is lost |
| GraphPool.RegisterFramesStep | graph/core/graph_manager.py:218-221 | registering one more frame is one more `RegisterFrame` on the pool so far |
| GraphPool.RegisterFramesFailurePersists | graph/core/graph_manager.py:218-221 | once a prefix of the trace raises, the whole registration raises |
| GraphPool.LinkPair | graph/core/graph_manager.py:223-229 | one adjacent pair changes only edge counters: names, weights, attributes and frequencies stay |
| GraphPool.LinkEdges | graph/core/graph_manager.py:223-229 | the edge loop over a trace changes only edge counters |
| GraphPool.LinkEdgesStep | graph/core/graph_manager.py:223-229 | the edge loop after pair `i` is one more `LinkPair` on the pool so far |
| GraphPool.CountInTrace | graph/core/graph_manager.py:231-235 | the frequency loop changes only the `fre_id_stacktrace` counters |
| GraphPool.CountInTraceStep | graph/core/graph_manager.py:233-235 | the frequency loop after frame `i` is one more increment on the pool so far |
| GraphPool.LinkAndCount | graph/core/graph_manager.py:223-235 | the edge and frequency passes keep names, weights and attributes |
| GraphPool.AddWeights | graph/core/graph_manager.py:247-248 | the weight loop of `init_pool` keeps the pool's keys |
| GraphPool.AddWeightsStep | graph/core/graph_manager.py:247-248 | one more name raises the weight at its hash by one, or raises KeyError |
| GraphPool.AddWeightsFailurePersists | graph/core/graph_manager.py:247-248 | once a prefix raises, the whole weight loop raises |
| GraphPool.InitEdgesSpec | graph/core/graph_manager.py:250-263 | `init_edges` keeps the pool's keys |
| GraphPool.InitEdgesFailurePersists | graph/core/graph_manager.py:250-263 | once a prefix of the traces raises, `init_edges` raises |
| GraphPool.MembershipRow | graph/core/graph_manager.py:133-134 | one 0/1 entry per pool key |
| GraphPool.ConvertToOhv | graph/core/graph_manager.py:129-137 | the keys come back as given; row `r`, column `k` is 1 exactly when key `k` is the hash of some frame of trace `r` |
| GraphPoolFacts.RegisterFrameFresh | graph/core/graph_manager.py:219-221 | a frame string that is not a key gets a fresh node of weight 1 at its hash, replacing any node there |
| GraphPoolFacts.RegisterFramesGeneric | graph/core/graph_manager.py:218-221 | when no frame string is a key, registration succeeds; each frame's node is fresh, named by the frame, with weight 1; all other entries stay |
| GraphPoolFacts.LinkEdgesCounts | graph/core/graph_manager.py:223-229 | each adjacent pair (a, b) adds one to `a.out_edge[H(b)]` and one to `b.in_edge[H(a)]`, so the counters equal the number of adjacent (a, b) pairs |
| GraphPoolFacts.LinkPairCounts | graph/core/graph_manager.py:226-229 | one pair (x, y) adds one to the counters of (a, b) exactly when (x, y) is (a, b) |
| GraphPoolFacts.CountInTraceCounts | graph/core/graph_manager.py:231-235 | each frame's `fre_id_stacktrace[t]` grows by that frame's number of occurrences in the trace |
| GraphPoolFacts.InitNodesGeneric | graph/core/graph_manager.py:217-235 | when no frame is a key, `init_nodes` gives each frame f a node named f of weight 1 at H(f), whose out-edges, in-edges and frequency are the pair and occurrence counts of this trace |
| GraphPoolFacts.InitNodesTwiceKeepsWeightOne | graph/core/graph_manager.py:219-221 | registering the same trace twice still leaves weight 1, because the presence test compares the frame string with the hash keys |
| GraphPoolFacts.FreshNodesGeneric | graph/core/graph_manager.py:242-244 | when no name is a key, the comprehension holds exactly one fresh node per distinct name, at its hash |
| GraphPoolFacts.AddWeightsCounts | graph/core/graph_manager.py:247-248 | the weight at H(f) grows by the number of occurrences of f in the flattened frames |
| GraphPoolFacts.InitPoolGeneric | graph/core/graph_manager.py:237-248 | when no name is a key, `init_pool` succeeds and the node at H(f) is named f with weight equal to the count of f |
| GraphPoolFacts.InitEdgesCounts | graph/core/graph_manager.py:250-258 | over a pool holding every frame, `init_edges` adds the number of adjacent (a, b) pairs over all traces to both edge counters |
| GraphPoolFacts.SumOfRow | graph/core/graph_manager.py:133-134 | a membership row sums to the number of keys among the hashes |
| GraphPoolFacts.MembershipWeight | graph/core/graph_manager.py:129-137 | the ones in a trace's row count the distinct known frames of the trace |
| TraceTables.TrackSpec | graph/core/graph_manager.py:274-281 | `track` always appends the id to `uuid` first; it succeeds exactly when every frame has a node, and on a KeyError only `uuid` has changed |
| TraceTables.TrackAllFailurePersists | graph/core/graph_manager.py:122-123 | once a zipped prefix fails, the rest of the loop does nothing more |
| TraceTables.TrackAllTruncates | graph/core/graph_manager.py:122-123 | `zip` ignores the pairs beyond the shorter list |
| TraceTables.TrackRecordsTrace | graph/core/graph_manager.py:274-281 | tracking stores the trace under its key, maps the id and the key to node lists whose names are the frames in order, and raises the key's frequency by one |
| TraceTables.TrackAllCounts | graph/core/graph_manager.py:122-123 | tracking a batch whose frames all have nodes succeeds, appends the zipped ids in order, and raises each key's frequency by the number of tracked traces with that key |
| TraceTables.TrackAllCountsZipped | graph/core/graph_manager.py:122-123 | the same for lists of equal length |
| TraceTables.TrackCounts | graph/core/graph_manager.py:277-280 | one tracked trace raises its own key's frequency by one and no other |
| TraceTables.JoinedTextConflates | graph/core/graph_manager.py:277 | a trace is identified by its space-joined text, so `["a b"]` and `["a", "b"]` share a key |
| GraphBatches.FloorDiv | graph/core/graph_manager.py:84-86 | Python's `//` rounds toward minus infinity: `q*b <= a < q*b + b` for a positive divisor |
| GraphBatches.ChunksFrom | graph/core/graph_manager.py:87-91 | every visited slice is non-empty and ends within the data |
| GraphBatches.Slice | graph/core/graph_manager.py:94-97 | `seq[a:b]` clips both bounds to the length |
| GraphBatches.ValidNonExisting | graph/core/graph_manager.py:46-53 | the filter returns three lists of equal length |
| GraphBatches.ValidNonExistingKeeps | graph/core/graph_manager.py:46-53 | the filter keeps exactly the zipped records whose id is not tracked, whole, at ascending positions |
| GraphBatches.KeptExactly | graph/core/graph_manager.py:50-51 | the kept positions ascend and are exactly those whose id is not tracked |
| GraphBatches.KeptAscending | graph/core/graph_manager.py:50-51 | the kept positions ascend |
| GraphBatches.KeptMembers | graph/core/graph_manager.py:50-51 | a position is kept exactly when its id is not tracked |
| GraphBatches.KeptAgree | graph/core/graph_manager.py:50-51 | the kept positions below `m` depend only on the first `m` ids |
| GraphBatches.ValidNonExistingAllTracked | graph/core/graph_manager.py:52 | when every id is tracked already, the filter returns `([], [], [])` |
| GraphBatches.Defaults | graph/core/graph_manager.py:67-69 | `n` copies of `{'static_attribute': None}` |
| GraphBatches.ListAttrs | graph/core/graph_manager.py:118-119 | every flattened frame gets the whole attribute list of its chunk |
| GraphBatches.AddListStep | graph/core/graph_manager.py:112-113 | one more record is one more `init_nodes` then `track` on the state so far |
| GraphBatches.AddListFailurePersists | graph/core/graph_manager.py:112-113 | once a record raises, the whole list raises |
| GraphBatches.AddListUuid | graph/core/graph_manager.py:109-114 | a successful list appends all its ids to `uuid`, in order |
| GraphBatches.AddOneUuid | graph/core/graph_manager.py:105-107 | a record that is added is appended to `uuid` |
| GraphBatches.OneShotTracksNew | graph/core/graph_manager.py:66-78 | on success the one-shot path appends exactly the ids the filter kept, in order |
| GraphBatches.OneShotSkipsTracked | graph/core/graph_manager.py:66-78 | a list whose ids are all tracked leaves the pool and the tables as they were |
| GraphBatches.ChunkFoldSnoc | graph/core/graph_manager.py:87-98 | one more chunk after a successful prefix is one more `__add_with_speedup__` |
| GraphBatches.ChunkFoldFailurePersists | graph/core/graph_manager.py:87-98 | once a chunk raises, the later chunks change nothing |
| GraphBatches.QuotientFacts | graph/core/graph_manager.py:84-86 | with a positive chunk size the quotient is not negative, and the remainder is 0 exactly when the quotient times the size is the count |
| GraphBatches.IterationBelow | graph/core/graph_manager.py:84-88 | every iteration of the chunk loop starts below the count |
| GraphBatches.IterationsBounds | graph/core/graph_manager.py:84-86 | `iterations` covers the count, every iteration starts below it, and there is at least one iteration for non-empty data |
| GraphBatches.ChunksFromUnfold | graph/core/graph_manager.py:87-91 | one iteration either stops at an empty range or visits `[i*C, min(n, (i+1)*C))` |
| GraphBatches.ChunksFromShape | graph/core/graph_manager.py:87-91 | from iteration `i` on, the loop visits exactly the slices `[k*C, min(n, (k+1)*C))` |
| GraphBatches.ChunksCoverRange | graph/core/graph_manager.py:84-98 | the loop never breaks; its slices are in order, adjacent (so disjoint), and cover `0..n-1` |
| GraphBatches.TrackAllUuid | graph/core/graph_manager.py:122-123 | a successful tracking loop appends the zipped ids to `uuid` |
| GraphBatches.ChunkStepUuid | graph/core/graph_manager.py:116-123 | a successful chunk appends its zipped ids to `uuid` |
| GraphBatches.ChunkUuid | graph/core/graph_manager.py:94-98 | the chunk `[start, end)` extends the ids tracked before `start` to those before `end` |
| GraphBatches.ChunkFoldUuid | graph/core/graph_manager.py:87-98 | adjacent chunks from 0 track every id they cover, in order |
| GraphBatches.SpeedUpTracksAll | graph/core/graph_manager.py:80-100 | on success the chunked path tracks every id that `zip` pairs with a trace, in order |
| GraphBatches.Kept | graph/core/graph_manager.py:50-51 | the kept positions lie below `n` |
| GraphManagers.NodeManager.constructor | graph/core/graph_manager.py:211-212 | the pool starts empty |
| GraphManagers.NodeManager.GetNode | graph/core/graph_manager.py:214-215 | the node at the hash of the name, and a KeyError exactly when that hash is missing |
| GraphManagers.NodeManager.InitNodes | graph/core/graph_manager.py:217-235 | the pool becomes `InitNodesSpec` of the old pool; on a KeyError it is the pool after the frames registered before the failure |
| GraphManagers.NodeManager.RegisterTrace | graph/core/graph_manager.py:218-221 | the registration loop in place: the pool becomes `RegisterFrames` of the old pool, or a registered prefix on failure |
| GraphManagers.NodeManager.RegisterStep | graph/core/graph_manager.py:219-221 | one registration in place; a failure changes nothing |
| GraphManagers.NodeManager.LinkTrace | graph/core/graph_manager.py:223-229 | the edge loop in place: the pool becomes `LinkEdges` of the old pool |
| GraphManagers.NodeManager.LinkStep | graph/core/graph_manager.py:224-229 | one pair in place: the pool becomes `LinkPair` of the old pool |
| GraphManagers.NodeManager.CountTrace | graph/core/graph_manager.py:231-235 | the frequency loop in place: the pool becomes `CountInTrace` of the old pool |
| GraphManagers.NodeManager.CountStep | graph/core/graph_manager.py:234-235 | one `fre_id_stacktrace[t] += 1` at one key |
| GraphManagers.NodeManager.InitPool | graph/core/graph_manager.py:237-248 | None arguments or unequal lengths fail with the pool unchanged; otherwise the pool becomes `InitPoolSpec`, or, on a KeyError, the fresh nodes plus the weights counted before the failure |
| GraphManagers.NodeManager.InitEdges | graph/core/graph_manager.py:250-263 | the pool becomes `InitEdgesSpec` of the old pool; names, weights and attributes never change, even on a KeyError |
| GraphManagers.NodeManager.LinkAndCountPartial | graph/core/graph_manager.py:251-263 | a trace with a frame missing from the pool fails, changing only counters |
| GraphManagers.NodeManager.LinkPartial | graph/core/graph_manager.py:252-258 | the edge loop stops at the first missing frame and changes only counters |
| GraphManagers.NodeManager.CountPartial | graph/core/graph_manager.py:260-263 | the frequency loop over a trace with a missing frame fails, changing only counters |
| GraphManagers.StacktraceManager.constructor | graph/core/graph_manager.py:267-272 | all five tables start empty |
| GraphManagers.StacktraceManager.Track | graph/core/graph_manager.py:274-281 | the tables and the outcome are `TrackSpec` of the old tables |
| GraphManagers.GraphManager.constructor | graph/core/graph_manager.py:20-38 | the graph manager holds the node and trace managers its configuration loaded |
| GraphManagers.GraphManager.Add | graph/core/graph_manager.py:55-64 | succeeds exactly when `AddSpec` does; on success it returns the state it built and, as `__post_action__` runs only then, leaves two fresh, empty managers |
| GraphManagers.GraphManager.PostAction | graph/core/graph_manager.py:192-197 | both managers are replaced by fresh, empty ones |
| GraphManagers.GraphManager.PrepareOneShot | graph/core/graph_manager.py:66-78 | the managers' state becomes `OneShotSpec` of the old state |
| GraphManagers.GraphManager.AddListStacktrace | graph/core/graph_manager.py:109-114 | succeeds exactly when `AddList` of the old state does, and on success the managers' state becomes it |
| GraphManagers.GraphManager.AddSingleStacktrace | graph/core/graph_manager.py:105-107 | succeeds exactly when `AddOne` of the old state does, and on success the managers' state becomes it |
| GraphManagers.GraphManager.PrepareSpeedUp | graph/core/graph_manager.py:80-100 | the chunk loop in place: the managers' state becomes `SpeedUpSpec` of the old state; a chunk size of 0 fails |
| GraphManagers.GraphManager.AddWithSpeedup | graph/core/graph_manager.py:116-123 | succeeds exactly when `ChunkStep` of the old state does, and on success the managers' state becomes it |
| GraphManagers.GraphManager.BuildChunkPool | graph/core/graph_manager.py:117-121 | succeeds exactly when `init_pool` of the flattened frames, then `init_edges`, does, and on success the pool becomes their result |
| GraphManagers.GraphManager.TrackChunk | graph/core/graph_manager.py:122-123 | the tables become `TrackAll` of the old tables |
| GraphSaver.HashNames | build/graph_saver.py:34-38 | the hash of every node's name, in order, same length |
| GraphSaver.HashNamesMap | build/graph_saver.py:34-38 | the node lists become hash lists under the same keys |
| GraphSaver.Save | build/graph_saver.py:44-50 | 'pickle' writes the managers themselves; every other format, 'hdf5' included, writes `__graph2json__` |
| GraphSaver.Graph2JsonOneEntryPerNode | build/graph_saver.py:18-29 | one entry per pool item, carrying the key as `hash_id` and the node's name, weight, edges and frequencies, and no static attribute |
| GraphSaver.Graph2JsonCopiesTables | build/graph_saver.py:31-38 | `uuid`, `stacktrace` and `freq_stacktrace` are copied; the node lists become hash lists with the same keys and lengths |
| GraphLoader.EntryNode | graph/build/graph_loader.py:20-26 | `dict2node` succeeds exactly when every key it reads is present, and the static attribute stays None |
| GraphLoader.ResolveMap | graph/build/graph_loader.py:38-42 | resolving succeeds exactly when every hash is a pool key, and keeps the keys and the list lengths |
| GraphLoader.PoolOfDefined | graph/build/graph_loader.py:31-32 | the pool exists exactly when every entry is complete |
| GraphLoader.PoolOfKeys | graph/build/graph_loader.py:31-32 | the pool's keys are exactly the entries' `hash_id`s |
| GraphLoader.PoolOfNodes | graph/build/graph_loader.py:31-32 | each pool node is `dict2node` of an entry with that hash |
| GraphLoader.Json2GraphDefined | graph/build/graph_loader.py:28-46 | loading succeeds exactly when no key is missing, in the object or in a pool lookup; otherwise it gives None |
| GraphLoader.Json2GraphContents | graph/build/graph_loader.py:28-43 | the loaded pool has the entries' hashes as keys and no static attribute; the three plain tables are copied; hash lists resolve to pool nodes, with the same lengths |
| GraphLoader.PoolOfEntries | graph/build/graph_loader.py:31-32 | loading saved entries gives each key its node without the static attribute |
| GraphLoader.LoadedPool | graph/build/graph_loader.py:31-32 | the saved node list loads back as the pool without static attributes |
| GraphLoader.ResolveHashNames | graph/build/graph_loader.py:38-42 | resolving the saved name hashes against a pool keyed by name hashes gives nodes with the same names |
| GraphLoader.RoundTrip | graph/build/graph_loader.py:19-43 | loading what the saver wrote gives back every pool key with the same name, weight, edges and frequencies, the same plain tables, and node lists with the same names |
| BigData.ChunkKeysInjective | bigdata/core/bigdata.py:37-44 | different chunk indices never share a uuid or data path, and no uuid path is a data path |
| BigData.BlockKeyInjective | bigdata/core/bigdata.py:85-89 | each ordered chunk pair (i, j) has its own `/gmat_i/sub_mat_j` path |
| BigData.BlockOf | bigdata/core/bigdata.py:183 | a block has a row per document of chunk i and a column per document of chunk j |
| BigData.Range | bigdata/core/bigdata.py:204 | `range(lo, hi)` as a set |
| BigData.Insert | bigdata/core/bigdata.py:258 | inserting adds exactly one element |
| BigData.InsertSorted | bigdata/core/bigdata.py:258 | inserting into a sorted list keeps it sorted |
| BigData.SortInts | bigdata/core/bigdata.py:258 | `sorted(v)` is sorted and a permutation of `v` |
| BigData.ListOfSet | bigdata/core/bigdata.py:205 | a set turned into a list holds each element exactly once |
| BigData.ComputeBlocks | bigdata/core/bigdata.py:173-186 | succeeds exactly when no chunk is empty (a one-dimensional array, whose `shape[1]` raises at core/matrix.py:15) and no stored row is all zero (the assertion at core/matrix.py:20); then the block of every ordered pair (i, j) is stored under its path |
| BigData.StoreKeeps | bigdata/core/bigdata.py:183-186 | storing block (i, j) keeps every block stored before it in the nested loop order, because no two pairs share a path |
| BigData.WideRow | bigdata/core/bigdata.py:208-213 | a stacked row has one score per document of the collection |
| BigData.StackRows | bigdata/core/bigdata.py:207-213 | `np.hstack` of the selected rows over all chunks: each row is the document's scores against the whole collection |
| BigData.StackChunk | bigdata/core/bigdata.py:209-213 | one chunk of the stacking extends every selected row by that block's row |
| BigData.DocInChunk | bigdata/core/bigdata.py:204 | document d of chunk i, counted from the chunk's first document, is row d - Offset(i) of that chunk |
| BigData.WideRowScore | bigdata/core/bigdata.py:207-213 | entry x of a stacked row is the score of the row's document against document x of the collection |
| BigData.StackedScores | bigdata/core/bigdata.py:207-213 | over the computed blocks, the stacked row of row r of chunk i is the score row of document Offset(i) + r against every document |
| BigData.StackedRowScores | bigdata/core/bigdata.py:205-213 | every stacked row of the chunk's leftover documents is that document's score row |
| BigData.StackLeftover | bigdata/core/bigdata.py:201-213 | the chunk's ungrouped documents, and rows that are exactly their scores against the whole collection |
| BigData.Offsets | bigdata/core/bigdata.py:228 | `np.where` on the slice after the pivot gives offsets into the slice |
| BigData.Similar | bigdata/core/bigdata.py:228-229 | the documents that join the pivot: ungrouped, after the pivot, with a score at least the threshold |
| BigData.Candidates | bigdata/core/bigdata.py:216-222 | the pivot candidates: the chunk's stacked documents that are still ungrouped |
| BigData.PivotRow | bigdata/core/bigdata.py:224-228 | the row read for a pivot is the stacked row of that pivot |
| BigData.PivotRowAsWrittenMisreads | bigdata/core/bigdata.py:224-228 | with documents 3, 4, 5 in the chunk and 3 grouped, the scan as written takes pivot 4 but reads document 5's row, while the pivot's own row is row 0 |
| BigData.AllocateKeeps | bigdata/core/bigdata.py:231-248 | a new cluster of distinct ungrouped documents keeps the scan state, including the asserted equality of listed and grouped counts |
| BigData.Allocated | bigdata/core/bigdata.py:233-234 | a fresh cluster id means `get(cid, []) + sims` is just `sims`, and the scan state holds |
| BigData.PivotAppended | bigdata/core/bigdata.py:229-230 | appending the pivot to its similar documents gives a non-empty list without repeats |
| BigData.ClusterOf | bigdata/core/bigdata.py:228-230 | a new cluster is its similar documents without repeats, then the pivot last |
| BigData.NewCluster | bigdata/core/bigdata.py:228-248 | one allocation: the next consecutive id holds the similar documents and then the pivot, the grouped list grows by exactly that list, and the scan state, with its asserted count equality, holds |
| BigData.NewClusterScored | bigdata/core/bigdata.py:228-230 | a cluster taken from the pivot's score row lists the pivot last, after later documents scoring at least the threshold against it |
| BigData.PivotsLastGrown | bigdata/core/bigdata.py:233-234 | adding such a cluster under the next id keeps every cluster pivot-last |
| BigData.CandidatesShrink | bigdata/core/bigdata.py:231-240 | grouping a cluster that holds the pivot shrinks the candidates and removes the pivot from them |
| BigData.PivotStep | bigdata/core/bigdata.py:228-248 | one iteration keeps the scan state and the pivot-last meaning, adds exactly one cluster, and the recomputed candidates shrink and lose the pivot |
| BigData.PivotLoop | bigdata/core/bigdata.py:223-248 | the loop terminates keeping the scan state and the pivot-last meaning of every cluster; every stacked document ends up grouped unless the loop stopped at the last document of the collection, which then stays ungrouped; each cluster is built from the pivot's own stacked row |
| BigData.LeftoverRows | bigdata/core/bigdata.py:204-206 | the chunk's ungrouped documents, absolute and relative |
| BigData.ScanChunk | bigdata/core/bigdata.py:197-254 | one outer pass keeps the scan state and the pivot-last meaning, and groups every document of the chunk unless the chunk ends the collection and its last document stays ungrouped |
| BigData.ChunkScanned | bigdata/core/bigdata.py:223-254 | with non-empty chunks and every earlier document grouped, a document left ungrouped by a pass lies in the last chunk, and so does the ungrouped last document |
| BigData.ScanStateClusters | bigdata/core/bigdata.py:242-248 | the scan state gives consecutive ids with non-empty, disjoint lists |
| BigData.Scan | bigdata/core/bigdata.py:189-254 | the scan gives clusters with consecutive ids, each listing its pivot last after later documents scoring at least the threshold against it; a document is left out only in the last chunk, and only together with the last document of the collection |
| BigData.SortDistinct | bigdata/core/bigdata.py:257-258 | sorting a list of distinct values makes it strictly ascending with the same elements |
| BigData.SortLists | bigdata/core/bigdata.py:257-258 | each cluster's list is replaced by its sorted version |
| BigData.SortedClustering | bigdata/core/bigdata.py:256-261 | after the reindexing, ids are consecutive from 0 and every list is strictly ascending, non-empty and disjoint from the others |
| BigData.PivotFirst | bigdata/core/bigdata.py:257-258 | sorting a pivot-last cluster puts the pivot first, and every other member scores at least the threshold against it |
| BigData.SortedPivots | bigdata/core/bigdata.py:256-258 | after the reindexing every list opens with its pivot, and every other member scores at least the threshold against it |
| BigData.ClusterChunks | bigdata/core/bigdata.py:173-258 | fails exactly on an empty chunk or an all-zero row; otherwise the lists have consecutive ids, are strictly ascending and disjoint, open with their pivot, every other member scores at least the threshold against the pivot, and a document is left out only in the last chunk and together with the last document |
| BigData.OneHot | bigdata/core/bigdata.py:152-153 | one row per trace, as wide as `node_ids` |
| BigData.OneHotZeroRow | bigdata/core/bigdata.py:152-153 | a row is all zero exactly when no node id occurs in the trace's hash list |
| BigData.ChunksOf | bigdata/core/bigdata.py:178-182 | one matrix per recorded chunk, read from its data path |
| BigData.BigDataReport.constructor | bigdata/core/bigdata.py:121-125 | the report starts empty, with status 'ERROR' and chunk size 0 |
| BigData.BigDataClusterring.constructor | bigdata/core/bigdata.py:129-145 | keeps the threshold, the node ids and the mode; no chunk is recorded |
| BigData.BigDataClusterring.Add | bigdata/core/bigdata.py:147-160 | None arguments, unequal lengths, a mode other than 'hdf5' and an existing path fail; otherwise exactly one path pair is appended and the membership rows are stored |
| BigData.BigDataClusterring.Execute | bigdata/core/bigdata.py:167-262 | fails on an empty chunk or an all-zero row, leaving the report as it was; otherwise status becomes 'OK' and the report holds the clustering of `ClusterChunks`: consecutive ids, sorted disjoint lists opened by their pivot, every member scoring at least the threshold against it, and only documents of the last chunk left out, with the last document |
| BigData.SimilarAsWrittenRegroupsPivot | bigdata/core/bigdata.py:228-229 | as written, two fully similar documents give the pivot itself instead of its partner |
| BigData.CandidatesAsWrittenSkipsRow | bigdata/core/bigdata.py:216-222 | as written, a chunk whose first row is grouped offers no candidate, though one of its documents is ungrouped |
| GraphAlgorithms.Upto | graph/core/graph_algorithms.py:23 | `list(range(n))` |
| GraphAlgorithms.Without | graph/core/graph_algorithms.py:28 | removes exactly the value `v` |
| GraphAlgorithms.Above | graph/core/graph_algorithms.py:31-33 | the members that reach the threshold against the pivot stay in range |
| GraphAlgorithms.Below | graph/core/graph_algorithms.py:31-34 | the members left unassigned stay in range |
| GraphAlgorithms.FilterMembers | graph/core/graph_algorithms.py:31-34 | `Above` holds exactly the members at or above the threshold, and `Below` exactly those under it |
| GraphAlgorithms.AboveBelowSplit | graph/core/graph_algorithms.py:31-34 | the two filters split the list without losing or adding an id |
| GraphAlgorithms.FiltersAscending | graph/core/graph_algorithms.py:31-34 | both filters keep an ascending list ascending |
| GraphAlgorithms.Round | graph/core/graph_algorithms.py:27-35 | one round: the cluster is the pivot plus the similar ids in order, the rest stay ascending, and the clustering so far is one more step of `Greedy` |
| GraphAlgorithms.MoveSimilar | graph/core/graph_algorithms.py:31-34 | the inner loop appends exactly the similar ids and leaves exactly the others |
| GraphAlgorithms.MoveOne | graph/core/graph_algorithms.py:32-34 | one iteration moves a similar id to the cluster or leaves it |
| GraphAlgorithms.RoundStep | graph/core/graph_algorithms.py:32-34 | `doc_ids.remove(doc_id)` removes the visited id from the right place |
| GraphAlgorithms.RoundStepSimilar | graph/core/graph_algorithms.py:32-34 | a similar id joins the cluster and leaves the unassigned list |
| GraphAlgorithms.RoundStepOther | graph/core/graph_algorithms.py:32 | an id under the threshold stays unassigned |
| GraphAlgorithms.FiltersSnoc | graph/core/graph_algorithms.py:31-34 | the filters of a list with one more id |
| GraphAlgorithms.Cluster | graph/core/graph_algorithms.py:22-36 | `__cluster__` returns exactly the greedy clustering of `0..n-1` |
| GraphAlgorithms.GreedyPartition | graph/core/graph_algorithms.py:22-36 | every id occurs exactly once across the clusters |
| GraphAlgorithms.GreedyOpened | graph/core/graph_algorithms.py:27-34 | each cluster starts with its pivot and is ascending; every other member scores at least the threshold against it |
| GraphAlgorithms.GreedyStep | graph/core/graph_algorithms.py:27-34 | the pivot is the smallest unassigned id, and its cluster is the pivot plus `Above` |
| GraphAlgorithms.HeadOpened | graph/core/graph_algorithms.py:27-34 | the first cluster is opened by the first id |
| GraphAlgorithms.PivotOpened | graph/core/graph_algorithms.py:27-34 | the pivot plus its similar ids form an opened cluster |
| GraphAlgorithms.GreedyMaximal | graph/core/graph_algorithms.py:31-34 | every id of a later cluster lies above an earlier pivot and scores below the threshold against it |
| GraphAlgorithms.RestAbovePivot | graph/core/graph_algorithms.py:31-34 | the ids left after a round lie above the pivot and score below the threshold against it |
| GraphAlgorithms.GreedyDisjoint | graph/core/graph_algorithms.py:22-36 | no id is in two clusters |
| GraphAlgorithms.LaterNotEarlier | graph/core/graph_algorithms.py:27-34 | an id of a later cluster is in no earlier one |
| GraphAlgorithms.GreedyCovers | graph/core/graph_algorithms.py:22-36 | every document lies in some cluster |
| GraphAlgorithms.GreedyWithin | graph/core/graph_algorithms.py:22-36 | every member is a valid document index |
| GraphAlgorithms.ToMap | graph/core/graph_algorithms.py:25-35 | the mapping's keys are the consecutive ids `0..k-1` |
| GraphAlgorithms.SmallLargeSplit | graph/core/graph_algorithms.py:42-49 | folding the small clusters into 'other' neither loses nor duplicates an id |
| GraphAlgorithms.SmallMembers | graph/core/graph_algorithms.py:42-45 | 'other' holds exactly the members of the clusters of at most `min_samples` ids |
| GraphAlgorithms.ExcludedContents | graph/core/graph_algorithms.py:38-50 | with detection off nothing changes; otherwise exactly the large clusters stay, unchanged, and 'other' exists exactly when a small cluster has a member, holding exactly those members |
| GraphAlgorithms.ExcludeAbnormaly | graph/core/graph_algorithms.py:38-50 | the method gives the mapping `Excluded` describes |
| GraphAlgorithms.CollectSmall | graph/core/graph_algorithms.py:42-45 | the first loop collects the small clusters' members and exactly their keys |
| GraphAlgorithms.DeleteKeys | graph/core/graph_algorithms.py:46-47 | `del` removes exactly the listed keys |
| GraphAlgorithms.DeleteSmall | graph/core/graph_algorithms.py:46-47 | deleting the small keys leaves exactly the large clusters |
| GraphAlgorithms.ExcludedKeys | graph/core/graph_algorithms.py:38-59 | after the exclusion each document sits under exactly one key, the key of its cluster, so relabelling is well defined |
| GraphAlgorithms.LabelAll | graph/core/graph_algorithms.py:55-59 | `labels[docid] = value` for the listed ids, other labels unchanged |
| GraphAlgorithms.Relabel | graph/core/graph_algorithms.py:52-59 | `n` labels: a doc under key c gets c, a doc under 'other' gets -1, any other doc 0 |
| GraphAlgorithms.SparseMatrixClustering.constructor | graph/core/graph_algorithms.py:7-14 | `min_samples` is 3 and detection is on |
| GraphAlgorithms.SparseMatrixClustering.Fit | graph/core/graph_algorithms.py:16-20 | every document lies in exactly one greedy cluster, and its label is that cluster's id, or -1 when the cluster was folded into 'other' |
| TraceUtil.RunLength | graph/util.py:36-39 | the run of agreeing characters is maximal: the strings agree on it and differ (or end) right after |
| TraceUtil.CommonPrefix | graph/util.py:35-42 | the longest common prefix of the two strings |
| TraceUtil.FirstMaxIndex | graph/util.py:65 | `lengths.index(max(lengths))`: the first position of the largest value |
| TraceUtil.MatchRun | graph/util.py:52-54 | the innermost loop counts the run of agreeing characters |
| TraceUtil.ScanRow | graph/util.py:48-58 | one row of the scan appends every place of row `i_t` where the characters agree, with its run length, in order |
| TraceUtil.ScannedStep | graph/util.py:46-62 | a finished row extends what has been scanned |
| TraceUtil.ScanRuns | graph/util.py:44-62 | the scan records every agreeing place (last column excluded) with its run length, in row-major order |
| TraceUtil.CopyRun | graph/util.py:35-42 | the agreeing branch copies the run and moves both indices forward |
| TraceUtil.CopyProgress | graph/util.py:35-42 | copying a whole agreeing run keeps the loop's invariant |
| TraceUtil.SkipToRun | graph/util.py:43-69 | the disagreeing branch appends one marker and jumps to the longest run, or to the end |
| TraceUtil.SkipProgress | graph/util.py:43-69 | the disagreeing branch keeps the loop's invariant |
| TraceUtil.ExtractLongestCommonSequences | graph/util.py:27-70 | terminates; empty input gives ""; equal inputs give the text; the common prefix leads the result; inputs sharing no character give exactly one marker |
| TraceUtil.MinLength | graph/util.py:7 | the length of the shortest trace |
| TraceUtil.Position | graph/util.py:10-23 | the shared frame when all traces agree at `i`; otherwise a wrapped merge, which is the second trace's frame when all but the first agree |
| TraceUtil.FindStacktraceRepresentation | graph/util.py:4-24 | None exactly for an empty group; otherwise as long as the shortest trace, shared frames kept and disagreements wrapped, and equal to the trace when all traces are the same |
| TraceUtil.IdenticalTraces | graph/util.py:10-18 | identical traces agree at every position of their common length |
| TokenValidation.ValidTokens | core/graph_evaluation.py:48 | keeps exactly the tokens not in `VALUES` |
| TokenValidation.ValidTokensAppend | core/graph_evaluation.py:48 | the filter keeps order: filtering a concatenation concatenates the filtered parts |
| TokenValidation.ValidTokensUnconstrained | core/graph_evaluation.py:48 | a trace without constrained frames passes unchanged |
| TokenValidation.ValidTokensEmpty | core/graph_evaluation.py:49 | a filtered trace is empty exactly when every frame is constrained |
| TokenValidation.ValidatedKept | core/graph_evaluation.py:47-51 | `result[k]` is the filtered trace at `result_indices[k]`, and it is never empty |
| TokenValidation.ValidatedIndices | core/graph_evaluation.py:47-53 | kept and excluded indices ascend and split `0..n-1` |
| TokenValidation.ValidatedExcluded | core/graph_evaluation.py:49-53 | an index is excluded exactly when all its frames are in `VALUES` |
| TokenValidation.ValidatedCount | core/graph_evaluation.py:47-53 | one result per kept index, and kept plus excluded is `n` |
| TokenValidation.ValidatedIsShaped | core/graph_evaluation.py:43-54 | the three facts above together |
| TokenValidation.Validate | core/graph_evaluation.py:43-54 | the loop returns `Validated` and so has its shape |
| Constraint.ConstraintValues.constructor | core/constraint.py:3 | `VALUES` starts empty |
| Constraint.Constraint.constructor | core/constraint.py:5-8 | stores both flags and extends the shared `VALUES` |
| Constraint.Constraint.AutoAnalyzeConstraint | core/constraint.py:10-25 | appends the custom frames when `include_custom` is set, and nothing otherwise |
| Constraint.CustomFramesDistinct | core/constraint.py:12-25 | the custom list holds twelve different frames |
| Constraint.ExtendedKeeps | core/constraint.py:5-12 | a construction keeps `VALUES` as a prefix, only adds the custom frames at the end, and ignores `include_all` |
| Constraint.CustomFrameOnce | core/constraint.py:12-25 | each custom frame occurs once in the custom list |
| Constraint.RepeatedConstructions | core/constraint.py:11-12 | after `n` custom constructions every custom frame occurs `n` times: nothing is deduplicated |
| Constraint.Repeat | core/constraint.py:11-12 | `n` constructions append `12n` frames |
| GraphParsing.SearchLetter | graph/core/graph_parser.py:15 | the first ASCII letter, or none exactly when there is no letter |
| GraphParsing.RecognizeKaPreprocess | graph/core/graph_parser.py:13-16 | an empty input fails with IndexError; otherwise true exactly when the first log has no ASCII letter |
| GraphParsing.KaMode | graph/core/graph_parser.py:19 | the comma path is taken exactly when detection is on and the first log has no letter; the check fails only on an empty input with detection on |
| GraphParsing.ParseWithRegex | graph/util.py:73-74 | one frame list per log |
| GraphParsing.SplitAllJoins | graph/core/graph_parser.py:20 | joining each split log with ',' gives back the log, and no frame holds a comma |
| GraphParsing.ParseCases | graph/core/graph_parser.py:18-23 | on the comma path every log is split on ','; otherwise the regex extractor is used; an empty input with detection on fails |
| GraphParsing.ValidateKa | graph/core/graph_parser.py:26-29 | on the comma path every log is kept, split on ',', with indices `0..n-1` and nothing excluded |
| GraphParsing.ValidateRegex | graph/core/graph_parser.py:30-39 | otherwise the result is `Evaluation.validate` of the extracted frames, and it fails exactly when no trace keeps a frame |
| GraphParsing.ValidateNonEmpty | graph/core/graph_parser.py:25-39 | a successful `validate` of a non-empty input keeps at least one trace |
| Report.MapDocids | graph/core/report.py:43 | maps each docid to its uuid, keeping length and order; the first missing docid raises KeyError |
| Report.ClusterReport.constructor | graph/core/report.py:24-37 | every argument is stored as given, `clusterid_docids_mapping` as `clusterid_docids_map` |
| Report.ClusterReport.GatherReport | graph/core/report.py:39-43 | nothing happens without `docid_uuid_map`; otherwise the new map regroups the uuids of each cluster's docids under the same keys, and a missing docid raises KeyError |
| GraphEvaluation.Lines | core/graph_evaluation.py:21 | one joined line per trace |
| GraphEvaluation.Distinct | core/graph_evaluation.py:21 | `set(lines)` holds exactly the lines and is no larger |
| GraphEvaluation.MatchExactly | core/graph_evaluation.py:21-24 | one distinct trace exactly when the group is non-empty and all joined traces are equal |
| GraphEvaluation.UniqueBounds | core/graph_evaluation.py:21-22 | a non-empty group has between one distinct trace and one per trace |
| GraphEvaluation.PyIndex | core/graph_evaluation.py:34 | Python indexing: negative indices count from the end, and out of range raises IndexError |
| GraphEvaluation.SubLogs | core/graph_evaluation.py:34 | the logs of a cluster's docids, in order; out of range raises IndexError |
| GraphEvaluation.Evaluation.constructor | core/graph_evaluation.py:7-14 | zero counts, no statistics, the given parser |
| GraphEvaluation.Evaluation.Summarize | core/graph_evaluation.py:21-25 | distinct traces, their number (from 1 to the number of logs), their share, `match_exactly` exactly for one distinct trace, and a representation |
| GraphEvaluation.Evaluation.Fit | core/graph_evaluation.py:16-25 | `num_error_logs` is set first; empty input fails with "No input data found"; a parser failure propagates; success leaves the statistics of the valid traces |
| GraphEvaluation.RatioBounds | core/graph_evaluation.py:23 | the share of distinct traces lies in (0, 1] |
| GraphEvaluation.ValidateKeepsAtMost | core/graph_evaluation.py:19-20 | `validate` keeps at most one trace per log |
| GraphEvaluation.EvaluateCluster | core/graph_evaluation.py:31-39 | one cluster's step: a missing error-log entry raises KeyError; otherwise a new, fitted evaluation with the cluster's docids and error-log ids |
| GraphEvaluation.FitCluster | core/graph_evaluation.py:35-38 | a new evaluation fitted on the cluster's logs, carrying its docids and error-log ids |
| GraphEvaluation.GenerateEvaluationReport | core/graph_evaluation.py:27-40 | fails without a docids map, and otherwise exactly when some cluster's step fails; on success one separate, fitted evaluation per cluster id, with that cluster's docids |
| GraphRender.RenderLimits.constructor | graph/viz/graph_render.py:12 | `STANDARD_MAX_NODES` starts as None |
| GraphRender.TokenOrderKeys | graph/viz/graph_render.py:24-25 | the token map's key order lists each distinct node name once |
| GraphRender.TokenCounterLastWins | graph/viz/graph_render.py:24-25 | one entry per distinct name, holding the weight of the last node visited under it |
| GraphRender.Weights | graph/viz/graph_render.py:38 | the weight of every item, in order |
| GraphRender.InsertByWeight | graph/viz/graph_render.py:38 | inserting adds exactly one item |
| GraphRender.InsertAscending | graph/viz/graph_render.py:38 | inserting into a weight-sorted list keeps it sorted |
| GraphRender.SortByWeight | graph/viz/graph_render.py:38 | the same items, by ascending weight |
| GraphRender.CutAsWritten | graph/viz/graph_render.py:40-47 | the cut as written stays before the last item, at or after the pivot |
| GraphRender.CutAsWrittenBounds | graph/viz/graph_render.py:40-47 | over ascending weights the cut removes at least the excess and at most max(excess, 101) items; it moves only across items of the excess's weight; and unless it stopped at the bound, the first kept weight is below every later one |
| GraphRender.PivotCutting | graph/viz/graph_render.py:40-47 | the tie-extension loop computes the cut as written |
| GraphRender.CutRemovesPrefix | graph/viz/graph_render.py:38-48 | the cut items are a prefix of the sorted list, at least the excess and at most max(excess, 101) long, extended only over items of the excess's weight, none heavier than a kept item, and, unless the bound stopped it, followed by a kept item lighter than every later one |
| GraphRender.Lightest | graph/viz/graph_render.py:38-48 | the removed items are the sorted items up to the cut as written, a prefix with the bounds of `CutRemovesPrefix` |
| GraphRender.MarkLightest | graph/viz/graph_render.py:37-48 | at most `STANDARD_MAX_NODES` tokens leave `remove_node_names` alone; above it the sorted prefix up to the cut as written replaces it |
| GraphRender.PerformanceSaver.constructor | graph/viz/graph_render.py:15-19 | the fields before `validate` runs |
| GraphRender.PerformanceSaver.LoadShortTimeResponseProperty | graph/viz/graph_render.py:50-51 | `edge_property['plot']` becomes False |
| GraphRender.PerformanceSaver.LoadMediumTimeResponseProperty | graph/viz/graph_render.py:53-54 | `edge_property['plot']` becomes False |
| GraphRender.PerformanceSaver.LoadLongTimeResponseProperty | graph/viz/graph_render.py:56-57 | `edge_property['plot']` becomes True |
| GraphRender.PerformanceSaver.ApplyResponseTime | graph/viz/graph_render.py:27-35 | 'short', 'medium' and 'long' set the limit to 300, 500 and 1000 and the plot flag to False, False and True; any other value changes nothing |
| GraphRender.PerformanceSaver.Validate | graph/viz/graph_render.py:22-48 | the response-time settings, then a TypeError exactly when no limit was ever set, else `remove_node_names` becomes the sorted token items up to the cut as written, when there are more tokens than the limit |
| GraphRender.PerformanceSaver.Create | graph/viz/graph_render.py:14-20 | construction runs `validate`, whose TypeError escapes it |
| GraphRender.PerformanceSaver.RemovedNames | graph/viz/graph_render.py:60 | the names of the marked items |
| GraphRender.PerformanceSaver.Filter | graph/viz/graph_render.py:59-65 | drops exactly the marked names from the graph and the layout; a name missing from the layout raises KeyError, and a size mismatch fails the assertion |
| GraphRender.DeletableExtend | graph/viz/graph_render.py:61-62 | a missing name makes the deletion loop raise |
| GraphRender.FilterKeepsAgreement | graph/viz/graph_render.py:63-64 | when the layout covers exactly the graph's nodes, removing the same names keeps the sizes equal |
| GraphRender.CutAsWrittenSplitsTie | graph/viz/graph_render.py:40-47 | the loop compares the first kept weight with the next one: with weights 1, 1, 2, ..., 2 and room for 300 of 301 items, one weight-1 item is removed and the other kept |
| Strings.Split | graph/core/graph_parser.py:20 | `str.split` always gives at least one part |
| Strings.SplitPartsHaveNoSeparator | graph/core/graph_parser.py:20 | no part of a split contains the separator |
| Strings.JoinSplit | graph/core/graph_parser.py:20 | joining the parts with the separator gives back the string |
| Strings.NatToStringIsDigits | bigdata/core/bigdata.py:37 | `str(n)` is made of decimal digits |
| Strings.NatToStringInjective | bigdata/core/bigdata.py:37 | distinct chunk indices print differently |

## Left out

- MD5 (`GraphUtil.__hash_md5__`): a foreign hash. It is the parameter `h`, injective where a lemma needs it.
- The cosine similarity (`compare_ohv_stacktrace`, `doc_doc_similarity`) involves square roots and float division. The bigdata clusterer takes the scores from a function `sim` and keeps the failure of `doc_doc_similarity` on an empty chunk or an all-zero row. The in-memory `SparseMatrixClustering.Fit` starts from the score matrix itself, so the assertion failure that `compare_ohv_stacktrace` raises on a zero denominator (graph/core/graph_manager.py:149, re-raised at 154-156, reached from graph/core/graph_algorithms.py:17) is not modelled.
- HDF5 and file I/O: `open`, `close`, `delete`, directory creation, the carray writes, and the pickle and JSON file writers and readers. Only the path strings and what the files would hold are modelled.
- The configuration plumbing of `GraphManager.__init__` and `init_config` (loading a saved graph, storage locations) is left out: the constructor takes the two managers the loader would provide.
- `distribute` in `__post_action__` is a no-op here. Logging and timing are left out.
- The regex of `parse_with_regex` is the parameter `findFrames`; only its one-list-per-log shape is modelled.
- The sklearn paths (k-means, DBSCAN, TF-IDF) and `GraphClusteringAlgorithms` are left out, as are plotting, NLP, web, SQL and configuration code.
- JSON turns integer dictionary keys (`uuid_nodes_map`) into strings. The model keeps them as integers.
- The `offset` argument of `add` only feeds log messages, so it is dropped.
- `isinstance` assertions on `None` arguments and the `assert graph_manager is not None` check are not modelled: Dafny references and values are never None. `Option` is used where the source tests for None itself.
- GraphEvaluation.Evaluation.Fit: the assertion `len(list_stacktrace) > 0` on line 20 has no error result of its own, because it can never fire after a successful `validate`. The comma path keeps every log, and the regex path raises on an empty result (`GraphParsing.ValidateNonEmpty`).
- `percent_unique_stacktrace` is a `real` rather than a float.
- GraphEvaluation.GenerateEvaluationReport: `pd.Series` is the plain list of logs.
- GraphRender.SortByWeight: Python's `sorted` is stable. The model proves sortedness and permutation but not stability, so ties may come out in a different order.
- GraphRender.PerformanceSaver.Filter: networkx's `remove_nodes_from` and the in-place `del position[...]` are modelled as returning the new graph and layout rather than mutating the caller's objects.
- BigData.BigDataClusterring.Execute: the block scores come from `sim`, and the scan is modelled with the three corrections listed under Findings. It proves the asserted count invariant, termination, consecutive ids, sorted and disjoint lists, and that each list is its pivot followed by later documents scoring at least the threshold against it. It does not prove that every document is clustered: the break at lines 226-227 can leave out documents of the last chunk, and does so only when the last document of the collection is left out too. Nor does it prove that a document scoring at least the threshold against a pivot always joins it, since an earlier pivot may have taken it.
- BigData.PivotLoop: the pivot is any remaining candidate. Line 224 takes the first element of a list built from a Python set, whose iteration order is not specified and is not ascending once document ids reach the set's table size. So the model does not promise that a chunk's first pivot is its smallest ungrouped document; in particular, when the first pivot drawn is the last document, the loop stops at once and the model allows an empty clustering of that chunk.
- BigData.BigDataClusterring.Add: the storage layer may already refuse to write an empty chunk at line 158. The model stores it, and `execute` then fails on it, as `doc_doc_similarity` would.
- GraphManagers.GraphManager.Add, PrepareOneShot, PrepareSpeedUp, AddListStacktrace, AddSingleStacktrace, AddWithSpeedup and BuildChunkPool: after a failure the source keeps whatever the records before the failing one had added. The contracts state the new state only on success and say nothing about the managers after a failure.
- GraphManagers.StacktraceManager: the tables hold copies of the pool's nodes as they were when tracked, while Python stores references to the live pool nodes, whose counters later updates still change. Reads of those tables after later updates are not modelled.
- TraceUtil.FindStacktraceRepresentation: the merge order over `set(diff)` is any order, so the contract states the wrapping and the agreeing cases, not the exact merged text.

## Findings

| source | as written | input that shows it | evidently intended | confidence | as-written member | corrected member |
|---|---|---|---|---|---|---|
| bigdata/core/bigdata.py:228-229 | `np.where` on `row[abs_pivot + 1:]` returns offsets into the slice, which are then used as absolute document ids | two documents with score 1.0 against each other, pivot 0, threshold 1.0: offset 0 names document 0, the pivot itself, not document 1 | the documents `abs_pivot + 1 + offset` | high, not executed | BigData.SimilarAsWrittenRegroupsPivot | BigData.Similar |
| bigdata/core/bigdata.py:216-222 | the pivot candidates are `range(row_matrix.shape[0]) + inc`, as if every row of the chunk had been stacked, but only the ungrouped rows were | a chunk holding documents 2 and 3 with document 2 grouped: one row is stacked, the candidates are {2}, which is grouped, so document 3 is never a pivot | the chunk's stacked documents that are still ungrouped | high, not executed | BigData.CandidatesAsWrittenSkipsRow | BigData.Candidates |
| bigdata/core/bigdata.py:224-228 | `row_matrix[rel_pivot]` indexes the stacked rows by the pivot's position in its chunk, but only the chunk's ungrouped rows were stacked | a chunk holding documents 3, 4 and 5 with document 3 grouped: rows of 4 and 5 are stacked, the pivot is 4, `rel_pivot` is 1, and row 1 holds document 5's scores | the stacked row of the pivot itself | high, not executed | BigData.PivotRowAsWrittenMisreads | BigData.PivotRow |
