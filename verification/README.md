# Slate-ANN search engine and storage executor, verified in Dafny

A Dafny 4.11 model of the parts of Slate-ANN that decide what a query returns and what it costs: the HNSW graph
(construction, pruning, sharding, the layer beam, the PQ-gated hybrid loop, relayout), the storage-aware executor
(block-packed files, the elevator planner, the scatter reader, the i8 codec), the quantisers (k-means, product
quantiser, ADC tables), the inverted-file backend, the brute-force oracle and the update overlay.
`dafny verify dfyconfig.toml` checks everything.

## How the system is modelled

- A query is its score vector: `sc[i]` is the exact distance from the query to stored vector `i`, a real number.
  Where a store is read, `sc` is tied to the file: `Reader.ScoresOf(store, distance)` applies the distance kernel to
  the bytes of every slot. Scores may tie unless a statement asks for pairwise distinct ones.
- Binary heaps are node sets whose top is the closest or worst node by (score, id), which is the source's heap order;
  `TopK`'s heap is kept as an ascending list whose last element is its top. Visited and exact-known flags are
  boolean arrays updated in place; adjacency, levels, entry point and `max_layer` are fields of class `Hnsw`.
- The RAM beam of construction and the disk beam of search run the same loop and are one method, `Beam.Search`.
- A file is a byte sequence. A vectored read fills windows of two caller arrays, the slot buffer and the sink;
  `preadv` is a function saying what each system call reports, so a statement about all such functions covers every
  pattern of short reads and failures.
- Random levels, k-means picks and the float-derived counts (`hub_count`, the rerank `want`) are arbitrary inputs,
  clamped as the code clamps them; levels fit a byte.
- Arithmetic is exact: reals for distances and vectors, unbounded integers for sizes, with the header's 32-bit
  truncation, the byte casts of codes and little-endian fields written out. An f32 element on disk is its bit pattern.
- A dtype is a slot codec, a pair of functions between vectors and slot bytes: `Reader.F32_CODEC`, `Codec.I8Codec`, or
  any other whose sizes fit. The writer, the reader and the rewriter are proved for all of them.

Modules follow the source: `Ranking`/`Nearest` (the collector), `Graph`, `IdLists`, `Beam`, `HnswSearch`, `Select`,
`HnswPrune`, `HnswBuild`, `SoftAssign`, `HnswShard`, `HnswDeterminism`, `HnswLayout`, `HnswLayoutTail`,
`HnswLayoutTwice`, `LayoutExample`, `HnswRelabel`, `RelabelTheorem`, `BatchFetch`, `HybridReference`, `HnswHybrid`,
`HnswPq`, `RelabelHybrid`, `HnswCodes`, `HnswReorder`; `Layout`, `Format`, `Writer`, `Schedule`, `Io`, `Reader`, `Codec`;
`Distance`, `KMeans`, `KMeansDeterminism`, `KMeansPlaces`, `Codebook`, `CodebookTraining`, `Adc`; `Brute`, `Ivf`,
`IvfOracle`, `IvfPq`; `Corpus`, `StoreBuild` (the builders over a store); `UpdateLog`, `Bundle`, `BundleOracle`.

## Where the code and its documentation disagree

The model follows the code.

- `layout_order`'s comment says unreached nodes are appended in id order (crates/slate-graph/src/hnsw.rs:625-632);
  the code starts a new breadth-first sweep at each unvisited id (hnsw.rs:648-670), and the two agree exactly under
  two conditions on the unreached part of the graph: `HnswLayoutTail.TailInIdOrderIff`. They differ on the graph of
  `HnswLayoutTail.UnreachedNotInIdOrder`, which the sharded build returns for four points: `LayoutExample.BuildExample`.
- The `entry_point` field is documented as the node with the highest level (hnsw.rs:211-213); `insert_node` never
  moves it off the first node (hnsw.rs:813-816), so the documented property holds exactly as `HnswBuild.EntryIsTopIff`
  says and fails in `HnswBuild.EntryBelowTop`. `build_sharded` establishes it.
- The hybrid loop's stopping comment says the remaining approximate candidates rank worse (hnsw.rs:1511-1514). That
  holds on all layers up to a given size exactly when every fetch budget covers its queue:
  `HybridReference.NothingBetterLeftIff`. For any smaller budget `HybridReference.SmallBudgetLeavesBetter` gives a
  star graph and scores on which a search of width 1 stops before a better node.
- `build_sharded` falls back when k-means collapsed (hnsw.rs:348-352). It never does: with fewer shards than vectors
  k-means returns as many centroids as asked for, duplicates included (`StoreBuild.BuildSharded`, `KMeans.Train`).
- A layout's header truncates `block_size` to 32 bits (crates/slate-storage/src/layout.rs:154-162), so a store written
  with a block of 2^32 bytes or more does not reopen; `Reader.StoreRoundTrip` says exactly when it does.
- `UpdateLog::delete` accepts ids not issued yet, so a later insert can be retracted before it exists
  (crates/slate-index/src/update.rs:55-57); `UpdateLog.InsertIsLiveIff` and `UpdateLog.DeletedInAdvance`.
- When every system call makes progress the two vectored reads agree on every list the scatter reader builds. They
  differ on an empty list past the end of the file, which only the default read accepts, and on lists holding only
  empty buffers inside the file, which only the default read accepts: each contract says exactly when it succeeds.
- `fetch_scheduled` does not check indices against the store length, while `get_into` does: an index in the last
  block's padding is read without error (`Reader.PaddingReadable`). The executor's contract is stated for every index
  inside the file.

## Model

| member | source | states |
|---|---|---|
| Ranking.Sort | crates/slate-core/src/search.rs:144-148 | the result is sorted by (score, id) and is a permutation of the input |
| Ranking.TopK.constructor | crates/slate-core/src/search.rs:89-94 | an empty collector that has been offered nothing |
| Ranking.TopK.Offer | crates/slate-core/src/search.rs:97-117 | after every offer the heap is exactly the `k` best of everything offered, also for `k = 0` |
| Ranking.TopK.IntoSortedVec | crates/slate-core/src/search.rs:144-148 | the answer lists the `k` best offers, best first |
| Ranking.TopKOfUnique | crates/slate-core/src/search.rs:36-50 | two answers for the same offers are the same list: the order of offers never shows |
| Nearest.CollectorIsTopK | crates/slate-core/src/search.rs:84-148 | for distinct ids the collector's answer is the reference top k of the offered set: strict order, right scores, nothing outside better |
| Nearest.TopKUnique | crates/slate-core/src/search.rs:36-50 | the reference top k of a set is one list |
| Nearest.PushPopKeepsBest | crates/slate-graph/src/hnsw.rs:1462-1465 | pushing a new node on a bounded heap and popping the worst when over capacity keeps exactly the `ef` best of everything pushed |
| Nearest.BestOfBest | crates/slate-graph/src/hnsw.rs:1187-1192 | the `k` best of the `ef` best are the `k` best when `k <= ef` |
| Nearest.TopKMemberSurvives | crates/slate-graph/src/ivf.rs:308-341 | a true top-k member stays in the top k of any candidate set holding it |
| Nearest.CollectTopK | crates/slate-graph/src/hnsw.rs:1187-1192 | offering each kept node once returns the reference top k of them |
| Graph.ReachableIsLeast | crates/slate-graph/src/hnsw.rs:917-949 | the reachable set is inside every edge-closed superset of its start |
| Graph.ReachableIsClosed | crates/slate-graph/src/hnsw.rs:917-949 | the reachable set is closed under edges |
| Beam.Search | crates/slate-graph/src/hnsw.rs:889-958 | a finished beam is certified: every kept node was expanded, nothing visited outside the kept set scores strictly better than a kept node, fewer than `ef` kept means all visited kept, visited lies between the entries and the reachable set; one score per visited node; visited and kept are exactly those of the reference run from the set of entry points, ties and list order included |
| Beam.Seed | crates/slate-graph/src/hnsw.rs:904-915 | repeated entry points count once and the heap holds the `ef` best of them by (score, id), ties included |
| Beam.Expand | crates/slate-graph/src/hnsw.rs:927-948 | one expansion offers exactly the unvisited neighbours, in list order, and marks them |
| Beam.OfferedIs | crates/slate-graph/src/hnsw.rs:934-946 | a new node is turned away exactly when the heap is full and no kept node scores strictly worse; otherwise the heap becomes the `ef` best of itself and the newcomer |
| Beam.PushKeepsPool | crates/slate-graph/src/hnsw.rs:935-946 | admitting a node keeps the bounded-heap invariant |
| Beam.RejectKeepsPool | crates/slate-graph/src/hnsw.rs:934-935 | rejecting a node that is not strictly better keeps it too |
| Beam.StopCertifies | crates/slate-graph/src/hnsw.rs:920-926 | the stopping test implies the certificate |
| Beam.PopIsNextKept | crates/slate-graph/src/hnsw.rs:917 | with distinct scores the popped node is the closest kept node not yet expanded, although rejected nodes stay on the frontier |
| Beam.StepFollowsRun | crates/slate-graph/src/hnsw.rs:917-949 | each round follows the reference run that looks only at kept nodes |
| Beam.ResultIsRun | crates/slate-graph/src/hnsw.rs:917-949 | with distinct scores that run is the one that looks at kept nodes and neighbour sets only, so list order never shows, and it keeps the `ef` best of what it visits |
| Beam.WiderVisitsMore | crates/slate-graph/src/hnsw.rs:917-949 | a wider reference run visits at least as much |
| HnswSearch.GreedyDescend | crates/slate-graph/src/hnsw.rs:862-884 | the hill-climb ends in a reachable node no worse than its start with no strictly better neighbour; end and distance count are those of the edge-by-edge climb, ties included, and with distinct scores of the climb that looks at neighbour sets only |
| HnswSearch.ScanRunIsGreedyRun | crates/slate-graph/src/hnsw.rs:862-884 | with distinct scores the order of the out-edges never shows in a climb |
| HnswSearch.ScanRunPath | crates/slate-graph/src/hnsw.rs:862-884 | a climb is a path, each node the first of the closest out-neighbours of the one before, ending where none is closer; it evaluates every out-edge of every node on it once |
| HnswSearch.Descend | crates/slate-graph/src/hnsw.rs:1141-1173 | layers `max_layer` down to 1 are climbed in turn, each from where the one above ended; end and distance count are exact, ties included |
| HnswSearch.ScanDescentPaths | crates/slate-graph/src/hnsw.rs:1141-1173 | the whole descent is one such path per layer, each from where the one above ended, and evaluates exactly their out-edges |
| HnswSearch.Search | crates/slate-graph/src/hnsw.rs:1115-1195 | dimension error; empty graph gives an empty answer and no work; otherwise the top k of what the certified, exact beam from the climbed entry keeps; as many nodes are kept as visited, up to the greatest of ef_search, k and 1; the exact top k of the reachable nodes when ef_search or k is at least their number; one vector streamed, one seek and one exact distance for the entry, each climb evaluation and each visited node; with distinct scores answer and counters are those of the reference query |
| HnswSearch.ReturnedOnce | crates/slate-graph/src/hnsw.rs:1115-1195 | answer and counters are decided by the index and the scores, ties included |
| HnswSearch.ExhaustiveBeam | crates/slate-graph/src/hnsw.rs:1231-1276 | kept fewer than `ef`, or `ef` covers what is reachable: the kept set is exactly the reachable set |
| HnswSearch.ExhaustiveAnswer | crates/slate-graph/src/hnsw.rs:1175-1192 | then the answer is the true top k of the reachable nodes |
| HnswSearch.NothingVisitedIsBetter | crates/slate-graph/src/hnsw.rs:1175-1192 | in every case the answer has `min(k, visited)` entries and no other visited node scores better than one of them |
| HnswSearch.FoundStaysFound | crates/slate-graph/src/hnsw.rs:1115-1195 | with distinct scores a true top-k neighbour once found stays found as `ef_search` grows, for at least as many seeks |
| Select.SelectClosestIsBest | crates/slate-graph/src/hnsw.rs:1564-1573 | `select_neighbors` keeps exactly the `cap` best of the list by (score, id) |
| Select.SelectClosestSame | crates/slate-graph/src/hnsw.rs:1564-1573 | only the set of candidates matters, not their order |
| HnswBuild.Hnsw.constructor | crates/slate-graph/src/hnsw.rs:537-548 | one empty base layer, no entry, all levels 0 |
| HnswBuild.Hnsw.Connect | crates/slate-graph/src/hnsw.rs:962-974 | both rows gain exactly the other node unless present or a self-loop, at their end; every other row and layer is unchanged |
| HnswBuild.ConnectedLinks | crates/slate-graph/src/hnsw.rs:962-974 | linking adds one member to each of two rows and keeps the rest |
| HnswBuild.Hnsw.PruneNode | crates/slate-graph/src/hnsw.rs:978-998 | a list over the cap (`m_max` on layer 0, `m` above) becomes the best cap of its members by (distance, id), closest first; a list within it and every other list are untouched |
| HnswBuild.Hnsw.Candidates | crates/slate-graph/src/hnsw.rs:889-958 | the candidates are exactly the nodes the beam's run from these entry points keeps, each once, at most `ef_construction`, and all lie on that layer |
| HnswBuild.Hnsw.DescendTo | crates/slate-graph/src/hnsw.rs:823-830 | the layers above the node's level are climbed in turn and the result lies on the node's top layer |
| HnswBuild.Hnsw.GrowTo | crates/slate-graph/src/hnsw.rs:805-810 | level recorded, layers added up to it, `max_layer` raised; the invariant of the inserted prefix is kept |
| HnswBuild.Hnsw.WireLayer | crates/slate-graph/src/hnsw.rs:845-850 | the node lists the closest candidates within the cap, closest first; each of them lists the node after its old members, cut to its own closest cap members when that is too many; every other list is unchanged, and the layer invariant now includes the node |
| HnswBuild.WiredIsRewired | crates/slate-graph/src/hnsw.rs:841-850 | wiring the selected nodes one by one, pruning each as it grows, gives exactly those lists |
| HnswBuild.Hnsw.InsertNode | crates/slate-graph/src/hnsw.rs:799-858 | exact effect: layers above the level unchanged, every layer up to it rewired so from exactly what the beam keeps there, seeded by the candidates above; `entry_point` never moves off node 0; the invariant (range, no duplicate, no loop, cap, endpoints on their layer) is kept |
| HnswBuild.CandidatesSeedBelow | crates/slate-graph/src/hnsw.rs:832-855 | with a beam of any width the top layer is searched from where the climb ended and every layer below from all candidates of the layer above, of which there is one at least |
| HnswBuild.Hnsw.PruneHighDegree | crates/slate-graph/src/hnsw.rs:1021-1102 | upper layers untouched, nothing changes when all are hubs, else exactly the hub-preserving prune of the base layer; invariant kept |
| HnswPrune.MarkHubs | crates/slate-graph/src/hnsw.rs:1027-1052 | the hubs are exactly the top `hub_count` nodes by out-degree, ties by id |
| HnswPrune.PruneLayer | crates/slate-graph/src/hnsw.rs:1057-1100 | every list is pruned from the unpruned graph, then replaced |
| HnswPrune.PruneRowExact | crates/slate-graph/src/hnsw.rs:1068-1093 | on a built list the `m_max` guard never fires; all hub edges survive, the length is max(m, hub edges), no dropped non-hub edge is closer than a kept one |
| HnswPrune.KeptOrder | crates/slate-graph/src/hnsw.rs:1068-1093 | a trimmed list starts with its hub edges in their old order, the others follow closest first |
| HnswBuild.PrunedLayerOk | crates/slate-graph/src/hnsw.rs:1000-1020 | the prune keeps every graph invariant of the base layer, one-sided as it is |
| HnswBuild.BuildResident | crates/slate-graph/src/hnsw.rs:527-562 | for any level assignment the finished graph is one insertion per node in order followed by one prune, and satisfies the invariant; the entry point is node 0, at the top level exactly when no other drawn level exceeds its own |
| HnswDeterminism.BuildIsDeterministic | crates/slate-graph/src/hnsw.rs:247-249 | two builds from the same levels and distances agree after every insertion and at the end, ties included |
| HnswDeterminism.IndexIsDeterministic | crates/slate-graph/src/hnsw.rs:247-249 | so lists, levels, entry point and height of the index are decided by the levels and the distances |
| HnswDeterminism.ShardedIsDeterministic | crates/slate-graph/src/hnsw.rs:390-401 | so are the shards' subgraphs and the merged index, given the centroids |
| HnswBuild.EntryIsTopIff | crates/slate-graph/src/hnsw.rs:813-816 | the entry point has the highest level exactly when no other node was drawn above node 0 |
| HnswBuild.EntryBelowTop | crates/slate-graph/src/hnsw.rs:211-213 | building two nodes drawn at levels 0 and 1 leaves the entry point below the top layer, whatever the other parameters |
| HnswBuild.BuiltIsWellFormed | crates/slate-graph/src/hnsw.rs:205-232 | a built graph is in range on every layer, as all searches need |
| Corpus.ReadAll | crates/slate-graph/src/ivf.rs:171-178 | reading the corpus gives every slot's decoded vector in id order, all of the store's width; no read fails |
| StoreBuild.BuildHnsw | crates/slate-graph/src/hnsw.rs:478-500 | the index over a store of any dtype is the one its vectors' pairwise distances and the levels decide |
| StoreBuild.BuildHnswPq | crates/slate-graph/src/hnsw.rs:478-520 | the same graph; the settings are rejected exactly when the codebook rejects them and the store is not empty; otherwise a codebook trained subspace by subspace on the vectors' own coordinates there and every vector's code, fit for the hybrid query |
| SoftAssign.NearestCentroidsAreBest | crates/slate-graph/src/hnsw.rs:1579-1597 | the `soft` nearest centroids by (distance, id), each once |
| SoftAssign.AssignAll | crates/slate-graph/src/hnsw.rs:358-368 | each list holds exactly the vectors assigned to it, strictly ascending |
| SoftAssign.JoinsExactlySoft | crates/slate-graph/src/hnsw.rs:353-368 | every vector joins exactly `soft` shards, those of its nearest centroids |
| HnswShard.LiftLayer | crates/slate-graph/src/hnsw.rs:411-419 | one subgraph layer is appended under global ids; other nodes' lists unchanged |
| HnswShard.MergeStep | crates/slate-graph/src/hnsw.rs:408-419 | after each shard the merged lists hold exactly the edges of the shards so far |
| HnswShard.LevelsStep | crates/slate-graph/src/hnsw.rs:420-425 | each node's level is the highest any shard gave it |
| HnswShard.CapRowIsCapped | crates/slate-graph/src/hnsw.rs:440-452 | a merged list is deduplicated; it is the whole union in id order when that fits the cap, else its closest cap members, closest first |
| HnswShard.EntryIsTop | crates/slate-graph/src/hnsw.rs:456-462 | the chosen entry point's level equals `max_layer` |
| StoreBuild.BuildSharded | crates/slate-graph/src/hnsw.rs:306-476 | reads a store of any dtype; whole build for at most one shard or as many as vectors; otherwise trained coarse centroids, as many as asked for, soft assignment to them, each non-empty shard's subgraph the build of its own vectors under the metric, exact union, cap, levels and entry |
| HnswShard.MergedEdgeFromShard | crates/slate-graph/src/hnsw.rs:370-454 | every merged edge joins two vectors of one shard and came from that shard's subgraph |
| HnswShard.MergedLayerOk | crates/slate-graph/src/hnsw.rs:408-454 | the merged graph keeps the build invariant: no repeats, no loops, within the cap, and each end of an edge has that level or is some shard's first member |
| HnswLayout.LayoutOrder | crates/slate-graph/src/hnsw.rs:633-674 | always a permutation, made of breadth-first sweeps: first exactly what the entry point reaches on layer 0 in non-decreasing hop distance, then from the least id not laid out, each with children in (degree, id) order |
| HnswLayoutTail.TailInIdOrderIff | crates/slate-graph/src/hnsw.rs:625-632 | what follows the entry point's sweep is exactly the unreached nodes, in id order if and only if both hold among them: when `u` lists a later `w`, every id between them is listed by some node up to `u`; and the later nodes `u` is the first to list do not fall in degree |
| HnswLayoutTail.FlatAscendingIff | crates/slate-graph/src/hnsw.rs:648-670 | the same for any sweeps put end to end after a closed set of nodes |
| HnswLayoutTail.UnreachedNotInIdOrder | crates/slate-graph/src/hnsw.rs:625-632 | on a graph of four nodes the documented order of unreached nodes is not what the sweeps give |
| LayoutExample.BuildExample | crates/slate-graph/src/hnsw.rs:306-476 | the sharded build reaches that graph: four points in three shards, for any positive draws, any distances and any parameters of at least one, and its layout order does not list the unreached nodes by id |
| HnswLayoutTail.SweepsClosed | crates/slate-graph/src/hnsw.rs:648-670 | following edges from what is laid out so far never leaves it |
| HnswLayoutTail.TailIsFlat | crates/slate-graph/src/hnsw.rs:648-670 | every unreached node is a sweep's root, the least id left, or was found through the first node that lists it |
| HnswLayout.SweepFrom | crates/slate-graph/src/hnsw.rs:655-669 | one queue sweep ends, lays out exactly the reachable nodes not laid out before, in hop order |
| HnswLayout.ExpandHead | crates/slate-graph/src/hnsw.rs:659-668 | one dequeue appends exactly the unvisited neighbours, sorted by (degree, id) |
| HnswLayout.HeadCovers | crates/slate-graph/src/hnsw.rs:658-669 | everything as near as the queue's head was found already |
| HnswLayout.LevelledIsHopOrdered | crates/slate-graph/src/hnsw.rs:655-669 | the levels of the sweep are the hop distances |
| HnswLayoutTwice.LayoutIsUnique | crates/slate-graph/src/hnsw.rs:633-674 | a graph has one layout order |
| HnswLayoutTwice.LayoutIsIdempotent | crates/slate-graph/src/hnsw.rs:633-674 | laying out a graph already relabelled by its own layout order gives the identity |
| HnswRelabel.InverseOf | crates/slate-graph/src/hnsw.rs:697-708 | an inverse exists exactly for permutations |
| HnswRelabel.Relabel | crates/slate-graph/src/hnsw.rs:689-759 | accepted exactly for permutations of the ids; every list, level and the entry are renamed |
| HnswRelabel.RelabelledIsWellFormed | crates/slate-graph/src/hnsw.rs:710-726 | the renamed graph is in range |
| RelabelTheorem.RenamedDistinct | crates/slate-graph/src/hnsw.rs:1610-1639 | distinct distances stay distinct over the rewritten store |
| RelabelTheorem.BeamRunRenamed | crates/slate-graph/src/hnsw.rs:1221-1285 | a beam over the renamed graph visits exactly the renamed nodes, whatever the order of neighbour lists |
| RelabelTheorem.GreedyRunRenamed | crates/slate-graph/src/hnsw.rs:1151-1173 | a climb over the renamed graph is the renamed climb with the same distance count |
| RelabelTheorem.SearchRunRenamed | crates/slate-graph/src/hnsw.rs:1115-1195 | so is the whole query |
| RelabelTheorem.TopKRenamed | crates/slate-graph/src/hnsw.rs:1187-1192 | the top k of renamed nodes is the top k with ids renamed |
| RelabelTheorem.RelabelPreservesSearch | crates/slate-graph/src/hnsw.rs:676-688 | same neighbours with ids mapped, same counters, for any permutation and pairwise distinct distances |
| RelabelHybrid.HybridRunRenamed | crates/slate-graph/src/hnsw.rs:1391-1532 | the hybrid loop over the renamed graph, store and codes discovers, fetches and expands exactly the renamed nodes |
| RelabelHybrid.RelabelPreservesHybrid | crates/slate-graph/src/hnsw.rs:676-688 | the hybrid query: same neighbours with ids mapped, same numbers of approximate and exact distances, for pairwise distinct exact and pairwise distinct approximate distances |
| RelabelTheorem.TieChangesAnswer | crates/slate-graph/src/hnsw.rs:676-688 | why distinctness is asked: the same query over two vectors at one distance, before and after swapping their places, returns the other vector |
| HnswCodes.RelocateCodes | crates/slate-graph/src/hnsw.rs:733-745 | every node keeps its own PQ code under its new id |
| HnswCodes.LookupsRenamed | crates/slate-graph/src/hnsw.rs:733-745 | so its table distance is unchanged |
| HnswCodes.ApproximatesRenamed | crates/slate-graph/src/hnsw.rs:733-745 | the approximate scores of the relabelled index are the old ones renamed |
| HnswReorder.WriteReorderedStore | crates/slate-graph/src/hnsw.rs:1610-1639 | any dtype: rejected exactly for non-permutations; otherwise a finished store whose row `new` is the source's row `order[new]` decoded and encoded again, byte for byte the source's row when the codec keeps it |
| HnswReorder.F32KeepsRows | crates/slate-graph/src/hnsw.rs:1622-1635 | the f32 codec keeps every row of a store |
| HnswReorder.I8KeepsRows | crates/slate-graph/src/hnsw.rs:1622-1635 | the i8 codec keeps every row its encoder made |
| HnswReorder.I8KeepsRowsIff | crates/slate-graph/src/hnsw.rs:1622-1635 | whoever wrote an i8 store, the codec keeps all its rows exactly when each has scale 0 and codes 0, or a positive scale, no -128 and some code 127 or -127 |
| HnswReorder.RewrittenScores | crates/slate-graph/src/hnsw.rs:1610-1639 | the rewritten store reopens with the same geometry and scores every renamed vector as the source did |
| HnswReorder.ReorderForLayout | crates/slate-graph/src/hnsw.rs:772-780 | order, store rewrite and relabelling fit together, or the sizes differ and it is rejected; scores carry over when the codec keeps the rows |
| HnswReorder.ReorderPreservesSearch | crates/slate-graph/src/hnsw.rs:761-780 | the relabelled index over the rewritten file answers every query as before, ids mapped, same physical work |
| HnswReorder.ReorderPreservesHybrid | crates/slate-graph/src/hnsw.rs:761-780 | and every hybrid query, with the codes moved along, for as many approximate and exact distances |
| BatchFetch.FetchBatch | crates/slate-graph/src/hnsw.rs:1447-1477 | a batch is fetched in plan order with its exact distances; at most one seek each; fails only if a system call does |
| BatchFetch.BudgetIs | crates/slate-graph/src/hnsw.rs:1430-1431 | a round fetches what is wanted, but at least one node and at most a batch |
| BatchFetch.PlanPays | crates/slate-graph/src/hnsw.rs:1447-1477 | a batch costs one seek per window of its coalesced plan and exactly the bytes of those windows |
| HnswHybrid.PopBatch | crates/slate-graph/src/hnsw.rs:1434-1445 | the popped batch is the `budget` best of the queue by approximate score |
| HnswHybrid.VisitBatch | crates/slate-graph/src/hnsw.rs:1456-1470 | the result heap is the `ef` best of all fetched nodes by (exact score, id) |
| HnswHybrid.FetchPhase | crates/slate-graph/src/hnsw.rs:1423-1479 | exactly the budget's best of the queue by approximate score join the fetched nodes; queue = discovered minus fetched, each node fetched at most once, at least one when any is queued |
| HnswHybrid.ExpandPhase | crates/slate-graph/src/hnsw.rs:1484-1516 | expands exactly the closest unexpanded fetched node, unless the results are full and all strictly better, which stops with the certificate; new neighbours get exactly one approximate score each |
| HnswHybrid.StopWhenFull | crates/slate-graph/src/hnsw.rs:1490-1515 | stopping on a full result set: every kept node was expanded |
| HnswHybrid.StopWhenExhausted | crates/slate-graph/src/hnsw.rs:1520-1522 | stopping with nothing to do: everything reachable was fetched |
| HnswHybrid.SearchLayer | crates/slate-graph/src/hnsw.rs:1391-1532 | ends for any approximate scores, rerank fraction and batch size, with the sets of the reference run, certified, with one visit and one exact distance per fetched node and exactly the seeks and bytes of planning each of the run's batches |
| HnswHybrid.SearchHybrid | crates/slate-graph/src/hnsw.rs:1344-1377 | for any approximate scores: errors in the code's order; the answer is exactly the k best by (exact score, id) of the nodes the reference run fetches from the climbed entry; the width in numbers as for the plain query; seeks <= exact <= approximate, all exact, seeks and bytes those of the run's batches |
| HnswPq.SearchHybrid | crates/slate-graph/src/hnsw.rs:1315-1377 | from the query, the codebook and the resident codes: the approximate scores are the table's, one per code, and the answer is as above for them |
| HnswHybrid.HybridAnswer | crates/slate-graph/src/hnsw.rs:1302-1306 | approximate scores never reach the ranking |
| HnswHybrid.HybridCovered | crates/slate-graph/src/hnsw.rs:1365-1377 | results are as many as the fetched nodes, up to the greatest of ef_search, k and 1; covering the reachable nodes makes the answer their exact top k |
| HnswHybrid.HybridIsExhaustive | crates/slate-graph/src/hnsw.rs:1391-1532 | an `ef` covering the reachable nodes fetches exactly those |
| HnswHybrid.HybridAgreesWithBeam | crates/slate-graph/src/hnsw.rs:1246-1276 | from the same entry the hybrid loop and the plain beam then return the same list, ties included |
| HnswHybrid.CoveringHybridIsBeam | crates/slate-graph/src/hnsw.rs:1246-1276 | with a budget covering every queue and distinct scores the hybrid loop fetches what the plain beam visits and returns its list, for every `ef` |
| HybridReference.CoveringRunIsBeam | crates/slate-graph/src/hnsw.rs:1391-1532 | the run behind it: discovered nodes equal the beam's visited nodes |
| HybridReference.RoundPasses | crates/slate-graph/src/hnsw.rs:1422-1523 | one fetch phase and one expand phase are one round of the reference run |
| HybridReference.RoundReads | crates/slate-graph/src/hnsw.rs:1430-1477 | each round's batch is the next batch of that run |
| HybridReference.NothingBetterLeftIff | crates/slate-graph/src/hnsw.rs:1511-1514 | on all layers of at most `size` nodes nothing better is left queued at the stop if and only if every budget covers its queue |
| HybridReference.CoveringFetchesAll | crates/slate-graph/src/hnsw.rs:1511-1514 | with such budgets nothing discovered is left unfetched |
| HybridReference.SmallBudgetLeavesBetter | crates/slate-graph/src/hnsw.rs:1511-1514 | for any budget that does not, a star graph on which the loop stops before a strictly better discovered node |
| Layout.NewLayout | crates/slate-storage/src/layout.rs:41-66 | accepted exactly for positive dimensions, a power-of-two block and a fitting slot |
| Layout.PowersOfTwo | crates/slate-storage/src/layout.rs:41-66 | the block sizes accepted are exactly the powers of two |
| Layout.OffsetIs | crates/slate-storage/src/layout.rs:113-137 | vector `slot` of block `block` starts `block` blocks and `slot` slots after a 4096-byte header |
| Layout.FileSizeIs | crates/slate-storage/src/layout.rs:99-110 | a file is the header and as few whole blocks as hold its vectors |
| Layout.SlotInsideBlock | crates/slate-storage/src/layout.rs:113-137 | no slot crosses a block |
| Layout.SlotsOrdered | crates/slate-storage/src/layout.rs:131-137 | slots lie in index order without overlap |
| Layout.SlotInsideFile | crates/slate-storage/src/layout.rs:99-110 | every slot ends inside `file_size_for(count)` |
| Format.ToBytes | crates/slate-storage/src/format.rs:91-113 | the image is the fields in order, zero padded to the header size |
| Format.ImageShows | crates/slate-storage/src/format.rs:91-113 | the image carries signature, version 1, element type and the numbers least significant byte first at their offsets, zeros elsewhere |
| Format.LeRoundTrip | crates/slate-storage/src/format.rs:107-110 | little-endian integers read back |
| Format.HeaderRoundTrip | crates/slate-storage/src/format.rs:121-156 | an image parses to its header exactly when the header is consistent, else it is corrupt |
| Format.ParsesIff | crates/slate-storage/src/format.rs:121-190 | a buffer parses to a header exactly when it shows that header in its bytes and the header is consistent |
| Format.HeaderReadsBack | crates/slate-storage/src/layout.rs:154-162 | a layout's header reads back exactly when its block size fits the 32-bit field; the truncated one is rejected |
| Writer.StoreWriter.constructor | crates/slate-storage/src/layout.rs:186-199 | the header region is reserved |
| Writer.StoreWriter.Push | crates/slate-storage/src/layout.rs:210-261 | any dtype: dimension error leaves the store alone; otherwise the next index is returned and the encoded slot is appended, every slot so far at its `vector_offset` |
| Writer.StoreWriter.Append | crates/slate-storage/src/layout.rs:218-260 | a slot that would cross the block starts the next one; earlier slots stay put |
| Writer.StoreWriter.Pad | crates/slate-storage/src/layout.rs:276-285 | exactly `n` zero bytes, 1024 at a time |
| Writer.StoreWriter.Finish | crates/slate-storage/src/layout.rs:295-322 | the file has size `file_size_for(count)`, the real header, and every pushed slot at its offset |
| Writer.NextSlot | crates/slate-storage/src/layout.rs:218-224 | the cursor test pads exactly when the next index starts a new block |
| Schedule.Plan | crates/slate-storage/src/schedule.rs:63-117 | the order lists each requested index once, ascending; seeks are the windows of one coalesced split of it: inside a window the block number grows by at most one from index to index, between windows by at least two; bytes and span are those of that order |
| Schedule.RunSpans | crates/slate-storage/src/schedule.rs:166-184 | the windows of that split of the swept order, one per run |
| Schedule.WindowsSplit | crates/slate-storage/src/schedule.rs:157-184 | the windows cover the order consecutively and neighbours inside one share or follow a block |
| Schedule.PlanIsOptimal | crates/slate-storage/src/schedule.rs:82-106 | no split of the order into windows in which block numbers grow by at most one uses fewer |
| Schedule.CoalescedUnique | crates/slate-storage/src/schedule.rs:157-184 | there is one coalesced split of an order |
| Schedule.SpanIsWindowBytes | crates/slate-storage/src/schedule.rs:147-155 | `span_bytes` is exactly what executing the windows reads |
| Schedule.SpanCoversPayload | crates/slate-storage/src/schedule.rs:139-155 | payload never exceeds it |
| Schedule.SpanAtMostBlocks | crates/slate-storage/src/schedule.rs:147-155 | it never exceeds the distinct blocks times the block size |
| Schedule.WindowsDisjoint | crates/slate-storage/src/schedule.rs:157-184 | the byte spans of two windows are disjoint |
| Io.ReadVectored | crates/slate-storage/src/io.rs:169-223 | out of range is corrupt; on success every byte of the range is in its buffer, for any sequence of short reads; it fails exactly as the first answer that is not positive before all bytes arrived says, negative an I/O error and zero corrupt; an empty list succeeds |
| Io.ReadVectoredDefault | crates/slate-storage/src/io.rs:60-67 | the buffer-by-buffer read delivers the same bytes |
| Io.AdvanceLocates | crates/slate-storage/src/io.rs:218-220 | advancing the buffer list shifts the destination of every later byte |
| Io.LocateIs | crates/slate-storage/src/io.rs:169-223 | a window takes the bytes that follow those of the windows before it, front to back |
| Io.AdvanceLeavesBytes | crates/slate-storage/src/io.rs:218-220 | advancing never leaves a list of only empty buffers |
| Reader.Open | crates/slate-storage/src/reader.rs:63-89 | an opened store has a valid header and geometry and a long enough file |
| Reader.OpensIff | crates/slate-storage/src/reader.rs:63-89 | a file opens with a header exactly when it shows that header, consistent, with a power-of-two block, and holds all its blocks |
| Reader.StoreRoundTrip | crates/slate-storage/src/reader.rs:63-89 | a finished store opens exactly when its block size fits the header field, and every slot reads back what was pushed |
| Reader.F32RoundTrip | crates/slate-storage/src/reader.rs:195-199 | encoding then decoding an f32 vector gives it back |
| Reader.DecodedWord | crates/slate-storage/src/reader.rs:195-199 | element i of an f32 slot is its four bytes from 4i, least significant first |
| Reader.F32BytesRoundTrip | crates/slate-graph/src/hnsw.rs:1622-1635 | decoding then encoding f32 bytes gives them back |
| Reader.PushedVectorsReadBack | crates/slate-storage/src/reader.rs:177-207 | any dtype: every slot of a finished store is the pushed vector's encoding |
| Reader.F32StoreReadsBack | crates/slate-storage/src/reader.rs:195-199 | every later f32 read returns the pushed vector |
| Reader.GetInto | crates/slate-storage/src/reader.rs:177-207 | the two errors, else the caller's buffer holds the decoded slot, for any dtype's codec |
| Reader.PaddingReadable | crates/slate-storage/src/reader.rs:249-292 | in a finished store any index is readable by the executor exactly when its block is one of the file's |
| Reader.LastBlockPadding | crates/slate-storage/src/reader.rs:249-292 | so one past the last vector is readable exactly when the last block is not full |
| Reader.GapNotNegative | crates/slate-storage/src/reader.rs:332-342 | the next wanted slot never starts before the previous end: no offset underflows |
| Reader.BuildWindows | crates/slate-storage/src/reader.rs:326-342 | each wanted slot is wired to its own tight region and gaps to the sink, front to back |
| Reader.WindowsCoverRun | crates/slate-storage/src/reader.rs:317-342 | the windows are disjoint and non-empty, cover the run exactly, and the gaps sum to the sink |
| Reader.ScatterRun | crates/slate-storage/src/reader.rs:308-345 | after one vectored read the slot buffer holds every wanted slot's bytes in order |
| Reader.FetchScheduled | crates/slate-storage/src/reader.rs:249-292 | every planned index is visited once in ascending order with exactly the bytes a direct read gives, one read per run, whatever the short reads |
| Codec.EncodeI8 | crates/slate-storage/src/codec.rs:65-97 | length error leaves the buffer alone; else the scale's four bytes, then the codes |
| Codec.DecodeI8 | crates/slate-storage/src/codec.rs:103-123 | length error leaves the buffer alone; else every code times the scale read from the first four bytes |
| Codec.ScaleIs | crates/slate-storage/src/codec.rs:72-83 | a slot is the four bytes of the scale, 1/127 of the largest magnitude, then the codes |
| Codec.EncodedIs | crates/slate-storage/src/codec.rs:91-96 | a code is the element in steps of the scale rounded to the nearest integer, halves away from zero, as a two's-complement byte in [-127, 127] |
| Codec.DecodedIs | crates/slate-storage/src/codec.rs:111-121 | an element decodes to its two's-complement code times the scale |
| Codec.ClampNeverFires | crates/slate-storage/src/codec.rs:92-95 | every scaled element is already in [-127, 127] |
| Codec.DecodedIsNear | crates/slate-storage/src/codec.rs:13-17 | each decoded element is within 1/254 of the largest magnitude and the byte of -128 never occurs |
| Codec.ReencodeIsIdentity | crates/slate-storage/src/layout.rs:240-255 | re-encoding a decoded vector reproduces scale and codes |
| Codec.I8Keeps | crates/slate-graph/src/hnsw.rs:1622-1635 | decoding and encoding again keeps every slot the encoder made whose scale reads back |
| Codec.I8KeepsIff | crates/slate-graph/src/hnsw.rs:1622-1635 | the same condition, slot by slot, for any slot whose scale bytes read back |
| Codec.I8StoreReadsNear | crates/slate-storage/src/reader.rs:200-204 | an i8 store returns every element within 1/254 of its vector's largest magnitude |
| KMeans.AssignAll | crates/slate-pq/src/kmeans.rs:148-173 | every point goes to its nearest centroid, lowest index on ties; the flag says whether anything changed |
| KMeans.NearestIsBest | crates/slate-pq/src/kmeans.rs:148-173 | that assignment has the least error |
| KMeans.FarthestPoint | crates/slate-pq/src/kmeans.rs:218-236 | the farthest point from its own centroid, lowest index on ties; the random fallback never survives |
| KMeans.Accumulate | crates/slate-pq/src/kmeans.rs:187-197 | sums and counts per cluster |
| KMeans.RecomputeCentroids | crates/slate-pq/src/kmeans.rs:179-214 | in place, cluster by cluster: means, or the farthest point under the half-updated centroids |
| KMeans.RecomputedMoves | crates/slate-pq/src/kmeans.rs:179-214 | so every cluster with points is exactly their mean and every other one the farthest point, lowest index on ties, under the clusters recomputed before it |
| KMeans.MeanIsBest | crates/slate-pq/src/kmeans.rs:205-211 | the mean minimises the squared deviations of its cluster in each coordinate |
| KMeans.ErrorShifts | crates/slate-pq/src/kmeans.rs:208-210 | writing one coordinate changes the total error by exactly its cluster's deviations |
| KMeans.MeanRowDescends | crates/slate-pq/src/kmeans.rs:205-211 | moving a centroid to the mean, coordinate by coordinate, never raises the error |
| KMeans.EmptyRowKeepsError | crates/slate-pq/src/kmeans.rs:200-204 | reseeding an empty cluster changes no error |
| KMeans.RecomputeDescends | crates/slate-pq/src/kmeans.rs:199-213 | a whole recomputation never raises the error, reseeded clusters included |
| KMeans.RoundDescends | crates/slate-pq/src/kmeans.rs:75-77 | one assign/recompute round never raises the quantisation error |
| KMeans.UpdateDistances | crates/slate-pq/src/kmeans.rs:114-123 | the running array holds each point's distance to its nearest chosen centroid |
| KMeans.Draw | crates/slate-pq/src/kmeans.rs:125-141 | the weighted draw takes the first point whose running sum reaches the target |
| KMeans.DrawRepeatsIff | crates/slate-pq/src/kmeans.rs:95-98 | a weighted draw lands on a chosen location exactly when the draw is zero and the first point already coincides with a centroid |
| KMeansPlaces.StartIsDistinct | crates/slate-pq/src/kmeans.rs:95-146 | with at least as many different points as centroids asked for and no draw of zero, the start's centroids are pairwise different |
| KMeansPlaces.ErrorZeroIff | crates/slate-pq/src/kmeans.rs:148-173 | the quantisation error is zero exactly when a centroid lies at every point's place |
| KMeans.KMeansPlusPlusInit | crates/slate-pq/src/kmeans.rs:95-146 | the start consists of points, each after the first chosen by a weighted draw against those before |
| KMeans.Train | crates/slate-pq/src/kmeans.rs:54-90 | at most `k` points are returned as they are; otherwise the last state of a Lloyd run from the k-means++ start: every round assigns each point to its nearest centroid and moves each cluster to the mean of its points, an empty one to the point then farthest from its own centroid; at least one and at most max_iters rounds, the last the first to change no assignment unless the rounds ran out; no worse than the start |
| KMeansDeterminism.TrainingIsDeterministic | crates/slate-pq/src/kmeans.rs:41-48 | the picks decide the start, the number of rounds and the trained centroids |
| KMeansPlaces.TrainingFindsPlaces | crates/slate-pq/src/kmeans.rs:54-90 | points at exactly k places and no draw of zero: the trained centroids are those places, each once |
| CodebookTraining.Train | crates/slate-pq/src/codebook.rs:57-129 | the rejections; every subspace's rows are its sub-vectors when few, else no worse than their start, read back from the flat buffer |
| CodebookTraining.ColumnsAre | crates/slate-pq/src/codebook.rs:96-102 | subspace s is trained on coordinates s*d to s*d+d-1 of every vector |
| CodebookTraining.PowersAre | crates/slate-pq/src/codebook.rs:31 | 2 to 256 centroids per subspace for 1 to 8 bits |
| CodebookTraining.LayNext | crates/slate-pq/src/codebook.rs:113-115 | appending a block keeps every block back to back with its own rows |
| CodebookTraining.LaidIsValid | crates/slate-pq/src/codebook.rs:172-175 | `centroid(s, c)` reads exactly trained row `c` of subspace `s` |
| Codebook.EncodeInto | crates/slate-pq/src/codebook.rs:187-215 | the two errors, else the nearest centroid id per subspace |
| Codebook.EncodeBatch | crates/slate-pq/src/codebook.rs:237-254 | code `i` is the code of vector `i` |
| Codebook.ReconstructInto | crates/slate-pq/src/codebook.rs:265-284 | the two errors, else the flat buffer's row for each byte, whatever subspace it lies in; for a code the codebook can produce, the concatenated centroids |
| Codebook.DistanceToReconstruction | crates/slate-pq/src/codebook.rs:256-284 | the distance to a reconstruction is the sum of the subspace distances |
| Codebook.EncodeIsOptimal | crates/slate-pq/src/codebook.rs:179-182 | no code reconstructs nearer to the vector than the encoder's |
| Adc.Build | crates/slate-pq/src/adc.rs:42-68 | dimension error, else every used cell holds its distance and every other cell infinity |
| Adc.CellsApart | crates/slate-pq/src/adc.rs:60-61 | two (subspace, centroid) pairs never share a cell |
| Adc.DistanceTo | crates/slate-pq/src/adc.rs:85-97 | length error, else one table entry per subspace added up, a byte past its row reading a later row |
| Adc.DistanceAt | crates/slate-pq/src/adc.rs:109-127 | out of range is corrupt, else the same sum without slicing |
| Adc.LookupIsDistance | crates/slate-pq/src/adc.rs:76-79 | for bytes within their rows the sum is finite exactly for codes the codebook can produce; for those it equals the squared distance to the reconstruction |
| Adc.EncoderMinimisesLookup | crates/slate-pq/src/adc.rs:76-79 | the encoder's code has the least table distance from its own vector |
| Adc.BatchLookup | crates/slate-graph/src/hnsw.rs:1290-1299 | what the resident codes of an index score: the distance to each vector's reconstruction |
| Adc.ScoreCodes | crates/slate-graph/src/hnsw.rs:1340-1342 | dimension error, else one table and one approximate score per resident code |
| Adc.ApproximateIsDistance | crates/slate-graph/src/hnsw.rs:1290-1299 | each such score is the squared distance from the query to the code's reconstruction |
| Brute.Search | crates/slate-index/src/brute.rs:32-62 | the two errors, else the exact top k of every stored vector |
| StoreBuild.BuildIvf | crates/slate-graph/src/ivf.rs:146-232 | reads a store of any dtype; empty store; else trained cells, as many as asked for or as vectors, and the posting lists of the soft assignment over them |
| StoreBuild.BuildIvfPq | crates/slate-graph/src/ivf.rs:146-232 | with a PQ tier: rejected exactly for settings the codebook rejects, unless the store is empty; else also a codebook trained subspace by subspace on the vectors' own coordinates there and the code of every vector, fit for the gate |
| IvfPq.GateScores | crates/slate-graph/src/ivf.rs:411-417 | what the gate and the hybrid beam score: the distance to each vector's reconstruction by its own code, which no other code would bring nearer to that vector |
| Ivf.SortLists | crates/slate-graph/src/ivf.rs:203-208 | the defensive sort moves nothing |
| Ivf.PostingsCover | crates/slate-graph/src/ivf.rs:191-208 | each vector sits in exactly `soft` lists, those of its nearest cells; every list is strictly ascending |
| Ivf.SoftIs | crates/slate-graph/src/ivf.rs:192-193 | a vector joins as many cells as asked for, at least one and at most all |
| Ivf.ProbedCells | crates/slate-graph/src/ivf.rs:295-310 | a query probes num_probes different cells, at least one and at most all, those with the nearest centroids |
| Ivf.Candidates | crates/slate-graph/src/ivf.rs:312-320 | the union of the probed lists, each id once, ascending |
| Ivf.FetchAndRank | crates/slate-graph/src/ivf.rs:330-341 | the exact top k of the fetched candidates, at exactly the seeks and bytes of one planned read of them |
| Ivf.Search | crates/slate-graph/src/ivf.rs:275-344 | errors and empty cases; else the exact top k of the vectors listed in the probed cells, at exactly the seeks and bytes of one planned read of them |
| Ivf.SearchHybrid | crates/slate-graph/src/ivf.rs:397-438 | for any approximate scores: only the best candidates by them within the budget are fetched; the answer is their exact top k, at exactly the seeks and bytes of one planned read of them |
| IvfPq.SearchHybrid | crates/slate-graph/src/ivf.rs:363-438 | from the query, the codebook and the resident codes: the gate's scores are the table's, and the answer is as above for them |
| IvfOracle.ProbeAllReachesAll | crates/slate-graph/src/ivf.rs:295-320 | probing every list reaches every vector |
| IvfOracle.ProbeAllIsBruteForce | crates/slate-graph/src/ivf.rs:295-341 | probing every list of an f32 store gives exactly the brute-force answer |
| IvfOracle.MoreProbesMoreCandidates | crates/slate-graph/src/ivf.rs:295-310 | more probes never lose a candidate |
| IvfOracle.FoundStaysFound | crates/slate-graph/src/ivf.rs:295-341 | a true top-k neighbour found with fewer probes is found with more |
| IvfOracle.WideGateIsPlain | crates/slate-graph/src/ivf.rs:422-425 | a budget covering all candidates makes the gated search the plain one |
| IvfOracle.GateKeepsWhatItFetches | crates/slate-graph/src/ivf.rs:346-357 | a candidate's true neighbour is lost only if the gate drops it |
| UpdateLog.UpdateLog.Delete | crates/slate-index/src/update.rs:55-57 | the id is tombstoned, whether or not it was issued |
| UpdateLog.UpdateLog.Insert | crates/slate-index/src/update.rs:60-65 | the vector is appended under the next id |
| UpdateLog.IdsAreConsecutive | crates/slate-index/src/update.rs:28-41 | over any run ids are handed out consecutively from the store length, so none is reissued, and name their vectors |
| UpdateLog.InsertedIs | crates/slate-index/src/update.rs:60-65 | the k-th insert of a run is the k-th buffered vector, whatever came before and after |
| UpdateLog.LiveAfterRun | crates/slate-index/src/update.rs:28-41 | after any run an id is live exactly when it exists and was never deleted, before or after its issue |
| UpdateLog.InsertIsLiveIff | crates/slate-index/src/update.rs:60-65 | a new vector is live exactly when its id was not deleted in advance |
| UpdateLog.DeletedInAdvance | crates/slate-index/src/update.rs:55-57 | a concrete run in which a vector is inserted dead |
| Bundle.ApplyUpdates | crates/slate-index/src/bundle.rs:263-288 | for any index answer: the exact top k of its surviving hits and the surviving buffered vectors |
| Bundle.OverFetchSuffices | crates/slate-index/src/bundle.rs:251-258 | asking for one more hit per tombstone is enough |
| Bundle.OverlayIsExact | crates/slate-index/src/bundle.rs:263-288 | an exact index makes the overlay exact over every live vector |
| Bundle.ExactIsHonest | crates/slate-index/src/bundle.rs:211-249 | an exact answer lists stored vectors at their own scores, as the overlay asks |
| Bundle.FastPathAgrees | crates/slate-index/src/bundle.rs:216-218 | for any answer of at most k stored hits, exact or not, the empty-log path returns what the general path would |
| Bundle.Bundle.Delete | crates/slate-index/src/bundle.rs:187-189 | the log records the deletion |
| Bundle.Bundle.Insert | crates/slate-index/src/bundle.rs:193-202 | width error leaves the log alone; else the next id |
| Bundle.Bundle.Search | crates/slate-index/src/bundle.rs:211-249 | errors and counters are the index's; the answer is the merge, and the exact top k of the live vectors when the index is exact at k plus the tombstones |
| BundleOracle.SearchAll | crates/slate-index/src/bundle.rs:211-289 | over an inverted file probing every list of a store of any dtype, after any run of inserts and deletes: exactly the top k of the vectors stored or issued and never deleted |

## Left out

- SIMD kernels and their dispatch: distances are the scalar squared sum in exact arithmetic or an abstract score.
- Floating-point rounding, NaN, infinities as scores and `total_cmp` corner cases: scores are reals.
- The bit layouts of an f16 element and of an i8 scale: they are parameters of the slot codec.
- Codec.I8Keeps: asks that the vector's scale reads back from its four bytes; rounding it to f32 is not modelled.
- Codec.I8KeepsIff: asks the same of the scales of the slot and of what it decodes to.
- RelabelTheorem.RelabelPreservesSearch: asks for pairwise distinct distances, as ties are broken by id and ids change;
  `RelabelTheorem.TieChangesAnswer` shows what a tie does. The same holds of the hybrid and the reorder theorems.
- Codebook.ReconstructInto: asks that no byte reads past the flat buffer, where the source panics.
- Adc.DistanceTo: asks that no lookup runs past the table, where the source panics.
- Adc.DistanceAt: asks the same of the code it looks up.
- Ivf.SearchHybrid: asks for a fetch batch size of at least one; the source's clamp panics on zero.
- IvfPq.SearchHybrid: asks the same.
- BundleOracle.SearchAll: takes the query's distance to each coarse centroid as an input, as every inverted-file query does.
- KMeans.Train: asks for at least one cluster, as the recomputation indexes cluster 0.
- Beam.Search: with ties the kept set is best by score, not by (score, id), as the code admits only strictly better
  nodes; the certificate says so.
- StoreBuild.BuildSharded: takes the metric and each shard's drawn levels as inputs.
- Reader.FetchScheduled: is modelled over the positioned-read backend; `Io.ReadVectoredDefault` is the other one's read.
- Random number generation and the level distribution: levels and picks are inputs.
- The claim that reseeding keeps all k-means clusters in use: two empty clusters can receive the same point.
- Recall, locality and speed claims, and reachability of every node from the entry: not true of every input.
- The mmap and `madvise` layer, file opening, directories, JSON persistence, manifests and the index dispatch of a
  bundle: a bundle's index is a function from the number of neighbours asked for to its answer.
- The command line, text parsing, configuration validators and cost constants: simple branching and linear formulas.
- Visitor errors inside `fetch_scheduled` and read errors inside the plain disk beam: no visitor in the search paths
  fails, and the nodes of an index are rows of its store.
- The system limit on the length of a buffer list shows only as a negative `preadv` answer.
- Pushing after `finish_blocks`: finishing ends the writer's life in the model; the source would misplace later slots.
