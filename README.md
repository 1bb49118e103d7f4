# MarkovGraph: a verified Dafny model

H-Store's `MarkovGraph` summarises the executions of one stored procedure as
a directed graph. There are three marker vertices: START, COMMIT and ABORT.
Every other vertex is a query vertex, identified by a statement, the set of
partitions that query touched, and how many times that statement had already
run earlier in the same transaction.

Each completed transaction trace is tallied as a walk through the graph. The
walk starts at START and visits one query vertex per query, creating vertices
and edges on demand. Every traversed edge gets a hit, and so does its source
vertex. An aborted query also sends an edge to ABORT. The walk ends at COMMIT.

Every vertex and edge keeps two counters: instance hits (since the last reset)
and total hits. `resetCounters` clears the instance hits. `recomputeGraph`
folds them into the totals. An edge's probability is its total divided by the
total of its source vertex. `shouldRecompute` asks whether at least half of
the vertices vote for a recomputation.

The project has four modules:

- `MarkovTypes` (`markov_types.dfy`) holds the entities: vertices, counters,
  edges, and the query and transaction traces.
- `MarkovSpec` (`markov_spec.dfy`) holds the graph as a value, and every
  operation as a function from the old graph to the new one.
- `MarkovProofs` (`markov_proofs.dfy`) holds the lemmas that state what those
  functions promise.
- `Markov` (`markov_graph.dfy`) holds the class `MarkovGraph`. It keeps the
  source's mutable state in fields and updates them with loops, as the Java
  methods do. Each method is proved to produce exactly the state the matching
  `MarkovSpec` function computes, and to keep the object invariant `Valid()`.

The container that `MarkovGraph` extends (`AbstractDirectedGraph`) is not part
of this model. Its job is done by an arena, in which a vertex is named by its
position (`Vid`):

- `vertices` and `vertexHits` list the vertices and their counters;
- `edges` lists `Edge(src, dst, hits)` records in the order they were created;
- `cache` maps each marker kind to its vertex.

Edge lookup (`findEdge` in the container) is the linear search `FindEdge`.
`Edge.increment` is taken to add one instance hit, since `recomputeGraph`
folds exactly the instance counts into the totals. The `Edge` and `Vertex`
classes are not part of this model.

The object invariant `Valid()` has four parts:

- the handles are well formed;
- the marker cache is exact, and no ordered pair has two edges;
- no two query vertices share a (statement, partitions, index) key;
- counters are conserved: every vertex's instance and total counters equal
  the sums over its outgoing edges. Every `addToEdge` bumps a source vertex
  and one of its out-edges together, which keeps this true.

The probability lemmas rest on this conservation.

One behaviour of the code is worth noting. The query vertex that becomes
`previous` is never the ABORT vertex, so the test at line 322 of
`processTransaction` always succeeds. Every returned path therefore ends at
COMMIT, aborted queries included (`MarkovProofs.ProcessPathShape`).

## Model

| member | source | states |
|---|---|---|
| MarkovSpec.FindVertex | src/frontend/edu/brown/markov/MarkovGraph.java:125-132 | a found handle names a vertex carrying the key |
| MarkovProofs.FindVertexSpec | src/frontend/edu/brown/markov/MarkovGraph.java:125-132 | the lookup returns the first vertex with the key (none earlier matches), and returns nothing exactly when no vertex has the key |
| MarkovSpec.FindEdge | src/frontend/edu/brown/markov/MarkovGraph.java:262 | a found index names an edge from s to d |
| MarkovProofs.FindEdgeSpec | src/frontend/edu/brown/markov/MarkovGraph.java:262-266 | the edge lookup fails exactly when no edge joins s to d |
| MarkovProofs.FindEdgeAt | src/frontend/edu/brown/markov/MarkovGraph.java:262 | with at most one edge per pair, the lookup finds that edge's index |
| MarkovProofs.MultiplicityOne | src/frontend/edu/brown/markov/MarkovGraph.java:262-266 | with unique edges, a pair the lookup finds is joined by exactly one edge |
| MarkovSpec.AddVertex | src/frontend/edu/brown/markov/MarkovGraph.java:95-111 | the graph stays well formed, and the new vertex is appended under the next handle |
| MarkovProofs.AddVertexEffect | src/frontend/edu/brown/markov/MarkovGraph.java:95-111 | addVertex keeps the invariant and appends the vertex with zero counters; a marker enters the cache under its kind; a query vertex leaves the cache unchanged; edges are untouched |
| MarkovProofs.AddVertexKeepsDistinct | src/frontend/edu/brown/markov/MarkovGraph.java:95-111 | adding a marker, or a query vertex whose key no vertex carries, keeps query keys distinct |
| MarkovProofs.AddVertexConserves | src/frontend/edu/brown/markov/MarkovGraph.java:95-111 | a new vertex (with no edges and zero counters) keeps counter conservation |
| MarkovSpec.AddMarkers | src/frontend/edu/brown/markov/MarkovGraph.java:59-69 | the cache gains exactly the marker kinds of the list |
| MarkovProofs.AddMarkersValid | src/frontend/edu/brown/markov/MarkovGraph.java:59-69 | adding the markers of a duplicate-free list keeps the invariant |
| MarkovSpec.Initialize | src/frontend/edu/brown/markov/MarkovGraph.java:58-72 | initialize on a graph without markers yields a well-formed graph holding START, COMMIT and ABORT: the cache gains exactly those three kinds |
| MarkovProofs.InitializeUnfold | src/frontend/edu/brown/markov/MarkovGraph.java:58-72 | initialize adds START, then COMMIT, then ABORT |
| MarkovProofs.InitializeEffect | src/frontend/edu/brown/markov/MarkovGraph.java:58-72 | after initialize the invariant holds; START, COMMIT and ABORT are cached under three new consecutive handles with zero counters; edges are untouched |
| MarkovSpec.AddToEdge | src/frontend/edu/brown/markov/MarkovGraph.java:261-269 | addToEdge keeps the graph well formed, and leaves the vertices and the cache unchanged |
| MarkovProofs.AddToEdgeValid | src/frontend/edu/brown/markov/MarkovGraph.java:261-269 | addToEdge keeps the invariant: it never creates a second edge for a pair |
| MarkovProofs.AddToEdgeHits | src/frontend/edu/brown/markov/MarkovGraph.java:261-269 | the counters of the edge s -> d gain one instance hit; every other pair's counters are unchanged |
| MarkovProofs.AddToEdgeMultiplicity | src/frontend/edu/brown/markov/MarkovGraph.java:261-269 | afterwards exactly one edge joins s to d |
| MarkovProofs.AddToEdgeEffect | src/frontend/edu/brown/markov/MarkovGraph.java:261-269 | the source vertex gains one instance hit and no other vertex changes; the edge list grows by at most the one new edge; every edge keeps its endpoints |
| MarkovProofs.AddToEdgeOutSum | src/frontend/edu/brown/markov/MarkovGraph.java:261-269 | the out-edge instance sum of s rises by one; every other out-edge sum is unchanged |
| MarkovProofs.AddToEdgeConserves | src/frontend/edu/brown/markov/MarkovGraph.java:261-269 | addToEdge keeps both counter conservations |
| MarkovSpec.Step | src/frontend/edu/brown/markov/MarkovGraph.java:292-321 | one query iteration keeps the walk well formed; it keeps the counter keys and the cache, removes no vertex, and lengthens the path by one |
| MarkovSpec.Walk | src/frontend/edu/brown/markov/MarkovGraph.java:292-321 | the query loop keeps the walk well formed and lengthens the path by one vertex per query |
| MarkovSpec.InitialWalk | src/frontend/edu/brown/markov/MarkovGraph.java:280-289 | the walk state before the query loop (at START, with a zero counter per statement) is well formed |
| MarkovSpec.ProcessTransaction | src/frontend/edu/brown/markov/MarkovGraph.java:278-328 | processTransaction keeps the graph well formed and keeps its marker cache |
| MarkovProofs.StepFacts | src/frontend/edu/brown/markov/MarkovGraph.java:302-320 | an iteration never moves to ABORT. An existing vertex with the key is reused, leaving the vertices unchanged. A missing key is appended as one new vertex. The statement's counter rises by one |
| MarkovProofs.WalkShape | src/frontend/edu/brown/markov/MarkovGraph.java:292-321 | after the loop, each statement's counter has risen by its number of queries. The i-th vertex on the path carries query i's statement and partitions, with the count of that statement's earlier queries as its index |
| MarkovProofs.WalkKeepsDistinct | src/frontend/edu/brown/markov/MarkovGraph.java:303-309 | the walk never creates two query vertices with the same key |
| MarkovProofs.WalkConserves | src/frontend/edu/brown/markov/MarkovGraph.java:292-321 | the walk keeps counter conservation |
| MarkovProofs.StepValid | src/frontend/edu/brown/markov/MarkovGraph.java:302-316 | an iteration keeps the invariant |
| MarkovProofs.WalkValid | src/frontend/edu/brown/markov/MarkovGraph.java:292-321 | the query loop keeps the invariant |
| MarkovProofs.StepHits | src/frontend/edu/brown/markov/MarkovGraph.java:311-316 | an iteration adds one instance hit to the edge from the previous vertex to the new one, one to the edge to ABORT when the query aborted, and none elsewhere |
| MarkovProofs.PairsAt | src/frontend/edu/brown/markov/MarkovGraph.java:311-320 | the i-th consecutive pair of a path is (path[i], path[i+1]) |
| MarkovProofs.WalkHitsAlongPath | src/frontend/edu/brown/markov/MarkovGraph.java:311-320 | for a target other than ABORT, each edge gains one instance hit per occurrence of its pair along the walk's path, and its totals are unchanged |
| MarkovProofs.AbortCountAt | src/frontend/edu/brown/markov/MarkovGraph.java:313-316 | an aborted query's vertex counts at least once among the vertices that went to ABORT |
| MarkovProofs.WalkHitsToAbort | src/frontend/edu/brown/markov/MarkovGraph.java:313-316 | each edge to ABORT gains one instance hit per aborted query at its source vertex, and its totals are unchanged |
| MarkovProofs.WalkAvoidsAbort | src/frontend/edu/brown/markov/MarkovGraph.java:278-321 | no vertex of the walk's path is ABORT |
| MarkovProofs.WalkLabel | src/frontend/edu/brown/markov/MarkovGraph.java:302-320 | the vertex visited for query i carries that query's statement and partitions, with its statement's counter at that point as its index |
| MarkovProofs.InitialWalkReady | src/frontend/edu/brown/markov/MarkovGraph.java:280-289 | before the query loop the walk is well formed, its path is START alone, and every query's statement has a counter at zero |
| MarkovProofs.ProcessUnfold | src/frontend/edu/brown/markov/MarkovGraph.java:322-325 | the walk never ends at ABORT, so processTransaction always adds the edge to COMMIT and appends COMMIT to the path |
| MarkovProofs.ProcessVisit | src/frontend/edu/brown/markov/MarkovGraph.java:322-327 | the returned path agrees with the walk's path at every walk position, and the final edge creates no vertex |
| MarkovProofs.ProcessPathShape | src/frontend/edu/brown/markov/MarkovGraph.java:278-328 | the returned path has one vertex per query plus two; it starts at START, ends at COMMIT and never visits ABORT; no vertex is removed and the cache is unchanged |
| MarkovProofs.ProcessPathLabels | src/frontend/edu/brown/markov/MarkovGraph.java:302-320 | the path vertex after query i carries that query's statement and partitions, with the number of earlier queries of the same statement as its index |
| MarkovProofs.ProcessValid | src/frontend/edu/brown/markov/MarkovGraph.java:278-328 | processTransaction keeps the invariant |
| MarkovProofs.ProcessKeepsDistinct | src/frontend/edu/brown/markov/MarkovGraph.java:303-309 | processTransaction keeps query vertex keys distinct |
| MarkovProofs.ProcessConserves | src/frontend/edu/brown/markov/MarkovGraph.java:278-328 | processTransaction keeps counter conservation |
| MarkovProofs.ProcessEdgeHits | src/frontend/edu/brown/markov/MarkovGraph.java:311-325 | each pair's edge gains one instance hit per consecutive occurrence on the returned path (edges to ABORT: one per aborted query there), and no total changes |
| MarkovProofs.HitEdgeUnique | src/frontend/edu/brown/markov/MarkovGraph.java:261-269 | a pair with instance hits is joined by exactly one edge |
| MarkovProofs.PathEdgesExactlyOnce | src/frontend/edu/brown/markov/MarkovGraph.java:311-325 | each consecutive pair of the returned path is joined by exactly one edge |
| MarkovProofs.AbortedQueriesReachAbort | src/frontend/edu/brown/markov/MarkovGraph.java:313-316 | the vertex of an aborted query has exactly one edge to ABORT |
| MarkovSpec.ResetCounters | src/frontend/edu/brown/markov/MarkovGraph.java:339-346 | resetCounters sets every vertex's and every edge's instance hits to zero, keeps every total, and keeps the vertices, the cache and each edge's endpoints |
| MarkovProofs.ResetEffect | src/frontend/edu/brown/markov/MarkovGraph.java:339-346 | resetCounters keeps the invariant and leaves vertices, cache and endpoints alone. Every instance counter becomes zero and every total is kept |
| MarkovProofs.ResetIdempotent | src/frontend/edu/brown/markov/MarkovGraph.java:339-346 | resetting twice is resetting once |
| MarkovProofs.ResetConserves | src/frontend/edu/brown/markov/MarkovGraph.java:339-346 | after a reset instance counters are conserved, and totals stay conserved |
| MarkovSpec.RecomputeGraph | src/frontend/edu/brown/markov/MarkovGraph.java:351-358 | the counter folding of recomputeGraph never lowers a vertex's or an edge's total, and keeps the vertices, the cache and each edge's endpoints |
| MarkovProofs.RecomputeEffect | src/frontend/edu/brown/markov/MarkovGraph.java:351-358 | the counter folding of recomputeGraph keeps the invariant. Every total grows by its instance count, so totals never fall. Instance counts are kept |
| MarkovProofs.RecomputeAfterReset | src/frontend/edu/brown/markov/MarkovGraph.java:339-358 | folding right after a reset changes nothing |
| MarkovProofs.RecomputeConserves | src/frontend/edu/brown/markov/MarkovGraph.java:351-358 | folding keeps both counter conservations |
| MarkovSpec.EdgeProbability | src/frontend/edu/brown/markov/MarkovGraph.java:165-172 | the probability calculateEdgeProbabilities gives an edge (its total over its source's total, zero for a source never visited) is never negative |
| MarkovSpec.OutProbability | src/frontend/edu/brown/markov/MarkovGraph.java:204-207 | the sum isSane forms over a vertex's out-edge probabilities is never negative |
| MarkovProofs.OutProbabilityScaled | src/frontend/edu/brown/markov/MarkovGraph.java:165-172 | the probability sum over a vertex's out-edges is their total-hit sum over the vertex's total |
| MarkovProofs.ProbabilitiesSumToOne | src/frontend/edu/brown/markov/MarkovGraph.java:165-172 | with totals conserved, the out-edge probabilities of a visited vertex sum to exactly one |
| MarkovProofs.EdgeProbabilityInRange | src/frontend/edu/brown/markov/MarkovGraph.java:204-206 | with totals conserved, every edge probability lies in [0, 1] (isSane's per-edge assertions) |
| MarkovProofs.OutProbabilityZero | src/frontend/edu/brown/markov/MarkovGraph.java:165-172 | the out-edges of a vertex with no total hits have probability sum zero |
| MarkovProofs.ProbabilitySumAtMostOne | src/frontend/edu/brown/markov/MarkovGraph.java:207-223 | with totals conserved, no vertex's out-edge probability sum exceeds one, so isSane's two sum checks never return false |
| MarkovSpec.CountVotes | src/frontend/edu/brown/markov/MarkovGraph.java:240-245 | the count of yes votes among n vertices is at most n |
| MarkovSpec.ShouldRecompute | src/frontend/edu/brown/markov/MarkovGraph.java:238-247 | shouldRecompute over n vertices (yes-proportion at least one half; false over no vertices, where the proportion is NaN) answers yes only when some vertex votes yes |
| MarkovProofs.CountVotesIsCardinality | src/frontend/edu/brown/markov/MarkovGraph.java:240-245 | the count of shouldRecompute is the number of vertices voting yes, at most the vertex count |
| MarkovProofs.ShouldRecomputeIffHalf | src/frontend/edu/brown/markov/MarkovGraph.java:238-247 | shouldRecompute holds iff the graph has a vertex and 2 * yes >= the vertex count |
| MarkovProofs.HalfRatio | src/frontend/edu/brown/markov/MarkovGraph.java:246 | for n > 0, c / n >= 0.5 holds iff 2c >= n |
| MarkovProofs.CountVotesMonotone | src/frontend/edu/brown/markov/MarkovGraph.java:240-245 | more yes votes never lower the count |
| MarkovProofs.ShouldRecomputeMonotone | src/frontend/edu/brown/markov/MarkovGraph.java:238-247 | more yes votes never turn a yes answer into a no |
| Markov.MarkovGraph.constructor | src/frontend/edu/brown/markov/MarkovGraph.java:44-54 | a new graph is empty, satisfies the invariant, and records its partition and transaction count |
| Markov.MarkovGraph.AddVertex | src/frontend/edu/brown/markov/MarkovGraph.java:95-111 | returns the new handle; the new state is MarkovSpec.AddVertex of the old; the invariant, including distinct query keys, is kept, given that a query vertex added is not already held |
| Markov.MarkovGraph.Initialize | src/frontend/edu/brown/markov/MarkovGraph.java:58-72 | the loop over the vertex kinds leaves the three markers cached, and the new state is MarkovSpec.Initialize of the old |
| Markov.MarkovGraph.AddMarkerOfKind | src/frontend/edu/brown/markov/MarkovGraph.java:59-69 | one iteration of initialize's loop: the state becomes MarkovSpec.AddMarkers over one more kind, and the invariant is kept |
| Markov.MarkovGraph.GetVertex | src/frontend/edu/brown/markov/MarkovGraph.java:125-132 | the loop returns the first vertex with the key (MarkovSpec.FindVertex); a result names a vertex with the key; nothing is returned exactly when no vertex has it |
| Markov.MarkovGraph.GetVertexOfType | src/frontend/edu/brown/markov/MarkovGraph.java:378-382 | the cached vertex of a kind is a marker vertex of that kind |
| Markov.MarkovGraph.AddToEdge | src/frontend/edu/brown/markov/MarkovGraph.java:261-269 | the new state is MarkovSpec.AddToEdge of the old; the invariant is kept |
| Markov.MarkovGraph.VertexFor | src/frontend/edu/brown/markov/MarkovGraph.java:304-309 | the vertex getVertex finds for the key is used and nothing changes; when there is none, the state becomes MarkovSpec.AddVertex of the key and the new handle is returned; the invariant is kept |
| Markov.MarkovGraph.TallyQuery | src/frontend/edu/brown/markov/MarkovGraph.java:292-321 | one loop iteration produces MarkovSpec.Step of the old walk state and keeps the invariant |
| Markov.MarkovGraph.ProcessTransaction | src/frontend/edu/brown/markov/MarkovGraph.java:278-328 | the counter and query loops yield the state and path of MarkovSpec.ProcessTransaction; the invariant and the cache are kept |
| Markov.MarkovGraph.ResetCounters | src/frontend/edu/brown/markov/MarkovGraph.java:339-346 | the two loops yield MarkovSpec.ResetCounters of the old state; the invariant is kept |
| Markov.MarkovGraph.RecomputeGraph | src/frontend/edu/brown/markov/MarkovGraph.java:351-358 | the two loops yield MarkovSpec.RecomputeGraph of the old state; the invariant is kept |
| Markov.MarkovGraph.ShouldRecompute | src/frontend/edu/brown/markov/MarkovGraph.java:238-247 | the counting loop answers MarkovSpec.ShouldRecompute, that is, whether the graph is non-empty and at least half its vertices vote yes |
| Markov.MarkovGraph.IsSane | src/frontend/edu/brown/markov/MarkovGraph.java:191-225 | the nested loops answer true iff no vertex has two out-edges to the same vertex, and every graph satisfying the invariant passes |

## Left out

- Execution times are not modelled: `addExecutionTime` (lines 281 and 318), `normalizeTimes` (lines 178-183, called from `recomputeGraph`), and the timestamps of traces.
- `calculateProbabilities` (lines 150-160) is not modelled. It relies on the static probability routines of `Vertex`, which are not part of this model. So is the floating-point probability stored by `Edge.setProbability` in `calculateEdgeProbabilities`. Instead, `MarkovSpec.EdgeProbability` is an exact-real stand-in: an edge's total over its source's total. Floating-point rounding is therefore not modelled.
- `isSane` (lines 191-225) keeps only its structural check. A duplicate destination makes `Markov.MarkovGraph.IsSane` return false; in the source this is a failed assertion (line 200). The floating-point sums and the EPSILON tolerance are replaced by the exact-real lemmas `MarkovProofs.EdgeProbabilityInRange` and `MarkovProofs.ProbabilitySumAtMostOne`.
- `Markov.MarkovGraph.ShouldRecompute`: each vertex's vote is the parameter `votes`. `Vertex.shouldRecompute`, with its tolerance and the transaction count, is not part of this model.
- `unmarkAllEdges` (lines 232-236) is not modelled: the edge mark it clears is not part of this model.
- The catalog (`Procedure`, `Statement`, `Database`) and the `PartitionEstimator` are replaced by plain inputs. A trace carries its procedure's statement ids, and each query's already estimated partition set.
- `Markov.MarkovGraph.ProcessTransaction` requires every query's partition set to be non-empty and its statement to be among the procedure's. The source asserts the first (lines 299-300) and fails on a missing counter for the second (line 303). An estimator exception (lines 294-298) is not modelled.
- `Markov.MarkovGraph.AddVertex` always adds the vertex. The container's refusal of a vertex it already holds (`ret` false at line 96) is not modelled; instead the method requires that a query vertex it adds is not already held, which keeps query keys distinct in the object invariant. Every caller adds a vertex the graph does not already hold: `processTransaction` creates one only after `getVertex` found none (lines 304-308), and `initialize` is required to run on a graph without markers, so each marker it adds is new. The source's `initialize` does not consult the cache; only the assert at line 103 of `addVertex` guards against a second marker of a kind. Which object `MarkovUtil.getSpecialVertex` (line 64) returns is not part of this model.
- `AllTypes` lists the vertex kinds as START, COMMIT, ABORT, QUERY. The declaration order of the `Vertex.Type` enum is not part of this model. `initialize` follows it (line 59), so the handles `MarkovProofs.InitializeEffect` gives the three markers assume that order.
- Integers are unbounded. The Java `int` counters and indices could in principle wrap at 2^31, and that wrap-around is not modelled.
- `synchronized` (lines 339 and 351) and concurrency are not modelled; methods run one at a time.
- Trivial members are not modelled: the getters and setters, `compareTo`, `getAllPartitions`, `getStartVertex`, `getCommitVertex`, `getAbortVertex` (these are `GetVertexOfType` at one kind), and the command-line `main`.
