/**
 * The Markov graph of one (procedure, base partition) pair, as a value, and
 * every operation on it as a function of the old state. The class in
 * markov_graph.dfy is proved to change its fields exactly as these
 * functions say; the lemmas in markov_proofs.dfy state what they promise.
 */
module MarkovSpec {
  import opened MarkovTypes

  /**
   * The vertex arena (labels and counters, indexed by handle), the edge
   * arena, and the cache from marker kind to the handle of its vertex.
   */
  datatype Graph = Graph(
    vertices: seq<Vertex>,
    vertexHits: seq<Hits>,
    edges: seq<Edge>,
    cache: map<VertexType, Vid>)

  /** A graph before initialization. */
  const Empty: Graph := Graph([], [], [], map[])

  // ---------------------------------------------------------------------
  // Structural invariants
  // ---------------------------------------------------------------------

  /** At most one edge joins any ordered pair of vertices. */
  predicate EdgesUnique(es: seq<Edge>) {
    forall j, l :: 0 <= j < l < |es| ==> es[j].src != es[l].src || es[j].dst != es[l].dst
  }

  /** Every edge joins two vertices of a graph with n vertices. */
  predicate EdgesInRange(es: seq<Edge>, n: nat) {
    forall k :: 0 <= k < |es| ==> es[k].src < n && es[k].dst < n
  }

  /**
   * Every handle the graph stores names a vertex: one counter record per
   * vertex, edges between present vertices, and each cached handle names a
   * marker vertex of its kind.
   */
  predicate WellFormed(g: Graph) {
    && |g.vertexHits| == |g.vertices|
    && (forall t :: t in g.cache ==> g.cache[t] < |g.vertices| && g.vertices[g.cache[t]] == Marker(t))
    && EdgesInRange(g.edges, |g.vertices|)
  }

  /**
   * The container and marker-cache invariant: a well-formed graph with
   * never two edges for one pair, whose cache maps each marker kind present
   * to the one vertex of that kind.
   */
  predicate Valid(g: Graph) {
    && WellFormed(g)
    && QUERY !in g.cache
    && (forall i :: 0 <= i < |g.vertices| && g.vertices[i].Type() != QUERY ==>
          g.vertices[i].Type() in g.cache && g.cache[g.vertices[i].Type()] == i)
    && EdgesUnique(g.edges)
  }

  /** The three marker vertices are present. */
  predicate Initialized(g: Graph) {
    START in g.cache && COMMIT in g.cache && ABORT in g.cache
  }

  /** No two query vertices carry the same (statement, partitions, index) key. */
  predicate DistinctQueries(vs: seq<Vertex>) {
    forall i, j :: 0 <= i < j < |vs| && vs[i].Query? ==> vs[i] != vs[j]
  }

  // ---------------------------------------------------------------------
  // Lookups
  // ---------------------------------------------------------------------

  /** The first vertex carrying the label key, if any. */
  function FindVertex(vs: seq<Vertex>, key: Vertex): (r: Option<Vid>)
    ensures r.Some? ==> r.value < |vs| && vs[r.value] == key
  {
    if vs == [] then None
    else if vs[0] == key then Some(0)
    else match FindVertex(vs[1..], key)
      case None => None
      case Some(i) => Some(i + 1)
  }

  /** The edge from s to d, if any (the container's findEdge). */
  function FindEdge(es: seq<Edge>, s: Vid, d: Vid): (r: Option<nat>)
    ensures r.Some? ==> r.value < |es| && es[r.value].src == s && es[r.value].dst == d
  {
    if es == [] then None
    else if es[0].src == s && es[0].dst == d then Some(0)
    else match FindEdge(es[1..], s, d)
      case None => None
      case Some(k) => Some(k + 1)
  }

  /** How many edges run from s to d. */
  function EdgeMultiplicity(es: seq<Edge>, s: Vid, d: Vid): nat {
    if es == [] then 0
    else EdgeMultiplicity(es[..|es| - 1], s, d)
         + (if es[|es| - 1].src == s && es[|es| - 1].dst == d then 1 else 0)
  }

  /** The counters of the edge from s to d; zero counters when there is none. */
  function HitsOf(es: seq<Edge>, s: Vid, d: Vid): Hits {
    match FindEdge(es, s, d)
    case Some(k) => es[k].hits
    case None => Hits(0, 0)
  }

  // ---------------------------------------------------------------------
  // Growing the graph
  // ---------------------------------------------------------------------

  /**
   * Adds vertex v under the fresh handle |g.vertices|, with zero counters;
   * a marker vertex is entered in the cache. Adding a second marker of a
   * kind is refused by the precondition (an assertion in the source).
   */
  function AddVertex(g: Graph, v: Vertex): (r: Graph)
    requires WellFormed(g)
    requires v.Type() != QUERY ==> v.Type() !in g.cache
    ensures WellFormed(r)
    ensures |r.vertices| == |g.vertices| + 1 && r.vertices[|g.vertices|] == v
  {
    Graph(g.vertices + [v], g.vertexHits + [Hits(0, 0)], g.edges,
          if v.Type() == QUERY then g.cache else g.cache[v.Type() := |g.vertices|])
  }

  /** Adds a marker vertex for each marker kind of ts, in order. */
  function AddMarkers(g: Graph, ts: seq<VertexType>): (r: Graph)
    requires WellFormed(g)
    requires forall t :: t in ts && t != QUERY ==> t !in g.cache
    requires forall i, j :: 0 <= i < j < |ts| ==> ts[i] != ts[j]
    ensures WellFormed(r)
    ensures r.cache.Keys == g.cache.Keys + (set t | t in ts && t != QUERY)
    decreases |ts|
  {
    if ts == [] then g
    else
      var init := ts[..|ts| - 1];
      var t := ts[|ts| - 1];
      assert ts == init + [t];
      assert t !in init;
      var g' := AddMarkers(g, init);
      assert (set u | u in ts && u != QUERY) == (set u | u in init && u != QUERY) + (if t == QUERY then {} else {t});
      if t == QUERY then g' else AddVertex(g', Marker(t))
  }

  /** The effect of initialize: one marker vertex per marker kind. */
  function Initialize(g: Graph): (r: Graph)
    requires WellFormed(g)
    requires START !in g.cache && COMMIT !in g.cache && ABORT !in g.cache
    ensures WellFormed(r) && Initialized(r)
    ensures r.cache.Keys == g.cache.Keys + {START, COMMIT, ABORT}
  {
    assert AllTypes[0] == START && AllTypes[1] == COMMIT && AllTypes[2] == ABORT;
    assert (set t | t in AllTypes && t != QUERY) == {START, COMMIT, ABORT};
    AddMarkers(g, AllTypes)
  }

  function Bump(h: Hits): Hits {
    h.(instance := h.instance + 1)
  }

  /**
   * The effect of addToEdge(s, d): creates the edge s -> d when there is
   * none, then adds one instance hit to s and one to that edge.
   */
  function AddToEdge(g: Graph, s: Vid, d: Vid): (r: Graph)
    requires WellFormed(g) && s < |g.vertices| && d < |g.vertices|
    ensures WellFormed(r) && r.vertices == g.vertices && r.cache == g.cache
  {
    var found := FindEdge(g.edges, s, d);
    var es := if found.Some? then g.edges else g.edges + [Edge(s, d, Hits(0, 0))];
    var k := if found.Some? then found.value else |g.edges|;
    g.(vertexHits := g.vertexHits[s := Bump(g.vertexHits[s])],
       edges := es[k := es[k].(hits := Bump(es[k].hits))])
  }

  // ---------------------------------------------------------------------
  // Turning a transaction trace into a walk
  // ---------------------------------------------------------------------

  /**
   * The local state of processTransaction part-way through the queries:
   * the graph, the previous vertex, the per-statement instance counters
   * and the path so far.
   */
  datatype WalkState = WalkState(g: Graph, previous: Vid, counters: map<StmtId, nat>, path: seq<Vid>)

  predicate WalkOk(w: WalkState) {
    && WellFormed(w.g) && Initialized(w.g)
    && w.previous < |w.g.vertices|
    && |w.path| > 0 && w.path[|w.path| - 1] == w.previous
    && (forall i :: 0 <= i < |w.path| ==> w.path[i] < |w.g.vertices|)
  }

  /** Every query's statement belongs to the trace's procedure. */
  predicate StatementsKnown(trace: TransactionTrace) {
    forall i :: 0 <= i < |trace.queries| ==> trace.queries[i].stmt in trace.statements
  }

  /** What processTransaction demands of a trace. */
  predicate TraceOk(trace: TransactionTrace) {
    && StatementsKnown(trace)
    && forall i :: 0 <= i < |trace.queries| ==> trace.queries[i].partitions != {}
  }

  /**
   * One iteration of the query loop: takes the next instance index of the
   * statement, finds or creates the query vertex with that key, adds the
   * edge from the previous vertex, and for an aborted query the edge to
   * ABORT; the vertex becomes the previous one and joins the path.
   */
  function Step(w: WalkState, q: QueryTrace): (r: WalkState)
    requires WalkOk(w) && q.stmt in w.counters
    ensures WalkOk(r)
    ensures r.counters.Keys == w.counters.Keys && r.g.cache == w.g.cache
    ensures w.g.vertices <= r.g.vertices && |r.path| == |w.path| + 1
  {
    var index := w.counters[q.stmt];
    var key := Query(q.stmt, q.partitions, index);
    var found := FindVertex(w.g.vertices, key);
    var g1 := if found.Some? then w.g else AddVertex(w.g, key);
    var v := if found.Some? then found.value else |w.g.vertices|;
    var g2 := AddToEdge(g1, w.previous, v);
    var g3 := if q.aborted then AddToEdge(g2, v, g2.cache[ABORT]) else g2;
    WalkState(g3, v, w.counters[q.stmt := index + 1], w.path + [v])
  }

  /** The query loop run over qs, from state w0. */
  function Walk(w0: WalkState, qs: seq<QueryTrace>): (r: WalkState)
    requires WalkOk(w0)
    requires forall i :: 0 <= i < |qs| ==> qs[i].stmt in w0.counters
    ensures WalkOk(r)
    ensures r.counters.Keys == w0.counters.Keys && r.g.cache == w0.g.cache
    ensures w0.g.vertices <= r.g.vertices && |r.path| == |w0.path| + |qs|
    decreases |qs|
  {
    if qs == [] then w0
    else Step(Walk(w0, qs[..|qs| - 1]), qs[|qs| - 1])
  }

  /** The state before the query loop: the walk stands at START. */
  function InitialWalk(g: Graph, statements: seq<StmtId>): (w: WalkState)
    requires WellFormed(g) && Initialized(g)
    ensures WalkOk(w)
  {
    WalkState(g, g.cache[START], map s | s in statements :: 0, [g.cache[START]])
  }

  /**
   * The effect and result of processTransaction: the walk over the queries,
   * then (unless the previous vertex is ABORT) the edge to COMMIT, which
   * also ends the path.
   */
  function ProcessTransaction(g: Graph, trace: TransactionTrace): (res: (Graph, seq<Vid>))
    requires WellFormed(g) && Initialized(g) && StatementsKnown(trace)
    ensures WellFormed(res.0) && res.0.cache == g.cache
  {
    var w := Walk(InitialWalk(g, trace.statements), trace.queries);
    if w.previous != w.g.cache[ABORT] then
      (AddToEdge(w.g, w.previous, w.g.cache[COMMIT]), w.path + [w.g.cache[COMMIT]])
    else
      (w.g, w.path)
  }

  // ---------------------------------------------------------------------
  // Counter maintenance
  // ---------------------------------------------------------------------

  function ZeroInstance(h: Hits): Hits {
    h.(instance := 0)
  }

  function FoldInstance(h: Hits): Hits {
    h.(total := h.total + h.instance)
  }

  /** The effect of resetCounters: every instance counter is zero; totals and structure are kept. */
  function ResetCounters(g: Graph): (r: Graph)
    ensures r.vertices == g.vertices && r.cache == g.cache
    ensures |r.vertexHits| == |g.vertexHits| && |r.edges| == |g.edges|
    ensures forall i :: 0 <= i < |r.vertexHits| ==>
      r.vertexHits[i].instance == 0 && r.vertexHits[i].total == g.vertexHits[i].total
    ensures forall k :: 0 <= k < |r.edges| ==>
      && r.edges[k].src == g.edges[k].src && r.edges[k].dst == g.edges[k].dst
      && r.edges[k].hits.instance == 0 && r.edges[k].hits.total == g.edges[k].hits.total
  {
    g.(vertexHits := seq(|g.vertexHits|, i requires 0 <= i < |g.vertexHits| => ZeroInstance(g.vertexHits[i])),
       edges := seq(|g.edges|, k requires 0 <= k < |g.edges| => g.edges[k].(hits := ZeroInstance(g.edges[k].hits))))
  }

  /** The counter folding of recomputeGraph: totals never fall, and structure is kept. */
  function RecomputeGraph(g: Graph): (r: Graph)
    ensures r.vertices == g.vertices && r.cache == g.cache
    ensures |r.vertexHits| == |g.vertexHits| && |r.edges| == |g.edges|
    ensures forall i :: 0 <= i < |r.vertexHits| ==> r.vertexHits[i].total >= g.vertexHits[i].total
    ensures forall k :: 0 <= k < |r.edges| ==>
      && r.edges[k].src == g.edges[k].src && r.edges[k].dst == g.edges[k].dst
      && r.edges[k].hits.total >= g.edges[k].hits.total
  {
    g.(vertexHits := seq(|g.vertexHits|, i requires 0 <= i < |g.vertexHits| => FoldInstance(g.vertexHits[i])),
       edges := seq(|g.edges|, k requires 0 <= k < |g.edges| => g.edges[k].(hits := FoldInstance(g.edges[k].hits))))
  }

  /** The sum of counter c over the edges leaving v. */
  function OutSum(es: seq<Edge>, v: Vid, c: Counter): nat {
    if es == [] then 0
    else OutSum(es[..|es| - 1], v, c) + (if es[|es| - 1].src == v then Count(es[|es| - 1].hits, c) else 0)
  }

  /** Every vertex's counter c equals the sum of its outgoing edges' counters c. */
  predicate Conserved(g: Graph, c: Counter)
    requires |g.vertexHits| == |g.vertices|
  {
    forall v: Vid :: v < |g.vertices| ==> Count(g.vertexHits[v], c) == OutSum(g.edges, v, c)
  }

  /**
   * The probability of an edge, as the hits of the edge over the total
   * hits of its source (0 for a source never visited).
   */
  function EdgeProbability(g: Graph, k: nat): (p: real)
    requires Valid(g) && k < |g.edges|
    ensures 0.0 <= p
  {
    var t := g.vertexHits[g.edges[k].src].total;
    if t == 0 then 0.0 else g.edges[k].hits.total as real / t as real
  }

  /** The sum of the probabilities of the edges among the first n that leave v. */
  function OutProbability(g: Graph, v: Vid, n: nat): (p: real)
    requires Valid(g) && n <= |g.edges|
    ensures 0.0 <= p
  {
    if n == 0 then 0.0
    else OutProbability(g, v, n - 1) + (if g.edges[n - 1].src == v then EdgeProbability(g, n - 1) else 0.0)
  }

  // ---------------------------------------------------------------------
  // Recompute trigger
  // ---------------------------------------------------------------------

  /** How many of the vertices 0 .. n-1 vote yes. */
  function CountVotes(votes: Vid -> bool, n: nat): (c: nat)
    ensures c <= n
  {
    if n == 0 then 0 else CountVotes(votes, n - 1) + (if votes(n - 1) then 1 else 0)
  }

  /**
   * The answer of shouldRecompute over n vertices: the proportion of yes
   * votes is at least one half. Over no vertices the source compares a NaN
   * proportion, which is false.
   */
  predicate ShouldRecompute(votes: Vid -> bool, n: nat)
    ensures ShouldRecompute(votes, n) ==> CountVotes(votes, n) > 0
  {
    n > 0 && CountVotes(votes, n) as real / n as real >= 0.5
  }
}
