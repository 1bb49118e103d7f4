/**
 * The MarkovGraph object: a graph whose vertex list, counters, edge list
 * and marker cache its methods update in place. Each method is proved to
 * leave the object in the state the matching function of MarkovSpec
 * computes from the old state, and to keep the object invariant Valid().
 */
module Markov {
  import opened MarkovTypes
  import S = MarkovSpec
  import P = MarkovProofs

  class MarkovGraph {
    /** The partition whose transactions this graph summarises. */
    const basePartition: PartitionId
    /** The number of transactions used to build the graph. */
    var xactCount: int

    var vertices: seq<Vertex>
    var vertexHits: seq<Hits>
    var edges: seq<Edge>
    /** The START, COMMIT and ABORT vertices, by kind. */
    var cache: map<VertexType, Vid>

    /** The object's fields as a value of the specification. */
    function State(): S.Graph
      reads this
    {
      S.Graph(vertices, vertexHits, edges, cache)
    }

    /**
     * The object invariant: a well-formed graph with at most one edge per
     * ordered pair, no two query vertices with the same key, and every
     * vertex's counters equal to the sums over its outgoing edges.
     */
    ghost predicate Valid()
      reads this
    {
      && S.Valid(State()) && S.DistinctQueries(vertices)
      && S.Conserved(State(), Instance) && S.Conserved(State(), Total)
    }

    /**
     * A new graph has no vertices; initialize adds the markers. The
     * two-argument constructor of the source is this one with xactCount 0.
     */
    constructor (basePartition: PartitionId, xactCount: int)
      ensures Valid() && State() == S.Empty
      ensures this.basePartition == basePartition && this.xactCount == xactCount
    {
      this.basePartition := basePartition;
      this.xactCount := xactCount;
      vertices := [];
      vertexHits := [];
      edges := [];
      cache := map[];
    }

    /**
     * addVertex: adds v with zero counters under the next handle; a marker
     * is entered in the cache, and a second marker of the same kind is
     * refused. A query vertex the graph already holds is never added.
     */
    method AddVertex(v: Vertex) returns (id: Vid)
      modifies this`vertices, this`vertexHits, this`cache
      requires Valid()
      requires v.Type() != QUERY ==> v.Type() !in cache
      requires v.Query? ==> v !in vertices
      ensures Valid()
      ensures id == old(|vertices|) && |vertices| == id + 1 && vertices[id] == v
      ensures State() == S.AddVertex(old(State()), v)
    {
      ghost var g := State();
      P.AddVertexEffect(g, v);
      P.AddVertexConserves(g, v, Instance);
      P.AddVertexConserves(g, v, Total);
      P.AddVertexKeepsDistinct(vertices, v);
      id := |vertices|;
      vertices := vertices + [v];
      vertexHits := vertexHits + [Hits(0, 0)];
      if v.Type() != QUERY {
        cache := cache[v.Type() := id];
      }
    }

    /** initialize: adds one START, one COMMIT and one ABORT vertex, in that order. */
    method Initialize()
      modifies this`vertices, this`vertexHits, this`cache
      requires Valid()
      requires START !in cache && COMMIT !in cache && ABORT !in cache
      ensures Valid() && S.Initialized(State())
      ensures State() == S.Initialize(old(State()))
    {
      ghost var g := State();
      var i := 0;
      while i < |AllTypes|
        invariant 0 <= i <= |AllTypes|
        invariant Valid()
        invariant State() == S.AddMarkers(g, AllTypes[..i])
      {
        AddMarkerOfKind(g, i);
        i := i + 1;
      }
      assert AllTypes[..i] == AllTypes;
      P.InitializeEffect(g);
    }

    /**
     * One iteration of the loop of initialize: the kind AllTypes[i] gets its
     * marker vertex, unless it is QUERY.
     */
    method AddMarkerOfKind(ghost g: S.Graph, i: nat)
      modifies this`vertices, this`vertexHits, this`cache
      requires S.WellFormed(g) && START !in g.cache && COMMIT !in g.cache && ABORT !in g.cache
      requires i < |AllTypes| && Valid()
      // KindsPrefix is called inside these clauses so that the preconditions
      // of AddMarkers on the prefixes are checked from its lemma, cheaply.
      requires (P.KindsPrefix(i); State() == S.AddMarkers(g, AllTypes[..i]))
      ensures Valid()
      ensures (P.KindsPrefix(i + 1); State() == S.AddMarkers(g, AllTypes[..i + 1]))
    {
      var t := AllTypes[i];
      P.MarkersSnoc(g, i);
      if t != QUERY {
        var _ := AddVertex(Marker(t));
      }
    }

    /**
     * getVertex(statement, partitions, index): the first vertex whose key is
     * that triple, or None when there is none.
     */
    method GetVertex(stmt: StmtId, partitions: set<PartitionId>, index: nat) returns (r: Option<Vid>)
      ensures r == S.FindVertex(vertices, Query(stmt, partitions, index))
      ensures r.Some? ==> r.value < |vertices| && vertices[r.value] == Query(stmt, partitions, index)
      ensures r.None? <==> Query(stmt, partitions, index) !in vertices
    {
      var key := Query(stmt, partitions, index);
      P.FindVertexSpec(vertices, key);
      var i := 0;
      while i < |vertices|
        invariant 0 <= i <= |vertices|
        invariant forall j :: 0 <= j < i ==> vertices[j] != key
      {
        if vertices[i] == key {
          return Some(i);
        }
        i := i + 1;
      }
      return None;
    }

    /** getVertex(type): the cached marker vertex of that kind. */
    function GetVertexOfType(t: VertexType): (v: Vid)
      reads this
      requires Valid() && t in cache
      ensures v < |vertices| && vertices[v] == Marker(t)
    {
      cache[t]
    }

    /**
     * addToEdge(s, d): creates the edge s -> d when there is none, then
     * adds an instance hit to s and to that edge.
     */
    method AddToEdge(s: Vid, d: Vid)
      modifies this`vertexHits, this`edges
      requires Valid() && s < |vertices| && d < |vertices|
      ensures Valid()
      ensures State() == S.AddToEdge(old(State()), s, d)
    {
      ghost var g := State();
      P.AddToEdgeValid(g, s, d);
      P.AddToEdgeConserves(g, s, d, Instance);
      P.AddToEdgeConserves(g, s, d, Total);
      var found := S.FindEdge(edges, s, d);
      var k;
      if found.None? {
        k := |edges|;
        edges := edges + [Edge(s, d, Hits(0, 0))];
      } else {
        k := found.value;
      }
      vertexHits := vertexHits[s := S.Bump(vertexHits[s])];
      edges := edges[k := edges[k].(hits := S.Bump(edges[k].hits))];
    }

    /**
     * processTransaction: walks the trace's queries from START, creating
     * query vertices as needed and adding one hit per traversed edge, and
     * ends the path at COMMIT unless it stands at ABORT. Returns the path.
     */
    method ProcessTransaction(trace: TransactionTrace) returns (path: seq<Vid>)
      modifies this`vertices, this`vertexHits, this`edges, this`cache
      requires Valid() && S.Initialized(State()) && S.TraceOk(trace)
      ensures Valid() && cache == old(cache)
      ensures (State(), path) == S.ProcessTransaction(old(State()), trace)
    {
      ghost var w0 := S.InitialWalk(State(), trace.statements);
      var previous := GetVertexOfType(START);
      path := [previous];

      var counters: map<StmtId, nat> := map[];
      var k := 0;
      while k < |trace.statements|
        invariant 0 <= k <= |trace.statements|
        invariant counters == map s | s in trace.statements[..k] :: 0
      {
        assert trace.statements[..k + 1] == trace.statements[..k] + [trace.statements[k]];
        counters := counters[trace.statements[k] := 0];
        k := k + 1;
      }
      assert trace.statements[..k] == trace.statements;

      var qs := trace.queries;
      var i := 0;
      while i < |qs|
        invariant 0 <= i <= |qs|
        invariant Valid() && cache == old(cache)
        invariant S.WalkState(State(), previous, counters, path) == S.Walk(w0, qs[..i])
      {
        P.WalkSnoc(w0, qs, i);
        previous, counters, path := TallyQuery(qs[i], previous, counters, path);
        i := i + 1;
      }
      assert qs[..i] == qs;

      if previous != GetVertexOfType(ABORT) {
        var commit := GetVertexOfType(COMMIT);
        AddToEdge(previous, commit);
        path := path + [commit];
      }
    }

    /**
     * One iteration of the query loop of processTransaction: the next
     * instance index of the query's statement, the vertex with that key
     * (created when missing), the edge from the previous vertex, and for an
     * aborted query the edge to ABORT.
     */
    method TallyQuery(q: QueryTrace, previous: Vid, counters: map<StmtId, nat>, path: seq<Vid>)
      returns (previous': Vid, counters': map<StmtId, nat>, path': seq<Vid>)
      modifies this`vertices, this`vertexHits, this`edges, this`cache
      requires Valid() && S.WalkOk(S.WalkState(State(), previous, counters, path)) && q.stmt in counters
      ensures Valid() && cache == old(cache)
      ensures S.WalkState(State(), previous', counters', path')
           == S.Step(S.WalkState(old(State()), previous, counters, path), q)
    {
      var index := counters[q.stmt];
      counters' := counters[q.stmt := index + 1];
      previous' := VertexFor(q.stmt, q.partitions, index);
      AddToEdge(previous, previous');
      if q.aborted {
        AddToEdge(previous', GetVertexOfType(ABORT));
      }
      path' := path + [previous'];
    }

    /**
     * The vertex with the key (statement, partitions, index) in the query
     * loop of processTransaction: the one found by getVertex, or a new one.
     */
    method VertexFor(stmt: StmtId, partitions: set<PartitionId>, index: nat) returns (v: Vid)
      modifies this`vertices, this`vertexHits, this`cache
      requires Valid()
      ensures Valid()
      ensures var key := Query(stmt, partitions, index);
        var found := S.FindVertex(old(vertices), key);
        && State() == (if found.Some? then old(State()) else S.AddVertex(old(State()), key))
        && v == (if found.Some? then found.value else old(|vertices|))
    {
      var found := GetVertex(stmt, partitions, index);
      if found.None? {
        v := AddVertex(Query(stmt, partitions, index));
      } else {
        v := found.value;
      }
    }

    /** resetCounters: every instance counter becomes zero; totals are kept. */
    method ResetCounters()
      modifies this`vertexHits, this`edges
      requires Valid()
      ensures Valid()
      ensures State() == S.ResetCounters(old(State()))
    {
      ghost var g := State();
      P.ResetEffect(g);
      P.ResetConserves(g);
      var i := 0;
      while i < |vertexHits|
        invariant 0 <= i <= |vertexHits| == |g.vertexHits|
        invariant forall j :: 0 <= j < i ==> vertexHits[j] == S.ZeroInstance(g.vertexHits[j])
        invariant forall j :: i <= j < |vertexHits| ==> vertexHits[j] == g.vertexHits[j]
        invariant edges == g.edges
      {
        vertexHits := vertexHits[i := S.ZeroInstance(vertexHits[i])];
        i := i + 1;
      }
      var k := 0;
      while k < |edges|
        invariant 0 <= k <= |edges| == |g.edges|
        invariant forall j :: 0 <= j < k ==> edges[j] == g.edges[j].(hits := S.ZeroInstance(g.edges[j].hits))
        invariant forall j :: k <= j < |edges| ==> edges[j] == g.edges[j]
        invariant vertexHits == S.ResetCounters(g).vertexHits
      {
        edges := edges[k := edges[k].(hits := S.ZeroInstance(edges[k].hits))];
        k := k + 1;
      }
      assert edges == S.ResetCounters(g).edges;
    }

    /** The counter folding of recomputeGraph: every total grows by its instance count. */
    method RecomputeGraph()
      modifies this`vertexHits, this`edges
      requires Valid()
      ensures Valid()
      ensures State() == S.RecomputeGraph(old(State()))
    {
      ghost var g := State();
      P.RecomputeEffect(g);
      P.RecomputeConserves(g);
      var i := 0;
      while i < |vertexHits|
        invariant 0 <= i <= |vertexHits| == |g.vertexHits|
        invariant forall j :: 0 <= j < i ==> vertexHits[j] == S.FoldInstance(g.vertexHits[j])
        invariant forall j :: i <= j < |vertexHits| ==> vertexHits[j] == g.vertexHits[j]
        invariant edges == g.edges
      {
        vertexHits := vertexHits[i := S.FoldInstance(vertexHits[i])];
        i := i + 1;
      }
      var k := 0;
      while k < |edges|
        invariant 0 <= k <= |edges| == |g.edges|
        invariant forall j :: 0 <= j < k ==> edges[j] == g.edges[j].(hits := S.FoldInstance(g.edges[j].hits))
        invariant forall j :: k <= j < |edges| ==> edges[j] == g.edges[j]
        invariant vertexHits == S.RecomputeGraph(g).vertexHits
      {
        edges := edges[k := edges[k].(hits := S.FoldInstance(edges[k].hits))];
        k := k + 1;
      }
      assert edges == S.RecomputeGraph(g).edges;
    }

    /**
     * shouldRecompute: counts the vertices that vote yes and answers whether
     * they are at least half of all vertices.
     */
    method ShouldRecompute(votes: Vid -> bool) returns (r: bool)
      ensures r == S.ShouldRecompute(votes, |vertices|)
      ensures r <==> |vertices| > 0 && 2 * |P.YesVotes(votes, |vertices|)| >= |vertices|
    {
      var count := 0;
      var i := 0;
      while i < |vertices|
        invariant 0 <= i <= |vertices|
        invariant count == S.CountVotes(votes, i)
      {
        if votes(i) {
          count := count + 1;
        }
        i := i + 1;
      }
      P.ShouldRecomputeIffHalf(votes, |vertices|);
      P.CountVotesIsCardinality(votes, |vertices|);
      // Over no vertices the proportion is NaN and the comparison fails.
      r := |vertices| > 0 && count as real / |vertices| as real >= 0.5;
    }

    /**
     * The structural part of isSane: no vertex has two outgoing edges to
     * the same vertex. Every Valid graph passes.
     */
    method IsSane() returns (ok: bool)
      requires S.EdgesInRange(edges, |vertices|)
      ensures ok <==> S.EdgesUnique(edges)
      ensures Valid() ==> ok
    {
      var v := 0;
      while v < |vertices|
        invariant 0 <= v <= |vertices|
        invariant UniqueBelow(edges, v)
      {
        var seen: set<Vid> := {};
        var k := 0;
        while k < |edges|
          invariant 0 <= k <= |edges|
          invariant seen == set j | 0 <= j < k && edges[j].src == v :: edges[j].dst
          invariant UniqueFrom(edges, v, k)
        {
          var e := edges[k];
          if e.src == v {
            if e.dst in seen {
              var j :| 0 <= j < k && edges[j].src == v && edges[j].dst == e.dst;
              assert edges[j].src == edges[k].src && edges[j].dst == edges[k].dst;
              return false;
            }
            seen := seen + {e.dst};
          }
          k := k + 1;
        }
        v := v + 1;
      }
      return true;
    }
  }

  /** No two edges out of a vertex below v share their destination. */
  ghost predicate UniqueBelow(es: seq<Edge>, v: Vid) {
    forall i, j :: 0 <= i < j < |es| && es[i].src < v ==> es[i].src != es[j].src || es[i].dst != es[j].dst
  }

  /** Among the first k edges, no two out of v share their destination. */
  ghost predicate UniqueFrom(es: seq<Edge>, v: Vid, k: nat) {
    forall i, j :: 0 <= i < j < k && j < |es| && es[i].src == v ==> es[i].src != es[j].src || es[i].dst != es[j].dst
  }
}
