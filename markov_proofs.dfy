/**
 * What the graph operations of MarkovSpec promise: the effect of
 * addToEdge, the shape of the walk processTransaction builds, the edge
 * counts it leaves, counter conservation, the recompute cycle and the
 * recompute trigger.
 */
module MarkovProofs {
  import opened MarkovTypes
  import opened MarkovSpec

  // ---------------------------------------------------------------------
  // Sequences
  // ---------------------------------------------------------------------

  lemma SliceSnocInit<T>(a: seq<T>, x: T, m: nat)
    requires m <= |a|
    ensures (a + [x])[m..][..|a| - m] == a[m..] && (a + [x])[m..][|a| - m] == x
  {
  }

  // ---------------------------------------------------------------------
  // Edge lookup
  // ---------------------------------------------------------------------

  /** The vertex lookup finds the first vertex with the key, and fails only when there is none. */
  lemma {:induction false} FindVertexSpec(vs: seq<Vertex>, key: Vertex)
    ensures var r := FindVertex(vs, key);
      && (r.Some? ==> forall j :: 0 <= j < r.value ==> vs[j] != key)
      && (r.None? <==> key !in vs)
  {
    if vs != [] && vs[0] != key {
      FindVertexSpec(vs[1..], key);
      assert vs == [vs[0]] + vs[1..];
    }
  }

  /** The edge lookup fails only when no edge joins the pair. */
  lemma {:induction false} FindEdgeSpec(es: seq<Edge>, s: Vid, d: Vid)
    ensures FindEdge(es, s, d).None? <==> forall k :: 0 <= k < |es| ==> es[k].src != s || es[k].dst != d
  {
    if es != [] && (es[0].src != s || es[0].dst != d) {
      FindEdgeSpec(es[1..], s, d);
      assert forall k :: 1 <= k < |es| ==> es[k] == es[1..][k - 1];
    }
  }

  /** With unique edges, the lookup finds the one edge of the pair. */
  lemma {:induction false} FindEdgeAt(es: seq<Edge>, s: Vid, d: Vid, k: nat)
    requires EdgesUnique(es) && k < |es| && es[k].src == s && es[k].dst == d
    ensures FindEdge(es, s, d) == Some(k)
  {
    if k > 0 {
      assert es[0].src != s || es[0].dst != d;
      var tail := es[1..];
      assert forall j :: 0 <= j < |tail| ==> tail[j] == es[j + 1];
      FindEdgeAt(tail, s, d, k - 1);
    }
  }

  lemma {:induction false} MultiplicityNone(es: seq<Edge>, s: Vid, d: Vid)
    requires forall k :: 0 <= k < |es| ==> es[k].src != s || es[k].dst != d
    ensures EdgeMultiplicity(es, s, d) == 0
  {
    if es != [] {
      MultiplicityNone(es[..|es| - 1], s, d);
    }
  }

  /** An edge from s to d found by the lookup is the only one. */
  lemma {:induction false} MultiplicityOne(es: seq<Edge>, s: Vid, d: Vid)
    requires EdgesUnique(es) && FindEdge(es, s, d).Some?
    ensures EdgeMultiplicity(es, s, d) == 1
  {
    var n := |es| - 1;
    var init := es[..n];
    assert forall j :: 0 <= j < n ==> init[j] == es[j];
    if es[n].src == s && es[n].dst == d {
      MultiplicityNone(init, s, d);
    } else {
      var k := FindEdge(es, s, d).value;
      FindEdgeAt(init, s, d, k);
      MultiplicityOne(init, s, d);
    }
  }

  // ---------------------------------------------------------------------
  // addVertex and initialize
  // ---------------------------------------------------------------------

  /**
   * addVertex keeps the graph valid, appends v under a fresh handle with
   * zero counters, and changes no edge; the cache gains v's kind for a
   * marker and is unchanged for a query vertex.
   */
  lemma AddVertexEffect(g: Graph, v: Vertex)
    requires Valid(g) && (v.Type() != QUERY ==> v.Type() !in g.cache)
    ensures var r := AddVertex(g, v);
      && Valid(r) && r.vertices == g.vertices + [v] && r.vertexHits == g.vertexHits + [Hits(0, 0)]
      && r.edges == g.edges
      && (v.Type() == QUERY ==> r.cache == g.cache)
      && (v.Type() != QUERY ==> r.cache == g.cache[v.Type() := |g.vertices|])
  {
  }

  /** Adding markers keeps the graph valid. */
  lemma {:induction false} AddMarkersValid(g: Graph, ts: seq<VertexType>)
    requires Valid(g)
    requires forall t :: t in ts && t != QUERY ==> t !in g.cache
    requires forall i, j :: 0 <= i < j < |ts| ==> ts[i] != ts[j]
    ensures Valid(AddMarkers(g, ts))
    decreases |ts|
  {
    if ts != [] {
      var init := ts[..|ts| - 1];
      var t := ts[|ts| - 1];
      assert ts == init + [t];
      assert t !in init;
      AddMarkersValid(g, init);
      if t != QUERY {
        AddVertexEffect(AddMarkers(g, init), Marker(t));
      }
    }
  }

  /** A prefix of the vertex kinds lists each kind at most once. */
  lemma KindsPrefix(i: nat)
    requires i <= |AllTypes|
    ensures forall a, b :: 0 <= a < b < |AllTypes[..i]| ==> AllTypes[..i][a] != AllTypes[..i][b]
  {
  }

  /** One more iteration of the loop of initialize adds the marker of the next kind, if it is one. */
  lemma MarkersSnoc(g: Graph, i: nat)
    requires WellFormed(g) && START !in g.cache && COMMIT !in g.cache && ABORT !in g.cache
    requires i < |AllTypes|
    // KindsPrefix is called inside the ensures so that the preconditions of
    // AddMarkers on the prefixes are checked from its lemma, cheaply.
    ensures (KindsPrefix(i); KindsPrefix(i + 1);
      var before := AddMarkers(g, AllTypes[..i]);
      var t := AllTypes[i];
      && (t != QUERY ==> t !in before.cache)
      && AddMarkers(g, AllTypes[..i + 1]) == if t == QUERY then before else AddVertex(before, Marker(t)))
  {
    assert AllTypes[..i + 1][..i] == AllTypes[..i];
  }

  /** initialize adds the START, COMMIT and ABORT markers, in that order. */
  lemma InitializeUnfold(g: Graph)
    requires WellFormed(g) && START !in g.cache && COMMIT !in g.cache && ABORT !in g.cache
    ensures Initialize(g)
         == AddVertex(AddVertex(AddVertex(g, Marker(START)), Marker(COMMIT)), Marker(ABORT))
  {
    assert AllTypes[..3] == [START, COMMIT, ABORT];
    assert [START, COMMIT, ABORT][..2] == [START, COMMIT];
    assert [START, COMMIT][..1] == [START];
    assert [START][..0] == [];
  }

  /**
   * initialize on a graph without markers adds exactly the START, COMMIT
   * and ABORT vertices, in that order, with zero counters and no edge.
   */
  lemma InitializeEffect(g: Graph)
    requires Valid(g) && START !in g.cache && COMMIT !in g.cache && ABORT !in g.cache
    ensures var r := Initialize(g);
      var n := |g.vertices|;
      && Valid(r) && Initialized(r)
      && r.vertices == g.vertices + [Marker(START)] + [Marker(COMMIT)] + [Marker(ABORT)]
      && r.vertexHits == g.vertexHits + [Hits(0, 0)] + [Hits(0, 0)] + [Hits(0, 0)]
      && r.edges == g.edges
      && r.cache == g.cache[START := n][COMMIT := n + 1][ABORT := n + 2]
  {
    InitializeUnfold(g);
    var g1 := AddVertex(g, Marker(START));
    AddVertexEffect(g, Marker(START));
    var g2 := AddVertex(g1, Marker(COMMIT));
    AddVertexEffect(g1, Marker(COMMIT));
    AddVertexEffect(g2, Marker(ABORT));
  }

  // ---------------------------------------------------------------------
  // addToEdge
  // ---------------------------------------------------------------------

  /** addToEdge keeps the graph valid: it never adds a second edge for a pair. */
  lemma AddToEdgeValid(g: Graph, s: Vid, d: Vid)
    requires Valid(g) && s < |g.vertices| && d < |g.vertices|
    ensures Valid(AddToEdge(g, s, d))
  {
    FindEdgeSpec(g.edges, s, d);
  }

  /**
   * addToEdge(s, d) adds one instance hit to the edge s -> d (counting a
   * missing edge as zero hits) and changes the counters of no other pair.
   */
  lemma AddToEdgeHits(g: Graph, s: Vid, d: Vid, a: Vid, b: Vid)
    requires Valid(g) && s < |g.vertices| && d < |g.vertices|
    ensures HitsOf(AddToEdge(g, s, d).edges, a, b)
         == if a == s && b == d then Bump(HitsOf(g.edges, a, b)) else HitsOf(g.edges, a, b)
  {
    var r := AddToEdge(g, s, d);
    AddToEdgeValid(g, s, d);
    var found := FindEdge(g.edges, s, d);
    var k := if found.Some? then found.value else |g.edges|;
    FindEdgeSpec(g.edges, s, d);
    FindEdgeAt(r.edges, s, d, k);
    if a != s || b != d {
      match FindEdge(g.edges, a, b)
      case Some(j) =>
        assert r.edges[j] == g.edges[j];
        FindEdgeAt(r.edges, a, b, j);
      case None =>
        FindEdgeSpec(g.edges, a, b);
        FindEdgeSpec(r.edges, a, b);
    }
  }

  /** After addToEdge(s, d) exactly one edge runs from s to d. */
  lemma AddToEdgeMultiplicity(g: Graph, s: Vid, d: Vid)
    requires Valid(g) && s < |g.vertices| && d < |g.vertices|
    ensures EdgeMultiplicity(AddToEdge(g, s, d).edges, s, d) == 1
  {
    var r := AddToEdge(g, s, d);
    AddToEdgeValid(g, s, d);
    var found := FindEdge(g.edges, s, d);
    var k := if found.Some? then found.value else |g.edges|;
    FindEdgeAt(r.edges, s, d, k);
    MultiplicityOne(r.edges, s, d);
  }

  /**
   * addToEdge(s, d) adds one instance hit to s and none to another vertex,
   * creates the edge s -> d only when there is none, and moves no vertex,
   * no marker and no existing edge.
   */
  lemma AddToEdgeEffect(g: Graph, s: Vid, d: Vid)
    requires Valid(g) && s < |g.vertices| && d < |g.vertices|
    ensures var r := AddToEdge(g, s, d);
      && r.vertices == g.vertices && r.cache == g.cache
      && r.vertexHits[s] == Bump(g.vertexHits[s])
      && (forall v: Vid :: v < |g.vertices| && v != s ==> r.vertexHits[v] == g.vertexHits[v])
      && |r.edges| == |g.edges| + (if FindEdge(g.edges, s, d).Some? then 0 else 1)
      && (forall k :: 0 <= k < |g.edges| ==> r.edges[k].src == g.edges[k].src && r.edges[k].dst == g.edges[k].dst)
  {
  }

  // ---------------------------------------------------------------------
  // Sums over outgoing edges
  // ---------------------------------------------------------------------

  lemma OutSumAppend(es: seq<Edge>, e: Edge, v: Vid, c: Counter)
    ensures OutSum(es + [e], v, c) == OutSum(es, v, c) + (if e.src == v then Count(e.hits, c) else 0)
  {
    assert (es + [e])[..|es|] == es;
  }

  /** Replacing one edge by another with the same source moves the sum by the difference. */
  lemma {:induction false} OutSumUpdate(es: seq<Edge>, k: nat, e: Edge, v: Vid, c: Counter)
    requires k < |es| && e.src == es[k].src
    ensures OutSum(es[k := e], v, c) + (if e.src == v then Count(es[k].hits, c) else 0)
         == OutSum(es, v, c) + (if e.src == v then Count(e.hits, c) else 0)
  {
    var n := |es| - 1;
    if k == n {
      assert es[k := e][..n] == es[..n];
    } else {
      assert es[k := e][..n] == es[..n][k := e];
      OutSumUpdate(es[..n], k, e, v, c);
    }
  }

  /** The sum depends only on the sources and the counter c of the edges. */
  lemma {:induction false} OutSumSame(es: seq<Edge>, es': seq<Edge>, v: Vid, c: Counter)
    requires |es| == |es'|
    requires forall k :: 0 <= k < |es| ==> es'[k].src == es[k].src && Count(es'[k].hits, c) == Count(es[k].hits, c)
    ensures OutSum(es', v, c) == OutSum(es, v, c)
  {
    if es != [] {
      OutSumSame(es[..|es| - 1], es'[..|es| - 1], v, c);
    }
  }

  lemma {:induction false} OutSumZero(es: seq<Edge>, v: Vid, c: Counter)
    requires forall k :: 0 <= k < |es| ==> Count(es[k].hits, c) == 0
    ensures OutSum(es, v, c) == 0
  {
    if es != [] {
      OutSumZero(es[..|es| - 1], v, c);
    }
  }

  /** Folding instance hits into totals adds the instance sum to the total sum. */
  lemma {:induction false} OutSumFold(es: seq<Edge>, es': seq<Edge>, v: Vid)
    requires |es| == |es'|
    requires forall k :: 0 <= k < |es| ==> es'[k].src == es[k].src && es'[k].hits == FoldInstance(es[k].hits)
    ensures OutSum(es', v, Total) == OutSum(es, v, Total) + OutSum(es, v, Instance)
  {
    if es != [] {
      OutSumFold(es[..|es| - 1], es'[..|es| - 1], v);
    }
  }

  /** Adding a marker, or a query vertex whose key is new, keeps query keys distinct. */
  lemma AddVertexKeepsDistinct(vs: seq<Vertex>, v: Vertex)
    requires DistinctQueries(vs) && (v.Query? ==> v !in vs)
    ensures DistinctQueries(vs + [v])
  {
  }

  /** One edge's counter never exceeds the sum over its source's edges. */
  lemma {:induction false} OutSumAtLeast(es: seq<Edge>, k: nat, c: Counter)
    requires k < |es|
    ensures Count(es[k].hits, c) <= OutSum(es, es[k].src, c)
  {
    var n := |es| - 1;
    if k < n {
      assert es[..n][k] == es[k];
      OutSumAtLeast(es[..n], k, c);
    }
  }

  // ---------------------------------------------------------------------
  // Counter conservation
  // ---------------------------------------------------------------------

  lemma AddVertexConserves(g: Graph, v: Vertex, c: Counter)
    requires WellFormed(g) && (v.Type() != QUERY ==> v.Type() !in g.cache)
    requires Conserved(g, c)
    ensures Conserved(AddVertex(g, v), c)
  {
    var r := AddVertex(g, v);
    var n := |g.vertices|;
    forall u: Vid | u < |r.vertices|
      ensures Count(r.vertexHits[u], c) == OutSum(r.edges, u, c)
    {
      if u == n {
        forall k | 0 <= k < |g.edges| ensures g.edges[k].src != u { }
        OutSumNoSource(g.edges, u, c);
      }
    }
  }

  lemma {:induction false} OutSumNoSource(es: seq<Edge>, v: Vid, c: Counter)
    requires forall k :: 0 <= k < |es| ==> es[k].src != v
    ensures OutSum(es, v, c) == 0
  {
    if es != [] {
      OutSumNoSource(es[..|es| - 1], v, c);
    }
  }

  /** addToEdge(s, d) raises the instance sum over s's edges by one and changes no other sum. */
  lemma AddToEdgeOutSum(g: Graph, s: Vid, d: Vid, u: Vid, c: Counter)
    requires WellFormed(g) && s < |g.vertices| && d < |g.vertices|
    ensures OutSum(AddToEdge(g, s, d).edges, u, c)
         == OutSum(g.edges, u, c) + (if u == s && c == Instance then 1 else 0)
  {
    var found := FindEdge(g.edges, s, d);
    var es := if found.Some? then g.edges else g.edges + [Edge(s, d, Hits(0, 0))];
    var k := if found.Some? then found.value else |g.edges|;
    var e := es[k].(hits := Bump(es[k].hits));
    assert AddToEdge(g, s, d).edges == es[k := e];
    if found.None? {
      OutSumAppend(g.edges, Edge(s, d, Hits(0, 0)), u, c);
    }
    OutSumUpdate(es, k, e, u, c);
  }

  /** addToEdge keeps both counters conserved. */
  lemma AddToEdgeConserves(g: Graph, s: Vid, d: Vid, c: Counter)
    requires WellFormed(g) && s < |g.vertices| && d < |g.vertices|
    requires Conserved(g, c)
    ensures Conserved(AddToEdge(g, s, d), c)
  {
    var r := AddToEdge(g, s, d);
    forall u: Vid | u < |r.vertices|
      ensures Count(r.vertexHits[u], c) == OutSum(r.edges, u, c)
    {
      AddToEdgeOutSum(g, s, d, u, c);
    }
  }

  // ---------------------------------------------------------------------
  // resetCounters and recomputeGraph
  // ---------------------------------------------------------------------

  /**
   * resetCounters zeroes every vertex's and every edge's instance hits and
   * changes neither a total nor the structure of the graph.
   */
  lemma ResetEffect(g: Graph)
    requires Valid(g)
    ensures var r := ResetCounters(g);
      && Valid(r) && r.vertices == g.vertices && r.cache == g.cache
      && |r.vertexHits| == |g.vertexHits| && |r.edges| == |g.edges|
      && (forall i :: 0 <= i < |r.vertexHits| ==> r.vertexHits[i] == Hits(0, g.vertexHits[i].total))
      && (forall k :: 0 <= k < |r.edges| ==>
            r.edges[k] == Edge(g.edges[k].src, g.edges[k].dst, Hits(0, g.edges[k].hits.total)))
  {
  }

  /** Resetting twice is resetting once. */
  lemma ResetIdempotent(g: Graph)
    ensures ResetCounters(ResetCounters(g)) == ResetCounters(g)
  {
    var r := ResetCounters(g);
    var rr := ResetCounters(r);
    assert rr.vertexHits == r.vertexHits;
    assert rr.edges == r.edges;
  }

  /**
   * After a reset the instance counters are conserved, whatever they were
   * before, and conserved totals stay conserved.
   */
  lemma ResetConserves(g: Graph)
    requires Valid(g)
    ensures Conserved(ResetCounters(g), Instance)
    ensures Conserved(g, Total) ==> Conserved(ResetCounters(g), Total)
  {
    var r := ResetCounters(g);
    forall v: Vid | v < |r.vertices| ensures Count(r.vertexHits[v], Instance) == OutSum(r.edges, v, Instance) {
      OutSumZero(r.edges, v, Instance);
    }
    forall v: Vid | v < |r.vertices| ensures OutSum(r.edges, v, Total) == OutSum(g.edges, v, Total) {
      OutSumSame(g.edges, r.edges, v, Total);
    }
  }

  /**
   * The counter folding of recomputeGraph adds each element's instance hits
   * to its total hits, keeps the instance hits and the structure, and so
   * never lowers a total.
   */
  lemma RecomputeEffect(g: Graph)
    requires Valid(g)
    ensures var r := RecomputeGraph(g);
      && Valid(r) && r.vertices == g.vertices && r.cache == g.cache
      && |r.vertexHits| == |g.vertexHits| && |r.edges| == |g.edges|
      && (forall i :: 0 <= i < |r.vertexHits| ==>
            r.vertexHits[i].instance == g.vertexHits[i].instance
            && r.vertexHits[i].total == g.vertexHits[i].total + g.vertexHits[i].instance
            && r.vertexHits[i].total >= g.vertexHits[i].total)
      && (forall k :: 0 <= k < |r.edges| ==>
            r.edges[k].src == g.edges[k].src && r.edges[k].dst == g.edges[k].dst
            && r.edges[k].hits.instance == g.edges[k].hits.instance
            && r.edges[k].hits.total == g.edges[k].hits.total + g.edges[k].hits.instance
            && r.edges[k].hits.total >= g.edges[k].hits.total)
  {
  }

  /** Folding after a reset changes nothing: no total moves. */
  lemma RecomputeAfterReset(g: Graph)
    ensures RecomputeGraph(ResetCounters(g)) == ResetCounters(g)
  {
    var r := ResetCounters(g);
    var rr := RecomputeGraph(r);
    assert rr.vertexHits == r.vertexHits;
    assert rr.edges == r.edges;
  }

  /** recomputeGraph keeps both counters conserved. */
  lemma RecomputeConserves(g: Graph)
    requires Valid(g) && Conserved(g, Instance) && Conserved(g, Total)
    ensures Conserved(RecomputeGraph(g), Instance) && Conserved(RecomputeGraph(g), Total)
  {
    var r := RecomputeGraph(g);
    forall v: Vid | v < |r.vertices|
      ensures Count(r.vertexHits[v], Instance) == OutSum(r.edges, v, Instance)
      ensures Count(r.vertexHits[v], Total) == OutSum(r.edges, v, Total)
    {
      OutSumSame(g.edges, r.edges, v, Instance);
      OutSumFold(g.edges, r.edges, v);
    }
  }

  // ---------------------------------------------------------------------
  // Edge probabilities
  // ---------------------------------------------------------------------

  lemma DivAdd(x: real, y: real, t: real)
    requires t > 0.0
    ensures x / t + y / t == (x + y) / t
  {
    var a := x / t;
    var b := y / t;
    assert a * t == x && b * t == y;
    assert (a + b) * t == x + y;
  }

  lemma DivBounds(x: real, t: real)
    requires 0.0 <= x <= t && t > 0.0
    ensures 0.0 <= x / t <= 1.0 && (x == t ==> x / t == 1.0)
  {
    var q := x / t;
    assert q * t == x;
    assert (1.0 - q) * t == t - x;
  }

  lemma {:induction false} OutProbabilityScaled(g: Graph, v: Vid, n: nat)
    requires Valid(g) && n <= |g.edges| && v < |g.vertices| && g.vertexHits[v].total > 0
    ensures OutProbability(g, v, n) == OutSum(g.edges[..n], v, Total) as real / g.vertexHits[v].total as real
  {
    var t := g.vertexHits[v].total as real;
    if n > 0 {
      OutProbabilityScaled(g, v, n - 1);
      assert g.edges[..n][..n - 1] == g.edges[..n - 1];
      var e := g.edges[n - 1];
      var x := OutSum(g.edges[..n - 1], v, Total);
      var y := if e.src == v then e.hits.total else 0;
      assert OutSum(g.edges[..n], v, Total) == x + y;
      assert (if e.src == v then EdgeProbability(g, n - 1) else 0.0) == y as real / t;
      DivAdd(x as real, y as real, t);
    }
  }

  /**
   * When totals are conserved, the probabilities of the edges leaving a
   * vertex that has been visited sum to exactly one.
   */
  lemma ProbabilitiesSumToOne(g: Graph, v: Vid)
    requires Valid(g) && Conserved(g, Total)
    requires v < |g.vertices| && g.vertexHits[v].total > 0
    ensures OutProbability(g, v, |g.edges|) == 1.0
  {
    OutProbabilityScaled(g, v, |g.edges|);
    assert g.edges[..|g.edges|] == g.edges;
    var t := g.vertexHits[v].total as real;
    DivBounds(t, t);
  }

  /** When totals are conserved, every edge probability lies in [0, 1]. */
  lemma EdgeProbabilityInRange(g: Graph, k: nat)
    requires Valid(g) && Conserved(g, Total) && k < |g.edges|
    ensures 0.0 <= EdgeProbability(g, k) <= 1.0
  {
    OutSumAtLeast(g.edges, k, Total);
    var x := g.edges[k].hits.total;
    var t := g.vertexHits[g.edges[k].src].total;
    assert x <= t;
    if t > 0 {
      DivBounds(x as real, t as real);
    }
  }

  /** With exact reals the probabilities of the edges leaving a vertex never visited are all zero. */
  lemma {:induction false} OutProbabilityZero(g: Graph, v: Vid, n: nat)
    requires Valid(g) && n <= |g.edges| && v < |g.vertices| && g.vertexHits[v].total == 0
    ensures OutProbability(g, v, n) == 0.0
  {
    if n > 0 {
      OutProbabilityZero(g, v, n - 1);
    }
  }

  /**
   * When totals are conserved, the out-edge probability sum of every
   * vertex is at most one (exactly one once visited), so the sum checks of
   * isSane, which reject sums above one, never fail.
   */
  lemma ProbabilitySumAtMostOne(g: Graph, v: Vid)
    requires Valid(g) && Conserved(g, Total) && v < |g.vertices|
    ensures OutProbability(g, v, |g.edges|) <= 1.0
  {
    if g.vertexHits[v].total == 0 {
      OutProbabilityZero(g, v, |g.edges|);
    } else {
      ProbabilitiesSumToOne(g, v);
    }
  }

  // ---------------------------------------------------------------------
  // The recompute trigger
  // ---------------------------------------------------------------------

  /** The yes votes among n vertices, as a set. */
  ghost function YesVotes(votes: Vid -> bool, n: nat): set<Vid> {
    set v: Vid | v < n && votes(v)
  }

  /** The count of shouldRecompute is the number of vertices voting yes, so at most n. */
  lemma {:induction false} CountVotesIsCardinality(votes: Vid -> bool, n: nat)
    ensures CountVotes(votes, n) == |YesVotes(votes, n)| <= n
  {
    if n > 0 {
      CountVotesIsCardinality(votes, n - 1);
      var before := YesVotes(votes, n - 1);
      if votes(n - 1) {
        assert YesVotes(votes, n) == before + {n - 1};
      } else {
        assert YesVotes(votes, n) == before;
      }
    }
  }

  /** shouldRecompute holds exactly when at least half of a non-empty vertex set votes yes. */
  lemma ShouldRecomputeIffHalf(votes: Vid -> bool, n: nat)
    ensures ShouldRecompute(votes, n) <==> n > 0 && 2 * CountVotes(votes, n) >= n
  {
    if n > 0 {
      HalfRatio(CountVotes(votes, n), n);
    }
  }

  lemma HalfRatio(c: nat, n: nat)
    requires n > 0
    ensures c as real / n as real >= 0.5 <==> 2 * c >= n
  {
    var q := c as real / n as real;
    assert q * n as real == c as real;
    if q >= 0.5 {
      assert q * n as real >= 0.5 * n as real;
    } else {
      assert q * n as real < 0.5 * n as real;
    }
  }

  /** More yes votes never turn a yes answer into a no. */
  lemma {:induction false} ShouldRecomputeMonotone(votes: Vid -> bool, votes': Vid -> bool, n: nat)
    requires forall v: Vid :: v < n && votes(v) ==> votes'(v)
    requires ShouldRecompute(votes, n)
    ensures ShouldRecompute(votes', n)
  {
    ShouldRecomputeIffHalf(votes, n);
    ShouldRecomputeIffHalf(votes', n);
    CountVotesMonotone(votes, votes', n);
  }

  lemma {:induction false} CountVotesMonotone(votes: Vid -> bool, votes': Vid -> bool, n: nat)
    requires forall v: Vid :: v < n && votes(v) ==> votes'(v)
    ensures CountVotes(votes, n) <= CountVotes(votes', n)
  {
    if n > 0 {
      CountVotesMonotone(votes, votes', n - 1);
    }
  }

  // ---------------------------------------------------------------------
  // The walk of processTransaction
  // ---------------------------------------------------------------------

  /** How many queries of qs run statement s. */
  function Occurrences(qs: seq<QueryTrace>, s: StmtId): nat {
    if qs == [] then 0
    else Occurrences(qs[..|qs| - 1], s) + (if qs[|qs| - 1].stmt == s then 1 else 0)
  }

  /**
   * r is what one iteration makes of p for query q: the path grows by the
   * new previous vertex, which carries q's key with the statement's counter
   * before the iteration; that counter rises by one; no vertex is removed.
   */
  ghost predicate Stepped(p: WalkState, q: QueryTrace, r: WalkState) {
    && q.stmt in p.counters
    && p.g.vertices <= r.g.vertices
    && r.previous < |r.g.vertices|
    && r.path == p.path + [r.previous]
    && r.counters == p.counters[q.stmt := p.counters[q.stmt] + 1]
    && r.g.vertices[r.previous] == Query(q.stmt, q.partitions, p.counters[q.stmt])
  }

  lemma StepFacts(w: WalkState, q: QueryTrace)
    requires WalkOk(w) && q.stmt in w.counters
    ensures Stepped(w, q, Step(w, q))
    ensures var r := Step(w, q);
      var key := Query(q.stmt, q.partitions, w.counters[q.stmt]);
      && r.previous != w.g.cache[ABORT]
      && (key in w.g.vertices ==> r.g.vertices == w.g.vertices && r.previous == FindVertex(w.g.vertices, key).value)
      && (key !in w.g.vertices ==> r.g.vertices == w.g.vertices + [key])
  {
    FindVertexSpec(w.g.vertices, Query(q.stmt, q.partitions, w.counters[q.stmt]));
  }

  /** The shape WalkShape states, for a walk r over qs started from w0. */
  ghost predicate ShapedAfter(w0: WalkState, qs: seq<QueryTrace>, r: WalkState) {
    && |r.path| == |w0.path| + |qs| && r.path[..|w0.path|] == w0.path
    && (forall s :: s in w0.counters ==> s in r.counters && r.counters[s] == w0.counters[s] + Occurrences(qs, s))
    && (forall i :: 0 <= i < |qs| ==> LabelAt(w0, qs, r, i))
  }

  /**
   * The vertex the walk r reached for query qs[i] carries that query's
   * statement and partitions and the statement's counter at that point.
   */
  ghost predicate LabelAt(w0: WalkState, qs: seq<QueryTrace>, r: WalkState, i: nat) {
    && i < |qs| && |w0.path| + i < |r.path|
    && r.path[|w0.path| + i] < |r.g.vertices| && qs[i].stmt in w0.counters
    && r.g.vertices[r.path[|w0.path| + i]]
       == Query(qs[i].stmt, qs[i].partitions, w0.counters[qs[i].stmt] + Occurrences(qs[..i], qs[i].stmt))
  }

  /** The induction step of WalkShape, on the walk states alone. */
  lemma ShapedStep(w0: WalkState, qs: seq<QueryTrace>, p: WalkState, r: WalkState)
    requires qs != [] && ShapedAfter(w0, qs[..|qs| - 1], p)
    requires qs[|qs| - 1].stmt in w0.counters
    requires Stepped(p, qs[|qs| - 1], r)
    ensures ShapedAfter(w0, qs, r)
  {
    var m := |w0.path|;
    assert r.path[..m] == p.path[..m];
    CountersStep(w0, qs, p, r);
    forall i | 0 <= i < |qs|
      ensures LabelAt(w0, qs, r, i)
    {
      LabelStep(w0, qs, p, r, i);
    }
  }

  lemma CountersStep(w0: WalkState, qs: seq<QueryTrace>, p: WalkState, r: WalkState)
    requires qs != []
    requires forall s :: s in w0.counters ==> s in p.counters && p.counters[s] == w0.counters[s] + Occurrences(qs[..|qs| - 1], s)
    requires var q := qs[|qs| - 1]; q.stmt in p.counters && r.counters == p.counters[q.stmt := p.counters[q.stmt] + 1]
    ensures forall s :: s in w0.counters ==> s in r.counters && r.counters[s] == w0.counters[s] + Occurrences(qs, s)
  {
  }

  lemma LabelStep(w0: WalkState, qs: seq<QueryTrace>, p: WalkState, r: WalkState, i: nat)
    requires qs != [] && ShapedAfter(w0, qs[..|qs| - 1], p)
    requires qs[|qs| - 1].stmt in w0.counters
    requires Stepped(p, qs[|qs| - 1], r)
    requires i < |qs|
    ensures LabelAt(w0, qs, r, i)
  {
    var n := |qs| - 1;
    var init := qs[..n];
    var m := |w0.path|;
    if i < n {
      assert LabelAt(w0, init, p, i);
      assert init[..i] == qs[..i];
      assert init[i] == qs[i];
      assert r.path[m + i] == p.path[m + i];
      assert p.path[m + i] < |p.g.vertices|;
      assert r.g.vertices[p.path[m + i]] == p.g.vertices[p.path[m + i]];
    } else {
      assert qs[..i] == init;
    }
  }

  /**
   * The path grows by one vertex per query, and the vertex of the i-th
   * query carries its statement, its partitions and, as instance index,
   * the statement's starting counter plus its occurrences before i.
   */
  lemma {:induction false} WalkShape(w0: WalkState, qs: seq<QueryTrace>)
    requires WalkOk(w0) && forall i :: 0 <= i < |qs| ==> qs[i].stmt in w0.counters
    ensures ShapedAfter(w0, qs, Walk(w0, qs))
  {
    if qs == [] {
      assert w0.path[..|w0.path|] == w0.path;
    } else {
      var n := |qs| - 1;
      var p := Walk(w0, qs[..n]);
      var r := Walk(w0, qs);
      assert r == Step(p, qs[n]);
      WalkShape(w0, qs[..n]);
      StepFacts(p, qs[n]);
      ShapedStep(w0, qs, p, r);
    }
  }

  /** The label of the vertex the walk visits for query qs[i]. */
  lemma WalkLabel(w0: WalkState, qs: seq<QueryTrace>, i: nat)
    requires WalkOk(w0) && forall j :: 0 <= j < |qs| ==> qs[j].stmt in w0.counters
    requires i < |qs|
    ensures LabelAt(w0, qs, Walk(w0, qs), i)
  {
    WalkShape(w0, qs);
  }

  /** The walk of processTransaction starts well formed, with every query's counter at zero. */
  lemma InitialWalkReady(g: Graph, trace: TransactionTrace)
    requires WellFormed(g) && Initialized(g) && StatementsKnown(trace)
    ensures var w0 := InitialWalk(g, trace.statements);
      && WalkOk(w0) && |w0.path| == 1
      && forall j :: 0 <= j < |trace.queries| ==>
           trace.queries[j].stmt in w0.counters && w0.counters[trace.queries[j].stmt] == 0
  {
  }

  /** The walk over one more query is one more step. */
  lemma WalkSnoc(w0: WalkState, qs: seq<QueryTrace>, i: nat)
    requires WalkOk(w0) && forall j :: 0 <= j < |qs| ==> qs[j].stmt in w0.counters
    requires i < |qs|
    ensures Walk(w0, qs[..i + 1]) == Step(Walk(w0, qs[..i]), qs[i])
  {
    assert qs[..i + 1][..i] == qs[..i];
  }

  /** One iteration adds a vertex only for a key no vertex carries, so query keys stay distinct. */
  lemma StepKeepsDistinct(vs: seq<Vertex>, vs': seq<Vertex>, key: Vertex)
    requires DistinctQueries(vs) && key.Query?
    requires key in vs ==> vs' == vs
    requires key !in vs ==> vs' == vs + [key]
    ensures DistinctQueries(vs')
  {
  }

  /** The walk never gives two query vertices the same key. */
  lemma {:induction false} WalkKeepsDistinct(w0: WalkState, qs: seq<QueryTrace>)
    requires WalkOk(w0) && forall i :: 0 <= i < |qs| ==> qs[i].stmt in w0.counters
    requires DistinctQueries(w0.g.vertices)
    ensures DistinctQueries(Walk(w0, qs).g.vertices)
  {
    if qs != [] {
      var n := |qs| - 1;
      var p := Walk(w0, qs[..n]);
      var q := qs[n];
      WalkKeepsDistinct(w0, qs[..n]);
      StepFacts(p, q);
      StepKeepsDistinct(p.g.vertices, Walk(w0, qs).g.vertices, Query(q.stmt, q.partitions, p.counters[q.stmt]));
    }
  }

  /** The walk keeps both counters conserved. */
  lemma {:induction false} WalkConserves(w0: WalkState, qs: seq<QueryTrace>, c: Counter)
    requires WalkOk(w0) && forall i :: 0 <= i < |qs| ==> qs[i].stmt in w0.counters
    requires Conserved(w0.g, c)
    ensures Conserved(Walk(w0, qs).g, c)
  {
    if qs != [] {
      var n := |qs| - 1;
      var w := Walk(w0, qs[..n]);
      WalkConserves(w0, qs[..n], c);
      var q := qs[n];
      var key := Query(q.stmt, q.partitions, w.counters[q.stmt]);
      var found := FindVertex(w.g.vertices, key);
      var g1 := if found.Some? then w.g else AddVertex(w.g, key);
      var v := if found.Some? then found.value else |w.g.vertices|;
      if found.None? {
        AddVertexConserves(w.g, key, c);
      }
      var g2 := AddToEdge(g1, w.previous, v);
      AddToEdgeConserves(g1, w.previous, v, c);
      if q.aborted {
        AddToEdgeConserves(g2, v, g2.cache[ABORT], c);
      }
    }
  }

  // ---------------------------------------------------------------------
  // Edge counts left by the walk
  // ---------------------------------------------------------------------

  /** One iteration keeps the graph valid. */
  lemma StepValid(w: WalkState, q: QueryTrace)
    requires WalkOk(w) && Valid(w.g) && q.stmt in w.counters
    ensures Valid(Step(w, q).g)
  {
    var key := Query(q.stmt, q.partitions, w.counters[q.stmt]);
    var found := FindVertex(w.g.vertices, key);
    var g1 := if found.Some? then w.g else AddVertex(w.g, key);
    var v := if found.Some? then found.value else |w.g.vertices|;
    if found.None? {
      AddVertexEffect(w.g, key);
    }
    var g2 := AddToEdge(g1, w.previous, v);
    AddToEdgeValid(g1, w.previous, v);
    if q.aborted {
      AddToEdgeValid(g2, v, g2.cache[ABORT]);
    }
  }

  /** The walk keeps the graph valid. */
  lemma {:induction false} WalkValid(w0: WalkState, qs: seq<QueryTrace>)
    requires WalkOk(w0) && Valid(w0.g) && forall i :: 0 <= i < |qs| ==> qs[i].stmt in w0.counters
    ensures Valid(Walk(w0, qs).g)
  {
    if qs != [] {
      var n := |qs| - 1;
      WalkValid(w0, qs[..n]);
      StepValid(Walk(w0, qs[..n]), qs[n]);
    }
  }

  /**
   * One iteration adds one instance hit to the edge from the previous
   * vertex to the query's vertex, one to the edge from the query's vertex
   * to ABORT when the query aborted, and none to any other pair of
   * vertices; no total changes.
   */
  lemma StepHits(w: WalkState, q: QueryTrace, a: Vid, b: Vid)
    requires WalkOk(w) && Valid(w.g) && q.stmt in w.counters
    ensures var r := Step(w, q);
      var h := HitsOf(w.g.edges, a, b);
      && r.path == w.path + [r.previous] && r.previous != w.g.cache[ABORT]
      && HitsOf(r.g.edges, a, b)
         == h.(instance := h.instance
                 + (if a == w.previous && b == r.previous then 1 else 0)
                 + (if q.aborted && a == r.previous && b == w.g.cache[ABORT] then 1 else 0))
  {
    var key := Query(q.stmt, q.partitions, w.counters[q.stmt]);
    var found := FindVertex(w.g.vertices, key);
    var g1 := if found.Some? then w.g else AddVertex(w.g, key);
    var v := if found.Some? then found.value else |w.g.vertices|;
    if found.None? {
      AddVertexEffect(w.g, key);
    }
    var g2 := AddToEdge(g1, w.previous, v);
    AddToEdgeHits(g1, w.previous, v, a, b);
    if q.aborted {
      AddToEdgeValid(g1, w.previous, v);
      AddToEdgeHits(g2, v, g2.cache[ABORT], a, b);
    }
  }

  /** The consecutive pairs of a path. */
  function Pairs(p: seq<Vid>): (r: seq<(Vid, Vid)>)
    ensures |r| == if |p| < 2 then 0 else |p| - 1
  {
    if |p| < 2 then [] else Pairs(p[..|p| - 1]) + [(p[|p| - 2], p[|p| - 1])]
  }

  lemma {:induction false} PairsAt(p: seq<Vid>, i: nat)
    requires i + 1 < |p|
    ensures Pairs(p)[i] == (p[i], p[i + 1])
  {
    var n := |p| - 1;
    if i + 1 < n {
      PairsAt(p[..n], i);
    }
  }

  lemma PairsAppend(p: seq<Vid>, x: Vid)
    requires |p| > 0
    ensures Pairs(p + [x]) == Pairs(p) + [(p[|p| - 1], x)]
  {
    assert (p + [x])[..|p|] == p;
  }

  /**
   * For every edge into a vertex other than ABORT, the walk adds one
   * instance hit per time the pair occurs consecutively on the path it
   * builds, and changes no total.
   */
  lemma {:induction false} WalkHitsAlongPath(w0: WalkState, qs: seq<QueryTrace>, a: Vid, b: Vid)
    requires WalkOk(w0) && Valid(w0.g) && forall i :: 0 <= i < |qs| ==> qs[i].stmt in w0.counters
    requires b != w0.g.cache[ABORT]
    ensures var r := Walk(w0, qs);
      var h := HitsOf(w0.g.edges, a, b);
      var h' := HitsOf(r.g.edges, a, b);
      && h'.total == h.total
      && h'.instance + multiset(Pairs(w0.path))[(a, b)] == h.instance + multiset(Pairs(r.path))[(a, b)]
  {
    if qs != [] {
      var n := |qs| - 1;
      var p := Walk(w0, qs[..n]);
      var r := Walk(w0, qs);
      assert r == Step(p, qs[n]);
      WalkHitsAlongPath(w0, qs[..n], a, b);
      WalkValid(w0, qs[..n]);
      StepHits(p, qs[n], a, b);
      PairsAppend(p.path, r.previous);
    }
  }

  /** For each query qs[i] that aborted and whose vertex vs[i] is a: one. */
  function AbortCount(vs: seq<Vid>, qs: seq<QueryTrace>, a: Vid): nat
    requires |vs| == |qs|
  {
    if qs == [] then 0
    else AbortCount(vs[..|vs| - 1], qs[..|qs| - 1], a)
         + (if qs[|qs| - 1].aborted && vs[|vs| - 1] == a then 1 else 0)
  }

  lemma {:induction false} AbortCountAt(vs: seq<Vid>, qs: seq<QueryTrace>, i: nat)
    requires |vs| == |qs| && i < |qs| && qs[i].aborted
    ensures AbortCount(vs, qs, vs[i]) >= 1
  {
    var n := |qs| - 1;
    if i < n {
      assert vs[..n][i] == vs[i];
      AbortCountAt(vs[..n], qs[..n], i);
    }
  }

  /**
   * The walk adds one instance hit to the edge from a to ABORT per aborted
   * query whose vertex is a, and changes no total.
   */
  lemma {:induction false} WalkHitsToAbort(w0: WalkState, qs: seq<QueryTrace>, a: Vid)
    requires WalkOk(w0) && Valid(w0.g) && forall i :: 0 <= i < |qs| ==> qs[i].stmt in w0.counters
    ensures var r := Walk(w0, qs);
      var h := HitsOf(w0.g.edges, a, w0.g.cache[ABORT]);
      var h' := HitsOf(r.g.edges, a, w0.g.cache[ABORT]);
      && h'.total == h.total
      && h'.instance == h.instance + AbortCount(r.path[|w0.path|..], qs, a)
  {
    if qs != [] {
      var n := |qs| - 1;
      var p := Walk(w0, qs[..n]);
      var r := Walk(w0, qs);
      assert r == Step(p, qs[n]);
      WalkHitsToAbort(w0, qs[..n], a);
      WalkValid(w0, qs[..n]);
      StepHits(p, qs[n], a, w0.g.cache[ABORT]);
      AbortCountSnoc(p.path, r.previous, |w0.path|, qs, a);
    }
  }

  /** Counting over a path and its queries extended by one vertex and one query. */
  lemma AbortCountSnoc(path: seq<Vid>, x: Vid, m: nat, qs: seq<QueryTrace>, a: Vid)
    requires qs != [] && m <= |path| && |path| - m == |qs| - 1
    ensures AbortCount((path + [x])[m..], qs, a)
         == AbortCount(path[m..], qs[..|qs| - 1], a) + (if qs[|qs| - 1].aborted && x == a then 1 else 0)
  {
    SliceSnocInit(path, x, m);
  }

  // ---------------------------------------------------------------------
  // processTransaction
  // ---------------------------------------------------------------------

  /** The walk never stands at ABORT: it stands at START or at a query vertex. */
  lemma WalkAvoidsAbort(g: Graph, trace: TransactionTrace)
    requires WellFormed(g) && Initialized(g) && StatementsKnown(trace)
    ensures var w0 := InitialWalk(g, trace.statements);
      var w := Walk(w0, trace.queries);
      && ShapedAfter(w0, trace.queries, w)
      && forall i :: 0 <= i < |w.path| ==> w.path[i] != g.cache[ABORT]
  {
    var w0 := InitialWalk(g, trace.statements);
    var qs := trace.queries;
    var w := Walk(w0, qs);
    WalkShape(w0, qs);
    forall i | 0 <= i < |w.path| ensures w.path[i] != g.cache[ABORT] {
      if i == 0 {
        assert w.path[0] == w.path[..1][0];
      } else {
        assert LabelAt(w0, qs, w, i - 1);
      }
    }
  }

  /** processTransaction always takes its COMMIT branch, since the walk never ends at ABORT. */
  lemma ProcessUnfold(g: Graph, trace: TransactionTrace)
    requires WellFormed(g) && Initialized(g) && StatementsKnown(trace)
    ensures var w := Walk(InitialWalk(g, trace.statements), trace.queries);
      && w.previous != g.cache[ABORT] && w.g.cache == g.cache
      && ProcessTransaction(g, trace) == (AddToEdge(w.g, w.previous, g.cache[COMMIT]), w.path + [g.cache[COMMIT]])
  {
    var w := Walk(InitialWalk(g, trace.statements), trace.queries);
    WalkAvoidsAbort(g, trace);
    assert w.previous == w.path[|w.path| - 1];
  }

  /**
   * The path of processTransaction: START, one vertex per query, then
   * COMMIT; ABORT never occurs on it. The cache is unchanged and no vertex
   * is removed or relabelled.
   */
  lemma ProcessPathShape(g: Graph, trace: TransactionTrace)
    requires WellFormed(g) && Initialized(g) && StatementsKnown(trace)
    ensures var res := ProcessTransaction(g, trace);
      var path := res.1;
      && |path| == |trace.queries| + 2
      && path[0] == g.cache[START]
      && path[|trace.queries| + 1] == g.cache[COMMIT]
      && (forall i :: 0 <= i < |path| ==> path[i] != g.cache[ABORT])
      && g.vertices <= res.0.vertices && res.0.cache == g.cache
  {
    var w := Walk(InitialWalk(g, trace.statements), trace.queries);
    WalkAvoidsAbort(g, trace);
    assert w.path[0] == w.path[..1][0];
    assert w.previous != g.cache[ABORT];
  }

  /**
   * The vertex the path of processTransaction visits for the i-th query
   * carries the query's statement, its partitions and, as instance index,
   * the number of earlier queries of the same statement.
   */
  lemma ProcessPathLabels(g: Graph, trace: TransactionTrace, i: nat)
    requires WellFormed(g) && Initialized(g) && StatementsKnown(trace)
    requires i < |trace.queries|
    ensures var res := ProcessTransaction(g, trace);
      var q := trace.queries[i];
      && i + 1 < |res.1| && res.1[i + 1] < |res.0.vertices|
      && res.0.vertices[res.1[i + 1]] == Query(q.stmt, q.partitions, Occurrences(trace.queries[..i], q.stmt))
  {
    var w0 := InitialWalk(g, trace.statements);
    var w := Walk(w0, trace.queries);
    var q := trace.queries[i];
    InitialWalkReady(g, trace);
    WalkLabel(w0, trace.queries, i);
    assert w.g.vertices[w.path[i + 1]] == Query(q.stmt, q.partitions, Occurrences(trace.queries[..i], q.stmt));
    ProcessVisit(g, trace, i + 1);
  }

  /** The path of processTransaction is the walk's path followed by COMMIT, over the walk's vertices. */
  lemma ProcessVisit(g: Graph, trace: TransactionTrace, j: nat)
    requires WellFormed(g) && Initialized(g) && StatementsKnown(trace)
    requires j <= |trace.queries|
    ensures var res := ProcessTransaction(g, trace);
      var w := Walk(InitialWalk(g, trace.statements), trace.queries);
      && j < |w.path| && j < |res.1| && res.1[j] == w.path[j] && res.0.vertices == w.g.vertices
  {
    ProcessUnfold(g, trace);
  }

  /** processTransaction keeps the graph valid. */
  lemma ProcessValid(g: Graph, trace: TransactionTrace)
    requires Valid(g) && Initialized(g) && StatementsKnown(trace)
    ensures Valid(ProcessTransaction(g, trace).0)
  {
    var w := Walk(InitialWalk(g, trace.statements), trace.queries);
    WalkValid(InitialWalk(g, trace.statements), trace.queries);
    if w.previous != w.g.cache[ABORT] {
      AddToEdgeValid(w.g, w.previous, w.g.cache[COMMIT]);
    }
  }

  /** processTransaction never gives two query vertices the same key. */
  lemma ProcessKeepsDistinct(g: Graph, trace: TransactionTrace)
    requires WellFormed(g) && Initialized(g) && StatementsKnown(trace)
    requires DistinctQueries(g.vertices)
    ensures DistinctQueries(ProcessTransaction(g, trace).0.vertices)
  {
    WalkKeepsDistinct(InitialWalk(g, trace.statements), trace.queries);
  }

  /** processTransaction keeps both counters conserved. */
  lemma ProcessConserves(g: Graph, trace: TransactionTrace, c: Counter)
    requires WellFormed(g) && Initialized(g) && StatementsKnown(trace)
    requires Conserved(g, c)
    ensures Conserved(ProcessTransaction(g, trace).0, c)
  {
    var w := Walk(InitialWalk(g, trace.statements), trace.queries);
    WalkConserves(InitialWalk(g, trace.statements), trace.queries, c);
    if w.previous != w.g.cache[ABORT] {
      AddToEdgeConserves(w.g, w.previous, w.g.cache[COMMIT], c);
    }
  }

  /**
   * The instance hits processTransaction adds to the edge a -> b: one per
   * time the pair occurs consecutively on the returned path when b is not
   * ABORT, and one per aborted query whose vertex is a when b is ABORT. No
   * total changes.
   */
  lemma ProcessEdgeHits(g: Graph, trace: TransactionTrace, a: Vid, b: Vid)
    requires Valid(g) && Initialized(g) && StatementsKnown(trace)
    ensures var res := ProcessTransaction(g, trace);
      var path := res.1;
      var h := HitsOf(g.edges, a, b);
      var h' := HitsOf(res.0.edges, a, b);
      && h'.total == h.total
      && |path| == |trace.queries| + 2
      && (b != g.cache[ABORT] ==> h'.instance == h.instance + multiset(Pairs(path))[(a, b)])
      && (b == g.cache[ABORT] ==> h'.instance == h.instance + AbortCount(path[1..|path| - 1], trace.queries, a))
  {
    var w0 := InitialWalk(g, trace.statements);
    var qs := trace.queries;
    var w := Walk(w0, qs);
    var commit := g.cache[COMMIT];
    ProcessUnfold(g, trace);
    WalkValid(w0, qs);
    AddToEdgeHits(w.g, w.previous, commit, a, b);
    assert w0.path == [g.cache[START]];
    if b != g.cache[ABORT] {
      WalkHitsAlongPath(w0, qs, a, b);
      PairsAppend(w.path, commit);
    } else {
      WalkHitsToAbort(w0, qs, a);
      var path := w.path + [commit];
      assert path[1..|path| - 1] == w.path[1..];
    }
  }

  /** A pair that occurs in a count of at least one is joined by exactly one edge. */
  lemma HitEdgeUnique(g: Graph, a: Vid, b: Vid)
    requires Valid(g) && HitsOf(g.edges, a, b).instance > 0
    ensures EdgeMultiplicity(g.edges, a, b) == 1
  {
    MultiplicityOne(g.edges, a, b);
  }

  /** Each consecutive pair of the returned path is joined by exactly one edge. */
  lemma PathEdgesExactlyOnce(g: Graph, trace: TransactionTrace, i: nat)
    requires Valid(g) && Initialized(g) && StatementsKnown(trace)
    requires i + 1 < |ProcessTransaction(g, trace).1|
    ensures var res := ProcessTransaction(g, trace);
      EdgeMultiplicity(res.0.edges, res.1[i], res.1[i + 1]) == 1
  {
    var res := ProcessTransaction(g, trace);
    var path := res.1;
    ProcessPathShape(g, trace);
    ProcessEdgeHits(g, trace, path[i], path[i + 1]);
    PairsAt(path, i);
    assert Pairs(path)[i] in multiset(Pairs(path));
    ProcessValid(g, trace);
    HitEdgeUnique(res.0, path[i], path[i + 1]);
  }

  /** The vertex of every aborted query has exactly one edge to ABORT. */
  lemma AbortedQueriesReachAbort(g: Graph, trace: TransactionTrace, i: nat)
    requires Valid(g) && Initialized(g) && StatementsKnown(trace)
    requires i < |trace.queries| && trace.queries[i].aborted
    ensures var res := ProcessTransaction(g, trace);
      |res.1| == |trace.queries| + 2
      && EdgeMultiplicity(res.0.edges, res.1[i + 1], g.cache[ABORT]) == 1
  {
    var res := ProcessTransaction(g, trace);
    var path := res.1;
    ProcessPathShape(g, trace);
    ProcessEdgeHits(g, trace, path[i + 1], g.cache[ABORT]);
    var vs := path[1..|path| - 1];
    assert vs[i] == path[i + 1];
    AbortCountAt(vs, trace.queries, i);
    ProcessValid(g, trace);
    HitEdgeUnique(res.0, path[i + 1], g.cache[ABORT]);
  }
}
