/**
 * The entities of a Markov model graph: vertices, their hit counters,
 * edges, and the transaction traces that are tallied into the graph.
 */
module MarkovTypes {

  datatype Option<T> = None | Some(value: T)

  /** Catalog identity of a statement of a stored procedure. */
  type StmtId = int

  /** Identity of a partition of the database. */
  type PartitionId = int

  /** Handle of a vertex inside its graph (its position in the vertex arena). */
  type Vid = nat

  /** The kinds of vertex; START, COMMIT and ABORT are the marker kinds. */
  datatype VertexType = START | COMMIT | ABORT | QUERY

  /** Every vertex kind, in the order assumed for the declaration of the source's enum. */
  const AllTypes: seq<VertexType> := [START, COMMIT, ABORT, QUERY]

  /**
   * A vertex is either a marker (identified by its kind alone) or a query
   * vertex identified by (statement, partitions touched, instance index).
   */
  datatype Vertex =
    | Marker(kind: VertexType)
    | Query(stmt: StmtId, partitions: set<PartitionId>, index: nat)
  {
    function Type(): VertexType {
      if Marker? then kind else QUERY
    }
  }

  /** Lifetime hits and hits since the last reset, kept by vertices and edges. */
  datatype Hits = Hits(instance: nat, total: nat)

  /** Names one of the two counters of a Hits record. */
  datatype Counter = Instance | Total

  function Count(h: Hits, c: Counter): nat {
    match c
    case Instance => h.instance
    case Total => h.total
  }

  /** A directed edge of the graph with its own counters. */
  datatype Edge = Edge(src: Vid, dst: Vid, hits: Hits)

  /**
   * One executed query of a transaction: its statement, the (already
   * estimated) set of partitions it touched, and whether it aborted.
   */
  datatype QueryTrace = QueryTrace(stmt: StmtId, partitions: set<PartitionId>, aborted: bool)

  /**
   * One completed transaction: the statements of its procedure (in catalog
   * order) and its queries in execution order.
   */
  datatype TransactionTrace = TransactionTrace(statements: seq<StmtId>, queries: seq<QueryTrace>)
}
