/** The graph behind the WebGL renderer of the hook-based client: an
    undirected simple graph keyed by the string form of city ids. Nodes map
    keys to their attributes; an edge is keyed by the unordered pair of its
    endpoint keys (a singleton for a self-loop), so there is at most one
    edge per pair and `graph.edge(a, b)` finds it in either orientation. */
module RenderGraph {

  /** An unordered pair of node keys: its set of endpoints. */
  datatype UPair = UPair(ends: set<string>)

  function Pair(a: string, b: string): (p: UPair)
    ensures a in p.ends && b in p.ends && 1 <= |p.ends| <= 2
  {
    UPair({a, b})
  }

  /** An undirected pair has no orientation. */
  lemma PairSymmetric(a: string, b: string)
    ensures Pair(a, b) == Pair(b, a)
  {
  }

  datatype NodeAttr = NodeAttr(labelText: string, x: real, y: real, size: real, color: string)

  datatype EdgeAttr = EdgeAttr(size: real, color: string)

  datatype Graph = Graph(nodes: map<string, NodeAttr>, edges: map<UPair, EdgeAttr>)

  const EmptyGraph := Graph(map[], map[])

  /** Every edge joins one or two existing nodes. */
  predicate WellFormed(g: Graph) {
    forall k :: k in g.edges ==> 1 <= |k.ends| <= 2 && k.ends <= g.nodes.Keys
  }

  /** Theme colours: light nodes and dark edges on a dark background, and
      the reverse on a light one. */
  function NodeColor(isDark: bool): string {
    if isDark then "#e4e4e7" else "#0a0a0a"
  }

  function EdgeColor(isDark: bool): string {
    if isDark then "#52525b" else "#d4d4d8"
  }

  /** The reserved colour of shortest-path edges, the same in both themes. */
  const PathColor := "#f97316"

  const NodeSize := 2.0
  const NormalEdgeSize := 0.5
  const PathEdgeSize := 2.0

  /** Attributes of an ordinary edge and of a path edge. */
  function NormalEdge(isDark: bool): EdgeAttr {
    EdgeAttr(NormalEdgeSize, EdgeColor(isDark))
  }

  const PathEdge := EdgeAttr(PathEdgeSize, PathColor)

  /** No theme colour coincides with the path colour, so the colour of an
      edge tells whether it belongs to the highlighted path. */
  lemma PathColorIsReserved(isDark: bool)
    ensures PathColor != EdgeColor(isDark) && PathColor != NodeColor(isDark)
    ensures NormalEdge(isDark) != PathEdge
  {
  }
}
