/** The theme observer (src/hooks/useThemeObserver.ts): whenever the `dark`
    class of the document changes, every node takes the new theme's node
    colour and every edge that is not orange takes the new theme's edge
    colour. Sizes are never touched, so a highlighted path keeps both its
    colour and its width across theme changes. */
module ThemeObserver {
  import opened Wrappers
  import opened Text
  import opened CityModel
  import opened EdgeModel
  import opened RenderGraph
  import opened GraphInitialization
  import opened ShortestPath

  /** The edge callback: an orange edge is skipped, any other is recoloured. */
  function RecolorEdge(e: EdgeAttr, isDark: bool): EdgeAttr {
    if e.color == PathColor then e else e.(color := EdgeColor(isDark))
  }

  /** One observer callback on the graph of a live renderer. */
  function Reconcile(g: Graph, isDark: bool): (r: Graph)
    ensures r.nodes.Keys == g.nodes.Keys && r.edges.Keys == g.edges.Keys
    ensures WellFormed(g) ==> WellFormed(r)
  {
    Graph(map k | k in g.nodes :: g.nodes[k].(color := NodeColor(isDark)),
          map k | k in g.edges :: RecolorEdge(g.edges[k], isDark))
  }

  /** What a callback does to each element: nodes take the theme's node
      colour; sizes stay; the path colour is the only colour the callback
      never writes and never produces, so an edge is orange afterwards
      exactly when it was orange before, and every other edge has the
      theme's edge colour. */
  lemma ReconcileColours(g: Graph, isDark: bool)
    ensures var r := Reconcile(g, isDark);
            && (forall k :: k in r.nodes ==> r.nodes[k] == g.nodes[k].(color := NodeColor(isDark)))
            && (forall k :: k in r.edges ==> r.edges[k].size == g.edges[k].size)
            && (forall k :: k in r.edges ==> (r.edges[k].color == PathColor <==> g.edges[k].color == PathColor))
            && (forall k :: k in r.edges && g.edges[k].color != PathColor ==> r.edges[k].color == EdgeColor(isDark))
  {
    PathColorIsReserved(isDark);
  }

  /** Recolouring an edge for one theme and then another is recolouring it
      for the second. */
  lemma RecolorTwice(e: EdgeAttr, a: bool, b: bool)
    ensures RecolorEdge(RecolorEdge(e, a), b) == RecolorEdge(e, b)
  {
    PathColorIsReserved(a);
  }

  /** The observer as a whole: nothing happens while no renderer exists. */
  function OnThemeChange(renderer: Option<Graph>, isDark: bool): (r: Option<Graph>)
    ensures r.Some? <==> renderer.Some?
    ensures r.Some? ==> r.value.nodes.Keys == renderer.value.nodes.Keys
    ensures r.Some? ==> r.value.edges.Keys == renderer.value.edges.Keys
  {
    match renderer
    case None => None
    case Some(g) => Some(Reconcile(g, isDark))
  }

  lemma SameNodes(m1: map<string, NodeAttr>, m2: map<string, NodeAttr>)
    requires m1.Keys == m2.Keys
    requires forall k :: k in m1 ==> m1[k] == m2[k]
    ensures m1 == m2
  {
  }

  lemma SameEdges(m1: map<UPair, EdgeAttr>, m2: map<UPair, EdgeAttr>)
    requires m1.Keys == m2.Keys
    requires forall k :: k in m1 ==> m1[k] == m2[k]
    ensures m1 == m2
  {
  }

  /** Only the last theme counts: recolouring for one theme and then for
      another is recolouring for the second alone. */
  lemma LastThemeWins(g: Graph, a: bool, b: bool)
    ensures Reconcile(Reconcile(g, a), b) == Reconcile(g, b)
  {
    var once := Reconcile(g, a);
    var twice := Reconcile(once, b);
    var direct := Reconcile(g, b);
    forall k | k in twice.nodes
      ensures twice.nodes[k] == direct.nodes[k]
    {
    }
    forall k | k in twice.edges
      ensures twice.edges[k] == direct.edges[k]
    {
      RecolorTwice(g.edges[k], a, b);
    }
    SameNodes(twice.nodes, direct.nodes);
    SameEdges(twice.edges, direct.edges);
  }

  /** Recolouring twice for the same theme changes nothing more. */
  lemma ReconcileIdempotent(g: Graph, isDark: bool)
    ensures Reconcile(Reconcile(g, isDark), isDark) == Reconcile(g, isDark)
  {
    LastThemeWins(g, isDark, isDark);
  }

  /** A run of theme changes, each handled by one callback. */
  function ReconcileAll(g: Graph, themes: seq<bool>): Graph
    decreases |themes|
  {
    if |themes| == 0 then g else ReconcileAll(Reconcile(g, themes[0]), themes[1..])
  }

  /** However many times the theme flips, the graph ends as if the final
      theme had been applied once. */
  lemma {:induction false} ReconcileAllIsLast(g: Graph, themes: seq<bool>)
    requires |themes| > 0
    ensures ReconcileAll(g, themes) == Reconcile(g, themes[|themes| - 1])
    decreases |themes|
  {
    if |themes| > 1 {
      var rest := themes[1..];
      ReconcileAllIsLast(Reconcile(g, themes[0]), rest);
      assert rest[|rest| - 1] == themes[|themes| - 1];
      LastThemeWins(g, themes[0], themes[|themes| - 1]);
    }
  }

  /** A highlighted path edge keeps its colour and its width across any
      sequence of theme changes. */
  lemma PathSurvivesFlips(g: Graph, themes: seq<bool>, k: UPair)
    requires k in g.edges && g.edges[k] == PathEdge
    ensures k in ReconcileAll(g, themes).edges && ReconcileAll(g, themes).edges[k] == PathEdge
  {
    if |themes| > 0 {
      ReconcileAllIsLast(g, themes);
    }
  }

  /** The overlay takes precedence over the theme: changing the theme after
      a path was drawn gives the edges the path would have had if it had
      been drawn under the new theme. */
  lemma ThemeKeepsOverlay(g: Graph, path: seq<int>, d1: bool, d2: bool)
    requires WellFormed(g)
    ensures Reconcile(ApplyPath(g, path, d1), d2).edges == ApplyPath(g, path, d2).edges
  {
    var drawn := ApplyPath(g, path, d1);
    var r := Reconcile(drawn, d2);
    var steps := Drawable(path, g.nodes.Keys);
    ApplyPathShape(g, path, d1);
    ApplyPathShape(g, path, d2);
    forall k | k in r.edges
      ensures r.edges[k] == (if k in steps then PathEdge else NormalEdge(d2))
    {
      RecolorStyle(k in steps, d1, d2);
    }
    SameStyles(r.edges, ApplyPath(g, path, d2).edges, steps, d2);
  }

  /** A path edge stays as it is and a normal edge takes the new theme. */
  lemma RecolorStyle(onPath: bool, d1: bool, d2: bool)
    ensures RecolorEdge(if onPath then PathEdge else NormalEdge(d1), d2) ==
              (if onPath then PathEdge else NormalEdge(d2))
  {
    PathColorIsReserved(d1);
  }

  /** Changing the theme after a load gives the graph a load under the new
      theme would have built. */
  lemma ThemeMatchesFreshLoad(cities: seq<RawCity>, edges: seq<RawEdge>, a: bool, b: bool)
    requires DistinctIds(cities)
    ensures Reconcile(BuildGraph(cities, edges, a).value.graph, b) == BuildGraph(cities, edges, b).value.graph
  {
    var ga := BuildGraph(cities, edges, a).value.graph;
    var gb := BuildGraph(cities, edges, b).value.graph;
    var r := Reconcile(ga, b);
    BuildGraphColours(cities, edges, a);
    BuildGraphColours(cities, edges, b);
    PathColorIsReserved(a);
    forall k | k in r.nodes
      ensures r.nodes[k] == gb.nodes[k]
    {
      var i :| 0 <= i < |cities| && k == IdKey(cities[i].id);
      assert ga.nodes[k] == CityNode(cities[i], NodeColor(a));
    }
    forall k | k in r.edges
      ensures r.edges[k] == gb.edges[k]
    {
      assert r.edges[k] == RecolorEdge(NormalEdge(a), b);
    }
    SameNodes(r.nodes, gb.nodes);
    SameEdges(r.edges, gb.edges);
  }
}
