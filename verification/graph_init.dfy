/** Loading the render graph (src/hooks/useGraphInitialization.ts): all
    cities become nodes first, then the edges whose endpoints both exist are
    inserted, a second edge on a pair being skipped. The effect runs once;
    its observable result is what it hands to the state setters, modelled
    as the final `InitState`. */
module GraphInitialization {
  import opened Wrappers
  import opened Text
  import opened CityModel
  import opened EdgeModel
  import opened RenderGraph

  /** The node attributes of a city. */
  function CityNode(c: RawCity, color: string): NodeAttr {
    NodeAttr(c.city, c.lng, c.lat, NodeSize, color)
  }

  /** The node keys of a city list. */
  function CityKeys(cities: seq<RawCity>): set<string> {
    set i | 0 <= i < |cities| :: IdKey(cities[i].id)
  }

  predicate DistinctIds(cities: seq<RawCity>) {
    forall i, j :: 0 <= i < j < |cities| ==> cities[i].id != cities[j].id
  }

  predicate Fresh(cities: seq<RawCity>, nodes: map<string, NodeAttr>) {
    forall i :: 0 <= i < |cities| ==> IdKey(cities[i].id) !in nodes
  }

  datatype InitError =
    | NoWebGL
    | ContainerNotReady
    | HttpError(status: int)
    | FetchFailed
    | DuplicateNode(key: string)

  lemma CityKeysCons(cities: seq<RawCity>)
    requires |cities| > 0
    ensures CityKeys(cities) == {IdKey(cities[0].id)} + CityKeys(cities[1..])
  {
    var rest := cities[1..];
    forall k | k in CityKeys(cities)
      ensures k in {IdKey(cities[0].id)} + CityKeys(rest)
    {
      var i :| 0 <= i < |cities| && k == IdKey(cities[i].id);
      if i > 0 {
        assert k == IdKey(rest[i - 1].id);
      }
    }
    forall k | k in CityKeys(rest)
      ensures k in CityKeys(cities)
    {
      var i :| 0 <= i < |rest| && k == IdKey(rest[i].id);
      assert k == IdKey(cities[i + 1].id);
    }
  }

  /** Adding one node under a new key keeps the edges and every other node. */
  lemma PutNode(g: Graph, key: string, v: NodeAttr)
    ensures var g' := g.(nodes := g.nodes[key := v]);
            && g'.edges == g.edges
            && g'.nodes.Keys == g.nodes.Keys + {key}
            && g'.nodes[key] == v
            && (key !in g.nodes ==> forall k :: k in g.nodes ==> g'.nodes[k] == g.nodes[k])
  {
  }

  /** `cities.forEach(city => graph.addNode(...))`: adds every city under the
      string form of its id. Adding a key twice throws, which nothing catches,
      so the whole load fails on a repeated id. */
  function AddNodes(g: Graph, cities: seq<RawCity>, color: string): (r: Result<Graph, InitError>)
    ensures r.Failure? ==> r.error.DuplicateNode? && r.error.key in CityKeys(cities)
    ensures r.Success? ==>
              && r.value.edges == g.edges
              && r.value.nodes.Keys == g.nodes.Keys + CityKeys(cities)
              && (forall k :: k in g.nodes ==> r.value.nodes[k] == g.nodes[k])
    decreases |cities|
  {
    if |cities| == 0 then Success(g)
    else
      var key := IdKey(cities[0].id);
      CityKeysCons(cities);
      if key in g.nodes then Failure(DuplicateNode(key))
      else
        var v := CityNode(cities[0], color);
        PutNode(g, key, v);
        AddNodes(g.(nodes := g.nodes[key := v]), cities[1..], color)
  }

  /** Taking the first city off the list: the rest is fresh for the graph
      with that city added and has distinct ids exactly when the whole list
      is fresh and distinct. The reverse direction needs `IdKey` to be
      injective. */
  lemma FreshCons(cities: seq<RawCity>, nodes: map<string, NodeAttr>, v: NodeAttr)
    requires |cities| > 0 && IdKey(cities[0].id) !in nodes
    ensures Fresh(cities[1..], nodes[IdKey(cities[0].id) := v]) && DistinctIds(cities[1..])
            <==> Fresh(cities, nodes) && DistinctIds(cities)
  {
    var key := IdKey(cities[0].id);
    var rest := cities[1..];
    var nodes' := nodes[key := v];
    if Fresh(rest, nodes') && DistinctIds(rest) {
      forall i | 0 <= i < |cities|
        ensures IdKey(cities[i].id) !in nodes
      {
        if i > 0 {
          assert cities[i] == rest[i - 1];
        }
      }
      forall i, j | 0 <= i < j < |cities|
        ensures cities[i].id != cities[j].id
      {
        assert cities[j] == rest[j - 1];
        if i > 0 {
          assert cities[i] == rest[i - 1];
        } else {
          assert IdKey(rest[j - 1].id) !in nodes';
        }
      }
    }
    if Fresh(cities, nodes) && DistinctIds(cities) {
      forall i | 0 <= i < |rest|
        ensures IdKey(rest[i].id) !in nodes'
      {
        assert rest[i] == cities[i + 1];
        IdKeyInjective(rest[i].id, cities[0].id);
      }
      forall i, j | 0 <= i < j < |rest|
        ensures rest[i].id != rest[j].id
      {
        assert rest[i] == cities[i + 1];
        assert rest[j] == cities[j + 1];
      }
    }
  }

  /** The load of the nodes goes through exactly when no city id is already
      a node and no id repeats. */
  lemma {:induction false} AddNodesSucceeds(g: Graph, cities: seq<RawCity>, color: string)
    ensures AddNodes(g, cities, color).Success? <==> Fresh(cities, g.nodes) && DistinctIds(cities)
    decreases |cities|
  {
    if |cities| > 0 {
      var c := cities[0];
      var key := IdKey(c.id);
      if key !in g.nodes {
        var g' := g.(nodes := g.nodes[key := CityNode(c, color)]);
        AddNodesSucceeds(g', cities[1..], color);
        FreshCons(cities, g.nodes, CityNode(c, color));
      } else {
        assert !Fresh(cities, g.nodes);
      }
    }
  }

  /** After a successful load every city's node carries that city's label,
      position and the theme colour. */
  lemma {:induction false} AddNodesAttributes(g: Graph, cities: seq<RawCity>, color: string)
    requires AddNodes(g, cities, color).Success?
    ensures forall i :: 0 <= i < |cities| ==>
              AddNodes(g, cities, color).value.nodes[IdKey(cities[i].id)] == CityNode(cities[i], color)
    decreases |cities|
  {
    if |cities| > 0 {
      var key := IdKey(cities[0].id);
      var g' := g.(nodes := g.nodes[key := CityNode(cities[0], color)]);
      PutNode(g, key, CityNode(cities[0], color));
      AddNodesAttributes(g', cities[1..], color);
      forall i | 1 <= i < |cities|
        ensures AddNodes(g, cities, color).value.nodes[IdKey(cities[i].id)] == CityNode(cities[i], color)
      {
        assert cities[1..][i - 1] == cities[i];
      }
    }
  }

  /** The key an edge record would be stored under. */
  function EdgeKey(e: RawEdge): UPair {
    Pair(IdKey(e.source), IdKey(e.target))
  }

  /** Both endpoints of the edge record are nodes. */
  predicate Insertable(e: RawEdge, nodes: set<string>) {
    IdKey(e.source) in nodes && IdKey(e.target) in nodes
  }

  /** Keys of the edges of a list whose endpoints are both nodes. */
  function InsertablePairs(edges: seq<RawEdge>, nodes: set<string>): set<UPair> {
    set i | 0 <= i < |edges| && Insertable(edges[i], nodes) :: EdgeKey(edges[i])
  }

  lemma InsertablePairsCons(edges: seq<RawEdge>, nodes: set<string>)
    requires |edges| > 0
    ensures InsertablePairs(edges, nodes) ==
              (if Insertable(edges[0], nodes) then {EdgeKey(edges[0])} else {}) + InsertablePairs(edges[1..], nodes)
  {
    var rest := edges[1..];
    forall k | k in InsertablePairs(rest, nodes)
      ensures k in InsertablePairs(edges, nodes)
    {
      var i :| 0 <= i < |rest| && Insertable(rest[i], nodes) && k == EdgeKey(rest[i]);
      assert rest[i] == edges[i + 1];
    }
    forall k | k in InsertablePairs(edges, nodes)
      ensures k in InsertablePairs(rest, nodes) || (Insertable(edges[0], nodes) && k == EdgeKey(edges[0]))
    {
      var i :| 0 <= i < |edges| && Insertable(edges[i], nodes) && k == EdgeKey(edges[i]);
      if i > 0 {
        assert edges[i] == rest[i - 1];
      }
    }
  }

  /** Adding one edge under a new key keeps the nodes and every other edge. */
  lemma PutEdge(g: Graph, key: UPair, v: EdgeAttr)
    requires key !in g.edges
    ensures var g' := g.(edges := g.edges[key := v]);
            && g'.nodes == g.nodes
            && g'.edges.Keys == g.edges.Keys + {key}
            && |g'.edges| == |g.edges| + 1
            && (forall k :: k in g'.edges ==> g'.edges[k] == (if k in g.edges then g.edges[k] else v))
  {
  }

  /** One `addEdge` attempt inside its try/catch: whether the edge went in,
      and the graph afterwards. */
  function InsertEdge(g: Graph, e: RawEdge, color: string): (r: (bool, Graph))
    ensures r.1.nodes == g.nodes
    ensures r.0 <==> Insertable(e, g.nodes.Keys) && EdgeKey(e) !in g.edges
    ensures r.1.edges.Keys == g.edges.Keys + (if Insertable(e, g.nodes.Keys) then {EdgeKey(e)} else {})
    ensures |r.1.edges| == |g.edges| + (if r.0 then 1 else 0)
    ensures forall k :: k in r.1.edges ==>
              r.1.edges[k] == (if k in g.edges then g.edges[k] else EdgeAttr(NormalEdgeSize, color))
  {
    if Insertable(e, g.nodes.Keys) && EdgeKey(e) !in g.edges then
      PutEdge(g, EdgeKey(e), EdgeAttr(NormalEdgeSize, color));
      (true, g.(edges := g.edges[EdgeKey(e) := EdgeAttr(NormalEdgeSize, color)]))
    else
      (false, g)
  }

  /** The graph after the edge pass and the two counters it keeps. */
  datatype Loaded = Loaded(graph: Graph, added: nat, skipped: nat)

  /** `edges.forEach(...)`: an edge is inserted only when both endpoint
      nodes exist; one on a pair that already has an edge makes `addEdge`
      throw, which is caught and counted as skipped. Nodes are untouched. */
  function AddEdges(g: Graph, edges: seq<RawEdge>, color: string): (r: Loaded)
    ensures r.graph.nodes == g.nodes
    ensures r.added + r.skipped == |edges|
    ensures |r.graph.edges| == |g.edges| + r.added
    ensures forall k :: k in r.graph.edges ==>
              r.graph.edges[k] == (if k in g.edges then g.edges[k] else EdgeAttr(NormalEdgeSize, color))
    decreases |edges|
  {
    if |edges| == 0 then Loaded(g, 0, 0)
    else
      var step := InsertEdge(g, edges[0], color);
      var rest := AddEdges(step.1, edges[1..], color);
      if step.0 then Loaded(rest.graph, rest.added + 1, rest.skipped)
      else Loaded(rest.graph, rest.added, rest.skipped + 1)
  }

  /** The edge pass inserts exactly the pairs of the list whose endpoints
      are both nodes. */
  lemma {:induction false} AddEdgesKeys(g: Graph, edges: seq<RawEdge>, color: string)
    ensures AddEdges(g, edges, color).graph.edges.Keys == g.edges.Keys + InsertablePairs(edges, g.nodes.Keys)
    decreases |edges|
  {
    if |edges| > 0 {
      InsertablePairsCons(edges, g.nodes.Keys);
      var g' := InsertEdge(g, edges[0], color).1;
      AddEdgesKeys(g', edges[1..], color);
      assert g'.nodes.Keys == g.nodes.Keys;
    }
  }

  lemma EdgeKeyWithin(e: RawEdge, nodes: set<string>)
    requires Insertable(e, nodes)
    ensures 1 <= |EdgeKey(e).ends| <= 2 && EdgeKey(e).ends <= nodes
  {
  }

  /** Every pair the edge pass can insert joins one or two existing nodes. */
  lemma InsertablePairsWithin(edges: seq<RawEdge>, nodes: set<string>)
    ensures forall k :: k in InsertablePairs(edges, nodes) ==> 1 <= |k.ends| <= 2 && k.ends <= nodes
  {
    forall k | k in InsertablePairs(edges, nodes)
      ensures 1 <= |k.ends| <= 2 && k.ends <= nodes
    {
      var i :| 0 <= i < |edges| && Insertable(edges[i], nodes) && k == EdgeKey(edges[i]);
      EdgeKeyWithin(edges[i], nodes);
    }
  }

  /** All nodes, then all edges, under the theme colours. */
  function BuildGraph(cities: seq<RawCity>, edges: seq<RawEdge>, isDark: bool): (r: Result<Loaded, InitError>)
    ensures r.Success? <==> DistinctIds(cities)
    ensures r.Failure? ==> r.error.DuplicateNode?
    ensures r.Success? ==>
              var g := r.value.graph;
              && g.nodes.Keys == CityKeys(cities)
              && g.edges.Keys == InsertablePairs(edges, CityKeys(cities))
              && r.value.added + r.value.skipped == |edges|
              && r.value.added == |g.edges|
              && WellFormed(g)
  {
    var nodes := AddNodes(EmptyGraph, cities, NodeColor(isDark));
    AddNodesSucceeds(EmptyGraph, cities, NodeColor(isDark));
    assert Fresh(cities, EmptyGraph.nodes);
    if nodes.Failure? then Failure(nodes.error)
    else
      var g := nodes.value;
      assert g.edges == map[] && g.nodes.Keys == CityKeys(cities);
      var loaded := AddEdges(g, edges, EdgeColor(isDark));
      AddEdgesKeys(g, edges, EdgeColor(isDark));
      InsertablePairsWithin(edges, g.nodes.Keys);
      assert loaded.graph.nodes == g.nodes;
      assert loaded.graph.edges.Keys == InsertablePairs(edges, CityKeys(cities));
      Success(loaded)
  }

  /** A fresh load paints every node and every edge in the current theme's
      colours, each node with its own city's label and position. */
  lemma BuildGraphColours(cities: seq<RawCity>, edges: seq<RawEdge>, isDark: bool)
    requires DistinctIds(cities)
    ensures var g := BuildGraph(cities, edges, isDark).value.graph;
            && (forall i :: 0 <= i < |cities| ==> g.nodes[IdKey(cities[i].id)] == CityNode(cities[i], NodeColor(isDark)))
            && (forall k :: k in g.edges ==> g.edges[k] == NormalEdge(isDark))
  {
    AddNodesSucceeds(EmptyGraph, cities, NodeColor(isDark));
    AddNodesAttributes(EmptyGraph, cities, NodeColor(isDark));
    var nodes := AddNodes(EmptyGraph, cities, NodeColor(isDark)).value;
    assert nodes.edges == map[];
    var loaded := AddEdges(nodes, edges, EdgeColor(isDark));
    assert BuildGraph(cities, edges, isDark).value == loaded;
  }

  /** The reported edge count is the number of distinct unordered pairs in
      the edge list whose endpoints are both cities. */
  lemma EdgeCountIsDistinctPairs(cities: seq<RawCity>, edges: seq<RawEdge>, isDark: bool)
    requires DistinctIds(cities)
    ensures BuildGraph(cities, edges, isDark).value.added == |InsertablePairs(edges, CityKeys(cities))|
  {
    var g := BuildGraph(cities, edges, isDark).value.graph;
    assert |g.edges| == |g.edges.Keys|;
  }

  /** A fetch reply: the request failed, or a status and the decoded body
      (`None` when the expected key is absent). */
  datatype Response<T> = Unreachable | Response(status: int, body: Option<T>)

  predicate IsOk(status: int) {
    200 <= status < 300
  }

  /** What the effect leaves behind: the loading flag, the error message,
      the city list handed on, the graph mounted in the renderer and the
      two counters. */
  datatype InitState = InitState(
    loading: bool,
    error: Option<InitError>,
    cities: Option<seq<RawCity>>,
    graph: Option<Graph>,
    nodeCount: Option<nat>,
    edgeCount: Option<nat>)

  /** Before the effect runs: loading, no error, nothing set. */
  const Initial := InitState(true, None, None, None, None, None)

  function Fail(cities: Option<seq<RawCity>>, e: InitError): InitState {
    Initial.(loading := false, error := Some(e), cities := cities)
  }

  /** The edge list the effect goes on to insert: only an ok response whose
      body carries an `edges` key is used. */
  function EdgeList(reply: Response<seq<RawEdge>>): Option<seq<RawEdge>> {
    if reply.Response? && IsOk(reply.status) && reply.body.Some? then reply.body else None
  }

  /** The whole effect with the container present and the component still
      mounted throughout. The nodes go in before the edges are fetched, so a
      repeated id fails the load whatever the edges reply; a failed edges
      request throws, while an edges reply that is not ok or has no list
      still mounts the node-only graph. */
  function Initialize(webgl: bool, containerReady: bool, citiesReply: Response<seq<RawCity>>,
                      edgesReply: Response<seq<RawEdge>>, isDark: bool): (s: InitState)
    ensures !webgl ==> s == Fail(None, NoWebGL)
    ensures s.loading <==>
              webgl && containerReady && citiesReply.Response? && IsOk(citiesReply.status) &&
              (citiesReply.body.None? || |citiesReply.body.value| == 0)
    ensures s.loading ==> s == Initial
    ensures s.graph.Some? ==>
              && s.error.None?
              && s.cities.Some?
              && s.nodeCount == Some(|s.graph.value.nodes|)
              && s.graph.value.nodes.Keys == CityKeys(s.cities.value)
              && WellFormed(s.graph.value)
    ensures s.graph.Some? && EdgeList(edgesReply).None? ==>
              s.edgeCount.None? && s.graph.value.edges == map[]
    ensures s.edgeCount.Some? ==> s.graph.Some? && s.edgeCount == Some(|s.graph.value.edges|)
    ensures webgl && !containerReady ==> s == Fail(None, ContainerNotReady)
    ensures webgl && containerReady && citiesReply.Unreachable? ==> s == Fail(None, FetchFailed)
    ensures webgl && containerReady && citiesReply.Response? && !IsOk(citiesReply.status) ==>
              s == Fail(None, HttpError(citiesReply.status))
    ensures webgl && containerReady && citiesReply.Response? && IsOk(citiesReply.status) &&
            citiesReply.body.Some? && |citiesReply.body.value| > 0 ==>
              var cities := citiesReply.body.value;
              && s.cities == Some(cities)
              && (!DistinctIds(cities) ==>
                    && s.error.Some?
                    && s == Fail(Some(cities), s.error.value)
                    && s.error.value.DuplicateNode?
                    && s.error.value.key in CityKeys(cities))
              && (DistinctIds(cities) && edgesReply.Unreachable? ==> s == Fail(Some(cities), FetchFailed))
              && (DistinctIds(cities) && edgesReply.Response? ==>
                    && !s.loading && s.error.None?
                    && s.graph == Some(BuildGraph(cities, EdgeList(edgesReply).GetOr([]), isDark).value.graph)
                    && s.graph.value.edges.Keys == InsertablePairs(EdgeList(edgesReply).GetOr([]), CityKeys(cities))
                    && s.edgeCount == (if EdgeList(edgesReply).Some? then Some(|s.graph.value.edges|) else None))
  {
    if !webgl then Fail(None, NoWebGL)
    else if !containerReady then Fail(None, ContainerNotReady)
    else match citiesReply
      case Unreachable => Fail(None, FetchFailed)
      case Response(status, body) =>
        if !IsOk(status) then Fail(None, HttpError(status))
        else if body.None? || |body.value| == 0 then Initial
        else
          var cities := body.value;
          var edges := EdgeList(edgesReply);
          match BuildGraph(cities, edges.GetOr([]), isDark)
          case Failure(e) => Fail(Some(cities), e)
          case Success(loaded) =>
            if edgesReply.Unreachable? then Fail(Some(cities), FetchFailed)
            else
              var g := loaded.graph;
              assert edges.None? ==> g.edges.Keys == {};
              InitState(false, None, Some(cities), Some(g), Some(|g.nodes|),
                        if edges.Some? then Some(|g.edges|) else None)
  }

  /** A failed edges response is not fatal: whatever the theme and whatever
      the body of a reply that is not ok, the node-only graph is mounted,
      loading ends, no error is shown and no edge count is reported. */
  lemma EdgeFailureKeepsNodes(citiesReply: Response<seq<RawCity>>, status: int,
                              body: Option<seq<RawEdge>>, isDark: bool)
    requires citiesReply.Response? && IsOk(citiesReply.status) && citiesReply.body.Some?
    requires |citiesReply.body.value| > 0 && DistinctIds(citiesReply.body.value)
    requires !IsOk(status)
    ensures var s := Initialize(true, true, citiesReply, Response(status, body), isDark);
            && !s.loading && s.error.None? && s.graph.Some?
            && s.graph.value.nodes.Keys == CityKeys(citiesReply.body.value)
            && s.graph.value.edges == map[]
            && s.edgeCount.None?
  {
  }
}
