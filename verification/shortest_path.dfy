/** The shortest-path overlay (src/hooks/useShortestPath.ts): on a successful
    reply every edge is first reset to the theme's normal look, then each
    consecutive pair of the returned path is painted orange at size 2; a
    pair with no edge between two existing nodes gets a new edge, which
    stays in the graph afterwards. A pair with a city that is not a node
    makes the edge lookup throw, which ends the loop there. */
module ShortestPath {
  import opened Wrappers
  import opened Text
  import opened RenderGraph
  import opened GraphInitialization

  /** `graph.forEachEdge(...)` setting the normal colour and size 0.5 on
      every edge. */
  function ResetEdges(g: Graph, isDark: bool): (r: Graph)
    ensures r.nodes == g.nodes
    ensures r.edges.Keys == g.edges.Keys
    ensures forall k :: k in r.edges ==> r.edges[k] == NormalEdge(isDark)
  {
    g.(edges := map k | k in g.edges :: NormalEdge(isDark))
  }

  /** The pair of node keys at step `i` of a path of city ids. */
  function Step(path: seq<int>, i: int): UPair
    requires 0 <= i < |path| - 1
  {
    Pair(IdKey(path[i]), IdKey(path[i + 1]))
  }

  /** Both ends of step `i` are nodes. */
  predicate Drawn(path: seq<int>, i: int, nodes: set<string>)
    requires 0 <= i < |path| - 1
  {
    IdKey(path[i]) in nodes && IdKey(path[i + 1]) in nodes
  }

  /** How many iterations of the loop complete. `graph.edge(a, b)` throws
      when `a` or `b` is not a node, which ends the whole pass in the
      `catch`, so the loop stops at the first step with a missing end. */
  function Reached(path: seq<int>, nodes: set<string>): (n: nat)
    ensures n == 0 || n <= |path| - 1
    decreases |path|
  {
    if |path| < 2 || !Drawn(path, 0, nodes) then 0 else 1 + Reached(path[1..], nodes)
  }

  /** The steps of a path that get painted: those before the first step
      with an end that is not a node. */
  function Drawable(path: seq<int>, nodes: set<string>): set<UPair> {
    set i | 0 <= i < Reached(path, nodes) :: Step(path, i)
  }

  /** One iteration of the loop. A missing end makes `graph.edge` throw
      (`None`). Otherwise an existing edge between the pair is painted, and
      a missing one is added in the path style; both leave the path style
      on the pair. The `hasNode` guard and the `catch` around `addEdge` are
      never needed once `graph.edge` has returned. */
  function HighlightPair(g: Graph, a: string, b: string): (r: Option<Graph>)
    ensures r.Some? <==> a in g.nodes && b in g.nodes
    ensures r.Some? ==> r.value.nodes == g.nodes
    ensures r.Some? ==> r.value.edges.Keys == g.edges.Keys + {Pair(a, b)}
    ensures r.Some? ==>
              forall k :: k in r.value.edges ==> r.value.edges[k] == (if k == Pair(a, b) then PathEdge else g.edges[k])
  {
    if a !in g.nodes || b !in g.nodes then None
    else Some(g.(edges := g.edges[Pair(a, b) := PathEdge]))
  }

  /** The loop `for (i = 0; i < path.length - 1; i++)` over the string keys
      of consecutive path ids, up to the first step that throws; what was
      painted before the throw stays painted. */
  function Highlight(g: Graph, path: seq<int>): (r: Graph)
    ensures r.nodes == g.nodes
    decreases |path|
  {
    if |path| < 2 then g
    else match HighlightPair(g, IdKey(path[0]), IdKey(path[1]))
      case None => g
      case Some(g') => Highlight(g', path[1..])
  }

  lemma StepOfTail(path: seq<int>, i: int)
    requires 1 <= i < |path| - 1
    ensures Step(path[1..], i - 1) == Step(path, i)
    ensures forall nodes :: Drawn(path[1..], i - 1, nodes) == Drawn(path, i, nodes)
  {
    assert path[1..][i - 1] == path[i];
    assert path[1..][i] == path[i + 1];
  }

  /** The loop completes exactly the steps before the first step with an
      end that is not a node. */
  lemma {:induction false} ReachedIsFirstMissing(path: seq<int>, nodes: set<string>)
    ensures forall i :: 0 <= i < Reached(path, nodes) ==> Drawn(path, i, nodes)
    ensures Reached(path, nodes) < |path| - 1 ==> !Drawn(path, Reached(path, nodes), nodes)
    decreases |path|
  {
    if |path| >= 2 && Drawn(path, 0, nodes) {
      var rest := path[1..];
      ReachedIsFirstMissing(rest, nodes);
      forall i | 1 <= i < Reached(path, nodes)
        ensures Drawn(path, i, nodes)
      {
        StepOfTail(path, i);
      }
      if Reached(path, nodes) < |path| - 1 {
        StepOfTail(path, Reached(path, nodes));
      }
    }
  }

  /** When every end of the path is a node, every step is painted. */
  lemma AllNodesAllSteps(path: seq<int>, nodes: set<string>)
    requires forall i :: 0 <= i < |path| ==> IdKey(path[i]) in nodes
    ensures Drawable(path, nodes) == set i | 0 <= i < |path| - 1 :: Step(path, i)
  {
    ReachedIsFirstMissing(path, nodes);
  }

  /** The painted steps of the tail are painted steps of the path when the
      first step is painted. */
  lemma DrawableTailIn(path: seq<int>, nodes: set<string>)
    requires |path| >= 2 && Drawn(path, 0, nodes)
    ensures Drawable(path[1..], nodes) <= Drawable(path, nodes)
  {
    var rest := path[1..];
    var n, nr := Reached(path, nodes), Reached(rest, nodes);
    assert n == 1 + nr;
    forall k | k in Drawable(rest, nodes)
      ensures k in Drawable(path, nodes)
    {
      var i :| 0 <= i < nr && k == Step(rest, i);
      StepOfTail(path, i + 1);
      assert 0 <= i + 1 < n && k == Step(path, i + 1);
    }
  }

  /** Every painted step of the path other than the first is a painted
      step of the tail. */
  lemma DrawableInTail(path: seq<int>, nodes: set<string>)
    requires |path| >= 2 && Drawn(path, 0, nodes)
    ensures Drawable(path, nodes) <= {Step(path, 0)} + Drawable(path[1..], nodes)
  {
    var rest := path[1..];
    var n, nr := Reached(path, nodes), Reached(rest, nodes);
    assert n == 1 + nr;
    forall k | k in Drawable(path, nodes)
      ensures k in Drawable(rest, nodes) || k == Step(path, 0)
    {
      var i :| 0 <= i < n && k == Step(path, i);
      if i > 0 {
        StepOfTail(path, i);
        assert 0 <= i - 1 < nr && k == Step(rest, i - 1);
      }
    }
  }

  /** Taking the first step off a path. */
  lemma DrawableCons(path: seq<int>, nodes: set<string>)
    requires |path| >= 2
    ensures Drawable(path, nodes) ==
              if Drawn(path, 0, nodes) then {Step(path, 0)} + Drawable(path[1..], nodes) else {}
  {
    if Drawn(path, 0, nodes) {
      DrawableTailIn(path, nodes);
      DrawableInTail(path, nodes);
      assert 0 < Reached(path, nodes);
    }
  }

  /** A path of fewer than two cities has no steps. */
  lemma DrawableShort(path: seq<int>, nodes: set<string>)
    requires |path| < 2
    ensures Drawable(path, nodes) == {}
  {
  }

  /** The overlay adds exactly the painted steps that were not edges yet. */
  lemma {:induction false} HighlightKeys(g: Graph, path: seq<int>)
    ensures Highlight(g, path).edges.Keys == g.edges.Keys + Drawable(path, g.nodes.Keys)
    decreases |path|
  {
    if |path| < 2 {
      DrawableShort(path, g.nodes.Keys);
    } else {
      DrawableCons(path, g.nodes.Keys);
      var step := HighlightPair(g, IdKey(path[0]), IdKey(path[1]));
      if step.Some? {
        HighlightKeys(step.value, path[1..]);
      }
    }
  }

  /** A painted pair keeps the graph well formed. */
  lemma HighlightPairWellFormed(g: Graph, a: string, b: string)
    requires WellFormed(g) && a in g.nodes && b in g.nodes
    ensures WellFormed(HighlightPair(g, a, b).value)
  {
    var r := HighlightPair(g, a, b).value;
    forall k | k in r.edges
      ensures 1 <= |k.ends| <= 2 && k.ends <= r.nodes.Keys
    {
      if k !in g.edges {
        assert k == Pair(a, b);
      }
    }
  }

  /** The overlay keeps a well-formed graph well formed. */
  lemma {:induction false} HighlightWellFormed(g: Graph, path: seq<int>)
    requires WellFormed(g)
    ensures WellFormed(Highlight(g, path))
    decreases |path|
  {
    if |path| >= 2 {
      var a, b := IdKey(path[0]), IdKey(path[1]);
      if a in g.nodes && b in g.nodes {
        HighlightPairWellFormed(g, a, b);
        HighlightWellFormed(HighlightPair(g, a, b).value, path[1..]);
      }
    }
  }

  /** After the overlay, exactly the painted steps carry the path style and
      every other edge keeps what it had. */
  lemma {:induction false} HighlightStyles(g: Graph, path: seq<int>)
    ensures forall k :: k in Highlight(g, path).edges ==>
              if k in Drawable(path, g.nodes.Keys) then Highlight(g, path).edges[k] == PathEdge
              else k in g.edges && Highlight(g, path).edges[k] == g.edges[k]
    decreases |path|
  {
    if |path| < 2 {
      DrawableShort(path, g.nodes.Keys);
    } else {
      var a, b := IdKey(path[0]), IdKey(path[1]);
      DrawableCons(path, g.nodes.Keys);
      if a in g.nodes && b in g.nodes {
        var g' := HighlightPair(g, a, b).value;
        var r := Highlight(g', path[1..]);
        var tail := Drawable(path[1..], g'.nodes.Keys);
        HighlightStyles(g', path[1..]);
        HighlightKeys(g', path[1..]);
        assert Drawable(path, g.nodes.Keys) == {Pair(a, b)} + tail;
        forall k | k in r.edges
          ensures if k in {Pair(a, b)} + tail then r.edges[k] == PathEdge
                  else k in g.edges && r.edges[k] == g.edges[k]
        {
          if k !in tail {
            assert k in g'.edges && r.edges[k] == g'.edges[k];
          }
        }
        assert Highlight(g, path) == r;
      }
    }
  }

  /** The whole redraw on a path: reset, then paint the steps. */
  function ApplyPath(g: Graph, path: seq<int>, isDark: bool): (r: Graph)
    ensures r.nodes == g.nodes
  {
    Highlight(ResetEdges(g, isDark), path)
  }

  /** After a path is applied to a well-formed graph the nodes are as they
      were, the edges are the old ones plus the drawable steps, the steps
      carry the path style and every other edge the normal style of the
      theme. */
  lemma ApplyPathShape(g: Graph, path: seq<int>, isDark: bool)
    requires WellFormed(g)
    ensures var r := ApplyPath(g, path, isDark);
            && r.nodes == g.nodes
            && r.edges.Keys == g.edges.Keys + Drawable(path, g.nodes.Keys)
            && WellFormed(r)
            && (forall k :: k in r.edges ==>
                  r.edges[k] == (if k in Drawable(path, g.nodes.Keys) then PathEdge else NormalEdge(isDark)))
  {
    var reset := ResetEdges(g, isDark);
    assert WellFormed(reset);
    HighlightKeys(reset, path);
    HighlightWellFormed(reset, path);
    HighlightStyles(reset, path);
  }

  /** An edge is orange after the overlay exactly when it is a step of the
      path; no theme colour is the path colour. */
  lemma PathColorMarksSteps(g: Graph, path: seq<int>, isDark: bool, k: UPair)
    requires WellFormed(g) && k in ApplyPath(g, path, isDark).edges
    ensures ApplyPath(g, path, isDark).edges[k].color == PathColor <==> k in Drawable(path, g.nodes.Keys)
  {
    ApplyPathShape(g, path, isDark);
    PathColorIsReserved(isDark);
  }

  /** A second query leaves no trace of the first one's colours: only its
      added edges remain, in the normal style. */
  lemma NewPathClearsOldPath(g: Graph, p1: seq<int>, d1: bool, p2: seq<int>, d2: bool)
    requires WellFormed(g)
    ensures var r := ApplyPath(ApplyPath(g, p1, d1), p2, d2);
            && r.edges.Keys == g.edges.Keys + Drawable(p1, g.nodes.Keys) + Drawable(p2, g.nodes.Keys)
            && (forall k :: k in r.edges ==>
                  r.edges[k] == (if k in Drawable(p2, g.nodes.Keys) then PathEdge else NormalEdge(d2)))
  {
    ApplyPathShape(g, p1, d1);
    ApplyPathShape(ApplyPath(g, p1, d1), p2, d2);
  }

  /** Asking for the same path twice gives the same picture as asking once. */
  lemma ApplyPathIdempotent(g: Graph, path: seq<int>, isDark: bool)
    requires WellFormed(g)
    ensures ApplyPath(ApplyPath(g, path, isDark), path, isDark) == ApplyPath(g, path, isDark)
  {
    var once := ApplyPath(g, path, isDark);
    var twice := ApplyPath(once, path, isDark);
    ApplyPathShape(g, path, isDark);
    ApplyPathShape(once, path, isDark);
    assert once.nodes == g.nodes;
    SameStyles(twice.edges, once.edges, Drawable(path, g.nodes.Keys), isDark);
  }

  /** Two edge maps on the same keys that style the same steps as path
      edges and the rest normally are equal. */
  lemma SameStyles(m1: map<UPair, EdgeAttr>, m2: map<UPair, EdgeAttr>, steps: set<UPair>, isDark: bool)
    requires m1.Keys == m2.Keys
    requires forall k :: k in m1 ==> m1[k] == (if k in steps then PathEdge else NormalEdge(isDark))
    requires forall k :: k in m2 ==> m2[k] == (if k in steps then PathEdge else NormalEdge(isDark))
    ensures m1 == m2
  {
  }

  /** A path of at most one city only resets the edges. */
  lemma ShortPathOnlyResets(g: Graph, path: seq<int>, isDark: bool)
    requires |path| < 2
    ensures ApplyPath(g, path, isDark) == ResetEdges(g, isDark)
  {
  }

  /** `findShortestPath`: with no renderer nothing happens; a failed or
      non-ok request is caught before the graph is touched; an ok reply
      resets the edges, and then paints the path, or, when the reply has no
      `path`, throws on reading its length with only the reset done. */
  function FindShortestPath(renderer: Option<Graph>, reply: Response<seq<int>>, isDark: bool): (r: Option<Graph>)
    ensures r.Some? <==> renderer.Some?
    ensures reply.Unreachable? || !IsOk(reply.status) ==> r == renderer
    ensures renderer.Some? && reply.Response? && IsOk(reply.status) ==>
              && r.value.nodes == renderer.value.nodes
              && (reply.body.None? ==> r.value == ResetEdges(renderer.value, isDark))
              && (reply.body.Some? ==> r.value == ApplyPath(renderer.value, reply.body.value, isDark))
  {
    match renderer
    case None => None
    case Some(g) =>
      match reply
      case Unreachable => renderer
      case Response(status, body) =>
        if !IsOk(status) then renderer
        else match body
          case None => Some(ResetEdges(g, isDark))
          case Some(path) => Some(ApplyPath(g, path, isDark))
  }

  /** An ok reply without a path still clears an earlier overlay. */
  lemma MissingPathStillResets(g: Graph, status: int, isDark: bool)
    requires IsOk(status)
    ensures var r := FindShortestPath(Some(g), Response(status, None), isDark).value;
            && r.edges.Keys == g.edges.Keys
            && forall k :: k in r.edges ==> r.edges[k].color != PathColor
  {
    PathColorIsReserved(isDark);
  }
}
