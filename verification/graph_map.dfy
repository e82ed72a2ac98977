/** The map view of the layered client
    (src/presentation/components/GraphMap.jsx): the distance-slider filter,
    its composition with the zoom filter, and the theme- and zoom-dependent
    styling of edges and city markers. */
module GraphMap {
  import opened Wrappers
  import opened Seqs
  import opened CityModel
  import opened EdgeModel
  import opened MapService

  /** Darker variants of the palette the light theme knows about. */
  const LightVariants: map<string, string> := map[
    "#ff6b6b" := "#dc2626",
    "#4ecdc4" := "#059669",
    "#45b7d1" := "#1d4ed8",
    "#96ceb4" := "#065f46",
    "#ffd93d" := "#d97706",
    "#6c5ce7" := "#5b21b6",
    "#fd79a8" := "#be185d",
    "#e17055" := "#ea580c"]

  const DefaultLightColor := "#374151"

  /** `adjustColorForLight`: the darker variant of a listed colour, dark grey
      for any other. */
  function AdjustColorForLight(color: string): (r: string)
    ensures color in LightVariants ==> r == LightVariants[color]
    ensures color !in LightVariants ==> r == DefaultLightColor
  {
    if color in LightVariants then LightVariants[color] else DefaultLightColor
  }

  /** None of the four colours an edge can have is a key of the light
      palette, so in the light theme every edge is drawn dark grey. */
  lemma LightThemeEdgesAreGrey(e: Edge)
    ensures AdjustColorForLight(GetColor(e)) == DefaultLightColor
  {
    assert GetColor(e) !in LightVariants;
  }

  function Min(a: real, b: real): real {
    if a <= b then a else b
  }

  /** `distanceFilteredEdges`: the slider filter, the same per-edge test as
      the zoom filter with `maxDistance` as the bound. */
  function DistanceFilteredEdges(edges: seq<Edge>, lookup: map<int, City>, maxDistance: real, gc: GreatCircle): (r: Filtered)
    ensures |r.examined| == |edges|
    ensures forall i :: 0 <= i < |edges| ==> r.examined[i] == Examine(edges[i], lookup, gc)
    ensures IsSubseq(r.visible, r.examined)
    ensures forall e :: e in r.visible <==> e in r.examined && Within(e, lookup, maxDistance, gc)
    ensures forall e :: multiset(r.visible)[e] ==
              if Within(e, lookup, maxDistance, gc) then multiset(r.examined)[e] else 0
  {
    KeepWithin(edges, lookup, maxDistance, gc)
  }

  /** Examined edges are fixed points of examination. */
  lemma MemoisedAreStable(edges: seq<Edge>, lookup: map<int, City>, gc: GreatCircle)
    ensures forall e :: e in Memoise(edges, lookup, gc) ==> Examine(e, lookup, gc) == e
  {
    var m := Memoise(edges, lookup, gc);
    forall e | e in m
      ensures Examine(e, lookup, gc) == e
    {
      var i :| 0 <= i < |m| && m[i] == e;
      ExamineIsStable(edges[i], lookup, gc);
    }
  }

  /** Memoising a list of fixed points changes nothing. */
  lemma MemoiseOfStable(es: seq<Edge>, lookup: map<int, City>, gc: GreatCircle)
    requires forall e :: e in es ==> Examine(e, lookup, gc) == e
    ensures Memoise(es, lookup, gc) == es
  {
  }

  /** `visibleEdges`: the zoom filter applied to the slider filter's
      output. An edge is visible exactly when it resolves and its distance is
      at most the smaller of `maxDistance` and the zoom threshold; the edges
      end up as the slider pass left them. */
  function VisibleEdges(edges: seq<Edge>, lookup: map<int, City>, maxDistance: real, zoom: real, gc: GreatCircle): (r: Filtered)
    ensures r.examined == Memoise(edges, lookup, gc)
    ensures r.visible == Select(r.examined, lookup, Min(maxDistance, ZoomThreshold(zoom)), gc)
  {
    var slider := DistanceFilteredEdges(edges, lookup, maxDistance, gc);
    var zoomed := FilterVisibleEdges(slider.visible, lookup, zoom, gc);
    MemoisedAreStable(edges, lookup, gc);
    MemoiseOfStable(slider.visible, lookup, gc);
    var m := Memoise(edges, lookup, gc);
    FilterFilter(m, e => Within(e, lookup, maxDistance, gc), e => Within(e, lookup, ZoomThreshold(zoom), gc),
                 e => Within(e, lookup, Min(maxDistance, ZoomThreshold(zoom)), gc));
    Filtered(zoomed.visible, slider.examined)
  }

  /** `Math.min(opacity + 0.2, 1)`. */
  function LightOpacity(o: real): (r: real)
    ensures o <= 1.0 ==> o <= r <= 1.0
    ensures r <= 1.0
  {
    Min(o + 0.2, 1.0)
  }

  /** How one edge is drawn. */
  datatype LineStyle = LineStyle(color: string, opacity: real, weight: real)

  /** The polyline drawn for a visible edge. */
  function EdgeLineStyle(e: Edge, isDark: bool, zoom: real): (s: LineStyle)
    ensures isDark ==> s.color == GetColor(e) && s.opacity == GetOpacity(e)
    ensures !isDark ==> s.color == DefaultLightColor && s.opacity == GetOpacity(e) + 0.2
    ensures GetOpacity(e) <= s.opacity <= 1.0
    ensures s.weight == (if zoom > 5.0 then 2.0 else 1.0)
  {
    LightThemeEdgesAreGrey(e);
    var color := if isDark then GetColor(e) else AdjustColorForLight(GetColor(e));
    var opacity := if isDark then GetOpacity(e) else LightOpacity(GetOpacity(e));
    LineStyle(color, opacity, if zoom > 5.0 then 2.0 else 1.0)
  }

  /** How one city marker is drawn. */
  datatype MarkerStyle = MarkerStyle(radius: real, fillColor: string, strokeColor: string, tooltip: bool)

  function CityMarkerStyle(isDark: bool, zoom: real): (s: MarkerStyle)
    ensures s.radius == (if zoom > 5.0 then 4.0 else 2.0)
    ensures s.tooltip <==> zoom > 6.0
  {
    MarkerStyle(if zoom > 5.0 then 4.0 else 2.0,
                if isDark then "#3b82f6" else "#1d4ed8",
                if isDark then "#60a5fa" else "#3b82f6",
                zoom > 6.0)
  }

  /** Tooltips only appear once markers and lines are already drawn at their
      larger size. */
  lemma TooltipsOnlyWhenEnlarged(e: Edge, isDark: bool, zoom: real)
    requires CityMarkerStyle(isDark, zoom).tooltip
    ensures CityMarkerStyle(isDark, zoom).radius == 4.0
    ensures EdgeLineStyle(e, isDark, zoom).weight == 2.0
  {
  }
}
