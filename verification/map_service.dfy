/** The map service of the layered client
    (src/application/services/MapService.js): the id-to-city lookup and the
    zoom-dependent distance filter over edges. Both filters of the client
    (this one and the distance slider of the map view) run the same
    per-edge test, `Within`, in one pass, `KeepWithin`, which also memoises
    the distances it computes on the edges it examines. */
module MapService {
  import opened Wrappers
  import opened Seqs
  import opened CityModel
  import opened EdgeModel

  /** No later city in the list carries the id of the city at `i`. */
  predicate LastWithId(cities: seq<City>, i: int)
    requires 0 <= i < |cities|
  {
    forall j :: i < j < |cities| ==> cities[j].id != cities[i].id
  }

  /** `createCityLookup`: a map from every id in the list to a city with
      that id. */
  function CreateCityLookup(cities: seq<City>): (m: map<int, City>)
    ensures forall i :: 0 <= i < |cities| ==> cities[i].id in m
    ensures forall id :: id in m ==> m[id].id == id && m[id] in cities
  {
    if |cities| == 0 then map[]
    else
      var last := cities[|cities| - 1];
      var prefix := cities[..|cities| - 1];
      var m := CreateCityLookup(prefix);
      LookupStep(cities, m);
      m[last.id := last]
  }

  /** The facts about the list that carry over from the lookup of all but
      the last city to the lookup of the whole list. */
  lemma LookupStep(cities: seq<City>, m: map<int, City>)
    requires |cities| > 0
    requires forall i :: 0 <= i < |cities| - 1 ==> cities[i].id in m
    requires forall id :: id in m ==> m[id].id == id && m[id] in cities[..|cities| - 1]
    ensures var r := m[cities[|cities| - 1].id := cities[|cities| - 1]];
            && (forall i :: 0 <= i < |cities| ==> cities[i].id in r)
            && (forall id :: id in r ==> r[id].id == id && r[id] in cities)
  {
    var prefix := cities[..|cities| - 1];
    forall id | id in m
      ensures m[id] in cities
    {
      var k :| 0 <= k < |prefix| && prefix[k] == m[id];
      assert cities[k] == prefix[k];
    }
  }

  /** A repeated id maps to the last city carrying it. */
  lemma {:induction false} LookupLastWins(cities: seq<City>, i: int)
    requires 0 <= i < |cities| && LastWithId(cities, i)
    ensures CreateCityLookup(cities)[cities[i].id] == cities[i]
    decreases |cities|
  {
    var n := |cities| - 1;
    if i < n {
      var prefix := cities[..n];
      assert prefix[i] == cities[i];
      assert LastWithId(prefix, i) by {
        forall j | i < j < |prefix|
          ensures prefix[j].id != prefix[i].id
        {
          assert prefix[j] == cities[j];
        }
      }
      LookupLastWins(prefix, i);
      assert cities[n].id != cities[i].id;
    }
  }

  /** The distance threshold for a zoom level: the closer the view, the
      shorter the edges shown. */
  function ZoomThreshold(zoom: real): (t: real)
    ensures t in {500.0, 1000.0, 1500.0, 2000.0}
    ensures t == 2000.0 <==> zoom <= 3.0
    ensures t == 1500.0 <==> 3.0 < zoom <= 5.0
    ensures t == 1000.0 <==> 5.0 < zoom <= 7.0
    ensures t == 500.0 <==> zoom > 7.0
  {
    if zoom <= 3.0 then 2000.0
    else if zoom <= 5.0 then 1500.0
    else if zoom <= 7.0 then 1000.0
    else 500.0
  }

  /** Zooming in never raises the threshold. */
  lemma ThresholdNonIncreasing(z1: real, z2: real)
    requires z1 <= z2
    ensures ZoomThreshold(z2) <= ZoomThreshold(z1)
  {
  }

  /** Both endpoints of the edge resolve in the lookup. */
  predicate Resolvable(e: Edge, lookup: map<int, City>) {
    e.source in lookup && e.target in lookup
  }

  /** The distance a filter reads for a resolvable edge. */
  function ResolvedDistance(e: Edge, lookup: map<int, City>, gc: GreatCircle): real
    requires Resolvable(e, lookup)
  {
    CalculateDistance(e, Some(lookup[e.source]), Some(lookup[e.target]), gc).distance
  }

  /** The edge after a filter has looked at it: only a resolvable edge with
      neither memo nor server distance changes, by memoising its distance. */
  function Examine(e: Edge, lookup: map<int, City>, gc: GreatCircle): (e': Edge)
    ensures e'.source == e.source && e'.target == e.target && e'.distance == e.distance
    ensures e'.memo != e.memo ==> Resolvable(e, lookup) && e.memo.None? && !Truthy(e.distance)
    ensures Resolvable(e, lookup) ==> e'.memo.Some? || Truthy(e.distance)
    ensures Reachable(e) ==> Reachable(e')
  {
    if Resolvable(e, lookup) then
      CalculateDistance(e, Some(lookup[e.source]), Some(lookup[e.target]), gc).edge
    else e
  }

  /** Looking at an edge twice is looking at it once, and the distance read
      from the examined edge is the one the examination returned. */
  lemma ExamineIsStable(e: Edge, lookup: map<int, City>, gc: GreatCircle)
    ensures Examine(Examine(e, lookup, gc), lookup, gc) == Examine(e, lookup, gc)
    ensures Resolvable(e, lookup) ==>
              ResolvedDistance(Examine(e, lookup, gc), lookup, gc) == ResolvedDistance(e, lookup, gc)
  {
    if Resolvable(e, lookup) {
      SecondCallIsMemoised(e, Some(lookup[e.source]), Some(lookup[e.target]), gc,
                           Some(lookup[e.source]), Some(lookup[e.target]), gc);
    }
  }

  /** The per-edge test of both filters: both endpoints resolve and the
      distance is at most `max` (inclusive). */
  predicate Within(e: Edge, lookup: map<int, City>, max: real, gc: GreatCircle) {
    Resolvable(e, lookup) && ResolvedDistance(e, lookup, gc) <= max
  }

  /** Every edge examined, in order. */
  function Memoise(es: seq<Edge>, lookup: map<int, City>, gc: GreatCircle): (r: seq<Edge>)
    ensures |r| == |es|
    ensures forall i :: 0 <= i < |es| ==> r[i] == Examine(es[i], lookup, gc)
  {
    if |es| == 0 then [] else [Examine(es[0], lookup, gc)] + Memoise(es[1..], lookup, gc)
  }

  /** The edges passing the test, in order. */
  function Select(es: seq<Edge>, lookup: map<int, City>, max: real, gc: GreatCircle): (r: seq<Edge>)
    ensures IsSubseq(r, es)
    ensures forall e :: e in r <==> e in es && Within(e, lookup, max, gc)
    ensures forall e :: multiset(r)[e] == if Within(e, lookup, max, gc) then multiset(es)[e] else 0
  {
    Filter(es, e => Within(e, lookup, max, gc))
  }

  /** What a filter pass returns (`visible`) and the state of the edges it
      was given once it is done (`examined`). */
  datatype Filtered = Filtered(visible: seq<Edge>, examined: seq<Edge>)

  /** One `edges.filter(...)` pass as the client runs it: each edge whose
      endpoints resolve has its distance calculated (and possibly memoised)
      and is kept when that distance is at most `max`. Its result is the
      two-step reference: memoise every edge, then select. */
  function KeepWithin(edges: seq<Edge>, lookup: map<int, City>, max: real, gc: GreatCircle): (r: Filtered)
    ensures r.examined == Memoise(edges, lookup, gc)
    ensures r.visible == Select(r.examined, lookup, max, gc)
  {
    if |edges| == 0 then Filtered([], [])
    else
      var e := edges[0];
      var rest := KeepWithin(edges[1..], lookup, max, gc);
      ExamineIsStable(e, lookup, gc);
      if !Resolvable(e, lookup) then
        Filtered(rest.visible, [e] + rest.examined)
      else
        var res := CalculateDistance(e, Some(lookup[e.source]), Some(lookup[e.target]), gc);
        if res.distance <= max then
          Filtered([res.edge] + rest.visible, [res.edge] + rest.examined)
        else
          Filtered(rest.visible, [res.edge] + rest.examined)
  }

  /** `filterVisibleEdges(edges, cityMap, zoomLevel)`: the order-preserving
      sublist of edges whose endpoints both resolve and whose distance is at
      most the zoom threshold; the only change to the edges is memoisation
      of the distances calculated on the way. */
  function FilterVisibleEdges(edges: seq<Edge>, lookup: map<int, City>, zoom: real, gc: GreatCircle): (r: Filtered)
    ensures |r.examined| == |edges|
    ensures forall i :: 0 <= i < |edges| ==> r.examined[i] == Examine(edges[i], lookup, gc)
    ensures IsSubseq(r.visible, r.examined)
    ensures forall e :: e in r.visible <==> e in r.examined && Within(e, lookup, ZoomThreshold(zoom), gc)
    ensures forall e :: multiset(r.visible)[e] ==
              if Within(e, lookup, ZoomThreshold(zoom), gc) then multiset(r.examined)[e] else 0
  {
    KeepWithin(edges, lookup, ZoomThreshold(zoom), gc)
  }

  /** A lower bound passes a sublist of what a higher bound passes. */
  lemma SelectMonotone(es: seq<Edge>, lookup: map<int, City>, lo: real, hi: real, gc: GreatCircle)
    requires lo <= hi
    ensures IsSubseq(Select(es, lookup, lo, gc), Select(es, lookup, hi, gc))
  {
    FilterMono(es, e => Within(e, lookup, lo, gc), e => Within(e, lookup, hi, gc));
  }

  /** Zooming in never shows more edges: the edges visible at the higher
      zoom are a sublist of those visible at the lower one. */
  lemma ZoomInNeverAddsEdges(edges: seq<Edge>, lookup: map<int, City>, z1: real, z2: real, gc: GreatCircle)
    requires z1 <= z2
    ensures IsSubseq(FilterVisibleEdges(edges, lookup, z2, gc).visible,
                     FilterVisibleEdges(edges, lookup, z1, gc).visible)
    ensures |FilterVisibleEdges(edges, lookup, z2, gc).visible| <= |FilterVisibleEdges(edges, lookup, z1, gc).visible|
  {
    ThresholdNonIncreasing(z1, z2);
    var m := Memoise(edges, lookup, gc);
    SelectMonotone(m, lookup, ZoomThreshold(z2), ZoomThreshold(z1), gc);
    SubseqLength(Select(m, lookup, ZoomThreshold(z2), gc), Select(m, lookup, ZoomThreshold(z1), gc));
  }
}
