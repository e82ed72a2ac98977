/** The Edge entity of the layered client (src/domain/models/Edge.js): a
    connection between two city ids with an optional server distance, a
    one-shot memo of the computed distance, and the colour and opacity
    bands derived from the distance. */
module EdgeModel {
  import opened Wrappers
  import opened CityModel

  /** An edge record as the server sends it. */
  datatype RawEdge = RawEdge(source: int, target: int, distance: Option<real>)

  /** `memo` is the private `_calculatedDistance` field. */
  datatype Edge = Edge(source: int, target: int, distance: Option<real>, memo: Option<real>)

  /** JavaScript truthiness of a possibly-null number (NaN is not modelled). */
  predicate Truthy(d: Option<real>) {
    d.Some? && d.value != 0.0
  }

  /** The great-circle distance between two cities, in kilometres
      (haversine with Earth radius 6371). Kept as a parameter. */
  type GreatCircle = (City, City) -> real

  /** The states an edge can reach from its constructor: a stored server
      distance is never zero, and the memo is only filled when no server
      distance was stored. */
  predicate Reachable(e: Edge) {
    (e.distance.Some? ==> e.distance.value != 0.0) &&
    (e.memo.Some? ==> e.distance.None?)
  }

  /** `new Edge(data)`: a zero or missing distance is stored as absent, and
      the memo starts empty. */
  function NewEdge(data: RawEdge): (e: Edge)
    ensures e.source == data.source && e.target == data.target
    ensures e.memo == None
    ensures e.distance.Some? <==> Truthy(data.distance)
    ensures e.distance.Some? ==> e.distance == data.distance
    ensures Reachable(e)
  {
    Edge(data.source, data.target, if Truthy(data.distance) then data.distance else None, None)
  }

  /** The distance `calculateDistance` returns and the edge afterwards. */
  datatype Resolution = Resolution(distance: real, edge: Edge)

  /** `calculateDistance(sourceCity, targetCity)`: the memo wins over a
      server distance, which wins over the computed great-circle value; a
      missing city yields 0; only the computed value is memoised. */
  function CalculateDistance(e: Edge, source: Option<City>, target: Option<City>, gc: GreatCircle): (r: Resolution)
    ensures r.edge.source == e.source && r.edge.target == e.target && r.edge.distance == e.distance
    ensures e.memo.Some? ==> r == Resolution(e.memo.value, e)
    ensures e.memo.None? && Truthy(e.distance) ==> r == Resolution(e.distance.value, e)
    ensures e.memo.None? && !Truthy(e.distance) && (source.None? || target.None?) ==>
              r == Resolution(0.0, e)
    ensures e.memo.None? && !Truthy(e.distance) && source.Some? && target.Some? ==>
              r.distance == gc(source.value, target.value) && r.edge.memo == Some(r.distance)
    ensures Reachable(e) ==> Reachable(r.edge)
  {
    if e.memo.Some? then Resolution(e.memo.value, e)
    else if Truthy(e.distance) then Resolution(e.distance.value, e)
    else if source.None? || target.None? then Resolution(0.0, e)
    else
      var d := gc(source.value, target.value);
      Resolution(d, e.(memo := Some(d)))
  }

  /** Once an edge has resolved its distance from a server value or from two
      cities, every later call returns the identical value and leaves the edge
      alone, whatever cities or distance function it is given. */
  lemma SecondCallIsMemoised(e: Edge, source: Option<City>, target: Option<City>, gc: GreatCircle,
                             source': Option<City>, target': Option<City>, gc': GreatCircle)
    requires e.memo.Some? || Truthy(e.distance) || (source.Some? && target.Some?)
    ensures var first := CalculateDistance(e, source, target, gc);
            CalculateDistance(first.edge, source', target', gc') == first
  {
  }

  /** The `weight` getter: the memo if non-zero, else the server distance,
      else 0. */
  function Weight(e: Edge): (w: real)
    ensures Truthy(e.memo) ==> w == e.memo.value
    ensures !Truthy(e.memo) && Truthy(e.distance) ==> w == e.distance.value
    ensures !Truthy(e.memo) && !Truthy(e.distance) ==> w == 0.0
  {
    if Truthy(e.memo) then e.memo.value
    else if Truthy(e.distance) then e.distance.value
    else 0.0
  }

  /** After a resolution that did not fall back to 0 for a missing city, the
      weight (and so the colour and opacity) reflects exactly the distance
      the resolution returned. */
  lemma WeightAgreesWithResolution(e: Edge, source: Option<City>, target: Option<City>, gc: GreatCircle)
    requires Reachable(e)
    requires e.memo.Some? || Truthy(e.distance) || (source.Some? && target.Some?)
    ensures var r := CalculateDistance(e, source, target, gc);
            Weight(r.edge) == r.distance
  {
  }

  const Green := "#10b981"
  const Blue := "#3b82f6"
  const Amber := "#f59e0b"
  const Red := "#ef4444"

  /** Opacity band of a distance: shorter edges are more opaque. */
  function OpacityFor(d: real): (o: real)
    ensures 0.15 <= o <= 0.6
    ensures o == 0.6 <==> d < 500.0
    ensures o == 0.4 <==> 500.0 <= d < 1000.0
    ensures o == 0.25 <==> 1000.0 <= d < 2000.0
    ensures o == 0.15 <==> d >= 2000.0
  {
    if d < 500.0 then 0.6
    else if d < 1000.0 then 0.4
    else if d < 2000.0 then 0.25
    else 0.15
  }

  /** Colour band of a distance. */
  function ColorFor(d: real): (c: string)
    ensures c in {Green, Blue, Amber, Red}
    ensures c == Green <==> d < 500.0
    ensures c == Blue <==> 500.0 <= d < 1000.0
    ensures c == Amber <==> 1000.0 <= d < 2000.0
    ensures c == Red <==> d >= 2000.0
  {
    if d < 500.0 then Green
    else if d < 1000.0 then Blue
    else if d < 2000.0 then Amber
    else Red
  }

  /** `getOpacity()` of an edge. */
  function GetOpacity(e: Edge): (o: real)
    ensures 0.15 <= o <= 0.6
  {
    OpacityFor(Weight(e))
  }

  /** `getColor()` of an edge. */
  function GetColor(e: Edge): (c: string)
    ensures c in {Green, Blue, Amber, Red}
  {
    ColorFor(Weight(e))
  }

  /** Opacity never increases with distance. */
  lemma OpacityNonIncreasing(a: real, b: real)
    requires a <= b
    ensures OpacityFor(b) <= OpacityFor(a)
  {
  }

  /** The bands are strict on their upper bound: 500, 1000 and 2000 already
      belong to the next band. */
  lemma ThresholdsAreStrict()
    ensures OpacityFor(500.0) == 0.4 && ColorFor(500.0) == Blue
    ensures OpacityFor(1000.0) == 0.25 && ColorFor(1000.0) == Amber
    ensures OpacityFor(2000.0) == 0.15 && ColorFor(2000.0) == Red
  {
  }

  /** Colour and opacity use the same bands: two distances share a colour
      exactly when they share an opacity. */
  lemma ColorBandIsOpacityBand(a: real, b: real)
    ensures ColorFor(a) == ColorFor(b) <==> OpacityFor(a) == OpacityFor(b)
  {
  }
}
