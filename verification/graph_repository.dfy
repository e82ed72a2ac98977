/** The caching repository of the layered client
    (src/infrastructure/api/GraphRepository.js). The cache is an explicit
    record threaded through the getters; the clock reading `now` and the
    server's reply are parameters. Each getter reports how many requests it
    issued. */
module GraphRepository {
  import opened Wrappers
  import opened Seqs
  import opened CityModel
  import opened EdgeModel
  import opened MapService

  /** The graph summary as the server sends it. */
  datatype Summary = Summary(numNodes: int, numEdges: int)

  /** A collection payload: a bare array, or an object that may or may not
      carry the collection under its key (`cities` or `edges`). */
  datatype Payload<T> = Bare(items: seq<T>) | Envelope(field: Option<seq<T>>)

  /** What the HTTP client hands back: a decoded body, or a transport or
      status failure. */
  datatype Reply<T> = Delivered(body: T) | NetworkFailure

  datatype Error = NetworkError | DataShapeError

  datatype Cache = Cache(
    cities: Option<seq<City>>,
    edges: Option<seq<Edge>>,
    summary: Option<Summary>,
    timestamp: Option<int>)

  /** The cache as the constructor and `clearCache` leave it. */
  const EmptyCache := Cache(None, None, None, None)

  /** Five minutes, in milliseconds. */
  const CacheDuration := 5 * 60 * 1000

  /** `isCacheValid()` at time `now`: a (truthy) timestamp that is less than
      five minutes old. */
  predicate IsCacheValid(c: Cache, now: int) {
    c.timestamp.Some? && c.timestamp.value != 0 && now - c.timestamp.value < CacheDuration
  }

  /** The outcome of one getter call. */
  datatype Got<T> = Got(result: Result<T, Error>, cache: Cache, requests: nat)

  /** The collection a payload carries, if any. */
  function Collection<T>(p: Payload<T>): (r: Option<seq<T>>)
    ensures p.Bare? ==> r == Some(p.items)
    ensures p.Envelope? ==> r == p.field
  {
    match p
    case Bare(items) => Some(items)
    case Envelope(field) => field
  }

  function MapCities(raw: seq<RawCity>): (r: seq<City>)
    ensures |r| == |raw|
    ensures forall i :: 0 <= i < |raw| ==> r[i] == NewCity(raw[i])
  {
    if |raw| == 0 then [] else [NewCity(raw[0])] + MapCities(raw[1..])
  }

  function MapEdges(raw: seq<RawEdge>): (r: seq<Edge>)
    ensures |r| == |raw|
    ensures forall i :: 0 <= i < |raw| ==> r[i] == NewEdge(raw[i])
  {
    if |raw| == 0 then [] else [NewEdge(raw[0])] + MapEdges(raw[1..])
  }

  /** `getCities()`. A hit (cities stored and the cache valid) returns the
      stored list without a request and without changing the cache. A miss
      issues one request; a reply carrying the collection (bare or under
      `cities`) is mapped in order to cities, stored and stamped with
      `stampNow`, the clock read again once the reply has arrived; any
      failure leaves the cache as it was. */
  function GetCities(c: Cache, now: int, stampNow: int, reply: Reply<Payload<RawCity>>): (g: Got<seq<City>>)
    ensures c.cities.Some? && IsCacheValid(c, now) ==>
              g == Got(Success(c.cities.value), c, 0)
    ensures !(c.cities.Some? && IsCacheValid(c, now)) ==> g.requests == 1
    ensures g.result.Failure? ==> g.cache == c
    ensures g.result.Failure? <==>
              !(c.cities.Some? && IsCacheValid(c, now)) &&
              (reply.NetworkFailure? || Collection(reply.body).None?)
    ensures reply.NetworkFailure? && g.result.Failure? ==> g.result.error == NetworkError
    ensures reply.Delivered? && g.result.Failure? ==> g.result.error == DataShapeError
    ensures g.requests == 1 && g.result.Success? ==>
              var raw := Collection(reply.body).value;
              && |g.result.value| == |raw|
              && (forall i :: 0 <= i < |raw| ==> g.result.value[i] == NewCity(raw[i]))
              && g.cache == c.(cities := Some(g.result.value), timestamp := Some(stampNow))
  {
    if c.cities.Some? && IsCacheValid(c, now) then Got(Success(c.cities.value), c, 0)
    else match reply
      case NetworkFailure => Got(Failure(NetworkError), c, 1)
      case Delivered(body) =>
        match Collection(body)
        case None => Got(Failure(DataShapeError), c, 1)
        case Some(raw) =>
          var cities := MapCities(raw);
          Got(Success(cities), c.(cities := Some(cities), timestamp := Some(stampNow)), 1)
  }

  /** `getEdges()`: as `getCities`, except that a miss stores the edges
      without touching the timestamp. */
  function GetEdges(c: Cache, now: int, reply: Reply<Payload<RawEdge>>): (g: Got<seq<Edge>>)
    ensures c.edges.Some? && IsCacheValid(c, now) ==>
              g == Got(Success(c.edges.value), c, 0)
    ensures !(c.edges.Some? && IsCacheValid(c, now)) ==> g.requests == 1
    ensures g.cache.timestamp == c.timestamp
    ensures g.result.Failure? ==> g.cache == c
    ensures g.result.Failure? <==>
              !(c.edges.Some? && IsCacheValid(c, now)) &&
              (reply.NetworkFailure? || Collection(reply.body).None?)
    ensures reply.NetworkFailure? && g.result.Failure? ==> g.result.error == NetworkError
    ensures reply.Delivered? && g.result.Failure? ==> g.result.error == DataShapeError
    ensures g.requests == 1 && g.result.Success? ==>
              var raw := Collection(reply.body).value;
              && |g.result.value| == |raw|
              && (forall i :: 0 <= i < |raw| ==> g.result.value[i] == NewEdge(raw[i]))
              && g.cache == c.(edges := Some(g.result.value))
  {
    if c.edges.Some? && IsCacheValid(c, now) then Got(Success(c.edges.value), c, 0)
    else match reply
      case NetworkFailure => Got(Failure(NetworkError), c, 1)
      case Delivered(body) =>
        match Collection(body)
        case None => Got(Failure(DataShapeError), c, 1)
        case Some(raw) =>
          var edges := MapEdges(raw);
          Got(Success(edges), c.(edges := Some(edges)), 1)
  }

  /** `getSummary()`: the payload is stored as it comes, without a shape
      check and without touching the timestamp. */
  function GetSummary(c: Cache, now: int, reply: Reply<Summary>): (g: Got<Summary>)
    ensures c.summary.Some? && IsCacheValid(c, now) ==>
              g == Got(Success(c.summary.value), c, 0)
    ensures !(c.summary.Some? && IsCacheValid(c, now)) ==>
              g.requests == 1 &&
              (reply.NetworkFailure? ==> g == Got(Failure(NetworkError), c, 1)) &&
              (reply.Delivered? ==> g == Got(Success(reply.body), c.(summary := Some(reply.body)), 1))
    ensures g.cache.timestamp == c.timestamp
  {
    if c.summary.Some? && IsCacheValid(c, now) then Got(Success(c.summary.value), c, 0)
    else match reply
      case NetworkFailure => Got(Failure(NetworkError), c, 1)
      case Delivered(body) => Got(Success(body), c.(summary := Some(body)), 1)
  }

  /** The viewport test: both endpoints resolve and at least one lies in
      the box. */
  predicate InViewport(e: Edge, lookup: map<int, City>, bounds: Bounds) {
    e.source in lookup && e.target in lookup &&
    (IsInBounds(lookup[e.source], bounds) || IsInBounds(lookup[e.target], bounds))
  }

  /** `getEdgesInViewport(bounds)`: `getEdges` then `getCities` (so a
      stale cache can cost two requests), then the order-preserving sublist
      of the edges whose endpoints both resolve in the id index with at least
      one inside the box. Each getter reads the clock itself, at `edgesNow`
      and `citiesNow`, and a cities fetch stamps at `stampNow`. A failure of the edges getter is passed on before the
      cities are asked for; a failure of the cities getter is passed on with
      whatever the edges getter stored kept in the cache. */
  function GetEdgesInViewport(c: Cache, edgesNow: int, citiesNow: int, stampNow: int, edgesReply: Reply<Payload<RawEdge>>,
                              citiesReply: Reply<Payload<RawCity>>, bounds: Bounds): (g: Got<seq<Edge>>)
    ensures g.requests <= 2
    ensures var edges := GetEdges(c, edgesNow, edgesReply);
            edges.result.Failure? ==>
              g.result == Failure(edges.result.error) && g.cache == c && g.requests == 1
    ensures var edges := GetEdges(c, edgesNow, edgesReply);
            var cities := GetCities(edges.cache, citiesNow, stampNow, citiesReply);
            edges.result.Success? && cities.result.Failure? ==>
              && g.result == Failure(cities.result.error)
              && g.cache == edges.cache
              && g.requests == edges.requests + 1
    ensures var edges := GetEdges(c, edgesNow, edgesReply);
            var cities := GetCities(edges.cache, citiesNow, stampNow, citiesReply);
            edges.result.Success? && cities.result.Success? ==>
              && g.result.Success?
              && g.cache == cities.cache
              && g.requests == edges.requests + cities.requests
    ensures g.result.Success? ==>
              var edges := GetEdges(c, edgesNow, edgesReply);
              var cities := GetCities(edges.cache, citiesNow, stampNow, citiesReply);
              && edges.result.Success? && cities.result.Success?
              && g.cache == cities.cache
              && var lookup := CreateCityLookup(cities.result.value);
              && IsSubseq(g.result.value, edges.result.value)
              && (forall e :: e in g.result.value <==>
                    e in edges.result.value && InViewport(e, lookup, bounds))
              && (forall e :: multiset(g.result.value)[e] ==
                    if InViewport(e, lookup, bounds) then multiset(edges.result.value)[e] else 0)
  {
    var edges := GetEdges(c, edgesNow, edgesReply);
    if edges.result.Failure? then edges
    else
      var cities := GetCities(edges.cache, citiesNow, stampNow, citiesReply);
      if cities.result.Failure? then Got(Failure(cities.result.error), cities.cache, edges.requests + cities.requests)
      else
        var lookup := CreateCityLookup(cities.result.value);
        var inView := Filter(edges.result.value, e => InViewport(e, lookup, bounds));
        Got(Success(inView), cities.cache, edges.requests + cities.requests)
  }

  /** `clearCache()`. */
  function ClearCache(c: Cache): (c': Cache)
    ensures c'.cities.None? && c'.edges.None? && c'.summary.None? && c'.timestamp.None?
  {
    EmptyCache
  }

  /** After `clearCache` every getter misses and issues a request. */
  lemma ClearedCacheAlwaysMisses(c: Cache, now: int, stampNow: int, cr: Reply<Payload<RawCity>>,
                                 er: Reply<Payload<RawEdge>>, sr: Reply<Summary>)
    ensures GetCities(ClearCache(c), now, stampNow, cr).requests == 1
    ensures GetEdges(ClearCache(c), now, er).requests == 1
    ensures GetSummary(ClearCache(c), now, sr).requests == 1
  {
  }

  /** Freshness: once `getCities` has fetched and stamped at a non-zero
      time `t`, a call less than five minutes after `t` is a hit that
      returns the same cities without a request. */
  lemma CitiesFreshWithinWindow(c: Cache, checked: int, t: int, reply: Reply<Payload<RawCity>>,
                                later: int, laterStamp: int, reply': Reply<Payload<RawCity>>)
    requires t != 0 && later - t < CacheDuration
    requires GetCities(c, checked, t, reply).requests == 1 && GetCities(c, checked, t, reply).result.Success?
    ensures var first := GetCities(c, checked, t, reply);
            GetCities(first.cache, later, laterStamp, reply') == Got(first.result, first.cache, 0)
  {
  }

  /** An entry exactly five minutes old is stale. */
  lemma FiveMinutesIsStale(c: Cache, now: int)
    requires c.timestamp == Some(now - CacheDuration)
    ensures !IsCacheValid(c, now)
  {
  }

  /** Calls threaded through the cache, in order. */
  datatype Call =
    | CitiesCall(now: int, stampNow: int, cities: Reply<Payload<RawCity>>)
    | EdgesCall(now: int, edges: Reply<Payload<RawEdge>>)
    | SummaryCall(now: int, summary: Reply<Summary>)

  /** One call: the cache after it and the requests it issued. */
  function Step(c: Cache, call: Call): (r: (Cache, nat))
    ensures !call.CitiesCall? ==> r.0.timestamp == c.timestamp
    ensures !call.CitiesCall? && c.timestamp.None? ==> r.1 == 1
  {
    match call
    case CitiesCall(now, stampNow, reply) => var g := GetCities(c, now, stampNow, reply); (g.cache, g.requests)
    case EdgesCall(now, reply) => var g := GetEdges(c, now, reply); (g.cache, g.requests)
    case SummaryCall(now, reply) => var g := GetSummary(c, now, reply); (g.cache, g.requests)
  }

  /** The cache after a sequence of calls and the number of requests they
      issued. */
  function Run(c: Cache, calls: seq<Call>): (Cache, nat)
    decreases |calls|
  {
    if |calls| == 0 then (c, 0)
    else
      var (c1, n1) := Step(c, calls[0]);
      var (c2, n2) := Run(c1, calls[1..]);
      (c2, n1 + n2)
  }

  /** Only `getCities` stamps the cache: without a cities call, edges and
      summary calls leave the timestamp as it was, so from an empty cache
      every one of them is a miss. */
  lemma {:induction false} OnlyCitiesStamp(c: Cache, calls: seq<Call>)
    requires forall i :: 0 <= i < |calls| ==> !calls[i].CitiesCall?
    ensures Run(c, calls).0.timestamp == c.timestamp
    ensures c.timestamp.None? ==> Run(c, calls).1 == |calls|
    decreases |calls|
  {
    if |calls| > 0 {
      OnlyCitiesStamp(Step(c, calls[0]).0, calls[1..]);
    }
  }

  /** Expiry clears nothing: when a stale cache still holds edges and a
      summary, a `getCities` refetch re-stamps the shared timestamp and the
      old edges and summary are served again as hits for five minutes from
      the new stamp. */
  lemma StaleEntriesRevive(c: Cache, now: int, stampNow: int, later: int, cr: Reply<Payload<RawCity>>,
                           er: Reply<Payload<RawEdge>>, sr: Reply<Summary>)
    requires !IsCacheValid(c, now)
    requires stampNow != 0 && later - stampNow < CacheDuration
    requires c.edges.Some? && c.summary.Some?
    requires cr.Delivered? && Collection(cr.body).Some?
    ensures var refreshed := GetCities(c, now, stampNow, cr).cache;
            && GetEdges(refreshed, later, er) == Got(Success(c.edges.value), refreshed, 0)
            && GetSummary(refreshed, later, sr) == Got(Success(c.summary.value), refreshed, 0)
  {
  }
}
