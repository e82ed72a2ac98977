# GraphMap client core in Dafny

This project models the data core of the GraphMap browser client. The client draws a graph of cities, with an edge for each connection, on a map. It can overlay a shortest path on demand. The repository holds two generations of the client, and the model covers the rules of both once fetch, React and the renderers are taken away:

- **Leaflet client, domain values.** `City` and `Edge` are modelled in `city.dfy` and `edge.dfy`.
  - A city answers whether it lies in a bounding box, inclusively on all four sides.
  - An edge resolves its distance in a fixed order: its one-shot memo first, then a truthy server distance, then a computed great-circle value. Only the computed value is memoised.
  - An edge's weight, opacity and colour are step functions of that distance.
- **Leaflet client, repository.** `GraphRepository` (`graph_repository.dfy`) is a TTL cache over `{cities, edges, summary, timestamp}`.
  - The record is threaded explicitly through getters that take `now` and the server reply.
  - Only `getCities` stamps the timestamp shared by all three entries, so edges and summary fetched later are dated by the last cities fetch. Expiry clears nothing, so after a cities refetch the old edges and summary are served again.
- **Leaflet client, filters.**
  - `MapService.createCityLookup` and `filterVisibleEdges` are in `map_service.dfy`. The zoom threshold is a step function of the zoom.
  - The map view (`graph_map.dfy`) has a distance filter, which it composes with the zoom filter. It also has a light-theme palette, line and marker styles.
  - The sidebar search (`sidebar.dfy`) is a case-insensitive substring match over ASCII.
  - Both filters run one per-edge test, `Within`, in one pass, `KeepWithin`. The pass memoises the distances it computes on the edges it looks at, and it is proved equal to "memoise every edge, then select".
- **Sigma client, render graph.** The graphology graph is modelled as `nodes: map<string, NodeAttr>` and `edges: map<UPair, EdgeAttr>`, in `render_graph.dfy`. A `UPair` is the set of an edge's endpoint keys, so the graph is undirected and has at most one edge per pair. Three passes act on it:
  - **Loading** (`graph_init.dfy`) adds every city as a node keyed by `id.toString()`, then the edges.
    - `id.toString()` is modelled as `IdKey`, the decimal string of the id, which is proved injective.
    - An edge with a missing endpoint is skipped. A second edge on the same pair is caught and skipped.
    - A repeated city id makes `addNode` throw, which fails the whole load.
  - **Path overlay** (`shortest_path.dfy`) resets every edge and then paints each consecutive pair of the path orange at size 2, stopping at the first pair with a city that is not a node, where graphology's edge lookup throws. It adds an edge for a pair of existing nodes that has none; such an edge stays in the graph, in the normal style, after the next query.
  - **Theme observer** (`theme_observer.dfy`) recolours every node and every edge that is not orange. It touches no size.

The main results:

- The cache's freshness and miss rules.
- The filters return order-preserving sublists with exact membership conditions.
- Zooming in never shows more edges.
- The search is case-insensitive.
- Loading inserts exactly the distinct unordered pairs whose endpoints are cities.
- After a path query an edge is orange exactly when it is a step of that path before the first step with a missing city; for a path whose cities are all nodes, exactly when it is a step.
- The last theme wins, and the overlay takes precedence over the theme.
- A theme change after a load gives the graph that a load under the new theme builds.

In light theme, `adjustColorForLight` maps none of the four edge colours, so every edge is drawn in the default grey. `GraphMap.LightThemeEdgesAreGrey` states this.

## Model

| member | source | states |
|---|---|---|
| CityModel.NewCity | src/domain/models/City.js:6-17 | `name` is copied from `city`; id, position, country, codes, admin name, capital and population are carried over unchanged |
| CityModel.NewCityInjective | src/domain/models/City.js:6-17 | two records give the same city exactly when they are equal: the constructor loses nothing |
| CityModel.Coordinates | src/domain/models/City.js:19-21 | the coordinates are a two-element list, latitude first, then longitude |
| CityModel.IsInBounds | src/domain/models/City.js:23-30 | the box test itself; `BoundaryIsInside`, `InvertedBoxIsEmpty` and `EnlargingKeepsInside` state its properties |
| CityModel.BoundaryIsInside | src/domain/models/City.js:23-30 | a city on a corner of a non-empty box is in bounds: all four comparisons are inclusive |
| CityModel.InvertedBoxIsEmpty | src/domain/models/City.js:24-29 | a box with minLng > maxLng (or minLat > maxLat) contains no city: there is no antimeridian wrap |
| CityModel.EnlargingKeepsInside | src/domain/models/City.js:24-29 | a city in a box stays in bounds for every box that encloses it |
| EdgeModel.NewEdge | src/domain/models/Edge.js:6-12 | a server distance is kept only when truthy, so 0 counts as absent; the memo starts unset; the result satisfies the resolution invariant `Reachable` |
| EdgeModel.CalculateDistance | src/domain/models/Edge.js:15-37 | the memo wins over a truthy server distance, which wins over the great-circle value; with a missing city the result is 0 and the memo stays unset; only the computed value is memoised; `Reachable` is preserved |
| EdgeModel.SecondCallIsMemoised | src/domain/models/Edge.js:15-37 | after a call that found a memo or server distance, or had both cities, every later call returns the same value and leaves the edge alone, whatever cities or distance function it is given |
| EdgeModel.Weight | src/domain/models/Edge.js:43-45 | the weight is a non-zero memo, else a truthy server distance, else 0 |
| EdgeModel.WeightAgreesWithResolution | src/domain/models/Edge.js:43-45 | after a resolution that did not fall back to 0, the weight equals the distance that resolution returned |
| EdgeModel.OpacityFor | src/domain/models/Edge.js:47-54 | opacity lies in [0.15, 0.6]; it is 0.6 exactly below 500, 0.4 exactly on [500, 1000), 0.25 exactly on [1000, 2000) and 0.15 exactly from 2000 on |
| EdgeModel.ColorFor | src/domain/models/Edge.js:56-63 | the colour is one of the four palette colours; green exactly below 500, blue exactly on [500, 1000), amber exactly on [1000, 2000) and red exactly from 2000 on |
| EdgeModel.OpacityNonIncreasing | src/domain/models/Edge.js:47-54 | a longer distance never gives a higher opacity |
| EdgeModel.ThresholdsAreStrict | src/domain/models/Edge.js:47-63 | 500, 1000 and 2000 fall into the higher band for both opacity and colour |
| EdgeModel.ColorBandIsOpacityBand | src/domain/models/Edge.js:47-63 | two distances get the same colour exactly when they get the same opacity |
| EdgeModel.GetOpacity | src/domain/models/Edge.js:47-54 | the opacity of an edge lies in [0.15, 0.6] |
| EdgeModel.GetColor | src/domain/models/Edge.js:56-63 | the colour of an edge is one of the four palette colours |
| GraphRepository.Collection | src/infrastructure/api/GraphRepository.js:37 | a bare array is the collection; an envelope yields its collection key, or nothing when the key is absent |
| GraphRepository.IsCacheValid | src/infrastructure/api/GraphRepository.js:23-28 | the freshness test itself: a non-zero stamp less than 300000 ms old; `CitiesFreshWithinWindow` and `FiveMinutesIsStale` state its edges |
| GraphRepository.MapCities | src/infrastructure/api/GraphRepository.js:37 | the records are mapped in order, one city per record |
| GraphRepository.MapEdges | src/infrastructure/api/GraphRepository.js:50 | the records are mapped in order, one edge per record |
| GraphRepository.GetCities | src/infrastructure/api/GraphRepository.js:23-41 | a hit (judged at `now`) returns the stored list with no request and no change; a miss makes one request; it fails exactly on a network failure or a payload without the collection, and then leaves the cache unchanged; otherwise it stores the mapped list and stamps `stampNow`, the clock read after the reply |
| GraphRepository.GetEdges | src/infrastructure/api/GraphRepository.js:43-53 | the same hit and miss rules as for cities, but the timestamp is never touched |
| GraphRepository.GetSummary | src/infrastructure/api/GraphRepository.js:55-64 | a hit returns the stored summary; a miss stores the reply; the timestamp is never touched |
| GraphRepository.InViewport | src/infrastructure/api/GraphRepository.js:74-81 | the per-edge viewport test itself: both ends resolve and one of them is in the box |
| GraphRepository.GetEdgesInViewport | src/infrastructure/api/GraphRepository.js:66-82 | at most two requests, each getter reading its own clock; a failure of the edges getter comes back with the cache untouched and no cities request; a failure of the cities getter comes back with the edges just stored kept in the cache; it succeeds exactly when both getters do, with both getters' requests and the cache the cities getter leaves, and the result is the order-preserving sublist of edges whose endpoints both resolve with at least one in the box, each such edge kept as often as it occurs |
| GraphRepository.ClearCache | src/infrastructure/api/GraphRepository.js:84-91 | all four fields are reset |
| GraphRepository.ClearedCacheAlwaysMisses | src/infrastructure/api/GraphRepository.js:84-91 | after `clearCache` each of the three getters issues a request |
| GraphRepository.CitiesFreshWithinWindow | src/infrastructure/api/GraphRepository.js:20-41 | after a fetch stamped at a non-zero time, a call less than five minutes after the stamp is a hit returning the same cities |
| GraphRepository.FiveMinutesIsStale | src/infrastructure/api/GraphRepository.js:23-28 | an entry exactly 300000 ms old is stale: the comparison is strict |
| GraphRepository.Step | src/infrastructure/api/GraphRepository.js:43-64 | an edges or summary call keeps the timestamp and, with no timestamp, always makes a request |
| GraphRepository.OnlyCitiesStamp | src/infrastructure/api/GraphRepository.js:43-64 | any sequence of edges and summary calls leaves the timestamp as it was, and from an unstamped cache every call is a miss |
| GraphRepository.StaleEntriesRevive | src/infrastructure/api/GraphRepository.js:30-64 | expiry clears nothing: after a cities refetch re-stamps a stale cache, the old edges and summary are hits again for five minutes from the new stamp |
| MapService.CreateCityLookup | src/application/services/MapService.js:6-12 | every id of the list is a key, and each key maps to a city of the list carrying that id |
| MapService.LookupLastWins | src/application/services/MapService.js:6-12 | a repeated id maps to the last city carrying it |
| MapService.ZoomThreshold | src/application/services/MapService.js:18-26 | the threshold is one of 500, 1000, 1500 or 2000; it is 2000 exactly for zoom ≤ 3, 1500 exactly on (3, 5], 1000 exactly on (5, 7] and 500 exactly above 7 |
| MapService.ThresholdNonIncreasing | src/application/services/MapService.js:18-26 | zooming in never raises the threshold |
| MapService.Examine | src/application/services/MapService.js:29-35 | looking at an edge changes at most its memo, and only for a resolvable edge with neither memo nor truthy distance; afterwards a resolvable edge has a memo or a truthy distance |
| MapService.Resolvable | src/application/services/MapService.js:29-32 | the lookup test itself: both ends of the edge are keys of the city map |
| MapService.ResolvedDistance | src/application/services/MapService.js:35 | the distance the callback compares itself: `calculateDistance` with both looked-up cities |
| MapService.ExamineIsStable | src/application/services/MapService.js:29-35 | looking at an edge twice is looking at it once, and the distance read back is unchanged |
| MapService.Within | src/application/services/MapService.js:29-36 | the per-edge test itself: both ends resolve and the resolved distance is at most the bound |
| MapService.Memoise | src/application/services/MapService.js:28-35 | every edge examined in order, one result per edge; the reference half of `KeepWithin` |
| MapService.Select | src/application/services/MapService.js:28-37 | an order-preserving sublist that keeps every occurrence of an edge passing the per-edge test, and no other edge |
| MapService.KeepWithin | src/application/services/MapService.js:28-37 | the one-pass filter returns exactly the examined list (each edge examined in order) and the selection from it of the edges within the bound |
| MapService.FilterVisibleEdges | src/application/services/MapService.js:14-38 | the only change to the edges is memoisation; the result is an order-preserving sublist of the examined edges that keeps every occurrence of an edge whose endpoints resolve and whose distance is at most the zoom threshold, and no other edge |
| MapService.SelectMonotone | src/application/services/MapService.js:28-37 | a lower bound selects a sublist of what a higher bound selects |
| MapService.ZoomInNeverAddsEdges | src/application/services/MapService.js:14-38 | on memoised edges, the edges visible at a higher zoom are a sublist of those visible at a lower zoom |
| GraphMap.AdjustColorForLight | src/presentation/components/GraphMap.jsx:11-25 | the eight listed colours map to their darker variants; every other colour maps to `#374151` |
| GraphMap.LightThemeEdgesAreGrey | src/presentation/components/GraphMap.jsx:119-121 | no edge colour is a key of the light map, so every edge is grey in light theme |
| GraphMap.DistanceFilteredEdges | src/presentation/components/GraphMap.jsx:58-68 | the edges are only memoised; the result is an order-preserving sublist that keeps every occurrence of a resolvable edge with distance at most `maxDistance`, and no other edge |
| GraphMap.MemoisedAreStable | src/presentation/components/GraphMap.jsx:58-73 | an edge that was examined is not changed by a second examination |
| GraphMap.MemoiseOfStable | src/presentation/components/GraphMap.jsx:71-73 | examining already-examined edges leaves the list unchanged |
| GraphMap.VisibleEdges | src/presentation/components/GraphMap.jsx:58-73 | the two filters in sequence memoise every edge and select exactly the edges within the smaller of `maxDistance` and the zoom threshold |
| GraphMap.LightOpacity | src/presentation/components/GraphMap.jsx:128 | the light-theme opacity is at most 1, and lies between the dark opacity and 1 |
| GraphMap.EdgeLineStyle | src/presentation/components/GraphMap.jsx:119-130 | dark theme draws the palette colour and opacity; light theme draws grey at opacity + 0.2; the opacity never drops below the dark one; the weight is 2 above zoom 5, else 1 |
| GraphMap.CityMarkerStyle | src/presentation/components/GraphMap.jsx:135-146 | the radius is 4 above zoom 5, else 2; the tooltip appears exactly above zoom 6 |
| GraphMap.TooltipsOnlyWhenEnlarged | src/presentation/components/GraphMap.jsx:129-146 | whenever tooltips show, markers have radius 4 and lines weight 2 |
| Sidebar.FilteredCities | src/components/Sidebar.tsx:22-24 | an order-preserving sublist that keeps every occurrence of a city whose lower-cased name contains the lower-cased term, and no other city |
| Sidebar.Matches | src/components/Sidebar.tsx:23 | the per-city search test itself: the lower-cased name contains the lower-cased term |
| Sidebar.EmptyTermKeepsAll | src/components/Sidebar.tsx:22-24 | an empty term keeps every city |
| Sidebar.CaseInsensitive | src/components/Sidebar.tsx:23 | a term and its upper-cased form select the same cities |
| Sidebar.LongerTermNarrows | src/components/Sidebar.tsx:22-24 | appending characters to the term gives a sublist of the earlier result |
| Text.IdKeyInjective | src/hooks/useGraphInitialization.ts:70 | two ids have the same string key exactly when they are equal |
| Text.IdKey | src/hooks/useGraphInitialization.ts:70 | the key of an id is non-empty, begins with a minus sign exactly for a negative id, and is otherwise its decimal digits |
| Text.Lower | src/components/Sidebar.tsx:23 | lower-casing keeps the length and maps each character on its own |
| Text.Contains | src/components/Sidebar.tsx:23 | the substring test itself; `ContainsIffOccurs` connects it to slices |
| Text.ContainsIffOccurs | src/components/Sidebar.tsx:23 | `includes` holds exactly when the term is the slice of the name at some position |
| Seqs.Filter | src/application/services/MapService.js:28-37 | `Array.prototype.filter`: an order-preserving sublist holding every element that passes as often as it occurs, and nothing else |
| RenderGraph.Pair | src/hooks/useGraphInitialization.ts:58 | an undirected edge key holds both endpoints and has one or two of them |
| RenderGraph.PairSymmetric | src/hooks/useShortestPath.ts:37 | the key of a pair does not depend on its orientation |
| RenderGraph.PathColorIsReserved | src/hooks/useThemeObserver.ts:9-11 | neither theme's node or edge colour is the path colour |
| RenderGraph.NodeColor | src/hooks/useGraphInitialization.ts:64 | the node colour of each theme itself; `PathColorIsReserved` states it is never the path colour |
| RenderGraph.EdgeColor | src/hooks/useGraphInitialization.ts:67 | the edge colour of each theme itself; `PathColorIsReserved` states it is never the path colour |
| GraphInitialization.AddNodes | src/hooks/useGraphInitialization.ts:69-77 | a failed node pass names a city key; a successful one keeps the edges and every earlier node, and adds exactly the city keys |
| GraphInitialization.CityNode | src/hooks/useGraphInitialization.ts:70-76 | the node attributes of a city itself: label from the name, x = lng, y = lat, size 2 and the given colour; `AddNodesAttributes` states that every node carries them |
| GraphInitialization.AddNodesSucceeds | src/hooks/useGraphInitialization.ts:69-77 | the node pass succeeds exactly when no city key is already a node and no id repeats |
| GraphInitialization.AddNodesAttributes | src/hooks/useGraphInitialization.ts:70-76 | each city's node has the city's name as label, x = lng, y = lat, size 2 and the given colour |
| GraphInitialization.InsertEdge | src/hooks/useGraphInitialization.ts:95-113 | one attempt inserts exactly when both endpoints are nodes and the pair has no edge yet; nodes and existing edges are untouched |
| GraphInitialization.Insertable | src/hooks/useGraphInitialization.ts:96 | the `hasNode` guard itself: both string keys of the record are nodes; `AddEdgesKeys` states that exactly these records give edges |
| GraphInitialization.AddEdges | src/hooks/useGraphInitialization.ts:87-114 | nodes are unchanged; added + skipped is the number of records; the edge count grows by `added`; new edges get size 0.5 and the given colour |
| GraphInitialization.AddEdgesKeys | src/hooks/useGraphInitialization.ts:91-114 | the edge keys afterwards are the earlier keys plus exactly the pairs of records whose endpoints are both nodes |
| GraphInitialization.BuildGraph | src/hooks/useGraphInitialization.ts:58-124 | the load succeeds exactly when ids are distinct, and fails only on a duplicate node; nodes are the city keys; edges are the insertable pairs; added + skipped counts every record; `added` is the edge count; the graph is well formed |
| GraphInitialization.BuildGraphColours | src/hooks/useGraphInitialization.ts:61-101 | every node has its city's attributes in the theme node colour, every edge size 0.5 in the theme edge colour |
| GraphInitialization.EdgeCountIsDistinctPairs | src/hooks/useGraphInitialization.ts:87-124 | the reported edge count is the number of distinct unordered pairs with both endpoints present |
| GraphInitialization.Initialize | src/hooks/useGraphInitialization.ts:28-148 | without WebGL, without a container, with an unreachable cities request or a non-ok cities reply, the effect fails with that error and sets nothing else; it stays loading with nothing set exactly when an ok cities reply is missing or empty; otherwise the cities are handed on, and a repeated id fails the load with a `DuplicateNode` error naming a city key and sets nothing but the cities, the error and the cleared loading flag, an unreachable edges request fails it with `FetchFailed`, and any edges reply mounts the graph the node and edge passes build, with no error, loading cleared, edge keys the distinct insertable pairs of a usable edge list, and an edge count exactly when that list is usable |
| GraphInitialization.IsOk | src/hooks/useGraphInitialization.ts:50 | `response.ok` itself: a status from 200 to 299 |
| GraphInitialization.EdgeList | src/hooks/useGraphInitialization.ts:81-86 | the edge list the effect inserts itself: the `edges` body of an ok reply, and nothing otherwise; `Initialize` and `EdgeFailureKeepsNodes` state its effect |
| GraphInitialization.EdgeFailureKeepsNodes | src/hooks/useGraphInitialization.ts:80-143 | in either theme and whatever its body, a non-ok edges reply is not fatal: the node-only graph is mounted with no error, loading cleared and no edge count |
| ShortestPath.ResetEdges | src/hooks/useShortestPath.ts:26-29 | nodes and edge keys are unchanged and every edge has the normal style of the theme |
| ShortestPath.Step | src/hooks/useShortestPath.ts:33-34 | the unordered pair of string keys of path entries `i` and `i + 1` itself; `StepOfTail` relates the steps of a path to those of its tail |
| ShortestPath.HighlightPair | src/hooks/useShortestPath.ts:33-57 | one iteration throws exactly when an end of the pair is not a node; otherwise the pair, existing or new, gets the path style, every other edge and every node is unchanged |
| ShortestPath.Reached | src/hooks/useShortestPath.ts:32-37 | the number of completed iterations is 0 or at most the number of steps |
| ShortestPath.ReachedIsFirstMissing | src/hooks/useShortestPath.ts:32-37 | the loop completes every step before the first step with a city that is not a node, and stops at that step |
| ShortestPath.AllNodesAllSteps | src/hooks/useShortestPath.ts:32-58 | when every city of the path is a node, every step is painted |
| ShortestPath.Highlight | src/hooks/useShortestPath.ts:32-58 | the loop never changes a node |
| ShortestPath.HighlightWellFormed | src/hooks/useShortestPath.ts:32-58 | the loop keeps a well-formed graph well formed |
| ShortestPath.HighlightKeys | src/hooks/useShortestPath.ts:32-58 | the loop adds exactly the painted steps: the steps before the first one with a missing city |
| ShortestPath.HighlightStyles | src/hooks/useShortestPath.ts:32-58 | the painted steps carry the path style and every other edge keeps its attributes |
| ShortestPath.ApplyPathShape | src/hooks/useShortestPath.ts:17-58 | nodes never change; edges grow only by painted steps; painted steps have the path style and every other edge the normal theme style |
| ShortestPath.ApplyPath | src/hooks/useShortestPath.ts:26-58 | the reset followed by the loop never changes a node; `ApplyPathShape` states its edges |
| ShortestPath.PathColorMarksSteps | src/hooks/useShortestPath.ts:26-57 | afterwards an edge is orange exactly when it is a painted step of the current path: a step before the first step with a missing city |
| ShortestPath.NewPathClearsOldPath | src/hooks/useShortestPath.ts:26-57 | no colour of an earlier path survives a new one; its added edges remain in the normal style |
| ShortestPath.ApplyPathIdempotent | src/hooks/useShortestPath.ts:26-57 | asking for the same path twice gives the same graph as asking once |
| ShortestPath.ShortPathOnlyResets | src/hooks/useShortestPath.ts:32 | a path of zero or one city only resets the edges |
| ShortestPath.FindShortestPath | src/hooks/useShortestPath.ts:7-65 | with no renderer there is none afterwards; a failed or non-ok request leaves the graph untouched; an ok reply keeps the nodes and resets, then paints the path if the reply has one |
| ShortestPath.MissingPathStillResets | src/hooks/useShortestPath.ts:16-32 | an ok reply without a path leaves no orange edge |
| ThemeObserver.Reconcile | src/hooks/useThemeObserver.ts:13-27 | node and edge keys are unchanged and well-formedness is kept |
| ThemeObserver.ReconcileColours | src/hooks/useThemeObserver.ts:9-27 | every node takes the theme node colour; no size changes; an edge is orange afterwards exactly when it was before; every other edge takes the theme edge colour |
| ThemeObserver.RecolorEdge | src/hooks/useThemeObserver.ts:21-27 | the edge callback itself; `RecolorTwice` and `RecolorStyle` state its properties |
| ThemeObserver.RecolorTwice | src/hooks/useThemeObserver.ts:21-27 | recolouring an edge for one theme and then another equals recolouring it for the second |
| ThemeObserver.ReconcileAll | src/hooks/useThemeObserver.ts:6-31 | a run of theme changes, one callback each; `ReconcileAllIsLast` states its result |
| ThemeObserver.OnThemeChange | src/hooks/useThemeObserver.ts:6-31 | nothing happens without a renderer; otherwise the keys of the graph are kept |
| ThemeObserver.LastThemeWins | src/hooks/useThemeObserver.ts:16-27 | recolouring for one theme and then another equals recolouring for the second |
| ThemeObserver.ReconcileIdempotent | src/hooks/useThemeObserver.ts:16-27 | applying the pass twice with the same theme equals applying it once |
| ThemeObserver.ReconcileAllIsLast | src/hooks/useThemeObserver.ts:6-31 | after any non-empty run of theme changes the graph is as if only the last theme had been applied |
| ThemeObserver.PathSurvivesFlips | src/hooks/useThemeObserver.ts:22-26 | a path edge keeps its colour and size 2 across any sequence of theme changes |
| ThemeObserver.ThemeKeepsOverlay | src/hooks/useThemeObserver.ts:21-27 | the overlay takes precedence: a theme change after a path gives the edges that drawing the path under the new theme gives |
| ThemeObserver.ThemeMatchesFreshLoad | src/hooks/useThemeObserver.ts:9-10 | a theme change after a load gives exactly the graph a load under the new theme builds |

## Left out

- HTTP and `httpClient`: replies are inputs. A server reply is delivered with a payload, or it is a network failure; a fetch reply is unreachable, or it has a status and a decoded body. A body that is not JSON is not modelled. The endpoint tables in the configuration files are left out.
- Great-circle distance: it is the parameter `gc` and is not computed. The haversine code reads `latitude` and `longitude`, which `City` does not have, so at run time it works on `undefined` and yields NaN. Floating-point numbers and NaN are not modelled: distances, coordinates, zoom and opacity are reals.
- React and async: the `mounted` flag, `setTimeout`, `MutationObserver`, the state setters and the timing of effects are left out. `Initialize` assumes the component stays mounted. `OnThemeChange` runs once per change of the theme class.
- Sigma, graphology and Leaflet internals: creating, killing and refreshing renderers, tile layers, the canvas renderer, `getBounds` and `calculateZoomLevel`.
- graphology's `graph.edge(a, b)` is not part of this model. `HighlightPair` takes it to throw `NotFoundError` when an endpoint is not a node, as graphology's `edge` does. The throw ends the whole pass in the `catch` of src/hooks/useShortestPath.ts:63-65: the later steps stay unpainted and `refresh` is skipped. So the `hasNode` guard at line 44 is never reached false, and the model has no branch for it.
- The staged loader `useGraphData`, and the earlier node-only loaders `GraphViewer.tsx` and `useGraphData.ts`.
- `useTheme`, whose theme is an input here, and `useWebGL`, whose result is the `webgl` flag.
- All visual chrome and the chat widget.
- Text.IdKey: ids are unbounded integers and their key is always the sign and decimal digits. JavaScript's `toString` uses exponent form from 1e21, and ids beyond 2^53 are merged when parsed, so Text.IdKeyInjective holds of the program only for ids that a JavaScript number represents exactly below 1e21.
- Sidebar.CaseInsensitive: lower- and upper-casing are over ASCII only. `toLowerCase` maps every Unicode letter.
- The Leaflet client mutates shared `Edge` objects when it memoises. The model returns the examined edges instead; two references to one edge object are not modelled.
- Console logging, and the list of skipped edges kept only for logging.

Three behaviours of the code that the model follows as written:

- Expiry of the cache clears no field: a stale entry stays stored and is served again once the timestamp is renewed.
- Only `getCities` stamps the timestamp shared by all three entries, so edges and summary fetched later are dated by the last cities fetch.
- An ok path reply without a `path` resets every edge before it throws.
