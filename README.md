# Daily data assistant: stop cache, ETA assembly and nearest weather stations

This project models three pieces of sequential logic in the daily data
assistant. Each sits between HTTP calls and a geocoding provider. The remote
calls are replaced by inputs: status code and body, fallback file content,
geocoder result, and the outcome of each ETA fetch.

- **Bus-stop cache and radius query** (`KmbUtil`). `KMBRouterUtil` keeps a
  two-slot cache. One slot holds the stop list; the other holds the spatial
  index built from that list's coordinates. The invariant `Valid()` says
  that a tree is present exactly when a list with stops is stored, and that
  point *i* of the index is the (lat, long) of stop *i*. A list with no stops
  is stored without a tree (see below).
  - `fetch_kmb_stop` tries the upstream list first. Only on a non-200 status
    does it fall back to the stop file. When both fail it returns an empty
    placeholder and caches nothing.
  - `load_near_stop_with_lat_lon` fills an empty cache once and then runs the
    L∞ ball query. The query is specified as a box filter over the cached
    list.
  - When both sources fail, the query runs against an empty tree slot and
    raises. The model reproduces this as a `Raised` outcome.
- **ETA assembly** (`KmbRouter`).
  - `_build_stop_info` is a loop. It copies the stop's identity and appends
    one record per ETA entry that passes the route filter, in order.
  - `_eta_workflow` goes from geocode to nearby stops to one ETA fetch per
    stop. A fetch that raises is caught and recorded on that stop alone.
- **Nearest weather stations** (`HkoUtil`).
  - `_geocode_place` is a memoising lookup over a map that only grows.
  - `find_nearby_weather_stations` runs these steps:
    - fetch the readings, or return an error;
    - keep the readings whose place geocodes, in input order;
    - return an error if none remain;
    - geocode the address, or return an error;
    - attach distances;
    - sort stably by distance;
    - take the first `top_n` (Python slice semantics, so a negative `top_n`
      counts from the end).

Each method is proved against a pure specification function. The source
promises are proved about those functions as lemmas:
- the box query returns exactly the in-box stops, as a multiset;
- the route filter keeps exactly the matching entries, in order, and
  distributes over concatenation;
- one failed fetch changes only its own stop's record;
- caching never changes what a lookup answers;
- the candidate list holds exactly the readings that geocode;
- the sort is a permutation, sorted, and stable;
- the three error results each have their exact condition.

Three behaviours of the code shape the model:
- Only a non-200 status falls back to the stop file. A parse error at
  `src/utils/kmb_util.py:80` propagates instead.
- A stop list with no stops cannot be indexed. `set_stop_cache` stores the
  list at `src/utils/kmb_util.py:33`. Line 34 then builds a one-dimensional
  empty array, and the tree constructor at line 35 rejects it with a
  `ValueError`. That error propagates out of `fetch_kmb_stop` and the query.
  The cache is left with the list set and the tree slot empty. The check at
  line 108 sees a list and never refetches, so every later query raises at
  line 119. `SetStopCache` returns `Raised(EmptyTreeError)` on that path, and
  `Valid()` admits that half-set state.
- When both sources fail, nothing is cached. The `is None` test at
  `src/utils/kmb_util.py:110` can never fire, because `fetch_kmb_stop` always
  returns a list. The query at line 119 then calls `query_ball_point` on
  `None` and raises an `AttributeError`. `LoadNearStopWithLatLon` returns
  `Raised(NoneTreeError)` on that path, and `EtaWorkflow` passes it on.

## Model

| member | source | states |
|---|---|---|
| StopResponse.EmptyStopList | src/utils/kmb_util.py:85-86 | The placeholder returned when no stop list can be obtained has no stops. |
| KmbUtil.NearStopDistance | src/utils/kmb_util.py:118 | An absent radius setting gives 0.003 degrees; a present one is used as is. |
| KmbUtil.PointsOf | src/utils/kmb_util.py:34 | The coordinate array has one point per stop, and point i is the (lat, long) of stop i. |
| KmbUtil.ScanIndices | src/utils/kmb_util.py:119 | The ball query with p = infinity reports every index whose point lies in the box and only those, each once: the indices are strictly increasing, so there are no duplicates. |
| KmbUtil.SelectStops | src/utils/kmb_util.py:121 | The comprehension over the indices yields one stop per index. |
| KmbUtil.StopsInBox | src/utils/kmb_util.py:116-121 | Reference filter: it returns a sub-multiset of the list, and a stop is in the result exactly when it is in the list and inside the box. |
| KmbUtil.ScanSelectsStopsInBox | src/utils/kmb_util.py:116-121 | Over a tree built from the list itself, the stops selected by the query indices are the brute-force box filter. |
| KmbUtil.QueryIsBoxFilter | src/utils/kmb_util.py:116-121 | The radius query over a consistent cache returns the in-box stops with their multiplicities: none missing, none extra, each drawn from the cached list. |
| KmbUtil.GetLatLonFromAddress | src/utils/kmb_util.py:139-146 | Coordinates are returned exactly when the geocoder found a location, and they are that location's; otherwise the result is the "Address not found" error. |
| KmbUtil.ChosenStops | src/utils/kmb_util.py:79-84 | The list the fallback chain settles on: the upstream body on status 200, else the file's list, if any. |
| KmbUtil.QueryNearStops | src/utils/kmb_util.py:119-121 | The stops the radius query returns from a cached list and its tree; each one is drawn from the cached list. |
| KmbUtil.KMBRouterUtil.Paired | src/utils/kmb_util.py:23-35 | Both slots set or both empty, with point i of the tree the coordinates of stop i. |
| KmbUtil.KMBRouterUtil.Valid | src/utils/kmb_util.py:23-35 | The reachable cache states: empty; or the list stored and the tree present exactly when the list has stops, built from its coordinates. |
| KmbUtil.KMBRouterUtil.constructor | src/utils/kmb_util.py:22-26 | A new cache has both slots empty and satisfies the pairing invariant. |
| KmbUtil.KMBRouterUtil.ResetCache | src/utils/kmb_util.py:28-30 | Both slots are cleared together, so the pairing invariant holds. |
| KmbUtil.KMBRouterUtil.SetStopCache | src/utils/kmb_util.py:32-35 | The list is always stored. For a list with stops the tree is built from it: point i is the coordinates of stop i, and both invariants hold. For a list with no stops the tree build raises "data must be 2 dimensions" and the tree slot is left as it was, so an empty cache becomes half-set. |
| KmbUtil.KMBRouterUtil.FetchKmbStop | src/utils/kmb_util.py:73-92 | Status 200 stores the upstream list; any other status stores the file's list. A stored list with stops is returned, with both slots paired. A stored list with no stops makes the call raise the tree-build error. With no file list it returns the empty placeholder and leaves the cache unchanged. |
| KmbUtil.KMBRouterUtil.LoadNearStopWithLatLon | src/utils/kmb_util.py:105-124 | A stored list, even a half-set one, is left unchanged, so there is no refetch. An empty cache is filled by the fallback chain. The call raises exactly when no tree is cached afterwards: with the tree-build error on the call that stored a list with no stops, and with the None-tree error otherwise. When it returns, the result is the query result, which holds exactly the cached in-box stops (membership and multiset). |
| KmbUtil.KMBRouterUtil.LoadNearStopWithAddress | src/utils/kmb_util.py:126-137 | No location gives [] and leaves the cache untouched. Otherwise it is the lat/lon query at the found coordinates: the same cache update, the same raise condition and reason, and the same result (membership and multiset). |
| KmbRouter.ToEtaRecord | src/routes/kmb_router.py:27-39 | An ETA record keeps the entry's route and eta. |
| KmbRouter.SelectByRoute | src/routes/kmb_router.py:24-26 | The filter never yields more entries than it was given. |
| KmbRouter.SelectByRouteMembers | src/routes/kmb_router.py:26 | An entry is kept exactly when it is in the response and its route equals the filter, or when there is no filter. |
| KmbRouter.SelectByRouteAppend | src/routes/kmb_router.py:25-26 | The filter keeps the original order: filtering a concatenation gives the concatenation of the filtered parts. |
| KmbRouter.SelectByRouteNoFilter | src/routes/kmb_router.py:26 | Without a filter every entry is kept, in order. |
| KmbRouter.SelectByRouteNoMatch | src/routes/kmb_router.py:26 | A filter that matches no entry yields no entries. |
| KmbRouter.EtaRecords | src/routes/kmb_router.py:27-39 | One record per kept entry. |
| KmbRouter.StopInfoOf | src/routes/kmb_router.py:13-43 | The record `_build_stop_info` yields: the stop's id and coordinates, no error, and no more ETA records than the response has entries. |
| KmbRouter.BuildStopInfo | src/routes/kmb_router.py:13-43 | The stop id, names and coordinates are copied. eta_data is the records of exactly the filtered subsequence of the response's entries, in order, and is empty without a response. |
| KmbRouter.StopWithEta | src/routes/kmb_router.py:75-83 | A returned fetch gives the built record. A raised fetch gives the stop's record with empty eta_data and the error "Failed to fetch ETA: " followed by the reason. |
| KmbRouter.StopsWithEta | src/routes/kmb_router.py:73-83 | One record per nearby stop, in order; record k carries the id of stop k. |
| KmbRouter.FetchFailureIsolated | src/routes/kmb_router.py:74-83 | Changing what one stop's fetch does changes no other stop's record, and that stop keeps its own record. |
| KmbRouter.UnmatchedFilterKeepsStop | src/routes/kmb_router.py:24-27 | A filter that matches none of a stop's entries keeps the stop, with empty eta_data and no error. |
| KmbRouter.FetchStopsWithEta | src/routes/kmb_router.py:73-83 | The loop appends exactly one record per nearby stop, in order: record k is the built record of stop k's fetch outcome, or its error record. |
| KmbRouter.EtaWorkflow | src/routes/kmb_router.py:46-93 | A geocode failure gives the "Address not found" result without touching the stop cache. The workflow raises exactly when no tree is cached after the load, with the load's reason. An empty nearby list gives count 0, no records, the message and no radius. Otherwise the count is the number of nearby stops, the records are one per stop in order, and the radius is reported. |
| HkoUtil.Resolve | src/utils/hko_util.py:63-78 | What a lookup answers: a hit on the key returns the stored value without the geocoder; a miss is the geocoder's answer. |
| HkoUtil.Remember | src/utils/hko_util.py:63-81 | A lookup never removes or overwrites an entry and adds at most its own key. Afterwards the key is cached exactly when the lookup resolved. |
| HkoUtil.RememberAll | src/utils/hko_util.py:107-108 | A series of lookups keeps every earlier cache entry unchanged. |
| HkoUtil.RepeatedLookupHits | src/utils/hko_util.py:64-75 | After a successful lookup the key is cached, and a repeated lookup returns the same value whatever the geocoder would now answer. |
| HkoUtil.RememberAllKeepsResolve | src/utils/hko_util.py:63-81 | Earlier lookups never change what a later lookup answers. |
| HkoUtil.PlaceKeys | src/utils/hko_util.py:107-108 | One geocoder key per reading. |
| HkoUtil.Candidates | src/utils/hko_util.py:105-116 | The candidate list is no longer than the readings. |
| HkoUtil.CandidatesExact | src/utils/hko_util.py:105-116 | Every candidate carries the coordinates its place resolves to, and every reading that resolves is a candidate. The list is empty exactly when no reading resolves. |
| HkoUtil.CandidatesAppend | src/utils/hko_util.py:107-116 | Candidate selection decides each reading on its own and keeps input order. |
| HkoUtil.WithDistances | src/utils/hko_util.py:136-139 | One ranked entry per candidate, in the same order. |
| HkoUtil.InsertByDistance | src/utils/hko_util.py:142 | Insertion adds exactly one entry. |
| HkoUtil.InsertPermutes | src/utils/hko_util.py:142 | Insertion adds the entry to the multiset and changes nothing else. |
| HkoUtil.InsertKeepsSorted | src/utils/hko_util.py:142 | Inserting into a list sorted by distance keeps it sorted. |
| HkoUtil.SortByDistance | src/utils/hko_util.py:142 | The sort keeps the number of entries. |
| HkoUtil.SortByDistancePermutes | src/utils/hko_util.py:142 | The sort is a permutation of its input. |
| HkoUtil.SortByDistanceSorted | src/utils/hko_util.py:142 | The sort's result is non-decreasing in distance. |
| HkoUtil.InsertAtDistance | src/utils/hko_util.py:142 | An inserted entry goes after every entry at the same distance. |
| HkoUtil.SortByDistanceStable | src/utils/hko_util.py:142 | The sort is stable: among entries at one distance, the input order is kept. |
| HkoUtil.SliceTo | src/utils/hko_util.py:143 | Python's s[:top_n]: a prefix, of length min(top_n, len) for non-negative top_n; a negative top_n counts from the end. |
| HkoUtil.FetchRhrreadData | src/utils/hko_util.py:35-44 | The readings are present exactly on status 200, and then they are the body. |
| HkoUtil.NearbyWeatherStations | src/utils/hko_util.py:97-155 | Reference search on a given cache. A successful result echoes the address and the record time, and its user coordinates are what the address resolves to. |
| HkoUtil.CacheAfterSearch | src/utils/hko_util.py:105-126 | The cache after the search: it keeps every earlier entry, and it is unchanged when the readings are missing. |
| HkoUtil.SearchErrors | src/utils/hko_util.py:97-130 | "Failed to fetch weather data" exactly when the readings are missing. "Could not geocode weather stations" exactly when no reading geocodes. "Could not geocode address: <address>" exactly when there are candidates and the address does not geocode. |
| HkoUtil.NearbyStationsRanked | src/utils/hko_util.py:126-155 | The user coordinates are the address's geocode. For top_n >= 0 the result has length min(top_n, candidates). It is non-decreasing in distance, a prefix of the stable sort of the candidates, and drawn from them. |
| HkoUtil.HKORouterUtil.constructor | src/utils/hko_util.py:18-20 | A new search object starts with an empty place cache. |
| HkoUtil.HKORouterUtil.GeocodePlace | src/utils/hko_util.py:58-81 | A hit on "<place>, <region>" returns the stored value and leaves the cache alone. A miss returns the geocoder's answer and stores only a success under that key. A failure adds nothing. |
| HkoUtil.HKORouterUtil.FindNearbyWeatherStations | src/utils/hko_util.py:83-155 | The result is the reference search on the cache as it was before the call, and the new cache is every reading's lookup followed by the address lookup. When no candidate remains, the address is never looked up. |

## Left out

- HTTP, async plumbing and the `fetch_*` passthroughs (`fetch_all_kmb_router`, `fetch_kmb_router_by_route_id`, `fetch_hko_flw_data`, `fetch_hk_weather_data`). A status code and a parsed body are inputs. `fetch_kmb_eta_stop_by_stop_id` is reduced to its outcome: a response, none on a non-200 status, or a raised exception.
- Payload parsing (pydantic validation) and the string-to-float conversion of coordinates. Coordinates are `real` and bodies arrive already parsed. A parse error, which in the code propagates, is not modelled.
- The Nominatim geocoder is an input function from query text to optional coordinates. In `_geocode_place` (`src/utils/hko_util.py:68-81`) timeouts and service errors are caught and appear as `None`. A geocoder that answers the same query differently over time is not modelled.
- `load_stop_data_from_file` (file I/O) is an optional stop list.
- The environment settings are inputs, and missing ones are not modelled as errors. `KMB_NEAR_STOP_DISTANCE` is an optional real.
- Logging, the `get_global_*` singletons (a single owned object stands in for them), the FastAPI handlers, `src/main.py` and `src/utils/env_load_util.py`. `get_cached_stop_dict` is a plain read of the two fields.
- KmbUtil.KMBRouterUtil.LoadNearStopWithLatLon: the KDTree is represented by the point list it is built from, and its query by a scan that reports the in-box indices in ascending order. The tree reports the same set in an unspecified order. The model fixes ascending order, so the result (and, through `FetchStopsWithEta`, the record order of `EtaWorkflow`) is the in-box stops in list order. Only the membership and multiset contracts carry over to the tree's order.
- KmbUtil.GetLatLonFromAddress: the code calls the geocoder at `src/utils/kmb_util.py:142` (and at line 129) with no `try`, so a `GeocoderTimedOut` or `GeocoderServiceError` propagates. The model has no such outcome: a geocoder failure is only "no location". So where `_eta_workflow` raises, `EtaWorkflow` returns the "Address not found" result.
- KmbUtil.KMBRouterUtil.FetchKmbStop: a transport error from `get_all` at `src/utils/kmb_util.py:77` propagates without trying the file fallback; the model has only a status code and so always reaches the fallback. The same holds for `fetch_rhrread_data` at `src/utils/hko_util.py:39`, which HkoUtil.FetchRhrreadData models only by status code.
- HkoUtil.Distance: haversine and `round(..., 2)` are one opaque function to `real`. Note that the source passes `Unit.METERS`, so the value stored under `distance_km` is in metres.
- HkoUtil.HKORouterUtil.FindNearbyWeatherStations: the source adds `distance_km` to each station dict in place and sorts the list in place. The model builds a new ranked list and sorts it with a pure stable insertion sort. Aliasing of those dicts is not modelled.
- The `lang` argument and every reading field other than the temperatures and their record time.
