/** The nearest-weather-station search (HKORouterUtil): a growing geocode
    cache, the candidate filter, distance ranking by a stable sort, and the
    top-N cut. */
module HkoUtil {
  import opened Wrappers
  import opened Gateways
  import opened HkoRhrreadResponse

  /** The region appended to every place name before geocoding. */
  const DefaultRegion: string := "Hong Kong"

  const FetchWeatherError: string := "Failed to fetch weather data"
  const GeocodeStationsError: string := "Could not geocode weather stations"
  const GeocodeAddressErrorPrefix: string := "Could not geocode address: "

  /** The geocoding provider, queried with "<place>, <region>". A timeout or
      a service error is a None like a miss. */
  type Geocoder = string -> Option<Coords>

  /** The haversine distance from the user to a station, rounded to two
      places; its value is kept opaque. */
  type Distance = (Coords, Coords) -> real

  /** The cache key, which is also the geocoder query. */
  function PlaceKey(placeName: string, region: string): string {
    placeName + ", " + region
  }

  /** What a lookup answers: the cached value on a hit, else the geocoder's. */
  function Resolve(cache: map<string, Coords>, geocode: Geocoder, key: string): (r: Option<Coords>)
    ensures key in cache ==> r == Some(cache[key])
    ensures key !in cache ==> r == geocode(key)
  {
    if key in cache then Some(cache[key]) else geocode(key)
  }

  /** The cache after one lookup: a miss that the geocoder resolves is added;
      nothing is ever removed or overwritten. */
  function Remember(cache: map<string, Coords>, geocode: Geocoder, key: string): (c: map<string, Coords>)
    ensures forall k :: k in cache ==> k in c && c[k] == cache[k]
    ensures c.Keys <= cache.Keys + {key}
    ensures key in c <==> Resolve(cache, geocode, key).Some?
  {
    if key in cache then cache
    else match geocode(key)
      case Some(xy) => cache[key := xy]
      case None => cache
  }

  /** The cache after a series of lookups, in order. */
  function RememberAll(cache: map<string, Coords>, geocode: Geocoder, keys: seq<string>): (c: map<string, Coords>)
    ensures forall k :: k in cache ==> k in c && c[k] == cache[k]
    decreases |keys|
  {
    if keys == [] then cache
    else
      var n := |keys| - 1;
      Remember(RememberAll(cache, geocode, keys[..n]), geocode, keys[n])
  }

  /** After a successful lookup the key is cached, so a repeated lookup
      returns the same value whatever the geocoder would now say. */
  lemma RepeatedLookupHits(cache: map<string, Coords>, geocode: Geocoder, key: string, later: Geocoder)
    requires Resolve(cache, geocode, key).Some?
    ensures key in Remember(cache, geocode, key)
    ensures Resolve(Remember(cache, geocode, key), later, key) == Resolve(cache, geocode, key)
  {
  }

  /** Caching is transparent: a lookup answers the same before and after any
      series of earlier lookups. */
  lemma {:induction false} RememberAllKeepsResolve(cache: map<string, Coords>, geocode: Geocoder,
                                                   keys: seq<string>, key: string)
    ensures Resolve(RememberAll(cache, geocode, keys), geocode, key) == Resolve(cache, geocode, key)
    decreases |keys|
  {
    if keys != [] {
      var n := |keys| - 1;
      RememberAllKeepsResolve(cache, geocode, keys[..n], key);
    }
  }

  /** A reading whose place geocoded. */
  datatype Station = Station(place: string, value: int, unit: string, lat: real, lon: real)

  /** A candidate with its `distance_km` entry. */
  datatype RankedStation = RankedStation(place: string, value: int, unit: string, lat: real, lon: real,
                                         distanceKm: real)

  function StationFor(t: TemperatureData, c: Coords): Station {
    Station(t.place, t.value, t.unit, c.lat, c.lon)
  }

  function ReadingKey(t: TemperatureData): string {
    PlaceKey(t.place, DefaultRegion)
  }

  /** The keys looked up for a list of readings, in order. */
  function PlaceKeys(readings: seq<TemperatureData>): (keys: seq<string>)
    ensures |keys| == |readings|
  {
    seq(|readings|, i requires 0 <= i < |readings| => ReadingKey(readings[i]))
  }

  /** The candidate list: the readings whose place geocodes, in input order,
      each with its coordinates. */
  function Candidates(readings: seq<TemperatureData>, cache: map<string, Coords>, geocode: Geocoder): (r: seq<Station>)
    ensures |r| <= |readings|
    decreases |readings|
  {
    if readings == [] then []
    else
      var n := |readings| - 1;
      var rest := Candidates(readings[..n], cache, geocode);
      match Resolve(cache, geocode, ReadingKey(readings[n]))
      case Some(c) => rest + [StationFor(readings[n], c)]
      case None => rest
  }

  /** Exactly the readings that geocode become candidates, each with the
      coordinates its place resolves to; none drops out and none is invented. */
  lemma {:induction false} CandidatesExact(readings: seq<TemperatureData>, cache: map<string, Coords>, geocode: Geocoder)
    ensures forall st :: st in Candidates(readings, cache, geocode) ==>
              Resolve(cache, geocode, PlaceKey(st.place, DefaultRegion)) == Some(Coords(st.lat, st.lon))
    ensures forall i :: 0 <= i < |readings| && Resolve(cache, geocode, ReadingKey(readings[i])).Some? ==>
              StationFor(readings[i], Resolve(cache, geocode, ReadingKey(readings[i])).value) in Candidates(readings, cache, geocode)
    ensures Candidates(readings, cache, geocode) == [] <==>
              forall i :: 0 <= i < |readings| ==> Resolve(cache, geocode, ReadingKey(readings[i])).None?
    decreases |readings|
  {
    if readings != [] {
      var n := |readings| - 1;
      var pre := readings[..n];
      CandidatesExact(pre, cache, geocode);
      var c := Candidates(readings, cache, geocode);
      var rest := Candidates(pre, cache, geocode);
      assert forall i :: 0 <= i < n ==> pre[i] == readings[i];
      match Resolve(cache, geocode, ReadingKey(readings[n]))
      case Some(xy) =>
        assert c == rest + [StationFor(readings[n], xy)];
        assert c[|c| - 1] in c;
      case None =>
        assert c == rest;
    }
  }

  /** Candidate selection decides each reading on its own and keeps order. */
  lemma {:induction false} CandidatesAppend(a: seq<TemperatureData>, b: seq<TemperatureData>,
                                            cache: map<string, Coords>, geocode: Geocoder)
    ensures Candidates(a + b, cache, geocode) == Candidates(a, cache, geocode) + Candidates(b, cache, geocode)
    decreases |b|
  {
    if b == [] {
      assert a + b == a;
    } else {
      var n := |b| - 1;
      assert (a + b)[..|a| + n] == a + b[..n];
      assert (a + b)[|a| + n] == b[n];
      CandidatesAppend(a, b[..n], cache, geocode);
    }
  }

  function Ranked(st: Station, user: Coords, distance: Distance): RankedStation {
    RankedStation(st.place, st.value, st.unit, st.lat, st.lon, distance(user, Coords(st.lat, st.lon)))
  }

  /** Each candidate with its distance from the user, same order. */
  function WithDistances(stations: seq<Station>, user: Coords, distance: Distance): (r: seq<RankedStation>)
    ensures |r| == |stations|
  {
    seq(|stations|, k requires 0 <= k < |stations| => Ranked(stations[k], user, distance))
  }

  predicate SortedByDistance(s: seq<RankedStation>) {
    forall i, j :: 0 <= i < j < |s| ==> s[i].distanceKm <= s[j].distanceKm
  }

  /** Insert `x` into a list after its longest prefix of entries that are
      not farther; in a sorted list that is after every such entry. */
  function InsertByDistance(x: RankedStation, s: seq<RankedStation>): (r: seq<RankedStation>)
    ensures |r| == |s| + 1
    decreases |s|
  {
    if s == [] then [x]
    else if s[0].distanceKm <= x.distanceKm then [s[0]] + InsertByDistance(x, s[1..])
    else [x] + s
  }

  lemma {:induction false} InsertPermutes(x: RankedStation, s: seq<RankedStation>)
    ensures multiset(InsertByDistance(x, s)) == multiset(s) + multiset{x}
    decreases |s|
  {
    if s != [] && s[0].distanceKm <= x.distanceKm {
      InsertPermutes(x, s[1..]);
      assert s == [s[0]] + s[1..];
    }
  }

  lemma ConsSorted(y: RankedStation, t: seq<RankedStation>)
    requires SortedByDistance(t)
    requires forall k :: 0 <= k < |t| ==> y.distanceKm <= t[k].distanceKm
    ensures SortedByDistance([y] + t)
  {
    var r := [y] + t;
    forall i, j | 0 <= i < j < |r|
      ensures r[i].distanceKm <= r[j].distanceKm
    {
      assert r[j] == t[j - 1];
      if i > 0 {
        assert r[i] == t[i - 1];
      }
    }
  }

  lemma {:induction false} InsertLowerBound(x: RankedStation, s: seq<RankedStation>, lo: real)
    requires lo <= x.distanceKm
    requires forall k :: 0 <= k < |s| ==> lo <= s[k].distanceKm
    ensures forall k :: 0 <= k < |InsertByDistance(x, s)| ==> lo <= InsertByDistance(x, s)[k].distanceKm
    decreases |s|
  {
    if s != [] && s[0].distanceKm <= x.distanceKm {
      InsertLowerBound(x, s[1..], lo);
      var tail := InsertByDistance(x, s[1..]);
      assert InsertByDistance(x, s) == [s[0]] + tail;
    }
  }

  lemma {:induction false} InsertKeepsSorted(x: RankedStation, s: seq<RankedStation>)
    requires SortedByDistance(s)
    ensures SortedByDistance(InsertByDistance(x, s))
    decreases |s|
  {
    if s != [] {
      if s[0].distanceKm <= x.distanceKm {
        InsertKeepsSorted(x, s[1..]);
        InsertLowerBound(x, s[1..], s[0].distanceKm);
        ConsSorted(s[0], InsertByDistance(x, s[1..]));
      } else {
        ConsSorted(x, s);
      }
    }
  }

  /** `list.sort(key=distance_km)`: a stable ascending sort, written as an
      insertion sort that takes the entries left to right. */
  function SortByDistance(s: seq<RankedStation>): (r: seq<RankedStation>)
    ensures |r| == |s|
    decreases |s|
  {
    if s == [] then []
    else
      var n := |s| - 1;
      InsertByDistance(s[n], SortByDistance(s[..n]))
  }

  /** The sort is a permutation of its input. */
  lemma {:induction false} SortByDistancePermutes(s: seq<RankedStation>)
    ensures multiset(SortByDistance(s)) == multiset(s)
    decreases |s|
  {
    if s != [] {
      var n := |s| - 1;
      var pre := s[..n];
      var sortedPre := SortByDistance(pre);
      assert SortByDistance(s) == InsertByDistance(s[n], sortedPre);
      SortByDistancePermutes(pre);
      InsertPermutes(s[n], sortedPre);
      assert s == pre + [s[n]];
      assert multiset(s) == multiset(pre) + multiset{s[n]};
    }
  }

  /** The sort puts the stations in non-decreasing distance. */
  lemma {:induction false} SortByDistanceSorted(s: seq<RankedStation>)
    ensures SortedByDistance(SortByDistance(s))
    decreases |s|
  {
    if s != [] {
      var n := |s| - 1;
      SortByDistanceSorted(s[..n]);
      InsertKeepsSorted(s[n], SortByDistance(s[..n]));
    }
  }

  /** The entries at exactly distance `d`, in list order. */
  function AtDistance(s: seq<RankedStation>, d: real): seq<RankedStation>
    decreases |s|
  {
    if s == [] then []
    else (if s[0].distanceKm == d then [s[0]] else []) + AtDistance(s[1..], d)
  }

  lemma {:induction false} AtDistanceNone(s: seq<RankedStation>, d: real)
    requires forall i :: 0 <= i < |s| ==> s[i].distanceKm != d
    ensures AtDistance(s, d) == []
    decreases |s|
  {
    if s != [] {
      AtDistanceNone(s[1..], d);
    }
  }

  lemma AtDistanceCons(y: RankedStation, t: seq<RankedStation>, d: real)
    ensures AtDistance([y] + t, d) == (if y.distanceKm == d then [y] else []) + AtDistance(t, d)
  {
    assert ([y] + t)[1..] == t;
  }

  lemma {:induction false} AtDistanceAppend(a: seq<RankedStation>, y: RankedStation, d: real)
    ensures AtDistance(a + [y], d) == AtDistance(a, d) + (if y.distanceKm == d then [y] else [])
    decreases |a|
  {
    var ys := if y.distanceKm == d then [y] else [];
    if a == [] {
      assert a + [y] == [y] + [];
      AtDistanceCons(y, [], d);
    } else {
      var t := a[1..];
      var a0 := if a[0].distanceKm == d then [a[0]] else [];
      assert a + [y] == [a[0]] + (t + [y]);
      assert a == [a[0]] + t;
      AtDistanceCons(a[0], t + [y], d);
      AtDistanceCons(a[0], t, d);
      AtDistanceAppend(t, y, d);
      assert AtDistance(a + [y], d) == a0 + (AtDistance(t, d) + ys);
    }
  }

  lemma SortedTail(s: seq<RankedStation>)
    requires SortedByDistance(s) && s != []
    ensures SortedByDistance(s[1..])
  {
  }

  /** In a sorted list whose first entry is farther than `d`, no entry is at `d`. */
  lemma SortedAboveFirst(s: seq<RankedStation>, d: real)
    requires SortedByDistance(s) && s != [] && d < s[0].distanceKm
    ensures AtDistance(s, d) == []
  {
    forall i | 0 <= i < |s|
      ensures s[i].distanceKm != d
    {
      assert s[0].distanceKm <= s[i].distanceKm;
    }
    AtDistanceNone(s, d);
  }

  lemma {:induction false} InsertAtDistance(x: RankedStation, s: seq<RankedStation>, d: real)
    requires SortedByDistance(s)
    ensures AtDistance(InsertByDistance(x, s), d) == AtDistance(s, d) + (if x.distanceKm == d then [x] else [])
    decreases |s|
  {
    var xs := if x.distanceKm == d then [x] else [];
    if s == [] {
      AtDistanceCons(x, [], d);
      assert [x] + [] == [x];
    } else if s[0].distanceKm <= x.distanceKm {
      var tail := InsertByDistance(x, s[1..]);
      var s0 := if s[0].distanceKm == d then [s[0]] else [];
      assert InsertByDistance(x, s) == [s[0]] + tail;
      SortedTail(s);
      InsertAtDistance(x, s[1..], d);
      AtDistanceCons(s[0], tail, d);
      assert AtDistance(s, d) == s0 + AtDistance(s[1..], d);
      assert AtDistance(InsertByDistance(x, s), d) == s0 + (AtDistance(s[1..], d) + xs);
    } else {
      assert InsertByDistance(x, s) == [x] + s;
      AtDistanceCons(x, s, d);
      if x.distanceKm == d {
        SortedAboveFirst(s, d);
      }
    }
  }

  /** Stability: among entries at the same distance the sort keeps the
      original order. */
  lemma {:induction false} SortByDistanceStable(s: seq<RankedStation>, d: real)
    ensures AtDistance(SortByDistance(s), d) == AtDistance(s, d)
    decreases |s|
  {
    if s != [] {
      var n := |s| - 1;
      var pre := s[..n];
      var sortedPre := SortByDistance(pre);
      assert SortByDistance(s) == InsertByDistance(s[n], sortedPre);
      SortByDistanceStable(pre, d);
      SortByDistanceSorted(pre);
      InsertAtDistance(s[n], sortedPre, d);
      AtDistanceAppend(pre, s[n], d);
      assert pre + [s[n]] == s;
    }
  }

  function Min(a: int, b: int): int {
    if a < b then a else b
  }

  /** Python's `s[:stop]`: a negative stop counts from the end; both are
      clamped to the list. */
  function SliceTo<T>(s: seq<T>, stop: int): (r: seq<T>)
    ensures stop >= 0 ==> |r| == Min(stop, |s|)
    ensures stop < 0 ==> |r| == (if |s| + stop > 0 then |s| + stop else 0)
    ensures r == s[..|r|]
  {
    var end := if stop < 0 then |s| + stop else stop;
    s[..if end < 0 then 0 else if end > |s| then |s| else end]
  }

  /** What the search returns: an error dictionary or the ranked stations. */
  datatype StationsResult =
    | StationsError(error: string)
    | NearbyStations(userAddress: string, userCoordinates: Coords, recordTime: string,
                     nearbyStations: seq<RankedStation>)

  /** fetch_rhrread_data: the readings on status 200, else nothing. */
  function FetchRhrreadData(response: HttpResponse<HkoRhrreadResponse>): (r: Option<HkoRhrreadResponse>)
    ensures r.Some? <==> response.statusCode == StatusOk
    ensures r.Some? ==> r.value == response.body
  {
    if response.statusCode == StatusOk then Some(response.body) else None
  }

  /** Reference definition of the search, on the cache as it was before. */
  function NearbyWeatherStations(address: string, topN: int, rhrread: Option<HkoRhrreadResponse>,
                                 cache: map<string, Coords>, geocode: Geocoder, distance: Distance): (r: StationsResult)
    ensures r.NearbyStations? ==>
              && rhrread.Some?
              && r.userAddress == address
              && r.recordTime == rhrread.value.temperature.recordTime
              && Resolve(cache, geocode, PlaceKey(address, DefaultRegion)) == Some(r.userCoordinates)
  {
    match rhrread
    case None => StationsError(FetchWeatherError)
    case Some(data) =>
      var stations := Candidates(data.temperature.data, cache, geocode);
      if stations == [] then StationsError(GeocodeStationsError)
      else match Resolve(cache, geocode, PlaceKey(address, DefaultRegion))
        case None => StationsError(GeocodeAddressErrorPrefix + address)
        case Some(user) =>
          NearbyStations(address, user, data.temperature.recordTime,
                         SliceTo(SortByDistance(WithDistances(stations, user, distance)), topN))
  }

  /** The cache after the search: every reading's place was looked up, then
      the address, unless no candidate remained. */
  function CacheAfterSearch(address: string, rhrread: Option<HkoRhrreadResponse>,
                            cache: map<string, Coords>, geocode: Geocoder): (c: map<string, Coords>)
    ensures forall k :: k in cache ==> k in c && c[k] == cache[k]
    ensures rhrread.None? ==> c == cache
  {
    match rhrread
    case None => cache
    case Some(data) =>
      var afterStations := RememberAll(cache, geocode, PlaceKeys(data.temperature.data));
      if Candidates(data.temperature.data, cache, geocode) == [] then afterStations
      else Remember(afterStations, geocode, PlaceKey(address, DefaultRegion))
  }

  /** The three error results, each with its exact condition. */
  lemma SearchErrors(address: string, topN: int, rhrread: Option<HkoRhrreadResponse>,
                     cache: map<string, Coords>, geocode: Geocoder, distance: Distance)
    ensures var r := NearbyWeatherStations(address, topN, rhrread, cache, geocode, distance);
      && (rhrread.None? <==> r == StationsError(FetchWeatherError))
      && (rhrread.Some? ==>
            (r == StationsError(GeocodeStationsError)
             <==> forall i :: 0 <= i < |rhrread.value.temperature.data| ==>
                    Resolve(cache, geocode, ReadingKey(rhrread.value.temperature.data[i])).None?))
      && (rhrread.Some? && Candidates(rhrread.value.temperature.data, cache, geocode) != [] ==>
            (r == StationsError(GeocodeAddressErrorPrefix + address)
             <==> Resolve(cache, geocode, PlaceKey(address, DefaultRegion)).None?))
  {
    // The three messages differ in their first or nineteenth character.
    assert FetchWeatherError[0] == 'F' && GeocodeStationsError[0] == 'C';
    assert (GeocodeAddressErrorPrefix + address)[0] == 'C';
    assert GeocodeStationsError[18] == 'w' && (GeocodeAddressErrorPrefix + address)[18] == 'a';
    if rhrread.Some? {
      CandidatesExact(rhrread.value.temperature.data, cache, geocode);
    }
  }

  /** The ranking: at most `topN` stations, non-decreasing in distance, and a
      prefix of the stable sort of the candidates. */
  lemma NearbyStationsRanked(address: string, topN: int, rhrread: Option<HkoRhrreadResponse>,
                             cache: map<string, Coords>, geocode: Geocoder, distance: Distance)
    requires NearbyWeatherStations(address, topN, rhrread, cache, geocode, distance).NearbyStations?
    ensures rhrread.Some?
    ensures var r := NearbyWeatherStations(address, topN, rhrread, cache, geocode, distance);
            var ranked := WithDistances(Candidates(rhrread.value.temperature.data, cache, geocode),
                                        r.userCoordinates, distance);
      && Resolve(cache, geocode, PlaceKey(address, DefaultRegion)) == Some(r.userCoordinates)
      && (topN >= 0 ==> |r.nearbyStations| == Min(topN, |ranked|))
      && SortedByDistance(r.nearbyStations)
      && r.nearbyStations == SortByDistance(ranked)[..|r.nearbyStations|]
      && multiset(r.nearbyStations) <= multiset(ranked)
  {
    var r := NearbyWeatherStations(address, topN, rhrread, cache, geocode, distance);
    var ranked := WithDistances(Candidates(rhrread.value.temperature.data, cache, geocode),
                                r.userCoordinates, distance);
    var sorted := SortByDistance(ranked);
    SortByDistanceSorted(ranked);
    SortByDistancePermutes(ranked);
    var k := |r.nearbyStations|;
    assert r.nearbyStations == sorted[..k];
    assert sorted == sorted[..k] + sorted[k..];
    assert multiset(sorted) == multiset(sorted[..k]) + multiset(sorted[k..]);
  }

  /** The single owned search object with its place-coordinate cache. */
  class HKORouterUtil {
    var placeCoordinatesCache: map<string, Coords>

    constructor ()
      ensures placeCoordinatesCache == map[]
    {
      placeCoordinatesCache := map[];
    }

    /** _geocode_place: a hit answers from the cache; a miss asks the
        geocoder and stores only a success. */
    method GeocodePlace(placeName: string, region: string, geocode: Geocoder) returns (coords: Option<Coords>)
      modifies this
      ensures coords == Resolve(old(placeCoordinatesCache), geocode, PlaceKey(placeName, region))
      ensures placeCoordinatesCache == Remember(old(placeCoordinatesCache), geocode, PlaceKey(placeName, region))
      ensures PlaceKey(placeName, region) in old(placeCoordinatesCache) ==>
                coords == Some(old(placeCoordinatesCache)[PlaceKey(placeName, region)])
                && placeCoordinatesCache == old(placeCoordinatesCache)
      ensures coords.None? ==> placeCoordinatesCache == old(placeCoordinatesCache)
      ensures coords.Some? ==> placeCoordinatesCache[PlaceKey(placeName, region)] == coords.value
    {
      var cacheKey := PlaceKey(placeName, region);
      if cacheKey in placeCoordinatesCache {
        return Some(placeCoordinatesCache[cacheKey]);
      }
      var location := geocode(cacheKey);
      if location.Some? {
        var xy := location.value;
        placeCoordinatesCache := placeCoordinatesCache[cacheKey := xy];
        return Some(xy);
      }
      return None;
    }

    /** find_nearby_weather_stations: fetch, keep the readings that geocode,
        geocode the address, attach distances, sort stably, take `topN`. */
    method FindNearbyWeatherStations(address: string, topN: int, response: HttpResponse<HkoRhrreadResponse>,
                                     geocode: Geocoder, distance: Distance)
      returns (r: StationsResult)
      modifies this
      ensures r == NearbyWeatherStations(address, topN, FetchRhrreadData(response),
                                         old(placeCoordinatesCache), geocode, distance)
      ensures placeCoordinatesCache == CacheAfterSearch(address, FetchRhrreadData(response),
                                                        old(placeCoordinatesCache), geocode)
    {
      var rhrreadData := FetchRhrreadData(response);
      if rhrreadData.None? {
        return StationsError(FetchWeatherError);
      }
      var readings := rhrreadData.value.temperature.data;
      ghost var cache0 := placeCoordinatesCache;
      var stationsWithCoords: seq<Station> := [];
      var i := 0;
      while i < |readings|
        invariant 0 <= i <= |readings|
        invariant stationsWithCoords == Candidates(readings[..i], cache0, geocode)
        invariant placeCoordinatesCache == RememberAll(cache0, geocode, PlaceKeys(readings[..i]))
      {
        assert readings[..i + 1][..i] == readings[..i];
        assert PlaceKeys(readings[..i + 1])[..i] == PlaceKeys(readings[..i]);
        RememberAllKeepsResolve(cache0, geocode, PlaceKeys(readings[..i]), ReadingKey(readings[i]));
        var coords := GeocodePlace(readings[i].place, DefaultRegion, geocode);
        if coords.Some? {
          stationsWithCoords := stationsWithCoords + [StationFor(readings[i], coords.value)];
        }
        i := i + 1;
      }
      assert readings[..i] == readings;
      if stationsWithCoords == [] {
        return StationsError(GeocodeStationsError);
      }
      RememberAllKeepsResolve(cache0, geocode, PlaceKeys(readings), PlaceKey(address, DefaultRegion));
      var userCoords := GeocodePlace(address, DefaultRegion, geocode);
      if userCoords.None? {
        return StationsError(GeocodeAddressErrorPrefix + address);
      }
      var user := userCoords.value;
      var ranked: seq<RankedStation> := [];
      var j := 0;
      while j < |stationsWithCoords|
        invariant 0 <= j <= |stationsWithCoords|
        invariant ranked == WithDistances(stationsWithCoords[..j], user, distance)
      {
        assert stationsWithCoords[..j + 1][..j] == stationsWithCoords[..j];
        ranked := ranked + [Ranked(stationsWithCoords[j], user, distance)];
        j := j + 1;
      }
      assert stationsWithCoords[..j] == stationsWithCoords;
      ranked := SortByDistance(ranked);
      var nearbyStations := SliceTo(ranked, topN);
      r := NearbyStations(address, user, rhrreadData.value.temperature.recordTime, nearbyStations);
    }
  }
}
