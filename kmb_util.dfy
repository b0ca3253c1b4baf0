/** The bus-stop cache and its radius query (KMBRouterUtil). */
module KmbUtil {
  import opened Wrappers
  import opened Gateways
  import opened StopResponse

  /** KMB_NEAR_STOP_DISTANCE when the setting is absent, in decimal degrees. */
  const DefaultNearStopDistance: real := 0.003

  /** The message of the AttributeError raised when the radius query runs
      against an empty tree slot. */
  const NoneTreeError: string := "'NoneType' object has no attribute 'query_ball_point'"

  /** The message of the ValueError the tree constructor raises for the
      one-dimensional array built from a stop list with no stops. */
  const EmptyTreeError: string := "data must be 2 dimensions"

  /** The radius the query uses: the setting, or the default when it is absent. */
  function NearStopDistance(setting: Option<real>): (r: real)
    ensures setting.None? ==> r == DefaultNearStopDistance
    ensures setting.Some? ==> r == setting.value
  {
    setting.GetOr(DefaultNearStopDistance)
  }

  function Abs(x: real): (r: real)
    ensures r >= 0.0 && (r == x || r == -x)
  {
    if x < 0.0 then -x else x
  }

  function Max(a: real, b: real): real {
    if a < b then b else a
  }

  /** The Minkowski distance with p = infinity: the larger of the two
      coordinate differences. */
  function ChebyshevDistance(p: Coords, q: Coords): real {
    Max(Abs(p.lat - q.lat), Abs(p.lon - q.lon))
  }

  /** The axis-aligned box test the radius query is specified by. */
  predicate InBox(p: Coords, q: Coords, r: real) {
    Abs(p.lat - q.lat) <= r && Abs(p.lon - q.lon) <= r
  }

  /** The point of a stop, in the (lat, long) order the tree is built in. */
  function StopCoords(s: Stop): Coords {
    Coords(s.lat, s.long)
  }

  /** The spatial structure, represented by the points it was built over. */
  datatype SpatialIndex = SpatialIndex(points: seq<Coords>)

  /** The coordinate array of a stop list: one point per stop, same order. */
  function PointsOf(stops: seq<Stop>): (ps: seq<Coords>)
    ensures |ps| == |stops|
    ensures forall i :: 0 <= i < |stops| ==> ps[i] == StopCoords(stops[i])
  {
    seq(|stops|, i requires 0 <= i < |stops| => StopCoords(stops[i]))
  }

  /** The indices a ball query with p = infinity reports: every point within
      Chebyshev distance `r` of `q`, each once. This scan yields them in index
      order; the tree reports the same set in an unspecified order. */
  function ScanIndices(points: seq<Coords>, q: Coords, r: real): (idx: seq<nat>)
    ensures forall k :: 0 <= k < |idx| ==> idx[k] < |points| && InBox(points[idx[k]], q, r)
    ensures forall i :: 0 <= i < |points| && InBox(points[i], q, r) ==> i in idx
    ensures forall j, k :: 0 <= j < k < |idx| ==> idx[j] < idx[k]
    decreases |points|
  {
    if points == [] then []
    else
      var n := |points| - 1;
      var rest := ScanIndices(points[..n], q, r);
      if ChebyshevDistance(points[n], q) <= r then rest + [n] else rest
  }

  /** `[data[i] for i in indices]`. */
  function SelectStops(data: seq<Stop>, indices: seq<nat>): (r: seq<Stop>)
    requires forall k :: 0 <= k < |indices| ==> indices[k] < |data|
    ensures |r| == |indices|
  {
    seq(|indices|, k requires 0 <= k < |indices| => data[indices[k]])
  }

  /** The stops the radius query returns, from the cached list and its tree. */
  function QueryNearStops(stopList: StopListResponse, tree: SpatialIndex, q: Coords, r: real): (s: seq<Stop>)
    requires |tree.points| == |stopList.data|
    ensures forall k :: 0 <= k < |s| ==> s[k] in stopList.data
  {
    SelectStops(stopList.data, ScanIndices(tree.points, q, r))
  }

  /** Reference definition: the brute-force linear scan that keeps every stop
      inside the box, in list order. */
  function StopsInBox(data: seq<Stop>, q: Coords, r: real): (s: seq<Stop>)
    ensures |s| <= |data|
    ensures multiset(s) <= multiset(data)
    ensures forall x :: x in s <==> x in data && InBox(StopCoords(x), q, r)
    decreases |data|
  {
    if data == [] then []
    else
      var n := |data| - 1;
      assert data == data[..n] + [data[n]];
      StopsInBox(data[..n], q, r) + (if InBox(StopCoords(data[n]), q, r) then [data[n]] else [])
  }

  lemma SelectStopsPrefix(data: seq<Stop>, n: nat, indices: seq<nat>)
    requires n <= |data|
    requires forall k :: 0 <= k < |indices| ==> indices[k] < n
    ensures SelectStops(data, indices) == SelectStops(data[..n], indices)
  {
  }

  lemma SelectStopsAppend(data: seq<Stop>, indices: seq<nat>, i: nat)
    requires i < |data|
    requires forall k :: 0 <= k < |indices| ==> indices[k] < |data|
    ensures SelectStops(data, indices + [i]) == SelectStops(data, indices) + [data[i]]
  {
  }

  lemma PointsOfPrefix(data: seq<Stop>, n: nat)
    requires n <= |data|
    ensures PointsOf(data)[..n] == PointsOf(data[..n])
  {
  }

  /** Over a tree built from the list itself, the model's scan selects the
      same stops, in the same order, as the brute-force filter. */
  lemma {:induction false} ScanSelectsStopsInBox(data: seq<Stop>, q: Coords, r: real)
    ensures SelectStops(data, ScanIndices(PointsOf(data), q, r)) == StopsInBox(data, q, r)
    decreases |data|
  {
    if data != [] {
      var n := |data| - 1;
      var pre := data[..n];
      var points := PointsOf(data);
      PointsOfPrefix(data, n);
      var rest := ScanIndices(PointsOf(pre), q, r);
      var inBox := InBox(StopCoords(data[n]), q, r);
      assert points[n] == StopCoords(data[n]);
      assert ChebyshevDistance(points[n], q) <= r <==> inBox;
      assert ScanIndices(points, q, r) == if inBox then rest + [n] else rest;
      assert StopsInBox(data, q, r) == StopsInBox(pre, q, r) + (if inBox then [data[n]] else []);
      ScanSelectsStopsInBox(pre, q, r);
      SelectStopsPrefix(data, n, rest);
      if inBox {
        SelectStopsAppend(data, rest, n);
      }
    }
  }

  /** The radius query over a consistent cache returns exactly the cached
      stops inside the box, none missing, none extra, with multiplicity. */
  lemma QueryIsBoxFilter(stopList: StopListResponse, q: Coords, r: real)
    ensures multiset(QueryNearStops(stopList, SpatialIndex(PointsOf(stopList.data)), q, r))
         == multiset(StopsInBox(stopList.data, q, r))
    ensures forall x :: x in QueryNearStops(stopList, SpatialIndex(PointsOf(stopList.data)), q, r)
                    <==> x in stopList.data && InBox(StopCoords(x), q, r)
  {
    ScanSelectsStopsInBox(stopList.data, q, r);
  }

  /** Coordinates of an address, or the "Address not found" error. */
  datatype LatLonResult = LatLon(latitude: real, longitude: real) | LatLonError(error: string)

  const AddressNotFound: string := "Address not found"

  /** get_lat_lon_from_address, given what the geocoder found for the address. */
  function GetLatLonFromAddress(location: Option<Coords>): (r: LatLonResult)
    ensures r.LatLon? <==> location.Some?
    ensures r.LatLon? ==> Coords(r.latitude, r.longitude) == location.value
    ensures r.LatLonError? ==> r.error == AddressNotFound
  {
    match location
    case Some(c) => LatLon(c.lat, c.lon)
    case None => LatLonError(AddressNotFound)
  }

  /** The list the fallback chain settles on: the upstream list on status
      200, else whatever the stop file held. */
  function ChosenStops(upstream: HttpResponse<StopListResponse>, stopFile: Option<StopListResponse>)
    : Option<StopListResponse>
  {
    if upstream.statusCode == StatusOk then Some(upstream.body) else stopFile
  }

  /** The single owned stop cache: the stop list and the tree built from it. */
  class KMBRouterUtil {
    var stops: Option<StopListResponse>
    var tree: Option<SpatialIndex>

    /** Both slots are set or both are empty, and point i of the tree is the
        coordinate pair of stop i of the list. */
    predicate Paired()
      reads this
    {
      && (stops.Some? <==> tree.Some?)
      && (stops.Some? ==> tree.value.points == PointsOf(stops.value.data))
    }

    /** The states the cache can reach: empty; a non-empty list with the tree
        built from it; or a list with no stops whose tree could not be built,
        which leaves the tree slot empty. */
    predicate Valid()
      reads this
    {
      && (stops.None? ==> tree.None?)
      && (stops.Some? ==> (tree.Some? <==> stops.value.data != []))
      && (tree.Some? ==> tree.value.points == PointsOf(stops.value.data))
    }

    constructor ()
      ensures Valid() && Paired() && stops.None? && tree.None?
    {
      stops := None;
      tree := None;
    }

    method ResetCache()
      modifies this
      ensures Valid() && Paired() && stops.None? && tree.None?
    {
      tree := None;
      stops := None;
    }

    /** set_stop_cache: the list is stored first; the tree is then built from
        its coordinate array, which fails for a list with no stops and leaves
        the tree slot as it was. */
    method SetStopCache(stopList: StopListResponse) returns (r: Outcome<()>)
      modifies this
      ensures stops == Some(stopList)
      ensures stopList.data != [] ==>
                r == Returned(()) && tree == Some(SpatialIndex(PointsOf(stopList.data))) && Valid() && Paired()
      ensures stopList.data != [] ==> |tree.value.points| == |stopList.data|
      ensures stopList.data == [] ==> r == Raised(EmptyTreeError) && tree == old(tree)
      ensures stopList.data == [] && old(tree).None? ==> Valid() && !Paired()
    {
      stops := Some(stopList);
      var coordinates := PointsOf(stopList.data);
      if coordinates == [] {
        return Raised(EmptyTreeError);
      }
      tree := Some(SpatialIndex(coordinates));
      r := Returned(());
    }

    /** fetch_kmb_stop: the upstream list on status 200, else the list read
        from the fallback file; when neither exists, the empty placeholder is
        returned and the cache is left as it was. A chosen list with no stops
        is stored, and the tree build raises through this call. */
    method FetchKmbStop(upstream: HttpResponse<StopListResponse>, stopFile: Option<StopListResponse>)
      returns (r: Outcome<StopListResponse>)
      requires Valid()
      modifies this
      ensures old(tree).None? || r.Returned? ==> Valid()
      ensures ChosenStops(upstream, stopFile).None? ==>
                r == Returned(EmptyStopList()) && stops == old(stops) && tree == old(tree)
      ensures ChosenStops(upstream, stopFile).Some? ==> stops == ChosenStops(upstream, stopFile)
      ensures upstream.statusCode != StatusOk && stopFile.Some? ==> stops == stopFile
      ensures ChosenStops(upstream, stopFile).Some? && ChosenStops(upstream, stopFile).value.data != [] ==>
                r == Returned(ChosenStops(upstream, stopFile).value) && Paired()
      ensures ChosenStops(upstream, stopFile).Some? && ChosenStops(upstream, stopFile).value.data == [] ==>
                r == Raised(EmptyTreeError) && tree == old(tree)
    {
      var stopList: Option<StopListResponse>;
      if upstream.statusCode == StatusOk {
        stopList := Some(upstream.body);
      } else {
        stopList := stopFile;
      }
      if stopList.None? {
        return Returned(EmptyStopList());
      }
      var stored := SetStopCache(stopList.value);
      if stored.Raised? {
        return Raised(stored.reason);
      }
      r := Returned(stopList.value);
    }

    /** load_near_stop_with_lat_lon: fill an empty cache once, then query it.
        A populated cache is only read, even one whose tree slot is empty.
        An exception from the fill propagates; with no tree the query itself
        raises. */
    method LoadNearStopWithLatLon(lat: real, lon: real, radiusSetting: Option<real>,
                                  upstream: HttpResponse<StopListResponse>, stopFile: Option<StopListResponse>)
      returns (r: Outcome<seq<Stop>>)
      requires Valid()
      modifies this
      ensures Valid()
      ensures old(stops).Some? ==> stops == old(stops) && tree == old(tree)
      ensures old(stops).None? ==> stops == ChosenStops(upstream, stopFile)
      ensures tree.None? <==> r.Raised?
      ensures r.Raised? ==>
                r.reason == (if old(stops).None? && stops.Some? then EmptyTreeError else NoneTreeError)
      ensures r.Returned? ==>
                r.value == QueryNearStops(stops.value, tree.value, Coords(lat, lon), NearStopDistance(radiusSetting))
      ensures r.Returned? ==>
                forall x :: x in r.value <==>
                  x in stops.value.data && InBox(StopCoords(x), Coords(lat, lon), NearStopDistance(radiusSetting))
      ensures r.Returned? ==>
                multiset(r.value) == multiset(StopsInBox(stops.value.data, Coords(lat, lon), NearStopDistance(radiusSetting)))
    {
      if stops.None? {
        // The result is never None, so the `is None` early return is dead.
        var fetched := FetchKmbStop(upstream, stopFile);
        if fetched.Raised? {
          return Raised(fetched.reason);
        }
      }
      var queryPoint := Coords(lat, lon);
      var distance := NearStopDistance(radiusSetting);
      if tree.None? {
        return Raised(NoneTreeError);
      }
      var nearbyStops := QueryNearStops(stops.value, tree.value, queryPoint, distance);
      QueryIsBoxFilter(stops.value, queryPoint, distance);
      r := Returned(nearbyStops);
    }

    /** load_near_stop_with_address, given what the geocoder found: no
        location gives an empty list without touching the cache; otherwise
        the lat/lon query at the location found. */
    method LoadNearStopWithAddress(location: Option<Coords>, radiusSetting: Option<real>,
                                   upstream: HttpResponse<StopListResponse>, stopFile: Option<StopListResponse>)
      returns (r: Outcome<seq<Stop>>)
      requires Valid()
      modifies this
      ensures Valid()
      ensures location.None? ==> r == Returned([]) && stops == old(stops) && tree == old(tree)
      ensures location.Some? && old(stops).Some? ==> stops == old(stops) && tree == old(tree)
      ensures location.Some? && old(stops).None? ==> stops == ChosenStops(upstream, stopFile)
      ensures location.Some? ==> (tree.None? <==> r.Raised?)
      ensures r.Raised? ==>
                r.reason == (if old(stops).None? && stops.Some? then EmptyTreeError else NoneTreeError)
      ensures location.Some? && r.Returned? ==>
                r.value == QueryNearStops(stops.value, tree.value, location.value, NearStopDistance(radiusSetting))
      ensures location.Some? && r.Returned? ==>
                forall x :: x in r.value <==>
                  x in stops.value.data && InBox(StopCoords(x), location.value, NearStopDistance(radiusSetting))
      ensures location.Some? && r.Returned? ==>
                multiset(r.value) == multiset(StopsInBox(stops.value.data, location.value, NearStopDistance(radiusSetting)))
    {
      if location.None? {
        return Returned([]);
      }
      r := LoadNearStopWithLatLon(location.value.lat, location.value.lon, radiusSetting, upstream, stopFile);
    }
  }
}
