/** ETA assembly for the nearby-stop workflow: the per-stop record and the
    geocode -> nearby stops -> per-stop ETA fan-out. */
module KmbRouter {
  import opened Wrappers
  import opened Gateways
  import opened StopResponse
  import opened KmbStopEta
  import opened KmbUtil

  /** One entry of a stop record's `eta_data`. */
  datatype EtaRecord = EtaRecord(
    route: string,
    destinationEn: string,
    destinationTc: string,
    destinationSc: string,
    eta: Option<string>,
    etaSeq: int,
    direction: string,
    serviceType: int,
    remarksEn: string,
    remarksTc: string,
    remarksSc: string)

  /** The record built for one stop; `error` is present only when fetching
      its ETA raised. */
  datatype StopInfo = StopInfo(
    stopId: string,
    stopNameEn: string,
    stopNameTc: string,
    stopNameSc: string,
    latitude: real,
    longitude: real,
    etaData: seq<EtaRecord>,
    error: Option<string>)

  /** What fetching one stop's ETA did: it returned a response (absent on a
      non-200 status) or it raised. */
  type FetchOutcome = Outcome<Option<KmbStopEtaResponse>>

  const EtaErrorPrefix: string := "Failed to fetch ETA: "
  const AddressNotFoundDetails: string :=
    "Could not geocode the provided address. Please check the address and try again."
  const NoStopsMessage: string :=
    "No bus stops found nearby. Try a different address or increase search radius."

  /** The fields of an ETA entry that the record keeps. */
  function ToEtaRecord(e: StopEtaData): (r: EtaRecord)
    ensures r.route == e.route && r.eta == e.eta
  {
    EtaRecord(e.route, e.destEn, e.destTc, e.destSc, e.eta, e.etaSeq, e.dir,
              e.serviceType, e.rmkEn, e.rmkTc, e.rmkSc)
  }

  /** No filter keeps every entry; a filter keeps the entries of that route. */
  predicate RouteMatches(e: StopEtaData, routeFilter: Option<string>) {
    routeFilter.None? || e.route == routeFilter.value
  }

  /** The entries that pass the route filter, in their original order. */
  function SelectByRoute(entries: seq<StopEtaData>, routeFilter: Option<string>): (r: seq<StopEtaData>)
    ensures |r| <= |entries|
    decreases |entries|
  {
    if entries == [] then []
    else
      var n := |entries| - 1;
      SelectByRoute(entries[..n], routeFilter) + (if RouteMatches(entries[n], routeFilter) then [entries[n]] else [])
  }

  /** The kept entries are exactly the entries that pass the filter. */
  lemma {:induction false} SelectByRouteMembers(entries: seq<StopEtaData>, routeFilter: Option<string>)
    ensures forall e :: e in SelectByRoute(entries, routeFilter) <==> e in entries && RouteMatches(e, routeFilter)
    decreases |entries|
  {
    if entries != [] {
      var n := |entries| - 1;
      SelectByRouteMembers(entries[..n], routeFilter);
      assert entries == entries[..n] + [entries[n]];
    }
  }

  /** The filter distributes over concatenation: it keeps order and decides
      each entry on its own. */
  lemma {:induction false} SelectByRouteAppend(a: seq<StopEtaData>, b: seq<StopEtaData>, routeFilter: Option<string>)
    ensures SelectByRoute(a + b, routeFilter) == SelectByRoute(a, routeFilter) + SelectByRoute(b, routeFilter)
    decreases |b|
  {
    if b != [] {
      var n := |b| - 1;
      assert (a + b)[..|a| + n] == a + b[..n];
      assert (a + b)[|a| + n] == b[n];
      SelectByRouteAppend(a, b[..n], routeFilter);
    } else {
      assert a + b == a;
    }
  }

  /** Without a filter every entry is kept. */
  lemma {:induction false} SelectByRouteNoFilter(entries: seq<StopEtaData>)
    ensures SelectByRoute(entries, None) == entries
    decreases |entries|
  {
    if entries != [] {
      var n := |entries| - 1;
      SelectByRouteNoFilter(entries[..n]);
      assert entries == entries[..n] + [entries[n]];
    }
  }

  /** An entry list with no entry of the filtered route yields nothing. */
  lemma {:induction false} SelectByRouteNoMatch(entries: seq<StopEtaData>, route: string)
    requires forall e :: e in entries ==> e.route != route
    ensures SelectByRoute(entries, Some(route)) == []
    decreases |entries|
  {
    if entries != [] {
      var n := |entries| - 1;
      assert entries[n] in entries;
      SelectByRouteNoMatch(entries[..n], route);
    }
  }

  lemma SelectByRouteStep(entries: seq<StopEtaData>, i: nat, routeFilter: Option<string>)
    requires i < |entries|
    ensures SelectByRoute(entries[..i + 1], routeFilter)
         == if RouteMatches(entries[i], routeFilter)
            then SelectByRoute(entries[..i], routeFilter) + [entries[i]]
            else SelectByRoute(entries[..i], routeFilter)
  {
    assert entries[..i + 1][..i] == entries[..i];
  }

  function EtaRecords(entries: seq<StopEtaData>): (r: seq<EtaRecord>)
    ensures |r| == |entries|
  {
    seq(|entries|, k requires 0 <= k < |entries| => ToEtaRecord(entries[k]))
  }

  lemma EtaRecordsAppend(entries: seq<StopEtaData>, e: StopEtaData)
    ensures EtaRecords(entries + [e]) == EtaRecords(entries) + [ToEtaRecord(e)]
  {
  }

  /** The entries of an ETA response; none when there is no response. */
  function EtaEntries(etaResponse: Option<KmbStopEtaResponse>): seq<StopEtaData> {
    match etaResponse
    case None => []
    case Some(resp) => resp.data
  }

  /** The record `_build_stop_info` yields. */
  function StopInfoOf(stop: Stop, etaResponse: Option<KmbStopEtaResponse>, routeFilter: Option<string>): (r: StopInfo)
    ensures r.stopId == stop.stop && r.latitude == stop.lat && r.longitude == stop.long
    ensures r.error.None?
    ensures |r.etaData| <= |EtaEntries(etaResponse)|
  {
    StopInfo(stop.stop, stop.nameEn, stop.nameTc, stop.nameSc, stop.lat, stop.long,
             EtaRecords(SelectByRoute(EtaEntries(etaResponse), routeFilter)), None)
  }

  /** _build_stop_info: the stop's identity copied through, and one ETA record
      per entry of the response that passes the route filter, in order. */
  method BuildStopInfo(stop: Stop, etaResponse: Option<KmbStopEtaResponse>, routeFilter: Option<string>)
    returns (info: StopInfo)
    ensures info.stopId == stop.stop
    ensures info.stopNameEn == stop.nameEn && info.stopNameTc == stop.nameTc && info.stopNameSc == stop.nameSc
    ensures info.latitude == stop.lat && info.longitude == stop.long
    ensures info.error.None?
    ensures info.etaData == EtaRecords(SelectByRoute(EtaEntries(etaResponse), routeFilter))
    ensures etaResponse.None? ==> info.etaData == []
    ensures info == StopInfoOf(stop, etaResponse, routeFilter)
  {
    info := StopInfo(stop.stop, stop.nameEn, stop.nameTc, stop.nameSc, stop.lat, stop.long, [], None);
    if etaResponse.Some? && |etaResponse.value.data| > 0 {
      var data := etaResponse.value.data;
      var i := 0;
      while i < |data|
        invariant 0 <= i <= |data|
        invariant info == StopInfo(stop.stop, stop.nameEn, stop.nameTc, stop.nameSc, stop.lat, stop.long,
                                   info.etaData, None)
        invariant info.etaData == EtaRecords(SelectByRoute(data[..i], routeFilter))
      {
        ghost var selected := SelectByRoute(data[..i], routeFilter);
        SelectByRouteStep(data, i, routeFilter);
        if RouteMatches(data[i], routeFilter) {
          EtaRecordsAppend(selected, data[i]);
          info := info.(etaData := info.etaData + [ToEtaRecord(data[i])]);
        }
        i := i + 1;
      }
      assert data[..i] == data;
    }
  }

  /** The record of one stop after its fetch: a raised fetch gives the
      unfiltered empty record tagged with the reason. */
  function StopWithEta(stop: Stop, outcome: FetchOutcome, routeFilter: Option<string>): (r: StopInfo)
    ensures r.stopId == stop.stop
    ensures outcome.Raised? ==> r.etaData == [] && r.error == Some(EtaErrorPrefix + outcome.reason)
    ensures outcome.Returned? ==> r == StopInfoOf(stop, outcome.value, routeFilter)
  {
    match outcome
    case Returned(etaResponse) => StopInfoOf(stop, etaResponse, routeFilter)
    case Raised(reason) => StopInfoOf(stop, None, None).(error := Some(EtaErrorPrefix + reason))
  }

  /** The `stops_with_eta` list for the nearby stops and their fetch outcomes. */
  function StopsWithEta(nearby: seq<Stop>, outcomes: seq<FetchOutcome>, routeFilter: Option<string>): (r: seq<StopInfo>)
    requires |outcomes| == |nearby|
    ensures |r| == |nearby|
    ensures forall k :: 0 <= k < |r| ==> r[k].stopId == nearby[k].stop
  {
    seq(|nearby|, k requires 0 <= k < |nearby| => StopWithEta(nearby[k], outcomes[k], routeFilter))
  }

  /** Per-stop failure isolation: whatever one fetch does, every other stop's
      record is the same, and that stop still has its record. */
  lemma FetchFailureIsolated(nearby: seq<Stop>, outcomes: seq<FetchOutcome>, routeFilter: Option<string>,
                             j: nat, other: FetchOutcome)
    requires |outcomes| == |nearby| && j < |nearby|
    ensures |StopsWithEta(nearby, outcomes[j := other], routeFilter)| == |nearby|
    ensures StopsWithEta(nearby, outcomes[j := other], routeFilter)[j].stopId == nearby[j].stop
    ensures forall k :: 0 <= k < |nearby| && k != j ==>
              StopsWithEta(nearby, outcomes[j := other], routeFilter)[k] == StopsWithEta(nearby, outcomes, routeFilter)[k]
  {
  }

  /** A filter that matches no entry of a stop leaves that stop in the list,
      with no ETA records. */
  lemma UnmatchedFilterKeepsStop(nearby: seq<Stop>, outcomes: seq<FetchOutcome>, route: string, k: nat)
    requires |outcomes| == |nearby| && k < |nearby|
    requires outcomes[k].Returned?
    requires forall e :: e in EtaEntries(outcomes[k].value) ==> e.route != route
    ensures StopsWithEta(nearby, outcomes, Some(route))[k].stopId == nearby[k].stop
    ensures StopsWithEta(nearby, outcomes, Some(route))[k].etaData == []
    ensures StopsWithEta(nearby, outcomes, Some(route))[k].error.None?
  {
    SelectByRouteNoMatch(EtaEntries(outcomes[k].value), route);
  }

  /** The ETA loop of `_eta_workflow`: one record per nearby stop, in order;
      a fetch that raises is caught and recorded on that stop alone. */
  method FetchStopsWithEta(nearbyStops: seq<Stop>, routeFilter: Option<string>, etaFetch: nat -> FetchOutcome)
    returns (stopsWithEta: seq<StopInfo>)
    ensures |stopsWithEta| == |nearbyStops|
    ensures forall k :: 0 <= k < |nearbyStops| ==> stopsWithEta[k] == StopWithEta(nearbyStops[k], etaFetch(k), routeFilter)
    ensures stopsWithEta
            == StopsWithEta(nearbyStops, seq(|nearbyStops|, k requires 0 <= k < |nearbyStops| => etaFetch(k)), routeFilter)
  {
    stopsWithEta := [];
    var i := 0;
    while i < |nearbyStops|
      invariant 0 <= i <= |nearbyStops|
      invariant |stopsWithEta| == i
      invariant forall k :: 0 <= k < i ==> stopsWithEta[k] == StopWithEta(nearbyStops[k], etaFetch(k), routeFilter)
    {
      var stop := nearbyStops[i];
      var outcome := etaFetch(i);
      var info: StopInfo;
      match outcome {
        case Returned(etaResponse) =>
          info := BuildStopInfo(stop, etaResponse, routeFilter);
        case Raised(reason) =>
          info := BuildStopInfo(stop, None, None);
          info := info.(error := Some(EtaErrorPrefix + reason));
      }
      stopsWithEta := stopsWithEta + [info];
      i := i + 1;
    }
  }

  /** What `_eta_workflow` returns when it does not raise. */
  datatype EtaWorkflowResult =
    | AddressNotFoundResult(address: string, details: string)
    | EtaReport(
        address: string,
        latitude: real,
        longitude: real,
        nearbyStopsCount: nat,
        stopsWithEta: seq<StopInfo>,
        message: Option<string>,
        searchRadiusDegrees: Option<real>)

  /** _eta_workflow for one address: `location` is what the geocoder found,
      `etaFetch(k)` what fetching the k-th nearby stop's ETA did. */
  method EtaWorkflow(util: KMBRouterUtil, address: string, routeFilter: Option<string>,
                     location: Option<Coords>, radiusSetting: Option<real>,
                     upstream: HttpResponse<StopListResponse>, stopFile: Option<StopListResponse>,
                     etaFetch: nat -> FetchOutcome)
    returns (r: Outcome<EtaWorkflowResult>)
    requires util.Valid()
    modifies util
    ensures util.Valid()
    ensures location.None? ==>
              r == Returned(AddressNotFoundResult(address, AddressNotFoundDetails))
              && util.stops == old(util.stops) && util.tree == old(util.tree)
    ensures location.Some? && old(util.stops).Some? ==>
              util.stops == old(util.stops) && util.tree == old(util.tree)
    ensures location.Some? && old(util.stops).None? ==> util.stops == ChosenStops(upstream, stopFile)
    ensures location.Some? ==> (r.Raised? <==> util.tree.None?)
    ensures r.Raised? ==>
              r.reason == (if old(util.stops).None? && util.stops.Some? then EmptyTreeError else NoneTreeError)
    ensures location.Some? && util.tree.Some? ==>
              var nearby := QueryNearStops(util.stops.value, util.tree.value, location.value, NearStopDistance(radiusSetting));
              r.Returned? && r.value.EtaReport?
              && r.value.address == address
              && r.value.latitude == location.value.lat && r.value.longitude == location.value.lon
              && r.value.nearbyStopsCount == |nearby| == |r.value.stopsWithEta|
              && (nearby == [] ==> r.value.message == Some(NoStopsMessage) && r.value.searchRadiusDegrees.None?)
              && (nearby != [] ==>
                    && r.value.message.None?
                    && r.value.searchRadiusDegrees == Some(NearStopDistance(radiusSetting))
                    && r.value.stopsWithEta
                       == StopsWithEta(nearby, seq(|nearby|, k requires 0 <= k < |nearby| => etaFetch(k)), routeFilter))
  {
    var latLon := GetLatLonFromAddress(location);
    if latLon.LatLonError? {
      return Returned(AddressNotFoundResult(address, AddressNotFoundDetails));
    }
    var latitude, longitude := latLon.latitude, latLon.longitude;
    var loaded := util.LoadNearStopWithLatLon(latitude, longitude, radiusSetting, upstream, stopFile);
    if loaded.Raised? {
      return Raised(loaded.reason);
    }
    var nearbyStops := loaded.value;
    if nearbyStops == [] {
      return Returned(EtaReport(address, latitude, longitude, 0, [], Some(NoStopsMessage), None));
    }
    var stopsWithEta := FetchStopsWithEta(nearbyStops, routeFilter, etaFetch);
    r := Returned(EtaReport(address, latitude, longitude, |nearbyStops|, stopsWithEta, None,
                            Some(NearStopDistance(radiusSetting))));
  }
}
