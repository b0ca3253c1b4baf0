/** Field shapes of the bus operator's stop list payload. */
module StopResponse {

  /** One bus stop. The payload carries the coordinates as text; the model
      holds them already parsed. */
  datatype Stop = Stop(
    stop: string,
    nameEn: string,
    nameTc: string,
    nameSc: string,
    lat: real,
    long: real)

  /** The whole stop list; `responseType` is the payload's `type` field. */
  datatype StopListResponse = StopListResponse(
    responseType: string,
    version: string,
    generatedTimestamp: string,
    data: seq<Stop>)

  /** The placeholder list returned when no stop list can be obtained. */
  function EmptyStopList(): (r: StopListResponse)
    ensures r.data == []
  {
    StopListResponse("", "", "", [])
  }
}
