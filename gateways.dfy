/** Values handed to the core by the collaborators it does not own: the
    geocoding provider and the HTTP client. */
module Gateways {

  /** A point in decimal degrees, as (latitude, longitude). */
  datatype Coords = Coords(lat: real, lon: real)

  /** An HTTP response: its status code and the payload that a status 200
      body parses to. The body means nothing for other status codes. */
  datatype HttpResponse<T> = HttpResponse(statusCode: int, body: T)

  /** The one status code the core treats as success. */
  const StatusOk: int := 200
}
