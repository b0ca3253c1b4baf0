/** Field shapes of the bus operator's per-stop ETA payload. */
module KmbStopEta {
  import opened Wrappers

  /** One ETA entry; `stopSeq` is the payload's `seq` field and
      `eta` is absent when no estimate is available. */
  datatype StopEtaData = StopEtaData(
    co: string,
    route: string,
    dir: string,
    serviceType: int,
    stopSeq: int,
    destTc: string,
    destSc: string,
    destEn: string,
    etaSeq: int,
    eta: Option<string>,
    rmkTc: string,
    rmkSc: string,
    rmkEn: string,
    dataTimestamp: string)

  datatype KmbStopEtaResponse = KmbStopEtaResponse(
    responseType: string,
    version: string,
    generatedTimestamp: string,
    data: seq<StopEtaData>)
}
