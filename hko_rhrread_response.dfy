/** Field shapes of the weather service's current-readings payload, as far
    as the nearby-station search reads it. */
module HkoRhrreadResponse {

  /** The temperature measured at one named place. */
  datatype TemperatureData = TemperatureData(place: string, value: int, unit: string)

  datatype Temperature = Temperature(data: seq<TemperatureData>, recordTime: string)

  datatype HkoRhrreadResponse = HkoRhrreadResponse(temperature: Temperature)
}
