/**
 * What the weather provider returns, once the HTTP exchange is taken out:
 * the outcome of the request and the parts of the `format=j1` JSON body
 * that the handlers read. Every field the handlers format is a string in
 * the provider's schema; list-valued fields keep their length, so that an
 * index past the end can be modelled.
 */
module Provider {
  import opened Wrappers

  /** One element of `current_condition`. `weatherDesc` holds the `value` of each element of its list. */
  datatype Current = Current(
    tempC: string,
    tempF: string,
    feelsLikeC: string,
    feelsLikeF: string,
    weatherDesc: seq<string>,
    humidity: string,
    windspeedKmph: string,
    windspeedMiles: string,
    winddir16Point: string,
    uvIndex: string,
    visibility: string,
    visibilityMiles: string,
    pressure: string)

  /** One element of a day's `hourly` list. */
  datatype Hourly = Hourly(weatherDesc: seq<string>, chanceofrain: string)

  /** One element of `weather`: a forecast day. */
  datatype Day = Day(
    date: string,
    maxtempC: string,
    maxtempF: string,
    mintempC: string,
    mintempF: string,
    hourly: seq<Hourly>)

  /** A key of a JSON object: missing, present with the value null, or present with a list. */
  datatype Member<T> = Absent | Null | Present(value: T)

  /**
   * The decoded JSON body: either a bare JSON string or an object with
   * `current_condition` and `weather` keys. A missing or null
   * `current_condition` is None (the handler treats the two alike); for
   * `weather` the handler tells them apart, so its three cases are kept.
   */
  datatype Payload =
    | Text(text: string)
    | Record(currentCondition: Option<seq<Current>>, weather: Member<seq<Day>>)

  /**
   * The outcome of the GET request: a decoded body, a status error raised
   * by the client for a non-success response, or any other exception
   * (transport failure, timeout, undecodable body) with its `str()`.
   */
  datatype FetchResult =
    | Fetched(payload: Payload)
    | HttpStatus(code: nat)
    | OtherFailure(message: string)
}
