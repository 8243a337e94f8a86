/**
 * The `get_weather` tool: input validation, the branch on the provider's
 * answer, unit-dependent formatting of the current conditions and the
 * optional three-day forecast.
 */
module Weather {
  import opened Wrappers
  import opened PyText
  import opened Provider

  /** One entry of the `forecast` list. */
  datatype ForecastDay = ForecastDay(
    date: string,
    maxTemp: string,
    minTemp: string,
    condition: string,
    rainChance: string)

  /** The success dictionary; `forecast` is present only for a detailed request. */
  datatype WeatherReport = WeatherReport(
    city: string,
    temperature: string,
    feelsLike: string,
    condition: string,
    humidity: string,
    wind: string,
    windDirection: string,
    uvIndex: string,
    visibility: string,
    pressure: string,
    updated: string,
    forecast: Option<seq<ForecastDay>>)

  /** What the tool returns: a report or a dictionary with an `error` text. */
  datatype WeatherResult = Report(report: WeatherReport) | Error(message: string)

  const CITY_REQUIRED := "City name is required"
  const BAD_UNITS := "Units must be 'metric' or 'imperial'"
  const FAILED := "Failed to get weather: "
  /** `str()` of the IndexError raised by indexing past the end of a list. */
  const INDEX_ERROR := "list index out of range"
  /** `str()` of the KeyError raised by `data["weather"]` on an object without that key. */
  const WEATHER_KEY_ERROR := "'weather'"
  /** `str()` of the TypeError raised by slicing `data["weather"]` when its value is null. */
  const NONE_SUBSCRIPT_ERROR := "'NoneType' object is not subscriptable"
  /** `str()` of the TypeError raised by indexing a str with a str key. */
  const STR_INDEX_ERROR := "string indices must be integers, not 'str'"

  predicate ValidUnits(units: string)
  {
    units == "metric" || units == "imperial"
  }

  /** A temperature in the requested units: the Celsius field with "°C" or the Fahrenheit field with "°F". */
  function Degrees(celsius: string, fahrenheit: string, units: string): string
  {
    if units == "metric" then celsius + "°C" else fahrenheit + "°F"
  }

  /** The report built from the first `current_condition` entry (no forecast yet). */
  function CurrentReport(city: string, units: string, c: Current, now: string): WeatherReport
    requires c.weatherDesc != []
  {
    var metric := units == "metric";
    WeatherReport(
      city := city,
      temperature := Degrees(c.tempC, c.tempF, units),
      feelsLike := Degrees(c.feelsLikeC, c.feelsLikeF, units),
      condition := c.weatherDesc[0],
      humidity := c.humidity + "%",
      wind := if metric then c.windspeedKmph + " km/h" else c.windspeedMiles + " mph",
      windDirection := c.winddir16Point,
      uvIndex := c.uvIndex,
      visibility := if metric then c.visibility + " km" else c.visibilityMiles + " miles",
      pressure := c.pressure + " mb",
      updated := now,
      forecast := None)
  }

  /** The branch on a decoded body, up to and including the current conditions. */
  function FromPayload(city: string, units: string, payload: Payload, now: string): WeatherResult
  {
    match payload
    case Text(s) =>
      if Contains(s, "Unknown location") then Error("Unknown location: " + city)
      // on a str, `"current_condition" not in data` is a substring test, and
      // `data["current_condition"]` then raises TypeError
      else if Contains(s, "current_condition") then Error(FAILED + STR_INDEX_ERROR)
      else Error("No weather data available for " + city)
    case Record(cc, _) =>
      if cc.None? || cc.value == [] then Error("No weather data available for " + city)
      else if cc.value[0].weatherDesc == [] then Error(FAILED + INDEX_ERROR)
      else Report(CurrentReport(city, units, cc.value[0], now))
  }

  /** Validation, then the request's outcome, then the current conditions. */
  function CurrentOf(city: string, units: string, response: FetchResult, now: string): WeatherResult
  {
    if city == [] then Error(CITY_REQUIRED)
    else if !ValidUnits(units) then Error(BAD_UNITS)
    else match response
      case HttpStatus(code) => Error("Weather API error: " + DecimalString(code))
      case OtherFailure(msg) => Error(FAILED + msg)
      case Fetched(payload) => FromPayload(city, units, payload, now)
  }

  /** The `weather` member of the body; a body that is not an object has none. */
  function ForecastSource(response: FetchResult): Member<seq<Day>>
  {
    if response.Fetched? && response.payload.Record? then response.payload.weather else Absent
  }

  /** A forecast day can be read: it has a fifth hourly entry, and that entry a description. */
  predicate DayReadable(d: Day)
  {
    |d.hourly| > 4 && d.hourly[4].weatherDesc != []
  }

  /** The forecast entry of one day, taken from its fifth (midday) hourly entry. */
  function ForecastEntry(d: Day, units: string): ForecastDay
    requires DayReadable(d)
  {
    ForecastDay(
      date := d.date,
      maxTemp := Degrees(d.maxtempC, d.maxtempF, units),
      minTemp := Degrees(d.mintempC, d.mintempF, units),
      condition := d.hourly[4].weatherDesc[0],
      rainChance := d.hourly[4].chanceofrain + "%")
  }

  /** The number of forecast days: at most three. */
  function ForecastLength(days: seq<Day>): nat
  {
    if |days| < 3 then |days| else 3
  }

  /**
   * The forecast of the first three days, in order, or None when one of
   * them cannot be read (the IndexError of lines 97-98).
   */
  function Forecast(days: seq<Day>, units: string): Option<seq<ForecastDay>>
  {
    var n := ForecastLength(days);
    if forall i :: 0 <= i < n ==> DayReadable(days[i]) then
      Some(seq(n, i requires 0 <= i < n => ForecastEntry(days[i], units)))
    else None
  }

  /** The whole tool: what `get_weather(city, units, detailed)` returns for a given provider outcome. */
  function WeatherOf(city: string, units: string, detailed: bool, response: FetchResult, now: string): WeatherResult
  {
    var current := CurrentOf(city, units, response, now);
    if current.Error? || !detailed then current
    else match ForecastSource(response)
      case Absent => Error(FAILED + WEATHER_KEY_ERROR)
      case Null => Error(FAILED + NONE_SUBSCRIPT_ERROR)
      case Present(days) =>
        match Forecast(days, units)
        case None => Error(FAILED + INDEX_ERROR)
        case Some(f) => Report(current.report.(forecast := Some(f)))
  }

  /** The forecast loop: append one entry per day of `weather[:3]`. */
  method BuildForecast(days: seq<Day>, units: string) returns (r: Option<seq<ForecastDay>>)
    ensures r == Forecast(days, units)
  {
    var n := if |days| < 3 then |days| else 3;
    var forecast: seq<ForecastDay> := [];
    var i := 0;
    while i < n
      invariant 0 <= i <= n == ForecastLength(days)
      invariant forall k :: 0 <= k < i ==> DayReadable(days[k])
      invariant |forecast| == i
      invariant forall k :: 0 <= k < i ==> forecast[k] == ForecastEntry(days[k], units)
    {
      var day := days[i];
      if |day.hourly| <= 4 || day.hourly[4].weatherDesc == [] {
        assert !DayReadable(days[i]);
        return None;
      }
      forecast := forecast + [ForecastEntry(day, units)];
      i := i + 1;
    }
    assert forecast == seq(n, k requires 0 <= k < n => ForecastEntry(days[k], units));
    r := Some(forecast);
  }

  /** `get_weather` with the provider's answer given as `response` and the clock reading as `now`. */
  method GetWeather(city: string, units: string, detailed: bool, response: FetchResult, now: string)
    returns (r: WeatherResult)
    ensures r == WeatherOf(city, units, detailed, response, now)
  {
    r := CurrentOf(city, units, response, now);
    if r.Report? && detailed {
      var days := ForecastSource(response);
      if days.Absent? {
        r := Error(FAILED + WEATHER_KEY_ERROR);
      } else if days.Null? {
        r := Error(FAILED + NONE_SUBSCRIPT_ERROR);
      } else {
        var f := BuildForecast(days.value, units);
        if f.None? {
          r := Error(FAILED + INDEX_ERROR);
        } else {
          r := Report(r.report.(forecast := f));
        }
      }
    }
  }

  // -----------------------------------------------------------------------
  // Properties
  // -----------------------------------------------------------------------

  /**
   * Validation comes first and consults nothing else: an empty city gives
   * the "required" error, a valid city with other units the units error,
   * whatever the provider would have answered.
   */
  lemma ValidationFirst(city: string, units: string, detailed: bool, r1: FetchResult, r2: FetchResult, now: string)
    requires city == [] || !ValidUnits(units)
    ensures WeatherOf(city, units, detailed, r1, now) == WeatherOf(city, units, detailed, r2, now)
    ensures WeatherOf(city, units, detailed, r1, now) == Error(if city == [] then CITY_REQUIRED else BAD_UNITS)
  {
  }

  /** The provider's failures become error texts carrying the status code or the exception's text. */
  lemma RequestFailures(city: string, units: string, detailed: bool, response: FetchResult, now: string)
    requires city != [] && ValidUnits(units) && !response.Fetched?
    ensures response.HttpStatus? ==>
              WeatherOf(city, units, detailed, response, now) == Error("Weather API error: " + DecimalString(response.code))
    ensures response.OtherFailure? ==>
              WeatherOf(city, units, detailed, response, now) == Error(FAILED + response.message)
  {
  }

  /**
   * The "not found" answers: a string body mentioning "Unknown location",
   * and an object whose `current_condition` is missing or empty.
   */
  lemma NotFound(city: string, units: string, detailed: bool, payload: Payload, now: string)
    requires city != [] && ValidUnits(units)
    ensures payload.Text? && Contains(payload.text, "Unknown location") ==>
              WeatherOf(city, units, detailed, Fetched(payload), now) == Error("Unknown location: " + city)
    ensures payload.Record? && (payload.currentCondition.None? || payload.currentCondition.value == []) ==>
              WeatherOf(city, units, detailed, Fetched(payload), now) == Error("No weather data available for " + city)
  {
  }

  /**
   * A detailed request whose current conditions can be read fails on the
   * `weather` member: with the KeyError text when the key is missing, with
   * the TypeError text when its value is null.
   */
  lemma MissingForecast(city: string, units: string, current: seq<Current>, now: string)
    requires city != [] && ValidUnits(units) && current != [] && current[0].weatherDesc != []
    ensures WeatherOf(city, units, true, Fetched(Record(Some(current), Absent)), now) == Error(FAILED + WEATHER_KEY_ERROR)
    ensures WeatherOf(city, units, true, Fetched(Record(Some(current), Null)), now) == Error(FAILED + NONE_SUBSCRIPT_ERROR)
    ensures WeatherOf(city, units, false, Fetched(Record(Some(current), Null)), now).Report?
  {
  }

  /** The conditions under which a report comes back, in both directions. */
  lemma ReportIff(city: string, units: string, detailed: bool, response: FetchResult, now: string)
    ensures WeatherOf(city, units, detailed, response, now).Report? <==>
              && city != [] && ValidUnits(units)
              && response.Fetched? && response.payload.Record?
              && response.payload.currentCondition.Some?
              && response.payload.currentCondition.value != []
              && response.payload.currentCondition.value[0].weatherDesc != []
              && (detailed ==>
                    && response.payload.weather.Present?
                    && forall i :: 0 <= i < ForecastLength(response.payload.weather.value) ==>
                         DayReadable(response.payload.weather.value[i]))
  {
  }

  /**
   * The fields of a report: units select the provider field and suffix of
   * temperature, feels-like, wind and visibility; humidity and pressure do
   * not depend on units; the city is the caller's string.
   */
  lemma ReportFields(city: string, units: string, detailed: bool, response: FetchResult, now: string)
    requires WeatherOf(city, units, detailed, response, now).Report?
    ensures response.Fetched? && response.payload.Record?
    ensures response.payload.currentCondition.Some? && response.payload.currentCondition.value != []
    ensures var c := response.payload.currentCondition.value[0];
            var rep := WeatherOf(city, units, detailed, response, now).report;
            && rep.city == city
            && rep.updated == now
            && c.weatherDesc != [] && rep.condition == c.weatherDesc[0]
            && rep.humidity == c.humidity + "%"
            && rep.pressure == c.pressure + " mb"
            && rep.windDirection == c.winddir16Point
            && rep.uvIndex == c.uvIndex
            && (units == "metric" ==>
                  && rep.temperature == c.tempC + "°C"
                  && rep.feelsLike == c.feelsLikeC + "°C"
                  && rep.wind == c.windspeedKmph + " km/h"
                  && rep.visibility == c.visibility + " km")
            && (units == "imperial" ==>
                  && rep.temperature == c.tempF + "°F"
                  && rep.feelsLike == c.feelsLikeF + "°F"
                  && rep.wind == c.windspeedMiles + " mph"
                  && rep.visibility == c.visibilityMiles + " miles")
  {
  }

  /**
   * The forecast is present exactly for detailed requests; it has
   * min(3, |weather|) entries, in order, entry i taken from day i's
   * fifth hourly entry.
   */
  lemma ForecastShape(city: string, units: string, detailed: bool, response: FetchResult, now: string)
    requires WeatherOf(city, units, detailed, response, now).Report?
    ensures var rep := WeatherOf(city, units, detailed, response, now).report;
            rep.forecast.Some? <==> detailed
    ensures detailed ==>
              var rep := WeatherOf(city, units, detailed, response, now).report;
              var days := response.payload.weather.value;
              && |rep.forecast.value| == ForecastLength(days) <= 3
              && forall i :: 0 <= i < |rep.forecast.value| ==>
                   && DayReadable(days[i])
                   && rep.forecast.value[i].date == days[i].date
                   && rep.forecast.value[i].condition == days[i].hourly[4].weatherDesc[0]
                   && rep.forecast.value[i].rainChance == days[i].hourly[4].chanceofrain + "%"
                   && rep.forecast.value[i].maxTemp == Degrees(days[i].maxtempC, days[i].maxtempF, units)
                   && rep.forecast.value[i].minTemp == Degrees(days[i].mintempC, days[i].mintempF, units)
  {
  }

  /** A provider reporting "20" degrees Celsius is shown as "20°C" in metric units. */
  lemma TwentyDegrees(city: string, c: Current, now: string)
    requires city != [] && c.tempC == "20" && c.weatherDesc != []
    ensures WeatherOf(city, "metric", false, Fetched(Record(Some([c]), Absent)), now).report.temperature == "20°C"
  {
  }
}
