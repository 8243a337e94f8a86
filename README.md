# weather-mcp tool handlers, modelled in Dafny

The weather server exposes three tools over a weather provider:

- `get_weather(city, units, detailed)`: validates its inputs, asks the provider for the city's
  conditions, and turns the answer into a report. The units decide which provider fields are
  used and which suffixes are added. A detailed request also carries a forecast of up to three
  days.
- `get_weather_alerts(city, severity)`: looks the lower-cased city up in a fixed table of
  demonstration alerts and, unless the severity is `"all"`, keeps the alerts of that severity.
- `compare_weather(cities, metric)`: accepts one to five cities and looks each one up in
  metric units. Cities whose lookup fails are dropped. The rest are sorted, stably and in
  descending order, by a number read from the temperature, humidity or wind field.

The HTTP exchange is replaced by its outcome. `Provider.FetchResult` is a decoded body, a
status error, or any other failure. The body is either a JSON string or an object whose
`current_condition` and `weather` keys may be missing or null (`Provider.Member` keeps the three
cases of `weather` apart). Each tool becomes a function from its inputs and that
outcome to the dictionary it returns. The parts that run as loops in the source are methods
proved against those functions:

- the forecast loop (`Weather.BuildForecast`);
- the per-city loop of the comparison (`Compare.CompareWeather`);
- the in-place sort (`StableSort.SortDescending`, over an array).

Files:

- `wrappers.dfy`: `Option` and `Result`.
- `pytext.dfy`: the Python string operations the handlers use. These are substring `in`,
  `replace(pat, "")`, `split()[0]`, `lower()` and the decimal rendering of a status code.
- `provider.dfy`: the provider's answer.
- `weather.dfy`: `get_weather`.
- `alerts.dfy`: `get_weather_alerts`.
- `stable_sort.dfy`: `list.sort(key=..., reverse=True)`, once the keys are known.
- `compare.dfy`: `compare_weather`.

Error texts are the ones the handlers produce, including the `str()` of the exceptions caught by
the generic handler:

- `"list index out of range"` when `weatherDesc` or a day's `hourly` list is too short;
- `"'weather'"` when a detailed request meets a body without a `weather` key;
- `"'NoneType' object is not subscriptable"` when that key is present but null;
- the `TypeError` text when a string body mentions `current_condition`.

The docstring of `compare_weather` names four metrics. In the code, any metric other than the
three numeric ones leaves the order unchanged, not only `"conditions"`, and the model follows the
code. A sort key that
cannot be read raises an exception that the tool does not catch (`Compare.CompareResult.Raised`).

## Model

| member | source | states |
|---|---|---|
| `Weather.GetWeather` | weather-mcp/src/weather_server.py:40-107 | The returned dictionary is exactly `WeatherOf` of the inputs and the provider's answer: validation, then status/other failures, then the body's branches, then the optional forecast |
| `Weather.BuildForecast` | weather-mcp/src/weather_server.py:90-100 | The forecast loop yields min(3, \|weather\|) entries in order, entry i from day i's fifth hourly entry, or the IndexError when one of those days lacks it |
| `Weather.ValidationFirst` | weather-mcp/src/weather_server.py:40-44 | An empty city gives "City name is required"; otherwise units outside metric/imperial give the units error; in both cases the provider's answer makes no difference |
| `Weather.RequestFailures` | weather-mcp/src/weather_server.py:104-107 | A status error gives "Weather API error: " followed by the code; any other failure gives "Failed to get weather: " followed by its text |
| `Weather.NotFound` | weather-mcp/src/weather_server.py:66-70 | A string body containing "Unknown location" gives "Unknown location: {city}"; an object whose current_condition is missing or empty gives "No weather data available for {city}" |
| `Weather.MissingForecast` | weather-mcp/src/weather_server.py:90-92 | With readable current conditions, a detailed request fails with "Failed to get weather: 'weather'" when the key is missing and with the NoneType TypeError text when it is null; a non-detailed one still gets its report |
| `Weather.ReportIff` | weather-mcp/src/weather_server.py:40-102 | A report is returned if and only if the inputs are valid, the body is an object with a non-empty current_condition whose first entry has a description, and (when detailed) weather is present with its first three days readable |
| `Weather.ReportFields` | weather-mcp/src/weather_server.py:72-87 | Metric uses temp_C/FeelsLikeC/windspeedKmph/visibility with °C, km/h, km; imperial uses the F/Miles fields with °F, mph, miles; humidity always gets "%" and pressure " mb"; the city is the caller's string |
| `Weather.ForecastShape` | weather-mcp/src/weather_server.py:89-100 | The forecast is present exactly when detailed; it has min(3, \|weather\|) entries, in input order, taking date, max/min temperature, condition and rain chance from day i and its hourly[4] |
| `Weather.TwentyDegrees` | weather-mcp/src/weather_server.py:77 | A temp_C of "20" is reported as "20°C" in metric units |
| `Alerts.WithSeverity` | weather-mcp/src/weather_server.py:148-149 | The filter keeps exactly the alerts of the given severity, each as many times as in the input, as an order-preserving subsequence |
| `Alerts.GetWeatherAlerts` | weather-mcp/src/weather_server.py:144-155 | The answer carries the caller's city; "all" returns the table entry unchanged; any other severity returns the entry's alerts of that severity, in order, and every one of them |
| `Alerts.AlertsIgnoreClock` | weather-mcp/src/weather_server.py:151-155 | Two calls with the same city and severity differ at most in `checked_at`, the clock reading |
| `Alerts.CaseInsensitive` | weather-mcp/src/weather_server.py:144-145 | Two cities that lower-case alike get the same alerts |
| `Alerts.KnownCities` | weather-mcp/src/weather_server.py:125-145 | Alerts are found exactly for "miami" and "denver" in any ASCII letter case; every other city gets an empty list |
| `Alerts.MiamiExamples` | weather-mcp/src/weather_server.py:125-149 | "MIAMI" with "all" gives the single high-severity Hurricane Watch; "miami" with "low" gives no alerts |
| `Compare.CompareWeather` | weather-mcp/src/weather_server.py:172-203 | The answer is exactly `ComparisonOf`: the length checks, the loop that keeps successes in input order, then keys and the stable descending sort for a numeric metric |
| `Compare.Rejections` | weather-mcp/src/weather_server.py:172-176 | More than five cities give "Maximum 5 cities for comparison", checked before the empty list error "At least one city required"; these are the only error dictionaries |
| `Compare.GatherFront` | weather-mcp/src/weather_server.py:180-189 | The loop's result read from the front: the first city's entry precedes those of the remaining cities |
| `Compare.GatherAtMost` | weather-mcp/src/weather_server.py:180-189 | With at most one entry per city, the loop gathers no more entries than there are cities |
| `Compare.GatherNone` | weather-mcp/src/weather_server.py:180-189 | When no city contributes, the loop gathers nothing |
| `Compare.GatherEach` | weather-mcp/src/weather_server.py:180-189 | When every city contributes one entry, entry i is city i's |
| `Compare.Lookup` | weather-mcp/src/weather_server.py:181-189 | A city contributes one entry, carrying its own name, exactly when its metric lookup returns no error, and none otherwise |
| `Compare.CollectedDropsFailures` | weather-mcp/src/weather_server.py:180-189 | Failed cities are dropped silently: never more entries than cities, an empty list (not an error) when all fail, one entry per city in order when all succeed |
| `Compare.UnsortedComparison` | weather-mcp/src/weather_server.py:191-203 | For a metric other than temperature, humidity or wind, the answer lists the gathered entries exactly, in input order |
| `Compare.RankAll` | weather-mcp/src/weather_server.py:193-197 | Keys are computed for every entry in order; the result succeeds exactly when every key can be read, pairs each entry with its key, and otherwise fails with the first entry's exception |
| `Compare.KeyText` | weather-mcp/src/weather_server.py:193-197 | The text handed to `float()`: missing (IndexError) exactly for the wind metric on an all-whitespace wind field; a temperature or humidity without "°C" or "%" is handed over unchanged |
| `Compare.SortKey` | weather-mcp/src/weather_server.py:193-197 | The key is IndexError exactly for a blank wind field, ValueError carrying the text `float()` refused, and otherwise the number `float()` read from the key text |
| `Compare.KeyFailureRaises` | weather-mcp/src/weather_server.py:192-197 | With a numeric metric, the tool raises exactly when some gathered entry's key cannot be read, and the exception is that of the first such entry |
| `Compare.SortedEntries` | weather-mcp/src/weather_server.py:192-197 | Sorting entries paired with their keys yields a permutation of them in non-increasing key order, with equal keys in input order |
| `Compare.SortedComparison` | weather-mcp/src/weather_server.py:178-203 | For temperature, humidity or wind, the answer is a permutation of the successfully looked-up cities, sorted non-increasing by key, with ties kept in input order |
| `Compare.KeyIsProviderField` | weather-mcp/src/weather_server.py:193-197 | The text the sort key parses is the provider's own temp_C, humidity or windspeedKmph field once "°C", "%" or the unit word is stripped, when that field is a plain number |
| `Compare.OneOfTwoFails` | weather-mcp/src/weather_server.py:180-189 | With one failing and one succeeding city, whatever the metric, the answer is the succeeding city's entry alone and no error |
| `StableSort.SortDescending` | weather-mcp/src/weather_server.py:193 | The in-place sort leaves the array equal to `SortDesc` of its old contents |
| `StableSort.InsertAt` | weather-mcp/src/weather_server.py:193 | One insertion step moves an element into the sorted suffix after it and changes nothing before it |
| `StableSort.SortDescSorted` | weather-mcp/src/weather_server.py:193 | The sorted sequence has the input's length and is in non-increasing key order |
| `StableSort.SortDescPermutes` | weather-mcp/src/weather_server.py:193 | The sorted sequence is a permutation of the input |
| `StableSort.SortDescStable` | weather-mcp/src/weather_server.py:193 | For every key, the elements with that key appear in their input order (stability under reverse=True) |
| `StableSort.TiesDetermineOrder` | weather-mcp/src/weather_server.py:193 | Key order and the order among equal keys determine the arrangement, so the sort's result is the one Python's stable reverse sort produces |
| `StableSort.DescendingExample` | weather-mcp/src/weather_server.py:193 | Keys 10, 30, 20 come out as 30, 20, 10 |
| `PyText.ContainsIffOccurs` | weather-mcp/src/weather_server.py:66 | The substring test holds exactly when the pattern occurs at some index |
| `PyText.RemoveAllSuffix` | weather-mcp/src/weather_server.py:193-195 | Removing a unit from a number followed by that unit gives the number back, when the number holds no copy of the unit's first character |
| `PyText.FirstWordBeforeUnit` | weather-mcp/src/weather_server.py:197 | The first word of a number, a space and a unit is the number |
| `PyText.FirstWord` | weather-mcp/src/weather_server.py:197 | split()[0] fails exactly when the string is all whitespace |
| `PyText.LowerEqualsKey` | weather-mcp/src/weather_server.py:144-145 | A string lower-cases to a lower-case key exactly when each character is the key's letter or its capital |
| `PyText.RemoveAllAbsent` | weather-mcp/src/weather_server.py:193-195 | Removing a unit that does not occur leaves the string as it is |
| `PyText.DecimalString` | weather-mcp/src/weather_server.py:105 | The status code's text is a non-empty run of digits without a leading zero, and is "0" exactly for 0 |
| `PyText.DecimalRoundTrip` | weather-mcp/src/weather_server.py:105 | The status code's decimal text reads back as the code |

## Left out

- The HTTP request is not modelled: the `httpx` client, the 10-second timeout, `raise_for_status`
  and `response.json()`. Their combined outcome is the parameter `response` (or `fetch` in the
  comparison).
- URL encoding with `quote` is not modelled, because it does not affect any returned value.
- `datetime.now()` is the parameter `now`. The comparison uses one reading for its own timestamp
  and for the lookups it makes.
- `float()` in the sort keys is the parameter `parse: string -> Option<int>`. None stands for its
  ValueError. Keys are integers, so NaN, infinities and fractional orderings are not represented.
- A sort key that cannot be read makes the tool raise. The model returns this as `Raised`. What
  the serving framework then sends to the client is not modelled.
- `fetch` in the comparison is a function of the city name, so a city listed twice gets the same
  answer both times. A live provider could answer differently.
- `PyText.Lower`: does not model Python's Unicode case mapping, only the ASCII letters. The table
  keys are ASCII.
- Provider bodies other than a JSON string or an object are not modelled, such as a list or a
  number. Provider fields that are not strings are not modelled. A missing key other than
  `current_condition` and `weather` is not modelled; in the source it would be a KeyError.
- `Weather.STR_INDEX_ERROR` holds the TypeError text of recent Python versions. Older versions
  omit ", not 'str'".
- Status codes are modelled as non-negative integers.
- The FastMCP registration and decorators, `async`, `mcp.run()` and the deployment factory in
  `__init__.py` are not modelled. They are serving plumbing, not handler logic.
- Repeated `get_weather_alerts` calls with the same city and severity return the same city and
  alerts, since the table is a constant, but `checked_at` is a new clock reading on every call
  (`Alerts.AlertsIgnoreClock`). The clock itself is the parameter `now`.
