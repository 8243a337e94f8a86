/**
 * The `get_weather_alerts` tool: a lookup in a fixed table of demonstration
 * alerts, keyed by the lower-cased city name, optionally filtered by
 * severity.
 */
module Alerts {
  import opened PyText

  datatype Alert = Alert(kind: string, severity: string, description: string, expires: string)

  /** The returned dictionary: the caller's city, the alerts, and the time of the check. */
  datatype AlertReport = AlertReport(city: string, alerts: seq<Alert>, checkedAt: string)

  const HURRICANE_WATCH := Alert("Hurricane Watch", "high", "Tropical storm may strengthen to hurricane", "2024-09-15T18:00:00Z")
  const WINTER_STORM_WARNING := Alert("Winter Storm Warning", "medium", "6-10 inches of snow expected", "2024-12-22T12:00:00Z")

  /** The table, rebuilt on every call and never changed. */
  const ALERTS_DB: map<string, seq<Alert>> := map["miami" := [HURRICANE_WATCH], "denver" := [WINTER_STORM_WARNING]]

  /** `alerts_db.get(key, [])`. */
  function AlertsFor(key: string): seq<Alert>
  {
    if key in ALERTS_DB then ALERTS_DB[key] else []
  }

  /** `a` can be obtained from `b` by deleting elements, keeping the order of the rest. */
  ghost predicate IsSubsequence<T>(a: seq<T>, b: seq<T>)
    decreases |b|
  {
    a == [] || (b != [] && ((a[0] == b[0] && IsSubsequence(a[1..], b[1..])) || IsSubsequence(a, b[1..])))
  }

  /**
   * `[a for a in alerts if a["severity"] == severity]`: exactly the alerts
   * of that severity, each as often as in the input, in input order.
   */
  function WithSeverity(alerts: seq<Alert>, severity: string): (r: seq<Alert>)
    ensures forall a :: a in r ==> a.severity == severity
    ensures forall a :: multiset(r)[a] == if a.severity == severity then multiset(alerts)[a] else 0
    ensures IsSubsequence(r, alerts)
  {
    if alerts == [] then []
    else
      var rest := WithSeverity(alerts[1..], severity);
      assert alerts == [alerts[0]] + alerts[1..];
      if alerts[0].severity == severity then [alerts[0]] + rest else rest
  }

  /**
   * `get_weather_alerts(city, severity)` with the clock reading given as
   * `now`. The answer carries the caller's city string; for "all" it holds
   * the table entry unchanged, otherwise exactly the entry's alerts of that
   * severity, in table order.
   */
  function GetWeatherAlerts(city: string, severity: string, now: string): (r: AlertReport)
    ensures r.city == city && r.checkedAt == now
    ensures severity == "all" ==> r.alerts == AlertsFor(Lower(city))
    ensures severity != "all" ==>
              && IsSubsequence(r.alerts, AlertsFor(Lower(city)))
              && (forall a :: a in r.alerts ==> a.severity == severity)
              && forall a :: a in AlertsFor(Lower(city)) && a.severity == severity ==> a in r.alerts
  {
    var alerts := AlertsFor(Lower(city));
    AlertReport(city, if severity != "all" then WithSeverity(alerts, severity) else alerts, now)
  }

  // -----------------------------------------------------------------------
  // Properties
  // -----------------------------------------------------------------------

  /** Only the time stamp depends on the clock: two calls differ at most in `checked_at`. */
  lemma AlertsIgnoreClock(city: string, severity: string, now1: string, now2: string)
    ensures GetWeatherAlerts(city, severity, now1) == GetWeatherAlerts(city, severity, now2).(checkedAt := now1)
  {
  }

  /** Only the letter case of the city matters for the alerts found. */
  lemma CaseInsensitive(city1: string, city2: string, severity: string, now: string)
    requires Lower(city1) == Lower(city2)
    ensures GetWeatherAlerts(city1, severity, now).alerts == GetWeatherAlerts(city2, severity, now).alerts
  {
  }

  /**
   * Alerts are found exactly for the spellings of "miami" and "denver" in
   * any mix of ASCII letter case; every other city gets an empty list.
   */
  lemma KnownCities(city: string, severity: string, now: string)
    ensures Lower(city) == "miami" <==>
              |city| == 5 && forall i :: 0 <= i < 5 ==> city[i] == "miami"[i] || city[i] == "MIAMI"[i]
    ensures Lower(city) == "denver" <==>
              |city| == 6 && forall i :: 0 <= i < 6 ==> city[i] == "denver"[i] || city[i] == "DENVER"[i]
    ensures Lower(city) != "miami" && Lower(city) != "denver" ==> GetWeatherAlerts(city, severity, now).alerts == []
  {
  }

  /** "MIAMI" finds the one high-severity hurricane watch; filtering it by "low" leaves nothing. */
  lemma MiamiExamples(now: string)
    ensures GetWeatherAlerts("MIAMI", "all", now).alerts == [HURRICANE_WATCH]
    ensures GetWeatherAlerts("MIAMI", "all", now).alerts[0].kind == "Hurricane Watch"
    ensures GetWeatherAlerts("MIAMI", "all", now).alerts[0].severity == "high"
    ensures GetWeatherAlerts("miami", "low", now).alerts == []
  {
    assert Lower("MIAMI") == "miami";
    assert Lower("miami") == "miami";
    assert WithSeverity([HURRICANE_WATCH], "low") == [];
  }
}
