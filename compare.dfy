/**
 * The `compare_weather` tool: bounds on the list of cities, one metric-unit
 * lookup per city in order with failures dropped, then a stable sort into
 * descending order of a number read from the chosen field.
 */
module Compare {
  import opened Wrappers
  import opened PyText
  import opened Provider
  import opened Weather
  import opened StableSort

  /** One element of the `cities` list of the answer. */
  datatype Entry = Entry(city: string, temperature: string, humidity: string, wind: string, condition: string)

  /** An exception the sort's key function raises; nothing in the tool catches it. */
  datatype PyException = ValueError(text: string) | IndexError

  /** The answer: the comparison, an `error` dictionary, or an exception that escapes the tool. */
  datatype CompareResult =
    | Comparison(metric: string, cities: seq<Entry>, timestamp: string)
    | Failure(error: string)
    | Raised(exception: PyException)

  const TOO_MANY_CITIES := "Maximum 5 cities for comparison"
  const NO_CITIES := "At least one city required"

  /** The metrics that sort the comparison; any other metric leaves the order alone. */
  predicate SortsBy(metric: string)
  {
    metric == "temperature" || metric == "humidity" || metric == "wind"
  }

  function EntryOf(city: string, report: WeatherReport): Entry
  {
    Entry(city, report.temperature, report.humidity, report.wind, report.condition)
  }

  /** The entry a city contributes: one if its metric, non-detailed lookup succeeds, none otherwise. */
  function Lookup(city: string, fetch: string -> FetchResult, now: string): (r: seq<Entry>)
    ensures |r| <= 1
    ensures r != [] <==> WeatherOf(city, "metric", false, fetch(city), now).Report?
    ensures r != [] ==> r[0].city == city
  {
    var w := WeatherOf(city, "metric", false, fetch(city), now);
    if w.Report? then [EntryOf(city, w.report)] else []
  }

  /** The loop over `cities`: the entries of each city appended in input order. */
  function Gather(cities: seq<string>, lookup: string -> seq<Entry>): seq<Entry>
    decreases |cities|
  {
    if cities == [] then []
    else Gather(cities[..|cities| - 1], lookup) + lookup(cities[|cities| - 1])
  }

  /** The entries gathered by the loop of `compare_weather`. */
  function Collected(cities: seq<string>, fetch: string -> FetchResult, now: string): seq<Entry>
  {
    Gather(cities, c => Lookup(c, fetch, now))
  }

  /**
   * The text the key function hands to `float()`, or None where
   * `split()[0]` raises IndexError, which happens only for a blank wind
   * field. A field without its unit is handed over unchanged.
   */
  function KeyText(e: Entry, metric: string): (r: Option<string>)
    requires SortsBy(metric)
    ensures r.None? <==> metric == "wind" && forall i :: 0 <= i < |e.wind| ==> IsSpace(e.wind[i])
    ensures metric == "temperature" && !Contains(e.temperature, "°C") ==> r == Some(e.temperature)
    ensures metric == "humidity" && !Contains(e.humidity, "%") ==> r == Some(e.humidity)
  {
    RemoveAllAbsent(e.temperature, "°C");
    RemoveAllAbsent(e.humidity, "%");
    if metric == "temperature" then Some(RemoveAll(e.temperature, "°C"))
    else if metric == "humidity" then Some(RemoveAll(e.humidity, "%"))
    else FirstWord(e.wind)
  }

  /**
   * The sort key of an entry; `parse` is `float()`, None where it raises
   * ValueError. IndexError comes exactly from a blank wind field, ValueError
   * carries the text `float()` refused, and a key is the number it read.
   */
  function SortKey(e: Entry, metric: string, parse: string -> Option<int>): (r: Result<int, PyException>)
    requires SortsBy(metric)
    ensures r == Err(IndexError) <==> metric == "wind" && forall i :: 0 <= i < |e.wind| ==> IsSpace(e.wind[i])
    ensures r.Err? && r.error.ValueError? ==> KeyText(e, metric) == Some(r.error.text) && parse(r.error.text).None?
    ensures r.Ok? <==> KeyText(e, metric).Some? && parse(KeyText(e, metric).value).Some?
    ensures r.Ok? ==> parse(KeyText(e, metric).value) == Some(r.value)
  {
    match KeyText(e, metric)
    case None => Err(IndexError)
    case Some(t) =>
      match parse(t)
      case None => Err(ValueError(t))
      case Some(k) => Ok(k)
  }

  /**
   * The keys of all entries, computed in list order before any comparison;
   * the first failure is the exception the sort raises.
   */
  function RankAll(s: seq<Entry>, metric: string, parse: string -> Option<int>): (r: Result<seq<Ranked<Entry>>, PyException>)
    requires SortsBy(metric)
    ensures r.Ok? <==> forall i :: 0 <= i < |s| ==> SortKey(s[i], metric, parse).Ok?
    ensures r.Ok? ==> |r.value| == |s|
    ensures r.Ok? ==> forall i :: 0 <= i < |s| ==> r.value[i] == Ranked(SortKey(s[i], metric, parse).value, s[i])
    ensures r.Err? ==>
              exists i :: (&& 0 <= i < |s|
                           && SortKey(s[i], metric, parse) == Err(r.error)
                           && forall j :: 0 <= j < i ==> SortKey(s[j], metric, parse).Ok?)
  {
    if s == [] then Ok([])
    else match SortKey(s[0], metric, parse)
      case Err(e) => Err(e)
      case Ok(k) =>
        match RankAll(s[1..], metric, parse)
        case Err(e) =>
          assert forall j :: 1 <= j < |s| ==> s[j] == s[1..][j - 1];
          Err(e)
        case Ok(rest) =>
          assert forall j :: 1 <= j < |s| ==> s[j] == s[1..][j - 1];
          Ok([Ranked(k, s[0])] + rest)
  }

  /** What `compare_weather(cities, metric)` returns, given the provider's answer per city. */
  function ComparisonOf(cities: seq<string>, metric: string, fetch: string -> FetchResult,
                        parse: string -> Option<int>, now: string): CompareResult
  {
    if |cities| > 5 then Failure(TOO_MANY_CITIES)
    else if cities == [] then Failure(NO_CITIES)
    else
      var s := Collected(cities, fetch, now);
      if !SortsBy(metric) then Comparison(metric, s, now)
      else match RankAll(s, metric, parse)
        case Err(e) => Raised(e)
        case Ok(rs) => Comparison(metric, Items(SortDesc(rs)), now)
  }

  /**
   * `compare_weather`: `fetch` gives the provider's answer for a city,
   * `parse` stands for `float()`, `now` for the clock.
   */
  method CompareWeather(cities: seq<string>, metric: string, fetch: string -> FetchResult,
                        parse: string -> Option<int>, now: string) returns (r: CompareResult)
    ensures r == ComparisonOf(cities, metric, fetch, parse, now)
  {
    if |cities| > 5 {
      return Failure(TOO_MANY_CITIES);
    }
    if cities == [] {
      return Failure(NO_CITIES);
    }
    var comparisons: seq<Entry> := [];
    var i := 0;
    while i < |cities|
      invariant 0 <= i <= |cities|
      invariant comparisons == Gather(cities[..i], c => Lookup(c, fetch, now))
    {
      var city := cities[i];
      var weather := GetWeather(city, "metric", false, fetch(city), now);
      assert cities[..i + 1][..i] == cities[..i];
      if weather.Report? {
        comparisons := comparisons + [EntryOf(city, weather.report)];
      }
      i := i + 1;
    }
    assert cities[..i] == cities;
    if SortsBy(metric) {
      var ranked := RankAll(comparisons, metric, parse);
      if ranked.Err? {
        return Raised(ranked.error);
      }
      var rs := ranked.value;
      var a := new Ranked<Entry>[|rs|](k requires 0 <= k < |rs| => rs[k]);
      assert a[..] == rs;
      SortDescending(a);
      r := Comparison(metric, Items(a[..]), now);
    } else {
      r := Comparison(metric, comparisons, now);
    }
  }

  // -----------------------------------------------------------------------
  // Properties
  // -----------------------------------------------------------------------

  /** The length check: more than five is reported first, then an empty list. */
  lemma Rejections(cities: seq<string>, metric: string, fetch: string -> FetchResult,
                   parse: string -> Option<int>, now: string)
    ensures |cities| > 5 ==> ComparisonOf(cities, metric, fetch, parse, now) == Failure(TOO_MANY_CITIES)
    ensures cities == [] ==> ComparisonOf(cities, metric, fetch, parse, now) == Failure(NO_CITIES)
    ensures ComparisonOf(cities, metric, fetch, parse, now).Failure? <==> |cities| > 5 || cities == []
  {
  }

  /** The loop read from the front: a city's entries come before those of the cities after it. */
  lemma {:induction false} GatherFront(c: string, cs: seq<string>, lookup: string -> seq<Entry>)
    ensures Gather([c] + cs, lookup) == lookup(c) + Gather(cs, lookup)
    decreases |cs|
  {
    if cs != [] {
      var n := |cs|;
      assert ([c] + cs)[..n] == [c] + cs[..n - 1];
      assert ([c] + cs)[n] == cs[n - 1];
      GatherFront(c, cs[..n - 1], lookup);
    }
  }

  /** With at most one entry per city there are never more entries than cities. */
  lemma {:induction false} GatherAtMost(cities: seq<string>, lookup: string -> seq<Entry>)
    requires forall c :: |lookup(c)| <= 1
    ensures |Gather(cities, lookup)| <= |cities|
    decreases |cities|
  {
    if cities != [] {
      GatherAtMost(cities[..|cities| - 1], lookup);
    }
  }

  /** When no city contributes an entry the list is empty. */
  lemma {:induction false} GatherNone(cities: seq<string>, lookup: string -> seq<Entry>)
    requires forall i :: 0 <= i < |cities| ==> lookup(cities[i]) == []
    ensures Gather(cities, lookup) == []
    decreases |cities|
  {
    if cities != [] {
      var n := |cities|;
      assert forall i :: 0 <= i < n - 1 ==> cities[..n - 1][i] == cities[i];
      GatherNone(cities[..n - 1], lookup);
    }
  }

  /** When every city contributes exactly one entry, entry i is city i's. */
  lemma {:induction false} GatherEach(cities: seq<string>, lookup: string -> seq<Entry>)
    requires forall i :: 0 <= i < |cities| ==> |lookup(cities[i])| == 1
    ensures |Gather(cities, lookup)| == |cities|
    ensures forall i :: 0 <= i < |cities| ==> Gather(cities, lookup)[i] == lookup(cities[i])[0]
    decreases |cities|
  {
    if cities != [] {
      var n := |cities|;
      assert forall i :: 0 <= i < n - 1 ==> cities[..n - 1][i] == cities[i];
      GatherEach(cities[..n - 1], lookup);
    }
  }

  /**
   * Failures are dropped silently: there are never more entries than
   * cities; when every lookup fails the list is empty, with no error; when
   * every lookup succeeds entry i belongs to city i.
   */
  lemma CollectedDropsFailures(cities: seq<string>, fetch: string -> FetchResult, now: string)
    ensures |Collected(cities, fetch, now)| <= |cities|
    ensures (forall i :: 0 <= i < |cities| ==> Lookup(cities[i], fetch, now) == []) ==> Collected(cities, fetch, now) == []
    ensures (forall i :: 0 <= i < |cities| ==> Lookup(cities[i], fetch, now) != []) ==>
              && |Collected(cities, fetch, now)| == |cities|
              && forall i :: 0 <= i < |cities| ==> Collected(cities, fetch, now)[i].city == cities[i]
  {
    var lookup := c => Lookup(c, fetch, now);
    assert forall c :: |lookup(c)| <= 1;
    GatherAtMost(cities, lookup);
    if forall i :: 0 <= i < |cities| ==> Lookup(cities[i], fetch, now) == [] {
      GatherNone(cities, lookup);
    }
    if forall i :: 0 <= i < |cities| ==> Lookup(cities[i], fetch, now) != [] {
      assert forall i :: 0 <= i < |cities| ==> |lookup(cities[i])| == 1 && lookup(cities[i])[0].city == cities[i];
      GatherEach(cities, lookup);
    }
  }

  /** A metric other than the three numeric ones keeps the gathered entries exactly as they are. */
  lemma UnsortedComparison(cities: seq<string>, metric: string, fetch: string -> FetchResult,
                           parse: string -> Option<int>, now: string)
    requires 1 <= |cities| <= 5 && !SortsBy(metric)
    ensures ComparisonOf(cities, metric, fetch, parse, now) == Comparison(metric, Collected(cities, fetch, now), now)
  {
  }

  /** A key that cannot be computed escapes as the exception of the first such entry. */
  lemma KeyFailureRaises(cities: seq<string>, metric: string, fetch: string -> FetchResult,
                         parse: string -> Option<int>, now: string)
    requires 1 <= |cities| <= 5 && SortsBy(metric)
    ensures var s := Collected(cities, fetch, now);
            var r := ComparisonOf(cities, metric, fetch, parse, now);
            && (r.Raised? <==> exists i :: 0 <= i < |s| && SortKey(s[i], metric, parse).Err?)
            && (r.Raised? ==>
                  exists i :: (&& 0 <= i < |s|
                               && SortKey(s[i], metric, parse) == Err(r.exception)
                               && forall j :: 0 <= j < i ==> SortKey(s[j], metric, parse).Ok?))
  {
  }

  /** The entries whose sort key is `k`, in their order in `s`. */
  function EntriesWithKey(s: seq<Entry>, metric: string, parse: string -> Option<int>, k: int): seq<Entry>
    requires SortsBy(metric)
  {
    if s == [] then []
    else (if SortKey(s[0], metric, parse) == Ok(k) then [s[0]] else []) + EntriesWithKey(s[1..], metric, parse, k)
  }

  /** Keys that were computed from their entries. */
  ghost predicate KeysOf(t: seq<Ranked<Entry>>, metric: string, parse: string -> Option<int>)
    requires SortsBy(metric)
  {
    forall x :: x in t ==> SortKey(x.item, metric, parse) == Ok(x.key)
  }

  lemma {:induction false} RankedTies(t: seq<Ranked<Entry>>, metric: string, parse: string -> Option<int>, k: int)
    requires SortsBy(metric) && KeysOf(t, metric, parse)
    ensures Items(WithKey(t, k)) == EntriesWithKey(Items(t), metric, parse, k)
  {
    if t != [] {
      RankedTies(t[1..], metric, parse, k);
      var w := WithKey(t[1..], k);
      assert Items(t)[1..] == Items(t[1..]);
      if t[0].key == k {
        assert WithKey(t, k) == [t[0]] + w;
        assert Items([t[0]] + w) == [t[0].item] + Items(w);
      } else {
        assert WithKey(t, k) == w;
      }
    }
  }

  /**
   * Sorting entries whose keys were computed from them: the result holds
   * exactly the input entries, in non-increasing key order, and entries
   * with equal keys keep their input order.
   */
  lemma SortedEntries(rs: seq<Ranked<Entry>>, metric: string, parse: string -> Option<int>)
    requires SortsBy(metric) && KeysOf(rs, metric, parse)
    ensures var out := Items(SortDesc(rs));
            && multiset(out) == multiset(Items(rs))
            && (forall i :: 0 <= i < |out| ==> SortKey(out[i], metric, parse).Ok?)
            && (forall i, j :: 0 <= i < j < |out| ==>
                  SortKey(out[i], metric, parse).value >= SortKey(out[j], metric, parse).value)
            && forall k :: EntriesWithKey(out, metric, parse, k) == EntriesWithKey(Items(rs), metric, parse, k)
  {
    var sorted := SortDesc(rs);
    SortDescSorted(rs);
    SortDescPermutes(rs);
    SortDescPermutesItems(rs);
    assert KeysOf(sorted, metric, parse) by {
      forall x | x in sorted
        ensures SortKey(x.item, metric, parse) == Ok(x.key)
      {
        assert x in multiset(sorted);
      }
    }
    forall i | 0 <= i < |sorted|
      ensures SortKey(Items(sorted)[i], metric, parse) == Ok(sorted[i].key)
    {
      assert sorted[i] in sorted;
    }
    forall k
      ensures EntriesWithKey(Items(sorted), metric, parse, k) == EntriesWithKey(Items(rs), metric, parse, k)
    {
      SortDescStable(rs, k);
      RankedTies(rs, metric, parse, k);
      RankedTies(sorted, metric, parse, k);
    }
  }

  /**
   * Sorting by a numeric metric: the answer holds exactly the gathered
   * entries (a permutation), in non-increasing key order, and entries with
   * equal keys keep their input order.
   */
  lemma SortedComparison(cities: seq<string>, metric: string, fetch: string -> FetchResult,
                         parse: string -> Option<int>, now: string)
    requires 1 <= |cities| <= 5 && SortsBy(metric)
    requires forall e :: e in Collected(cities, fetch, now) ==> SortKey(e, metric, parse).Ok?
    ensures var s := Collected(cities, fetch, now);
            var r := ComparisonOf(cities, metric, fetch, parse, now);
            && r == Comparison(metric, r.cities, now)
            && multiset(r.cities) == multiset(s)
            && (forall i :: 0 <= i < |r.cities| ==> SortKey(r.cities[i], metric, parse).Ok?)
            && (forall i, j :: 0 <= i < j < |r.cities| ==>
                  SortKey(r.cities[i], metric, parse).value >= SortKey(r.cities[j], metric, parse).value)
            && forall k :: EntriesWithKey(r.cities, metric, parse, k) == EntriesWithKey(s, metric, parse, k)
  {
    var s := Collected(cities, fetch, now);
    assert forall i :: 0 <= i < |s| ==> s[i] in s;
    var rs := RankAll(s, metric, parse).value;
    assert Items(rs) == s;
    assert KeysOf(rs, metric, parse);
    SortedEntries(rs, metric, parse);
  }

  /**
   * The key the sort reads is the provider's own metric field, when that
   * field is a plain number: the Celsius temperature without a degree
   * sign, the humidity without a percent sign, the wind speed in km/h as
   * one word.
   */
  lemma KeyIsProviderField(city: string, fetch: string -> FetchResult, now: string)
    requires WeatherOf(city, "metric", false, fetch(city), now).Report?
    ensures fetch(city).Fetched? && fetch(city).payload.Record?
    ensures fetch(city).payload.currentCondition.Some? && fetch(city).payload.currentCondition.value != []
    ensures var c := fetch(city).payload.currentCondition.value[0];
            var e := EntryOf(city, WeatherOf(city, "metric", false, fetch(city), now).report);
            && ((forall i :: 0 <= i < |c.tempC| ==> c.tempC[i] != '°') ==> KeyText(e, "temperature") == Some(c.tempC))
            && ((forall i :: 0 <= i < |c.humidity| ==> c.humidity[i] != '%') ==> KeyText(e, "humidity") == Some(c.humidity))
            && ((c.windspeedKmph != [] && forall i :: 0 <= i < |c.windspeedKmph| ==> !IsSpace(c.windspeedKmph[i])) ==>
                  KeyText(e, "wind") == Some(c.windspeedKmph))
  {
    ReportFields(city, "metric", false, fetch(city), now);
    var c := fetch(city).payload.currentCondition.value[0];
    if forall i :: 0 <= i < |c.tempC| ==> c.tempC[i] != '°' {
      RemoveAllSuffix(c.tempC, "°C");
    }
    if forall i :: 0 <= i < |c.humidity| ==> c.humidity[i] != '%' {
      RemoveAllSuffix(c.humidity, "%");
    }
    if c.windspeedKmph != [] && forall i :: 0 <= i < |c.windspeedKmph| ==> !IsSpace(c.windspeedKmph[i]) {
      FirstWordBeforeUnit(c.windspeedKmph, ' ', "km/h");
      assert c.windspeedKmph + " km/h" == c.windspeedKmph + [' '] + "km/h";
    }
  }

  /** A city whose lookup fails is left out without an error; the one that succeeds is the whole answer. */
  lemma OneOfTwoFails(a: string, b: string, metric: string, fetch: string -> FetchResult,
                      parse: string -> Option<int>, now: string)
    requires WeatherOf(a, "metric", false, fetch(a), now).Error?
    requires WeatherOf(b, "metric", false, fetch(b), now).Report?
    requires SortsBy(metric) ==> SortKey(Lookup(b, fetch, now)[0], metric, parse).Ok?
    ensures ComparisonOf([a, b], metric, fetch, parse, now)
         == Comparison(metric, [EntryOf(b, WeatherOf(b, "metric", false, fetch(b), now).report)], now)
  {
    var s := Collected([a, b], fetch, now);
    var lookup := c => Lookup(c, fetch, now);
    assert [a, b] == [a] + [b] && [b] == [b] + [];
    GatherFront(a, [b], lookup);
    GatherFront(b, [], lookup);
    assert Gather([b], lookup) == lookup(b) + [];
    assert s == [] + lookup(b);
    assert s == Lookup(b, fetch, now);
    if SortsBy(metric) {
      var rs := RankAll(s, metric, parse).value;
      assert SortDesc(rs) == rs;
    }
  }
}
