/** `get_weather_forcast`: the minute-precision hours sent to the forecast
    provider and the hourly forecast assembled from its reply. */
module Forecast {
  import opened Wrappers
  import opened DateTimes
  import opened WeatherCodes
  import opened Serializer

  /** One forecast record: `{'time': ..., 'weather_condition': ...}`. */
  datatype ForecastEntry = ForecastEntry(time: string, weatherCondition: string)

  /** The provider's `hourly` object: two arrays meant to be parallel. A missing
      `time` key behaves like an empty `time` array (both fail at the first
      index read). */
  datatype Hourly = Hourly(time: seq<string>, weatherCode: seq<int>)

  /** A timestamp re-parsed with the request format and written with minute
      precision, as sent for `start_hour` and `end_hour`; `None` where the parse
      raises. */
  function FormatHour(s: string): (r: Option<string>)
    ensures r.Some? <==> Parse(s).Some?
    ensures r.Some? ==> |r.value| == 16 && r.value[4] == '-' && r.value[7] == '-' && r.value[10] == 'T' && r.value[13] == ':'
  {
    match Parse(s)
    case None => None
    case Some(t) => IsoMinutesShape(t); Some(IsoMinutes(t))
  }

  /** On the zero-padded form, formatting turns the space into `T` and drops the
      seconds. */
  lemma FormatHourOfCanonical(t: DateTime)
    requires Valid(t)
    ensures FormatHour(Render(t)) == Some(Render(t)[..10] + "T" + Render(t)[11..16])
  {
    ParseRender(t);
    IsoMinutesOfRender(t);
  }

  /** Validated timestamps always format: the re-parse in `get_weather_forcast`
      cannot fail, and the hours sent are those of the validated window. */
  lemma ValidatedHoursFormat(data: PlannerData)
    requires Validate(data).Ok?
    ensures FormatHour(data.startTime) == Some(IsoMinutes(Parse(data.startTime).value))
    ensures FormatHour(data.endTime) == Some(IsoMinutes(Parse(data.endTime).value))
  {
  }

  /** What the loop of `get_weather_forcast` produces from a reply: one record per
      weather code, or `None` when `time` runs out first (the `IndexError`). */
  function ForecastOf(hourly: Hourly): Option<seq<ForecastEntry>> {
    if |hourly.weatherCode| <= |hourly.time| then
      Some(seq(|hourly.weatherCode|, i requires 0 <= i < |hourly.weatherCode| =>
        ForecastEntry(hourly.time[i], Describe(hourly.weatherCode[i]))))
    else
      None
  }

  /** The forecast loop: walk `weather_code` by index and append, for each, the
      record pairing `time[count]` with the code's label. */
  method BuildForecast(hourly: Hourly) returns (forecast: Option<seq<ForecastEntry>>)
    ensures forecast == ForecastOf(hourly)
  {
    var entries: seq<ForecastEntry> := [];
    var count := 0;
    while count < |hourly.weatherCode|
      invariant 0 <= count <= |hourly.weatherCode|
      invariant count <= |hourly.time|
      invariant |entries| == count
      invariant forall i :: 0 <= i < count ==>
        entries[i] == ForecastEntry(hourly.time[i], Describe(hourly.weatherCode[i]))
    {
      if count >= |hourly.time| {
        // `time[count]` raises: the reply has fewer hours than codes
        return None;
      }
      entries := entries + [ForecastEntry(hourly.time[count], Describe(hourly.weatherCode[count]))];
      count := count + 1;
    }
    assert entries == ForecastOf(hourly).value;
    forecast := Some(entries);
  }

  /** The forecast has one record per code, in provider order, each pairing the
      code's hour with its label; it exists exactly when `time` is long enough. */
  lemma ForecastFollowsProvider(hourly: Hourly)
    ensures ForecastOf(hourly).Some? <==> |hourly.weatherCode| <= |hourly.time|
    ensures ForecastOf(hourly).Some? ==>
      && |ForecastOf(hourly).value| == |hourly.weatherCode|
      && forall i :: 0 <= i < |hourly.weatherCode| ==>
           ForecastOf(hourly).value[i].time == hourly.time[i]
           && ForecastOf(hourly).value[i].weatherCondition == Describe(hourly.weatherCode[i])
  {
  }

  /** No weather codes yields an empty forecast, not an error. */
  lemma EmptyReplyEmptyForecast(time: seq<string>)
    ensures ForecastOf(Hourly(time, [])) == Some([])
  {
    assert |ForecastOf(Hourly(time, [])).value| == 0;
  }

  /** Trailing `time` entries past the last code are ignored. */
  lemma ExtraTimesIgnored(time: seq<string>, extra: seq<string>, codes: seq<int>)
    requires |codes| <= |time|
    ensures ForecastOf(Hourly(time + extra, codes)) == ForecastOf(Hourly(time, codes))
  {
    var longer, exact := ForecastOf(Hourly(time + extra, codes)).value, ForecastOf(Hourly(time, codes)).value;
    forall i | 0 <= i < |codes| ensures longer[i] == exact[i] {
      assert (time + extra)[i] == time[i];
    }
    assert longer == exact;
  }

  /** Every condition reported is a table label or the unknown-code sentinel,
      and it is the sentinel exactly for codes outside the table. */
  lemma ConditionsAreLabels(hourly: Hourly, i: int)
    requires ForecastOf(hourly).Some? && 0 <= i < |hourly.weatherCode|
    ensures ForecastOf(hourly).value[i].weatherCondition in Table.Values + {UnknownCode}
    ensures ForecastOf(hourly).value[i].weatherCondition == UnknownCode <==> hourly.weatherCode[i] !in Table
  {
  }
}
