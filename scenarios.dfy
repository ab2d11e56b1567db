/** End-to-end requests through the handler with fixed provider replies. */
module Scenarios {
  import opened Wrappers
  import opened WeatherCodes
  import opened DateTimes
  import opened Serializer
  import opened Forecast
  import opened Locations
  import opened Planner

  const Paris: Coordinates := Coordinates(48.85, 2.35)

  /** Providers that answer every request with the given replies. */
  function Fixed(results: seq<GeoResult>, hourly: Hourly, places: seq<PlaceResult>): Providers {
    Providers(
      (name: string) => Received(results),
      (at: Coordinates, startHour: string, endHour: string) => Received(hourly),
      (at: Coordinates) => Received(places))
  }

  const Start: DateTime := DateTime(2024, 6, 1, 0, 0, 0)
  const End: DateTime := DateTime(2024, 6, 1, 3, 0, 0)

  /** The digit groups of the Paris window. */
  lemma WindowDigits()
    ensures Digits4(2024) == "2024"
    ensures Digits2(6) == "06" && Digits2(1) == "01" && Digits2(0) == "00" && Digits2(3) == "03"
  {
    assert Digits2(20) == "20" && Digits2(24) == "24";
  }

  lemma StartParses(text: string)
    requires text == "2024-06-01 00:00:00"
    ensures Parse(text) == Some(Start)
  {
    WindowDigits();
    assert Render(Start) == text;
    ParseRender(Start);
  }

  lemma EndParses(text: string)
    requires text == "2024-06-01 03:00:00"
    ensures Parse(text) == Some(End)
  {
    WindowDigits();
    assert Render(End) == text;
    ParseRender(End);
  }

  lemma HoursOfWindow()
    ensures IsoMinutes(Start) == "2024-06-01T00:00"
    ensures IsoMinutes(End) == "2024-06-01T03:00"
  {
    WindowDigits();
  }

  /** The Paris window validates, and its hours are sent to the provider as
      `2024-06-01T00:00` and `2024-06-01T03:00`. */
  lemma ParisWindow(start: string, end: string)
    requires start == "2024-06-01 00:00:00" && end == "2024-06-01 03:00:00"
    ensures Parse(start) == Some(Start) && Parse(end) == Some(End)
    ensures FormatHour(start) == Some("2024-06-01T00:00") && FormatHour(end) == Some("2024-06-01T03:00")
  {
    StartParses(start);
    EndParses(end);
    HoursOfWindow();
  }

  /** The forecast provider's reply for the Paris window: two hours, codes 0 and 3. */
  const TwoHours: Hourly := Hourly(["2024-06-01T00:00", "2024-06-01T01:00"], [0, 3])

  const TwoHoursForecast: seq<ForecastEntry> :=
    [ForecastEntry("2024-06-01T00:00", "Clear sky"), ForecastEntry("2024-06-01T01:00", "Overcast")]

  lemma ForecastOfTwoHours()
    ensures ForecastOf(TwoHours) == Some(TwoHoursForecast)
  {
    assert ForecastOf(TwoHours).value == TwoHoursForecast;
  }

  lemma ForecastOfUnknownCode(hourly: Hourly)
    requires hourly == Hourly(["2024-06-01T00:00"], [102])
    ensures ForecastOf(hourly) == Some([ForecastEntry("2024-06-01T00:00", UnknownCode)])
  {
    assert ForecastOf(hourly).value == [ForecastEntry("2024-06-01T00:00", UnknownCode)];
  }

  /** The Paris request validates to its own fields. */
  lemma ParisRequest(request: RawRequest)
    requires request == RawRequest(Some("Paris"), Some("2024-06-01 00:00:00"), Some("2024-06-01 03:00:00"))
    ensures IsValid(request) == Ok(PlannerData("Paris", request.startTime.value, request.endTime.value))
    ensures FormatHour(request.startTime.value) == Some("2024-06-01T00:00")
    ensures FormatHour(request.endTime.value) == Some("2024-06-01T03:00")
  {
    ParisWindow(request.startTime.value, request.endTime.value);
  }

  /** What the fixed Paris providers answer. */
  lemma ParisProviders(providers: Providers)
    requires providers == Fixed([GeoResult(48.85, 2.35)], TwoHours, [PlaceResult("Eiffel Tower")])
    ensures Geocode(providers, "Paris") == Some(Paris)
    ensures WeatherForecast(providers, Paris, "2024-06-01T00:00", "2024-06-01T03:00") == Some(TwoHoursForecast)
    ensures NearbyPlaces(providers, Paris) == Some(["Eiffel Tower"])
  {
    ForecastOfTwoHours();
    assert PlaceNames([PlaceResult("Eiffel Tower")]) == ["Eiffel Tower"];
  }

  /** A log of three calls is determined by what each call was sent. */
  lemma ThreeCalls(calls: seq<Call>, name: string, at: Coordinates, startHour: string, endHour: string)
    requires |calls| == 3 && calls[0] == GeocodeCall(name) && calls[1].ForecastCall?
    requires calls[1].at == at && calls[1].startHour == startHour && calls[1].endHour == endHour
    requires calls[2] == PlacesCall(calls[1].at)
    ensures calls == [GeocodeCall(name), ForecastCall(at, startHour, endHour), PlacesCall(at)]
  {
  }

  /** Three hours in Paris: two forecast hours (codes 0 and 3) and one
      attraction give a 200 with both lists, after all three upstream calls. */
  method ParisScenario() returns (response: Response, calls: seq<Call>)
    ensures calls == [GeocodeCall("Paris"), ForecastCall(Paris, "2024-06-01T00:00", "2024-06-01T03:00"), PlacesCall(Paris)]
    ensures response == Response(200, Planned(TwoHoursForecast, ["Eiffel Tower"]))
  {
    var request := RawRequest(Some("Paris"), Some("2024-06-01 00:00:00"), Some("2024-06-01 03:00:00"));
    ParisRequest(request);
    var providers := Fixed([GeoResult(48.85, 2.35)], TwoHours, [PlaceResult("Eiffel Tower")]);
    ParisProviders(providers);
    response, calls := Post(request, providers);
    ThreeCalls(calls, "Paris", Paris, "2024-06-01T00:00", "2024-06-01T03:00");
  }

  /** A window that starts when it ends is refused with 401 before any
      provider is called. */
  method EmptyWindowScenario(providers: Providers) returns (response: Response, calls: seq<Call>)
    ensures calls == []
    ensures response == Response(401, Errors(NonFieldError(OrderMessage)))
  {
    var start := "2024-06-01 00:00:00";
    StartParses(start);
    response, calls := Post(RawRequest(Some("Paris"), Some(start), Some(start)), providers);
  }

  /** A code outside the table is reported as "Unknown code" and the request
      still succeeds. */
  method UnknownCodeScenario() returns (response: Response, calls: seq<Call>)
    ensures response == Response(200, Planned([ForecastEntry("2024-06-01T00:00", "Unknown code")], []))
  {
    var start, end := "2024-06-01 00:00:00", "2024-06-01 03:00:00";
    ParisWindow(start, end);
    var hourly := Hourly(["2024-06-01T00:00"], [102]);
    var providers := Fixed([GeoResult(48.85, 2.35)], hourly, []);
    ForecastOfUnknownCode(hourly);
    response, calls := Post(RawRequest(Some("Paris"), Some(start), Some(end)), providers);
  }

  /** A location the geocoder does not know (no results) is a 500 after the one
      geocoding call. */
  method UnknownPlaceScenario(hourly: Hourly, places: seq<PlaceResult>) returns (response: Response, calls: seq<Call>)
    ensures calls == [GeocodeCall("Atlantis")]
    ensures response == Response(500, Error(InternalError))
  {
    var start, end := "2024-06-01 00:00:00", "2024-06-01 03:00:00";
    ParisWindow(start, end);
    response, calls := Post(RawRequest(Some("Atlantis"), Some(start), Some(end)), Fixed([], hourly, places));
  }
}
