/** `PlannerAPIView.post`: validate the request, geocode the location, fetch
    the forecast, fetch the nearby places, and map every outcome to a
    response. The three providers are parameters (oracles) that either answer
    with a decoded reply or fail; `calls` records, in order, each request the
    handler sends. */
module Planner {
  import opened Wrappers
  import opened WeatherCodes
  import opened Serializer
  import opened Forecast
  import opened Locations

  /** A provider's answer: the decoded reply, or `Unavailable` for a transport
      error, an undecodable body or a reply missing the keys the handler reads. */
  datatype Fetch<T> = Unavailable | Received(reply: T)

  /** The upstream requests the handler issues. */
  datatype Call =
    | GeocodeCall(name: string)
    | ForecastCall(at: Coordinates, startHour: string, endHour: string)
    | PlacesCall(at: Coordinates)

  datatype Body =
    | Planned(weatherForecast: seq<ForecastEntry>, pointOfInterest: seq<string>)
    | Errors(errors: ValidationFailure)
    | Error(error: string)

  datatype Response = Response(status: int, body: Body)

  const InternalError: string := "Internal server error"

  /** The oracles for the geocoding, forecast and places providers. */
  datatype Providers = Providers(
    geocode: string -> Fetch<seq<GeoResult>>,
    forecast: (Coordinates, string, string) -> Fetch<Hourly>,
    places: Coordinates -> Fetch<seq<PlaceResult>>)

  /** `get_lat_long(location)`: `None` where it raises. */
  function Geocode(providers: Providers, location: string): (r: Option<Coordinates>)
    // coordinates exist exactly when the provider answered with at least one result, and are the first one's
    ensures r.Some? <==> providers.geocode(location).Received? && providers.geocode(location).reply != []
    ensures r.Some? ==> var first := providers.geocode(location).reply[0];
      r.value.latitude == first.latitude && r.value.longitude == first.longitude
  {
    match providers.geocode(location)
    case Unavailable => None
    case Received(results) => LatLong(results)
  }

  /** `get_weather_forcast` once the hours are formatted: `None` where it raises. */
  function WeatherForecast(providers: Providers, at: Coordinates, startHour: string, endHour: string): (r: Option<seq<ForecastEntry>>)
    // a forecast exists exactly when the provider answered with enough times for its codes
    ensures var answer := providers.forecast(at, startHour, endHour);
      r.Some? <==> answer.Received? && |answer.reply.weatherCode| <= |answer.reply.time|
    // and then pairs each code, in order, with its time and label
    ensures var answer := providers.forecast(at, startHour, endHour);
      r.Some? ==> |r.value| == |answer.reply.weatherCode| && forall i :: 0 <= i < |r.value| ==>
        r.value[i] == ForecastEntry(answer.reply.time[i], Describe(answer.reply.weatherCode[i]))
  {
    match providers.forecast(at, startHour, endHour)
    case Unavailable => None
    case Received(hourly) => ForecastFollowsProvider(hourly); ForecastOf(hourly)
  }

  /** `get_nearby_places`: `None` where it raises. */
  function NearbyPlaces(providers: Providers, at: Coordinates): (r: Option<seq<string>>)
    // names exist exactly when the provider answered, one per result in its order
    ensures r.Some? <==> providers.places(at).Received?
    ensures r.Some? ==> |r.value| == |providers.places(at).reply| && forall i :: 0 <= i < |r.value| ==>
      r.value[i] == providers.places(at).reply[i].name
  {
    match providers.places(at)
    case Unavailable => None
    case Received(results) => Some(PlaceNames(results))
  }

  /** The request handler. */
  method Post(request: RawRequest, providers: Providers) returns (response: Response, calls: seq<Call>)
    // a validation failure is answered with 401 and the serializer's errors, before any upstream call
    ensures IsValid(request).Err? ==> response == Response(401, Errors(IsValid(request).error)) && calls == []
    // otherwise geocoding is called first, with the location as given
    ensures IsValid(request).Ok? ==> response.status != 401 && 1 <= |calls| <= 3 && calls[0] == GeocodeCall(IsValid(request).value.location)
    // the forecast is requested only after geocoding succeeded, at its coordinates and with the validated hours
    ensures |calls| >= 2 <==> IsValid(request).Ok? && Geocode(providers, IsValid(request).value.location).Some?
    ensures |calls| >= 2 ==>
      && IsValid(request).Ok?
      && calls[1].ForecastCall?
      && Geocode(providers, IsValid(request).value.location) == Some(calls[1].at)
      && FormatHour(IsValid(request).value.startTime) == Some(calls[1].startHour)
      && FormatHour(IsValid(request).value.endTime) == Some(calls[1].endHour)
    // the places are requested only after the forecast was built, at the same coordinates
    ensures |calls| == 3 <==> |calls| >= 2 && WeatherForecast(providers, calls[1].at, calls[1].startHour, calls[1].endHour).Some?
    ensures |calls| == 3 ==> calls[2] == PlacesCall(calls[1].at)
    // success needs every stage, and carries both lists
    ensures response.status == 200 <==> |calls| == 3 && NearbyPlaces(providers, calls[2].at).Some?
    ensures response.status == 200 ==> response.body == Planned(
      WeatherForecast(providers, calls[1].at, calls[1].startHour, calls[1].endHour).value,
      NearbyPlaces(providers, calls[2].at).value)
    // any failure after validation is the same generic 500
    ensures IsValid(request).Ok? && response.status != 200 ==> response == Response(500, Error(InternalError))
  {
    calls := [];
    var validated := IsValid(request);
    if validated.Err? {
      return Response(401, Errors(validated.error)), calls;
    }
    var data := validated.value;

    calls := calls + [GeocodeCall(data.location)];
    var at := Geocode(providers, data.location);
    if at.None? {
      return Response(500, Error(InternalError)), calls;
    }

    ValidatedHoursFormat(data);
    var startHour, endHour := FormatHour(data.startTime).value, FormatHour(data.endTime).value;
    calls := calls + [ForecastCall(at.value, startHour, endHour)];
    var hourly := providers.forecast(at.value, startHour, endHour);
    if hourly.Unavailable? {
      return Response(500, Error(InternalError)), calls;
    }
    var forecast := BuildForecast(hourly.reply);
    if forecast.None? {
      return Response(500, Error(InternalError)), calls;
    }

    calls := calls + [PlacesCall(at.value)];
    var found := providers.places(at.value);
    if found.Unavailable? {
      return Response(500, Error(InternalError)), calls;
    }
    response := Response(200, Planned(forecast.value, PlaceNames(found.reply)));
  }
}
