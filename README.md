# Trip planner endpoint — a Dafny model

This models the core of a small Django REST trip-planner service. One
authenticated `POST` takes a location and a time window. It checks the window
through `PlannerSerializer`. It then resolves the location to coordinates,
fetches the hourly weather forecast for the window and fetches the tourist
attractions nearby. The answer is both lists, or an error status.

Modules:

- `DateTimes`: Python's `datetime.strptime(s, '%Y-%m-%d %H:%M:%S')`, as
  CPython's regex-based `_strptime` accepts it. This includes single-digit
  fields, `%d` written as a space and one digit, and any run of whitespace for
  the format's space. It also covers the `datetime` range checks, the ordering
  of the resulting naive datetimes, and `isoformat(timespec='minutes')`.
  Ordering is proved equal to comparing the seconds elapsed since 0001-01-01,
  an independent reference.
- `Serializer`: the three required fields and `PlannerSerializer.validate`.
- `WeatherCodes`: the 28-entry WMO code table and its `.get(code, "Unknown code")` lookup.
- `Forecast`: the hour formatting sent to the forecast provider, and the loop
  that pairs `time[count]` with the label of `weather_code[count]`. The loop is a
  method proved against a specification function.
- `Locations`: what `get_lat_long` and `get_nearby_places` take from the decoded replies.
- `Planner`: `PlannerAPIView.post`. The three upstream providers are oracles
  passed as parameters. A provider either answers with a decoded reply or is
  `Unavailable`. The handler returns the response and the ordered log of the
  upstream calls it made.
- `Scenarios`: concrete requests through the handler.

Two facts about the source that the model follows:

- The weather table has 28 entries (app/views.py:47-76).
- The handler returns 200, 401 and 500 (app/views.py:147-153). The API
  documentation decorator (app/views.py:132-137) lists 201 for success, 400
  for validation errors, 401 and 500.

## Model

| member | source | states |
|---|---|---|
| `DateTimes.Parse` | app/serializers.py:15-16 | whatever strptime accepts is a valid `datetime` (year 1..9999, day within its month under the Gregorian leap rule, hour < 24, minute and second < 60) |
| `DateTimes.ParsePadded` | app/serializers.py:15-16 | zero-padded text whose fields fit the directive patterns parses exactly when the `datetime` constructor accepts the fields, and then to those fields; year 0, a day past its month's end and seconds 60 and 61 are refused |
| `DateTimes.ParseRender` | app/serializers.py:15-16 | the zero-padded `YYYY-MM-DD HH:MM:SS` text of every valid datetime parses back to that datetime |
| `DateTimes.LeapDayOnlyInLeapYears` | app/serializers.py:15-16 | February 29th parses exactly in leap years |
| `DateTimes.ParseSpelled` | app/serializers.py:15-16 | every spelling the format admits parses to the valid datetime it spells: month, hour, minute and second each independently padded or one digit, the day as two digits, one digit or a space and one digit, and any non-empty whitespace run between date and time |
| `DateTimes.ParseIsSpelled` | app/serializers.py:15-16 | every text strptime accepts is one of those spellings of the datetime it returns, so with `ParseSpelled` the accepted texts are exactly the spellings of valid datetimes; a `T` separator, a stray character, a missing or three-digit field is refused |
| `DateTimes.ParseLenient` | app/serializers.py:15-16 | single-digit month, hour, minute and second, the day written as a space and one digit, and any non-empty run of whitespace between date and time are accepted and read as the datetime they spell |
| `DateTimes.TrailingDataRejected` | app/serializers.py:15-16 | any character after a complete zero-padded timestamp makes parsing fail ("unconverted data remains") |
| `DateTimes.DaysInMonth` | app/serializers.py:15-16 | month lengths are 28..31, and February has 29 days exactly in leap years |
| `DateTimes.BeforeIsEarlier` | app/serializers.py:21 | if the field-by-field datetime comparison says earlier, fewer seconds have elapsed since 0001-01-01 |
| `DateTimes.BeforeIffEarlier` | app/serializers.py:21 | the datetime `<` holds exactly when the first moment has fewer elapsed seconds than the second |
| `DateTimes.BeforeIsStrictTotalOrder` | app/serializers.py:21 | the datetime `<` is irreflexive, asymmetric, transitive and total |
| `DateTimes.DayOfYearBound` | app/serializers.py:21 | the day-of-year of a valid datetime lies inside its year, the fact the elapsed-time reference rests on |
| `DateTimes.IsoMinutesShape` | app/views.py:82-83 | `isoformat(timespec='minutes')` is 16 characters with `-`, `-`, `T`, `:` at positions 4, 7, 10 and 13 |
| `DateTimes.IsoMinutesOfRender` | app/views.py:82-83 | `isoformat(timespec='minutes')` is the canonical text with the space turned into `T` and the seconds dropped |
| `Serializer.MissingFields` | app/serializers.py:6-8 | each of `location`, `start_time`, `end_time` is reported exactly when absent, and nothing is reported exactly when all three are present |
| `Serializer.Validate` | app/serializers.py:10-25 | accepted exactly when both timestamps parse and the start is strictly earlier; an accepted window is returned unchanged; a timestamp that does not parse gives the format message; two parsed timestamps in the wrong order give the ordering message |
| `Serializer.IsValid` | app/serializers.py:6-25 | missing fields are reported before `validate` runs; acceptance is exactly "all three present and strictly ordered"; the validated data is the fields as sent |
| `Serializer.ValidateMeansEarlier` | app/serializers.py:14-23 | a window is accepted exactly when both parse and the start has fewer elapsed seconds than the end |
| `Serializer.EqualTimesRejected` | app/serializers.py:21-23 | a window whose start and end parse to the same moment, however each is spelled, is refused with the ordering message |
| `Serializer.ReversedWindowRejected` | app/serializers.py:21-23 | if a window is accepted, the same window reversed is refused with the ordering message |
| `WeatherCodes.Describe` | app/views.py:91 | a known code gets its table label; the result is "Unknown code" exactly for codes outside the table |
| `WeatherCodes.IncreasingIsDistinct` | app/views.py:47-76 | a strictly increasing list of codes has as many distinct codes as entries, which is how the table is counted |
| `WeatherCodes.TableKeys` | app/views.py:47-76 | the table's keys are exactly the 28 listed WMO codes |
| `WeatherCodes.SentinelIsNotALabel` | app/views.py:47-76 | "Unknown code" is not the label of any code |
| `WeatherCodes.LabelsAreDistinct` | app/views.py:47-76 | two different codes never share a label |
| `WeatherCodes.SampleLabels` | app/views.py:48-75 | codes 0, 61 and 99 get their labels; 102 and -1 get "Unknown code" |
| `Forecast.FormatHour` | app/views.py:82-83 | the hour is formatted exactly when strptime accepts the timestamp, and is then a 16-character `YYYY-MM-DDTHH:MM` shape |
| `Forecast.FormatHourOfCanonical` | app/views.py:82-83 | on zero-padded text, formatting replaces the space with `T` and drops the seconds |
| `Forecast.ValidatedHoursFormat` | app/views.py:82-83 | once the serializer accepted a window, both hours format (the second strptime cannot raise) to the minutes of the validated datetimes |
| `Forecast.BuildForecast` | app/views.py:88-92 | the loop returns the forecast specification: one record per code, or failure when `time` is shorter than `weather_code` |
| `Forecast.ForecastFollowsProvider` | app/views.py:88-92 | a forecast exists exactly when `time` has at least as many entries as `weather_code`; it has one record per code, in order, pairing `time[i]` with the label of code `i` |
| `Forecast.EmptyReplyEmptyForecast` | app/views.py:89 | no weather codes give an empty forecast, not an error |
| `Forecast.ExtraTimesIgnored` | app/views.py:89-90 | `time` entries past the last code do not change the forecast |
| `Forecast.ConditionsAreLabels` | app/views.py:91 | every reported condition is a table label or "Unknown code", and it is "Unknown code" exactly for codes outside the table |
| `Locations.LatLong` | app/views.py:31 | coordinates exist exactly when the geocoding reply has at least one result |
| `Locations.LatLongOfFirst` | app/views.py:31 | the coordinates are those of the first result, whatever follows it |
| `Locations.PlaceNames` | app/views.py:115 | one name per place, in the provider's order |
| `Locations.PlaceNamesAppend` | app/views.py:115 | the names of concatenated replies are the concatenated names |
| `Planner.Geocode` | app/views.py:24-31 | coordinates exist exactly when the geocoding provider answered with at least one result, and they are the first result's latitude and longitude |
| `Planner.WeatherForecast` | app/views.py:86-92 | a forecast exists exactly when the provider answered with at least as many times as codes; it then pairs each code, in order, with its time and its label |
| `Planner.NearbyPlaces` | app/views.py:113-116 | names exist exactly when the places provider answered; there is one per result, in the provider's order |
| `Planner.Post` | app/views.py:138-153 | invalid input gives 401 with the serializer's errors and no upstream call; otherwise geocoding is called first with the location; the forecast is requested exactly when geocoding succeeded, at its coordinates, with the validated hours; places are requested exactly when the forecast was built, at the same coordinates; 200 exactly when all three stages succeed, with both lists; every other failure after validation is the same 500 "Internal server error" |
| `Scenarios.ParisScenario` | app/views.py:138-147 | a valid Paris window with a two-hour forecast (codes 0 and 3) and one attraction gives 200 with both lists; the call log is geocoding of "Paris", the forecast at its coordinates for hours `2024-06-01T00:00` to `2024-06-01T03:00`, and the places at the same coordinates |
| `Scenarios.EmptyWindowScenario` | app/views.py:149-150 | a window whose start equals its end gives 401 with the ordering message and no upstream call |
| `Scenarios.UnknownCodeScenario` | app/views.py:88-92 | an unknown weather code (102) is reported as "Unknown code" and the request still succeeds |
| `Scenarios.UnknownPlaceScenario` | app/views.py:143 | a location with no geocoding result gives 500 after the single geocoding call |

## Left out

- Network I/O is not modelled: the URLs, the query parameters, `requests.get` and JSON decoding. Each provider is an oracle parameter whose answer is already decoded.
- A transport error, an undecodable body, and a reply missing a key the handler reads are all one outcome, `Unavailable`. All of them end in the generic 500.
- A reply without `hourly.time` is modelled as an empty `time` list. Both raise at the first index read, so the outcome is the same.
- A geocoding reply without `results` is modelled as an empty `results` list. Both end in 500.
- Weather codes that are JSON `null`, floats or unhashable values are not modelled; codes are integers.
- The provider credential and the `'IST'` timezone are configuration sent to the providers and are not modelled.
- The formatting of the coordinates into the places query is not modelled. Coordinates are `real` values carried through untouched.
- The `IsAuthenticated` permission check is not modelled, because it runs before the handler.
- The framework's field machinery is reduced to "required": an absent field is reported by name and `validate` does not run. Not modelled: whitespace trimming of `CharField` values, the blank and null-character checks, and non-text JSON values. So the model hands `validate` the text as sent.
- The exact shape of the error body (`e.args[0]`, a dictionary of field errors) is not modelled. It is the abstract `ValidationFailure`.
- The API documentation decorator's status codes (201, 400) are not modelled. The model follows the statuses the handler returns.
- `DateTimes.Parse`: `\d` in Python's `re` also matches non-ASCII decimal digits, which strptime would accept. The model accepts only ASCII digits.
- `Locations.LatLong`: its own contract says only when a result exists. Which coordinates it returns is stated by `Locations.LatLongOfFirst`.
- Microseconds are not modelled. The format has no `%f`, so they are always 0.
