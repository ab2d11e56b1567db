/** `PlannerSerializer`: the three required text fields of a planner request
    and the `validate` hook that checks the two timestamps. */
module Serializer {
  import opened Wrappers
  import opened DateTimes

  /** The request body as received: each declared field may be absent. */
  datatype RawRequest = RawRequest(location: Option<string>, startTime: Option<string>, endTime: Option<string>)

  /** The validated data: all three fields present, as text. */
  datatype PlannerData = PlannerData(location: string, startTime: string, endTime: string)

  /** A serializer error: the fields that are required but absent, or an error
      raised by `validate`. */
  datatype ValidationFailure = FieldsRequired(fields: seq<string>) | NonFieldError(message: string)

  const FormatMessage: string := "Incorrect date format, should be YYYY-MM-DD HH:MM:SS"
  const OrderMessage: string := "Start time must be less than end time"

  /** The names of the absent fields, in declaration order. */
  function MissingFields(raw: RawRequest): (names: seq<string>)
    ensures names == [] <==> raw.location.Some? && raw.startTime.Some? && raw.endTime.Some?
    ensures "location" in names <==> raw.location.None?
    ensures "start_time" in names <==> raw.startTime.None?
    ensures "end_time" in names <==> raw.endTime.None?
  {
    (if raw.location.None? then ["location"] else [])
      + (if raw.startTime.None? then ["start_time"] else [])
      + (if raw.endTime.None? then ["end_time"] else [])
  }

  /** Both timestamps parse under `%Y-%m-%d %H:%M:%S` and the start is strictly
      earlier than the end. */
  predicate StrictlyOrdered(start: string, end: string) {
    Parse(start).Some? && Parse(end).Some? && Before(Parse(start).value, Parse(end).value)
  }

  /** `PlannerSerializer.validate`: parse both timestamps, then compare them;
      on success the data is returned as it came. */
  function Validate(data: PlannerData): (r: Result<PlannerData, ValidationFailure>)
    ensures r.Ok? <==> StrictlyOrdered(data.startTime, data.endTime)
    ensures r.Ok? ==> r.value == data
    ensures Parse(data.startTime).None? || Parse(data.endTime).None? ==> r == Err(NonFieldError(FormatMessage))
    ensures Parse(data.startTime).Some? && Parse(data.endTime).Some? && r.Err? ==> r == Err(NonFieldError(OrderMessage))
  {
    match (Parse(data.startTime), Parse(data.endTime))
    case (Some(start), Some(end)) =>
      if Before(start, end) then Ok(data) else Err(NonFieldError(OrderMessage))
    case _ => Err(NonFieldError(FormatMessage))
  }

  /** `serializer.is_valid()`: every field is required, and `validate` runs only
      once all three are present. */
  function IsValid(raw: RawRequest): (r: Result<PlannerData, ValidationFailure>)
    ensures MissingFields(raw) != [] ==> r == Err(FieldsRequired(MissingFields(raw)))
    ensures r.Ok? <==> MissingFields(raw) == [] && StrictlyOrdered(raw.startTime.value, raw.endTime.value)
    ensures r.Ok? ==> r.value == PlannerData(raw.location.value, raw.startTime.value, raw.endTime.value)
  {
    var missing := MissingFields(raw);
    if missing != [] then Err(FieldsRequired(missing))
    else Validate(PlannerData(raw.location.value, raw.startTime.value, raw.endTime.value))
  }

  /** Validation accepts exactly the windows whose start lies strictly earlier in
      time than their end. */
  lemma ValidateMeansEarlier(data: PlannerData)
    ensures Validate(data).Ok? <==>
      && Parse(data.startTime).Some? && Parse(data.endTime).Some?
      && ElapsedSeconds(Parse(data.startTime).value) < ElapsedSeconds(Parse(data.endTime).value)
  {
    if Parse(data.startTime).Some? && Parse(data.endTime).Some? {
      BeforeIffEarlier(Parse(data.startTime).value, Parse(data.endTime).value);
    }
  }

  /** A window whose start and end are the same moment, however each is
      spelled, is rejected with the ordering message. */
  lemma EqualTimesRejected(location: string, start: string, end: string)
    requires Parse(start).Some? && Parse(start) == Parse(end)
    ensures Validate(PlannerData(location, start, end)) == Err(NonFieldError(OrderMessage))
  {
    var t := Parse(start).value;
    BeforeIsStrictTotalOrder(t, t, t);
  }

  /** If a window is accepted, the same window reversed is rejected with the
      ordering message. */
  lemma ReversedWindowRejected(data: PlannerData)
    requires Validate(data).Ok?
    ensures Validate(PlannerData(data.location, data.endTime, data.startTime)) == Err(NonFieldError(OrderMessage))
  {
  }
}
