/** The feed client (`fetch_train_locations`): the rate-limit wait, the
    request outcome, the capture label and the process-wide time of the last
    successful request. The HTTP session, protobuf decoding, the clock and the
    time-of-day formatting are parameters: `now` is the clock when the call
    starts, `completedAt` the clock just after a status-200 response, and
    `timeOfDay` the `HH:MM:SS` text taken when the call returns. */
module FeedClient {
  import opened Wrappers
  import opened Text
  import opened Gtfs
  import opened Trains

  /** `MIN_REQUEST_INTERVAL`, in seconds. */
  const MinRequestInterval: real := 5.0

  /** The body of a status-200 response: a feed that decodes to its
      entities, or bytes that `ParseFromString` rejects. */
  datatype Body = Decoded(entities: seq<FeedEntity>) | Malformed

  /** What `session.get` did: answered with a status and a body, or raised
      one of the `requests` exceptions (taken as disjoint categories). */
  datatype Outcome =
    | Response(status: int, body: Body)
    | HttpError
    | ConnectionFailure
    | TimeoutFailure
    | RequestFailure
    | UnexpectedFailure

  /** How a snapshot was captured, as its label reports it. */
  datatype Capture =
    | Fresh
    | StatusError(code: int)
    | ApiError
    | ConnectionError
    | TimedOut
    | RequestError
    | Unexpected

  // ---------------------------------------------------------------------
  // Rate limit

  /** How long the call sleeps before the request: the rest of the minimum
      interval when a previous request succeeded less than that long ago,
      and nothing on the first call or after a long enough pause. */
  function WaitBefore(last: real, now: real): (w: real)
    ensures w >= 0.0
    ensures last > 0.0 ==> now + w - last >= MinRequestInterval
    ensures w > 0.0 ==> last > 0.0 && now + w - last == MinRequestInterval
    ensures (last <= 0.0 || now - last >= MinRequestInterval) <==> w == 0.0
  {
    var sinceLast := now - last;
    if sinceLast < MinRequestInterval && last > 0.0 then MinRequestInterval - sinceLast else 0.0
  }

  // ---------------------------------------------------------------------
  // Outcome, trains and label

  /** The category an outcome is reported under. A status other than 200 is
      reported with its code; a 200 whose body does not decode falls through
      to the catch-all handler. */
  function CaptureOf(outcome: Outcome): (c: Capture)
    ensures c == Fresh <==> outcome.Response? && outcome.status == 200 && outcome.body.Decoded?
    ensures c.StatusError? <==> outcome.Response? && outcome.status != 200
    ensures c.StatusError? ==> c.code == outcome.status
    ensures outcome.Response? && outcome.status == 200 && outcome.body.Malformed? ==> c == Unexpected
    ensures outcome.HttpError? ==> c == ApiError
    ensures outcome.ConnectionFailure? ==> c == ConnectionError
    ensures outcome.TimeoutFailure? ==> c == TimedOut
    ensures outcome.RequestFailure? ==> c == RequestError
    ensures outcome.UnexpectedFailure? ==> c == Unexpected
  {
    match outcome
    case Response(status, body) =>
      if status != 200 then StatusError(status)
      else if body.Malformed? then Unexpected
      else Fresh
    case HttpError => ApiError
    case ConnectionFailure => ConnectionError
    case TimeoutFailure => TimedOut
    case RequestFailure => RequestError
    case UnexpectedFailure => Unexpected
  }

  /** The trains a call returns: the normalised feed on success, none otherwise. */
  function FetchedTrains(outcome: Outcome): (trains: seq<Train>)
    ensures trains != [] ==> CaptureOf(outcome) == Fresh
    ensures CaptureOf(outcome) == Fresh ==> trains == Normalized(outcome.body.entities)
  {
    if CaptureOf(outcome) == Fresh then Normalized(outcome.body.entities) else []
  }

  /** Whether the call records a new last-request time: exactly when the
      status is 200, before the body is decoded. */
  function MarksRequest(outcome: Outcome): (m: bool)
    ensures CaptureOf(outcome) == Fresh ==> m
    ensures m <==> CaptureOf(outcome) == Fresh || (outcome.Response? && CaptureOf(outcome) == Unexpected)
  {
    outcome.Response? && outcome.status == 200
  }

  /** The text after the time of day in a capture label. */
  function Suffix(c: Capture): (s: string)
    ensures s == "" <==> c == Fresh
    ensures s != "" ==> |s| >= 3 && s[..2] == " (" && s[|s| - 1] == ')'
  {
    match c
    case Fresh => ""
    case StatusError(code) => " (Error: " + IntString(code) + ")"
    case ApiError => " (API Error)"
    case ConnectionError => " (Connection Error)"
    case TimedOut => " (Timeout)"
    case RequestError => " (Request Error)"
    case Unexpected => " (Error)"
  }

  /** The capture label: the time of day, followed by the suffix of its category. */
  function CaptureLabel(timeOfDay: string, c: Capture): (text: string)
    ensures |text| >= |timeOfDay| && text[..|timeOfDay|] == timeOfDay
    ensures c == Fresh <==> text == timeOfDay
  {
    timeOfDay + Suffix(c)
  }

  /** Reads the category back from a label suffix. */
  function ParseSuffix(rest: string): Option<Capture> {
    if rest == "" then Some(Fresh)
    else if rest == " (API Error)" then Some(ApiError)
    else if rest == " (Connection Error)" then Some(ConnectionError)
    else if rest == " (Timeout)" then Some(TimedOut)
    else if rest == " (Request Error)" then Some(RequestError)
    else if rest == " (Error)" then Some(Unexpected)
    else if |rest| >= 10 && rest[..9] == " (Error: " && rest[|rest| - 1] == ')' then
      match ParseInt(rest[9..|rest| - 1])
      case Some(code) => Some(StatusError(code))
      case None => None
    else None
  }

  /** Every suffix can be read back to its category. */
  lemma ParseSuffixRoundTrip(c: Capture)
    ensures ParseSuffix(Suffix(c)) == Some(c)
  {
    if c.StatusError? {
      ParseStatusSuffix(c.code);
    }
  }

  lemma ParseStatusSuffix(code: int)
    ensures ParseSuffix(Suffix(StatusError(code))) == Some(StatusError(code))
  {
    var digits := IntString(code);
    var rest := Suffix(StatusError(code));
    ParseIntString(code);
    assert |digits| >= 1;
    assert rest[2] == 'E' && rest[7] == ':';
    assert rest[..9] == " (Error: ";
    assert rest[9..|rest| - 1] == digits;
  }

  /** A label carries exactly one category: two captures at the same time of
      day have the same label only if they are the same capture, so every
      error label differs from the success label and from each other's. */
  lemma CaptureLabelInjective(timeOfDay: string, c: Capture, d: Capture)
    requires CaptureLabel(timeOfDay, c) == CaptureLabel(timeOfDay, d)
    ensures c == d
  {
    var text := CaptureLabel(timeOfDay, c);
    assert Suffix(c) == text[|timeOfDay|..] == Suffix(d);
    ParseSuffixRoundTrip(c);
    ParseSuffixRoundTrip(d);
  }

  /** A status-503 answer yields no trains and a label that names 503. */
  lemma ServiceUnavailableLabel(timeOfDay: string, body: Body)
    ensures FetchedTrains(Response(503, body)) == []
    ensures CaptureLabel(timeOfDay, CaptureOf(Response(503, body))) == timeOfDay + " (Error: 503)"
  {
    assert IntString(503) == "503" by {
      assert NatString(50) == "50" by {
        assert NatString(5) == "5";
      }
    }
  }

  // ---------------------------------------------------------------------
  // The client

  /** The module state of the feed client: `last_request_time`. */
  class Client {
    var lastRequestTime: real

    /** The process starts with no successful request on record. */
    constructor ()
      ensures lastRequestTime == 0.0
    {
      lastRequestTime := 0.0;
    }

    /** One call of `fetch_train_locations`. The request goes out after the
        rate-limit wait, at `requestAt`. A 200 answer records `completedAt`
        as the last request time before its body is decoded, so a body that
        fails to decode still counts; every other outcome leaves the record
        as it was. */
    method Fetch(now: real, outcome: Outcome, completedAt: real, timeOfDay: string)
      returns (trains: seq<Train>, updateTime: string, requestAt: real)
      modifies this
      ensures requestAt == now + WaitBefore(old(lastRequestTime), now)
      ensures old(lastRequestTime) > 0.0 ==> requestAt - old(lastRequestTime) >= MinRequestInterval
      ensures lastRequestTime == if MarksRequest(outcome) then completedAt else old(lastRequestTime)
      ensures trains == FetchedTrains(outcome)
      ensures updateTime == CaptureLabel(timeOfDay, CaptureOf(outcome))
    {
      var sinceLast := now - lastRequestTime;
      requestAt := now;
      if sinceLast < MinRequestInterval && lastRequestTime > 0.0 {
        var wait := MinRequestInterval - sinceLast;
        requestAt := now + wait;
      }
      match outcome {
        case HttpError =>
          return [], timeOfDay + " (API Error)", requestAt;
        case ConnectionFailure =>
          return [], timeOfDay + " (Connection Error)", requestAt;
        case TimeoutFailure =>
          return [], timeOfDay + " (Timeout)", requestAt;
        case RequestFailure =>
          return [], timeOfDay + " (Request Error)", requestAt;
        case UnexpectedFailure =>
          return [], timeOfDay + " (Error)", requestAt;
        case Response(status, body) =>
          if status != 200 {
            return [], timeOfDay + " (Error: " + IntString(status) + ")", requestAt;
          }
          lastRequestTime := completedAt;
          if body.Malformed? {
            return [], timeOfDay + " (Error)", requestAt;
          }
          trains := Normalize(body.entities);
          updateTime := timeOfDay;
      }
    }
  }

  /** Two calls in a row: when the first is answered with status 200 at a
      positive clock reading no earlier than its request, the second request
      goes out at least `MinRequestInterval` seconds after the first. */
  method FetchTwice(client: Client, now1: real, outcome1: Outcome, completedAt1: real,
                    now2: real, outcome2: Outcome, completedAt2: real, timeOfDay: string)
    returns (requestAt1: real, requestAt2: real)
    modifies client
    ensures MarksRequest(outcome1) && 0.0 < completedAt1 && requestAt1 <= completedAt1 ==> requestAt2 - requestAt1 >= MinRequestInterval
  {
    var trains1, time1;
    trains1, time1, requestAt1 := client.Fetch(now1, outcome1, completedAt1, timeOfDay);
    var trains2, time2;
    trains2, time2, requestAt2 := client.Fetch(now2, outcome2, completedAt2, timeOfDay);
  }
}
