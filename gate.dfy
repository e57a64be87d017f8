/** The once-a-day gate (`already_succeeded_today`): before doing any work,
    the generator reads the marker file committed on the output branch and
    skips the run only when that marker records a successful publication on
    today's London date. Every failure to read the marker lets the run go on. */
module Gate {
  import opened Calendar

  /** A member value of the marker's JSON object, as far as the gate can
      tell: a JSON string, or anything else (number, null, list, object). */
  datatype JsonValue = JString(text: string) | JOther

  /** What `r.json()` makes of the response body. */
  datatype Body =
    | Unparsable                                  // `r.json()` raises
    | JsonNonObject                               // a list or a scalar: `.get` raises
    | JsonObject(members: map<string, JsonValue>) // a dict; a repeated key keeps its last value

  /** The outcome of the GET of the marker file. */
  datatype FetchOutcome =
    | RequestFailed                      // connection error, timeout, …
    | Response(status: int, body: Body)

  const SuccessStatus: string := "success"

  /** `data.get(key) == text`: the member is present and is that JSON string. */
  predicate MemberIs(members: map<string, JsonValue>, key: string, text: string)
  {
    key in members && members[key] == JString(text)
  }

  /** `raise_for_status` raises for client and server errors. */
  predicate IsHttpError(status: int)
  {
    400 <= status < 600
  }

  /** `already_succeeded_today`, with the London date of the run as `today`. */
  function AlreadySucceededToday(outcome: FetchOutcome, today: Date): bool
  {
    match outcome
    case RequestFailed => false
    case Response(status, body) =>
      if status == 404 then false
      else if IsHttpError(status) then false
      else
        match body
        case JsonObject(members) =>
          MemberIs(members, "date", IsoDate(today)) && MemberIs(members, "status", SuccessStatus)
        case _ => false
  }

  /** Every failure path fails open: a missing marker (404), an HTTP error,
      a failed request, or a body that is not a JSON object never skips. */
  lemma FailuresNeverSkip(outcome: FetchOutcome, today: Date)
    requires || outcome.RequestFailed?
             || outcome.status == 404
             || IsHttpError(outcome.status)
             || !outcome.body.JsonObject?
    ensures !AlreadySucceededToday(outcome, today)
  {
  }

  /** The JSON object a successful run leaves behind on day `d`, with
      whatever other members it carries. */
  function Marker(d: Date, status: string, others: map<string, JsonValue>): (m: map<string, JsonValue>)
    ensures MemberIs(m, "date", IsoDate(d)) && MemberIs(m, "status", status)
  {
    others["date" := JString(IsoDate(d))]["status" := JString(status)]
  }

  /** A successful marker, read back with any non-error status, skips the
      run exactly on the day it was written: a marker from any other day
      (yesterday's, say) never stops today's run. */
  lemma MarkerSkipsOnlyItsOwnDay(status: int, d: Date, others: map<string, JsonValue>, today: Date)
    requires status != 404 && !IsHttpError(status)
    ensures AlreadySucceededToday(Response(status, JsonObject(Marker(d, SuccessStatus, others))), today)
        <==> d == today
  {
    if IsoDate(d) == IsoDate(today) {
      IsoDateInjective(d, today);
    }
  }

  /** A marker recording any status other than `success` never skips. */
  lemma OnlySuccessSkips(status: int, d: Date, markerStatus: string, others: map<string, JsonValue>, today: Date)
    requires markerStatus != SuccessStatus
    ensures !AlreadySucceededToday(Response(status, JsonObject(Marker(d, markerStatus, others))), today)
  {
  }

  /** Whatever the marker says, it skips the run on at most one day. */
  lemma SkipsOnAtMostOneDay(outcome: FetchOutcome, a: Date, b: Date)
    requires AlreadySucceededToday(outcome, a) && AlreadySucceededToday(outcome, b)
    ensures a == b
  {
    IsoDateInjective(a, b);
  }
}
