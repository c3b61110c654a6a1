/** The date rules both request schemas refine their input with, and the error replies the
    routes send. */
module RequestRules {
  import opened Calendar

  /** The milliseconds of one day. */
  const MillisPerDay: nat := 86_400_000

  /** A time of day: the milliseconds elapsed since midnight. */
  type DayMillis = m: nat | m < MillisPerDay

  /** An instant: a day and the milliseconds elapsed since its midnight. A date parsed from a
      request is the midnight of its day. */
  datatype Instant = Instant(date: Date, millis: DayMillis)

  function Midnight(d: Date): Instant {
    Instant(d, 0)
  }

  /** `a < b` between instants. */
  predicate InstantBefore(a: Instant, b: Instant) {
    Before(a.date, b.date) || (a.date == b.date && a.millis < b.millis)
  }

  /** The two refinements of a request's dates. */
  datatype DateRule = StartInPast | StartNotBeforeEnd

  /** The issue message of each rule. */
  function RuleMessage(rule: DateRule): string {
    match rule
    case StartInPast => "startDate must be in the future"
    case StartNotBeforeEnd => "startDate must be before endDate"
  }

  /** The issues raised by a request's dates at instant `now`: the start must not lie before
      `now`, and must lie strictly before the end. Both rules are checked, so both issues may
      be raised together; the first rule's issue comes first. */
  function DateIssues(start: Date, end: Date, now: Instant): (r: seq<DateRule>)
    ensures StartInPast in r <==> InstantBefore(Midnight(start), now)
    ensures StartNotBeforeEnd in r <==> AtOrBefore(end, start)
    ensures |r| == 0 <==> !InstantBefore(Midnight(start), now) && Before(start, end)
    ensures |r| <= 2
    ensures |r| == 2 ==> r == [StartInPast, StartNotBeforeEnd]
    ensures r == (if StartInPast in r then [StartInPast] else []) + (if StartNotBeforeEnd in r then [StartNotBeforeEnd] else [])
  {
    var past := if InstantBefore(Midnight(start), now) then [StartInPast] else [];
    var order := if !Before(start, end) then [StartNotBeforeEnd] else [];
    past + order
  }

  /** One entry of an error reply's `errors` list: a failed date rule, or the message of an
      error the service threw. */
  datatype ErrorEntry = RuleViolation(rule: DateRule) | ServiceError(message: string)

  /** The message of an error entry. */
  function EntryMessage(e: ErrorEntry): string {
    match e
    case RuleViolation(rule) => RuleMessage(rule)
    case ServiceError(message) => message
  }

  /** A route's reply: the body of a success, a not-found message, or a list of errors. */
  datatype Reply<T> = Success(body: T) | NotFound(message: string) | BadRequest(errors: seq<ErrorEntry>)

  /** The error reply for a list of failed date rules. */
  function RuleViolations(rules: seq<DateRule>): (r: seq<ErrorEntry>)
    ensures |r| == |rules| && forall i :: 0 <= i < |rules| ==> r[i] == RuleViolation(rules[i])
  {
    seq(|rules|, i requires 0 <= i < |rules| => RuleViolation(rules[i]))
  }
}
