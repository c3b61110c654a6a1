/** `POST /booking`: validate the body's dates, hand the request to the booking service and
    turn a thrown error into an error reply. */
module BookingRoute {
  import opened Wrappers
  import opened Calendar
  import opened Types
  import opened Errors
  import opened InMemoryDb
  import opened BookingService
  import opened RequestRules

  /** A request body whose ids and dates have passed the format checks. */
  datatype BookingBody = BookingBody(userId: Id, carId: Id, startDate: Date, endDate: Date)

  /** The service request a body becomes. */
  function ToRequest(body: BookingBody): (r: BookingRequest)
    ensures r.userId == body.userId && r.carId == body.carId
    ensures r.startDate == body.startDate && r.endDate == body.endDate
  {
    BookingRequest(body.userId, body.carId, body.startDate, body.endDate)
  }

  /** The route's reply to `body` at instant `now`, and the store it leaves behind. */
  function HandleBooking(store: Store, body: BookingBody, now: Instant, freshId: Id): (r: (Store, Reply<Booking>))
    ensures |DateIssues(body.startDate, body.endDate, now)| > 0 ==>
              r == (store, BadRequest(RuleViolations(DateIssues(body.startDate, body.endDate, now))))
    ensures |DateIssues(body.startDate, body.endDate, now)| == 0 ==>
              match CreateBooking(store, ToRequest(body), freshId)
              case Ok((store', booking)) => r == (store', Success(booking))
              case Err(failure) => r == (store, BadRequest([ServiceError(Message(failure))]))
    ensures r.1.Success? ==> Eligible(store, ToRequest(body)) && r.0.bookings == store.bookings + [r.1.body]
    ensures !r.1.Success? ==> r.0 == store
  {
    var issues := DateIssues(body.startDate, body.endDate, now);
    if |issues| > 0 then (store, BadRequest(RuleViolations(issues)))
    else
      match CreateBooking(store, ToRequest(body), freshId)
      case Ok((store', booking)) => (store', Success(booking))
      case Err(failure) => (store, BadRequest([ServiceError(Message(failure))]))
  }

  /** A start before `now` is refused as not in the future, and a start on or after the end,
      equal dates included, as not before the end; each rule is checked whatever the other
      finds, and a refused body leaves the store unchanged. */
  lemma BookingDateRules(store: Store, body: BookingBody, now: Instant, freshId: Id)
    ensures var r := HandleBooking(store, body, now, freshId);
            && (InstantBefore(Midnight(body.startDate), now) ==>
                  r.1.BadRequest? && RuleViolation(StartInPast) in r.1.errors && r.0 == store)
            && (AtOrBefore(body.endDate, body.startDate) ==>
                  r.1.BadRequest? && RuleViolation(StartNotBeforeEnd) in r.1.errors && r.0 == store)
  {
    var issues := DateIssues(body.startDate, body.endDate, now);
    var r := HandleBooking(store, body, now, freshId);
    if |issues| > 0 {
      var entries := RuleViolations(issues);
      assert forall i :: 0 <= i < |issues| ==> entries[i] == RuleViolation(issues[i]);
      if StartInPast in issues {
        var i :| 0 <= i < |issues| && issues[i] == StartInPast;
        assert entries[i] == RuleViolation(StartInPast);
      }
      if StartNotBeforeEnd in issues {
        var i :| 0 <= i < |issues| && issues[i] == StartNotBeforeEnd;
        assert entries[i] == RuleViolation(StartNotBeforeEnd);
      }
    }
  }
}
