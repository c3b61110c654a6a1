/** The frontend's booking context: the car and dates the user is booking, and the quote
    shown for them. Each setter is a transition from the previous state to the next. */
module BookingContext {
  import opened Wrappers
  import opened Types

  /** One price-list entry as the frontend receives it. */
  datatype QuotedPrice = QuotedPrice(season: Season, pricePerDay: real)

  /** A car of the availability listing as the frontend receives it; the two prices may be
      missing from the payload. */
  datatype ListedCar = ListedCar(id: string, brand: string, model: string, pricing: seq<QuotedPrice>,
                                 imageUrl: string, totalPrice: Option<real>, averageDailyPrice: Option<real>)

  datatype BookingData = BookingData(car: Option<ListedCar>, startDate: string, endDate: string,
                                     quoteFetched: bool, totalPrice: real, averageDailyPrice: real)

  /** No car, no dates, no quote. */
  function InitialState(): (s: BookingData)
    ensures s.car.None? && s.startDate == "" && s.endDate == ""
    ensures !s.quoteFetched && s.totalPrice == 0.0 && s.averageDailyPrice == 0.0
  {
    BookingData(None, "", "", false, 0.0, 0.0)
  }

  /** Starts a booking for `car` over the given dates, quoted at the car's listed prices
      (0 for a missing one). */
  function SetBooking(previous: BookingData, car: ListedCar, startDate: string, endDate: string): (s: BookingData)
    ensures s.car == Some(car) && s.startDate == startDate && s.endDate == endDate
    ensures s.quoteFetched
    ensures s.totalPrice == (if car.totalPrice.Some? then car.totalPrice.value else 0.0)
    ensures s.averageDailyPrice == (if car.averageDailyPrice.Some? then car.averageDailyPrice.value else 0.0)
  {
    BookingData(Some(car), startDate, endDate, true, car.totalPrice.GetOr(0.0), car.averageDailyPrice.GetOr(0.0))
  }

  /** Changes the dates; the quote shown no longer matches them. */
  function UpdateDates(previous: BookingData, startDate: string, endDate: string): (s: BookingData)
    ensures s.startDate == startDate && s.endDate == endDate && !s.quoteFetched
    ensures s.car == previous.car
    ensures s.totalPrice == previous.totalPrice && s.averageDailyPrice == previous.averageDailyPrice
  {
    previous.(startDate := startDate, endDate := endDate, quoteFetched := false)
  }

  /** Records a fresh quote for the current dates. */
  function UpdateQuote(previous: BookingData, total: real, average: real): (s: BookingData)
    ensures s.totalPrice == total && s.averageDailyPrice == average && s.quoteFetched
    ensures s.car == previous.car
    ensures s.startDate == previous.startDate && s.endDate == previous.endDate
  {
    previous.(totalPrice := total, averageDailyPrice := average, quoteFetched := true)
  }

  /** Forgets the booking. */
  function ClearBooking(previous: BookingData): (s: BookingData)
    ensures s == InitialState()
  {
    BookingData(None, "", "", false, 0.0, 0.0)
  }

  /** Setting a booking replaces the whole state: the result does not depend on the state
      it replaces. */
  lemma SetBookingForgetsPreviousState(s1: BookingData, s2: BookingData, car: ListedCar, startDate: string, endDate: string)
    ensures SetBooking(s1, car, startDate, endDate) == SetBooking(s2, car, startDate, endDate)
  {
  }

  /** Clearing twice is clearing once. */
  lemma ClearBookingIsIdempotent(s: BookingData)
    ensures ClearBooking(ClearBooking(s)) == ClearBooking(s)
  {
  }

  /** New dates followed by their quote leave a fetched quote for the new dates. */
  lemma DatesThenQuote(s: BookingData, startDate: string, endDate: string, total: real, average: real)
    ensures var t := UpdateQuote(UpdateDates(s, startDate, endDate), total, average);
            && t.quoteFetched && t.startDate == startDate && t.endDate == endDate
            && t.car == s.car && t.totalPrice == total && t.averageDailyPrice == average
  {
  }

  /** A quote followed by new dates equals the other order except that the quote is stale. */
  lemma QuoteThenDatesIsStale(s: BookingData, startDate: string, endDate: string, total: real, average: real)
    ensures UpdateDates(UpdateQuote(s, total, average), startDate, endDate)
            == UpdateQuote(UpdateDates(s, startDate, endDate), total, average).(quoteFetched := false)
  {
  }
}
