/** `GET /availability`: validate the query's dates, list the available cars and narrow the
    list to one car when the query names it. */
module AvailabilityRoute {
  import opened Wrappers
  import opened Seqs
  import opened Calendar
  import opened Types
  import opened InMemoryDb
  import opened CarModel
  import opened RequestRules

  datatype AvailabilityQuery = AvailabilityQuery(startDate: Date, endDate: Date, carId: Option<Id>)

  /** The query names a car; an empty id is falsy and names none. */
  predicate NamesCar(carId: Option<Id>) {
    carId.Some? && carId.value != ""
  }

  /** Narrows a listing to the car the query names: the whole listing when it names none, the
      first entry of the named car, or "Car not available" when the listing lacks it. */
  function SelectCar(list: seq<AvailableCar>, carId: Option<Id>): (r: Reply<seq<AvailableCar>>)
    ensures !NamesCar(carId) ==> r == Success(list)
    ensures NamesCar(carId) && (forall i :: 0 <= i < |list| ==> list[i].car.id != carId.value) ==>
              r == NotFound("Car not available")
    ensures NamesCar(carId) && (exists i :: 0 <= i < |list| && list[i].car.id == carId.value) ==>
              exists i :: && 0 <= i < |list| && list[i].car.id == carId.value
                          && r == Success([list[i]])
                          && forall j :: 0 <= j < i ==> list[j].car.id != carId.value
  {
    if NamesCar(carId) then
      match FindFirst(list, (c: AvailableCar) => c.car.id == carId.value)
      case None => NotFound("Car not available")
      case Some(i) => Success([list[i]])
    else
      Success(list)
  }

  /** The route's reply to `query` at instant `now`, given what the availability service
      returned (its listing, or the message of the error it threw). */
  function HandleAvailability(query: AvailabilityQuery, now: Instant, listing: Result<seq<AvailableCar>, string>)
    : (r: Reply<seq<AvailableCar>>)
    ensures |DateIssues(query.startDate, query.endDate, now)| > 0 ==>
              r == BadRequest(RuleViolations(DateIssues(query.startDate, query.endDate, now)))
    ensures |DateIssues(query.startDate, query.endDate, now)| == 0 && listing.Err? ==>
              r == BadRequest([ServiceError(listing.error)])
    ensures |DateIssues(query.startDate, query.endDate, now)| == 0 && listing.Ok? ==>
              r == SelectCar(listing.value, query.carId)
  {
    var issues := DateIssues(query.startDate, query.endDate, now);
    if |issues| > 0 then BadRequest(RuleViolations(issues))
    else
      match listing
      case Err(message) => BadRequest([ServiceError(message)])
      case Ok(list) => SelectCar(list, query.carId)
  }

  /** A free catalog car is listed with its quote, and no other car shares its id. */
  lemma FreeCarIsListed(store: Store, car: Car, start: Date, end: Date)
    requires car in store.cars
    requires forall c :: c in store.cars && c.id == car.id ==> c == car
    requires |FindBookingsByCarAndDateRange(store, car.id, start, end)| == 0
    ensures var list := ListAvailable(store, start, end);
            && (exists i :: 0 <= i < |list| && list[i].car.id == car.id)
            && forall i :: 0 <= i < |list| && list[i].car.id == car.id ==> list[i] == Quote(car, DatesInRange(start, end))
  {
    var list := ListAvailable(store, start, end);
    assert car in CarsOf(list);
    var k :| 0 <= k < |list| && CarsOf(list)[k] == car;
    assert list[k].car.id == car.id;
    forall i | 0 <= i < |list| && list[i].car.id == car.id
      ensures list[i] == Quote(car, DatesInRange(start, end))
    {
      assert list[i].car == car;
    }
  }

  /** A booked catalog car is not listed, nor is any car sharing its id. */
  lemma BookedCarIsNotListed(store: Store, car: Car, start: Date, end: Date)
    requires car in store.cars
    requires forall c :: c in store.cars && c.id == car.id ==> c == car
    requires |FindBookingsByCarAndDateRange(store, car.id, start, end)| > 0
    ensures var list := ListAvailable(store, start, end);
            forall i :: 0 <= i < |list| ==> list[i].car.id != car.id
  {
    var list := ListAvailable(store, start, end);
    assert car !in CarsOf(list);
    forall i | 0 <= i < |list| ensures list[i].car.id != car.id {
      assert list[i].car in store.cars && CarsOf(list)[i] == list[i].car;
    }
  }

  /** The listing of a store whose catalog holds car `car` once: a query naming the car gets
      exactly its quote when nothing books it over the range, and "Car not available" when
      something does. */
  lemma SelectCarFromStore(store: Store, car: Car, start: Date, end: Date)
    requires car in store.cars
    requires forall c :: c in store.cars && c.id == car.id ==> c == car
    ensures var r := SelectCar(ListAvailable(store, start, end), Some(car.id));
            car.id != "" ==>
              if |FindBookingsByCarAndDateRange(store, car.id, start, end)| == 0
              then r == Success([Quote(car, DatesInRange(start, end))])
              else r == NotFound("Car not available")
  {
    if |FindBookingsByCarAndDateRange(store, car.id, start, end)| == 0 {
      FreeCarIsListed(store, car, start, end);
    } else {
      BookedCarIsNotListed(store, car, start, end);
    }
  }
}
