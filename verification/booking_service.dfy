/** Booking creation: an ordered chain of eligibility checks that stops at the first failure,
    then strict pricing and a single write to the store. */
module BookingService {
  import opened Wrappers
  import opened Seqs
  import opened Calendar
  import opened Types
  import opened Seasons
  import opened Errors
  import opened Pricing
  import opened InMemoryDb

  /** The user must exist and hold a licence valid on the last day of the booking. */
  function ValidateUser(store: Store, userId: Id, endDate: Date): (r: Result<User, Failure>)
    ensures r.Ok? <==> FindUserById(store, userId).Some? && AtOrBefore(endDate, FindUserById(store, userId).value.licenseValidUntil)
    ensures r.Ok? ==> r.value == FindUserById(store, userId).value
    ensures r.Err? ==> r.error == (if FindUserById(store, userId).None? then UserNotFound else LicenseExpired)
  {
    match FindUserById(store, userId)
    case None => Err(UserNotFound)
    case Some(user) =>
      if Before(user.licenseValidUntil, endDate) then Err(LicenseExpired) else Ok(user)
  }

  /** The user must hold no booking overlapping `[startDate, endDate]`, whatever its car. */
  function CheckUserConflicts(store: Store, userId: Id, startDate: Date, endDate: Date): (r: Result<(), Failure>)
    ensures r.Ok? <==> forall b :: b in store.bookings && b.userId == userId ==> !Overlaps(b, startDate, endDate)
    ensures r.Err? ==> r.error == UserDoubleBooking
  {
    if |FindBookingsByUserAndDateRange(store, userId, startDate, endDate)| > 0 then Err(UserDoubleBooking) else Ok(())
  }

  /** The car must have no booking overlapping `[startDate, endDate]`, whoever holds it. */
  function CheckCarAvailability(store: Store, carId: Id, startDate: Date, endDate: Date): (r: Result<(), Failure>)
    ensures r.Ok? <==> forall b :: b in store.bookings && b.carId == carId ==> !Overlaps(b, startDate, endDate)
    ensures r.Err? ==> r.error == CarUnavailable
  {
    if |FindBookingsByCarAndDateRange(store, carId, startDate, endDate)| > 0 then Err(CarUnavailable) else Ok(())
  }

  /** The first catalog car with id `carId`. */
  function FindCar(store: Store, carId: Id): (r: Result<Car, Failure>)
    ensures r.Err? <==> forall i :: 0 <= i < |store.cars| ==> store.cars[i].id != carId
    ensures r.Err? ==> r.error == CarNotFound
    ensures r.Ok? ==> r.value in store.cars && r.value.id == carId
    ensures r.Ok? ==> exists i :: && 0 <= i < |store.cars| && store.cars[i] == r.value
                                  && forall j :: 0 <= j < i ==> store.cars[j].id != carId
  {
    match FindFirst(GetAllCars(store), (c: Car) => c.id == carId)
    case None => Err(CarNotFound)
    case Some(i) => Ok(store.cars[i])
  }

  /** The strict price of the days `[startDate, endDate)`: the end day is not charged, and a
      day whose season has no rate fails naming that season. */
  function CalculateTotalPrice(car: Car, startDate: Date, endDate: Date): (r: Result<nat, Failure>)
    ensures r.Ok? <==> AllDaysPriced(car.pricing, DatesInRange(startDate, endDate))
    ensures r.Ok? ==> r.value == LenientTotal(car.pricing, DatesInRange(startDate, endDate))
    ensures r.Err? ==> r.error.PricingGap?
    ensures r.Err? ==> exists d :: && d in DatesInRange(startDate, endDate)
                                   && DayRate(car.pricing, d).None?
                                   && r.error.season == GetSeason(d)
  {
    var days := DatesInRange(startDate, endDate);
    StrictTotalSucceeds(car.pricing, days);
    match StrictTotal(car.pricing, days)
    case Err(season) => Err(PricingGap(season))
    case Ok(total) =>
      LenientAgreesWithStrict(car.pricing, days);
      Ok(total)
  }

  /** Every check of `request` against `store` passes: the conditions under which a booking
      is created, stated over the store's contents. */
  ghost predicate Eligible(store: Store, request: BookingRequest) {
    && (exists u :: u in store.users && u.id == request.userId)
    && AtOrBefore(request.endDate, FindUserById(store, request.userId).value.licenseValidUntil)
    && (forall b :: b in store.bookings && b.userId == request.userId ==> !Overlaps(b, request.startDate, request.endDate))
    && (forall b :: b in store.bookings && b.carId == request.carId ==> !Overlaps(b, request.startDate, request.endDate))
    && (exists c :: c in store.cars && c.id == request.carId)
    && AllDaysPriced(FindCar(store, request.carId).value.pricing, DatesInRange(request.startDate, request.endDate))
  }

  /** Creates the booking `request` asks for, under the id `freshId`, or fails with the first
      check that does not pass. Nothing is written unless every check passes. */
  function CreateBooking(store: Store, request: BookingRequest, freshId: Id): (r: Result<(Store, Booking), Failure>)
    ensures r.Ok? <==> Eligible(store, request)
    ensures r.Ok? ==> && r.value.0.bookings == store.bookings + [r.value.1]
                      && r.value.0.cars == store.cars && r.value.0.users == store.users
                      && r.value.1 == Booking(freshId, request.userId, request.carId, request.startDate, request.endDate,
                                              r.value.1.totalPrice)
                      && r.value.1.totalPrice
                         == LenientTotal(FindCar(store, request.carId).value.pricing,
                                         DatesInRange(request.startDate, request.endDate))
    ensures (forall u :: u in store.users ==> u.id != request.userId) <==> r == Err(UserNotFound)
    ensures FindUserById(store, request.userId).Some?
            && Before(FindUserById(store, request.userId).value.licenseValidUntil, request.endDate) <==>
              r == Err(LicenseExpired)
    ensures && ValidateUser(store, request.userId, request.endDate).Ok?
            && (exists b :: b in store.bookings && b.userId == request.userId && Overlaps(b, request.startDate, request.endDate))
            ==> r == Err(UserDoubleBooking)
    ensures && ValidateUser(store, request.userId, request.endDate).Ok?
            && (forall b :: b in store.bookings && b.userId == request.userId ==> !Overlaps(b, request.startDate, request.endDate))
            && (exists b :: b in store.bookings && b.carId == request.carId && Overlaps(b, request.startDate, request.endDate))
            ==> r == Err(CarUnavailable)
    ensures && ValidateUser(store, request.userId, request.endDate).Ok?
            && (forall b :: b in store.bookings && (b.userId == request.userId || b.carId == request.carId) ==>
                              !Overlaps(b, request.startDate, request.endDate))
            && (forall c :: c in store.cars ==> c.id != request.carId)
            ==> r == Err(CarNotFound)
    ensures r == Err(UserDoubleBooking) ==>
              && ValidateUser(store, request.userId, request.endDate).Ok?
              && exists b :: b in store.bookings && b.userId == request.userId && Overlaps(b, request.startDate, request.endDate)
    ensures r == Err(CarUnavailable) ==>
              && ValidateUser(store, request.userId, request.endDate).Ok?
              && (forall b :: b in store.bookings && b.userId == request.userId ==> !Overlaps(b, request.startDate, request.endDate))
              && exists b :: b in store.bookings && b.carId == request.carId && Overlaps(b, request.startDate, request.endDate)
    ensures r == Err(CarNotFound) ==>
              && ValidateUser(store, request.userId, request.endDate).Ok?
              && (forall b :: b in store.bookings && (b.userId == request.userId || b.carId == request.carId) ==>
                                 !Overlaps(b, request.startDate, request.endDate))
              && forall c :: c in store.cars ==> c.id != request.carId
    ensures r.Err? && r.error.PricingGap? ==>
              && ValidateUser(store, request.userId, request.endDate).Ok?
              && (forall b :: b in store.bookings && (b.userId == request.userId || b.carId == request.carId) ==>
                                !Overlaps(b, request.startDate, request.endDate))
              && FindCar(store, request.carId).Ok?
              && exists d :: && d in DatesInRange(request.startDate, request.endDate)
                             && DayRate(FindCar(store, request.carId).value.pricing, d).None?
                             && r.error.season == GetSeason(d)
  {
    var _ :- ValidateUser(store, request.userId, request.endDate);
    var _ :- CheckUserConflicts(store, request.userId, request.startDate, request.endDate);
    var _ :- CheckCarAvailability(store, request.carId, request.startDate, request.endDate);
    var car :- FindCar(store, request.carId);
    var totalPrice :- CalculateTotalPrice(car, request.startDate, request.endDate);
    Ok(CreateBookingRecord(store, request, totalPrice, freshId))
  }

  /** No two stored bookings of the same user, or of the same car, overlap. */
  ghost predicate ConflictFree(bookings: seq<Booking>) {
    forall i, j :: 0 <= i < j < |bookings| && (bookings[i].userId == bookings[j].userId || bookings[i].carId == bookings[j].carId) ==>
      !RangesOverlap(bookings[i].startDate, bookings[i].endDate, bookings[j].startDate, bookings[j].endDate)
  }

  /** Creating bookings one at a time never double-books a user or a car. */
  lemma CreateBookingKeepsConflictFree(store: Store, request: BookingRequest, freshId: Id)
    requires ConflictFree(store.bookings)
    ensures var r := CreateBooking(store, request, freshId);
            r.Ok? ==> ConflictFree(r.value.0.bookings)
  {
    var r := CreateBooking(store, request, freshId);
    if r.Ok? {
      var bs, b := r.value.0.bookings, r.value.1;
      forall i, j | 0 <= i < j < |bs| && (bs[i].userId == bs[j].userId || bs[i].carId == bs[j].carId)
        ensures !RangesOverlap(bs[i].startDate, bs[i].endDate, bs[j].startDate, bs[j].endDate)
      {
        if j == |store.bookings| {
          assert bs[j] == b && bs[i] == store.bookings[i];
          assert !Overlaps(store.bookings[i], request.startDate, request.endDate);
        } else {
          assert bs[i] == store.bookings[i] && bs[j] == store.bookings[j];
        }
      }
    }
  }

  /** A mid-season day at a mid rate of 75, April 1 to April 2, is booked for 75: one day is
      charged, not two. */
  lemma MidSeasonBookingScenario(freshId: Id)
    ensures var car := Car("car-1", "A", "B", [PriceEntry(Mid, 75)], "");
            var user := User("user-1", "a@b.com", CivilDate(2025, 12, 31));
            var store := Store([car], [], [user]);
            var request := BookingRequest("user-1", "car-1", CivilDate(2025, 4, 1), CivilDate(2025, 4, 2));
            CreateBooking(store, request, freshId)
            == Ok((store.(bookings := [Booking(freshId, "user-1", "car-1", CivilDate(2025, 4, 1), CivilDate(2025, 4, 2), 75)]),
                   Booking(freshId, "user-1", "car-1", CivilDate(2025, 4, 1), CivilDate(2025, 4, 2), 75)))
  {
    var apr1, apr2 := CivilDate(2025, 4, 1), CivilDate(2025, 4, 2);
    assert DatesInRange(apr2, apr2) == [];
    assert DatesInRange(apr1, apr2) == [apr1];
  }

  /** A car priced only for the off season cannot be priced for April 1, a mid-season day. */
  lemma OffOnlyCarHasNoAprilPrice(car: Car)
    requires car.pricing == [PriceEntry(Off, 50)]
    ensures CalculateTotalPrice(car, CivilDate(2025, 4, 1), CivilDate(2025, 4, 2)) == Err(PricingGap(Mid))
  {
    var apr1, apr2 := CivilDate(2025, 4, 1), CivilDate(2025, 4, 2);
    assert DatesInRange(apr2, apr2) == [];
    assert DatesInRange(apr1, apr2) == [apr1];
    assert GetSeason(apr1) == Mid;
    RateForIsFirstMatch(car.pricing, Mid);
    assert DayRate(car.pricing, apr1) == None;
  }

  /** The same booking against a car priced only for the off season fails naming "mid". */
  lemma MissingSeasonBookingScenario(freshId: Id)
    ensures var car := Car("car-1", "A", "B", [PriceEntry(Off, 50)], "");
            var user := User("user-1", "a@b.com", CivilDate(2025, 12, 31));
            var request := BookingRequest("user-1", "car-1", CivilDate(2025, 4, 1), CivilDate(2025, 4, 2));
            var r := CreateBooking(Store([car], [], [user]), request, freshId);
            r == Err(PricingGap(Mid))
  {
    var car := Car("car-1", "A", "B", [PriceEntry(Off, 50)], "");
    var user := User("user-1", "a@b.com", CivilDate(2025, 12, 31));
    var store := Store([car], [], [user]);
    var apr1, apr2 := CivilDate(2025, 4, 1), CivilDate(2025, 4, 2);
    var request := BookingRequest("user-1", "car-1", apr1, apr2);
    assert CreateBooking(store, request, freshId) == Err(PricingGap(Mid)) by {
      assert ValidateUser(store, "user-1", apr2) == Ok(user);
      assert CheckUserConflicts(store, "user-1", apr1, apr2) == Ok(());
      assert CheckCarAvailability(store, "car-1", apr1, apr2) == Ok(());
      assert FindCar(store, "car-1") == Ok(car);
      OffOnlyCarHasNoAprilPrice(car);
    }
  }

  /** A licence that expires the day before the last day of the booking is refused. */
  lemma ExpiredLicenceIsRefused(freshId: Id)
    ensures var car := Car("car-1", "A", "B", [PriceEntry(Off, 50)], "");
            var expiring := User("user-1", "a@b.com", CivilDate(2025, 3, 1));
            var request := BookingRequest("user-1", "car-1", CivilDate(2025, 3, 1), CivilDate(2025, 3, 2));
            CreateBooking(Store([car], [], [expiring]), request, freshId) == Err(LicenseExpired)
  {
    var car := Car("car-1", "A", "B", [PriceEntry(Off, 50)], "");
    var expiring := User("user-1", "a@b.com", CivilDate(2025, 3, 1));
    assert FindUserById(Store([car], [], [expiring]), "user-1") == Some(expiring);
  }

  /** A licence that expires on the last day of the booking is accepted: the same booking then
      fails only on the car's missing mid-season rate. */
  lemma LastDayLicenceIsAccepted(freshId: Id)
    ensures var car := Car("car-1", "A", "B", [PriceEntry(Off, 50)], "");
            var lastDay := User("user-1", "a@b.com", CivilDate(2025, 3, 2));
            var request := BookingRequest("user-1", "car-1", CivilDate(2025, 3, 1), CivilDate(2025, 3, 2));
            CreateBooking(Store([car], [], [lastDay]), request, freshId) == Err(PricingGap(Mid))
  {
    var car := Car("car-1", "A", "B", [PriceEntry(Off, 50)], "");
    var lastDay := User("user-1", "a@b.com", CivilDate(2025, 3, 2));
    var store := Store([car], [], [lastDay]);
    var mar1, mar2 := CivilDate(2025, 3, 1), CivilDate(2025, 3, 2);
    assert ValidateUser(store, "user-1", mar2) == Ok(lastDay);
    assert CheckUserConflicts(store, "user-1", mar1, mar2) == Ok(());
    assert CheckCarAvailability(store, "car-1", mar1, mar2) == Ok(());
    assert FindCar(store, "car-1") == Ok(car);
    assert CalculateTotalPrice(car, mar1, mar2) == Err(PricingGap(Mid)) by {
      assert DatesInRange(mar2, mar2) == [];
      assert DatesInRange(mar1, mar2) == [mar1];
      assert GetSeason(mar1) == Mid;
      RateForIsFirstMatch(car.pricing, Mid);
      assert DayRate(car.pricing, mar1) == None;
    }
  }

  /** With car-1 held by user-1 from January 10 to 12, the same days of car-1 are refused to
      user-2: the car is taken. */
  lemma CarDoubleBookingScenario(freshId: Id)
    ensures var cars := [Car("car-1", "A", "B", [PriceEntry(Off, 50)], ""), Car("car-2", "C", "D", [PriceEntry(Off, 60)], "")];
            var users := [User("user-1", "a@b.com", CivilDate(2026, 1, 1)), User("user-2", "c@d.com", CivilDate(2026, 1, 1))];
            var held := Booking("b1", "user-1", "car-1", CivilDate(2025, 1, 10), CivilDate(2025, 1, 12), 100);
            CreateBooking(Store(cars, [held], users), BookingRequest("user-2", "car-1", CivilDate(2025, 1, 10), CivilDate(2025, 1, 12)), freshId)
            == Err(CarUnavailable)
  {
    var cars := [Car("car-1", "A", "B", [PriceEntry(Off, 50)], ""), Car("car-2", "C", "D", [PriceEntry(Off, 60)], "")];
    var users := [User("user-1", "a@b.com", CivilDate(2026, 1, 1)), User("user-2", "c@d.com", CivilDate(2026, 1, 1))];
    var held := Booking("b1", "user-1", "car-1", CivilDate(2025, 1, 10), CivilDate(2025, 1, 12), 100);
    var store := Store(cars, [held], users);
    var jan10, jan12 := CivilDate(2025, 1, 10), CivilDate(2025, 1, 12);
    assert ValidateUser(store, "user-2", jan12) == Ok(users[1]);
    assert CheckUserConflicts(store, "user-2", jan10, jan12) == Ok(());
    assert Overlaps(held, jan10, jan12);
    assert CheckCarAvailability(store, "car-1", jan10, jan12) == Err(CarUnavailable);
  }

  /** With car-1 held by user-1 from January 10 to 12, user-1 cannot book car-2 from January 12
      to 14: sharing the boundary day is enough to double-book the user, whatever the car. */
  lemma UserDoubleBookingScenario(freshId: Id)
    ensures var cars := [Car("car-1", "A", "B", [PriceEntry(Off, 50)], ""), Car("car-2", "C", "D", [PriceEntry(Off, 60)], "")];
            var users := [User("user-1", "a@b.com", CivilDate(2026, 1, 1)), User("user-2", "c@d.com", CivilDate(2026, 1, 1))];
            var held := Booking("b1", "user-1", "car-1", CivilDate(2025, 1, 10), CivilDate(2025, 1, 12), 100);
            CreateBooking(Store(cars, [held], users), BookingRequest("user-1", "car-2", CivilDate(2025, 1, 12), CivilDate(2025, 1, 14)), freshId)
            == Err(UserDoubleBooking)
  {
    var cars := [Car("car-1", "A", "B", [PriceEntry(Off, 50)], ""), Car("car-2", "C", "D", [PriceEntry(Off, 60)], "")];
    var users := [User("user-1", "a@b.com", CivilDate(2026, 1, 1)), User("user-2", "c@d.com", CivilDate(2026, 1, 1))];
    var held := Booking("b1", "user-1", "car-1", CivilDate(2025, 1, 10), CivilDate(2025, 1, 12), 100);
    var store := Store(cars, [held], users);
    var jan12, jan14 := CivilDate(2025, 1, 12), CivilDate(2025, 1, 14);
    assert ValidateUser(store, "user-1", jan14) == Ok(users[0]);
    assert Overlaps(held, jan12, jan14);
    assert CheckUserConflicts(store, "user-1", jan12, jan14) == Err(UserDoubleBooking);
  }
}
