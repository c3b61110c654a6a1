/** The availability listing: the catalog cars with no booking overlapping the requested
    range, each priced leniently over the days of the range. */
module CarModel {
  import opened Wrappers
  import opened Seqs
  import opened Calendar
  import opened Types
  import opened Seasons
  import opened Pricing
  import opened InMemoryDb

  /** A catalog car together with its price for the requested range. */
  datatype AvailableCar = AvailableCar(car: Car, totalPrice: nat, averageDailyPrice: real)

  /** The cars of a listing, without their prices. */
  function CarsOf(list: seq<AvailableCar>): (r: seq<Car>)
    ensures |r| == |list| && forall i :: 0 <= i < |list| ==> r[i] == list[i].car
  {
    seq(|list|, i requires 0 <= i < |list| => list[i].car)
  }

  /** The car has a booking overlapping `[start, end]`. */
  predicate IsBooked(store: Store, car: Car, start: Date, end: Date) {
    |FindBookingsByCarAndDateRange(store, car.id, start, end)| > 0
  }

  /** The listing entry of `car` for the days `days`. */
  function Quote(car: Car, days: seq<Date>): (q: AvailableCar)
    ensures q.car == car
    ensures q.totalPrice == LenientTotal(car.pricing, days)
    ensures q.averageDailyPrice == AverageDailyPrice(q.totalPrice, |days|)
  {
    var total := LenientTotal(car.pricing, days);
    AvailableCar(car, total, AverageDailyPrice(total, |days|))
  }

  /** `q` is `car`'s listing entry for the days `days`. */
  predicate IsQuoteFor(q: AvailableCar, days: seq<Date>) {
    && q.totalPrice == LenientTotal(q.car.pricing, days)
    && q.averageDailyPrice == AverageDailyPrice(q.totalPrice, |days|)
  }

  /** Every car of `cars`, in order, quoted for the days `days`. */
  function QuoteAll(cars: seq<Car>, days: seq<Date>): (r: seq<AvailableCar>)
    ensures CarsOf(r) == cars
    ensures forall i :: 0 <= i < |r| ==> IsQuoteFor(r[i], days)
  {
    seq(|cars|, i requires 0 <= i < |cars| => Quote(cars[i], days))
  }

  /** The cars free over `[start, end]`, in catalog order, with their lenient total over the
      days `[start, end)` and its daily average. */
  function ListAvailable(store: Store, start: Date, end: Date): (r: seq<AvailableCar>)
    ensures IsSubsequence(CarsOf(r), store.cars)
    ensures forall i :: 0 <= i < |r| ==> r[i].car in store.cars
    ensures forall c :: c in store.cars ==>
              (c in CarsOf(r) <==> |FindBookingsByCarAndDateRange(store, c.id, start, end)| == 0)
    ensures forall i :: 0 <= i < |r| ==> && r[i].totalPrice == LenientTotal(r[i].car.pricing, DatesInRange(start, end))
                                         && r[i].averageDailyPrice
                                            == AverageDailyPrice(r[i].totalPrice, |DatesInRange(start, end)|)
    ensures forall c :: multiset(CarsOf(r))[c] == if IsBooked(store, c, start, end) then 0 else multiset(store.cars)[c]
  {
    var p := (c: Car) => !IsBooked(store, c, start, end);
    var free := Filter(GetAllCars(store), p);
    assert forall c :: multiset(free)[c] == if p(c) then multiset(store.cars)[c] else 0 by {
      assert GetAllCars(store) == store.cars;
      forall c { FilterMultiplicity(store.cars, p, c); }
    }
    QuoteAll(free, DatesInRange(start, end))
  }

  /** An empty catalog lists nothing. */
  lemma EmptyCatalogListsNothing(store: Store, start: Date, end: Date)
    requires store.cars == []
    ensures ListAvailable(store, start, end) == []
  {
  }

  /** July 1 to July 3 at a peak rate of 100 costs 200, 100 a day: the end day is not charged. */
  lemma PeakListingScenario()
    ensures var car := Car("car-1", "BrandA", "ModelA",
                           [PriceEntry(Peak, 100), PriceEntry(Mid, 50), PriceEntry(Off, 20)], "url1");
            ListAvailable(Store([car], [], []), CivilDate(2025, 7, 1), CivilDate(2025, 7, 3))
            == [AvailableCar(car, 200, 100.0)]
  {
    var car := Car("car-1", "BrandA", "ModelA",
                   [PriceEntry(Peak, 100), PriceEntry(Mid, 50), PriceEntry(Off, 20)], "url1");
    var jul1, jul2, jul3 := CivilDate(2025, 7, 1), CivilDate(2025, 7, 2), CivilDate(2025, 7, 3);
    assert DatesInRange(jul3, jul3) == [];
    assert DatesInRange(jul2, jul3) == [jul2];
    var days := DatesInRange(jul1, jul3);
    assert days == [jul1, jul2];
    assert DayRate(car.pricing, jul1) == Some(100) && DayRate(car.pricing, jul2) == Some(100);
    assert LenientTotal(car.pricing, days[1..]) == 100;
    assert LenientTotal(car.pricing, days) == 200;
    assert AverageDailyPrice(200, 2) == 100.0;
    assert Quote(car, days) == AvailableCar(car, 200, 100.0);
  }

  /** A car without a mid-season rate is listed at 0 over mid-season days. */
  lemma MissingSeasonListsAtZero()
    ensures var car := Car("car-2", "BrandB", "ModelB", [PriceEntry(Peak, 200), PriceEntry(Off, 30)], "url2");
            ListAvailable(Store([car], [], []), CivilDate(2025, 4, 1), CivilDate(2025, 4, 3))
            == [AvailableCar(car, 0, 0.0)]
  {
    var apr1, apr2, apr3 := CivilDate(2025, 4, 1), CivilDate(2025, 4, 2), CivilDate(2025, 4, 3);
    assert DatesInRange(apr3, apr3) == [];
    assert DatesInRange(apr2, apr3) == [apr2];
    assert DatesInRange(apr1, apr3) == [apr1, apr2];
  }
}
