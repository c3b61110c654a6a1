/** The in-memory store behind the backend: the car catalog, the bookings and the users, each
    kept in insertion order. Every operation returns the store it leaves behind. */
module InMemoryDb {
  import opened Wrappers
  import opened Seqs
  import opened Calendar
  import opened Types
  import opened Errors

  datatype Store = Store(cars: seq<Car>, bookings: seq<Booking>, users: seq<User>)

  /** Day `d` lies in the inclusive range `[start, end]`. */
  predicate InRange(d: CivilDate, start: CivilDate, end: CivilDate) {
    AtOrBefore(start, d) && AtOrBefore(d, end)
  }

  /** Two inclusive ranges overlap: `s1 <= e2 && e1 >= s2`, so ranges that only touch on a
      boundary day overlap too. */
  predicate RangesOverlap(s1: CivilDate, e1: CivilDate, s2: CivilDate, e2: CivilDate) {
    AtOrBefore(s1, e2) && AtOrBefore(s2, e1)
  }

  /** A stored booking overlaps the queried range `[start, end]`. */
  predicate Overlaps(b: Booking, start: Date, end: Date) {
    RangesOverlap(b.startDate, b.endDate, start, end)
  }

  /** Overlap is symmetric in the two ranges. */
  lemma OverlapIsSymmetric(s1: Date, e1: Date, s2: Date, e2: Date)
    ensures RangesOverlap(s1, e1, s2, e2) == RangesOverlap(s2, e2, s1, e1)
  {
  }

  /** For proper ranges, overlapping means sharing at least one calendar day. */
  lemma OverlapMeansSharedDay(s1: Date, e1: Date, s2: Date, e2: Date)
    requires AtOrBefore(s1, e1) && AtOrBefore(s2, e2)
    ensures RangesOverlap(s1, e1, s2, e2) <==> exists d: Date :: InRange(d, s1, e1) && InRange(d, s2, e2)
  {
    if RangesOverlap(s1, e1, s2, e2) {
      var d := if Before(s1, s2) then s2 else s1;
      assert InRange(d, s1, e1) && InRange(d, s2, e2);
    }
  }

  /** The bookings of user `userId` overlapping `[start, end]`, in store order. */
  function FindBookingsByUserAndDateRange(store: Store, userId: Id, start: Date, end: Date): (r: seq<Booking>)
    ensures forall i :: 0 <= i < |r| ==> r[i] in store.bookings && r[i].userId == userId && Overlaps(r[i], start, end)
    ensures forall b :: b in store.bookings && b.userId == userId && Overlaps(b, start, end) ==> b in r
    ensures IsSubsequence(r, store.bookings)
    ensures forall b :: multiset(r)[b] == if b.userId == userId && Overlaps(b, start, end) then multiset(store.bookings)[b] else 0
  {
    var p := (b: Booking) => b.userId == userId && Overlaps(b, start, end);
    assert forall b :: multiset(Filter(store.bookings, p))[b] == if p(b) then multiset(store.bookings)[b] else 0 by {
      forall b { FilterMultiplicity(store.bookings, p, b); }
    }
    Filter(store.bookings, p)
  }

  /** The bookings of car `carId` overlapping `[start, end]`, in store order. */
  function FindBookingsByCarAndDateRange(store: Store, carId: Id, start: Date, end: Date): (r: seq<Booking>)
    ensures forall i :: 0 <= i < |r| ==> r[i] in store.bookings && r[i].carId == carId && Overlaps(r[i], start, end)
    ensures forall b :: b in store.bookings && b.carId == carId && Overlaps(b, start, end) ==> b in r
    ensures IsSubsequence(r, store.bookings)
    ensures forall b :: multiset(r)[b] == if b.carId == carId && Overlaps(b, start, end) then multiset(store.bookings)[b] else 0
  {
    var p := (b: Booking) => b.carId == carId && Overlaps(b, start, end);
    assert forall b :: multiset(Filter(store.bookings, p))[b] == if p(b) then multiset(store.bookings)[b] else 0 by {
      forall b { FilterMultiplicity(store.bookings, p, b); }
    }
    Filter(store.bookings, p)
  }

  /** Stores a new booking for `request` with its price under the id `freshId` (the source
      draws a uuid) and returns it. */
  function CreateBookingRecord(store: Store, request: BookingRequest, totalPrice: nat, freshId: Id): (r: (Store, Booking))
    ensures r.1.id == freshId && r.1.totalPrice == totalPrice
    ensures r.1.userId == request.userId && r.1.carId == request.carId
    ensures r.1.startDate == request.startDate && r.1.endDate == request.endDate
    ensures |r.0.bookings| == |store.bookings| + 1
    ensures r.0.bookings[..|store.bookings|] == store.bookings && r.0.bookings[|store.bookings|] == r.1
    ensures r.0.cars == store.cars && r.0.users == store.users
  {
    var b := Booking(freshId, request.userId, request.carId, request.startDate, request.endDate, totalPrice);
    (store.(bookings := store.bookings + [b]), b)
  }

  /** A new booking shows up in later range queries exactly when it matches them; the bookings
      found before are still found, in the same order. */
  lemma CarQueryAfterCreate(store: Store, request: BookingRequest, totalPrice: nat, freshId: Id,
                            carId: Id, start: Date, end: Date)
    ensures var (store', b) := CreateBookingRecord(store, request, totalPrice, freshId);
            FindBookingsByCarAndDateRange(store', carId, start, end)
            == FindBookingsByCarAndDateRange(store, carId, start, end)
               + (if b.carId == carId && Overlaps(b, start, end) then [b] else [])
  {
    var (store', b) := CreateBookingRecord(store, request, totalPrice, freshId);
    var p := (x: Booking) => x.carId == carId && Overlaps(x, start, end);
    FilterAppend(store.bookings, [b], p);
    assert store'.bookings == store.bookings + [b];
    assert Filter([b], p) == (if p(b) then [b] else []) by {
      assert [b][1..] == [];
    }
  }

  /** A booking of January 10 to 12 is found by queries that share a day with it, January 9
      to 11 and January 11 to 13, and by none that miss it, January 1 to 9 and January 13 to 20. */
  lemma RangeQueryScenario()
    ensures var b := Booking("b1", "user-1", "car-1", CivilDate(2025, 1, 10), CivilDate(2025, 1, 12), 100);
            var store := Store([], [b], []);
            && FindBookingsByCarAndDateRange(store, "car-1", CivilDate(2025, 1, 9), CivilDate(2025, 1, 11)) == [b]
            && FindBookingsByCarAndDateRange(store, "car-1", CivilDate(2025, 1, 11), CivilDate(2025, 1, 13)) == [b]
            && FindBookingsByCarAndDateRange(store, "car-1", CivilDate(2025, 1, 1), CivilDate(2025, 1, 9)) == []
            && FindBookingsByCarAndDateRange(store, "car-1", CivilDate(2025, 1, 13), CivilDate(2025, 1, 20)) == []
  {
    var b := Booking("b1", "user-1", "car-1", CivilDate(2025, 1, 10), CivilDate(2025, 1, 12), 100);
    assert [b][1..] == [];
  }

  /** The index of the first user with id `id`. */
  function UserIndexById(users: seq<User>, id: Id): (r: Option<nat>)
    ensures r.None? <==> forall i :: 0 <= i < |users| ==> users[i].id != id
    ensures r.Some? ==> r.value < |users| && users[r.value].id == id
    ensures r.Some? ==> forall j :: 0 <= j < r.value ==> users[j].id != id
  {
    FindFirst(users, (u: User) => u.id == id)
  }

  /** The first user with id `id`, or none. */
  function FindUserById(store: Store, id: Id): (r: Option<User>)
    ensures r.None? <==> forall i :: 0 <= i < |store.users| ==> store.users[i].id != id
    ensures r.Some? ==> exists i :: && 0 <= i < |store.users| && store.users[i] == r.value && r.value.id == id
                                    && forall j :: 0 <= j < i ==> store.users[j].id != id
  {
    match UserIndexById(store.users, id)
    case None => None
    case Some(i) => Some(store.users[i])
  }

  /** The first user with e-mail `email`, or none. */
  function FindUserByEmail(store: Store, email: string): (r: Option<User>)
    ensures r.None? <==> forall i :: 0 <= i < |store.users| ==> store.users[i].email != email
    ensures r.Some? ==> exists i :: && 0 <= i < |store.users| && store.users[i] == r.value && r.value.email == email
                                    && forall j :: 0 <= j < i ==> store.users[j].email != email
  {
    match FindFirst(store.users, (u: User) => u.email == email)
    case None => None
    case Some(i) => Some(store.users[i])
  }

  /** Creates a user unless one with the same e-mail exists, in which case that user is
      returned as it is: its licence date is NOT updated here. */
  function CreateUser(store: Store, dto: CreateUserDto, freshId: Id): (r: (Store, User))
    ensures (exists i :: 0 <= i < |store.users| && store.users[i].email == dto.email) ==>
              && r.0 == store && r.1 in store.users && r.1.email == dto.email
              && exists i :: && 0 <= i < |store.users| && store.users[i] == r.1
                             && forall j :: 0 <= j < i ==> store.users[j].email != dto.email
    ensures (forall i :: 0 <= i < |store.users| ==> store.users[i].email != dto.email) ==>
              && r.1 == User(freshId, dto.email, dto.licenseValidUntil)
              && r.0 == store.(users := store.users + [r.1])
  {
    match FindUserByEmail(store, dto.email)
    case Some(existing) => (store, existing)
    case None =>
      var user := User(freshId, dto.email, dto.licenseValidUntil);
      (store.(users := store.users + [user]), user)
  }

  /** Sets the licence date of the first user with id `id`; fails when there is none. */
  function UpdateUserLicense(store: Store, id: Id, validUntil: Date): (r: Result<(Store, User), Failure>)
    ensures r.Err? <==> forall i :: 0 <= i < |store.users| ==> store.users[i].id != id
    ensures r.Err? ==> r.error == UserNotFound
    ensures r.Ok? ==> && r.value.0.cars == store.cars && r.value.0.bookings == store.bookings
                      && |r.value.0.users| == |store.users|
                      && exists i :: && 0 <= i < |store.users| && store.users[i].id == id
                                     && (forall j :: 0 <= j < i ==> store.users[j].id != id)
                                     && r.value.1 == store.users[i].(licenseValidUntil := validUntil)
                                     && r.value.0.users == store.users[i := r.value.1]
  {
    match UserIndexById(store.users, id)
    case None => Err(UserNotFound)
    case Some(i) =>
      var user := store.users[i].(licenseValidUntil := validUntil);
      Ok((store.(users := store.users[i := user]), user))
  }

  /** Replaces the car catalog with the seed catalog. */
  function Init(store: Store, seed: seq<Car>): (r: Store)
    ensures r.cars == seed && r.bookings == store.bookings && r.users == store.users
  {
    store.(cars := seed)
  }

  /** A copy of the car catalog. */
  function GetAllCars(store: Store): (r: seq<Car>)
    ensures |r| == |store.cars| && forall i :: 0 <= i < |r| ==> r[i] == store.cars[i]
  {
    store.cars
  }

  /** Seeding the catalog is what a later read of the catalog sees. */
  lemma InitThenGetAllCars(store: Store, seed: seq<Car>)
    ensures GetAllCars(Init(store, seed)) == seed
  {
  }

  /** No two users share an e-mail address. */
  ghost predicate UniqueEmails(users: seq<User>) {
    forall i, j :: 0 <= i < j < |users| ==> users[i].email != users[j].email
  }

  /** No two users share an id. */
  ghost predicate UniqueIds(users: seq<User>) {
    forall i, j :: 0 <= i < j < |users| ==> users[i].id != users[j].id
  }

  /** Creating users keeps e-mail addresses unique, and keeps ids unique when the new id is fresh. */
  lemma CreateUserKeepsUsersUnique(store: Store, dto: CreateUserDto, freshId: Id)
    requires UniqueEmails(store.users)
    ensures UniqueEmails(CreateUser(store, dto, freshId).0.users)
    ensures UniqueIds(store.users) && (forall u :: u in store.users ==> u.id != freshId) ==>
              UniqueIds(CreateUser(store, dto, freshId).0.users)
  {
  }
}
