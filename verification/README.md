# Car-rental booking engine — a Dafny model

This project models the booking and pricing core of a car-rental application:

- the season classifier;
- the availability listing, which filters out booked cars and prices the rest leniently;
- booking creation, an ordered chain of checks ending in strict pricing and one write;
- the in-memory store;
- user registration, an upsert by e-mail;
- the date rules and the `carId` narrowing of the two HTTP routes;
- the frontend's booking context, a small state machine;
- the frontend `request` helper's choice of error message.

Most modules follow one source file. Three gather rules from several files:

- `Pricing` holds the lenient listing total of the car model and the strict booking total of the booking service.
- `RequestRules` holds the date rules shared by the availability and booking routes.
- `Errors` holds the failure messages of the services and the store.

`Calendar` provides whole Gregorian days, their order, a
day ordinal and the next-day step. `Types` holds the records the backend stores. `Seqs` and
`Wrappers` provide the array searches and the `Option`/`Result` types the other modules use.

A date is a calendar day (year, month, day). The dates the frontend sends are plain days, which
the backend reads as UTC midnights. Other times of day are not modelled. Prices are whole numbers (cents). The average daily price is an exact
real, `total / days`. The in-memory store is an immutable record of three sequences, and every
operation returns the store it leaves behind. The uuid an insert draws is a parameter
(`freshId`). So is the current instant `now` of the routes, and so is the answer of `fetch` and
of `JSON.parse` in the frontend.

## Model

| member | source | states |
|---|---|---|
| Seasons.SeasonMatchesWindows | backend/src/utils/season.ts:3-14 | The season is peak exactly from June 1 to September 15. It is mid exactly from September 16 to October 31 and from March 1 to May 31. It is off exactly on the remaining days, November 1 to the end of February. |
| Seasons.WindowsPartitionTheYear | backend/src/utils/season.ts:10-13 | Every day lies in exactly one of the three windows. |
| Seasons.SeasonIgnoresYear | backend/src/utils/season.ts:4-8 | Two days with the same month and day get the same season, whatever their years. |
| Seasons.SeasonBoundaries | backend/src/utils/season.ts:5-13 | The days on both sides of each season change are classified as expected: May 31 mid / June 1 peak, September 15 peak / 16 mid, October 31 mid / November 1 off, February 28 off / March 1 mid. February 29 of a leap year is off. |
| Calendar.NextDay | backend/src/models/carModel.ts:12 | The day after `d` is strictly later than `d`. |
| Calendar.NextDayAdvancesOrdinal | backend/src/models/carModel.ts:12 | The next day's ordinal is one more, across month ends, year ends and leap days. |
| Calendar.NextDayIsImmediate | backend/src/models/carModel.ts:12 | No day lies strictly between a day and the next one. |
| Calendar.BeforeIsOrdinalOrder | backend/src/models/carModel.ts:12 | One day comes before another exactly when its ordinal is smaller. |
| Calendar.DatesInRangeEnumerates | backend/src/models/carModel.ts:10-16 | The enumerated days are consecutive from `start` and all strictly before `end`. Their number is the day difference when `start < end`, and 0 otherwise. |
| Calendar.DatesInRangeSplit | backend/src/models/carModel.ts:10-16 | The days of `[s, e)` are the days of `[s, m)` followed by those of `[m, e)`, for any `m` in between. |
| Pricing.RateForIsFirstMatch | backend/src/models/carModel.ts:40 | The rate found is that of the first price entry for the season. None is found exactly when no entry is for it. |
| Pricing.LenientTotalBounds | backend/src/models/carModel.ts:37-42 | A season without a rate contributes nothing: days that all lack a rate total 0, and the total is at least each day's rate. |
| Pricing.StrictTotalSucceeds | backend/src/services/bookingService.ts:78-95 | The strict total succeeds exactly when every day has a rate. Otherwise it names the season of the first day without one. |
| Pricing.AverageDailyPrice | backend/src/models/carModel.ts:47 | The average times the number of days is the total. It is 0 when there are no days. |
| Pricing.LenientAgreesWithStrict | backend/src/services/bookingService.ts:78-95 | When every day has a rate, the strict booking total equals the lenient listing total. |
| Pricing.StrictTotalAppend | backend/src/services/bookingService.ts:81-91 | Pricing two runs of days in turn gives the sum of their totals. A failure in the first run is reported before one in the second. |
| Pricing.StrictPriceAdditive | backend/src/services/bookingService.ts:81-91 | For `s <= m <= e` with all rates defined, price(s, e) = price(s, m) + price(m, e). |
| Pricing.StrictTotalOfSplit | backend/src/services/bookingService.ts:81-91 | The strict total of a run cut into two priced parts is the sum of the parts. |
| CarModel.Quote | backend/src/models/carModel.ts:37-48 | A listing entry keeps the car unchanged and adds its lenient total and average for the days. |
| CarModel.QuoteAll | backend/src/models/carModel.ts:43-49 | Quoting keeps the cars and their order. Every entry is the car's quote for the days. |
| CarModel.ListAvailable | backend/src/models/carModel.ts:23-52 | The listing is a subsequence of the catalog, in catalog order. A catalog car is listed exactly when the car range query over `[start, end]` finds no booking. Each entry carries the lenient total over `[start, end)` and its daily average. A free car is listed as often as it occurs in the catalog. |
| CarModel.EmptyCatalogListsNothing | backend/src/models/carModel.ts:24-51 | An empty catalog lists nothing. |
| CarModel.PeakListingScenario | backend/src/models/carModel.ts:37-47 | July 1 to July 3 at a peak rate of 100 lists the car at 200, 100 a day. |
| CarModel.MissingSeasonListsAtZero | backend/src/models/carModel.ts:40 | A car without a mid rate is listed at 0 over mid-season days. |
| InMemoryDb.OverlapIsSymmetric | backend/src/db/inMemoryDb.ts:10-12 | The overlap test is symmetric in the two ranges. |
| InMemoryDb.OverlapMeansSharedDay | backend/src/db/inMemoryDb.ts:10-12 | Two proper inclusive ranges overlap exactly when they share a day, so ranges that only touch overlap. |
| InMemoryDb.FindBookingsByUserAndDateRange | backend/src/db/inMemoryDb.ts:23-27 | The result is exactly the stored bookings of the user that overlap the range, in store order. Each one occurs as often as in the store. |
| InMemoryDb.FindBookingsByCarAndDateRange | backend/src/db/inMemoryDb.ts:29-33 | The result is exactly the stored bookings of the car that overlap the range, in store order. Each one occurs as often as in the store. |
| Seqs.FilterMultiplicity | backend/src/db/inMemoryDb.ts:24-26 | Filtering keeps each kept element as often as it occurs, and drops the others. |
| InMemoryDb.RangeQueryScenario | backend/src/db/inMemoryDb.ts:29-33 | A January 10–12 booking is found for January 9–11 and January 11–13. It is not found for January 1–9 or January 13–20. |
| InMemoryDb.CreateBookingRecord | backend/src/db/inMemoryDb.ts:35-39 | Exactly one booking is appended: the request's fields, the price and the fresh id. Earlier bookings, cars and users are unchanged. |
| InMemoryDb.CarQueryAfterCreate | backend/src/db/inMemoryDb.ts:29-39 | After an insert, a car query finds what it found before, plus the new booking exactly when that booking matches. |
| InMemoryDb.UserIndexById | backend/src/db/inMemoryDb.ts:63 | The position found is that of the first user with the id. None is found exactly when no user has it. |
| InMemoryDb.FindUserById | backend/src/db/inMemoryDb.ts:40-42 | The result is the first stored user with the id, or none exactly when no user has it. |
| InMemoryDb.FindUserByEmail | backend/src/db/inMemoryDb.ts:44-46 | The result is the first stored user with the e-mail, or none exactly when no user has it. |
| InMemoryDb.CreateUser | backend/src/db/inMemoryDb.ts:48-60 | A known e-mail returns the first stored user with that e-mail and leaves the store unchanged. An unknown e-mail appends exactly one new user with the fresh id and the given licence. |
| InMemoryDb.CreateUserKeepsUsersUnique | backend/src/db/inMemoryDb.ts:48-60 | Creating users keeps e-mails unique. It keeps ids unique when the new id is fresh. |
| InMemoryDb.UpdateUserLicense | backend/src/db/inMemoryDb.ts:62-67 | An unknown id fails with "User not found". Otherwise only the first user holding the id changes: that user gets the new licence date and keeps its position. Cars and bookings are kept. |
| InMemoryDb.Init | backend/src/db/inMemoryDb.ts:15-17 | The catalog becomes the seed catalog, which stands for the constant `initialCars`. Bookings and users are kept. |
| InMemoryDb.GetAllCars | backend/src/db/inMemoryDb.ts:19-21 | The result equals the catalog, element by element. |
| InMemoryDb.InitThenGetAllCars | backend/src/db/inMemoryDb.ts:15-21 | After seeding, reading the catalog gives exactly the seed. |
| UserService.CreateUser | backend/src/services/userService.ts:5-15 | An unknown e-mail creates a user with the request's e-mail and licence. A success always carries the request's licence date and keeps cars and bookings. |
| UserService.CreateUserUpdatesExisting | backend/src/services/userService.ts:7-13 | With unique ids, a known e-mail keeps its user's id and e-mail, changes only that user's licence date and adds no user. |
| UserService.CreateUserKeepsUsersWellFormed | backend/src/services/userService.ts:5-15 | Registration keeps ids and e-mails unique when the new id is fresh. |
| UserService.RegisteredUserIndex | backend/src/services/userService.ts:5-15 | With unique ids, registration succeeds and leaves its user stored under the request's e-mail. |
| UserService.LookupAfterCreateUser | backend/src/services/userService.ts:5-15 | After registering, a lookup by the e-mail finds the returned user, holding the request's licence date. |
| UserService.CreateUserIsIdempotent | backend/src/services/userService.ts:5-15 | Registering the same request twice returns the same user and leaves the store as the first call left it. |
| UserService.GetUserById | backend/src/services/userService.ts:17-21 | An absent id fails with "User not found". Otherwise the first stored user with that id is returned. |
| BookingService.ValidateUser | backend/src/services/bookingService.ts:26-37 | It passes exactly when the user exists and the licence is valid on the end date. It fails with "User not found" before it fails with the licence error. |
| BookingService.CheckUserConflicts | backend/src/services/bookingService.ts:39-52 | It passes exactly when none of the user's bookings overlaps the range, whatever their car. |
| BookingService.CheckCarAvailability | backend/src/services/bookingService.ts:54-67 | It passes exactly when none of the car's bookings overlaps the range, whoever holds them. |
| BookingService.FindCar | backend/src/services/bookingService.ts:69-76 | It fails with "Car not found" exactly when no catalog car has the id. Otherwise it returns the first catalog car with that id. |
| BookingService.CalculateTotalPrice | backend/src/services/bookingService.ts:78-95 | It succeeds exactly when every day of `[start, end)` has a rate, and then returns the sum of the rates. Otherwise it fails naming the season of a day without a rate. |
| BookingService.CreateBooking | backend/src/services/bookingService.ts:8-24 | A booking is created exactly when every check passes. Exactly one record is written: the request plus its strict price. It fails with "User not found" exactly when no user has the id. It fails with the licence error exactly when the user exists and the licence ends before the end date. Once the user is valid, an overlapping booking of the user gives the user conflict. Failing that, an overlapping booking of the car gives the car conflict. Failing both, a missing car gives "Car not found". Each failure implies that the checks before it passed. |
| BookingService.CreateBookingKeepsConflictFree | backend/src/services/bookingService.ts:8-24 | Creating bookings one at a time never double-books a user or a car. |
| BookingService.MidSeasonBookingScenario | backend/src/services/bookingService.ts:8-24 | April 1 to April 2 at a mid rate of 75 books one day for 75. |
| BookingService.OffOnlyCarHasNoAprilPrice | backend/src/services/bookingService.ts:86-90 | An April day of a car priced only for the off season fails with a mid-season pricing gap. |
| BookingService.MissingSeasonBookingScenario | backend/src/services/bookingService.ts:86-90 | The same booking fails naming the mid season. |
| BookingService.ExpiredLicenceIsRefused | backend/src/services/bookingService.ts:31-35 | A licence that ends the day before the end date is refused: ending on March 1, it cannot book March 1 to March 2. |
| BookingService.LastDayLicenceIsAccepted | backend/src/services/bookingService.ts:8-35 | A licence that ends on the end date passes: ending on March 2, it passes for March 1 to March 2, and the booking then fails only on the missing mid-season rate. |
| BookingService.CarDoubleBookingScenario | backend/src/services/bookingService.ts:54-66 | A car booked from January 10 to 12 is refused to another user for the same days. |
| BookingService.UserDoubleBookingScenario | backend/src/services/bookingService.ts:39-52 | A user holding January 10 to 12 is refused January 12 to 14 for another car: sharing one day is enough. |
| Errors.MidPricingGapMessage | backend/src/services/bookingService.ts:89 | The pricing gap of the mid season reads "No pricing defined for season 'mid'". |
| RequestRules.DateIssues | backend/src/routes/availability.ts:23-43 | "startDate must be in the future" is raised exactly when the start is before `now`. "startDate must be before endDate" is raised exactly when the end is not after the start. The two checks are independent. Each issue is raised at most once, and when both are raised they come in that order. |
| RequestRules.RuleViolations | backend/src/routes/availability.ts:69-71 | Each failed rule becomes one error entry, in order. |
| AvailabilityRoute.SelectCar | backend/src/routes/availability.ts:57-67 | Without a car id the list is returned unchanged. A listed car gives the one-element list of its first entry. A car not listed gives "Car not available". |
| AvailabilityRoute.HandleAvailability | backend/src/routes/availability.ts:46-78 | Date issues are reported before anything is listed. A service error becomes a single error entry with its message. Otherwise the list is narrowed by the car id. |
| AvailabilityRoute.FreeCarIsListed | backend/src/models/carModel.ts:23-52 | A catalog car that nothing books over the range is listed. Every entry with its id is its quote. |
| AvailabilityRoute.BookedCarIsNotListed | backend/src/models/carModel.ts:23-52 | A catalog car with a booking over the range is not listed, and neither is any entry with its id. |
| AvailabilityRoute.SelectCarFromStore | backend/src/routes/availability.ts:55-64 | For a query naming a catalog car, the reply is the car's quote when nothing books it over the range. Otherwise it is "Car not available". |
| BookingRoute.ToRequest | backend/src/routes/booking.ts:47-52 | The service request carries the body's user id, car id and dates unchanged. |
| BookingRoute.HandleBooking | backend/src/routes/booking.ts:43-66 | Date issues are reported and nothing is written. Otherwise a service success returns the booking unchanged, and a service failure becomes a single error entry with its message and writes nothing. |
| BookingRoute.BookingDateRules | backend/src/routes/booking.ts:19-39 | A start before `now` is refused as not in the future. A start on or after the end, equal dates included, is refused as not before the end. Each rule is checked whatever the other finds. |
| BookingContext.InitialState | frontend/src/context/BookingContext.tsx:27-34 | No car, empty dates, no quote fetched, both prices 0. |
| BookingContext.SetBooking | frontend/src/context/BookingContext.tsx:36-53 | The state holds the car and the dates, with the quote marked fetched. The prices come from the car, each defaulting to 0 when missing. |
| BookingContext.SetBookingForgetsPreviousState | frontend/src/context/BookingContext.tsx:36-53 | Setting a booking replaces the whole state: the result does not depend on the previous state. |
| BookingContext.UpdateDates | frontend/src/context/BookingContext.tsx:55-62 | Only the dates change and the quote is marked stale. The car and prices are kept. |
| BookingContext.UpdateQuote | frontend/src/context/BookingContext.tsx:64-71 | Only the prices change and the quote is marked fetched. The car and dates are kept. |
| BookingContext.ClearBooking | frontend/src/context/BookingContext.tsx:73-82 | Clearing returns the initial state from any state. |
| BookingContext.ClearBookingIsIdempotent | frontend/src/context/BookingContext.tsx:73-82 | Clearing twice is clearing once. |
| BookingContext.DatesThenQuote | frontend/src/context/BookingContext.tsx:55-71 | New dates followed by their quote leave a fetched quote for the new dates. |
| BookingContext.QuoteThenDatesIsStale | frontend/src/context/BookingContext.tsx:55-71 | A quote followed by new dates is the reverse order with the quote marked stale. |
| Api.EntryText | frontend/src/api/index.ts:29 | A `null` entry cannot be read. An entry with a string message gives that message. Any other entry whose `message` is missing or falsy gives "". A truthy `message` gives its text. |
| Api.EntryTexts | frontend/src/api/index.ts:27-30 | The entries' texts are read one by one, and reading fails exactly when some entry is `null`. |
| Api.ErrorMessage | frontend/src/api/index.ts:27-33 | An `errors` array gives its messages joined by ", ". Otherwise a non-empty text body gives itself. Otherwise an object's `message` is used unless it is missing or `null`, in which case the status text is. |
| Api.Request | frontend/src/api/index.ts:11-39 | An ok response returns the parsed body, or the raw text when it is not JSON. A failed response never returns. A failed plain-text body throws its text, or the status text when it is empty. A failed JSON body throws the message chosen from it. A `null` entry in its `errors` array raises a TypeError. An object without an `errors` array throws its `message` unless it is missing or `null`, and the status text otherwise. |
| Api.ErrorReplyMessage | frontend/src/api/index.ts:26-36 | A backend error reply `{ errors: [{ message }, ...] }` reaches the caller as one error with the messages joined by ", ". |
| Api.MessageReplyMessage | frontend/src/api/index.ts:33-35 | A `{ message }` reply reaches the caller as that message. |
| Api.JoinPair | frontend/src/api/index.ts:30 | Two messages are joined around one separator. |
| Api.ErrorsArrayMessage | frontend/src/api/index.ts:26-35 | A failed response whose body holds a readable `errors` array throws the entries' texts joined by ", ". The status text and the raw body do not matter. |
| Api.PlainTextFailureScenario | frontend/src/api/index.ts:20-35 | "Something went wrong" as plain text is thrown as is. |
| Api.TwoErrorsFailureScenario | frontend/src/api/index.ts:26-35 | A list of two errors with messages `a` and `b` is thrown as "`a`, `b`". |

## Left out

- The Postgres store, knex and the migrations are not part of this model. One abstract store modelled on the in-memory one stands for both, since both use the same inclusive overlap test.
- The model calls the store directly in place of the thin delegating layers (booking model, user model, availability service, database selector).
- Express and zod plumbing is left out: status codes as numbers, query and body parsing, and the uuid and date-string format checks. Only the date-ordering rules are modelled. A body or query reaches the model already parsed.
- Money is whole numbers. The source's floating-point rates, `parseFloat` and `toFixed` are not modelled. The average is an exact real quotient.
- JavaScript `Date` time of day, time zones and daylight saving are not modelled. This includes local-midnight season thresholds compared with UTC-parsed request dates. A date is a whole calendar day, and `now` is a day plus the milliseconds since its midnight, fewer than 86,400,000.
- Years are non-negative and the calendar is the proleptic Gregorian one. Dates before year 0 are not modelled.
- The e-mail service is an external call the booking core never makes, so it is left out.
- React rendering, routing, `localStorage` and `fetch` itself are left out. `fetch`'s answer and `JSON.parse`'s result are inputs of `Api.Request`.
- Concurrency is not modelled, including the check-then-insert race in booking creation. The awaits are sequential steps on a single store.
- Fresh uuids are parameters. That they are fresh is a premise of the invariant lemmas, not a property of the operations.
- The availability route takes the service's outcome as a parameter, a listing or an error message. `AvailabilityRoute.SelectCarFromStore` links it to `CarModel.ListAvailable`.
- UserService.CreateUser: the "known e-mail updates only that user" promise is stated in `UserService.CreateUserUpdatesExisting` under the premise that ids are unique. Without that premise, the source updates the first user holding the id, who may be a different user.
- BookingService.CalculateTotalPrice: the contract names *some* unpriced day's season. `Pricing.StrictTotalSucceeds` states that it is the first unpriced day.
- A validation issue is modelled by the rule that failed and its message. The zod issue path and code are not modelled.
- The seed catalog `initialCars` is a parameter of `InMemoryDb.Init`. Its contents are data, not logic.
- Api.ToText models `String(v)` for JSON values only. `undefined` and functions cannot occur in a parsed body.
