/** The entities of the booking backend: seasons, cars with seasonal rates, bookings and users. */
module Types {
  import opened Calendar

  /** The source's uuid strings. */
  type Id = string

  datatype Season = Peak | Mid | Off

  /** The season's name as the source spells it ("peak", "mid", "off"). */
  function SeasonName(s: Season): string {
    match s
    case Peak => "peak"
    case Mid => "mid"
    case Off => "off"
  }

  /** One entry of a car's price list; prices are whole cents. */
  datatype PriceEntry = PriceEntry(season: Season, pricePerDay: nat)

  datatype Car = Car(id: Id, brand: string, model: string, pricing: seq<PriceEntry>, imageUrl: string)

  /** A stored booking; both ends are whole days. */
  datatype Booking = Booking(id: Id, userId: Id, carId: Id, startDate: Date, endDate: Date, totalPrice: nat)

  /** What a client asks to book: the booking without its id and price. */
  datatype BookingRequest = BookingRequest(userId: Id, carId: Id, startDate: Date, endDate: Date)

  datatype User = User(id: Id, email: string, licenseValidUntil: Date)

  datatype CreateUserDto = CreateUserDto(email: string, licenseValidUntil: Date)
}
