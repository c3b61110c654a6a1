/** The errors the booking backend throws, and the messages they carry. */
module Errors {
  import opened Types

  datatype Failure =
    | UserNotFound
    | LicenseExpired
    | UserDoubleBooking
    | CarUnavailable
    | CarNotFound
    | PricingGap(season: Season)

  /** The `message` of the `Error` the source throws for each failure. */
  function Message(f: Failure): string {
    match f
    case UserNotFound => "User not found"
    case LicenseExpired => "Driving license must be valid through the end of the booking period"
    case UserDoubleBooking => "User already has a booking in the given date range"
    case CarUnavailable => "Car is not available for the selected date range"
    case CarNotFound => "Car not found"
    case PricingGap(s) => "No pricing defined for season '" + SeasonName(s) + "'"
  }

  /** A missing mid-season price is reported as "No pricing defined for season 'mid'". */
  lemma MidPricingGapMessage()
    ensures Message(PricingGap(Mid)) == "No pricing defined for season 'mid'"
  {
  }
}
