/** Seasonal pricing of a run of days, in the lenient mode used when listing available cars
    (a season without a rate costs nothing) and the strict mode used when booking
    (a season without a rate is an error naming that season). */
module Pricing {
  import opened Wrappers
  import opened Seqs
  import opened Calendar
  import opened Types
  import opened Seasons

  /** The daily rate of the first price-list entry for season `s` (`pricing.find`). */
  function RateFor(pricing: seq<PriceEntry>, s: Season): Option<nat>
    decreases |pricing|
  {
    if |pricing| == 0 then None
    else if pricing[0].season == s then Some(pricing[0].pricePerDay)
    else RateFor(pricing[1..], s)
  }

  /** The rate found is that of the first entry for the season, and none is found only when
      no entry is for the season. */
  lemma {:induction false} RateForIsFirstMatch(pricing: seq<PriceEntry>, s: Season)
    ensures RateFor(pricing, s).None? <==> forall i :: 0 <= i < |pricing| ==> pricing[i].season != s
    ensures RateFor(pricing, s).Some? ==>
              exists i :: && 0 <= i < |pricing|
                          && pricing[i] == PriceEntry(s, RateFor(pricing, s).value)
                          && forall j :: 0 <= j < i ==> pricing[j].season != s
    decreases |pricing|
  {
    if |pricing| > 0 && pricing[0].season != s {
      RateForIsFirstMatch(pricing[1..], s);
      if RateFor(pricing, s).Some? {
        var i :| && 0 <= i < |pricing[1..]|
                 && pricing[1..][i] == PriceEntry(s, RateFor(pricing, s).value)
                 && forall j :: 0 <= j < i ==> pricing[1..][j].season != s;
        assert pricing[i + 1] == PriceEntry(s, RateFor(pricing, s).value);
      } else {
        forall i | 0 <= i < |pricing| ensures pricing[i].season != s {
          if i > 0 { assert pricing[i] == pricing[1..][i - 1]; }
        }
      }
    }
  }

  /** The rate charged for day `d`, if the price list has one for its season. */
  function DayRate(pricing: seq<PriceEntry>, d: Date): Option<nat> {
    RateFor(pricing, GetSeason(d))
  }

  /** Every day of `days` has a rate for its season. */
  ghost predicate AllDaysPriced(pricing: seq<PriceEntry>, days: seq<Date>) {
    forall i :: 0 <= i < |days| ==> DayRate(pricing, days[i]).Some?
  }

  /** The listing total: the sum of the day rates, a day without one counting 0. */
  function LenientTotal(pricing: seq<PriceEntry>, days: seq<Date>): (total: nat)
    decreases |days|
  {
    if |days| == 0 then 0
    else DayRate(pricing, days[0]).GetOr(0) + LenientTotal(pricing, days[1..])
  }

  /** The booking total: the sum of the day rates, or the season of the first day that has
      no rate. */
  function StrictTotal(pricing: seq<PriceEntry>, days: seq<Date>): (r: Result<nat, Season>)
    decreases |days|
  {
    if |days| == 0 then Ok(0)
    else
      match DayRate(pricing, days[0])
      case None => Err(GetSeason(days[0]))
      case Some(rate) =>
        match StrictTotal(pricing, days[1..])
        case Err(s) => Err(s)
        case Ok(rest) => Ok(rate + rest)
  }

  /** A run of days whose seasons all lack a rate costs nothing leniently, and the lenient
      total is at least any one day's rate. */
  lemma {:induction false} LenientTotalBounds(pricing: seq<PriceEntry>, days: seq<Date>)
    ensures (forall i :: 0 <= i < |days| ==> DayRate(pricing, days[i]).None?) ==> LenientTotal(pricing, days) == 0
    ensures forall i :: 0 <= i < |days| ==> LenientTotal(pricing, days) >= DayRate(pricing, days[i]).GetOr(0)
    decreases |days|
  {
    if |days| > 0 {
      var rest := days[1..];
      LenientTotalBounds(pricing, rest);
      assert forall i :: 1 <= i < |days| ==> days[i] == rest[i - 1];
    }
  }

  /** The strict total succeeds exactly when every day has a rate; otherwise it names the
      season of the first day without one. */
  lemma {:induction false} StrictTotalSucceeds(pricing: seq<PriceEntry>, days: seq<Date>)
    ensures StrictTotal(pricing, days).Ok? <==> AllDaysPriced(pricing, days)
    ensures StrictTotal(pricing, days).Err? ==>
              exists i :: && 0 <= i < |days|
                          && DayRate(pricing, days[i]).None?
                          && StrictTotal(pricing, days).error == GetSeason(days[i])
                          && forall j :: 0 <= j < i ==> DayRate(pricing, days[j]).Some?
    decreases |days|
  {
    if |days| > 0 {
      var rest := days[1..];
      StrictTotalSucceeds(pricing, rest);
      assert forall i :: 1 <= i < |days| ==> days[i] == rest[i - 1];
      if DayRate(pricing, days[0]).None? {
        assert !AllDaysPriced(pricing, days);
      } else if StrictTotal(pricing, rest).Err? {
        var i :| && 0 <= i < |rest|
                 && DayRate(pricing, rest[i]).None?
                 && StrictTotal(pricing, rest).error == GetSeason(rest[i])
                 && forall j :: 0 <= j < i ==> DayRate(pricing, rest[j]).Some?;
        assert days[i + 1] == rest[i];
        assert forall j :: 0 <= j < i + 1 ==> DayRate(pricing, days[j]).Some?;
        assert !AllDaysPriced(pricing, days);
      }
    }
  }

  /** The mean daily price: `total / days`, and 0 for an empty range. */
  function AverageDailyPrice(total: nat, days: nat): (avg: real)
    ensures days == 0 ==> avg == 0.0
    ensures days > 0 ==> avg * (days as real) == total as real
    ensures avg >= 0.0
  {
    if days == 0 then 0.0 else (total as real) / (days as real)
  }

  /** When every day has a rate the two modes agree. */
  lemma {:induction false} LenientAgreesWithStrict(pricing: seq<PriceEntry>, days: seq<Date>)
    requires AllDaysPriced(pricing, days)
    ensures StrictTotal(pricing, days) == Ok(LenientTotal(pricing, days))
    decreases |days|
  {
    if |days| > 0 {
      assert DayRate(pricing, days[0]).Some?;
      assert AllDaysPriced(pricing, days[1..]) by {
        forall i | 0 <= i < |days[1..]|
          ensures DayRate(pricing, days[1..][i]).Some?
        {
          assert days[1..][i] == days[i + 1];
        }
      }
      LenientAgreesWithStrict(pricing, days[1..]);
      var rate := DayRate(pricing, days[0]).value;
      assert StrictTotal(pricing, days) == Ok(rate + StrictTotal(pricing, days[1..]).value);
    }
  }

  /** The strict total of two runs of days is the sum of their totals, and a failure in the
      first run is reported before one in the second. */
  lemma {:induction false} StrictTotalAppend(pricing: seq<PriceEntry>, a: seq<Date>, b: seq<Date>)
    ensures StrictTotal(pricing, a).Err? ==> StrictTotal(pricing, a + b) == StrictTotal(pricing, a)
    ensures StrictTotal(pricing, a).Ok? && StrictTotal(pricing, b).Err? ==>
              StrictTotal(pricing, a + b) == StrictTotal(pricing, b)
    ensures StrictTotal(pricing, a).Ok? && StrictTotal(pricing, b).Ok? ==>
              StrictTotal(pricing, a + b) == Ok(StrictTotal(pricing, a).value + StrictTotal(pricing, b).value)
    decreases |a|
  {
    if |a| == 0 {
      assert a + b == b;
    } else {
      var ab := a + b;
      assert ab[0] == a[0];
      assert ab[1..] == a[1..] + b;
      StrictTotalAppend(pricing, a[1..], b);
      match DayRate(pricing, a[0])
      case None =>
        assert StrictTotal(pricing, ab) == Err(GetSeason(a[0]));
      case Some(rate) =>
        assert StrictTotal(pricing, ab) == (match StrictTotal(pricing, a[1..] + b)
                                            case Err(e) => Err(e)
                                            case Ok(rest) => Ok(rate + rest));
    }
  }

  /** The strict price of `[s, e)` splits at any day `m` in between: the price of `[s, m)`
      plus the price of `[m, e)`. */
  lemma StrictPriceAdditive(pricing: seq<PriceEntry>, s: Date, m: Date, e: Date)
    requires AtOrBefore(s, m) && AtOrBefore(m, e)
    requires StrictTotal(pricing, DatesInRange(s, m)).Ok?
    requires StrictTotal(pricing, DatesInRange(m, e)).Ok?
    ensures StrictTotal(pricing, DatesInRange(s, e))
         == Ok(StrictTotal(pricing, DatesInRange(s, m)).value + StrictTotal(pricing, DatesInRange(m, e)).value)
  {
    DatesInRangeSplit(s, m, e);
    StrictTotalOfSplit(pricing, DatesInRange(s, e), DatesInRange(s, m), DatesInRange(m, e));
  }

  /** The strict total of a run cut into two priced parts is the sum of the parts. */
  lemma StrictTotalOfSplit(pricing: seq<PriceEntry>, whole: seq<Date>, left: seq<Date>, right: seq<Date>)
    requires whole == left + right
    requires StrictTotal(pricing, left).Ok? && StrictTotal(pricing, right).Ok?
    ensures StrictTotal(pricing, whole) == Ok(StrictTotal(pricing, left).value + StrictTotal(pricing, right).value)
  {
    StrictTotalAppend(pricing, left, right);
  }
}
