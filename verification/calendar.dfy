/** Whole calendar days of the proleptic Gregorian calendar.
    The source handles dates as JavaScript `Date` instants. The dates the frontend sends are
    plain days (UTC midnights), so a date is modelled here as a (year, month, day) triple;
    other times of day are not modelled. */
module Calendar {

  datatype CivilDate = CivilDate(year: nat, month: nat, day: nat)

  predicate IsLeapYear(y: nat) {
    y % 4 == 0 && (y % 100 != 0 || y % 400 == 0)
  }

  function DaysInMonth(y: nat, m: nat): (n: nat)
    requires 1 <= m <= 12
    ensures 28 <= n <= 31
    ensures n == 29 <==> m == 2 && IsLeapYear(y)
  {
    if m == 2 then (if IsLeapYear(y) then 29 else 28)
    else if m == 4 || m == 6 || m == 9 || m == 11 then 30
    else 31
  }

  predicate IsValid(d: CivilDate) {
    1 <= d.month <= 12 && 1 <= d.day <= DaysInMonth(d.year, d.month)
  }

  /** A day that exists in the calendar (no April 31, no February 29 outside leap years). */
  type Date = d: CivilDate | IsValid(d) witness CivilDate(2000, 1, 1)

  /** Chronological order on days: `a < b` between two midnights. */
  predicate Before(a: CivilDate, b: CivilDate) {
    || a.year < b.year
    || (a.year == b.year && a.month < b.month)
    || (a.year == b.year && a.month == b.month && a.day < b.day)
  }

  /** `a <= b` between two midnights. */
  predicate AtOrBefore(a: CivilDate, b: CivilDate) {
    !Before(b, a)
  }

  function YearLength(y: nat): nat {
    if IsLeapYear(y) then 366 else 365
  }

  /** Days from January 1 of year 0 to January 1 of year `y`. */
  function DaysBeforeYear(y: nat): nat {
    if y == 0 then 0 else DaysBeforeYear(y - 1) + YearLength(y - 1)
  }

  /** Days from January 1 to the first day of month `m` of year `y`. */
  function DaysBeforeMonth(y: nat, m: nat): nat
    requires 1 <= m <= 12
  {
    if m == 1 then 0 else DaysBeforeMonth(y, m - 1) + DaysInMonth(y, m - 1)
  }

  /** The ordinal of a day: the number of days from January 1 of year 0. */
  function DayNumber(d: Date): nat {
    DaysBeforeYear(d.year) + DaysBeforeMonth(d.year, d.month) + d.day - 1
  }

  /** The day after `d`, rolling over month and year ends and honouring leap years
      (the source's `d.setDate(d.getDate() + 1)`). */
  function NextDay(d: Date): (r: Date)
    ensures Before(d, r)
  {
    if d.day < DaysInMonth(d.year, d.month) then CivilDate(d.year, d.month, d.day + 1)
    else if d.month < 12 then CivilDate(d.year, d.month + 1, 1)
    else CivilDate(d.year + 1, 1, 1)
  }

  lemma {:induction false} MonthsBeforeFitInYear(y: nat, m: nat)
    requires 1 <= m <= 12
    ensures DaysBeforeMonth(y, m) + DaysInMonth(y, m) <= YearLength(y)
    ensures m == 12 ==> DaysBeforeMonth(y, m) + DaysInMonth(y, m) == YearLength(y)
  {
    // The months before December fill 334 days (335 in a leap year).
    assert DaysBeforeMonth(y, 2) == 31;
    assert DaysBeforeMonth(y, 3) == 31 + DaysInMonth(y, 2);
    assert DaysBeforeMonth(y, 4) == 62 + DaysInMonth(y, 2);
    assert DaysBeforeMonth(y, 5) == 92 + DaysInMonth(y, 2);
    assert DaysBeforeMonth(y, 6) == 123 + DaysInMonth(y, 2);
    assert DaysBeforeMonth(y, 7) == 153 + DaysInMonth(y, 2);
    assert DaysBeforeMonth(y, 8) == 184 + DaysInMonth(y, 2);
    assert DaysBeforeMonth(y, 9) == 215 + DaysInMonth(y, 2);
    assert DaysBeforeMonth(y, 10) == 245 + DaysInMonth(y, 2);
    assert DaysBeforeMonth(y, 11) == 276 + DaysInMonth(y, 2);
    assert DaysBeforeMonth(y, 12) == 306 + DaysInMonth(y, 2);
  }

  /** Later months of the same year start after earlier months end. */
  lemma {:induction false} MonthsAreOrdered(y: nat, m1: nat, m2: nat)
    requires 1 <= m1 < m2 <= 12
    ensures DaysBeforeMonth(y, m1) + DaysInMonth(y, m1) <= DaysBeforeMonth(y, m2)
    decreases m2 - m1
  {
    if m1 + 1 < m2 {
      MonthsAreOrdered(y, m1 + 1, m2);
    }
  }

  /** Later years start after earlier years end. */
  lemma {:induction false} YearsAreOrdered(y1: nat, y2: nat)
    requires y1 < y2
    ensures DaysBeforeYear(y1) + YearLength(y1) <= DaysBeforeYear(y2)
    decreases y2 - y1
  {
    if y1 + 1 < y2 {
      YearsAreOrdered(y1 + 1, y2);
    }
  }

  /** A day's ordinal lies within its own year. */
  lemma DayWithinYear(d: Date)
    ensures DaysBeforeYear(d.year) <= DayNumber(d) < DaysBeforeYear(d.year) + YearLength(d.year)
  {
    MonthsBeforeFitInYear(d.year, d.month);
  }

  /** The calendar order agrees with the order of day ordinals. */
  lemma {:induction false} BeforeIsOrdinalOrder(a: Date, b: Date)
    ensures Before(a, b) <==> DayNumber(a) < DayNumber(b)
  {
    if a.year < b.year {
      DayWithinYear(a);
      YearsAreOrdered(a.year, b.year);
    } else if b.year < a.year {
      DayWithinYear(b);
      YearsAreOrdered(b.year, a.year);
    } else if a.month < b.month {
      MonthsAreOrdered(a.year, a.month, b.month);
    } else if b.month < a.month {
      MonthsAreOrdered(a.year, b.month, a.month);
    }
  }

  /** Stepping to the next day advances the ordinal by exactly one. */
  lemma {:induction false} NextDayAdvancesOrdinal(d: Date)
    ensures DayNumber(NextDay(d)) == DayNumber(d) + 1
  {
    if d.day < DaysInMonth(d.year, d.month) {
    } else if d.month < 12 {
    } else {
      MonthsBeforeFitInYear(d.year, 12);
    }
  }

  /** No day lies strictly between a day and the next one. */
  lemma NextDayIsImmediate(d: Date, e: Date)
    requires Before(d, e)
    ensures AtOrBefore(NextDay(d), e)
  {
    NextDayAdvancesOrdinal(d);
    BeforeIsOrdinalOrder(d, e);
    BeforeIsOrdinalOrder(e, NextDay(d));
  }

  /** The days `start`, `start + 1`, ... strictly before `end`: the half-open range
      `[start, end)` that the source walks with `for (d = start; d < end; d++)`. */
  function DatesInRange(start: Date, end: Date): seq<Date>
    decreases DayNumber(end) - DayNumber(start)
  {
    BeforeIsOrdinalOrder(start, end);
    if Before(start, end) then
      NextDayAdvancesOrdinal(start);
      [start] + DatesInRange(NextDay(start), end)
    else
      []
  }

  /** The days of `[start, end)` are the consecutive ordinals from `start`'s, one per day up to
      but excluding `end`. */
  lemma {:induction false} DatesInRangeEnumerates(start: Date, end: Date)
    ensures var r := DatesInRange(start, end);
            && |r| == (if Before(start, end) then DayNumber(end) - DayNumber(start) else 0)
            && (forall i :: 0 <= i < |r| ==> DayNumber(r[i]) == DayNumber(start) + i)
            && (forall i :: 0 <= i < |r| ==> Before(r[i], end))
    decreases DayNumber(end) - DayNumber(start)
  {
    BeforeIsOrdinalOrder(start, end);
    if Before(start, end) {
      var n := NextDay(start);
      NextDayAdvancesOrdinal(start);
      DatesInRangeEnumerates(n, end);
      var r, rest := DatesInRange(start, end), DatesInRange(n, end);
      assert r == [start] + rest;
      BeforeIsOrdinalOrder(n, end);
      forall i | 0 <= i < |r|
        ensures DayNumber(r[i]) == DayNumber(start) + i && Before(r[i], end)
      {
        if i > 0 { assert r[i] == rest[i - 1]; }
      }
    }
  }

  /** Splitting a range at an inner day splits its day list: `[s, e) = [s, m) ++ [m, e)`. */
  lemma {:induction false} DatesInRangeSplit(s: Date, m: Date, e: Date)
    requires AtOrBefore(s, m) && AtOrBefore(m, e)
    ensures DatesInRange(s, e) == DatesInRange(s, m) + DatesInRange(m, e)
    decreases DayNumber(m) - DayNumber(s)
  {
    if s == m {
      assert DatesInRange(s, m) == [];
    } else {
      BeforeIsOrdinalOrder(s, m);
      BeforeIsOrdinalOrder(m, e);
      BeforeIsOrdinalOrder(s, e);
      var n := NextDay(s);
      NextDayIsImmediate(s, m);
      NextDayAdvancesOrdinal(s);
      DatesInRangeSplit(n, m, e);
      calc {
        DatesInRange(s, e);
        [s] + DatesInRange(n, e);
        [s] + (DatesInRange(n, m) + DatesInRange(m, e));
        ([s] + DatesInRange(n, m)) + DatesInRange(m, e);
        DatesInRange(s, m) + DatesInRange(m, e);
      }
    }
  }
}
