/** The season classifier: every day of a year is peak, mid or off season. */
module Seasons {
  import opened Calendar
  import opened Types

  /** June 1 through September 15. */
  predicate InPeakWindow(month: nat, day: nat) {
    (6 <= month <= 8) || (month == 9 && day <= 15)
  }

  /** September 16 through October 31, and March 1 through May 31. */
  predicate InMidWindow(month: nat, day: nat) {
    (month == 9 && day >= 16) || month == 10 || (3 <= month <= 5)
  }

  /** November 1 through the end of February. */
  predicate InOffWindow(month: nat, day: nat) {
    month == 11 || month == 12 || month == 1 || month == 2
  }

  /** The season of a day, found by comparing it with June 1, September 15, October 31 and
      March 1 of its own year. */
  function GetSeason(date: Date): Season {
    var y := date.year;
    var jun1 := CivilDate(y, 6, 1);
    var sep15 := CivilDate(y, 9, 15);
    var oct31 := CivilDate(y, 10, 31);
    var mar1 := CivilDate(y, 3, 1);
    if AtOrBefore(jun1, date) && AtOrBefore(date, sep15) then Peak
    else if (Before(sep15, date) && AtOrBefore(date, oct31)) || (AtOrBefore(mar1, date) && Before(date, jun1)) then Mid
    else Off
  }

  /** Each season is exactly the days of its calendar window. */
  lemma SeasonMatchesWindows(date: Date)
    ensures GetSeason(date) == Peak <==> InPeakWindow(date.month, date.day)
    ensures GetSeason(date) == Mid <==> InMidWindow(date.month, date.day)
    ensures GetSeason(date) == Off <==> InOffWindow(date.month, date.day)
  {
  }

  /** The season depends on month and day only, never on the year. */
  lemma SeasonIgnoresYear(a: Date, b: Date)
    requires a.month == b.month && a.day == b.day
    ensures GetSeason(a) == GetSeason(b)
  {
  }

  /** The three windows partition the days of every year. */
  lemma WindowsPartitionTheYear(d: Date)
    ensures InPeakWindow(d.month, d.day) || InMidWindow(d.month, d.day) || InOffWindow(d.month, d.day)
    ensures !(InPeakWindow(d.month, d.day) && InMidWindow(d.month, d.day))
    ensures !(InPeakWindow(d.month, d.day) && InOffWindow(d.month, d.day))
    ensures !(InMidWindow(d.month, d.day) && InOffWindow(d.month, d.day))
  {
  }

  /** The boundary days on both sides of each change of season. */
  lemma SeasonBoundaries()
    ensures GetSeason(CivilDate(2025, 5, 31)) == Mid && GetSeason(CivilDate(2025, 6, 1)) == Peak
    ensures GetSeason(CivilDate(2025, 9, 15)) == Peak && GetSeason(CivilDate(2025, 9, 16)) == Mid
    ensures GetSeason(CivilDate(2025, 10, 31)) == Mid && GetSeason(CivilDate(2025, 11, 1)) == Off
    ensures GetSeason(CivilDate(2025, 2, 28)) == Off && GetSeason(CivilDate(2025, 3, 1)) == Mid
    ensures GetSeason(CivilDate(2024, 2, 29)) == Off
    ensures GetSeason(CivilDate(2025, 7, 15)) == Peak && GetSeason(CivilDate(2025, 12, 31)) == Off
  {
  }
}
