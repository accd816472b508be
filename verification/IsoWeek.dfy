/**
  The calendar bucket keys of src/retention/retention.ts, and what the weekly
  key means: the ISO 8601 year and week of section 4.1.4 of ISO 8601:2004.
 */
module IsoWeek {
  import opened Calendar
  import opened SnapshotName

  function YearlyBucket(t: int): string {
    Pad(CivilOf(DayOf(t)).year, 4)
  }

  function MonthlyBucket(t: int): string {
    YearlyBucket(t) + "-" + Pad(CivilOf(DayOf(t)).month + 1, 2)
  }

  function DailyBucket(t: int): string {
    MonthlyBucket(t) + "-" + Pad(CivilOf(DayOf(t)).day, 2)
  }

  function HourlyBucket(t: int): string {
    DailyBucket(t) + "T" + Pad(t / HOUR_MS % 24, 2)
  }

  /** `Math.ceil(a / 7)` */
  function CeilSevenths(a: int): int { (a + 6) / 7 }

  /** The day that `setUTCDate` moves the local midnight to: that week's Thursday. */
  function ThursdayOf(t: int): int {
    var c := CivilOf(DayOf(t));
    var midnight := UtcDay(c.year, c.month, c.day);
    var utcDay := (midnight + 4) % 7;
    midnight - (utcDay + 6) % 7 + 3
  }

  function WeekNumber(thursday: int): int {
    CeilSevenths(thursday - UtcDay(CivilOf(thursday).year, 0, 1) + 1)
  }

  function WeeklyBucket(t: int): string {
    var thursday := ThursdayOf(t);
    Pad(CivilOf(thursday).year, 4) + "-W" + Pad(WeekNumber(thursday), 2)
  }

  // ---- the definition in the standard --------------------------------------

  /** Weeks since the Monday before the epoch (1969-12-29). */
  function EpochWeek(day: int): int { (day + 3) / 7 }

  /** The first Thursday at or after a day; day numbers divisible by 7 are Thursdays. */
  function ThursdayFrom(day: int): (thursday: int)
    ensures thursday % 7 == 0 && day <= thursday <= day + 6
  {
    DivIs(day + (7 - day % 7) % 7, 7, day / 7 + (if day % 7 == 0 then 0 else 1), 0);
    day + (7 - day % 7) % 7
  }

  function FirstThursday(year: int): int { ThursdayFrom(DayFromYear(year)) }

  /** Week 1 of a year is the Monday-start week holding its first Thursday. */
  function WeekOneMonday(year: int): int { FirstThursday(year) - 3 }

  predicate IsIsoWeek(day: int, year: int, week: int) {
    && WeekOneMonday(year) <= day < WeekOneMonday(year + 1)
    && week == (day - WeekOneMonday(year)) / 7 + 1
  }

  // ---- the key -------------------------------------------------------------

  lemma {:induction false} ThursdayShift(day: int)
    ensures day - ((day + 4) % 7 + 6) % 7 + 3 == 7 * EpochWeek(day)
    ensures 7 * EpochWeek(day) - 3 <= day <= 7 * EpochWeek(day) + 3
  {
    var q, r := (day + 3) / 7, (day + 3) % 7;
    if r < 6 {
      DivIs(day + 4, 7, q, r + 1);
      DivIs(r + 7, 7, 1, r);
    } else {
      DivIs(day + 4, 7, q + 1, 0);
      DivIs(6, 7, 0, 6);
    }
  }

  lemma {:induction false} ThursdayIsWeekly(t: int)
    requires YearOf(t) >= 100
    ensures ThursdayOf(t) == 7 * EpochWeek(DayOf(t))
    ensures ThursdayOf(t) - 3 <= DayOf(t) <= ThursdayOf(t) + 3
  {
    hide CivilOf, UtcDay;
    CivilUtcDay(CivilOf(DayOf(t)));
    ThursdayShift(DayOf(t));
  }

  /** Between two Thursdays, a day's week is counted by its own Thursday. */
  lemma {:induction false} WeeksBetween(day: int, first: int, next: int)
    requires first % 7 == 0 && next % 7 == 0
    ensures var thursday := 7 * EpochWeek(day);
            && (first - 3 <= day < next - 3 <==> first <= thursday <= next - 7)
            && (first - 3 <= day < next - 3 <==> first <= thursday < next)
            && thursday == first + 7 * ((day - (first - 3)) / 7)
  {
    var a, b, w := first / 7, next / 7, EpochWeek(day);
    assert first == 7 * a && next == 7 * b;
    assert day + 3 == 7 * w + (day + 3) % 7;
    DivIs(day + 3 - first, 7, w - a, (day + 3) % 7);
  }

  /** A Thursday belongs to the year whose first Thursday it has reached. */
  lemma {:induction false} ThursdayReached(thursday: int, day: int)
    requires thursday % 7 == 0
    ensures ThursdayFrom(day) <= thursday <==> day <= thursday
  {
    var first := ThursdayFrom(day);
    assert thursday == 7 * (thursday / 7) && first == 7 * (first / 7);
  }

  /** The ISO year of a day is the calendar year of its week's Thursday. */
  lemma {:induction false} IsoYearIsThursdays(day: int, year: int)
    ensures WeekOneMonday(year) <= day < WeekOneMonday(year + 1) <==> CivilOf(7 * EpochWeek(day)).year == year
  {
    var thursday := 7 * EpochWeek(day);
    var found := CivilOf(thursday).year;
    DivIs(thursday, 7, EpochWeek(day), 0);
    WeeksBetween(day, FirstThursday(year), FirstThursday(year + 1));
    ThursdayReached(thursday, DayFromYear(year));
    ThursdayReached(thursday, DayFromYear(year + 1));
    SameYear(thursday, found, year);
  }

  lemma {:induction false} SameYear(day: int, found: int, year: int)
    requires DayFromYear(found) <= day < DayFromYear(found + 1)
    ensures DayFromYear(year) <= day < DayFromYear(year + 1) <==> found == year
  {
    if DayFromYear(year) <= day < DayFromYear(year + 1) {
      YearContains(day, found, year);
      YearContains(day, year, found);
    }
  }

  lemma {:induction false} IsoWeekOfThursday(day: int, year: int, week: int)
    requires IsIsoWeek(day, year, week)
    ensures CivilOf(7 * EpochWeek(day)).year == year
    ensures 7 * EpochWeek(day) == FirstThursday(year) + 7 * (week - 1)
  {
    hide CivilOf, DayFromYear, ThursdayFrom;
    IsoYearIsThursdays(day, year);
    WeeksBetween(day, FirstThursday(year), FirstThursday(year + 1));
  }

  /** The week number the code computes is the ISO week, unless `Date.UTC` remaps the ISO year. */
  lemma {:induction false} WeekNumberIsIso(day: int, year: int, week: int)
    requires IsIsoWeek(day, year, week) && !(0 <= year <= 99)
    ensures WeekNumber(7 * EpochWeek(day)) == week
  {
    IsoWeekOfThursday(day, year, week);
    YearStartDay(year);
    CountWeeks(FirstThursday(year) - DayFromYear(year), week);
  }

  lemma {:induction false} CountWeeks(past: int, week: int)
    requires 0 <= past <= 6
    ensures CeilSevenths(past + 7 * (week - 1) + 1) == week
  {
    DivIs(past + 7 * (week - 1) + 7, 7, week, past);
  }

  lemma {:induction false} YearStartDay(year: int)
    ensures UtcDay(year, 0, 1) == DayFromYear(RemapYear(year))
  {
  }

  lemma {:induction false} IsoWeekRange(day: int, year: int, week: int)
    requires IsIsoWeek(day, year, week)
    ensures 1 <= week <= 53
    ensures CivilOf(day).year - 1 <= year <= CivilOf(day).year + 1
  {
    IsoWeekOfThursday(day, year, week);
    WeeksBetween(day, FirstThursday(year), FirstThursday(year + 1));
    YearStep(year);
    var found := CivilOf(day).year;
    assert DayFromYear(year) - 3 <= day < DayFromYear(year + 1) + 3;
    YearsIncrease(year - 1, year);
    YearsIncrease(year + 1, year + 2);
    YearContains(day, found, year - 1);
    if found >= year + 2 { YearsIncrease(year + 2, found); }
  }

  /** Every day has an ISO year and week. */
  function IsoWeekOf(day: int): (yw: (int, int))
    ensures IsIsoWeek(day, yw.0, yw.1)
  {
    var year := CivilOf(7 * EpochWeek(day)).year;
    IsoYearContains(day);
    (year, (day - WeekOneMonday(year)) / 7 + 1)
  }

  lemma {:induction false} IsoYearContains(day: int)
    ensures var year := CivilOf(7 * EpochWeek(day)).year;
            WeekOneMonday(year) <= day < WeekOneMonday(year + 1)
  {
    hide CivilOf, DayFromYear, ThursdayFrom;
    IsoYearIsThursdays(day, CivilOf(7 * EpochWeek(day)).year);
  }

  /**
    The weekly key is the ISO year and week of every snapshot instant, except
    in the days of year 100 that ISO counts to year 99: there `Date.UTC`
    measures the week from 1999.
   */
  lemma {:induction false} WeeklyKeyIsIso(t: int, year: int, week: int)
    requires 100 <= YearOf(t) <= 9999 && IsIsoWeek(DayOf(t), year, week)
    ensures WeeklyBucket(t) == Pad(year, 4) + "-W" + Pad(week, 2) <==> year >= 100
    ensures year == 99 || 100 <= year <= 9999
  {
    ThursdayIsWeekly(t);
    IsoWeekOfThursday(DayOf(t), year, week);
    IsoYearRange(t, year, week);
    if year >= 100 {
      WeekNumberIsIso(DayOf(t), year, week);
    } else {
      EarlyWeekIsNegative(t, week);
      var head := Pad(99, 4) + "-W";
      IsoWeekRange(DayOf(t), year, week);
      Pad2(week);
      assert WeeklyBucket(t) == head + Pad(WeekNumber(ThursdayOf(t)), 2);
      assert (head + Pad(week, 2))[|head|] == D2(week)[0];
      assert (head + Pad(WeekNumber(ThursdayOf(t)), 2))[|head|] == '-';
    }
  }

  lemma {:induction false} IsoYearRange(t: int, year: int, week: int)
    requires 100 <= YearOf(t) <= 9999 && IsIsoWeek(DayOf(t), year, week)
    ensures 99 <= year <= 9999
  {
    hide CivilOf, DayFromYear, ThursdayFrom;
    IsoWeekRange(DayOf(t), year, week);
    if year == 10_000 {
      YearsIncrease(YearOf(t) + 1, 10_000);
      Year10000();
    }
  }

  /** January 1st of year 10000 is a Saturday, so no ISO week of it reaches back into 9999. */
  lemma {:induction false} Year10000()
    ensures WeekOneMonday(10_000) >= DayFromYear(10_000)
  {
    assert DayFromYear(10_000) == 2_932_897;
    DivIs(2_932_897, 7, 418_985, 2);
  }

  lemma {:induction false} EarlyWeekIsNegative(t: int, week: int)
    requires 100 <= YearOf(t) <= 9999 && IsIsoWeek(DayOf(t), 99, week)
    ensures WeekNumber(ThursdayOf(t)) < 0
    ensures |Pad(WeekNumber(ThursdayOf(t)), 2)| > 0 && Pad(WeekNumber(ThursdayOf(t)), 2)[0] == '-'
  {
    ThursdayIsWeekly(t);
    IsoWeekOfThursday(DayOf(t), 99, week);
    var thursday := ThursdayOf(t);
    assert thursday < DayFromYear(100);
    assert UtcDay(99, 0, 1) == DayFromYear(1999);
    YearsIncrease(100, 1999);
    var n := WeekNumber(thursday);
    assert n < -9;
    assert |Decimal(-n)| >= 2;
  }

  /** Two snapshot instants share a weekly key exactly when they share a Monday-start week. */
  lemma {:induction false} SameWeeklyKey(t: int, u: int)
    requires 100 <= YearOf(t) <= 9999 && 100 <= YearOf(u) <= 9999
    ensures WeeklyBucket(t) == WeeklyBucket(u) <==> EpochWeek(DayOf(t)) == EpochWeek(DayOf(u))
  {
    var (y, w) := IsoWeekOf(DayOf(t));
    var (z, v) := IsoWeekOf(DayOf(u));
    ThursdayIsWeekly(t);
    ThursdayIsWeekly(u);
    if WeeklyBucket(t) == WeeklyBucket(u) {
      SameKeySameIso(t, y, w, u, z, v);
    }
  }

  lemma {:induction false} SameKeySameIso(t: int, y: int, w: int, u: int, z: int, v: int)
    requires 100 <= YearOf(t) <= 9999 && 100 <= YearOf(u) <= 9999
    requires IsIsoWeek(DayOf(t), y, w) && IsIsoWeek(DayOf(u), z, v)
    requires WeeklyBucket(t) == WeeklyBucket(u)
    ensures EpochWeek(DayOf(t)) == EpochWeek(DayOf(u))
  {
    hide CivilOf, DayFromYear, ThursdayFrom, ThursdayOf, WeekNumber, IsIsoWeek, Pad;
    ThursdayIsWeekly(t); ThursdayIsWeekly(u);
    IsoYearRange(t, y, w); IsoYearRange(u, z, v);
    IsoWeekOfThursday(DayOf(t), y, w); IsoWeekOfThursday(DayOf(u), z, v);
    IsoWeekRange(DayOf(t), y, w); IsoWeekRange(DayOf(u), z, v);
    Pad4(y); Pad4(z);
    assert WeeklyBucket(t)[..4] == D4(y) && WeeklyBucket(u)[..4] == D4(z);
    LexD4(y, z);
    assert y == z;
    if y == 99 {
      OnlyOneEarlyWeek(t, w); OnlyOneEarlyWeek(u, v);
    } else {
      WeekNumberIsIso(DayOf(t), y, w); WeekNumberIsIso(DayOf(u), z, v);
      Pad2(w); Pad2(v);
      assert WeeklyBucket(t)[6..] == D2(w) && WeeklyBucket(u)[6..] == D2(v);
      LexD2(w, v);
    }
  }

  /** The one week that starts in year 99 and reaches into year 100. */
  lemma {:induction false} OnlyOneEarlyWeek(t: int, week: int)
    requires YearOf(t) >= 100 && IsIsoWeek(DayOf(t), 99, week)
    ensures EpochWeek(DayOf(t)) == EpochWeek(DayFromYear(100))
  {
    YearsIncrease(100, YearOf(t));
    EarlyYears();
    hide CivilOf, DayFromYear, ThursdayFrom;
    DivIs(DayOf(t) + 3, 7, -97_572, DayOf(t) + 683_007);
    DivIs(-683_000, 7, -97_572, 4);
  }

  lemma {:induction false} EarlyYears()
    ensures DayFromYear(100) == -683_003 && FirstThursday(100) == -682_997
  {
    DivIs(-683_003, 7, -97_572, 1);
  }
}
