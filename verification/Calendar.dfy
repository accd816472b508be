/**
  The proleptic Gregorian calendar as ECMA-262 defines it for `Date`
  (sections 21.4.1 and 21.4.3.4): day numbers count from 1970-01-01, months
  are 0-based, and instants are unbounded integer milliseconds.
 */
module Calendar {

  const SECOND_MS := 1_000
  const MINUTE_MS := 60_000
  const HOUR_MS := 3_600_000
  const DAY_MS := 86_400_000

  /** A calendar day; `month` is 0-based and `day` is 1-based, as in `Date`. */
  datatype Civil = Civil(year: int, month: int, day: int)

  predicate IsLeap(year: int) {
    year % 4 == 0 && (year % 100 != 0 || year % 400 == 0)
  }

  function DaysInYear(year: int): (n: int)
    ensures 365 <= n <= 366
  {
    if IsLeap(year) then 366 else 365
  }

  function DaysInMonth(year: int, month: int): (n: int)
    requires 0 <= month < 12
    ensures 28 <= n <= 31
  {
    if month == 1 then (if IsLeap(year) then 29 else 28)
    else if month == 3 || month == 5 || month == 8 || month == 10 then 30
    else 31
  }

  /** The day number of January 1st of `year`. */
  function DayFromYear(year: int): int {
    365 * (year - 1970) + (year - 1969) / 4 - (year - 1901) / 100 + (year - 1601) / 400
  }

  /** Days from January 1st to the 1st of `month`; month 12 is the next January. */
  function MonthOffset(year: int, month: int): (n: int)
    requires 0 <= month <= 12
    decreases month
  {
    if month == 0 then 0 else MonthOffset(year, month - 1) + DaysInMonth(year, month - 1)
  }

  predicate ValidCivil(c: Civil) {
    0 <= c.month < 12 && 1 <= c.day <= DaysInMonth(c.year, c.month)
  }

  /** The day number of a calendar day; `day` may overflow its month, as in MakeDay. */
  function DayNumber(year: int, month: int, day: int): int
    requires 0 <= month <= 12
  {
    DayFromYear(year) + MonthOffset(year, month) + day - 1
  }

  /** Floor division moves up exactly at the multiples of the divisor. */
  lemma DivStep(a: int, n: int, shift: int)
    requires n > 0
    ensures (a + 1 - n * shift - 1) / n == (a - n * shift - 1) / n + (if a % n == 0 then 1 else 0)
  {
    var q, r := a / n, a % n;
    if r == 0 {
      DivIs(a - n * shift, n, q - shift, 0);
      DivIs(a - n * shift - 1, n, q - shift - 1, n - 1);
    } else {
      DivIs(a - n * shift, n, q - shift, r);
      DivIs(a - n * shift - 1, n, q - shift, r - 1);
    }
  }

  /** The quotient and remainder of a division are determined by their bounds. */
  lemma DivIs(a: int, n: int, q: int, r: int)
    requires 0 <= r < n && a == n * q + r
    ensures a / n == q && a % n == r
  {
    var d := q - a / n;
    assert n * d == a % n - r;
    assert d <= -1 ==> n * d <= -n;
    assert d >= 1 ==> n * d >= n;
  }

  lemma YearStep(year: int)
    ensures DayFromYear(year + 1) == DayFromYear(year) + DaysInYear(year)
  {
    DivStep(year, 4, 492);
    DivStep(year, 100, 19);
    DivStep(year, 400, 4);
    if year % 400 == 0 {
      DivIs(year, 100, 4 * (year / 400), 0);
    }
    if year % 100 == 0 {
      DivIs(year, 4, 25 * (year / 100), 0);
    }
    YearTerms(year);
  }

  /** The leap-day terms of two successive years, in terms of the shifted quotients. */
  lemma YearTerms(year: int)
    ensures DayFromYear(year + 1) - DayFromYear(year) ==
            365 + ((year - 1968) / 4 - (year - 1969) / 4) - ((year - 1900) / 100 - (year - 1901) / 100)
            + ((year - 1600) / 400 - (year - 1601) / 400)
  {
    assert year + 1 - 1969 == year - 1968 && year + 1 - 1901 == year - 1900 && year + 1 - 1601 == year - 1600;
  }

  lemma {:induction false} YearsIncrease(y1: int, y2: int)
    requires y1 <= y2
    ensures DayFromYear(y1) + 365 * (y2 - y1) <= DayFromYear(y2)
    decreases y2 - y1
  {
    if y1 < y2 {
      YearStep(y2 - 1);
      YearsIncrease(y1, y2 - 1);
    }
  }

  /** The twelve months of a year add up to the year. */
  lemma MonthsFillYear(year: int)
    ensures MonthOffset(year, 12) == DaysInYear(year)
  {
    var feb := DaysInMonth(year, 1);
    assert MonthOffset(year, 2) == 31 + feb;
    assert MonthOffset(year, 4) == 92 + feb;
    assert MonthOffset(year, 6) == 153 + feb;
    assert MonthOffset(year, 8) == 215 + feb;
    assert MonthOffset(year, 10) == 276 + feb;
  }

  lemma {:induction false} MonthsIncrease(year: int, m1: int, m2: int)
    requires 0 <= m1 <= m2 <= 12
    ensures MonthOffset(year, m1) + 28 * (m2 - m1) <= MonthOffset(year, m2)
    decreases m2 - m1
  {
    if m1 < m2 {
      MonthsIncrease(year, m1, m2 - 1);
    }
  }

  /** The year containing a day: YearFromTime of ECMA-262, by an estimate and one correction. */
  function YearOfDay(day: int): (year: int)
    ensures DayFromYear(year) <= day < DayFromYear(year + 1)
  {
    var guess := 1970 + day * 400 / 146_097;
    YearGuess(day);
    if DayFromYear(guess + 1) <= day then guess + 1
    else if day < DayFromYear(guess) then guess - 1
    else guess
  }

  lemma YearGuess(day: int)
    ensures var guess := 1970 + day * 400 / 146_097;
            DayFromYear(guess - 1) <= day < DayFromYear(guess + 2)
  {
    var q := day * 400 / 146_097;
    assert 146_097 * q <= day * 400 < 146_097 * (q + 1);
    YearBounds(q + 1969);
    YearBounds(q + 1972);
  }

  /** The leap corrections never drift more than three days from the mean year. */
  lemma YearBounds(year: int)
    ensures 146_097 * (year - 1970) - 1200 <= 400 * DayFromYear(year) <= 146_097 * (year - 1970) + 1200
  {
    var a, b, c := year - 1969, year - 1901, year - 1601;
    assert a - 3 <= 4 * (a / 4) <= a;
    assert b - 99 <= 100 * (b / 100) <= b;
    assert c - 399 <= 400 * (c / 400) <= c;
  }

  /** The month containing a day of the year. */
  function MonthOfOffset(year: int, offset: int): (month: int)
    requires 0 <= offset < DaysInYear(year)
    ensures 0 <= month < 12
    ensures MonthOffset(year, month) <= offset < MonthOffset(year, month + 1)
  {
    MonthsFillYear(year);
    MonthSearch(year, offset, 0)
  }

  function MonthSearch(year: int, offset: int, from: int): (month: int)
    requires 0 <= from < 12
    requires MonthOffset(year, from) <= offset < MonthOffset(year, 12)
    ensures from <= month < 12
    ensures MonthOffset(year, month) <= offset < MonthOffset(year, month + 1)
    decreases 12 - from
  {
    if offset < MonthOffset(year, from + 1) then from else MonthSearch(year, offset, from + 1)
  }

  /** The calendar day of a day number: the getUTCFullYear/Month/Date accessors. */
  function CivilOf(day: int): (c: Civil)
    ensures ValidCivil(c)
    ensures DayNumber(c.year, c.month, c.day) == day
    ensures DayFromYear(c.year) <= day < DayFromYear(c.year + 1)
  {
    var year := YearOfDay(day);
    YearStep(year);
    var offset := day - DayFromYear(year);
    var month := MonthOfOffset(year, offset);
    Civil(year, month, offset - MonthOffset(year, month) + 1)
  }

  lemma {:induction false} YearContains(day: int, found: int, year: int)
    requires DayFromYear(found) <= day < DayFromYear(found + 1)
    requires DayFromYear(year) <= day
    ensures year <= found
  {
    if found < year { YearsIncrease(found + 1, year); }
  }

  predicate CivilLess(a: Civil, b: Civil) {
    a.year < b.year || (a.year == b.year && (a.month < b.month || (a.month == b.month && a.day < b.day)))
  }

  /** A valid calendar day lies inside its month and its year. */
  lemma CivilBounds(c: Civil)
    requires ValidCivil(c)
    ensures DayNumber(c.year, c.month, 1) <= DayNumber(c.year, c.month, c.day) < DayNumber(c.year, c.month + 1, 1)
    ensures DayFromYear(c.year) <= DayNumber(c.year, c.month, c.day) < DayFromYear(c.year + 1)
  {
    MonthsIncrease(c.year, 0, c.month);
    MonthsIncrease(c.year, c.month + 1, 12);
    MonthsFillYear(c.year);
    YearStep(c.year);
  }

  /** Day numbers order calendar days exactly as (year, month, day) does. */
  lemma CivilOrder(a: Civil, b: Civil)
    requires ValidCivil(a) && ValidCivil(b)
    ensures DayNumber(a.year, a.month, a.day) < DayNumber(b.year, b.month, b.day) <==> CivilLess(a, b)
  {
    CivilBefore(a, b);
    CivilBefore(b, a);
  }

  lemma CivilBefore(a: Civil, b: Civil)
    requires ValidCivil(a) && ValidCivil(b)
    ensures CivilLess(a, b) ==> DayNumber(a.year, a.month, a.day) < DayNumber(b.year, b.month, b.day)
  {
    hide DayFromYear, DaysInMonth, MonthOffset;
    CivilBounds(a);
    CivilBounds(b);
    if a.year < b.year {
      YearsIncrease(a.year + 1, b.year);
    } else if a.year == b.year && a.month < b.month {
      MonthsIncrease(a.year, a.month + 1, b.month);
    }
  }

  /** Both directions: a valid calendar day is the one its day number decodes to. */
  lemma CivilRoundTrip(c: Civil)
    requires ValidCivil(c)
    ensures CivilOf(DayNumber(c.year, c.month, c.day)) == c
  {
    var d := CivilOf(DayNumber(c.year, c.month, c.day));
    CivilOrder(c, d);
    CivilOrder(d, c);
  }

  // ---- an independent count --------------------------------------------------

  /** Days before the 1st of January, by the leap years up to the year before. */
  lemma {:induction false} YearsByLeaps(year: int)
    ensures var z := year - 1; DayFromYear(year) == 365 * z + z / 4 - z / 100 + z / 400 - 719_162
  {
    var z := year - 1;
    DivIs(z - 1968, 4, z / 4 - 492, z % 4);
    DivIs(z - 1900, 100, z / 100 - 19, z % 100);
    DivIs(z - 1600, 400, z / 400 - 4, z % 400);
  }

  /** From March on, months begin at fifths of 153 days; 306 days are left of the year then. */
  lemma {:induction false} MonthsByFifths(year: int, month: int)
    requires 2 <= month < 12
    ensures MonthOffset(year, month) == DaysInYear(year) - 306 + (153 * (month - 2) + 2) / 5
  {
    var feb := DaysInMonth(year, 1);
    assert MonthOffset(year, 2) == 31 + feb;
    assert MonthOffset(year, 4) == 92 + feb;
    assert MonthOffset(year, 6) == 153 + feb;
    assert MonthOffset(year, 8) == 215 + feb;
    assert MonthOffset(year, 10) == 276 + feb;
  }

  /**
    The day number of every date is the one Gauss's count gives, with years
    that begin in March: no table of months, and no rule for leap years but
    the three divisions.
   */
  lemma {:induction false} DaysByGauss(year: int, month: int, day: int)
    requires 0 <= month < 12
    ensures var z := if month < 2 then year - 1 else year; var k := (month + 10) % 12;
            DayNumber(year, month, day) == 365 * z + z / 4 - z / 100 + z / 400 + (153 * k + 2) / 5 + day - 719_469
  {
    hide DayFromYear, DaysInYear;
    YearsByLeaps(year);
    if month >= 2 {
      YearStep(year);
      YearsByLeaps(year + 1);
      MonthsByFifths(year, month);
    } else {
      assert MonthOffset(year, 1) == 31;
    }
  }

  /** The year in which `Date.UTC` places a written year: 0..99 mean 1900..1999. */
  function RemapYear(year: int): int {
    if 0 <= year <= 99 then 1900 + year else year
  }

  /** `Date.UTC(year, month, day)` in days, `month` and `day` free to overflow. */
  function UtcDay(year: int, month: int, day: int): int {
    var y := RemapYear(year);
    DayNumber(y + month / 12, month % 12, day)
  }

  /** `Date.UTC` in milliseconds. */
  function UtcMs(year: int, month: int, day: int, hour: int, minute: int, second: int): int {
    UtcDay(year, month, day) * DAY_MS + hour * HOUR_MS + minute * MINUTE_MS + second * SECOND_MS
  }

  function DayOf(t: int): int { t / DAY_MS }
  function YearOf(t: int): int { CivilOf(DayOf(t)).year }

  /** The whole second a snapshot begun at `start` is named for. */
  function NameOf(start: int): int { start / SECOND_MS * SECOND_MS }

  /** Truncating to whole seconds keeps every longer unit's count. */
  lemma UnitIgnoresSubseconds(t: int, seconds: int)
    requires seconds > 0
    ensures (t / SECOND_MS * SECOND_MS) / (seconds * SECOND_MS) == t / (seconds * SECOND_MS)
  {
    var whole, part := t / SECOND_MS, t % SECOND_MS;
    var q, r := whole / seconds, whole % seconds;
    DivIs(whole * SECOND_MS, seconds * SECOND_MS, q, r * SECOND_MS);
    DivIs(t, seconds * SECOND_MS, q, r * SECOND_MS + part);
  }
}
