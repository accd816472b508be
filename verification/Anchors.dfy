/**
  When a schedule fires, by the calendar and the clock: the anchor's hour,
  minute, weekday, day of month and month, and the first instant of its window
  (src/shared/time.ts:84-152).
 */
module Anchors {
  import opened Prelude
  import opened Calendar
  import opened Schedule

  // ---- the time of day -----------------------------------------------------

  /** An instant `hour:minute` after a midnight reads so on the clock. */
  lemma {:induction false} ClockReads(day: int, hour: int, minute: int)
    requires 0 <= hour < 24 && 0 <= minute < 60
    ensures var t := day * 86_400_000 + hour * 3_600_000 + minute * 60_000;
            DayOf(t) == day && t / 3_600_000 % 24 == hour && t / 60_000 % 60 == minute && t % 60_000 == 0
  {
    var t := day * 86_400_000 + hour * 3_600_000 + minute * 60_000;
    DivIs(t, 86_400_000, day, hour * 3_600_000 + minute * 60_000);
    DivIs(t, 3_600_000, day * 24 + hour, minute * 60_000);
    DivIs(day * 24 + hour, 24, day, hour);
    DivIs(t, 60_000, (day * 24 + hour) * 60 + minute, 0);
    DivIs((day * 24 + hour) * 60 + minute, 60, day * 24 + hour, minute);
  }

  /** The clock at an instant shows the schedule's `at`, on the minute. */
  predicate ReadsAt(s: Spec, t: int) { t / 3_600_000 % 24 == s.hour && t / 60_000 % 60 == s.minute && t % 60_000 == 0 }

  /** Day, week and month windows fire at `at`. */
  lemma {:induction false} AnchorReadsAt(s: Spec, index: int)
    requires Valid(s) && !s.interval.Minute? && !s.interval.Hour?
    ensures ReadsAt(s, WindowAnchor(s, index))
  {
    hide UtcDay;
    var day := WindowStart(s, index) / DAY_MS + if s.interval.Month? then s.dayOfMonth - 1 else 0;
    StartsAtMidnight(s, index);
    ClockReads(day, s.hour, s.minute);
  }

  lemma {:induction false} StartsAtMidnight(s: Spec, index: int)
    requires !s.interval.Minute? && !s.interval.Hour?
    ensures WindowStart(s, index) == WindowStart(s, index) / DAY_MS * DAY_MS
  {
    hide UtcDay;
  }

  // ---- the day -------------------------------------------------------------

  /** Days count from a Thursday: Monday is 0. */
  function WeekdayOf(t: int): int { (t / 86_400_000 + 3) % 7 }

  /** A week's anchor falls on the schedule's weekday. */
  lemma {:induction false} WeekAnchorIsOn(s: Spec, index: int)
    requires Valid(s) && s.interval.Week?
    ensures WeekdayOf(WindowAnchor(s, index)) == s.on
  {
    var first := WeekAnchorDayZero(s.on);
    var day := first + index * s.count * 7;
    ClockReads(day, s.hour, s.minute);
    WeekdayOfZero(s.on);
    DivIs(day + 3, 7, (first + 3) / 7 + index * s.count, s.on);
  }

  lemma {:induction false} WeekdayOfZero(on: int)
    requires 0 <= on < 7
    ensures -7 < WeekAnchorDayZero(on) <= 0 && (WeekAnchorDayZero(on) + 3) % 7 == on
  {
    RemIsMod(3 - on, 7);
    if on <= 3 {
      DivIs(3 - on, 7, 0, 3 - on);
    } else {
      DivIs(3 - on, 7, -1, 10 - on);
    }
  }

  /** The first month of a window, in months since January of year 0. */
  function FirstMonth(s: Spec, index: int): int { 1970 * 12 + index * s.count + if Remapped(s, index) then 22_800 else 0 }

  /** A month's anchor is the schedule's day of the window's first month, 1900 years late where `Date.UTC` remaps it. */
  lemma {:induction false} MonthAnchorIsOn(s: Spec, index: int)
    requires Valid(s) && s.interval.Month?
    ensures var c := CivilOf(DayOf(WindowAnchor(s, index)));
            c.day == s.dayOfMonth && c.year * 12 + c.month == FirstMonth(s, index)
  {
    hide UtcDay, CivilOf, DayFromYear, MonthOffset;
    var months := index * s.count + if Remapped(s, index) then 22_800 else 0;
    MonthWindowStart(s, index);
    var c := Civil(1970 + months / 12, months % 12, s.dayOfMonth);
    assert ValidCivil(c);
    CivilRoundTrip(c);
    var day := DayNumber(c.year, c.month, c.day);
    assert WindowAnchor(s, index) == day * DAY_MS + s.hour * HOUR_MS + s.minute * MINUTE_MS;
    ClockReads(day, s.hour, s.minute);
    assert months == 12 * (months / 12) + months % 12;
  }

  /** A day's anchor falls on the window's first day, counted from the epoch. */
  lemma {:induction false} DayAnchorIsOn(s: Spec, index: int)
    requires Valid(s) && s.interval.Day?
    ensures WindowAnchor(s, index) / 86_400_000 == index * s.count
  {
    ClockReads(index * s.count, s.hour, s.minute);
  }

  // ---- where windows begin -------------------------------------------------

  /** A window begins at the first instant of its index - at 00:00 of its anchor's day, or of the 1st of that month. */
  lemma {:induction false} StartIsFirst(s: Spec, index: int)
    requires Valid(s) && !Remapped(s, index)
    ensures WindowIndex(s, WindowStart(s, index)) == index && WindowIndex(s, WindowStart(s, index) - 1) == index - 1
    ensures !s.interval.Month? && !s.interval.Minute? && !s.interval.Hour? ==>
              WindowStart(s, index) == WindowAnchor(s, index) / 86_400_000 * 86_400_000
    ensures s.interval.Minute? || s.interval.Hour? ==> WindowAnchor(s, index) == WindowStart(s, index)
  {
    hide WindowIndex, UtcDay;
    PlainReached(s, index, WindowStart(s, index));
    PlainReached(s, index, WindowStart(s, index) - 1);
    PlainReached(s, index + 1, WindowStart(s, index));
    PlainReached(s, index - 1, WindowStart(s, index) - 1);
    PlainsIncrease(s, index);
    PlainsIncrease(s, index - 1);
    AnchorsAreOffset(s, index);
    if s.interval.Day? || s.interval.Week? {
      StartsAtMidnight(s, index);
      ClockReads(WindowStart(s, index) / DAY_MS, s.hour, s.minute);
    }
  }

  lemma {:induction false} PlainsIncrease(s: Spec, index: int)
    requires Valid(s)
    ensures PlainStart(s, index) < PlainStart(s, index + 1)
  {
    hide MonthStart;
    assert (index + 1) * s.count == index * s.count + s.count;
    if s.interval.Month? { MonthStartsIncrease(index * s.count, (index + 1) * s.count); }
  }

  /** Windows are `count` units long, and window 0 holds the epoch: it begins there, or less than a week before. */
  lemma {:induction false} WindowLengths(s: Spec, index: int)
    requires Valid(s) && !s.interval.Month?
    ensures WindowStart(s, index + 1) - WindowStart(s, index) ==
            s.count * match s.interval
                      case Minute => 60_000
                      case Hour => 3_600_000
                      case Day => 86_400_000
                      case _ => 604_800_000
    ensures if s.interval.Week? then -604_800_000 < WindowStart(s, 0) <= 0 else WindowStart(s, 0) == 0
  {
    assert (index + 1) * s.count == index * s.count + s.count;
    if s.interval.Week? { WeekdayOfZero(s.on); }
  }

  // ---- once per window -----------------------------------------------------

  /**
    A run that began in a window fulfils it: until the window ends nothing is
    due again, and the next due instant is not before that. Without one, the
    target is due from the anchor on.
   */
  lemma {:induction false} DueOncePerWindow(s: Spec, index: int, newest: int, now: int)
    requires Valid(s) && !Remapped(s, index) && !Remapped(s, index + 1) && !Remapped(s, index + 2)
    requires WindowStart(s, index) <= now < WindowStart(s, index + 1)
    ensures WindowStart(s, index) <= newest < WindowStart(s, index + 1) ==>
              !IsDue(s, Some(newest), now) && WindowStart(s, index + 1) <= NextDueAt(s, Some(newest), None, now) < WindowStart(s, index + 2)
    ensures newest < WindowStart(s, index) || WindowStart(s, index + 1) <= newest ==>
              (IsDue(s, Some(newest), now) <==> WindowAnchor(s, index) <= now)
    ensures IsDue(s, None, now) <==> WindowAnchor(s, index) <= now
  {
    hide WindowIndex, WindowStart, WindowAnchor;
    WindowsTile(s, index);
    WindowsTile(s, index + 1);
    TilesOne(s, index, now);
    TilesOne(s, index, newest);
    AnchorInWindow(s, index + 1);
    TilesOne(s, index + 1, WindowAnchor(s, index + 1));
  }

  lemma TilesOne(s: Spec, index: int, t: int)
    requires s.count > 0 && TilesAt(s, index)
    ensures WindowIndex(s, t) == index <==> WindowStart(s, index) <= t < WindowStart(s, index + 1)
  {
    hide WindowIndex, WindowStart;
  }
}
