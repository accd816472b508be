/**
  Schedule windows (src/shared/time.ts) and the next-due instant
  (src/engine/internal/scheduler.ts). Instants are integer milliseconds.
 */
module Schedule {
  import opened Prelude
  import opened Calendar

  datatype Interval = Minute | Hour | Day | Week | Month

  /** A resolved schedule: `on` counts from Monday, `hour:minute` is the `at` anchor. */
  datatype Spec = Spec(interval: Interval, count: int, hour: int, minute: int, on: int, dayOfMonth: int)

  /** What config validation guarantees about a schedule. */
  predicate Valid(s: Spec) {
    && s.count > 0
    && 0 <= s.hour < 24 && 0 <= s.minute < 60
    && 0 <= s.on < 7
    && 1 <= s.dayOfMonth <= 28
  }

  /** JavaScript's `%`: the remainder takes the sign of the dividend. */
  function Rem(a: int, b: int): int
    requires b > 0
  {
    if a >= 0 then a % b else -((-a) % b)
  }

  lemma RemIsMod(a: int, b: int)
    requires b > 0
    ensures (Rem(a, b) + b) % b == a % b
  {
    if a >= 0 {
      DivIs(Rem(a, b) + b, b, 1, a % b);
    } else {
      var q, r := (-a) / b, (-a) % b;
      if r == 0 {
        DivIs(a, b, -q, 0);
        DivIs(b, b, 1, 0);
      } else {
        assert a == b * (-q - 1) + (b - r);
        DivIs(a, b, -q - 1, b - r);
        DivIs(b - r, b, 0, b - r);
      }
    }
  }

  function MonthsSinceEpoch(t: int): int {
    var c := CivilOf(DayOf(t));
    (c.year - 1970) * 12 + c.month
  }

  function WeekAnchorDayZero(on: int): int {
    -((Rem(3 - on, 7) + 7) % 7)
  }

  function WeeksSinceEpoch(t: int, on: int): int {
    (DayOf(t) - WeekAnchorDayZero(on)) / 7
  }

  function AtOffsetMs(s: Spec): int {
    s.hour * HOUR_MS + s.minute * MINUTE_MS
  }

  function WindowIndex(s: Spec, t: int): int
    requires s.count > 0
  {
    match s.interval
    case Minute => t / MINUTE_MS / s.count
    case Hour => t / HOUR_MS / s.count
    case Day => DayOf(t) / s.count
    case Week => WeeksSinceEpoch(t, s.on) / s.count
    case Month => MonthsSinceEpoch(t) / s.count
  }

  function WindowStart(s: Spec, index: int): int {
    match s.interval
    case Minute => index * s.count * MINUTE_MS
    case Hour => index * s.count * HOUR_MS
    case Day => index * s.count * DAY_MS
    case Week => (WeekAnchorDayZero(s.on) + index * s.count * 7) * DAY_MS
    case Month =>
      var months := index * s.count;
      UtcDay(1970 + months / 12, (Rem(months, 12) + 12) % 12, 1) * DAY_MS
  }

  function WindowAnchor(s: Spec, index: int): int {
    var start := WindowStart(s, index);
    match s.interval
    case Minute => start
    case Hour => start
    case Day => start + AtOffsetMs(s)
    case Week => start + AtOffsetMs(s)
    case Month => start + (s.dayOfMonth - 1) * DAY_MS + AtOffsetMs(s)
  }

  predicate IsDue(s: Spec, newest: Option<int>, now: int)
    requires s.count > 0
  {
    var index := WindowIndex(s, now);
    if newest.Some? && WindowIndex(s, newest.value) == index then false
    else now >= WindowAnchor(s, index)
  }

  function NextDueAt(s: Spec, newest: Option<int>, backoffUntil: Option<int>, now: int): int
    requires s.count > 0
  {
    var index := WindowIndex(s, now);
    var due :=
      if newest.Some? && WindowIndex(s, newest.value) == index then WindowAnchor(s, index + 1)
      else if now >= WindowAnchor(s, index) then now
      else WindowAnchor(s, index);
    if backoffUntil.Some? && backoffUntil.value > due then backoffUntil.value else due
  }

  // ---- months ------------------------------------------------------------

  /** 00:00 UTC on the 1st of the given month since the epoch, with no year remapping. */
  function MonthStart(months: int): int {
    DayNumber(1970 + months / 12, months % 12, 1) * DAY_MS
  }

  lemma {:induction false} MonthStartsIncrease(m1: int, m2: int)
    requires m1 < m2
    ensures MonthStart(m1) < MonthStart(m2)
  {
    var a, b := Civil(1970 + m1 / 12, m1 % 12, 1), Civil(1970 + m2 / 12, m2 % 12, 1);
    assert m1 == 12 * (m1 / 12) + m1 % 12 && m2 == 12 * (m2 / 12) + m2 % 12;
    CivilOrder(a, b);
  }

  /** An instant has reached a month exactly when its month index has. */
  lemma MonthReached(t: int, months: int)
    ensures MonthStart(months) <= t <==> months <= MonthsSinceEpoch(t)
  {
    var day := DayOf(t);
    var c := CivilOf(day);
    var first := Civil(1970 + months / 12, months % 12, 1);
    assert months == 12 * (months / 12) + months % 12;
    CivilOrder(c, first);
    assert MonthStart(months) <= t <==> DayNumber(first.year, first.month, 1) <= day;
  }

  lemma MonthOfItsStart(months: int)
    ensures MonthsSinceEpoch(MonthStart(months)) == months
  {
    MonthReached(MonthStart(months), months);
    MonthStartsIncrease(months, months + 1);
    MonthReached(MonthStart(months), months + 1);
  }

  /** Whether `Date.UTC` reads the first year of window `index` as 1900 years later. */
  predicate Remapped(s: Spec, index: int) {
    s.interval.Month? && 0 <= 1970 + index * s.count / 12 <= 99
  }

  lemma MonthWindowStart(s: Spec, index: int)
    requires s.interval.Month?
    ensures WindowStart(s, index) == MonthStart(index * s.count + (if Remapped(s, index) then 22_800 else 0))
  {
    var months := index * s.count;
    RemIsMod(months, 12);
    DivIs(months, 12, months / 12, months % 12);
    DivIs(months + 22_800, 12, months / 12 + 1900, months % 12);
    DivIs(months % 12, 12, 0, months % 12);
  }

  // ---- windows tile time -------------------------------------------------

  /** Window `index` is exactly the half-open interval between two successive starts. */
  ghost predicate TilesAt(s: Spec, index: int)
    requires s.count > 0
  {
    forall t :: WindowIndex(s, t) == index <==> WindowStart(s, index) <= t < WindowStart(s, index + 1)
  }

  /** Dividing twice by positive numbers asks how many whole products fit. */
  lemma QuotientReached(t: int, unit: int, count: int, k: int)
    requires unit > 0 && count > 0
    ensures k <= t / unit / count <==> k * count * unit <= t
  {
    QuotientAtLeast(t, unit, k * count);
    QuotientAtLeast(t / unit, count, k);
  }

  lemma QuotientAtLeast(t: int, unit: int, k: int)
    requires unit > 0
    ensures k <= t / unit <==> k * unit <= t
  {
    var q := t / unit;
    assert q * unit <= t < q * unit + unit;
    if k <= q {
      assert k * unit <= q * unit;
    } else {
      assert (q + 1) * unit <= k * unit;
    }
  }

  /** An instant's window index has reached `index` exactly when the instant has reached its start. */
  lemma WindowReached(s: Spec, index: int, t: int)
    requires s.count > 0 && !Remapped(s, index)
    ensures index <= WindowIndex(s, t) <==> WindowStart(s, index) <= t
  {
    match s.interval
    case Minute => QuotientReached(t, MINUTE_MS, s.count, index);
    case Hour => QuotientReached(t, HOUR_MS, s.count, index);
    case Day => QuotientReached(t, DAY_MS, s.count, index);
    case Week => WeekReached(t, WeekAnchorDayZero(s.on), s.count, index);
    case Month =>
      MonthWindowStart(s, index);
      MonthReached(t, index * s.count);
      QuotientAtLeast(MonthsSinceEpoch(t), s.count, index);
  }

  lemma WeekReached(t: int, anchor: int, count: int, k: int)
    requires count > 0
    ensures k <= (DayOf(t) - anchor) / 7 / count <==> (anchor + k * count * 7) * DAY_MS <= t
  {
    var days := k * count * 7;
    QuotientReached(DayOf(t) - anchor, 7, count, k);
    QuotientAtLeast(t, DAY_MS, anchor + days);
    assert k * count * 7 <= DayOf(t) - anchor <==> anchor + days <= t / DAY_MS;
  }

  /**
    Windows tile time wherever `Date.UTC` does not remap the year, and only
    there: a month window whose own first year, or whose successor's, is
    written 0..99 is misplaced by 1900 years.
   */
  lemma WindowsTile(s: Spec, index: int)
    requires Valid(s)
    ensures TilesAt(s, index) <==> !Remapped(s, index) && !Remapped(s, index + 1)
  {
    if !Remapped(s, index) && !Remapped(s, index + 1) {
      forall t ensures WindowIndex(s, t) == index <==> WindowStart(s, index) <= t < WindowStart(s, index + 1) {
        WindowReached(s, index, t);
        WindowReached(s, index + 1, t);
      }
    } else {
      var t := MisplacedInstant(s, index);
    }
  }

  /** The first real instant of the remapped window betrays it. */
  lemma MisplacedInstant(s: Spec, index: int) returns (t: int)
    requires Valid(s) && (Remapped(s, index) || Remapped(s, index + 1))
    ensures !(WindowIndex(s, t) == index <==> WindowStart(s, index) <= t < WindowStart(s, index + 1))
  {
    if Remapped(s, index) {
      t := MonthStart(index * s.count);
      StartsLate(s, index);
    } else {
      t := MonthStart((index + 1) * s.count);
      StartsLate(s, index + 1);
      StartsBefore(s, index);
    }
  }

  lemma StartsLate(s: Spec, index: int)
    requires Valid(s) && Remapped(s, index)
    ensures WindowIndex(s, MonthStart(index * s.count)) == index
    ensures MonthStart(index * s.count) < WindowStart(s, index)
  {
    FirstInstantOf(s, index);
    MonthWindowStart(s, index);
    MonthStartsIncrease(index * s.count, index * s.count + 22_800);
  }

  lemma StartsBefore(s: Spec, index: int)
    requires Valid(s) && s.interval.Month? && !Remapped(s, index)
    ensures WindowStart(s, index) < MonthStart((index + 1) * s.count)
  {
    hide MonthStart;
    MonthWindowStart(s, index);
    assert (index + 1) * s.count == index * s.count + s.count;
    MonthStartsIncrease(index * s.count, (index + 1) * s.count);
  }

  lemma FirstInstantOf(s: Spec, index: int)
    requires s.count > 0 && s.interval.Month?
    ensures WindowIndex(s, MonthStart(index * s.count)) == index
  {
    MonthOfItsStart(index * s.count);
    DivIs(index * s.count, s.count, index, 0);
  }

  /** Later instants never fall in earlier windows, remapped years or not. */
  lemma WindowsMonotone(s: Spec, t1: int, t2: int)
    requires s.count > 0 && t1 <= t2
    ensures WindowIndex(s, t1) <= WindowIndex(s, t2)
  {
    var i := WindowIndex(s, t1);
    match s.interval
    case Minute => QuotientReached(t1, MINUTE_MS, s.count, i); QuotientReached(t2, MINUTE_MS, s.count, i);
    case Hour => QuotientReached(t1, HOUR_MS, s.count, i); QuotientReached(t2, HOUR_MS, s.count, i);
    case Day => QuotientReached(t1, DAY_MS, s.count, i); QuotientReached(t2, DAY_MS, s.count, i);
    case Week =>
      var anchor := WeekAnchorDayZero(s.on);
      QuotientReached(DayOf(t1) - anchor, 7, s.count, i);
      QuotientReached(DayOf(t2) - anchor, 7, s.count, i);
    case Month =>
      MonthReached(t1, MonthsSinceEpoch(t1));
      MonthReached(t2, MonthsSinceEpoch(t1));
      QuotientAtLeast(MonthsSinceEpoch(t1), s.count, i);
      QuotientAtLeast(MonthsSinceEpoch(t2), s.count, i);
  }

  /** Truncating an instant to whole seconds (as a snapshot name does) keeps its window. */
  lemma WindowIgnoresSubseconds(s: Spec, t: int)
    requires s.count > 0
    ensures WindowIndex(s, t / SECOND_MS * SECOND_MS) == WindowIndex(s, t)
  {
    UnitIgnoresSubseconds(t, 60);
    UnitIgnoresSubseconds(t, 3_600);
    UnitIgnoresSubseconds(t, 86_400);
  }

  // ---- anchors -------------------------------------------------------------

  /** The start of a window, had `Date.UTC` not remapped its year. */
  function PlainStart(s: Spec, index: int): int {
    if s.interval.Month? then MonthStart(index * s.count) else WindowStart(s, index)
  }

  /** An instant's window index has reached `index` exactly when the instant has reached its plain start. */
  lemma PlainReached(s: Spec, index: int, t: int)
    requires s.count > 0
    ensures index <= WindowIndex(s, t) <==> PlainStart(s, index) <= t
  {
    hide UtcDay, DayNumber, CivilOf;
    if s.interval.Month? {
      MonthReached(t, index * s.count);
      QuotientAtLeast(MonthsSinceEpoch(t), s.count, index);
    } else {
      WindowReached(s, index, t);
    }
  }

  /** How far an anchor lies after its window's start. */
  function AnchorOffset(s: Spec): int { WindowAnchor(s, 0) - WindowStart(s, 0) }

  lemma AnchorsAreOffset(s: Spec, index: int)
    requires Valid(s)
    ensures WindowAnchor(s, index) == WindowStart(s, index) + AnchorOffset(s) && AnchorOffset(s) >= 0
    ensures !Remapped(s, index) ==> WindowStart(s, index) == PlainStart(s, index)
    ensures Remapped(s, index) ==> WindowStart(s, index) == MonthStart(index * s.count + 22_800)
  {
    hide UtcDay, DayNumber;
    if s.interval.Month? { MonthWindowStart(s, index); }
  }

  /** A month's anchor is reached before the month after it. */
  lemma AnchorInMonth(s: Spec, months: int)
    requires Valid(s) && s.interval.Month?
    ensures MonthStart(months) <= MonthStart(months) + AnchorOffset(s) < MonthStart(months + 1)
  {
    hide MonthStart, WindowStart;
    MonthLength(months);
  }

  /**
    A window's anchor lies inside that window, exactly unless its year is
    remapped and the window is too short to hold the instant 1900 years later.
   */
  lemma AnchorInWindow(s: Spec, index: int)
    requires Valid(s)
    ensures WindowIndex(s, WindowAnchor(s, index)) == index <==> !Remapped(s, index) || s.count > 22_800
    ensures WindowIndex(s, WindowAnchor(s, index)) >= index
  {
    hide WindowStart, WindowAnchor, WindowIndex, MonthStart, AnchorOffset;
    var anchor := WindowAnchor(s, index);
    PlainReached(s, index, anchor);
    PlainReached(s, index + 1, anchor);
    if s.interval.Month? {
      MonthAnchor(s, index);
    } else {
      AnchorsAreOffset(s, index);
      FixedAnchor(s, index);
    }
  }

  lemma MonthAnchor(s: Spec, index: int)
    requires Valid(s) && s.interval.Month?
    ensures PlainStart(s, index) <= WindowAnchor(s, index)
    ensures WindowAnchor(s, index) < PlainStart(s, index + 1) <==> !Remapped(s, index) || s.count > 22_800
  {
    hide WindowStart, WindowAnchor, MonthStart, AnchorOffset, Remapped;
    AnchorsAreOffset(s, index);
    var here, next := index * s.count, (index + 1) * s.count;
    assert next == here + s.count;
    var first := if Remapped(s, index) then here + 22_800 else here;
    AnchorInMonth(s, first);
    if first + 1 < next { MonthStartsIncrease(first + 1, next); }
    if next < first { MonthStartsIncrease(next, first); }
    if here < first { MonthStartsIncrease(here, first); }
  }

  lemma FixedAnchor(s: Spec, index: int)
    requires Valid(s) && !s.interval.Month?
    ensures PlainStart(s, index) <= WindowAnchor(s, index) < PlainStart(s, index + 1)
  {
    assert (index + 1) * s.count == index * s.count + s.count;
  }

  lemma MonthLength(months: int)
    ensures MonthStart(months + 1) >= MonthStart(months) + 28 * DAY_MS
  {
    hide DayNumber;
    var year, month := 1970 + months / 12, months % 12;
    if month < 11 {
      DivIs(months + 1, 12, months / 12, month + 1);
    } else {
      DivIs(months + 1, 12, months / 12 + 1, 0);
      AfterDecember(year);
    }
    assert MonthStart(months + 1) == DayNumber(year, month + 1, 1) * DAY_MS;
    NextMonth(year, month);
  }

  lemma AfterDecember(year: int)
    ensures DayNumber(year, 12, 1) == DayNumber(year + 1, 0, 1)
  {
    hide DayFromYear;
    YearStep(year);
    MonthsFillYear(year);
    assert MonthOffset(year + 1, 0) == 0;
  }

  lemma NextMonth(year: int, month: int)
    requires 0 <= month < 12
    ensures DayNumber(year, month, 1) + 28 <= DayNumber(year, month + 1, 1)
  {
    hide DayFromYear, DaysInMonth;
    assert MonthOffset(year, month + 1) == MonthOffset(year, month) + DaysInMonth(year, month);
  }

  // ---- the next due instant ----------------------------------------------

  /** `due` is the least instant from `now` on at which a run is due. */
  ghost predicate IsLeastDue(s: Spec, newest: Option<int>, now: int, due: int)
    requires s.count > 0
  {
    now <= due && IsDue(s, newest, due) && forall t :: now <= t < due ==> !IsDue(s, newest, t)
  }

  /** The window whose anchor `NextDueAt` looks at: the current one, or the next when it is fulfilled. */
  function DueWindow(s: Spec, newest: Option<int>, now: int): int
    requires s.count > 0
  {
    var i := WindowIndex(s, now);
    if newest.Some? && WindowIndex(s, newest.value) == i then i + 1 else i
  }

  predicate AnchoredInside(s: Spec, index: int)
    requires s.count > 0
  {
    WindowIndex(s, WindowAnchor(s, index)) == index
  }

  /** Without backoff, `NextDueAt` is the least due instant whenever the anchor it looks at lies in its own window. */
  lemma NextDueIsLeast(s: Spec, newest: Option<int>, now: int)
    requires Valid(s) && AnchoredInside(s, DueWindow(s, newest, now))
    ensures IsLeastDue(s, newest, now, NextDueAt(s, newest, None, now))
  {
    hide WindowIndex, WindowAnchor;
    var r, due := DueWindow(s, newest, now), NextDueAt(s, newest, None, now);
    if due < now { WindowsMonotone(s, due, now); }
    forall t | now <= t < due ensures !IsDue(s, newest, t) {
      WindowsMonotone(s, now, t);
      WindowsMonotone(s, t, due);
    }
  }

  predicate Fulfilled(s: Spec, newest: Option<int>, index: int)
    requires s.count > 0
  {
    newest.Some? && WindowIndex(s, newest.value) == index
  }

  /**
    The anchor of window `index` is the least due instant from `from` on: it
    lies in its own window; or it is the very anchor of a window that is not
    fulfilled, and every window in between is remapped or fulfilled.
   */
  ghost predicate AnchorServes(s: Spec, newest: Option<int>, index: int, from: int)
    requires s.count > 0
  {
    var reached := WindowIndex(s, WindowAnchor(s, index));
    || reached == index
    || (&& WindowAnchor(s, reached) == WindowAnchor(s, index) && !Fulfilled(s, newest, reached)
        && forall m :: WindowIndex(s, from) <= m < reached && !Fulfilled(s, newest, m) ==> Remapped(s, m))
  }

  /** Without backoff, it is the least due instant exactly when the anchor it looks at serves. */
  lemma NextDueIsLeastExactly(s: Spec, newest: Option<int>, now: int)
    requires Valid(s)
    ensures IsLeastDue(s, newest, now, NextDueAt(s, newest, None, now)) <==> AnchorServes(s, newest, DueWindow(s, newest, now), now)
  {
    hide WindowIndex, WindowAnchor, Remapped, AnchorServes, IsLeastDue;
    var r := DueWindow(s, newest, now);
    if WindowIndex(s, WindowAnchor(s, r)) == r {
      NextDueIsLeast(s, newest, now);
      InsideServes(s, newest, r, now);
    } else {
      LateAnchor(s, newest, now);
      LateServesExactly(s, newest, now, now);
    }
  }

  lemma InsideServes(s: Spec, newest: Option<int>, index: int, from: int)
    requires s.count > 0 && AnchoredInside(s, index)
    ensures AnchorServes(s, newest, index, from)
  {
    hide WindowIndex, WindowAnchor, Remapped;
  }

  /** An anchor outside its window is later than now, and what `NextDueAt` names. */
  lemma LateAnchor(s: Spec, newest: Option<int>, now: int)
    requires Valid(s) && !AnchoredInside(s, DueWindow(s, newest, now))
    ensures var r := DueWindow(s, newest, now);
            && NextDueAt(s, newest, None, now) == WindowAnchor(s, r) && now < WindowAnchor(s, r)
            && r < WindowIndex(s, WindowAnchor(s, r)) && s.count <= 22_800
  {
    hide WindowIndex, WindowAnchor, Remapped;
    var r := DueWindow(s, newest, now);
    AnchorInWindow(s, r);
    if WindowAnchor(s, r) <= now { WindowsMonotone(s, WindowAnchor(s, r), now); }
  }

  lemma LateServesExactly(s: Spec, newest: Option<int>, now: int, from: int)
    requires Valid(s) && !AnchoredInside(s, DueWindow(s, newest, now)) && now <= from < NextDueAt(s, newest, None, now)
    ensures IsLeastDue(s, newest, from, NextDueAt(s, newest, None, now)) <==> AnchorServes(s, newest, DueWindow(s, newest, now), from)
  {
    hide WindowIndex, WindowAnchor, Remapped;
    var r := DueWindow(s, newest, now);
    LateAnchor(s, newest, now);
    var due := WindowAnchor(s, r);
    var reached := WindowIndex(s, due);
    WindowsMonotone(s, from, due);
    if AnchorServes(s, newest, r, from) {
      forall t | from <= t < due ensures !IsDue(s, newest, t) {
        WindowsMonotone(s, from, t);
        WindowsMonotone(s, t, due);
        var m := WindowIndex(s, t);
        if m < reached && !Fulfilled(s, newest, m) { RemappedIsNotDue(s, newest, t); }
      }
    } else if IsLeastDue(s, newest, from, due) {
      AnchorInWindow(s, reached);
      WindowsMonotone(s, WindowAnchor(s, reached), due);
      var u := OpenWindow(s, newest, from, reached);
      forall m | WindowIndex(s, from) <= m < reached && !Fulfilled(s, newest, m) ensures Remapped(s, m) {
        if !Remapped(s, m) {
          AnchorInWindow(s, m);
          var t := OpenWindow(s, newest, from, m);
          if due <= t { WindowsMonotone(s, due, t); }
        }
      }
    }
  }

  /** A window that is not fulfilled and holds its anchor has a due instant. */
  lemma OpenWindow(s: Spec, newest: Option<int>, from: int, index: int) returns (t: int)
    requires Valid(s) && AnchoredInside(s, index) && WindowIndex(s, from) <= index && !Fulfilled(s, newest, index)
    ensures from <= t && WindowAnchor(s, index) <= t && WindowIndex(s, t) == index && IsDue(s, newest, t)
    ensures t == from || t == WindowAnchor(s, index)
  {
    hide WindowIndex, WindowAnchor;
    t := WindowAnchor(s, index);
    if t < from {
      WindowsMonotone(s, t, from);
      t := from;
    }
  }

  /** In a short remapped window nothing is ever due. */
  lemma RemappedIsNotDue(s: Spec, newest: Option<int>, t: int)
    requires Valid(s) && Remapped(s, WindowIndex(s, t)) && s.count <= 22_800
    ensures !IsDue(s, newest, t)
  {
    hide WindowIndex, WindowAnchor, Remapped;
    var m := WindowIndex(s, t);
    AnchorInWindow(s, m);
    if WindowAnchor(s, m) <= t { WindowsMonotone(s, WindowAnchor(s, m), t); }
  }

  /** Monthly from the year 99: the window of January 100 comes first, but `NextDueAt` names December 1999. */
  lemma RemappedDueIsLate()
    ensures var s := Spec(Month, 1, 0, 0, 0, 1); var now := MonthStart(-22_441);
            Valid(s) && Remapped(s, DueWindow(s, None, now)) && !IsLeastDue(s, None, now, NextDueAt(s, None, None, now))
  {
    hide WindowIndex, WindowAnchor, MonthStart, WindowStart, AnchorOffset;
    var s, now := Spec(Month, 1, 0, 0, 0, 1), MonthStart(-22_441);
    FirstInstantOf(s, -22_441);
    FirstInstantOf(s, 359);
    NoOffset(s);
    AnchorsAreOffset(s, -22_441);
    assert Remapped(s, -22_441) && !Remapped(s, 358);
    NextDueIsLeastExactly(s, None, now);
    NothingServes(s, now);
  }

  lemma NothingServes(s: Spec, now: int)
    requires Valid(s) && WindowIndex(s, now) <= 358 && !Remapped(s, 358)
    requires WindowIndex(s, WindowAnchor(s, WindowIndex(s, now))) == 359
    ensures !AnchorServes(s, None, WindowIndex(s, now), now)
  {
    hide WindowIndex, WindowAnchor, Remapped;
  }

  lemma NoOffset(s: Spec)
    requires s.hour == 0 && s.minute == 0 && s.dayOfMonth == 1
    ensures AnchorOffset(s) == 0
  {
    hide WindowStart;
  }

  // ---- with backoff --------------------------------------------------------

  /** `due` is the least instant from `now` on at which the backoff is over and a run is due. */
  ghost predicate IsLeastOpen(s: Spec, newest: Option<int>, until: int, now: int, due: int)
    requires s.count > 0
  {
    && now <= due && until <= due && IsDue(s, newest, due)
    && forall t :: now <= t < due && until <= t ==> !IsDue(s, newest, t)
  }

  /**
    With backoff, `NextDueAt` names the least instant at which the gate opens
    exactly when the backoff ends earlier than the next due instant and the
    anchor looked at serves from then on, or at an instant at which a run is due.
   */
  lemma NextDueWithBackoff(s: Spec, newest: Option<int>, until: int, now: int)
    requires Valid(s)
    ensures IsLeastOpen(s, newest, until, now, NextDueAt(s, newest, Some(until), now)) <==>
              if until >= NextDueAt(s, newest, None, now) then IsDue(s, newest, until)
              else AnchorServes(s, newest, DueWindow(s, newest, now), if until < now then now else until)
  {
    hide IsDue, WindowIndex, WindowAnchor, AnchorServes;
    var r, due := DueWindow(s, newest, now), NextDueAt(s, newest, None, now);
    var from := if until < now then now else until;
    if AnchoredInside(s, r) {
      NextDueIsLeast(s, newest, now);
      InsideServes(s, newest, r, from);
    } else {
      LateAnchor(s, newest, now);
      if until < due { LateServesExactly(s, newest, now, from); }
    }
  }

  /** A backoff that ends before the next day's anchor: `NextDueAt` names its end, at which nothing is due. */
  lemma BackoffEndsBeforeAnchor()
    ensures var s := Spec(Day, 1, 12, 0, 0, 1); var now := DAY_MS + 23 * HOUR_MS; var until := 2 * DAY_MS + 3 * HOUR_MS;
            Valid(s) && NextDueAt(s, None, Some(until), now) == until && !IsDue(s, None, until)
  {
  }

  /** The scheduler's gate (not backed off, and due) opens exactly when the next due instant is now, remapped years included. */
  lemma DueNowIffNextDueIsNow(s: Spec, newest: Option<int>, until: Option<int>, now: int)
    requires Valid(s)
    ensures NextDueAt(s, newest, until, now) == now <==>
            (until.Some? ==> until.value <= now) && IsDue(s, newest, now)
  {
    hide WindowIndex, WindowAnchor;
    AnchorInWindow(s, WindowIndex(s, now) + 1);
    var next := WindowAnchor(s, WindowIndex(s, now) + 1);
    if next <= now { WindowsMonotone(s, next, now); }
  }
}
