/**
  What the five tiers of the retention policy mean: their keys are hours, days,
  Monday-start weeks, months and years, and each count keeps the newest
  snapshot of that many of its own periods (src/retention/retention.ts:31-66, 133-170).
 */
module Periods {
  import opened Prelude
  import opened Calendar
  import opened SnapshotName
  import IsoWeek
  import opened Retention
  import RetentionPlan

  /** The period of a tier that an instant falls in, counted from the epoch. */
  function Period(tier: Tier, t: int): int {
    match tier
    case Hourly => t / 3_600_000
    case Daily => t / 86_400_000
    case Weekly => (t / 86_400_000 + 3) / 7
    case Monthly => YearOf(t) * 12 + CivilOf(DayOf(t)).month
    case Yearly => YearOf(t)
  }

  /** The instants snapshots are named for. */
  predicate Nameworthy(t: int) { 100 <= YearOf(t) <= 9999 }

  // ---- keys ----------------------------------------------------------------

  /** The key is spelt by the calendar fields, as the snapshot's name is. */
  lemma {:induction false} KeysAreSpelt(t: int)
    requires Nameworthy(t)
    ensures var c := CivilOf(DayOf(t)); var hour := t / HOUR_MS % 24;
            && c.month + 1 < 100 && c.day < 100
            && IsoWeek.YearlyBucket(t) == D4(c.year)
            && IsoWeek.MonthlyBucket(t) == D4(c.year) + "-" + D2(c.month + 1)
            && IsoWeek.DailyBucket(t) == D4(c.year) + "-" + D2(c.month + 1) + "-" + D2(c.day)
            && IsoWeek.HourlyBucket(t) == D4(c.year) + "-" + D2(c.month + 1) + "-" + D2(c.day) + "T" + D2(hour)
  {
    hide CivilOf, Pad, D4, D2;
    var c := CivilOf(DayOf(t));
    Pad4(c.year);
    Pad2(c.month + 1);
    Pad2(c.day);
    Pad2(t / HOUR_MS % 24);
  }

  /** Yearly, monthly, daily and hourly keys are what the snapshot's own name begins with. */
  lemma {:induction false} KeysArePrefixes(t: int)
    requires Nameworthy(t)
    ensures |Format(t)| == 18
    ensures Format(t)[..4] == Bucket(Yearly, t) && Format(t)[..7] == Bucket(Monthly, t)
    ensures Format(t)[..10] == Bucket(Daily, t) && Format(t)[..13] == Bucket(Hourly, t)
  {
    hide CivilOf, Pad, D4, D2, Format;
    FormatIsStamp(t);
    KeysAreSpelt(t);
    var f := FieldsOf(t);
    var rest := D2(f.minute) + D2(f.second) + "Z";
    assert Stamp(f) == Bucket(Hourly, t) + rest;
    assert Bucket(Hourly, t) == Bucket(Daily, t) + ("T" + D2(f.hour));
    assert Bucket(Daily, t) == Bucket(Monthly, t) + ("-" + D2(f.day));
    assert Bucket(Monthly, t) == Bucket(Yearly, t) + ("-" + D2(f.month));
  }

  /** A reason spells its tier, and the period as the snapshot's name does - the week as ISO does. */
  lemma {:induction false} ReasonsAreSpelt(t: int)
    requires Nameworthy(t)
    ensures |Format(t)| == 18
    ensures Prefix(Hourly) + Bucket(Hourly, t) == "hourly=" + Format(t)[..13]
    ensures Prefix(Daily) + Bucket(Daily, t) == "daily=" + Format(t)[..10]
    ensures Prefix(Monthly) + Bucket(Monthly, t) == "monthly=" + Format(t)[..7]
    ensures Prefix(Yearly) + Bucket(Yearly, t) == "yearly=" + Format(t)[..4]
    ensures Prefix(Weekly) == "weekly="
  {
    hide Format, Bucket;
    KeysArePrefixes(t);
  }

  /** Every reason there is, in the order they are given: a snapshot alone under rules that all keep one. */
  lemma {:induction false} AllReasons(t: int)
    requires Nameworthy(t)
    ensures |Format(t)| == 18
    ensures RetentionPlan.Reasons({t}, Some(Rules(Some(1), Some(1), Some(1), Some(1), Some(1), Some(1))), t) ==
            ["newest", "last", "hourly=" + Format(t)[..13], "daily=" + Format(t)[..10], "weekly=" + Bucket(Weekly, t),
             "monthly=" + Format(t)[..7], "yearly=" + Format(t)[..4]]
    ensures RetentionPlan.Reasons({t}, None, t) == ["newest", "keep-all"]
  {
    hide Format, Bucket, TierKeeps;
    var r := Rules(Some(1), Some(1), Some(1), Some(1), Some(1), Some(1));
    ReasonsAreSpelt(t);
    assert Newer({t}, t) == {};
    forall tier ensures TierKeeps({t}, tier, TierCount(r, tier), t) { AloneIsKept(tier, t); }
    FiveReasons({t}, r, t);
  }

  lemma AloneIsKept(tier: Tier, t: int)
    ensures TierKeeps({t}, tier, 1, t)
  {
    hide Bucket;
    assert NewerBuckets({t}, tier, t) == {};
  }

  lemma {:induction false} FiveReasons(snaps: set<int>, r: Rules, t: int)
    requires forall tier :: TierKeeps(snaps, tier, TierCount(r, tier), t)
    ensures RetentionPlan.TierReasons(snaps, r, 5, t) ==
            [Prefix(Hourly) + Bucket(Hourly, t), Prefix(Daily) + Bucket(Daily, t), Prefix(Weekly) + Bucket(Weekly, t),
             Prefix(Monthly) + Bucket(Monthly, t), Prefix(Yearly) + Bucket(Yearly, t)]
  {
    hide Bucket, TierKeeps, TierCount;
    assert TIERS == [Hourly, Daily, Weekly, Monthly, Yearly];
    assert RetentionPlan.TierReasons(snaps, r, 0, t) == [];
    assert RetentionPlan.TierReasons(snaps, r, 1, t) == [Prefix(Hourly) + Bucket(Hourly, t)];
    assert RetentionPlan.TierReasons(snaps, r, 2, t) == [Prefix(Hourly) + Bucket(Hourly, t), Prefix(Daily) + Bucket(Daily, t)];
    assert RetentionPlan.TierReasons(snaps, r, 3, t) ==
      [Prefix(Hourly) + Bucket(Hourly, t), Prefix(Daily) + Bucket(Daily, t), Prefix(Weekly) + Bucket(Weekly, t)];
  }

  lemma {:induction false} SplitKeys(a: string, b: string, sep: char, m: int, n: int)
    requires |a| == |b| && 0 <= m < 100 && 0 <= n < 100
    ensures a + [sep] + D2(m) == b + [sep] + D2(n) <==> a == b && m == n
  {
    hide D2;
    LexD2(m, n);
    if a + [sep] + D2(m) == b + [sep] + D2(n) {
      assert a == (a + [sep] + D2(m))[..|a|] && b == (b + [sep] + D2(n))[..|a|];
      assert D2(m) == (a + [sep] + D2(m))[|a| + 1..] && D2(n) == (b + [sep] + D2(n))[|a| + 1..];
    }
  }

  lemma KeysByTier()
    ensures forall v :: Bucket(Yearly, v) == IsoWeek.YearlyBucket(v) && Bucket(Monthly, v) == IsoWeek.MonthlyBucket(v)
  {
    hide IsoWeek.MonthlyBucket, IsoWeek.YearlyBucket;
  }

  lemma {:induction false} SameMonthlyKey(t: int, u: int)
    requires Nameworthy(t) && Nameworthy(u)
    ensures Bucket(Yearly, t) == Bucket(Yearly, u) <==> YearOf(t) == YearOf(u)
    ensures Bucket(Monthly, t) == Bucket(Monthly, u) <==>
              YearOf(t) == YearOf(u) && CivilOf(DayOf(t)).month == CivilOf(DayOf(u)).month
  {
    hide CivilOf, Pad, D4, D2, LexLess, DaysInMonth, Bucket;
    assert forall v :: Bucket(Yearly, v) == IsoWeek.YearlyBucket(v) && Bucket(Monthly, v) == IsoWeek.MonthlyBucket(v) by { KeysByTier(); }
    KeysAreSpelt(t);
    KeysAreSpelt(u);
    LexD4(YearOf(t), YearOf(u));
    var a, b := CivilOf(DayOf(t)), CivilOf(DayOf(u));
    SplitKeys(D4(a.year), D4(b.year), '-', a.month + 1, b.month + 1);
  }

  lemma {:induction false} SameDailyKey(t: int, u: int)
    requires Nameworthy(t) && Nameworthy(u)
    ensures Bucket(Daily, t) == Bucket(Daily, u) <==> CivilOf(DayOf(t)) == CivilOf(DayOf(u))
    ensures Bucket(Hourly, t) == Bucket(Hourly, u) <==>
              CivilOf(DayOf(t)) == CivilOf(DayOf(u)) && t / HOUR_MS % 24 == u / HOUR_MS % 24
  {
    hide CivilOf, Pad, D4, D2;
    KeysAreSpelt(t);
    KeysAreSpelt(u);
    SameMonthlyKey(t, u);
    var a, b := CivilOf(DayOf(t)), CivilOf(DayOf(u));
    SplitKeys(Bucket(Monthly, t), Bucket(Monthly, u), '-', a.day, b.day);
    SplitKeys(Bucket(Daily, t), Bucket(Daily, u), 'T', t / HOUR_MS % 24, u / HOUR_MS % 24);
  }

  lemma {:induction false} CivilIsDay(t: int, u: int)
    ensures CivilOf(DayOf(t)) == CivilOf(DayOf(u)) <==> DayOf(t) == DayOf(u)
  {
    hide DayNumber;
    var a, b := CivilOf(DayOf(t)), CivilOf(DayOf(u));
    assert DayNumber(a.year, a.month, a.day) == DayOf(t) && DayNumber(b.year, b.month, b.day) == DayOf(u);
  }

  lemma {:induction false} HourOfDay(t: int)
    ensures t / HOUR_MS == DayOf(t) * 24 + t / HOUR_MS % 24
  {
    var h := t / HOUR_MS;
    assert t / DAY_MS == h / 24;
  }

  /** Two snapshots share a tier's key exactly when they fall in the same hour, day, Monday-start week, month or year. */
  lemma {:induction false} SameKey(tier: Tier, t: int, u: int)
    requires Nameworthy(t) && Nameworthy(u)
    ensures Bucket(tier, t) == Bucket(tier, u) <==> Period(tier, t) == Period(tier, u)
  {
    hide CivilOf, IsoWeek.HourlyBucket, IsoWeek.DailyBucket, IsoWeek.MonthlyBucket, IsoWeek.YearlyBucket, IsoWeek.WeeklyBucket;
    match tier
    case Weekly => IsoWeek.SameWeeklyKey(t, u);
    case Yearly => SameMonthlyKey(t, u);
    case Monthly => SameMonthlyKey(t, u);
    case Daily =>
      SameDailyKey(t, u);
      CivilIsDay(t, u);
    case Hourly =>
      SameDailyKey(t, u);
      CivilIsDay(t, u);
      HourOfDay(t);
      HourOfDay(u);
  }

  // ---- what each count keeps -----------------------------------------------

  /** Rules with one tier on, and no other. */
  function OnlyTier(tier: Tier, n: int): Rules {
    match tier
    case Hourly => Rules(None, Some(n), None, None, None, None)
    case Daily => Rules(None, None, Some(n), None, None, None)
    case Weekly => Rules(None, None, None, Some(n), None, None)
    case Monthly => Rules(None, None, None, None, Some(n), None)
    case Yearly => Rules(None, None, None, None, None, Some(n))
  }

  /** The periods of the snapshots newer than `t`. */
  ghost function NewerPeriods(snaps: set<int>, tier: Tier, t: int): set<int> {
    set u | u in snaps && u > t :: Period(tier, u)
  }

  /** `t` is the newest snapshot of its period, and fewer than `n` periods have newer ones. */
  ghost predicate NewestOfRecent(snaps: set<int>, tier: Tier, n: int, t: int) {
    (forall u :: u in snaps && u > t ==> Period(tier, u) != Period(tier, t)) && |NewerPeriods(snaps, tier, t)| < n
  }

  ghost predicate AllNameworthy(snaps: set<int>) { forall t :: t in snaps ==> Nameworthy(t) }

  ghost function KeysOf(snaps: set<int>, tier: Tier): set<string> { set u | u in snaps :: Bucket(tier, u) }

  ghost function PeriodsOf(snaps: set<int>, tier: Tier): set<int> { set u | u in snaps :: Period(tier, u) }

  lemma {:induction false} OneMoreKey(snaps: set<int>, tier: Tier, x: int)
    requires x in snaps
    ensures KeysOf(snaps, tier) == KeysOf(snaps - {x}, tier) + {Bucket(tier, x)}
    ensures PeriodsOf(snaps, tier) == PeriodsOf(snaps - {x}, tier) + {Period(tier, x)}
  {
    hide Bucket, Period;
    forall u | u in snaps ensures u in snaps - {x} || u == x { }
  }

  lemma {:induction false} KeyIsNew(snaps: set<int>, tier: Tier, x: int)
    requires AllNameworthy(snaps) && Nameworthy(x)
    ensures Bucket(tier, x) in KeysOf(snaps, tier) <==> Period(tier, x) in PeriodsOf(snaps, tier)
  {
    hide Bucket, Period, Nameworthy;
    forall u | u in snaps ensures Bucket(tier, u) == Bucket(tier, x) <==> Period(tier, u) == Period(tier, x) {
      SameKey(tier, u, x);
    }
  }

  /** As many keys as periods. */
  lemma {:induction false} KeysCountPeriods(snaps: set<int>, tier: Tier)
    requires AllNameworthy(snaps)
    ensures |KeysOf(snaps, tier)| == |PeriodsOf(snaps, tier)|
    decreases snaps
  {
    hide Bucket, Period, Nameworthy;
    if x :| x in snaps {
      hide KeysOf, PeriodsOf;
      KeysCountPeriods(snaps - {x}, tier);
      OneMoreKey(snaps, tier, x);
      KeyIsNew(snaps - {x}, tier, x);
    } else {
      assert KeysOf(snaps, tier) == {} && PeriodsOf(snaps, tier) == {};
    }
  }

  /** A tier keeps exactly the newest snapshot of each of its `n` most recent periods. */
  lemma {:induction false} TierMeans(snaps: set<int>, tier: Tier, n: nat, t: int)
    requires AllNameworthy(snaps) && t in snaps
    ensures TierKeeps(snaps, tier, n, t) <==> NewestOfRecent(snaps, tier, n, t)
  {
    hide Bucket, Period, Nameworthy;
    var newer := set u | u in snaps && u > t;
    KeysCountPeriods(newer, tier);
    assert NewerBuckets(snaps, tier, t) == KeysOf(newer, tier);
    assert NewerPeriods(snaps, tier, t) == PeriodsOf(newer, tier);
    forall u | u in snaps && u > t ensures Bucket(tier, u) == Bucket(tier, t) <==> Period(tier, u) == Period(tier, t) {
      SameKey(tier, u, t);
    }
  }

  /**
    With one tier on, the policy keeps the newest snapshot, and the newest of
    each of the tier's `n` most recent periods; a count of zero or less keeps
    the newest snapshot alone.
   */
  lemma {:induction false} OneTierKeeps(snaps: set<int>, tier: Tier, n: int, t: int)
    requires AllNameworthy(snaps) && t in snaps
    ensures t in Kept(snaps, Some(OnlyTier(tier, n))) <==>
              (forall u :: u in snaps ==> u <= t) || NewestOfRecent(snaps, tier, n, t)
  {
    hide Bucket, Period, Nameworthy;
    TierMeans(snaps, tier, if n > 0 then n else 0, t);
    AloneKeeps(snaps, tier, n, t);
  }

  lemma {:induction false} NewestIsNewerThanAll(snaps: set<int>, t: int)
    ensures Newer(snaps, t) == {} <==> forall u :: u in snaps ==> u <= t
  {
    if exists u :: u in snaps && u > t {
      var u :| u in snaps && u > t;
      assert u in Newer(snaps, t);
    }
  }

  lemma {:induction false} AloneKeeps(snaps: set<int>, tier: Tier, n: int, t: int)
    requires t in snaps
    ensures t in Kept(snaps, Some(OnlyTier(tier, n))) <==>
              (forall u :: u in snaps ==> u <= t) || TierKeeps(snaps, tier, if n > 0 then n else 0, t)
  {
    hide TierKeeps, AmongNewest, Newer;
    var r := OnlyTier(tier, n);
    NewestIsNewerThanAll(snaps, t);
    OffKeepsNothing(snaps, t);
    forall other | other != tier ensures TierCount(r, other) == 0 { }
    assert TierCount(r, tier) == if n > 0 then n else 0;
  }

  /** With `keepLast` alone it keeps the newest `n`. */
  lemma {:induction false} LastKeeps(snaps: set<int>, n: int, t: int)
    requires t in snaps
    ensures t in Kept(snaps, Some(Rules(Some(n), None, None, None, None, None))) <==>
              (forall u :: u in snaps ==> u <= t) || |set u | u in snaps && u > t| < n
  {
    hide TierKeeps;
    assert Newer(snaps, t) == set u | u in snaps && u > t;
    NewestIsNewerThanAll(snaps, t);
    OffKeepsNothing(snaps, t);
  }

  /** Rules keep what each of their counts would keep alone. */
  lemma {:induction false} RulesAddUp(snaps: set<int>, r: Rules, t: int)
    requires t in snaps
    ensures t in Kept(snaps, Some(r)) <==>
              || (forall u :: u in snaps ==> u <= t)
              || (r.keepLast.Some? && t in Kept(snaps, Some(Rules(r.keepLast, None, None, None, None, None))))
              || (r.keepHourly.Some? && t in Kept(snaps, Some(OnlyTier(Hourly, r.keepHourly.value))))
              || (r.keepDaily.Some? && t in Kept(snaps, Some(OnlyTier(Daily, r.keepDaily.value))))
              || (r.keepWeekly.Some? && t in Kept(snaps, Some(OnlyTier(Weekly, r.keepWeekly.value))))
              || (r.keepMonthly.Some? && t in Kept(snaps, Some(OnlyTier(Monthly, r.keepMonthly.value))))
              || (r.keepYearly.Some? && t in Kept(snaps, Some(OnlyTier(Yearly, r.keepYearly.value))))
  {
    hide TierKeeps, Newer, AmongNewest, TierCount, Keeps;
    NewestIsNewerThanAll(snaps, t);
    OffKeepsNothing(snaps, t);
    KeptByParts(snaps, r, t);
    LastAlone(snaps, r.keepLast, t);
    if r.keepHourly.Some? { AloneKeeps(snaps, Hourly, r.keepHourly.value, t); }
    if r.keepDaily.Some? { AloneKeeps(snaps, Daily, r.keepDaily.value, t); }
    if r.keepWeekly.Some? { AloneKeeps(snaps, Weekly, r.keepWeekly.value, t); }
    if r.keepMonthly.Some? { AloneKeeps(snaps, Monthly, r.keepMonthly.value, t); }
    if r.keepYearly.Some? { AloneKeeps(snaps, Yearly, r.keepYearly.value, t); }
  }

  lemma {:induction false} KeptByParts(snaps: set<int>, r: Rules, t: int)
    requires t in snaps
    ensures t in Kept(snaps, Some(r)) <==>
              || Newer(snaps, t) == {} || AmongNewest(snaps, Count(r.keepLast), t)
              || TierKeeps(snaps, Hourly, Count(r.keepHourly), t) || TierKeeps(snaps, Daily, Count(r.keepDaily), t)
              || TierKeeps(snaps, Weekly, Count(r.keepWeekly), t) || TierKeeps(snaps, Monthly, Count(r.keepMonthly), t)
              || TierKeeps(snaps, Yearly, Count(r.keepYearly), t)
  {
    hide TierKeeps, Newer, AmongNewest, Count;
    assert forall tier :: TierKeeps(snaps, tier, TierCount(r, tier), t) ==>
      || TierKeeps(snaps, Hourly, Count(r.keepHourly), t) || TierKeeps(snaps, Daily, Count(r.keepDaily), t)
      || TierKeeps(snaps, Weekly, Count(r.keepWeekly), t) || TierKeeps(snaps, Monthly, Count(r.keepMonthly), t)
      || TierKeeps(snaps, Yearly, Count(r.keepYearly), t);
    assert TierCount(r, Hourly) == Count(r.keepHourly) && TierCount(r, Daily) == Count(r.keepDaily);
    assert TierCount(r, Weekly) == Count(r.keepWeekly) && TierCount(r, Monthly) == Count(r.keepMonthly);
    assert TierCount(r, Yearly) == Count(r.keepYearly);
  }

  lemma {:induction false} LastAlone(snaps: set<int>, n: Option<int>, t: int)
    requires t in snaps
    ensures t in Kept(snaps, Some(Rules(n, None, None, None, None, None))) <==>
              Newer(snaps, t) == {} || AmongNewest(snaps, Count(n), t)
  {
    hide TierKeeps, Newer, AmongNewest;
    OffKeepsNothing(snaps, t);
  }

  lemma OffKeepsNothing(snaps: set<int>, t: int)
    ensures forall tier :: !TierKeeps(snaps, tier, 0, t)
    ensures !AmongNewest(snaps, 0, t)
  {
    hide Bucket;
  }
}
