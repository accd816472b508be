/**
  The grandfather-father-son retention planner (src/retention/retention.ts):
  the policy as sets of instants, and its confluence. RetentionPlan has the walk.
 */
module Retention {
  import opened Prelude
  import IsoWeek

  /** `RetentionRules`: every count is optional. */
  datatype Rules = Rules(
    keepLast: Option<int>, keepHourly: Option<int>, keepDaily: Option<int>,
    keepWeekly: Option<int>, keepMonthly: Option<int>, keepYearly: Option<int>)

  datatype Tier = Hourly | Daily | Weekly | Monthly | Yearly

  const TIERS: seq<Tier> := [Hourly, Daily, Weekly, Monthly, Yearly]

  /** A configured count; absent and non-positive counts switch the rule off. */
  function Count(count: Option<int>): nat {
    if count.Some? && count.value > 0 then count.value else 0
  }

  function TierCount(rules: Rules, tier: Tier): nat {
    match tier
    case Hourly => Count(rules.keepHourly)
    case Daily => Count(rules.keepDaily)
    case Weekly => Count(rules.keepWeekly)
    case Monthly => Count(rules.keepMonthly)
    case Yearly => Count(rules.keepYearly)
  }

  function Bucket(tier: Tier, t: int): string {
    match tier
    case Hourly => IsoWeek.HourlyBucket(t)
    case Daily => IsoWeek.DailyBucket(t)
    case Weekly => IsoWeek.WeeklyBucket(t)
    case Monthly => IsoWeek.MonthlyBucket(t)
    case Yearly => IsoWeek.YearlyBucket(t)
  }

  function Prefix(tier: Tier): string {
    match tier
    case Hourly => "hourly="
    case Daily => "daily="
    case Weekly => "weekly="
    case Monthly => "monthly="
    case Yearly => "yearly="
  }

  // ---- the policy on a set of snapshot instants ----------------------------

  ghost function Newer(snaps: set<int>, t: int): set<int> {
    set u | u in snaps && u > t
  }

  ghost function NewerBuckets(snaps: set<int>, tier: Tier, t: int): set<string> {
    set u | u in snaps && u > t :: Bucket(tier, u)
  }

  /** `t` is the newest member of one of the tier's `n` most recent distinct buckets. */
  ghost predicate TierKeeps(snaps: set<int>, tier: Tier, n: nat, t: int) {
    Bucket(tier, t) !in NewerBuckets(snaps, tier, t) && |NewerBuckets(snaps, tier, t)| < n
  }

  /** `t` is among the `n` newest snapshots. */
  ghost predicate AmongNewest(snaps: set<int>, n: nat, t: int) {
    |Newer(snaps, t)| < n
  }

  ghost predicate Keeps(snaps: set<int>, rules: Option<Rules>, t: int) {
    match rules
    case None => true
    case Some(r) =>
      || Newer(snaps, t) == {}
      || AmongNewest(snaps, Count(r.keepLast), t)
      || exists tier :: TierKeeps(snaps, tier, TierCount(r, tier), t)
  }

  /** What a retention plan over `snaps` keeps. */
  ghost function Kept(snaps: set<int>, rules: Option<Rules>): set<int> {
    set t | t in snaps && Keeps(snaps, rules, t)
  }

  // ---- confluence ----------------------------------------------------------

  /** The newest member of a bucket that some instant newer than `t` belongs to. */
  lemma {:induction false} NewestOfBucket(snaps: set<int>, tier: Tier, bucket: string, t: int) returns (z: int)
    requires bucket in NewerBuckets(snaps, tier, t)
    ensures z in snaps && z > t && Bucket(tier, z) == bucket
    ensures bucket !in NewerBuckets(snaps, tier, z)
    decreases |Newer(snaps, t)|
  {
    hide Bucket;
    var u :| u in snaps && u > t && Bucket(tier, u) == bucket;
    if bucket in NewerBuckets(snaps, tier, u) {
      assert Newer(snaps, u) < Newer(snaps, t) by { assert u in Newer(snaps, t); }
      SubsetSize(Newer(snaps, u), Newer(snaps, t));
      z := NewestOfBucket(snaps, tier, bucket, u);
    } else {
      z := u;
    }
  }

  /** Any subset holding everything a tier keeps shows that tier the same recent buckets. */
  lemma {:induction false} RecentBucketsSurvive(snaps: set<int>, kept: set<int>, tier: Tier, n: nat, t: int)
    requires kept <= snaps && forall u :: u in snaps && TierKeeps(snaps, tier, n, u) ==> u in kept
    ensures |NewerBuckets(snaps, tier, t)| <= n ==> NewerBuckets(kept, tier, t) == NewerBuckets(snaps, tier, t)
    ensures |NewerBuckets(snaps, tier, t)| > n ==> |NewerBuckets(kept, tier, t)| >= n
    decreases |Newer(snaps, t)|
  {
    hide Bucket;
    if |NewerBuckets(snaps, tier, t)| <= n {
      forall bucket | bucket in NewerBuckets(snaps, tier, t) ensures bucket in NewerBuckets(kept, tier, t) {
        var z := NewestOfBucket(snaps, tier, bucket, t);
        assert NewerBuckets(snaps, tier, z) <= NewerBuckets(snaps, tier, t) - {bucket};
        SubsetSize(NewerBuckets(snaps, tier, z), NewerBuckets(snaps, tier, t) - {bucket});
      }
    } else {
      var z := OldestNewer(snaps, tier, t);
      assert Newer(snaps, z) == Newer(snaps, t) - {z};
      var rest := NewerBuckets(snaps, tier, z);
      assert NewerBuckets(snaps, tier, t) <= rest + {Bucket(tier, z)} by {
        forall u | u in snaps && u > t ensures Bucket(tier, u) in rest + {Bucket(tier, z)} {
          assert u in Newer(snaps, t);
        }
      }
      SubsetSize(NewerBuckets(snaps, tier, t), rest + {Bucket(tier, z)});
      RecentBucketsSurvive(snaps, kept, tier, n, z);
      SubsetSize(NewerBuckets(kept, tier, z), NewerBuckets(kept, tier, t));
    }
  }

  lemma {:induction false} OldestNewer(snaps: set<int>, tier: Tier, t: int) returns (z: int)
    requires NewerBuckets(snaps, tier, t) != {}
    ensures z in Newer(snaps, t) && forall u :: u in Newer(snaps, t) ==> z <= u
  {
    var bucket :| bucket in NewerBuckets(snaps, tier, t);
    var u :| u in snaps && u > t && Bucket(tier, u) == bucket;
    z := Least(Newer(snaps, t), u);
  }

  lemma {:induction false} Least(s: set<int>, some: int) returns (z: int)
    requires some in s
    ensures z in s && forall u :: u in s ==> z <= u
    decreases s
  {
    if u :| u in s && u < some {
      z := Least(s - {some}, u);
      assert z <= u < some;
      assert s == s - {some} + {some};
    } else {
      z := some;
    }
  }

  /** The same for counting: a subset holding the `n` newest still has them. */
  lemma {:induction false} RecentSurvive(snaps: set<int>, kept: set<int>, n: nat, t: int)
    requires kept <= snaps && forall u :: u in snaps && AmongNewest(snaps, n, u) ==> u in kept
    ensures |Newer(snaps, t)| <= n ==> Newer(kept, t) == Newer(snaps, t)
    ensures |Newer(snaps, t)| > n ==> |Newer(kept, t)| >= n
    decreases |Newer(snaps, t)|
  {
    if |Newer(snaps, t)| <= n {
      forall u | u in Newer(snaps, t) ensures u in kept {
        SubsetSize(Newer(snaps, u), Newer(snaps, t) - {u});
      }
    } else {
      var some :| some in Newer(snaps, t);
      var z := Least(Newer(snaps, t), some);
      assert Newer(snaps, z) == Newer(snaps, t) - {z};
      RecentSurvive(snaps, kept, n, z);
      SubsetSize(Newer(kept, z), Newer(kept, t));
    }
  }

  /** One tier judges an older snapshot alike after a newer arrival, whether or not pruning came between. */
  lemma {:induction false} TierIgnoresPruning(snaps: set<int>, kept: set<int>, arrived: set<int>, tier: Tier, n: nat, t: int)
    requires kept <= snaps && forall u :: u in snaps && TierKeeps(snaps, tier, n, u) ==> u in kept
    requires forall a :: a in arrived ==> forall s :: s in snaps ==> s < a
    requires t in snaps
    ensures TierKeeps(snaps + arrived, tier, n, t) <==> t in kept && TierKeeps(kept + arrived, tier, n, t)
  {
    hide Bucket;
    var added := set a | a in arrived :: Bucket(tier, a);
    var all, some := NewerBuckets(snaps, tier, t), NewerBuckets(kept, tier, t);
    assert NewerBuckets(snaps + arrived, tier, t) == all + added;
    assert NewerBuckets(kept + arrived, tier, t) == some + added by {
      assert t in snaps;
    }
    RecentBucketsSurvive(snaps, kept, tier, n, t);
    SubsetSize(some + added, all + added);
    SubsetSize(all, all + added);
    SubsetSize(some, some + added);
  }

  lemma {:induction false} NewestIgnoresPruning(snaps: set<int>, kept: set<int>, arrived: set<int>, n: nat, t: int)
    requires kept <= snaps && forall u :: u in snaps && AmongNewest(snaps, n, u) ==> u in kept
    requires forall a :: a in arrived ==> forall s :: s in snaps ==> s < a
    requires t in snaps
    ensures AmongNewest(snaps + arrived, n, t) <==> t in kept && AmongNewest(kept + arrived, n, t)
  {
    var all, some := Newer(snaps, t), Newer(kept, t);
    assert Newer(snaps + arrived, t) == all + arrived;
    assert Newer(kept + arrived, t) == some + arrived;
    RecentSurvive(snaps, kept, n, t);
    SubsetSize(some + arrived, all + arrived);
    SubsetSize(all, all + arrived);
    SubsetSize(some, some + arrived);
  }

  /** Pruning before newer snapshots arrive, even only in part, never changes what is kept after they do. */
  lemma {:induction false} PruningEarlyIsHarmless(snaps: set<int>, part: set<int>, arrived: set<int>, rules: Option<Rules>)
    requires Kept(snaps, rules) <= part <= snaps
    requires forall a :: a in arrived ==> forall s :: s in snaps ==> s < a
    ensures Kept(part + arrived, rules) == Kept(snaps + arrived, rules)
  {
    if rules.Some? {
      forall t | t in snaps + arrived
        ensures t in Kept(part + arrived, rules) <==> t in Kept(snaps + arrived, rules)
      {
        if t in snaps {
          OldSnapshotAlike(snaps, part, arrived, rules.value, t);
        } else {
          NewSnapshotAlike(snaps, part, arrived, rules, t);
        }
      }
    } else {
      assert Kept(snaps, rules) == snaps;
    }
    assert Kept(part + arrived, rules) <= snaps + arrived;
  }

  lemma {:induction false} OldSnapshotAlike(snaps: set<int>, part: set<int>, arrived: set<int>, r: Rules, t: int)
    requires Kept(snaps, Some(r)) <= part <= snaps
    requires forall a :: a in arrived ==> forall s :: s in snaps ==> s < a
    requires t in snaps
    ensures t in Kept(part + arrived, Some(r)) <==> t in Kept(snaps + arrived, Some(r))
  {
    hide Bucket;
    assert t !in arrived;
    assert forall u :: u in snaps && Keeps(snaps, Some(r), u) ==> u in Kept(snaps, Some(r));
    NewestIgnoresPruning(snaps, part, arrived, Count(r.keepLast), t);
    forall u | u in snaps && AmongNewest(snaps, 1, u) ensures u in part {
      assert Newer(snaps, u) == {};
    }
    NewestIgnoresPruning(snaps, part, arrived, 1, t);
    forall tier ensures TierKeeps(snaps + arrived, tier, TierCount(r, tier), t)
                        <==> t in part && TierKeeps(part + arrived, tier, TierCount(r, tier), t) {
      TierIgnoresPruning(snaps, part, arrived, tier, TierCount(r, tier), t);
    }
    assert forall s: set<int> :: Newer(s, t) == {} <==> AmongNewest(s, 1, t);
  }

  lemma {:induction false} NewSnapshotAlike(snaps: set<int>, kept: set<int>, arrived: set<int>, rules: Option<Rules>, t: int)
    requires kept <= snaps && t in arrived
    requires forall a :: a in arrived ==> forall s :: s in snaps ==> s < a
    ensures Keeps(kept + arrived, rules, t) <==> Keeps(snaps + arrived, rules, t)
  {
    hide Bucket;
    assert Newer(kept + arrived, t) == Newer(snaps + arrived, t);
    forall tier ensures NewerBuckets(kept + arrived, tier, t) == NewerBuckets(snaps + arrived, tier, t) {
    }
  }

  /** The archive after planning and pruning at every single arrival, oldest first. */
  ghost function PruneAtEveryArrival(arrivals: seq<int>, rules: Option<Rules>): set<int> {
    if arrivals == [] then {}
    else Kept(PruneAtEveryArrival(arrivals[..|arrivals| - 1], rules) + {arrivals[|arrivals| - 1]}, rules)
  }

  ghost predicate Increasing(arrivals: seq<int>) {
    forall i, j :: 0 <= i < j < |arrivals| ==> arrivals[i] < arrivals[j]
  }

  ghost function Instants(arrivals: seq<int>): set<int> {
    set t | t in arrivals
  }

  /** Confluence: pruning at every arrival leaves what one plan over everything would keep. */
  lemma {:induction false} Confluence(arrivals: seq<int>, rules: Option<Rules>)
    requires Increasing(arrivals)
    ensures PruneAtEveryArrival(arrivals, rules) == Kept(Instants(arrivals), rules)
  {
    if arrivals == [] {
      assert Instants(arrivals) == {};
    } else {
      var before, last := arrivals[..|arrivals| - 1], arrivals[|arrivals| - 1];
      Confluence(before, rules);
      PruningEarlyIsHarmless(Instants(before), Kept(Instants(before), rules), {last}, rules);
      assert arrivals == before + [last];
      assert Instants(arrivals) == Instants(before) + {last};
    }
  }

  /** Planning again over what was kept prunes nothing. */
  lemma {:induction false} ReplanningPrunesNothing(snaps: set<int>, rules: Option<Rules>)
    ensures Kept(Kept(snaps, rules), rules) == Kept(snaps, rules)
  {
    PruningEarlyIsHarmless(snaps, Kept(snaps, rules), {}, rules);
    assert Kept(snaps, rules) + {} == Kept(snaps, rules) && snaps + {} == snaps;
  }

  /** A plan over at least one snapshot always keeps the newest. */
  lemma {:induction false} NewestIsKept(snaps: set<int>, rules: Option<Rules>, t: int)
    requires t in snaps && forall u :: u in snaps ==> u <= t
    ensures t in Kept(snaps, rules)
  {
    assert Newer(snaps, t) == {};
  }
}
