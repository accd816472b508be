/**
  `planRetention` itself (src/retention/retention.ts:111-184): the loops over a
  map of reasons and a set of seen buckets, proved against the policy.
 */
module RetentionPlan {
  import opened Prelude
  import opened SnapshotName
  import opened Retention

  datatype Snap = Snap(name: string, at: int)

  /** A kept snapshot with every reason that claimed it. */
  datatype Claim = Claim(name: string, reasons: seq<string>)

  // ---- what the plan must say ----------------------------------------------

  ghost function TierReason(snaps: set<int>, tier: Tier, n: nat, t: int): seq<string> {
    if TierKeeps(snaps, tier, n, t) then [Prefix(tier) + Bucket(tier, t)] else []
  }

  /** The reasons of the first `n` tiers, in order. */
  ghost function TierReasons(snaps: set<int>, r: Rules, n: nat, t: int): seq<string>
    requires n <= |TIERS|
  {
    if n == 0 then []
    else TierReasons(snaps, r, n - 1, t) + TierReason(snaps, TIERS[n - 1], TierCount(r, TIERS[n - 1]), t)
  }

  ghost function FirstReasons(snaps: set<int>, rules: Option<Rules>, t: int): seq<string> {
    (if Newer(snaps, t) == {} then ["newest"] else [])
    + match rules
      case None => ["keep-all"]
      case Some(r) => if AmongNewest(snaps, Count(r.keepLast), t) then ["last"] else []
  }

  /** Every reason the policy has for keeping `t`, in the order the tiers run. */
  ghost function Reasons(snaps: set<int>, rules: Option<Rules>, t: int): seq<string> {
    FirstReasons(snaps, rules, t)
    + match rules
      case None => []
      case Some(r) => TierReasons(snaps, r, |TIERS|, t)
  }

  lemma {:induction false} SomeTierReason(snaps: set<int>, r: Rules, n: nat, t: int)
    requires n <= |TIERS|
    ensures TierReasons(snaps, r, n, t) != [] <==>
            exists k :: 0 <= k < n && TierKeeps(snaps, TIERS[k], TierCount(r, TIERS[k]), t)
  {
    hide Bucket, NewerBuckets, TierKeeps, TierCount;
    if n > 0 { SomeTierReason(snaps, r, n - 1, t); }
  }

  /** A snapshot has a reason exactly when the policy keeps it. */
  lemma {:induction false} ReasonsMeanKept(snaps: set<int>, rules: Option<Rules>, t: int)
    ensures Reasons(snaps, rules, t) != [] <==> Keeps(snaps, rules, t)
  {
    hide Bucket;
    if rules.Some? {
      var r := rules.value;
      SomeTierReason(snaps, r, |TIERS|, t);
      assert TIERS[0] == Hourly && TIERS[1] == Daily && TIERS[2] == Weekly && TIERS[3] == Monthly && TIERS[4] == Yearly;
    }
  }

  // ---- parsing and sorting the input ---------------------------------------

  ghost predicate Distinct<T>(s: seq<T>) {
    forall i, j :: 0 <= i < j < |s| ==> s[i] != s[j]
  }

  ghost predicate Genuine(s: seq<Snap>) {
    forall i :: 0 <= i < |s| ==> Parse(s[i].name) == Some(s[i].at)
  }

  ghost predicate NewestFirst(s: seq<Snap>) {
    forall i, j :: 0 <= i < j < |s| ==> s[i].at >= s[j].at
  }

  /** Genuine snapshots of pairwise distinct instants, newest first. */
  ghost predicate Strict(s: seq<Snap>) {
    Genuine(s) && forall i, j :: 0 <= i < j < |s| ==> s[i].at > s[j].at
  }

  /** The parseable names of the input with their instants; the rest are ignored. */
  method ParseNames(names: seq<string>) returns (parsed: seq<Snap>)
    ensures ListsParseable(names, parsed) && (Distinct(names) ==> Distinct(parsed))
  {
    hide Parse;
    parsed := [];
    for i := 0 to |names|
      invariant Genuine(parsed) && (Distinct(names) ==> Distinct(parsed))
      invariant forall x :: x in parsed ==> x.name in names[..i]
      invariant forall k :: 0 <= k < i && Parse(names[k]).Some? ==> Snap(names[k], Parse(names[k]).value) in parsed
    {
      assert names[..i + 1] == names[..i] + [names[i]];
      var date := Parse(names[i]);
      if date.Some? {
        parsed := parsed + [Snap(names[i], date.value)];
      }
    }
  }

  function Insert(s: seq<Snap>, x: Snap): (r: seq<Snap>)
    requires NewestFirst(s)
    ensures NewestFirst(r) && (forall y :: y in r <==> y == x || y in s)
  {
    if s == [] || x.at >= s[0].at then [x] + s
    else
      assert s == [s[0]] + s[1..];
      var rest := Insert(s[1..], x);
      assert forall k :: 0 <= k < |rest| ==> rest[k] in rest;
      [s[0]] + rest
  }

  lemma {:induction false} InsertDistinct(s: seq<Snap>, x: Snap)
    requires NewestFirst(s) && Distinct(s) && x !in s
    ensures Distinct(Insert(s, x))
  {
    if s != [] && x.at < s[0].at {
      var rest := Insert(s[1..], x);
      InsertDistinct(s[1..], x);
      assert s[0] !in rest by {
        assert forall k :: 0 <= k < |s[1..]| ==> s[1..][k] == s[k + 1];
      }
      assert forall k :: 0 <= k < |rest| ==> rest[k] in rest;
      assert Insert(s, x) == [s[0]] + rest;
    }
  }

  /** The library sort: the same elements, newest first. */
  function SortNewestFirst(s: seq<Snap>): (r: seq<Snap>)
    ensures NewestFirst(r) && (forall y :: y in r <==> y in s)
    ensures Distinct(s) ==> Distinct(r)
  {
    if s == [] then []
    else
      var init, last := s[..|s| - 1], s[|s| - 1];
      assert s == init + [last];
      assert Distinct(s) ==> last !in init;
      assert Distinct(s) ==> Distinct(Insert(SortNewestFirst(init), last)) by {
        if Distinct(s) { InsertDistinct(SortNewestFirst(init), last); }
      }
      Insert(SortNewestFirst(init), last)
  }

  /** A name denotes one instant and an instant one name, so distinct names sort strictly. */
  lemma {:induction false} DistinctNamesSortStrictly(s: seq<Snap>)
    requires Genuine(s) && NewestFirst(s) && Distinct(s)
    ensures Strict(s)
  {
    hide Parse;
    forall i, j | 0 <= i < j < |s| ensures s[i].at > s[j].at {
      ParseIsExact(s[i].name, s[i].at);
      ParseIsExact(s[j].name, s[j].at);
    }
  }

  // ---- the reasons map -----------------------------------------------------

  function ReasonsAt(reasons: map<string, seq<string>>, name: string): seq<string> {
    if name in reasons then reasons[name] else []
  }

  function AddReason(reasons: map<string, seq<string>>, name: string, reason: string): map<string, seq<string>> {
    reasons[name := ReasonsAt(reasons, name) + [reason]]
  }

  lemma {:induction false} NamesDiffer(s: seq<Snap>, i: nat)
    requires Strict(s) && i < |s|
    ensures forall k :: 0 <= k < |s| && k != i ==> s[k].name != s[i].name
  {
    hide Parse;
  }

  /** A reason goes to one snapshot and to no other. */
  lemma {:induction false} SaysAt(s: seq<Snap>, before: map<string, seq<string>>, i: nat, reason: string)
    requires i < |s| && NoEmptyReasons(before)
    ensures var out := AddReason(before, s[i].name, reason);
            && NoEmptyReasons(out)
            && (Strict(s) ==> forall k :: 0 <= k < |s| ==>
                  ReasonsAt(out, s[k].name) == ReasonsAt(before, s[k].name) + (if k == i then [reason] else []))
  {
    hide Strict;
    if Strict(s) { NamesDiffer(s, i); }
  }

  lemma NothingSaid(s: seq<Snap>)
    ensures NoEmptyReasons(map[]) && forall k :: 0 <= k < |s| ==> ReasonsAt(map[], s[k].name) == []
  {
  }

  /** Only names that were given a reason are in the map. */
  ghost predicate NoEmptyReasons(reasons: map<string, seq<string>>) {
    forall n :: n in reasons ==> reasons[n] != []
  }

  ghost function Ats(s: seq<Snap>): set<int> {
    set i | 0 <= i < |s| :: s[i].at
  }

  ghost function BucketsOf(s: seq<Snap>, tier: Tier): set<string> {
    set i | 0 <= i < |s| :: Bucket(tier, s[i].at)
  }

  /** In a strictly sorted list, what is newer than an entry is what precedes it. */
  lemma {:induction false} PrecedingIsNewer(s: seq<Snap>, tier: Tier, k: nat)
    requires Strict(s) && k < |s|
    ensures Newer(Ats(s), s[k].at) == Ats(s[..k]) && |Newer(Ats(s), s[k].at)| == k
    ensures NewerBuckets(Ats(s), tier, s[k].at) == BucketsOf(s[..k], tier)
  {
    hide Bucket, Parse, Prefix;
    forall t ensures t in Newer(Ats(s), s[k].at) <==> t in Ats(s[..k]) {
      if t in Newer(Ats(s), s[k].at) {
        var i :| 0 <= i < |s| && s[i].at == t;
        assert i < k && s[..k][i].at == t;
      }
    }
    forall b ensures b in NewerBuckets(Ats(s), tier, s[k].at) <==> b in BucketsOf(s[..k], tier) {
      if b in NewerBuckets(Ats(s), tier, s[k].at) {
        var t :| t in Ats(s) && t > s[k].at && Bucket(tier, t) == b;
        var i :| 0 <= i < |s| && s[i].at == t;
        assert i < k && s[..k][i].at == t;
      }
      if b in BucketsOf(s[..k], tier) {
        var i :| 0 <= i < k && Bucket(tier, s[..k][i].at) == b;
        assert s[i].at in Ats(s) && s[i].at > s[k].at;
      }
    }
    AtsSize(s[..k]);
  }

  lemma {:induction false} AtsSize(s: seq<Snap>)
    requires Strict(s)
    ensures |Ats(s)| == |s|
  {
    hide Parse;
    if s != [] {
      var init, last := s[..|s| - 1], s[|s| - 1];
      AtsSize(init);
      assert Ats(s) == Ats(init) + {last.at} by {
        assert forall i :: 0 <= i < |s| ==> s[i].at in Ats(init) + {last.at} by {
          assert forall i :: 0 <= i < |init| ==> init[i].at == s[i].at;
        }
        assert s[|s| - 1].at in Ats(s);
        assert forall i :: 0 <= i < |init| ==> init[i] == s[i];
      }
      assert last.at !in Ats(init);
    }
  }

  /** Every snapshot has exactly the policy's reasons. */
  ghost predicate SaysReasons(s: seq<Snap>, rules: Option<Rules>, reasons: map<string, seq<string>>) {
    forall k :: 0 <= k < |s| ==> ReasonsAt(reasons, s[k].name) == Reasons(Ats(s), rules, s[k].at)
  }

  /** One tier's walk: the newest snapshot of each bucket not yet seen, until `count` buckets. */
  method ApplyTier(s: seq<Snap>, tier: Tier, count: nat, reasons: map<string, seq<string>>)
    returns (out: map<string, seq<string>>)
    requires NoEmptyReasons(reasons)
    ensures NoEmptyReasons(out)
    ensures Strict(s) ==> Walked(s, tier, count, reasons, out, |s|)
  {
    hide Bucket, Parse, Prefix, Walked, BucketsOf, Strict;
    out := reasons;
    var seen: set<string> := {};
    var i := 0;
    ghost var strict := Strict(s);
    WalkStart(s, tier, count, reasons);
    while i < |s| && |seen| < count
      invariant 0 <= i <= |s| && NoEmptyReasons(out)
      invariant seen == BucketsOf(s[..i], tier)
      invariant strict ==> Walked(s, tier, count, reasons, out, i)
    {
      var bucket := Bucket(tier, s[i].at);
      ghost var before := out;
      BucketsStep(s, tier, i);
      if bucket !in seen {
        out := AddReason(out, s[i].name, Prefix(tier) + bucket);
      }
      if strict { WalkStep(s, tier, count, reasons, before, out, i); }
      seen := seen + {bucket};
      i := i + 1;
    }
    if strict && i < |s| { WalkEnd(s, tier, count, reasons, out, i); }
  }

  lemma {:induction false} WalkStart(s: seq<Snap>, tier: Tier, count: nat, reasons: map<string, seq<string>>)
    ensures Walked(s, tier, count, reasons, reasons, 0)
    ensures BucketsOf(s[..0], tier) == {}
  {
    hide Bucket, TierReason;
  }

  /** The first `i` snapshots have had the tier's say; the rest have not. */
  ghost predicate Walked(s: seq<Snap>, tier: Tier, count: nat, reasons: map<string, seq<string>>,
                         out: map<string, seq<string>>, i: int) {
    forall k :: 0 <= k < |s| ==>
      ReasonsAt(out, s[k].name) ==
      ReasonsAt(reasons, s[k].name) + (if k < i then TierReason(Ats(s), tier, count, s[k].at) else [])
  }

  lemma {:induction false} WalkStep(s: seq<Snap>, tier: Tier, count: nat, reasons: map<string, seq<string>>,
                                    before: map<string, seq<string>>, out: map<string, seq<string>>, i: nat)
    requires Strict(s) && i < |s|
    requires NoEmptyReasons(before) && Walked(s, tier, count, reasons, before, i) && |BucketsOf(s[..i], tier)| < count
    requires out == if Bucket(tier, s[i].at) in BucketsOf(s[..i], tier) then before
                    else AddReason(before, s[i].name, Prefix(tier) + Bucket(tier, s[i].at))
    ensures Walked(s, tier, count, reasons, out, i + 1)
  {
    hide Bucket, Parse, Prefix, BucketsOf, NewerBuckets, Ats, Newer, Genuine, Strict, AddReason, ReasonsAt;
    SaysAt(s, before, i, Prefix(tier) + Bucket(tier, s[i].at));
    PrecedingIsNewer(s, tier, i);
    forall k | 0 <= k < |s| ensures ReasonsAt(out, s[k].name) ==
      ReasonsAt(reasons, s[k].name) + (if k < i + 1 then TierReason(Ats(s), tier, count, s[k].at) else [])
    {
    }
  }

  lemma {:induction false} WalkEnd(s: seq<Snap>, tier: Tier, count: nat, reasons: map<string, seq<string>>,
                                   out: map<string, seq<string>>, i: nat)
    requires Strict(s) && i <= |s|
    requires Walked(s, tier, count, reasons, out, i) && |BucketsOf(s[..i], tier)| >= count
    ensures Walked(s, tier, count, reasons, out, |s|)
  {
    hide Bucket, Prefix, TierReason;
    forall k | i <= k < |s| ensures TierReason(Ats(s), tier, count, s[k].at) == [] {
      NoMoreBuckets(s, tier, count, i, k);
    }
  }

  lemma {:induction false} NoMoreBuckets(s: seq<Snap>, tier: Tier, count: nat, i: nat, k: nat)
    requires Strict(s) && i <= k < |s| && |BucketsOf(s[..i], tier)| >= count
    ensures TierReason(Ats(s), tier, count, s[k].at) == []
  {
    hide Bucket, Parse, Prefix;
    PrecedingIsNewer(s, tier, k);
    assert BucketsOf(s[..i], tier) <= BucketsOf(s[..k], tier) by {
      assert forall j :: 0 <= j < i ==> s[..i][j] == s[..k][j];
    }
    SubsetSize(BucketsOf(s[..i], tier), BucketsOf(s[..k], tier));
  }

  lemma {:induction false} BucketsStep(s: seq<Snap>, tier: Tier, i: nat)
    requires i < |s|
    ensures BucketsOf(s[..i + 1], tier) == BucketsOf(s[..i], tier) + {Bucket(tier, s[i].at)}
  {
    hide Bucket, Parse, Prefix;
    assert s[..i + 1][i] == s[i];
    assert forall j :: 0 <= j < i ==> s[..i + 1][j] == s[..i][j];
  }

  /** The unconditional reasons: the newest, and `keepLast` or keep-all. */
  method ApplyFirst(s: seq<Snap>, rules: Option<Rules>) returns (out: map<string, seq<string>>)
    requires s != []
    ensures NoEmptyReasons(out)
    ensures Strict(s) ==>
      forall k :: 0 <= k < |s| ==> ReasonsAt(out, s[k].name) == FirstReasons(Ats(s), rules, s[k].at)
  {
    hide Parse, Bucket, Genuine, Strict, FirstReasons, Ats, AddReason, ReasonsAt, NoEmptyReasons;
    out := AddReason(map[], s[0].name, "newest");
    var last := match rules case None => |s| case Some(r) => Count(r.keepLast);
    var reason := if rules.None? then "keep-all" else "last";
    ghost var strict := Strict(s);
    var i := 0;
    NothingSaid(s);
    SaysAt(s, map[], 0, "newest");
    while i < |s| && i < last
      invariant 0 <= i <= |s| && NoEmptyReasons(out) && (i <= last || i == 0)
      invariant strict ==> forall k :: 0 <= k < |s| ==>
        ReasonsAt(out, s[k].name) == (if k == 0 then ["newest"] else []) + (if k < i then [reason] else [])
    {
      SaysAt(s, out, i, reason);
      out := AddReason(out, s[i].name, reason);
      i := i + 1;
    }
    if strict {
      forall k | 0 <= k < |s| ensures ReasonsAt(out, s[k].name) == FirstReasons(Ats(s), rules, s[k].at) {
        FirstReasonsByPlace(s, rules, k);
      }
    }
  }

  lemma {:induction false} FirstReasonsByPlace(s: seq<Snap>, rules: Option<Rules>, k: nat)
    requires Strict(s) && k < |s|
    ensures var last := match rules case None => |s| case Some(r) => Count(r.keepLast);
            FirstReasons(Ats(s), rules, s[k].at) ==
            (if k == 0 then ["newest"] else []) + (if k < last then [if rules.None? then "keep-all" else "last"] else [])
  {
    hide Parse, Bucket, Genuine;
    PrecedingIsNewer(s, Hourly, k);
    if k == 0 { assert Ats(s[..0]) == {}; }
    if k > 0 { assert s[..k][0].at in Ats(s[..k]); }
  }

  // ---- the plan ------------------------------------------------------------

  ghost function InstantsOf(names: seq<string>): set<int> {
    set n | n in names && Parse(n).Some? :: Parse(n).value
  }

  /** `a` is a newer snapshot than `b`. */
  ghost predicate NewerName(a: string, b: string) {
    Parse(a).Some? && Parse(b).Some? && Parse(a).value > Parse(b).value
  }

  ghost predicate NamesNewestFirst(names: seq<string>) {
    forall i, j :: 0 <= i < j < |names| ==> NewerName(names[i], names[j])
  }

  ghost predicate ClaimsNewestFirst(claims: seq<Claim>) {
    forall i, j :: 0 <= i < j < |claims| ==> NewerName(claims[i].name, claims[j].name)
  }

  /** A kept entry is one the policy keeps, with exactly the policy's reasons. */
  ghost predicate KeptRightly(claim: Claim, names: seq<string>, rules: Option<Rules>) {
    && claim.name in names && Parse(claim.name).Some?
    && Parse(claim.name).value in Kept(InstantsOf(names), rules)
    && claim.reasons == Reasons(InstantsOf(names), rules, Parse(claim.name).value)
  }

  /** A pruned entry is a snapshot the policy does not keep. */
  ghost predicate PrunedRightly(name: string, names: seq<string>, rules: Option<Rules>) {
    name in names && Parse(name).Some? && Parse(name).value !in Kept(InstantsOf(names), rules)
  }

  /** The plan names the parseable input and nothing else. */
  ghost predicate Covers(names: seq<string>, keep: seq<Claim>, prune: seq<string>) {
    && (forall n :: n in names && Parse(n).Some? ==> n in prune || exists c :: c in keep && c.name == n)
    && (forall c :: c in keep ==> c.name in names && Parse(c.name).Some?)
    && (forall n :: n in prune ==> n in names && Parse(n).Some?)
  }

  /** No name is both kept and pruned, however often the input repeats it. */
  ghost predicate Apart(keep: seq<Claim>, prune: seq<string>) {
    forall c, n :: c in keep && n in prune ==> c.name != n
  }

  /** The split is the policy's, with the policy's reasons, and both lists run newest first. */
  ghost predicate FollowsPolicy(names: seq<string>, rules: Option<Rules>, keep: seq<Claim>, prune: seq<string>) {
    && (forall c :: c in keep ==> KeptRightly(c, names, rules))
    && (forall n :: n in prune ==> PrunedRightly(n, names, rules))
    && ClaimsNewestFirst(keep)
    && NamesNewestFirst(prune)
  }

  /**
    The whole planner. Every parseable name lands in `keep` or `prune`, and
    nothing else does; on distinct names the split is exactly the policy's.
   */
  method PlanRetention(names: seq<string>, rules: Option<Rules>, now: int)
    returns (keep: seq<Claim>, prune: seq<string>)
    ensures Covers(names, keep, prune) && Apart(keep, prune)
    ensures Distinct(names) ==> FollowsPolicy(names, rules, keep, prune)
  {
    hide Parse, FollowsPolicy, InstantsOf, Distinct, Strict, NewestFirst, Covers, Claimed, Unclaimed, ReasonsAt, Reasons;
    var parsed := ParseNames(names);
    var s := SortNewestFirst(parsed);
    SortedInput(names, parsed, s);
    var reasons := map[];
    if |s| > 0 {
      reasons := ReasonsFor(s, rules);
    }
    keep, prune := Split(s, reasons);
    SplitCoversNames(names, s, reasons);
    SplitIsApart(s, reasons, |s|);
    if Distinct(names) {
      DistinctNamesSortStrictly(s);
      SortedInstants(names, s);
      SplitFollowsPolicy(names, s, rules, reasons);
    }
  }

  method Split(s: seq<Snap>, reasons: map<string, seq<string>>) returns (keep: seq<Claim>, prune: seq<string>)
    ensures keep == Claimed(s, reasons, |s|) && prune == Unclaimed(s, reasons, |s|)
  {
    keep, prune := [], [];
    for i := 0 to |s|
      invariant keep == Claimed(s, reasons, i) && prune == Unclaimed(s, reasons, i)
    {
      var name := s[i].name;
      if name in reasons {
        keep := keep + [Claim(name, reasons[name])];
      } else {
        prune := prune + [name];
      }
    }
  }

  /** The sorted list is the parseable input. */
  ghost predicate ListsParseable(names: seq<string>, s: seq<Snap>) {
    && Genuine(s)
    && (forall x :: x in s ==> x.name in names)
    && (forall n :: n in names && Parse(n).Some? ==> Snap(n, Parse(n).value) in s)
  }

  lemma {:induction false} SortedInput(names: seq<string>, parsed: seq<Snap>, s: seq<Snap>)
    requires ListsParseable(names, parsed) && forall y :: y in s <==> y in parsed
    ensures ListsParseable(names, s)
  {
    hide Parse;
    assert forall i :: 0 <= i < |s| ==> s[i] in parsed;
  }

  lemma {:induction false} SplitCoversNames(names: seq<string>, s: seq<Snap>, reasons: map<string, seq<string>>)
    requires ListsParseable(names, s)
    ensures Covers(names, Claimed(s, reasons, |s|), Unclaimed(s, reasons, |s|))
  {
    hide Parse, Claimed, Unclaimed;
    SplitCovers(s, reasons, |s|);
    forall n | NamedBefore(s, |s|, n) ensures n in names && Parse(n).Some? {
      var k :| 0 <= k < |s| && s[k].name == n;
      assert s[k] in s;
    }
    forall n | n in names && Parse(n).Some?
      ensures n in Unclaimed(s, reasons, |s|) || exists c :: c in Claimed(s, reasons, |s|) && c.name == n
    {
      var k :| 0 <= k < |s| && s[k] == Snap(n, Parse(n).value);
    }
  }

  // ---- the final split -----------------------------------------------------

  function Claimed(s: seq<Snap>, reasons: map<string, seq<string>>, i: nat): seq<Claim>
    requires i <= |s|
  {
    if i == 0 then []
    else
      var name := s[i - 1].name;
      Claimed(s, reasons, i - 1) + (if name in reasons then [Claim(name, reasons[name])] else [])
  }

  function Unclaimed(s: seq<Snap>, reasons: map<string, seq<string>>, i: nat): seq<string>
    requires i <= |s|
  {
    if i == 0 then []
    else
      var name := s[i - 1].name;
      Unclaimed(s, reasons, i - 1) + (if name in reasons then [] else [name])
  }

  ghost predicate NamedBefore(s: seq<Snap>, i: nat, name: string)
    requires i <= |s|
  {
    exists k :: 0 <= k < i && s[k].name == name
  }

  /** The next snapshot is claimed if its name has reasons, and else not. */
  lemma {:induction false} SplitStep(s: seq<Snap>, reasons: map<string, seq<string>>, i: nat)
    requires 0 < i <= |s|
    ensures var name := s[i - 1].name;
            && (forall c :: c in Claimed(s, reasons, i) <==>
                  c in Claimed(s, reasons, i - 1) || (name in reasons && c == Claim(name, reasons[name])))
            && (forall n :: n in Unclaimed(s, reasons, i) <==> n in Unclaimed(s, reasons, i - 1) || (name !in reasons && n == name))
  {
  }

  lemma {:induction false} SplitCovers(s: seq<Snap>, reasons: map<string, seq<string>>, i: nat)
    requires i <= |s|
    ensures forall c :: c in Claimed(s, reasons, i) ==> NamedBefore(s, i, c.name)
    ensures forall n :: n in Unclaimed(s, reasons, i) ==> NamedBefore(s, i, n)
    ensures forall k :: 0 <= k < i ==>
      s[k].name in Unclaimed(s, reasons, i) || exists c :: c in Claimed(s, reasons, i) && c.name == s[k].name
  {
    if i > 0 {
      SplitCovers(s, reasons, i - 1);
      var name := s[i - 1].name;
      var claims, names := Claimed(s, reasons, i - 1), Unclaimed(s, reasons, i - 1);
      SplitStep(s, reasons, i);
      hide Claimed, Unclaimed;
      forall k | 0 <= k < i
        ensures s[k].name in Unclaimed(s, reasons, i) || exists c :: c in Claimed(s, reasons, i) && c.name == s[k].name
      {
        if k < i - 1 && s[k].name !in names {
          var c :| c in claims && c.name == s[k].name;
          assert c in Claimed(s, reasons, i);
        }
        if k == i - 1 && name in reasons { assert Claim(name, reasons[name]) in Claimed(s, reasons, i); }
      }
    }
  }

  /** A name is claimed when it has reasons, whichever of its occurrences earned them. */
  lemma {:induction false} SplitIsApart(s: seq<Snap>, reasons: map<string, seq<string>>, i: nat)
    requires i <= |s|
    ensures forall c :: c in Claimed(s, reasons, i) ==> c.name in reasons
    ensures forall n :: n in Unclaimed(s, reasons, i) ==> n !in reasons
  {
    if i > 0 { SplitIsApart(s, reasons, i - 1); }
  }

  lemma {:induction false} SplitFollowsPolicy(names: seq<string>, s: seq<Snap>, rules: Option<Rules>,
                                              reasons: map<string, seq<string>>)
    requires Strict(s) && NoEmptyReasons(reasons)
    requires Ats(s) == InstantsOf(names) && ListsParseable(names, s)
    requires SaysReasons(s, rules, reasons)
    ensures FollowsPolicy(names, rules, Claimed(s, reasons, |s|), Unclaimed(s, reasons, |s|))
  {
    hide Parse, Reasons, Kept, KeptRightly, PrunedRightly, NewerName, Ats, InstantsOf, Strict;
    JudgedRightly(names, s, rules, reasons, |s|);
    KeepOrdered(s, reasons, |s|);
    PruneOrdered(s, reasons, |s|);
  }

  lemma {:induction false} JudgedRightly(names: seq<string>, s: seq<Snap>, rules: Option<Rules>,
                                         reasons: map<string, seq<string>>, i: nat)
    requires Strict(s) && i <= |s| && NoEmptyReasons(reasons)
    requires Ats(s) == InstantsOf(names) && ListsParseable(names, s)
    requires SaysReasons(s, rules, reasons)
    ensures forall c :: c in Claimed(s, reasons, i) ==> KeptRightly(c, names, rules)
    ensures forall n :: n in Unclaimed(s, reasons, i) ==> PrunedRightly(n, names, rules)
  {
    hide Parse, Reasons, Kept, KeptRightly, PrunedRightly, Ats, InstantsOf, Genuine;
    if i > 0 {
      JudgedRightly(names, s, rules, reasons, i - 1);
      assert s[i - 1] in s;
      Judge(names, s, rules, reasons, i - 1);
    }
  }

  lemma {:induction false} NewerThanLater(s: seq<Snap>, i: nat, n: string)
    requires Strict(s) && i < |s| && NamedBefore(s, i, n)
    ensures NewerName(n, s[i].name)
  {
    hide Parse, NewerName, Genuine;
    var k :| 0 <= k < i && s[k].name == n;
    OlderThanBefore(s, k, i);
  }

  lemma {:induction false} KeepOrdered(s: seq<Snap>, reasons: map<string, seq<string>>, i: nat)
    requires Strict(s) && i <= |s|
    ensures ClaimsNewestFirst(Claimed(s, reasons, i))
  {
    hide NewerName, Strict, NamedBefore;
    if i > 0 {
      var m := i - 1;
      KeepOrdered(s, reasons, m);
      SplitCovers(s, reasons, m);
      var keep := Claimed(s, reasons, m);
      forall a | 0 <= a < |keep| ensures NewerName(keep[a].name, s[m].name) {
        assert keep[a] in keep;
        NewerThanLater(s, m, keep[a].name);
      }
      var keep' := Claimed(s, reasons, i);
      forall a, b | 0 <= a < b < |keep'| ensures NewerName(keep'[a].name, keep'[b].name) {
        assert keep'[a] == keep[a];
        if b == |keep| { assert keep'[b].name == s[m].name; } else { assert keep'[b] == keep[b]; }
      }
    }
  }

  lemma {:induction false} PruneOrdered(s: seq<Snap>, reasons: map<string, seq<string>>, i: nat)
    requires Strict(s) && i <= |s|
    ensures NamesNewestFirst(Unclaimed(s, reasons, i))
  {
    hide NewerName, Strict, NamedBefore;
    if i > 0 {
      var m := i - 1;
      PruneOrdered(s, reasons, m);
      SplitCovers(s, reasons, m);
      var prune := Unclaimed(s, reasons, m);
      forall a | 0 <= a < |prune| ensures NewerName(prune[a], s[m].name) {
        assert prune[a] in prune;
        NewerThanLater(s, m, prune[a]);
      }
      var prune' := Unclaimed(s, reasons, i);
      forall a, b | 0 <= a < b < |prune'| ensures NewerName(prune'[a], prune'[b]) {
        assert prune'[a] == prune[a];
        if b == |prune| { assert prune'[b] == s[m].name; } else { assert prune'[b] == prune[b]; }
      }
    }
  }

  lemma {:induction false} OlderThanBefore(s: seq<Snap>, k: nat, i: nat)
    requires Strict(s) && k < i < |s|
    ensures NewerName(s[k].name, s[i].name)
  {
    hide Parse;
  }

  lemma {:induction false} Judge(names: seq<string>, s: seq<Snap>, rules: Option<Rules>,
                                 reasons: map<string, seq<string>>, i: nat)
    requires Genuine(s) && i < |s| && NoEmptyReasons(reasons) && s[i].name in names && Ats(s) == InstantsOf(names)
    requires ReasonsAt(reasons, s[i].name) == Reasons(Ats(s), rules, s[i].at)
    ensures s[i].name in reasons ==> KeptRightly(Claim(s[i].name, reasons[s[i].name]), names, rules)
    ensures s[i].name !in reasons ==> PrunedRightly(s[i].name, names, rules)
  {
    hide Parse, Reasons, Keeps, InstantsOf;
    ReasonsMeanKept(Ats(s), rules, s[i].at);
    assert s[i].at in Ats(s) && Parse(s[i].name) == Some(s[i].at);
  }

  /** The reasons so far are the unconditional ones and those of the first `n` tiers. */
  ghost predicate SaidByTiers(s: seq<Snap>, r: Rules, n: nat, reasons: map<string, seq<string>>)
    requires n <= |TIERS|
  {
    forall k :: 0 <= k < |s| ==>
      ReasonsAt(reasons, s[k].name) == FirstReasons(Ats(s), Some(r), s[k].at) + TierReasons(Ats(s), r, n, s[k].at)
  }

  lemma {:induction false} TierSays(s: seq<Snap>, r: Rules, n: nat, before: map<string, seq<string>>, after: map<string, seq<string>>)
    requires n < |TIERS| && SaidByTiers(s, r, n, before)
    requires Walked(s, TIERS[n], TierCount(r, TIERS[n]), before, after, |s|)
    ensures SaidByTiers(s, r, n + 1, after)
  {
    hide Bucket, Prefix, FirstReasons, TierReason, Ats, TierCount, ReasonsAt;
    forall k | 0 <= k < |s|
      ensures ReasonsAt(after, s[k].name) == FirstReasons(Ats(s), Some(r), s[k].at) + TierReasons(Ats(s), r, n + 1, s[k].at)
    {
      assert ReasonsAt(after, s[k].name) ==
        ReasonsAt(before, s[k].name) + TierReason(Ats(s), TIERS[n], TierCount(r, TIERS[n]), s[k].at);
    }
  }

  /** All the reasons of a sorted, non-empty list. */
  method ReasonsFor(s: seq<Snap>, rules: Option<Rules>) returns (reasons: map<string, seq<string>>)
    requires s != []
    ensures NoEmptyReasons(reasons)
    ensures Strict(s) ==> SaysReasons(s, rules, reasons)
  {
    hide Bucket, Parse, Prefix, Strict, Walked, FirstReasons;
    reasons := ApplyFirst(s, rules);
    if rules.Some? {
      for n := 0 to |TIERS|
        invariant NoEmptyReasons(reasons)
        invariant Strict(s) ==> SaidByTiers(s, rules.value, n, reasons)
      {
        var before := reasons;
        reasons := ApplyTier(s, TIERS[n], TierCount(rules.value, TIERS[n]), reasons);
        if Strict(s) { TierSays(s, rules.value, n, before, reasons); }
      }
    }
  }

  lemma {:induction false} SortedInstants(names: seq<string>, s: seq<Snap>)
    requires ListsParseable(names, s)
    ensures Ats(s) == InstantsOf(names)
  {
    hide Parse;
    forall t ensures t in Ats(s) <==> t in InstantsOf(names) {
      if t in Ats(s) {
        var i :| 0 <= i < |s| && s[i].at == t;
        assert s[i].name in names;
      }
      if t in InstantsOf(names) {
        var n :| n in names && Parse(n).Some? && Parse(n).value == t;
        assert Snap(n, t) in s;
      }
    }
  }
}
