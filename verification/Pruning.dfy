/**
  Retention applied to the archive: the plan over a listing, with future-dated
  names set apart, and the loops that delete (src/engine/backupkit.ts `planFor`
  and `prune`, src/engine/internal/target-runner.ts:758-807).
 */
module Pruning {
  import opened Prelude
  import opened SnapshotName
  import opened FileTree
  import opened LocalStore
  import opened Tripwires
  import Retention
  import RetentionPlan

  ghost function Ats(ats: seq<int>): set<int> { set at | at in ats }

  ghost predicate AllNameable(ats: seq<int>) { forall at :: at in ats ==> Nameable(at) }

  ghost predicate Descending(ats: seq<int>) { forall i, j :: 0 <= i < j < |ats| ==> ats[i] > ats[j] }

  // ---- names and instants --------------------------------------------------

  function NamesOf(ats: seq<int>): (names: seq<string>)
    ensures |names| == |ats| && forall i :: 0 <= i < |ats| ==> names[i] == Format(ats[i])
  {
    seq(|ats|, i requires 0 <= i < |ats| => Format(ats[i]))
  }

  /** `planRetention` over snapshots by their instants: the pruned ones, newest first. */
  method PlanPrune(ats: seq<int>, rules: Option<Retention.Rules>, now: int) returns (prune: seq<int>)
    requires Ascending(ats) && AllNameable(ats)
    ensures Descending(prune) && Ats(prune) == Ats(ats) - Retention.Kept(Ats(ats), rules)
  {
    hide Format, Parse, Nameable, Retention.Kept;
    var names := NamesOf(ats);
    NamesAreDistinct(ats);
    var keep, names' := RetentionPlan.PlanRetention(names, rules, now);
    prune := [];
    for i := 0 to |names'|
      invariant |prune| == i && forall k :: 0 <= k < i ==> Parse(names'[k]) == Some(prune[k])
    {
      assert names'[i] in names' && Parse(names'[i]).Some?;
      prune := prune + [Parse(names'[i]).value];
    }
    PlanIsByInstant(ats, rules, names, keep, names', prune);
  }

  lemma {:induction false} NamesAreDistinct(ats: seq<int>)
    requires Ascending(ats) && AllNameable(ats)
    ensures RetentionPlan.Distinct(NamesOf(ats)) && RetentionPlan.InstantsOf(NamesOf(ats)) == Ats(ats)
    ensures forall i :: 0 <= i < |ats| ==> Parse(NamesOf(ats)[i]) == Some(ats[i])
  {
    hide Format, Parse, Nameable;
    var names := NamesOf(ats);
    forall i | 0 <= i < |ats| ensures Parse(names[i]) == Some(ats[i]) {
      assert ats[i] in ats;
      ParseIsExact(names[i], ats[i]);
    }
    forall n | n in names ensures Parse(n).Some? && Parse(n).value in ats {
      var i :| 0 <= i < |names| && names[i] == n;
    }
    forall at | at in ats ensures exists n :: n in names && Parse(n) == Some(at) {
      var i :| 0 <= i < |ats| && ats[i] == at;
      assert names[i] in names;
    }
  }

  lemma {:induction false} PlanIsByInstant(ats: seq<int>, rules: Option<Retention.Rules>, names: seq<string>,
      keep: seq<RetentionPlan.Claim>, pruned: seq<string>, prune: seq<int>)
    requires Ascending(ats) && AllNameable(ats) && names == NamesOf(ats)
    requires RetentionPlan.Covers(names, keep, pruned) && RetentionPlan.FollowsPolicy(names, rules, keep, pruned)
    requires |prune| == |pruned| && forall k :: 0 <= k < |pruned| ==> Parse(pruned[k]) == Some(prune[k])
    ensures Descending(prune) && Ats(prune) == Ats(ats) - Retention.Kept(Ats(ats), rules)
  {
    hide Format, Parse, Nameable, Retention.Kept, RetentionPlan.Reasons;
    NamesAreDistinct(ats);
    forall i, j | 0 <= i < j < |prune| ensures prune[i] > prune[j] {
      assert RetentionPlan.NewerName(pruned[i], pruned[j]);
    }
    forall at | at in prune ensures at in ats && at !in Retention.Kept(Ats(ats), rules) {
      var k :| 0 <= k < |prune| && prune[k] == at;
      assert pruned[k] in pruned && RetentionPlan.PrunedRightly(pruned[k], names, rules);
      var i :| 0 <= i < |names| && names[i] == pruned[k];
    }
    forall at | at in ats && at !in Retention.Kept(Ats(ats), rules) ensures at in prune {
      var i :| 0 <= i < |ats| && ats[i] == at;
      assert names[i] in names && Parse(names[i]) == Some(at);
      forall c | c in keep ensures Parse(c.name) != Some(at) { assert RetentionPlan.KeptRightly(c, names, rules); }
      var k :| 0 <= k < |pruned| && pruned[k] == names[i];
    }
  }

  // ---- future-dated names --------------------------------------------------

  ghost function Genuine(all: set<int>, now: int): set<int> { set at | at in all && !IsFuture(at, now) }

  /** What a pass of retention leaves: what the policy keeps of the genuine names, or everything when none is genuine. */
  ghost function Survivors(all: set<int>, rules: Option<Retention.Rules>, now: int): set<int> {
    if Genuine(all, now) == {} then all else Retention.Kept(Genuine(all, now), rules)
  }

  /** `planFor`: the policy runs on the genuine names, and future-dated ones lead the list - while any name is genuine. */
  method PlanFor(ats: seq<int>, rules: Option<Retention.Rules>, now: int) returns (prune: seq<int>)
    requires Ascending(ats) && AllNameable(ats)
    ensures Descending(prune) && Ats(prune) == Ats(ats) - Survivors(Ats(ats), rules, now)
  {
    hide Nameable, Retention.Kept;
    var genuine, future := SplitFutureSnapshots(ats, now);
    SplitIsGenuine(ats, genuine, future, now);
    prune := PlanPrune(genuine, rules, now);
    if future == [] {
      assert ats == genuine;
      if genuine == [] { assert Ats(ats) == {}; }
      return;
    }
    if genuine == [] { return []; }
    assert genuine[0] in Genuine(Ats(ats), now);
    FutureLeads(genuine, future, prune);
    prune := Reversed(future) + prune;
    AtsOfBoth(ats, genuine, future, rules, now, prune);
  }

  function Reversed(ats: seq<int>): (r: seq<int>)
    ensures |r| == |ats| && forall i :: 0 <= i < |ats| ==> r[i] == ats[|ats| - 1 - i]
  {
    if ats == [] then [] else Reversed(ats[1..]) + [ats[0]]
  }

  lemma {:induction false} SplitIsGenuine(ats: seq<int>, genuine: seq<int>, future: seq<int>, now: int)
    requires Ascending(ats) && AllNameable(ats) && ats == genuine + future
    requires (forall at :: at in genuine ==> !IsFuture(at, now)) && (forall at :: at in future ==> IsFuture(at, now))
    ensures Ascending(genuine) && AllNameable(genuine) && Ats(genuine) == Genuine(Ats(ats), now)
    ensures Ascending(future) && Ats(ats) == Ats(genuine) + Ats(future)
  {
    hide Nameable;
    forall i, j | 0 <= i < j < |genuine| ensures genuine[i] < genuine[j] {
      assert ats[i] == genuine[i] && ats[j] == genuine[j];
    }
    forall i, j | 0 <= i < j < |future| ensures future[i] < future[j] {
      assert ats[|genuine| + i] == future[i] && ats[|genuine| + j] == future[j];
    }
  }

  lemma {:induction false} FutureLeads(genuine: seq<int>, future: seq<int>, prune: seq<int>)
    requires Ascending(genuine + future) && Descending(prune) && Ats(prune) <= Ats(genuine)
    ensures Descending(Reversed(future) + prune)
  {
    var all, lead := genuine + future, Reversed(future);
    forall i, j | 0 <= i < |lead| && 0 <= j < |prune| ensures lead[i] > prune[j] {
      assert prune[j] in Ats(prune);
      var k :| 0 <= k < |genuine| && genuine[k] == prune[j];
      assert all[k] == genuine[k] && all[|genuine| + (|future| - 1 - i)] == lead[i];
    }
    forall i, j | 0 <= i < j < |lead| ensures lead[i] > lead[j] {
      assert all[|genuine| + (|future| - 1 - i)] == lead[i] && all[|genuine| + (|future| - 1 - j)] == lead[j];
    }
  }

  lemma {:induction false} AtsOfBoth(ats: seq<int>, genuine: seq<int>, future: seq<int>,
      rules: Option<Retention.Rules>, now: int, prune: seq<int>)
    requires Ats(ats) == Ats(genuine) + Ats(future) && Ats(genuine) == Genuine(Ats(ats), now) && Genuine(Ats(ats), now) != {}
    requires forall at :: at in future ==> IsFuture(at, now)
    requires |prune| >= |future| && prune[..|future|] == Reversed(future)
    requires Ats(prune[|future|..]) == Ats(genuine) - Retention.Kept(Ats(genuine), rules)
    ensures Ats(prune) == Ats(ats) - Survivors(Ats(ats), rules, now)
  {
    hide Retention.Kept;
    var lead := Reversed(future);
    forall at ensures at in lead <==> at in future {
      if at in future {
        var i :| 0 <= i < |future| && future[i] == at;
        assert lead[|future| - 1 - i] == at;
      }
    }
    var rest := prune[|future|..];
    assert prune == lead + rest;
    KeptIsPart(Genuine(Ats(ats), now), rules);
    forall at ensures at in Ats(prune) <==> at in future || at in Ats(rest) { }
  }

  lemma {:induction false} KeptIsPart(snaps: set<int>, rules: Option<Retention.Rules>)
    ensures Retention.Kept(snaps, rules) <= snaps
  {
  }

  // ---- deleting ------------------------------------------------------------

  ghost function Completes(fs: Fs): set<int> { set e | e in fs && e.Complete? :: e.at }

  /** Only the doomed changed, and a snapshot that is still there is as it was. */
  ghost predicate OnlyPruned(fs: Fs, was: Fs, doomed: set<int>) {
    && (forall e: Entry :: e.Foreign? || e.Partial? ==> LocalStore.Kept(fs, was, e))
    && (forall at :: at !in doomed ==> LocalStore.Kept(fs, was, Complete(at)) && LocalStore.Kept(fs, was, Deleting(at)))
    && (forall at :: Complete(at) in fs ==> LocalStore.Kept(fs, was, Complete(at)))
  }

  /** From command `n` on every command works, and the clock stands still. */
  ghost predicate Calm(fates: Fates, n: nat, now: int) { forall i :: i >= n ==> fates(i).works && fates(i).at == now }

  /** The newest genuine snapshot is not doomed, and no doomed one has a leftover in its way. */
  ghost predicate Prunable(fs: Fs, doomed: set<int>, now: int) {
    && (forall at :: at in doomed ==> Deleting(at) !in fs)
    && (doomed == {} || exists newest :: IsNewestGenuine(fs, newest, now) && newest !in doomed)
  }

  ghost predicate IsNewestGenuine(fs: Fs, newest: int, now: int) {
    && Complete(newest) in fs && !IsFuture(newest, now)
    && forall at :: Complete(at) in fs && !IsFuture(at, now) ==> at <= newest
  }

  lemma {:induction false} DoomedCanGo(fs: Fs, doomed: set<int>, now: int, at: int)
    requires Prunable(fs, doomed, now) && at in doomed && Complete(at) in fs
    ensures CanRemove(fs, now, at)
  {
    var newest :| IsNewestGenuine(fs, newest, now) && newest !in doomed;
    forall ats | ListsComplete(ats, fs) ensures !Undeletable(ats, now, at) {
      assert newest in ats;
    }
  }

  lemma {:induction false} StillPrunable(fs: Fs, was: Fs, doomed: set<int>, now: int, at: int)
    requires Prunable(was, doomed, now) && at in doomed && Removed(fs, was, at) && Deleting(at) !in fs
    ensures Prunable(fs, doomed, now) && Completes(fs) == Completes(was) - {at}
  {
    var newest :| IsNewestGenuine(was, newest, now) && newest !in doomed;
    forall x | x != at ensures LocalStore.Kept(fs, was, Complete(x)) && LocalStore.Kept(fs, was, Deleting(x)) { }
    assert IsNewestGenuine(fs, newest, now);
    forall x ensures x in Completes(fs) <==> x in Completes(was) && x != at {
      if x != at { assert LocalStore.Kept(fs, was, Complete(x)); }
      if x in Completes(fs) { assert Complete(x) in fs; }
    }
  }

  lemma {:induction false} RemovalPrunes(fs: Fs, mid: Fs, was: Fs, doomed: set<int>, at: int)
    requires OnlyPruned(mid, was, doomed) && at in doomed && Removed(fs, mid, at)
    ensures OnlyPruned(fs, was, doomed)
  {
    forall e | e != Complete(at) && e != Deleting(at)
      ensures LocalStore.Kept(fs, mid, e) && (LocalStore.Kept(mid, was, e) ==> LocalStore.Kept(fs, was, e))
    {
    }
    forall e: Entry | e.Foreign? || e.Partial? ensures LocalStore.Kept(fs, was, e) { assert LocalStore.Kept(mid, was, e); }
    forall x | x !in doomed ensures LocalStore.Kept(fs, was, Complete(x)) && LocalStore.Kept(fs, was, Deleting(x)) {
      assert LocalStore.Kept(mid, was, Complete(x)) && LocalStore.Kept(mid, was, Deleting(x));
    }
    forall x | Complete(x) in fs ensures LocalStore.Kept(fs, was, Complete(x)) {
      assert x != at && LocalStore.Kept(fs, mid, Complete(x));
    }
  }

  /** What deleting `gone`, some of the doomed, has left of the archive `was`. */
  ghost predicate PassLeaves(fs: Fs, was: Fs, doomed: set<int>, gone: set<int>) {
    && OnlyPruned(fs, was, doomed)
    && (HasComplete(was) ==> HasComplete(fs))
    && Completes(fs) == Completes(was) - gone
  }

  lemma {:induction false} PassStep(fs: Fs, mid: Fs, was: Fs, fates: Fates, n: nat, doomed: set<int>, gone: set<int>, at: int, ok: bool)
    requires PassLeaves(mid, was, doomed, gone) && at in doomed && RemoveLeaves(fs, mid, fates, n, at, ok)
    ensures PassLeaves(fs, was, doomed, gone) || PassLeaves(fs, was, doomed, gone + {at})
    ensures ok ==> PassLeaves(fs, was, doomed, gone + {at})
  {
    hide CanRemove, OnlyPruned;
    if fs != mid || ok {
      RemovalPrunes(fs, mid, was, doomed, at);
      RemovalLeavesOne(fs, mid, fates(n).at, at);
      forall x ensures x in Completes(fs) <==> x in Completes(mid) && x != at {
        if x != at { assert LocalStore.Kept(fs, mid, Complete(x)); }
        if x in Completes(fs) { assert Complete(x) in fs; }
      }
      assert Completes(fs) == Completes(mid) - {at};
    }
  }

  lemma {:induction false} CalmStep(fs: Fs, mid: Fs, fates: Fates, n: nat, doomed: set<int>, now: int, at: int, ok: bool)
    requires Prunable(mid, doomed, now) && Calm(fates, n, now) && at in doomed && Complete(at) in mid
    requires RemoveLeaves(fs, mid, fates, n, at, ok)
    ensures ok && Prunable(fs, doomed, now)
  {
    hide CanRemove, Prunable, Removed;
    DoomedCanGo(mid, doomed, now, at);
    StillPrunable(fs, mid, doomed, now, at);
  }

  /** Nothing can stop a pass: every command works at one time, and the doomed are there and free to go. */
  ghost predicate GoesCalmly(fates: Fates, n: nat, fs: Fs, doomed: set<int>, now: int) {
    Calm(fates, n, now) && Prunable(fs, doomed, now) && doomed <= Completes(fs)
  }

  /** Nothing newer went before something older. */
  ghost predicate OldestFirst(gone: set<int>, doomed: set<int>) {
    forall a, b :: a in gone && b in doomed && b < a ==> b in gone
  }

  lemma {:induction false} TailIsOldest(prune: seq<int>, i: nat)
    requires Descending(prune) && i <= |prune|
    ensures OldestFirst(Ats(prune[i..]), Ats(prune))
  {
    forall a, b | a in prune[i..] && b in prune && b < a ensures b in prune[i..] {
      var j :| 0 <= j < |prune| && prune[j] == b;
      var k :| 0 <= k < |prune[i..]| && prune[i..][k] == a;
      assert prune[i + k] == a;
      assert j >= i;
      assert prune[i..][j - i] == b;
    }
  }

  /** The retention pass of a run: oldest first, and the first failure ends it. */
  method DeleteOldestFirst(store: LocalSnapshotStore, prune: seq<int>, ghost now: int) returns (ok: bool, ghost gone: set<int>)
    requires store.disk.Valid() && Descending(prune)
    modifies store.disk
    ensures store.disk.Valid() && store.disk.sent >= old(store.disk.sent)
    ensures gone <= Ats(prune) && PassLeaves(store.disk.fs, old(store.disk.fs), Ats(prune), gone)
    ensures OldestFirst(gone, Ats(prune))
    ensures ok ==> gone == Ats(prune)
    ensures GoesCalmly(store.disk.fates, old(store.disk.sent), old(store.disk.fs), Ats(prune), now) ==> ok
  {
    hide Honest, RemoveLeaves, PassLeaves, Prunable;
    ghost var was, n := store.disk.fs, store.disk.sent;
    ghost var calm := GoesCalmly(store.disk.fates, n, was, Ats(prune), now);
    gone := {};
    NoPassYet(was, Ats(prune));
    for i := |prune| downto 0
      invariant store.disk.Valid() && store.disk.sent >= n
      invariant gone == Ats(prune[i..]) && PassLeaves(store.disk.fs, was, Ats(prune), gone)
      invariant calm ==> Prunable(store.disk.fs, Ats(prune), now)
    {
      ghost var mid, m := store.disk.fs, store.disk.sent;
      var at := prune[i];
      assert at in Ats(prune) && prune[i..] == [at] + prune[i + 1..];
      ok := store.Remove(at);
      PassStep(store.disk.fs, mid, was, store.disk.fates, m, Ats(prune), gone, at, ok);
      if calm {
        StillThere(mid, was, Ats(prune), gone, at);
        CalmStep(store.disk.fs, mid, store.disk.fates, m, Ats(prune), now, at, ok);
      }
      TailIsOldest(prune, i);
      TailIsOldest(prune, i + 1);
      if !ok {
        if !PassLeaves(store.disk.fs, was, Ats(prune), gone) { gone := gone + {at}; }
        return;
      }
      gone := gone + {at};
    }
    assert prune[0..] == prune;
    TailIsOldest(prune, 0);
    ok := true;
  }

  lemma {:induction false} NoPassYet(fs: Fs, doomed: set<int>)
    ensures PassLeaves(fs, fs, doomed, {})
  {
  }

  lemma {:induction false} StillThere(mid: Fs, was: Fs, doomed: set<int>, gone: set<int>, at: int)
    requires PassLeaves(mid, was, doomed, gone) && at in Completes(was) && at !in gone
    ensures Complete(at) in mid
  {
    assert at in Completes(mid);
  }

  /** The loop of `prune`: a failed deletion is reported and the next one tried. */
  method DeleteEach(store: LocalSnapshotStore, prune: seq<int>, ghost now: int) returns (failed: seq<int>, ghost gone: set<int>)
    requires store.disk.Valid() && Descending(prune)
    modifies store.disk
    ensures store.disk.Valid() && store.disk.sent >= old(store.disk.sent)
    ensures gone <= Ats(prune) && PassLeaves(store.disk.fs, old(store.disk.fs), Ats(prune), gone)
    ensures forall at :: at in prune <==> at in gone || at in failed
    ensures GoesCalmly(store.disk.fates, old(store.disk.sent), old(store.disk.fs), Ats(prune), now) ==> failed == []
  {
    hide Honest, RemoveLeaves, PassLeaves, Prunable;
    ghost var was, n := store.disk.fs, store.disk.sent;
    ghost var calm := GoesCalmly(store.disk.fates, n, was, Ats(prune), now);
    gone, failed := {}, [];
    NoPassYet(was, Ats(prune));
    for i := |prune| downto 0
      invariant store.disk.Valid() && store.disk.sent >= n
      invariant gone <= Ats(prune[i..]) && (forall at :: at in prune[i..] <==> at in gone || at in failed)
      invariant PassLeaves(store.disk.fs, was, Ats(prune), gone)
      invariant calm ==> Prunable(store.disk.fs, Ats(prune), now) && failed == []
    {
      ghost var mid, m := store.disk.fs, store.disk.sent;
      var at := prune[i];
      assert at in Ats(prune) && prune[i..] == [at] + prune[i + 1..];
      var ok := store.Remove(at);
      PassStep(store.disk.fs, mid, was, store.disk.fates, m, Ats(prune), gone, at, ok);
      if calm {
        StillThere(mid, was, Ats(prune), gone, at);
        CalmStep(store.disk.fs, mid, store.disk.fates, m, Ats(prune), now, at, ok);
      }
      if ok || !PassLeaves(store.disk.fs, was, Ats(prune), gone) { gone := gone + {at}; }
      if !ok { failed := failed + [at]; }
    }
    assert prune[0..] == prune;
  }

  // ---- the plan goes through -----------------------------------------------

  lemma {:induction false} CompletesAre(fs: Fs, ats: seq<int>)
    requires ListsComplete(ats, fs)
    ensures Completes(fs) == Ats(ats)
  {
    forall at | at in ats ensures at in Completes(fs) { assert Complete(at) in fs; }
  }

  lemma {:induction false} Greatest(s: set<int>, some: int) returns (m: int)
    requires some in s
    ensures m in s && forall x :: x in s ==> x <= m
    decreases s
  {
    var above := set x | x in s && x > some;
    if x :| x in above {
      assert some !in above;
      m := Greatest(above, x);
    } else {
      m := some;
    }
    forall x | x in s ensures x <= m { assert x > some ==> x in above; }
  }

  /** What the plan dooms never includes the snapshot the store refuses to delete. */
  lemma {:induction false} PlanIsPrunable(fs: Fs, ats: seq<int>, rules: Option<Retention.Rules>, now: int)
    requires ListsComplete(ats, fs) && forall at :: Deleting(at) !in fs
    ensures var doomed := Ats(ats) - Survivors(Ats(ats), rules, now);
            Prunable(fs, doomed, now) && doomed <= Completes(fs)
  {
    hide Retention.Kept;
    CompletesAre(fs, ats);
    var genuine := Genuine(Ats(ats), now);
    if some :| some in genuine {
      var newest := Greatest(genuine, some);
      Retention.NewestIsKept(genuine, rules, newest);
      forall at | Complete(at) in fs && !IsFuture(at, now) ensures at <= newest { assert at in genuine; }
      assert IsNewestGenuine(fs, newest, now);
    } else {
      assert genuine == {};
    }
  }

  lemma {:induction false} PassIsExact(fs: Fs, was: Fs, ats: seq<int>, rules: Option<Retention.Rules>, now: int)
    requires ListsComplete(ats, was)
    requires Completes(fs) == Completes(was) - (Ats(ats) - Survivors(Ats(ats), rules, now))
    ensures Completes(fs) == Survivors(Completes(was), rules, now)
  {
    CompletesAre(was, ats);
    KeptIsPart(Genuine(Ats(ats), now), rules);
    hide Retention.Kept;
  }

  // ---- the prune command ---------------------------------------------------

  datatype PruneReport = Locked | ListingFailed | Refused | Pruned(failed: seq<int>)

  /** What `prune` leaves, by its report. */
  ghost predicate PruneLeaves(fs: Fs, was: Fs, rules: Option<Retention.Rules>, mark: Option<Mark>, force: bool, now: int, r: PruneReport) {
    match r
    case Pruned(failed) =>
      var all := Completes(was);
      && PassLeaves(fs, was, all - Survivors(all, rules, now), Completes(was) - Completes(fs))
      && (failed == [] ==> Completes(fs) == Survivors(all, rules, now))
      && (force || exists ats :: ListsComplete(ats, was) && DetectInsertion(ats, mark).None?)
    case Refused => fs == was && !force && exists ats :: ListsComplete(ats, was) && DetectInsertion(ats, mark).Some?
    case _ => fs == was
  }

  /**
    `prune` on one target, under the lock: one listing is counted and planned
    over. `now` is the clock, which the listing reads.
   */
  method Prune(store: LocalSnapshotStore, rules: Option<Retention.Rules>, mark: Option<Mark>, force: bool, lockFree: bool)
    returns (r: PruneReport, now: int)
    requires store.disk.Valid() && forall at :: Complete(at) in store.disk.fs ==> Nameable(at)
    modifies store.disk
    ensures store.disk.Valid() && PruneLeaves(store.disk.fs, old(store.disk.fs), rules, mark, force, now, r)
    ensures r.Locked? <==> !lockFree
    ensures r.ListingFailed? <==> lockFree && !store.disk.fates(old(store.disk.sent)).works
    ensures Calm(store.disk.fates, old(store.disk.sent), now) && lockFree && (forall at :: Deleting(at) !in old(store.disk.fs)) ==>
              r.Refused? || r == Pruned([])
  {
    hide Honest, Nameable, Retention.Kept, PassLeaves, Calm;
    now := 0;
    if !lockFree { r := Locked; return; }
    ghost var was, n := store.disk.fs, store.disk.sent;
    var listed, ats;
    listed, ats, now := store.ListComplete();
    assert Calm(store.disk.fates, n, store.disk.fates(n).at) ==> store.disk.fates(n).works by {
      if Calm(store.disk.fates, n, store.disk.fates(n).at) { StaysCalm(store.disk.fates, n, n, store.disk.fates(n).at); }
    }
    if !listed { r := ListingFailed; return; }
    if !force && DetectInsertion(ats, mark).Some? { r := Refused; return; }
    var prune := PlanFor(ats, rules, now);
    ghost var calm := Calm(store.disk.fates, n, now) && forall at :: Deleting(at) !in was;
    if calm {
      PlanIsPrunable(was, ats, rules, now);
      StaysCalm(store.disk.fates, n, store.disk.sent, now);
    }
    var failed, gone := DeleteEach(store, prune, now);
    r := Pruned(failed);
    PassIsCounted(store.disk.fs, was, ats, rules, now, gone);
    if failed == [] {
      assert gone == Ats(prune);
      PassIsExact(store.disk.fs, was, ats, rules, now);
    }
  }

  lemma {:induction false} StaysCalm(fates: Fates, n: nat, m: nat, now: int)
    requires Calm(fates, n, now) && n <= m
    ensures Calm(fates, m, now) && fates(n).works && fates(n).at == now
  {
  }

  lemma {:induction false} PassIsCounted(fs: Fs, was: Fs, ats: seq<int>, rules: Option<Retention.Rules>, now: int, gone: set<int>)
    requires ListsComplete(ats, was) && PassLeaves(fs, was, Ats(ats) - Survivors(Ats(ats), rules, now), gone)
    ensures var all := Completes(was);
            PassLeaves(fs, was, all - Survivors(all, rules, now), all - Completes(fs)) && Completes(fs) == all - gone
  {
    hide Retention.Kept, OnlyPruned;
    CompletesAre(was, ats);
  }
}
