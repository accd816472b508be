/**
  What a daemon remembers between ticks: run reports and the backoff tracker
  kept in step (src/engine/backupkit.ts, `runOne`), and the scheduler's decision
  to run a target (src/engine/internal/scheduler.ts, `tick`).
 */
module Daemon {
  import opened Prelude
  import opened Reports
  import opened Backoff
  import Schedule

  const DISK_LOW_RECHECK_MS := 300_000

  /** What the pipeline did: a report, or `LockHeldError`; `low` says whether its disk guard found the archive low. */
  datatype Ran = Finished(report: Report, low: Option<bool>) | Locked(held: Report)

  function ReportsOf(reports: map<string, seq<Report>>, target: string): seq<Report> {
    if target in reports then reports[target] else []
  }

  predicate DiskIsLow(r: Report) { r.status == Skipped && r.reason == Some(DiskLow) }

  class Engine {
    var reports: map<string, seq<Report>>
    const tracker: BackoffTracker
    var rehydrated: set<string>
    var lockHeldSince: map<string, int>
    var diskLowCheckedAt: map<string, int>
    var diskLow: set<string>

    /** In memory a rehydrated target is in step with its reports, and the others have no failures. */
    ghost predicate Valid()
      reads this, tracker
    {
      forall t :: if t in rehydrated then InStep(tracker.For(t), ReportsOf(reports, t)) else tracker.For(t) == CLEAR
    }

    /** A restart: only the reports are left. */
    constructor (reports: map<string, seq<Report>>)
      ensures Valid() && this.reports == reports && rehydrated == {} && fresh(tracker)
    {
      this.reports := reports;
      rehydrated, lockHeldSince, diskLowCheckedAt, diskLow := {}, map[], map[], {};
      tracker := new BackoffTracker();
    }

    /** Once per target: the tracker learns what the reports say. */
    method EnsureBackoffState(target: string)
      requires Valid()
      modifies this`rehydrated, tracker
      ensures Valid() && rehydrated == old(rehydrated) + {target}
      ensures forall t :: t != target || t in old(rehydrated) ==> tracker.For(t) == old(tracker.For(t))
      ensures target !in old(rehydrated) ==>
                exists d :: Derives(ReportsOf(reports, target), d) && tracker.For(target) == State(d.consecutiveFailures, d.lastFailedAt)
    {
      if target in rehydrated { return; }
      rehydrated := rehydrated + {target};
      var derived := DeriveBackoff(ReportsOf(reports, target));
      DerivedIsInStep(ReportsOf(reports, target), derived);
      tracker.Rehydrate(target, derived);
    }

    /** Writes one report, newest first, and feeds the tracker unless it is a synthetic `lock-held` skip. */
    method Persist(target: string, report: Report, feed: bool)
      requires Valid() && report.finishedAt.Some? && (feed || report.status == Skipped)
      modifies this`rehydrated, this`reports, tracker
      ensures Valid() && rehydrated == old(rehydrated) + {target}
      ensures reports == old(reports)[target := [report] + ReportsOf(old(reports), target)]
      ensures forall t :: t != target ==> tracker.For(t) == old(tracker.For(t))
      ensures target in old(rehydrated) ==>
                tracker.For(target) == Step(old(tracker.For(target)), report.status, report.finishedAt)
    {
      EnsureBackoffState(target);
      var before := ReportsOf(reports, target);
      reports := reports[target := [report] + before];
      StaysInStep(tracker.For(target), before, report);
      if feed { tracker.Record(target, report.status, report.finishedAt.value); }
    }

    /** The synthetic skip that answers while the archive stays low: nothing is run and nothing is written. */
    predicate Throttled(target: string, now: int, force: bool)
      reads this
    {
      !force && target in diskLowCheckedAt && now - diskLowCheckedAt[target] < DISK_LOW_RECHECK_MS
    }

    /**
      `runOne`: a run is recorded on disk and in memory alike - once for a
      stretch of `lock-held` or `disk-low` skips, and never for a dry run.
     */
    method RunOne(target: string, now: int, ran: Ran, force: bool, dryRun: bool) returns (persisted: bool)
      requires Valid() && (ran.Finished? ==> ran.report.finishedAt.Some?)
      requires ran.Locked? ==> ran.held.finishedAt.Some? && ran.held.status == Skipped
      modifies this, tracker
      ensures Valid()
      ensures persisted <==>
                && !old(Throttled(target, now, force)) && !dryRun
                && match ran
                   case Locked(_) => target !in old(lockHeldSince)
                   case Finished(report, _) => !(target in old(diskLow) && DiskIsLow(report))
      ensures var report := if ran.Locked? then ran.held else ran.report;
              reports == if persisted then old(reports)[target := [report] + ReportsOf(old(reports), target)] else old(reports)
      ensures rehydrated == if persisted then old(rehydrated) + {target} else old(rehydrated)
      ensures forall t :: t != target || !persisted ==> tracker.For(t) == old(tracker.For(t))
      ensures persisted && target in old(rehydrated) ==>
                var report := if ran.Locked? then ran.held else ran.report;
                tracker.For(target) == Step(old(tracker.For(target)), report.status, report.finishedAt)
      ensures old(Throttled(target, now, force)) || ran.Locked? ==> diskLowCheckedAt == old(diskLowCheckedAt) && diskLow == old(diskLow)
      ensures !old(Throttled(target, now, force)) && ran.Finished? ==>
                && diskLowCheckedAt ==
                     (if DiskIsLow(ran.report) then old(diskLowCheckedAt)[target := now] else old(diskLowCheckedAt) - {target})
                && diskLow == match ran.low
                              case None => old(diskLow)
                              case Some(low) => if low then old(diskLow) + {target} else old(diskLow) - {target}
      ensures !old(Throttled(target, now, force)) && ran.Finished? ==> forall later ::
                Throttled(target, later, false) <==>
                  ran.report.status == Skipped && ran.report.reason == Some(DiskLow) && later - now < 5 * 60_000
      ensures forall later :: !Throttled(target, later, true)
      ensures lockHeldSince ==
              if old(Throttled(target, now, force)) then old(lockHeldSince)
              else if ran.Finished? then old(lockHeldSince) - {target}
              else if target in old(lockHeldSince) then old(lockHeldSince)
              else old(lockHeldSince)[target := now]
    {
      hide InStep, Step, ReportsOf;
      persisted := false;
      if Throttled(target, now, force) { return; }
      match ran {
        case Locked(held) =>
          var repeat := target in lockHeldSince;
          if !repeat { lockHeldSince := lockHeldSince[target := now]; }
          if !dryRun && !repeat {
            Persist(target, held, false);
            persisted := true;
          }
        case Finished(report, low) =>
          var wasLow := target in diskLow;
          if low == Some(true) { diskLow := diskLow + {target}; }
          if low == Some(false) { diskLow := diskLow - {target}; }
          lockHeldSince := lockHeldSince - {target};
          diskLowCheckedAt := if DiskIsLow(report) then diskLowCheckedAt[target := now] else diskLowCheckedAt - {target};
          if !dryRun && !(wasLow && DiskIsLow(report)) {
            Persist(target, report, true);
            persisted := true;
          }
      }
    }
  }

  /**
    What a restart would make of a target's backoff: it forgets a wait that is
    still in memory exactly when a `lock-held` or `disk-low` skip is newer than
    the newest failure.
   */
  lemma {:induction false} RestartKeepsBackoff(e: Engine, target: string, d: Derived)
    requires e.Valid() && target in e.rehydrated && Derives(ReportsOf(e.reports, target), d)
    ensures UntilOf(e.tracker.For(target)) == UntilOf(State(d.consecutiveFailures, d.lastFailedAt)) <==>
              e.tracker.For(target).anchor.None? || !BlockedSince(ReportsOf(e.reports, target))
  {
    hide Derives, BlockedSince, InStep;
    RestartAgrees(e.tracker.For(target), ReportsOf(e.reports, target), d);
  }

  // ---- the tick ------------------------------------------------------------

  datatype Decision = BackingOff | Unreachable | DueCheckFailed | NotDue | RunNow

  /** What a due check answers: it fails, or says when the target last fulfilled a window. */
  datatype DueCheck = CheckFails | LastFulfilled(at: Option<int>)

  class Scheduler {
    var newestCache: map<string, Option<int>>
    const tracker: BackoffTracker

    constructor (tracker: BackoffTracker)
      ensures newestCache == map[] && this.tracker == tracker
    {
      newestCache, this.tracker := map[], tracker;
    }

    /** What the tick believes was last fulfilled: the cache, else a due check. */
    function Believed(target: string, check: DueCheck): DueCheck
      reads this
    {
      if target in newestCache then LastFulfilled(newestCache[target]) else check
    }

    /** Backoff comes before any remote work, and a due check is cached. */
    method Decide(target: string, spec: Schedule.Spec, now: int, reachable: bool, check: DueCheck) returns (d: Decision)
      requires Schedule.Valid(spec)
      modifies this`newestCache
      ensures var until := UntilOf(tracker.For(target)); var believed := old(Believed(target, check));
              && (d.BackingOff? <==> until.Some? && now < until.value)
              && (d.Unreachable? <==> !d.BackingOff? && !reachable)
              && (d.DueCheckFailed? <==> !d.BackingOff? && reachable && believed.CheckFails?)
              && (d.RunNow? || d.NotDue? ==> believed.LastFulfilled?)
              && newestCache ==
                   (if d.RunNow? || d.NotDue? then old(newestCache)[target := believed.at] else old(newestCache))
              && (reachable && believed.LastFulfilled? ==>
                    (d.RunNow? <==> Schedule.NextDueAt(spec, believed.at, until, now) == now))
      ensures d.RunNow? ==> Schedule.IsDue(spec, newestCache[target], now)
    {
      hide Schedule.NextDueAt, Schedule.IsDue, Schedule.WindowIndex;
      var until := tracker.UntilFor(target);
      ghost var believed := Believed(target, check);
      if believed.LastFulfilled? {
        Schedule.DueNowIffNextDueIsNow(spec, believed.at, until, now);
      }
      if until.Some? && now < until.value { return BackingOff; }
      if !reachable { return Unreachable; }
      if target !in newestCache {
        if check.CheckFails? { return Decision.DueCheckFailed; }
        newestCache := newestCache[target := check.at];
      }
      var newest := newestCache[target];
      return if Schedule.IsDue(spec, newest, now) then RunNow else NotDue;
    }

    /** After a run: a success is cached by its start, and a `window` skip drops what the cache said. */
    method After(target: string, report: Report)
      modifies this`newestCache
      ensures (report.status == Success || report.status == Warning) && report.startedAt.Some? ==>
                newestCache == old(newestCache)[target := report.startedAt]
      ensures (report.status == Success || report.status == Warning) && report.startedAt.None? ==>
                newestCache == old(newestCache) - {target}
      ensures report.status == Skipped && report.reason == Some(Window) ==> newestCache == old(newestCache) - {target}
      ensures report.status == Failed || report.status == Aborted ==> newestCache == old(newestCache)
      ensures report.status == Skipped && report.reason != Some(Window) ==> newestCache == old(newestCache)
    {
      if report.status == Success || report.status == Warning {
        if report.startedAt.Some? {
          newestCache := newestCache[target := report.startedAt];
        } else {
          newestCache := newestCache - {target};
        }
      } else if report.status == Skipped && report.reason == Some(Window) {
        newestCache := newestCache - {target};
      }
    }
  }
}
