/**
  Failure backoff: the tracker a scheduler keeps in memory, and the same facts
  read back from run reports (src/engine/internal/scheduler.ts,
  src/engine/internal/reports.ts). Reports are listed newest first.
 */
module Backoff {
  import opened Prelude
  import opened Reports

  const BACKOFF_BASE_MS := 900_000
  const BACKOFF_CAP_MS := 21_600_000

  /** Why a target is not backing up: the message, or else the reason, or else nothing. */
  datatype Cause = Said(error: string) | Because(reason: Reason) | NoReason

  datatype Derived = Derived(
    consecutiveFailures: nat, lastFailedAt: Option<int>, lastResult: Option<Status>,
    lastSnapshot: Option<int>, lastSuccessAt: Option<int>, lastError: Option<Cause>, lastErrorAt: Option<int>)

  // ---- the delay -----------------------------------------------------------

  function Pow2(n: nat): nat { if n == 0 then 1 else 2 * Pow2(n - 1) }

  function BackoffDelayMs(failures: int): int {
    if failures <= 0 then 0
    else
      var delay := BACKOFF_BASE_MS * Pow2(failures - 1);
      if delay < BACKOFF_CAP_MS then delay else BACKOFF_CAP_MS
  }

  lemma {:induction false} Pow2Grows(n: nat)
    requires n >= 5
    ensures Pow2(n) >= 32
    decreases n
  {
    if n > 5 { Pow2Grows(n - 1); }
  }

  function AtMostSix(n: nat): nat { if n < 6 then n else 6 }

  /** The delay tells failure counts apart up to six, and no further. */
  lemma {:induction false} DelayTellsUpToSix(a: nat, b: nat)
    ensures BackoffDelayMs(a) == BackoffDelayMs(b) <==> AtMostSix(a) == AtMostSix(b)
    ensures a <= b ==> BackoffDelayMs(a) <= BackoffDelayMs(b) <= BACKOFF_CAP_MS
  {
    DelayOf(a);
    DelayOf(b);
  }

  lemma {:induction false} DelayOf(n: nat)
    ensures BackoffDelayMs(n) == [0, 900_000, 1_800_000, 3_600_000, 7_200_000, 14_400_000, 21_600_000][AtMostSix(n)]
  {
    assert Pow2(0) == 1 && Pow2(1) == 2 && Pow2(2) == 4 && Pow2(3) == 8 && Pow2(4) == 16;
    if n >= 6 { Pow2Grows(n - 1); }
  }

  // ---- the tracker ---------------------------------------------------------

  /** One target's backoff: consecutive failures, and when the newest of them finished. */
  datatype State = State(failures: nat, anchor: Option<int>)

  const CLEAR := State(0, None)

  function Step(s: State, status: Status, finishedAt: Option<int>): State {
    match status
    case Failed => State(s.failures + 1, finishedAt)
    case Success => CLEAR
    case Warning => CLEAR
    case _ => s
  }

  function UntilOf(s: State): Option<int> {
    if s.failures == 0 || s.anchor.None? then None else Some(s.anchor.value + BackoffDelayMs(s.failures))
  }

  /** A first failure waits a quarter of an hour from its end, every further one twice as long, up to six hours. */
  lemma {:induction false} WaitDoubles(failures: nat, anchor: int)
    requires failures > 0
    ensures UntilOf(State(1, Some(anchor))) == Some(anchor + 15 * 60_000)
    ensures var wait := UntilOf(State(failures, Some(anchor))); var longer := UntilOf(State(failures + 1, Some(anchor)));
            && wait.Some? && longer.Some?
            && longer.value - anchor == (if 2 * (wait.value - anchor) < 6 * 3_600_000 then 2 * (wait.value - anchor) else 6 * 3_600_000)
    ensures UntilOf(State(0, Some(anchor))).None? && UntilOf(State(failures, None)).None?
  {
    DelayOf(1);
    DelayOf(failures);
    DelayOf(failures + 1);
  }

  class BackoffTracker {
    var state: map<string, State>

    constructor ()
      ensures state == map[]
    {
      state := map[];
    }

    function For(target: string): State
      reads this
    {
      if target in state then state[target] else CLEAR
    }

    method Rehydrate(target: string, derived: Derived)
      modifies this
      ensures state == old(state)[target := State(derived.consecutiveFailures, derived.lastFailedAt)]
    {
      state := state[target := State(derived.consecutiveFailures, derived.lastFailedAt)];
    }

    /** Success and warning clear the state, a failure extends it, the rest leave it alone. */
    method Record(target: string, status: Status, finishedAt: int)
      modifies this
      ensures For(target) == Step(old(For(target)), status, Some(finishedAt))
      ensures forall other :: other != target ==> For(other) == old(For(other))
    {
      var current := For(target);
      if status == Failed {
        state := state[target := State(current.failures + 1, Some(finishedAt))];
      } else if status == Success || status == Warning {
        state := state[target := CLEAR];
      }
    }

    method UntilFor(target: string) returns (until: Option<int>)
      ensures until == UntilOf(For(target))
    {
      if target !in state || state[target].failures == 0 || state[target].anchor.None? { return None; }
      return Some(state[target].anchor.value + BackoffDelayMs(state[target].failures));
    }
  }

  /** The tracker after recording the reports from `i` on, oldest first. */
  function Tracked(reports: seq<Report>, i: nat): State
    requires i <= |reports|
    decreases |reports| - i
  {
    if i == |reports| then CLEAR
    else Step(Tracked(reports, i + 1), reports[i].status, reports[i].finishedAt)
  }

  // ---- what the reports say ------------------------------------------------

  predicate Completed(r: Report) { r.status == Success || r.status == Warning }

  /** The two skips that mean a target is not backing up. */
  predicate Blocking(r: Report) { r.status == Skipped && (r.reason == Some(LockHeld) || r.reason == Some(DiskLow)) }

  predicate Troubled(r: Report) { r.status == Failed || Blocking(r) }

  function CauseOf(r: Report): Cause {
    if r.error.Some? then Said(r.error.value) else if r.reason.Some? then Because(r.reason.value) else NoReason
  }

  /** The streak: everything newer than the newest completed run. */
  function StreakEnd(reports: seq<Report>, i: nat): (end: nat)
    requires i <= |reports|
    ensures i <= end <= |reports| && (end < |reports| ==> Completed(reports[end]))
    ensures forall k :: i <= k < end ==> !Completed(reports[k])
    decreases |reports| - i
  {
    if i < |reports| && !Completed(reports[i]) then StreakEnd(reports, i + 1) else i
  }

  /** The failed reports among `reports[i..end]`. */
  function Failures(reports: seq<Report>, i: nat, end: nat): nat
    requires i <= end <= |reports|
    decreases end - i
  {
    if i == end then 0 else (if reports[i].status == Failed then 1 else 0) + Failures(reports, i + 1, end)
  }

  /** `k` is the newest report of the streak that says why the target is not backing up. */
  ghost predicate NewestTrouble(reports: seq<Report>, k: nat) {
    && k < StreakEnd(reports, 0) && Troubled(reports[k])
    && forall j :: 0 <= j < k ==> !Troubled(reports[j])
  }

  /** Everything `deriveBackoff` reports, field by field. */
  ghost predicate Derives(reports: seq<Report>, d: Derived) {
    var end := StreakEnd(reports, 0);
    && d.consecutiveFailures == Failures(reports, 0, end)
    && d.lastResult == (if |reports| > 0 then Some(reports[0].status) else None)
    && d.lastSnapshot == (if end < |reports| then reports[end].snapshot else None)
    && d.lastSuccessAt == (if end < |reports| then reports[end].startedAt else None)
    && (forall k: nat :: NewestTrouble(reports, k) ==>
          && d.lastError == Some(CauseOf(reports[k])) && d.lastErrorAt == reports[k].finishedAt
          && d.lastFailedAt == (if reports[k].status == Failed then reports[k].finishedAt else None))
    && ((forall k :: 0 <= k < end ==> !Troubled(reports[k])) ==>
          d.lastError == None && d.lastErrorAt == None && d.lastFailedAt == None)
  }

  /** The part of the scan that has read `reports[..i]`. */
  ghost predicate Scanned(reports: seq<Report>, i: nat, failures: nat, failedAt: Option<int>, error: Option<Cause>, errorAt: Option<int>)
    requires i <= StreakEnd(reports, 0)
  {
    && failures + Failures(reports, i, StreakEnd(reports, 0)) == Failures(reports, 0, StreakEnd(reports, 0))
    && (error.None? ==> failedAt == None && errorAt == None && forall j :: 0 <= j < i ==> !Troubled(reports[j]))
    && (error.Some? ==> exists k: nat ::
          && k < i && NewestTrouble(reports, k)
          && error == Some(CauseOf(reports[k])) && errorAt == reports[k].finishedAt
          && failedAt == if reports[k].status == Failed then reports[k].finishedAt else None)
  }

  method DeriveBackoff(reports: seq<Report>) returns (d: Derived)
    ensures Derives(reports, d)
  {
    var failures: nat, failedAt: Option<int>, error: Option<Cause>, errorAt: Option<int> := 0, None, None, None;
    var snapshot: Option<int>, successAt: Option<int> := None, None;
    ghost var end := StreakEnd(reports, 0);
    var i := 0;
    while i < |reports|
      invariant i <= end && Scanned(reports, i, failures, failedAt, error, errorAt)
      invariant snapshot == None && successAt == None
      decreases |reports| - i
    {
      var r := reports[i];
      if Completed(r) {
        snapshot, successAt := r.snapshot, r.startedAt;
        break;
      }
      EndAfter(reports, i);
      if r.status == Failed { failures := failures + 1; }
      if error.None? && Troubled(r) {
        error, errorAt := Some(CauseOf(r)), r.finishedAt;
        if r.status == Failed { failedAt := r.finishedAt; }
        assert NewestTrouble(reports, i);
      }
      i := i + 1;
    }
    EndAt(reports, i);
    d := Derived(failures, failedAt, if |reports| > 0 then Some(reports[0].status) else None,
                 snapshot, successAt, error, errorAt);
    ScanDerives(reports, d);
  }

  lemma {:induction false} EndAfter(reports: seq<Report>, i: nat)
    requires i < |reports| && i <= StreakEnd(reports, 0) && !Completed(reports[i])
    ensures i < StreakEnd(reports, 0)
  {
  }

  lemma {:induction false} EndAt(reports: seq<Report>, i: nat)
    requires i <= StreakEnd(reports, 0) && (i < |reports| ==> Completed(reports[i]))
    ensures i == StreakEnd(reports, 0)
  {
  }

  lemma {:induction false} ScanDerives(reports: seq<Report>, d: Derived)
    requires Scanned(reports, StreakEnd(reports, 0), d.consecutiveFailures, d.lastFailedAt, d.lastError, d.lastErrorAt)
    requires d.lastResult == if |reports| > 0 then Some(reports[0].status) else None
    requires var end := StreakEnd(reports, 0);
             && d.lastSnapshot == (if end < |reports| then reports[end].snapshot else None)
             && d.lastSuccessAt == (if end < |reports| then reports[end].startedAt else None)
    ensures Derives(reports, d)
  {
    hide StreakEnd, Failures;
    assert Failures(reports, StreakEnd(reports, 0), StreakEnd(reports, 0)) == 0 by { NoFailures(reports, StreakEnd(reports, 0)); }
  }

  lemma {:induction false} NoFailures(reports: seq<Report>, i: nat)
    requires i <= |reports|
    ensures Failures(reports, i, i) == 0
  {
  }

  // ---- the two agree -------------------------------------------------------

  /** The newest failure of the streak. */
  ghost predicate NewestFailure(reports: seq<Report>, k: nat) {
    && k < StreakEnd(reports, 0) && reports[k].status == Failed
    && forall j :: 0 <= j < k ==> reports[j].status != Failed
  }

  /** A `lock-held` or `disk-low` skip newer than the newest failure. */
  ghost predicate BlockedSince(reports: seq<Report>) {
    exists j, k: nat :: 0 <= j < k && NewestFailure(reports, k) && Blocking(reports[j])
  }

  lemma {:induction false} TrackedIsStreak(reports: seq<Report>, i: nat)
    requires i <= |reports|
    ensures var end := StreakEnd(reports, i); var s := Tracked(reports, i);
            && s.failures == Failures(reports, i, end)
            && (s.failures == 0 ==> s.anchor == None)
            && (s.failures > 0 ==> exists k ::
                  && i <= k < end && reports[k].status == Failed && s.anchor == reports[k].finishedAt
                  && forall j :: i <= j < k ==> reports[j].status != Failed)
    decreases |reports| - i
  {
    if i < |reports| && !Completed(reports[i]) { TrackedIsStreak(reports, i + 1); }
  }

  /** For every history the failure counts agree. */
  lemma {:induction false} FailureCountsAgree(reports: seq<Report>, d: Derived)
    requires Derives(reports, d)
    ensures d.consecutiveFailures == Tracked(reports, 0).failures
  {
    TrackedIsStreak(reports, 0);
  }

  /** What the reports say of the anchor: that of the newest failure, unless a blocking skip is newer. */
  lemma {:induction false} DerivedAnchor(reports: seq<Report>, d: Derived)
    requires Derives(reports, d)
    ensures d.lastFailedAt == if BlockedSince(reports) then None else Tracked(reports, 0).anchor
    ensures BlockedSince(reports) ==> d.consecutiveFailures > 0
  {
    hide StreakEnd, Tracked, Failures;
    TrackedIsStreak(reports, 0);
    var end := StreakEnd(reports, 0);
    if Tracked(reports, 0).failures > 0 {
      var k :| 0 <= k < end && reports[k].status == Failed && Tracked(reports, 0).anchor == reports[k].finishedAt
        && forall j :: 0 <= j < k ==> reports[j].status != Failed;
      assert NewestFailure(reports, k);
      var t := FirstTrouble(reports, k);
      assert NewestTrouble(reports, t);
    } else {
      NoFailureNoAnchor(reports, d);
    }
  }

  /**
    With valid dates the anchors agree exactly when no blocking skip is newer
    than the newest failure: such a skip makes a restart forget the backoff.
   */
  lemma {:induction false} AnchorsAgreeExactly(reports: seq<Report>, d: Derived)
    requires Derives(reports, d)
    requires forall k :: 0 <= k < |reports| ==> reports[k].finishedAt.Some?
    ensures d.lastFailedAt == Tracked(reports, 0).anchor <==> !BlockedSince(reports)
    ensures BlockedSince(reports) ==> UntilOf(State(d.consecutiveFailures, d.lastFailedAt)).None? && UntilOf(Tracked(reports, 0)).Some?
  {
    hide StreakEnd, Tracked, Failures, BlockedSince;
    DerivedAnchor(reports, d);
    TrackedIsStreak(reports, 0);
  }

  // ---- in step with the reports, run after run -----------------------------

  /** The tracker has the failures the reports tell, and their anchor unless a restart forgot it. */
  ghost predicate InStep(s: State, reports: seq<Report>) {
    && s.failures == Tracked(reports, 0).failures
    && (s.anchor == Tracked(reports, 0).anchor || (s.anchor == None && BlockedSince(reports)))
  }

  lemma {:induction false} DerivedIsInStep(reports: seq<Report>, d: Derived)
    requires Derives(reports, d)
    ensures InStep(State(d.consecutiveFailures, d.lastFailedAt), reports)
  {
    hide Derives, Tracked, BlockedSince;
    FailureCountsAgree(reports, d);
    DerivedAnchor(reports, d);
  }

  /** One more report, recorded on both sides, keeps them in step. */
  lemma {:induction false} StaysInStep(s: State, reports: seq<Report>, report: Report)
    requires InStep(s, reports)
    ensures InStep(Step(s, report.status, report.finishedAt), [report] + reports)
  {
    hide Tracked, BlockedSince;
    TrackedNext(report, reports);
    if BlockedSince(reports) && report.status != Failed && !Completed(report) { StillBlocked(report, reports); }
  }

  lemma {:induction false} StillBlocked(report: Report, reports: seq<Report>)
    requires BlockedSince(reports) && report.status != Failed && !Completed(report)
    ensures BlockedSince([report] + reports)
  {
    hide StreakEnd, Blocking;
    var all := [report] + reports;
    var j, k: nat :| 0 <= j < k && NewestFailure(reports, k) && Blocking(reports[j]);
    StreakShift(report, reports, 0);
    EndOf(all);
    assert all[k + 1] == reports[k] && all[j + 1] == reports[j];
    forall i | 0 <= i < k + 1 ensures all[i].status != Failed { if i > 0 { assert all[i] == reports[i - 1]; } }
    assert NewestFailure(all, k + 1);
  }

  lemma {:induction false} EndOf(reports: seq<Report>)
    requires reports != [] && !Completed(reports[0])
    ensures StreakEnd(reports, 0) == StreakEnd(reports, 1)
  {
  }

  lemma {:induction false} StreakShift(report: Report, reports: seq<Report>, i: nat)
    requires i <= |reports|
    ensures StreakEnd([report] + reports, i + 1) == StreakEnd(reports, i) + 1
    decreases |reports| - i
  {
    if i < |reports| {
      assert ([report] + reports)[i + 1] == reports[i];
      if !Completed(reports[i]) { StreakShift(report, reports, i + 1); }
    }
  }

  lemma {:induction false} TrackedShift(report: Report, reports: seq<Report>, i: nat)
    requires i <= |reports|
    ensures Tracked([report] + reports, i + 1) == Tracked(reports, i)
    decreases |reports| - i
  {
    var all := [report] + reports;
    if i < |reports| {
      assert all[i + 1] == reports[i];
      TrackedShift(report, reports, i + 1);
    }
  }

  lemma {:induction false} TrackedNext(report: Report, reports: seq<Report>)
    ensures Tracked([report] + reports, 0) == Step(Tracked(reports, 0), report.status, report.finishedAt)
  {
    TrackedShift(report, reports, 0);
  }

  // ---- what status shows, report by report ---------------------------------

  /** The message of a report that has none: its reason, or nothing. */
  predicate Tells(r: Report, cause: Option<Cause>) {
    match cause
    case None => false
    case Some(Said(error)) => r.error == Some(error)
    case Some(Because(reason)) => r.error.None? && r.reason == Some(reason)
    case Some(NoReason) => r.error.None? && r.reason.None?
  }

  /**
    What one more report changes: a completed run starts afresh from itself, a
    failure counts and is the one to tell and to wait from, a run that found
    the lock held or the disk low is the one to tell and takes the wait away,
    and any other changes nothing but the last result.
   */
  lemma {:induction false} DerivesNext(report: Report, reports: seq<Report>, d: Derived, e: Derived)
    requires Derives(reports, d) && Derives([report] + reports, e)
    ensures e.lastResult == Some(report.status)
    ensures report.status == Success || report.status == Warning ==>
              e == Derived(0, None, Some(report.status), report.snapshot, report.startedAt, None, None)
    ensures report.status == Failed ==>
              && e.consecutiveFailures == d.consecutiveFailures + 1 && e.lastFailedAt == report.finishedAt
              && Tells(report, e.lastError) && e.lastErrorAt == report.finishedAt
              && e.lastSnapshot == d.lastSnapshot && e.lastSuccessAt == d.lastSuccessAt
    ensures report.status == Skipped && report.reason in {Some(LockHeld), Some(DiskLow)} ==>
              && Tells(report, e.lastError) && e.lastErrorAt == report.finishedAt
              && e == d.(lastResult := Some(Skipped), lastFailedAt := None, lastError := e.lastError, lastErrorAt := e.lastErrorAt)
    ensures report.status == Aborted || (report.status == Skipped && report.reason !in {Some(LockHeld), Some(DiskLow)}) ==>
              e == d.(lastResult := Some(report.status))
  {
    hide StreakEnd, Failures;
    var all := [report] + reports;
    StreakNext(report, reports);
    if !Completed(report) {
      TroubleNext(report, reports);
      if k: nat :| NewestTrouble(reports, k) {
        assert all[k + 1] == reports[k];
      } else {
        NoTrouble(reports);
        NoTroubleNext(report, reports);
      }
    } else {
      assert NoneTroubled(all, 0);
    }
  }

  ghost predicate NoneTroubled(reports: seq<Report>, end: int)
    requires end <= |reports|
  {
    forall k :: 0 <= k < end ==> !Troubled(reports[k])
  }

  lemma {:induction false} StreakNext(report: Report, reports: seq<Report>)
    ensures var all := [report] + reports;
            if Completed(report) then StreakEnd(all, 0) == 0 && Failures(all, 0, 0) == 0
            else && StreakEnd(all, 0) == StreakEnd(reports, 0) + 1
                 && Failures(all, 0, StreakEnd(all, 0)) ==
                    Failures(reports, 0, StreakEnd(reports, 0)) + if report.status == Failed then 1 else 0
  {
    var all := [report] + reports;
    if !Completed(report) {
      StreakShift(report, reports, 0);
      FailuresShift(report, reports, 0, StreakEnd(reports, 0));
    }
  }

  lemma {:induction false} FailuresShift(report: Report, reports: seq<Report>, i: nat, end: nat)
    requires i <= end <= |reports|
    ensures Failures([report] + reports, i + 1, end + 1) == Failures(reports, i, end)
    decreases end - i
  {
    if i < end {
      assert ([report] + reports)[i + 1] == reports[i];
      FailuresShift(report, reports, i + 1, end);
    }
  }

  lemma {:induction false} NoTrouble(reports: seq<Report>)
    requires forall k: nat :: !NewestTrouble(reports, k)
    ensures NoneTroubled(reports, StreakEnd(reports, 0))
  {
    hide StreakEnd;
    forall k | 0 <= k < StreakEnd(reports, 0) ensures !Troubled(reports[k]) {
      if Troubled(reports[k]) {
        var t := SomeTrouble(reports, k);
        assert false;
      }
    }
  }

  lemma {:induction false} SomeTrouble(reports: seq<Report>, k: nat) returns (t: nat)
    requires k < StreakEnd(reports, 0) && Troubled(reports[k])
    ensures NewestTrouble(reports, t)
  {
    hide StreakEnd;
    t := FirstTrouble(reports, k);
  }

  lemma {:induction false} TroubleNext(report: Report, reports: seq<Report>)
    requires !Completed(report)
    ensures Troubled(report) ==> NewestTrouble([report] + reports, 0)
    ensures !Troubled(report) ==> forall k: nat :: NewestTrouble(reports, k) ==> NewestTrouble([report] + reports, k + 1)
  {
    hide StreakEnd;
    StreakNext(report, reports);
    var all := [report] + reports;
    if !Troubled(report) {
      forall k: nat | NewestTrouble(reports, k) ensures NewestTrouble(all, k + 1) {
        assert all[k + 1] == reports[k];
        forall j | 0 <= j < k + 1 ensures !Troubled(all[j]) { if j > 0 { assert all[j] == reports[j - 1]; } }
      }
    }
  }

  lemma {:induction false} NoTroubleNext(report: Report, reports: seq<Report>)
    requires !Completed(report) && NoneTroubled(reports, StreakEnd(reports, 0))
    ensures !Troubled(report) ==> NoneTroubled([report] + reports, StreakEnd([report] + reports, 0))
  {
    hide StreakEnd;
    StreakNext(report, reports);
    var all := [report] + reports;
    if !Troubled(report) {
      forall k | 0 <= k < StreakEnd(all, 0) ensures !Troubled(all[k]) { if k > 0 { assert all[k] == reports[k - 1]; } }
    }
  }

  /** A restart computes the same backoff exactly unless there is one and a blocking skip is newer than its failure. */
  lemma {:induction false} RestartAgrees(s: State, reports: seq<Report>, d: Derived)
    requires InStep(s, reports) && Derives(reports, d)
    ensures UntilOf(s) == UntilOf(State(d.consecutiveFailures, d.lastFailedAt)) <==> s.anchor.None? || !BlockedSince(reports)
  {
    hide Derives, Tracked, BlockedSince, BackoffDelayMs;
    DerivedAnchor(reports, d);
    FailureCountsAgree(reports, d);
  }

  lemma {:induction false} FirstTrouble(reports: seq<Report>, k: nat) returns (t: nat)
    requires k < |reports| && Troubled(reports[k])
    ensures t <= k && Troubled(reports[t]) && forall j :: 0 <= j < t ==> !Troubled(reports[j])
  {
    t := 0;
    while !Troubled(reports[t])
      invariant t <= k && forall j :: 0 <= j < t ==> !Troubled(reports[j])
      decreases k - t
    {
      t := t + 1;
    }
  }

  lemma {:induction false} FailuresCount(reports: seq<Report>, i: nat, end: nat, k: nat)
    requires i <= k < end <= |reports| && reports[k].status == Failed
    ensures Failures(reports, i, end) > 0
    decreases end - i
  {
    if i < k { FailuresCount(reports, i + 1, end, k); }
  }

  lemma {:induction false} NoFailureNoAnchor(reports: seq<Report>, d: Derived)
    requires Derives(reports, d) && d.consecutiveFailures == 0
    ensures d.lastFailedAt == None && !BlockedSince(reports)
  {
    hide StreakEnd, Failures;
    var end := StreakEnd(reports, 0);
    forall k | 0 <= k < end ensures reports[k].status != Failed {
      if reports[k].status == Failed { FailuresCount(reports, 0, end, k); }
    }
    if exists k :: 0 <= k < end && Troubled(reports[k]) {
      var k :| 0 <= k < end && Troubled(reports[k]);
      var t := FirstTrouble(reports, k);
      assert NewestTrouble(reports, t);
    }
  }

  /** Whatever a restart forgot, the next run that fails or completes restores. */
  lemma {:induction false} NextRunHeals(reports: seq<Report>, d: Derived, status: Status, finishedAt: int)
    requires Derives(reports, d) && (status == Failed || status == Success || status == Warning)
    ensures Step(State(d.consecutiveFailures, d.lastFailedAt), status, Some(finishedAt)) ==
            Step(Tracked(reports, 0), status, Some(finishedAt))
  {
    hide Derives, Tracked;
    FailureCountsAgree(reports, d);
  }

  // ---- rotated reports -----------------------------------------------------

  lemma {:induction false} StreakOfPart(reports: seq<Report>, n: nat, i: nat)
    requires i <= n <= |reports|
    ensures StreakEnd(reports[..n], i) == if StreakEnd(reports, i) < n then StreakEnd(reports, i) else n
    decreases n - i
  {
    if i < n && !Completed(reports[i]) { StreakOfPart(reports, n, i + 1); }
  }

  lemma {:induction false} FailuresOfPart(reports: seq<Report>, n: nat, i: nat, end: nat)
    requires i <= end <= n <= |reports|
    ensures Failures(reports[..n], i, end) == Failures(reports, i, end)
    decreases end - i
  {
    if i < end { FailuresOfPart(reports, n, i + 1, end); }
  }

  lemma {:induction false} SomeFailure(reports: seq<Report>, i: nat, end: nat) returns (k: nat)
    requires i <= end <= |reports| && Failures(reports, i, end) > 0
    ensures i <= k < end && reports[k].status == Failed
    decreases end - i
  {
    if reports[i].status == Failed { k := i; } else { k := SomeFailure(reports, i + 1, end); }
  }

  lemma {:induction false} FailuresGrow(reports: seq<Report>, i: nat, end: nat, more: nat)
    requires i <= end <= more <= |reports|
    ensures Failures(reports, i, end) <= Failures(reports, i, more)
    decreases end - i
  {
    if i < end { FailuresGrow(reports, i + 1, end, more); }
  }

  /** Only the newest `n` reports are left: the delay is the same when they hold six failures of the streak, or the whole streak. */
  lemma {:induction false} SixFailuresAreEnough(reports: seq<Report>, n: nat, d: Derived, e: Derived)
    requires n <= |reports| && Derives(reports, d) && Derives(reports[..n], e)
    ensures BackoffDelayMs(e.consecutiveFailures) == BackoffDelayMs(d.consecutiveFailures) <==>
              e.consecutiveFailures >= 6 || e.consecutiveFailures == d.consecutiveFailures
    ensures e.consecutiveFailures <= d.consecutiveFailures
    ensures e.consecutiveFailures > 0 ==> e.lastError == d.lastError && e.lastFailedAt == d.lastFailedAt
    ensures e.consecutiveFailures >= 6 ==>
              UntilOf(State(e.consecutiveFailures, e.lastFailedAt)) == UntilOf(State(d.consecutiveFailures, d.lastFailedAt))
  {
    hide StreakEnd, Failures, BackoffDelayMs;
    var end, cut := StreakEnd(reports, 0), StreakEnd(reports[..n], 0);
    StreakOfPart(reports, n, 0);
    FailuresOfPart(reports, n, 0, cut);
    FailuresGrow(reports, 0, cut, end);
    DelayTellsUpToSix(e.consecutiveFailures, d.consecutiveFailures);
    if e.consecutiveFailures > 0 {
      var k := SomeFailure(reports, 0, cut);
      var t := FirstTrouble(reports, k);
      assert reports[..n][t] == reports[t];
      assert NewestTrouble(reports, t);
      assert NewestTrouble(reports[..n], t);
    }
  }
}
