/**
  One run of a snapshot target (src/engine/internal/target-runner.ts:458-834):
  claim, dedup, clock-skew guard, transfer, verify, promote, tripwires and
  retention, over the store of LocalStore. What ssh, rsync and the report files
  answer are inputs; every store command may fail or be the last.
 */
module TargetRun {
  import opened Prelude
  import opened SnapshotName
  import opened FileTree
  import opened LocalStore
  import opened Reports
  import opened Tripwires
  import opened Pruning
  import opened Calendar
  import Schedule
  import Retention

  datatype Answer<T> = Fails | Says(value: T)

  /** A transfer that fails may leave a partial behind; one that ends leaves its content. */
  datatype Transfer = Broke(left: Option<Tree>) | Ended(warning: bool, files: Option<nat>, content: Tree)

  datatype Verdict = Same | Differs | Stopping

  /** What the world answers one run, in the order it is asked; `message` is what its error says, if it has one. */
  datatype World = World(
    lockFree: bool, stoppedBefore: bool, stoppedAfter: bool,
    enoughSpace: Answer<bool>, transfer: Transfer, verify: Answer<Verdict>,
    previousFiles: Answer<Option<nat>>, previousMark: Answer<Option<Mark>>, planNow: int,
    finished: int, message: string)

  datatype Target = Target(schedule: Schedule.Spec, retention: Option<Retention.Rules>)

  /** `LockHeldError` is rethrown; everything else is a report. */
  datatype Outcome = LockIsHeld | Reported(report: Report)

  /** A report from before the transfer; `said` is its error. */
  function Plain(w: World, start: int, status: Status, reason: Option<Reason>, said: Option<string>): Outcome {
    Reported(Report(status, reason, said, Some(start), Some(w.finished), None, None, None, false, false))
  }

  /** The same with what is known once a transfer was begun: the snapshot's name, and its file count. */
  function Begun(w: World, start: int, o: Outcome): Outcome
    requires o.Reported?
  {
    Reported(o.report.(snapshot := Some(NameOf(start)), files := if w.transfer.Ended? then w.transfer.files else None))
  }

  /** What a caught error is reported as. */
  function Caught(w: World, start: int): Outcome {
    Plain(w, start, if w.stoppedAfter then Aborted else Failed, if w.stoppedAfter then Some(Stopped) else None, Some(w.message))
  }

  /** The same, after the tripwires have seen something. */
  function CaughtLate(w: World, start: int, count: Option<nat>, collapsed: bool): Outcome {
    var r := Begun(w, start, Caught(w, start)).report;
    Reported(r.(completeCount := count, collapsed := collapsed))
  }

  // ---- what a run may do to the archive ------------------------------------

  /** One snapshot appeared, after all others, and no other changed. */
  ghost predicate Grew(fs: Fs, was: Fs, name: int) {
    && (forall e: Entry :: (e.Complete? && e.at != name) || e.Foreign? ==> LocalStore.Kept(fs, was, e))
    && Complete(name) !in was && Complete(name) in fs
    && forall at :: Complete(at) in was ==> at < name
  }

  /** No snapshot is in the window of the start, or in a later one. */
  ghost predicate WindowIsFree(fs: Fs, s: Schedule.Spec, start: int)
    requires s.count > 0
  {
    forall at :: Complete(at) in fs ==> Schedule.WindowIndex(s, at) < Schedule.WindowIndex(s, start)
  }

  /** The report counts the complete snapshots of `mid`. */
  ghost predicate CountsAll(mid: Fs, r: Report) { exists ats :: ListsComplete(ats, mid) && r.completeCount == Some(|ats|) }

  /** The snapshot a report names is what was transferred. */
  ghost predicate HoldsTransfer(mid: Fs, w: World, r: Report) {
    w.transfer.Ended? && r.snapshot.Some? && Get(mid, Complete(r.snapshot.value)) == Some(w.transfer.content)
  }

  /** What a report says of an archive that had just grown to `mid`: its count and both tripwires. */
  ghost predicate Settled(mid: Fs, w: World, r: Report) {
    && w.transfer.Ended? && w.previousFiles.Says? && w.previousMark.Says? && HoldsTransfer(mid, w, r)
    && (r.status.Warning? <==> w.transfer.warning)
    && r.files == w.transfer.files && r.collapsed == CollapseAgainst(w.previousFiles.value, w.transfer.files).Some?
    && exists ats ::
         && ListsComplete(ats, mid) && r.completeCount == Some(|ats|)
         && r.inserted == DetectInsertion(ats, w.previousMark.value).Some?
  }

  /** What retention, when it ran, left of an archive that had grown to `mid`. */
  ghost predicate Trimmed(fs: Fs, mid: Fs, t: Target, w: World, r: Report) {
    if t.retention.None? || r.collapsed || r.inserted then fs == mid && r.error.None?
    else
      var all := Completes(mid);
      var doomed := all - Survivors(all, t.retention, w.planNow);
      && PassLeaves(fs, mid, doomed, all - Completes(fs)) && OldestFirst(all - Completes(fs), doomed)
      && (r.error.None? ==> Completes(fs) == Survivors(all, t.retention, w.planNow))
  }

  /** A run that ended in an error: before its promote, or after it with nothing pruned. */
  ghost predicate FailureLeaves(fs: Fs, was: Fs, s: Schedule.Spec, w: World, start: int, force: bool, r: Report)
    requires s.count > 0
  {
    if r.completeCount.None? && Spared(fs, was) then !r.inserted
    else
      && !r.inserted && Grew(fs, was, NameOf(start)) && (force || WindowIsFree(was, s, start)) && r.snapshot == Some(NameOf(start))
      && (r.completeCount.Some? ==> CountsAll(fs, r)) && HoldsTransfer(fs, w, r)
  }

  /** What a run may leave of the archive `was`, by its outcome. */
  ghost predicate RunLeaves(fs: Fs, was: Fs, t: Target, w: World, start: int, force: bool, dryRun: bool, o: Outcome)
    requires t.schedule.count > 0
  {
    if o.LockIsHeld? || dryRun then fs == was && (o.Reported? ==> o.report.completeCount.None? && !o.report.inserted)
    else
      match o.report.status
      case Skipped => Spared(fs, was) && o.report.completeCount.None? && !o.report.inserted
      case Failed => FailureLeaves(fs, was, t.schedule, w, start, force, o.report)
      case Aborted => FailureLeaves(fs, was, t.schedule, w, start, force, o.report)
      case _ =>
        && (force || WindowIsFree(was, t.schedule, start)) && o.report.snapshot == Some(NameOf(start))
        && exists mid :: Grew(mid, was, NameOf(start)) && Settled(mid, w, o.report) && Trimmed(fs, mid, t, w, o.report)
  }

  /** The run promoted and did not fail afterwards. */
  predicate Succeeded(o: Outcome) { o.Reported? && (o.report.status == Success || o.report.status == Warning) }

  /** The report is dated, says why it is no success, and names the snapshot once a transfer was begun, with its file count. */
  predicate Recorded(w: World, start: int, o: Outcome) {
    o.Reported? ==>
      && o.report.startedAt == Some(start) && o.report.finishedAt == Some(w.finished)
      && (!Succeeded(o) ==> o.report.error == if o.report.reason == Some(Window) then None else Some(w.message))
      && (o.report.snapshot.None? ==> o.report.files.None?)
      && (o.report.snapshot.Some? ==>
            o.report.snapshot.value == NameOf(start) && o.report.files == if w.transfer.Ended? then w.transfer.files else None)
  }

  /** A `window` skip and a `clock-skew` failure are what they say. */
  ghost predicate ReasonHolds(was: Fs, s: Schedule.Spec, start: int, force: bool, o: Outcome)
    requires s.count > 0
  {
    && (o.Reported? && o.report.reason == Some(Window) ==>
          && o.report.status.Skipped? && !force
          && exists at :: Complete(at) in was && Schedule.WindowIndex(s, at) == Schedule.WindowIndex(s, start))
    && (o.Reported? && o.report.reason == Some(ClockSkew) ==>
          o.report.status.Failed? && exists at :: Complete(at) in was && at >= NameOf(start))
  }

  ghost predicate AllNamed(fs: Fs) { forall at :: Complete(at) in fs ==> Nameable(at) }

  ghost predicate NoLeftovers(fs: Fs) { forall at :: Deleting(at) !in fs }

  /** A pass over `mid` that nothing can stop goes through. */
  ghost predicate Undisturbed(fates: Fates, n: nat, t: Target, w: World, o: Outcome) {
    o.Reported? && (o.report.status == Success || o.report.status == Warning) && Calm(fates, n, w.planNow) ==> o.report.error.None?
  }

  /** Everything the reports are asked after the promote is answered. */
  predicate ReportsAnswer(w: World) { w.previousFiles.Says? && w.previousMark.Says? }

  /** Space, transfer, verification and reports all go well. */
  predicate AllAnswer(w: World) {
    w.enoughSpace == Says(true) && w.transfer.Ended? && w.verify == Says(Same) && ReportsAnswer(w)
  }

  /** The snapshot would be the newest, and of a window without one. */
  ghost predicate IsNext(was: Fs, s: Schedule.Spec, start: int, force: bool)
    requires s.count > 0
  {
    (forall at :: Complete(at) in was ==> at < NameOf(start)) && (force || WindowIsFree(was, s, start))
  }

  ghost predicate Newest(was: Fs, at: int) { Complete(at) in was && forall x :: Complete(x) in was ==> x <= at }

  /** Where a new snapshot stands to those that are there, as a run finds out in this order. */
  datatype Standing = Unnameable | InWindow | Behind | NextUp

  ghost function StandingOf(was: Fs, s: Schedule.Spec, start: int, force: bool, dryRun: bool): Standing
    requires s.count > 0
  {
    if !dryRun && !Nameable(NameOf(start)) then Unnameable
    else if !force && exists at :: Newest(was, at) && Schedule.WindowIndex(s, at) == Schedule.WindowIndex(s, start) then InWindow
    else if exists at :: Complete(at) in was && NameOf(start) <= at then Behind
    else NextUp
  }

  /** What goes wrong with an error, and not with a verdict. */
  predicate Errs(w: World, stands: Standing, dryRun: bool) {
    || stands.Unnameable?
    || (stands.NextUp? && w.enoughSpace.Fails?)
    || (stands.NextUp? && !dryRun && w.enoughSpace == Says(true) && w.transfer.Broke?)
    || (stands.NextUp? && !dryRun && Transferred(w) && w.verify.Fails?)
    || (stands.NextUp? && !dryRun && Transferred(w) && w.verify == Says(Same) && !ReportsAnswer(w))
  }

  predicate Transferred(w: World) { w.enoughSpace == Says(true) && w.transfer.Ended? }

  /**
    What a run is reported as, when its commands work: each reason exactly when
    it is the case, and each status exactly with its reasons.
   */
  predicate Explained(w: World, stands: Standing, dryRun: bool, r: Report) {
    var goes := !w.stoppedBefore; var next := goes && stands.NextUp?; var saves := next && !dryRun;
    var errs := goes && Errs(w, stands, dryRun);
    && (r.reason == Some(Window) <==> goes && stands.InWindow?)
    && (r.reason == Some(ClockSkew) <==> goes && stands.Behind?)
    && (r.reason == Some(DryRun) <==> next && dryRun && w.enoughSpace.Says?)
    && (r.reason == Some(DiskLow) <==> saves && w.enoughSpace == Says(false))
    && (r.reason == Some(VerifyFailed) <==> saves && Transferred(w) && w.verify == Says(Differs))
    && (r.reason == Some(Stopped) <==>
          w.stoppedBefore || (saves && Transferred(w) && w.verify == Says(Stopping)) || (errs && w.stoppedAfter))
    && (r.reason.None? <==> (errs && !w.stoppedAfter) || (saves && AllAnswer(w)))
    && (r.status.Skipped? <==> r.reason == Some(Window) || r.reason == Some(DiskLow))
    && (r.status.Aborted? <==> r.reason == Some(Stopped))
    && (r.status.Failed? <==> r.reason == Some(ClockSkew) || r.reason == Some(VerifyFailed) || (errs && !w.stoppedAfter))
    && (r.status.Warning? ==> w.transfer.Ended? && w.transfer.warning && !dryRun)
    && (r.snapshot.Some? <==> saves && w.enoughSpace == Says(true))
  }

  /** How a run must end: refused exactly when the lock was held, and explained when the commands to come work (`calm`). */
  ghost predicate Concludes(was: Fs, s: Schedule.Spec, w: World, start: int, force: bool, dryRun: bool, calm: bool, o: Outcome)
    requires s.count > 0
  {
    && (o.LockIsHeld? <==> !w.stoppedBefore && !dryRun && !w.lockFree)
    && (calm && o.Reported? ==> Explained(w, StandingOf(was, s, start, force, dryRun), dryRun, o.report))
  }

  /** So it succeeds exactly when nothing stands against it. */
  lemma {:induction false} SuccessIsEarned(was: Fs, s: Schedule.Spec, w: World, start: int, force: bool, dryRun: bool, o: Outcome)
    requires s.count > 0 && Concludes(was, s, w, start, force, dryRun, true, o)
    ensures !dryRun ==>
              (Succeeded(o) <==>
                !w.stoppedBefore && w.lockFree && Nameable(NameOf(start)) && AllAnswer(w) && IsNext(was, s, start, force))
    ensures dryRun ==> (Succeeded(o) <==> !w.stoppedBefore && w.enoughSpace.Says? && IsNext(was, s, start, force))
  {
    hide Nameable, WindowIsFree, Schedule.WindowIndex, StandingOf, IsNext;
    hide Explained;
    NextUpIsNext(was, s, start, force, dryRun);
    if o.Reported? { SuccessMeans(w, StandingOf(was, s, start, force, dryRun), dryRun, o.report); }
  }

  lemma {:induction false} SuccessMeans(w: World, stands: Standing, dryRun: bool, r: Report)
    requires Explained(w, stands, dryRun, r)
    ensures r.status == Success || r.status == Warning <==>
              !w.stoppedBefore && stands.NextUp? && if dryRun then w.enoughSpace.Says? else AllAnswer(w)
  {
    if !w.stoppedBefore && stands.NextUp? && w.enoughSpace.Says? {
      if w.enoughSpace.value { assert w.enoughSpace == Says(true); } else { assert w.enoughSpace == Says(false); }
      if w.verify.Says? {
        match w.verify.value
        case Same => assert w.verify == Says(Same);
        case Differs => assert w.verify == Says(Differs);
        case Stopping => assert w.verify == Says(Stopping);
      }
    }
  }

  /** A caught error, before or after the transfer was begun. */
  predicate IsCaught(w: World, r: Report) {
    r.status == (if w.stoppedAfter then Aborted else Failed) && r.reason == if w.stoppedAfter then Some(Stopped) else None
  }

  lemma {:induction false} ErrorIsExplained(w: World, stands: Standing, dryRun: bool, r: Report)
    requires !w.stoppedBefore && Errs(w, stands, dryRun) && IsCaught(w, r)
    requires r.snapshot.Some? <==> stands.NextUp? && !dryRun && w.enoughSpace == Says(true)
    ensures Explained(w, stands, dryRun, r)
  {
  }

  /** What is reported without an error, or a stop, or in one go. */
  lemma {:induction false} PlainIsExplained(w: World, stands: Standing, dryRun: bool, r: Report)
    requires r.snapshot.None?
    requires if w.stoppedBefore then r.status.Aborted? && r.reason == Some(Stopped)
             else if stands.InWindow? then r.status.Skipped? && r.reason == Some(Window)
             else if stands.Behind? then r.status.Failed? && r.reason == Some(ClockSkew)
             else if dryRun then stands.NextUp? && w.enoughSpace.Says? && r.status.Success? && r.reason == Some(DryRun)
             else stands.NextUp? && w.enoughSpace == Says(false) && r.status.Skipped? && r.reason == Some(DiskLow)
    ensures Explained(w, stands, dryRun, r)
  {
  }

  /** What is reported of a transfer that ended. */
  lemma {:induction false} SavedIsExplained(w: World, r: Report)
    requires !w.stoppedBefore && Transferred(w) && w.verify.Says? && r.snapshot.Some?
    requires match w.verify.value
             case Stopping => r.status.Aborted? && r.reason == Some(Stopped)
             case Differs => r.status.Failed? && r.reason == Some(VerifyFailed)
             case Same => ReportsAnswer(w) && r.reason.None? && r.status == if w.transfer.warning then Warning else Success
    ensures Explained(w, NextUp, false, r)
  {
  }

  lemma {:induction false} NextUpIsNext(was: Fs, s: Schedule.Spec, start: int, force: bool, dryRun: bool)
    requires s.count > 0
    ensures StandingOf(was, s, start, force, dryRun).NextUp? <==> (dryRun || Nameable(NameOf(start))) && IsNext(was, s, start, force)
  {
    hide Nameable, Schedule.WindowIndex;
    var ats := SomeListing(was);
    NewestStands(was, ats, s, start, force);
    NewestIsLast(was, ats, NameOf(start));
  }

  lemma {:induction false} NewestIsLast(was: Fs, ats: seq<int>, name: int)
    requires ListsComplete(ats, was)
    ensures forall at :: Newest(was, at) <==> |ats| > 0 && at == ats[|ats| - 1]
    ensures (exists at :: Complete(at) in was && name <= at) <==> |ats| > 0 && name <= ats[|ats| - 1]
  {
    if |ats| > 0 {
      var newest := ats[|ats| - 1];
      assert newest in ats;
      forall x | Complete(x) in was ensures x <= newest {
        var i :| 0 <= i < |ats| && ats[i] == x;
      }
    } else {
      forall at ensures Complete(at) !in was { assert at !in ats; }
    }
  }

  method RunTarget(store: LocalSnapshotStore, t: Target, w: World, start: int, force: bool, dryRun: bool) returns (o: Outcome)
    requires store.disk.Valid() && AllNamed(store.disk.fs) && t.schedule.count > 0
    modifies store.disk
    ensures store.disk.Valid()
    ensures RunLeaves(store.disk.fs, old(store.disk.fs), t, w, start, force, dryRun, o)
    ensures ReasonHolds(old(store.disk.fs), t.schedule, start, force, o)
    ensures Concludes(old(store.disk.fs), t.schedule, w, start, force, dryRun, Calm(store.disk.fates, old(store.disk.sent), w.planNow), o)
    ensures Undisturbed(store.disk.fates, old(store.disk.sent), t, w, o) && Recorded(w, start, o)
  {
    hide Honest, Nameable, Claimed, Grew, Trimmed, Settled, CountsAll, WindowIsFree, Schedule.WindowIndex, Calm, AllWorked,
      IsNext, AllAnswer, Explained, Newest;
    ghost var was, n := store.disk.fs, store.disk.sent;
    ghost var stands := StandingOf(was, t.schedule, start, force, dryRun);
    if w.stoppedBefore {
      o := Plain(w, start, Aborted, Some(Stopped), Some(w.message));
      PlainIsExplained(w, stands, dryRun, o.report);
      return;
    }
    if !dryRun && !w.lockFree { return LockIsHeld; }
    var name := NameOf(start);
    if !dryRun {
      if !Nameable(name) {
        o := Caught(w, start);
        ErrorIsExplained(w, stands, dryRun, o.report);
        return;
      }
      var claim := store.ClaimPartial(name);
      ClaimSpares(store.disk.fs, was, store.disk.elsewhere, name, claim);
      CalmWorks(store.disk.fates, n, store.disk.sent, w.planNow);
      if claim.ClaimFailed? { return Caught(w, start); }
    }
    CalmWorks(store.disk.fates, n, store.disk.sent, w.planNow);
    var listed, complete, _ := store.ListComplete();
    if !listed { return Caught(w, start); }
    ListingStands(store.disk.fs, was, complete);
    NewestStands(was, complete, t.schedule, start, force);
    NewestIsLast(was, complete, name);
    if |complete| > 0 {
      var newest := complete[|complete| - 1];
      assert newest in complete && Complete(newest) in was;
      if !force && Schedule.WindowIndex(t.schedule, newest) == Schedule.WindowIndex(t.schedule, start) {
        o := Plain(w, start, Skipped, Some(Window), None);
        PlainIsExplained(w, stands, dryRun, o.report);
        return;
      }
      if name <= newest {
        o := Plain(w, start, Failed, Some(ClockSkew), Some(w.message));
        PlainIsExplained(w, stands, dryRun, o.report);
        return;
      }
    }
    assert stands.NextUp?;
    if dryRun {
      if w.enoughSpace.Fails? {
        o := Caught(w, start);
        ErrorIsExplained(w, stands, dryRun, o.report);
      } else {
        o := Plain(w, start, Success, Some(DryRun), None);
        PlainIsExplained(w, stands, dryRun, o.report);
      }
      return;
    }
    if Calm(store.disk.fates, n, w.planNow) { StaysCalm(store.disk.fates, n, store.disk.sent, w.planNow); }
    o := Save(store, t, w, start, force, was);
  }

  /** From the disk guard to the promote. */
  method Save(store: LocalSnapshotStore, t: Target, w: World, start: int, force: bool, ghost was: Fs) returns (o: Outcome)
    requires store.disk.Valid() && AllNamed(was) && Nameable(NameOf(start)) && t.schedule.count > 0
    requires Spared(store.disk.fs, was) && NoLeftovers(store.disk.fs) && IsNext(was, t.schedule, start, force)
    modifies store.disk
    ensures store.disk.Valid()
    ensures RunLeaves(store.disk.fs, was, t, w, start, force, false, o)
    ensures o.Reported? && o.report.reason != Some(Window) && o.report.reason != Some(ClockSkew)
    ensures Calm(store.disk.fates, old(store.disk.sent), w.planNow) && !w.stoppedBefore ==> Explained(w, NextUp, false, o.report)
    ensures Undisturbed(store.disk.fates, old(store.disk.sent), t, w, o) && Recorded(w, start, o)
  {
    hide Honest, Nameable, Grew, Trimmed, Settled, CountsAll, WindowIsFree, Calm, Spared, CanPromote, Promoted, NoLeftovers,
      AllNamed, RunLeaves, IsNext, Explained;
    ghost var goes := !w.stoppedBefore;
    NothingPromoted(store.disk.fs, was, t, w, start, force);
    if w.enoughSpace.Fails? {
      o := Caught(w, start);
      if goes { ErrorIsExplained(w, NextUp, false, o.report); }
      return;
    }
    if !w.enoughSpace.value {
      o := Plain(w, start, Skipped, Some(DiskLow), Some(w.message));
      if goes { PlainIsExplained(w, NextUp, false, o.report); }
      return;
    }
    var name := NameOf(start);
    if w.transfer.Broke? {
      if w.transfer.left.Some? {
        WritingSpares(store.disk.fs, was, name, w.transfer.left.value);
        store.disk.Write(Partial(name), w.transfer.left.value);
        NothingPromoted(store.disk.fs, was, t, w, start, force);
      }
      o := Begun(w, start, Caught(w, start));
      if goes { ErrorIsExplained(w, NextUp, false, o.report); }
      return;
    }
    WritingSpares(store.disk.fs, was, name, w.transfer.content);
    store.disk.Write(Partial(name), w.transfer.content);
    NothingPromoted(store.disk.fs, was, t, w, start, force);
    if w.verify.Fails? {
      o := Begun(w, start, Caught(w, start));
      if goes { ErrorIsExplained(w, NextUp, false, o.report); }
      return;
    }
    if !w.verify.value.Same? {
      o := if w.verify.value.Stopping? then Plain(w, start, Aborted, Some(Stopped), Some(w.message))
           else Plain(w, start, Failed, Some(VerifyFailed), Some(w.message));
      o := Begun(w, start, o);
      if goes { SavedIsExplained(w, o.report); }
      return;
    }
    ghost var before, n := store.disk.fs, store.disk.sent;
    NewCanPromote(before, was, t.schedule, start, force);
    CalmWorks(store.disk.fates, n, n, w.planNow);
    var promoted := store.Promote(name);
    if !promoted { return Begun(w, start, Caught(w, start)); }
    PromoteGrows(store.disk.fs, before, was, t.schedule, start, force);
    CalmWorks(store.disk.fates, n, store.disk.sent, w.planNow);
    ghost var mid := store.disk.fs;
    PromoteHolds(mid, before, name);
    o := Settle(store, t, w, start, was, n);
    SettlingLeaves(store.disk.fs, mid, was, t, w, start, force, o.report);
    if goes {
      if Succeeded(o) { SavedIsExplained(w, o.report); }
      if !ReportsAnswer(w) { ErrorIsExplained(w, NextUp, false, o.report); }
    }
  }

  /** The tripwires and retention, after the promote. */
  method Settle(store: LocalSnapshotStore, t: Target, w: World, start: int, ghost was: Fs, ghost n: nat) returns (o: Outcome)
    requires store.disk.Valid() && w.transfer.Ended? && n <= store.disk.sent
    requires Grew(store.disk.fs, was, NameOf(start)) && AllNamed(store.disk.fs) && NoLeftovers(store.disk.fs)
    requires Get(store.disk.fs, Complete(NameOf(start))) == Some(w.transfer.content)
    modifies store.disk
    ensures store.disk.Valid() && o.Reported? && !o.report.status.Skipped?
    ensures o.report.snapshot == Some(NameOf(start)) && o.report.reason != Some(Window) && o.report.reason != Some(ClockSkew)
    ensures o.report.status.Success? || o.report.status.Warning? ==>
              Settled(old(store.disk.fs), w, o.report) && Trimmed(store.disk.fs, old(store.disk.fs), t, w, o.report)
    ensures o.report.status.Failed? || o.report.status.Aborted? ==>
              && store.disk.fs == old(store.disk.fs) && !o.report.inserted
              && (o.report.completeCount.Some? ==> CountsAll(store.disk.fs, o.report)) && HoldsTransfer(store.disk.fs, w, o.report)
              && o.report.status == (if w.stoppedAfter then Aborted else Failed)
    ensures o.report.reason == if Succeeded(o) || !w.stoppedAfter then None else Some(Stopped)
    ensures o.report.collapsed <==> w.previousFiles.Says? && CollapseAgainst(w.previousFiles.value, w.transfer.files).Some?
    ensures o.report.completeCount.Some? <==> w.previousFiles.Says? && store.disk.fates(old(store.disk.sent)).works
    ensures Succeeded(o) ==> o.report.status == if w.transfer.warning then Warning else Success
    ensures Succeeded(o) <==> ReportsAnswer(w) && store.disk.fates(old(store.disk.sent)).works
    ensures Undisturbed(store.disk.fates, n, t, w, o) && Recorded(w, start, o)
  {
    hide Honest, Nameable, Grew, Calm, PassLeaves, Prunable, Survivors, OldestFirst;
    if w.previousFiles.Fails? { return Begun(w, start, Caught(w, start)); }
    var collapsed := CollapseAgainst(w.previousFiles.value, w.transfer.files).Some?;
    var listed, ats, _ := store.ListComplete();
    if !listed { return CaughtLate(w, start, None, collapsed); }
    if w.previousMark.Fails? { return CaughtLate(w, start, Some(|ats|), collapsed); }
    var inserted := DetectInsertion(ats, w.previousMark.value).Some?;
    var ok := true;
    if t.retention.Some? && !collapsed && !inserted {
      ok := Retain(store, t.retention, ats, w.planNow, n);
    }
    return Reported(Report(if w.transfer.warning then Warning else Success, None, if ok then None else Some(w.message),
                           Some(start), Some(w.finished), Some(NameOf(start)), w.transfer.files, Some(|ats|), collapsed, inserted));
  }

  method Retain(store: LocalSnapshotStore, rules: Option<Retention.Rules>, ats: seq<int>, now: int, ghost n: nat) returns (ok: bool)
    requires store.disk.Valid() && ListsComplete(ats, store.disk.fs) && AllNamed(store.disk.fs) && NoLeftovers(store.disk.fs)
    requires n <= store.disk.sent
    modifies store.disk
    ensures store.disk.Valid()
    ensures var all, mid := Completes(old(store.disk.fs)), old(store.disk.fs);
            && PassLeaves(store.disk.fs, mid, all - Survivors(all, rules, now), all - Completes(store.disk.fs))
            && OldestFirst(all - Completes(store.disk.fs), all - Survivors(all, rules, now))
            && (ok ==> Completes(store.disk.fs) == Survivors(all, rules, now))
    ensures Calm(store.disk.fates, n, now) ==> ok
  {
    hide Honest, Nameable, Calm, PassLeaves, Prunable, Survivors, OldestFirst;
    ghost var mid, m := store.disk.fs, store.disk.sent;
    var prune := PlanFor(ats, rules, now);
    PlanIsPrunable(mid, ats, rules, now);
    if Calm(store.disk.fates, n, now) { StaysCalm(store.disk.fates, n, m, now); }
    ghost var gone;
    ok, gone := DeleteOldestFirst(store, prune, now);
    PassIsCounted(store.disk.fs, mid, ats, rules, now, gone);
    CompletesAre(mid, ats);
    assert gone == Completes(mid) - Completes(store.disk.fs) by { KeptIsPart(Genuine(Ats(ats), now), rules); }
    if ok { PassIsExact(store.disk.fs, mid, ats, rules, now); }
  }

  // ---- the steps, one by one -----------------------------------------------

  lemma {:induction false} ClaimSpares(fs: Fs, was: Fs, elsewhere: nat -> nat, newAt: int, r: Claim)
    requires Claimed(fs, was, elsewhere, newAt, r)
    ensures Spared(fs, was) && (AllNamed(was) ==> AllNamed(fs)) && (!r.ClaimFailed? ==> NoLeftovers(fs))
  {
    hide MayResume, Swept, NewestPartial, Nameable;
    assert Spared(fs, was);
    forall at | Complete(at) in fs ensures Complete(at) in was { assert LocalStore.Kept(fs, was, Complete(at)); }
  }

  lemma {:induction false} ListingStands(fs: Fs, was: Fs, ats: seq<int>)
    requires Spared(fs, was) && ListsComplete(ats, fs)
    ensures ListsComplete(ats, was)
  {
    forall at ensures at in ats <==> Complete(at) in was { assert LocalStore.Kept(fs, was, Complete(at)); }
  }

  /** The newest snapshot speaks for all: its window and its name decide. */
  lemma {:induction false} NewestDecides(fs: Fs, ats: seq<int>, s: Schedule.Spec, start: int)
    requires s.count > 0 && ListsComplete(ats, fs)
    requires |ats| > 0 ==> ats[|ats| - 1] < NameOf(start)
    requires |ats| > 0 ==> Schedule.WindowIndex(s, ats[|ats| - 1]) != Schedule.WindowIndex(s, start)
    ensures WindowIsFree(fs, s, start)
  {
    hide Schedule.WindowIndex;
    forall at | Complete(at) in fs ensures Schedule.WindowIndex(s, at) < Schedule.WindowIndex(s, start) {
      var newest := ats[|ats| - 1];
      var i :| 0 <= i < |ats| && ats[i] == at;
      Schedule.WindowsMonotone(s, at, newest);
      Schedule.WindowsMonotone(s, newest, start);
    }
  }

  lemma {:induction false} AllBefore(fs: Fs, ats: seq<int>, name: int)
    requires ListsComplete(ats, fs) && (|ats| > 0 ==> ats[|ats| - 1] < name)
    ensures forall at :: Complete(at) in fs ==> at < name
  {
    forall at | Complete(at) in fs ensures at < name {
      var i :| 0 <= i < |ats| && ats[i] == at;
    }
  }

  lemma {:induction false} WritingSpares(fs: Fs, was: Fs, name: int, content: Tree)
    requires Spared(fs, was) && NoLeftovers(fs)
    ensures Spared(fs[Partial(name) := content], was) && NoLeftovers(fs[Partial(name) := content])
  {
    forall e: Entry | e.Complete? || e.Foreign? ensures LocalStore.Kept(fs[Partial(name) := content], was, e) {
      assert LocalStore.Kept(fs, was, e);
    }
  }

  /** What is reported when nothing was promoted and nothing counted. */
  predicate Uncounted(o: Outcome) {
    && o.Reported? && (o.report.status == Failed || o.report.status == Aborted || o.report.status == Skipped)
    && o.report.completeCount.None? && !o.report.inserted
  }

  lemma {:induction false} NothingPromoted(fs: Fs, was: Fs, t: Target, w: World, start: int, force: bool)
    requires t.schedule.count > 0 && Spared(fs, was)
    ensures forall o :: Uncounted(o) ==> RunLeaves(fs, was, t, w, start, force, false, o)
  {
    hide WindowIsFree, Spared;
  }

  lemma {:induction false} SettlingLeaves(fs: Fs, mid: Fs, was: Fs, t: Target, w: World, start: int, force: bool, r: Report)
    requires t.schedule.count > 0 && IsNext(was, t.schedule, start, force) && Grew(mid, was, NameOf(start))
    requires r.snapshot == Some(NameOf(start)) && !r.status.Skipped?
    requires r.status.Success? || r.status.Warning? ==> Settled(mid, w, r) && Trimmed(fs, mid, t, w, r)
    requires r.status.Failed? || r.status.Aborted? ==>
               fs == mid && !r.inserted && (r.completeCount.Some? ==> CountsAll(fs, r)) && HoldsTransfer(fs, w, r)
    ensures RunLeaves(fs, was, t, w, start, force, false, Reported(r))
  {
    hide WindowIsFree, Grew, Settled, Trimmed, CountsAll, Spared;
  }

  lemma {:induction false} NewCanPromote(fs: Fs, was: Fs, s: Schedule.Spec, start: int, force: bool)
    requires s.count > 0 && Spared(fs, was) && Partial(NameOf(start)) in fs && IsNext(was, s, start, force)
    ensures CanPromote(fs, NameOf(start))
  {
    hide WindowIsFree, NameOf;
    var name := NameOf(start);
    assert LocalStore.Kept(fs, was, Complete(name));
    assert Complete(name) !in was;
  }

  lemma {:induction false} CalmWorks(fates: Fates, n: nat, m: nat, now: int)
    requires n <= m
    ensures Calm(fates, n, now) ==> AllWorked(fates, n, m) && fates(m).works
  {
  }

  /** The newest snapshot decides whether this one comes next: its window and its name speak for all. */
  lemma {:induction false} NewestStands(fs: Fs, ats: seq<int>, s: Schedule.Spec, start: int, force: bool)
    requires s.count > 0 && ListsComplete(ats, fs)
    ensures IsNext(fs, s, start, force) <==>
              |ats| == 0 ||
              var newest := ats[|ats| - 1];
              newest < NameOf(start) && (force || Schedule.WindowIndex(s, newest) != Schedule.WindowIndex(s, start))
  {
    hide Schedule.WindowIndex;
    if |ats| > 0 {
      var newest := ats[|ats| - 1];
      assert newest in ats;
      if newest < NameOf(start) {
        AllBefore(fs, ats, NameOf(start));
        if Schedule.WindowIndex(s, newest) != Schedule.WindowIndex(s, start) { NewestDecides(fs, ats, s, start); }
      }
    } else {
      forall at ensures Complete(at) !in fs { assert at !in ats; }
    }
  }

  lemma {:induction false} PromoteHolds(fs: Fs, mid: Fs, name: int)
    requires Promoted(fs, mid, name)
    ensures Get(fs, Complete(name)) == Some(mid[Partial(name)])
  {
  }

  lemma {:induction false} PromoteGrows(fs: Fs, mid: Fs, was: Fs, s: Schedule.Spec, start: int, force: bool)
    requires var name := NameOf(start);
             Promoted(fs, mid, name) && Spared(mid, was) && NoLeftovers(mid) && AllNamed(was) && Nameable(name)
    requires s.count > 0 && IsNext(was, s, start, force)
    ensures Grew(fs, was, NameOf(start)) && NoLeftovers(fs) && AllNamed(fs)
  {
    hide Nameable, WindowIsFree, NameOf;
    var name := NameOf(start);
    forall e: Entry | (e.Complete? && e.at != name) || e.Foreign? ensures LocalStore.Kept(fs, was, e) {
      assert LocalStore.Kept(mid, was, e);
    }
    forall at | Complete(at) in fs && at != name ensures Complete(at) in was { assert LocalStore.Kept(fs, was, Complete(at)); }
  }

  // ---- what no run does ----------------------------------------------------

  /** A run that is not a success removes and changes no snapshot; nor does one that tripped a wire. */
  lemma {:induction false} FailureRemovesNothing(fs: Fs, was: Fs, t: Target, w: World, start: int, force: bool, dryRun: bool, o: Outcome)
    requires t.schedule.count > 0 && RunLeaves(fs, was, t, w, start, force, dryRun, o)
    requires o.Reported? ==>
               || (o.report.status != Success && o.report.status != Warning)
               || o.report.collapsed || o.report.inserted || t.retention.None?
    ensures forall at :: Complete(at) in was ==> LocalStore.Kept(fs, was, Complete(at))
  {
    hide WindowIsFree, PassLeaves, Survivors;
  }

  /** Whatever a run does, foreign entries stay, at most its own snapshot appears, and it leaves the archive no emptier than it should. */
  lemma {:induction false} RunIsSafe(fs: Fs, was: Fs, t: Target, w: World, start: int, force: bool, dryRun: bool, o: Outcome)
    requires t.schedule.count > 0 && RunLeaves(fs, was, t, w, start, force, dryRun, o)
    ensures forall name :: LocalStore.Kept(fs, was, Foreign(name))
    ensures forall at :: Complete(at) in fs && at != NameOf(start) ==> LocalStore.Kept(fs, was, Complete(at))
    ensures Complete(NameOf(start)) in fs && Complete(NameOf(start)) !in was && !force ==> WindowIsFree(was, t.schedule, start)
    ensures HasComplete(was) ==> HasComplete(fs)
  {
    hide WindowIsFree, Survivors;
    if Spared(fs, was) {
      SparedIsSafe(fs, was);
    } else if Grew(fs, was, NameOf(start)) {
      GrewIsSafe(fs, was, NameOf(start));
    } else if fs != was {
      var mid :| Grew(mid, was, NameOf(start)) && Trimmed(fs, mid, t, w, o.report);
      GrewIsSafe(mid, was, NameOf(start));
      TrimmedIsSafe(fs, mid, t, w, o.report);
      forall name ensures LocalStore.Kept(fs, was, Foreign(name)) {
        assert LocalStore.Kept(fs, mid, Foreign(name)) && LocalStore.Kept(mid, was, Foreign(name));
      }
      forall at | Complete(at) in fs && at != NameOf(start) ensures LocalStore.Kept(fs, was, Complete(at)) {
        assert LocalStore.Kept(fs, mid, Complete(at)) && LocalStore.Kept(mid, was, Complete(at));
      }
    }
  }

  lemma {:induction false} SparedIsSafe(fs: Fs, was: Fs)
    requires Spared(fs, was)
    ensures forall name :: LocalStore.Kept(fs, was, Foreign(name))
    ensures forall at :: LocalStore.Kept(fs, was, Complete(at))
    ensures HasComplete(was) ==> HasComplete(fs)
  {
    forall at ensures LocalStore.Kept(fs, was, Complete(at)) { }
    if HasComplete(was) {
      var at :| Complete(at) in was;
      assert LocalStore.Kept(fs, was, Complete(at));
    }
  }

  lemma {:induction false} GrewIsSafe(fs: Fs, was: Fs, name: int)
    requires Grew(fs, was, name)
    ensures forall name :: LocalStore.Kept(fs, was, Foreign(name))
    ensures forall at :: at != name ==> LocalStore.Kept(fs, was, Complete(at))
    ensures HasComplete(fs)
  {
  }

  lemma {:induction false} TrimmedIsSafe(fs: Fs, mid: Fs, t: Target, w: World, r: Report)
    requires Trimmed(fs, mid, t, w, r)
    ensures forall name :: LocalStore.Kept(fs, mid, Foreign(name))
    ensures forall at :: Complete(at) in fs ==> LocalStore.Kept(fs, mid, Complete(at))
    ensures HasComplete(mid) ==> HasComplete(fs)
  {
    hide Survivors;
    if fs != mid {
      var all := Completes(mid);
      assert OnlyPruned(fs, mid, all - Survivors(all, t.retention, w.planNow));
      forall name ensures LocalStore.Kept(fs, mid, Foreign(name)) { }
    }
  }

  // ---- one snapshot per window ---------------------------------------------

  /** No two complete snapshots share a window. */
  ghost predicate OnePerWindow(fs: Fs, s: Schedule.Spec)
    requires s.count > 0
  {
    forall a, b :: Complete(a) in fs && Complete(b) in fs && a != b ==> Schedule.WindowIndex(s, a) != Schedule.WindowIndex(s, b)
  }

  /** A run that is not forced keeps one snapshot per window, whatever its clock says. */
  lemma {:induction false} RunKeepsOnePerWindow(fs: Fs, was: Fs, t: Target, w: World, start: int, dryRun: bool, o: Outcome)
    requires t.schedule.count > 0 && RunLeaves(fs, was, t, w, start, false, dryRun, o) && OnePerWindow(was, t.schedule)
    ensures OnePerWindow(fs, t.schedule)
  {
    hide Schedule.WindowIndex, RunLeaves;
    var name := NameOf(start);
    RunIsSafe(fs, was, t, w, start, false, dryRun, o);
    Schedule.WindowIgnoresSubseconds(t.schedule, start);
    forall a, b | Complete(a) in fs && Complete(b) in fs && a != b
      ensures Schedule.WindowIndex(t.schedule, a) != Schedule.WindowIndex(t.schedule, b)
    {
      forall at | at in {a, b} && at != name ensures Complete(at) in was { assert LocalStore.Kept(fs, was, Complete(at)); }
    }
  }

  // ---- runs and retention --------------------------------------------------

  lemma {:induction false} GrowthIsOne(mid: Fs, was: Fs, name: int)
    requires Grew(mid, was, name)
    ensures Completes(mid) == Completes(was) + {name} && forall at :: at in Completes(was) ==> at < name
  {
    forall at ensures at in Completes(mid) <==> at in Completes(was) || at == name {
      if at != name { assert LocalStore.Kept(mid, was, Complete(at)); }
      assert at in Completes(mid) <==> Complete(at) in mid;
      assert at in Completes(was) <==> Complete(at) in was;
    }
  }

  /** A run that promoted and whose tripwires let retention go ahead. */
  ghost predicate Planned(t: Target, o: Outcome) {
    && o.Reported? && (o.report.status == Success || o.report.status == Warning)
    && !o.report.collapsed && !o.report.inserted && t.retention.Some?
  }

  /** One whose pass did not fail. */
  ghost predicate Retained(t: Target, o: Outcome) { Planned(t, o) && o.report.error.None? }

  /** Such a run leaves exactly the survivors of what was there and its own snapshot, future-dated names and all. */
  lemma {:induction false} RunRetains(fs: Fs, was: Fs, t: Target, w: World, start: int, force: bool, o: Outcome)
    requires t.schedule.count > 0 && RunLeaves(fs, was, t, w, start, force, false, o) && Retained(t, o)
    ensures Completes(fs) == Survivors(Completes(was) + {NameOf(start)}, t.retention, w.planNow)
    ensures forall at :: at in Completes(was) ==> at < NameOf(start)
  {
    hide WindowIsFree, Settled, Retention.Kept, PassLeaves, Survivors, Completes;
    var mid :| Grew(mid, was, NameOf(start)) && Settled(mid, w, o.report) && Trimmed(fs, mid, t, w, o.report);
    GrowthIsOne(mid, was, NameOf(start));
    assert Completes(mid) == Completes(was) + {NameOf(start)};
  }

  /**
    Such a run keeps the snapshot it made exactly when its name is not ahead of
    the clock by more than the allowance, or no older snapshot is genuine.
   */
  lemma {:induction false} RunKeepsItsOwnExactly(fs: Fs, was: Fs, t: Target, w: World, start: int, force: bool, o: Outcome)
    requires t.schedule.count > 0 && RunLeaves(fs, was, t, w, start, force, false, o) && Retained(t, o)
    ensures Complete(NameOf(start)) in fs <==>
              NameOf(start) <= w.planNow + 5 * 60_000 || Genuine(Completes(was), w.planNow) == {}
  {
    hide RunLeaves, Retention.Kept, Completes;
    var name, now := NameOf(start), w.planNow;
    var all := Completes(was) + {name};
    RunRetains(fs, was, t, w, start, force, o);
    CompleteIsListed(fs, name);
    KeptIsPart(Genuine(all, now), t.retention);
    if IsFuture(name, now) {
      assert Genuine(all, now) == Genuine(Completes(was), now);
    } else {
      assert name in Genuine(all, now);
      Retention.NewestIsKept(Genuine(all, now), t.retention, name);
    }
  }

  lemma {:induction false} CompleteIsListed(fs: Fs, at: int)
    ensures Complete(at) in fs <==> at in Completes(fs)
  {
  }

  /** An hourly target, a run that meets no obstacle, and a clock that reads 1 000 s when the pass is planned. */
  function SteppedBack(): (World, Target) {
    var rules := Retention.Rules(Some(10), None, None, None, None, None);
    (World(true, false, false, Says(true), Ended(false, Some(1), Directory([])), Says(Same), Says(None), Says(None),
           1_000_000, 1_000_000, ""),
     Target(Schedule.Spec(Schedule.Hour, 1, 0, 0, 0, 1), Some(rules)))
  }

  /**
    When the clock steps back during a run, retention prunes the very snapshot
    the run made: begun at 10 000 s over one snapshot of time 0, with commands
    that work, `RunTarget` can only succeed and leave that one.
   */
  lemma {:induction false} RunMayPruneItsOwn(fs: Fs, o: Outcome, fates: Fates, n: nat)
    requires var (w, t) := SteppedBack(); var was := map[Complete(0) := Directory([])];
             && RunLeaves(fs, was, t, w, 10_000_000, false, false, o)
             && Concludes(was, t.schedule, w, 10_000_000, false, false, Calm(fates, n, w.planNow), o)
             && Undisturbed(fates, n, t, w, o) && Calm(fates, n, w.planNow)
    ensures Succeeded(o) && NameOf(10_000_000) == 10_000_000 && Completes(fs) == {0}
  {
    hide Retention.Kept, Calm, Nameable;
    var (w, t) := SteppedBack();
    var was: Fs, name := map[Complete(0) := Directory([])], 10_000_000;
    assert NameOf(name) == name && Completes(was) == {0} by { CompleteIsListed(was, 0); }
    NothingStandsAgainst(was, t.schedule);
    assert Succeeded(o);
    hide Concludes, WindowIsFree;
    assert Retained(t, o);
    RunRetains(fs, was, t, w, name, false, o);
    assert Genuine({0} + {name}, w.planNow) == {0};
    KeptIsPart({0}, t.retention);
    Retention.NewestIsKept({0}, t.retention, 0);
  }

  lemma {:induction false} NothingStandsAgainst(was: Fs, s: Schedule.Spec)
    requires was == map[Complete(0) := Directory([])] && s == SteppedBack().1.schedule
    ensures Nameable(10_000_000) && IsNext(was, s, 10_000_000, false)
  {
    hide Schedule.WindowIndex, Nameable;
    HourlyWindows(s);
    SoonIsNameable();
  }

  lemma SoonIsNameable()
    ensures Nameable(10_000_000)
  {
    hide CivilOf, DayNumber;
    EpochIsDayZero();
    CivilRoundTrip(Civil(1970, 0, 1));
    assert DayOf(10_000_000) == 0;
  }

  lemma EpochIsDayZero()
    ensures DayNumber(1970, 0, 1) == 0 && ValidCivil(Civil(1970, 0, 1))
  {
    hide CivilOf;
  }

  lemma HourlyWindows(s: Schedule.Spec)
    requires s.interval.Hour? && s.count == 1
    ensures Schedule.WindowIndex(s, 0) == 0 && Schedule.WindowIndex(s, 10_000_000) == 2
  {
  }
}
