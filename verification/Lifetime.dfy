/**
  An archive over its whole life: any sequence of runs and `prune` commands,
  successful or not, from any archive (src/engine/internal/target-runner.ts,
  src/engine/backupkit.ts:1495-1516).
 */
module Lifetime {
  import opened Prelude
  import opened Calendar
  import opened SnapshotName
  import opened FileTree
  import opened LocalStore
  import opened Reports
  import opened Tripwires
  import opened Pruning
  import opened TargetRun
  import Schedule
  import Retention

  /**
    What one run, or one `prune`, brings and what comes of it. A process that
    dies in a run leaves the archive as a failing command at that point would,
    but no report: `written` says whether one was.
   */
  datatype Step =
    | Ran(world: World, start: int, force: bool, dryRun: bool, outcome: Outcome, written: bool)
    | PruneRan(mark: Option<Mark>, force: bool, now: int, report: PruneReport)

  ghost predicate StepLeaves(fs: Fs, was: Fs, t: Target, step: Step)
    requires t.schedule.count > 0
  {
    match step
    case Ran(w, start, force, dryRun, o, _) => RunLeaves(fs, was, t, w, start, force, dryRun, o)
    case PruneRan(mark, force, now, r) => PruneLeaves(fs, was, t.retention, mark, force, now, r)
  }

  /** `states[i + 1]` is what step `i` left of `states[i]`. */
  ghost predicate Lives(states: seq<Fs>, t: Target, steps: seq<Step>): (lives: bool)
    requires t.schedule.count > 0
    ensures lives ==> |states| == |steps| + 1
  {
    |states| == |steps| + 1 && forall i :: 0 <= i < |steps| ==> StepLeaves(states[i + 1], states[i], t, steps[i])
  }

  /** What a `prune` may do, in terms of the snapshots alone. */
  lemma {:induction false} PruneOnlyRemoves(fs: Fs, was: Fs, t: Target, step: Step)
    requires t.schedule.count > 0 && step.PruneRan? && StepLeaves(fs, was, t, step)
    ensures Completes(fs) <= Completes(was)
    ensures forall at :: Complete(at) in fs ==> Complete(at) in was
  {
    hide Survivors, OnlyPruned, DetectInsertion;
    assert Completes(fs) <= Completes(was);
    forall at | Complete(at) in fs ensures Complete(at) in was {
      assert at in Completes(fs);
    }
  }

  lemma {:induction false} DoomedAlone(fs: Fs, was: Fs, doomed: set<int>, at: int)
    requires OnlyPruned(fs, was, doomed) && at !in doomed && at in Completes(was)
    ensures at in Completes(fs)
  {
    assert LocalStore.Kept(fs, was, Complete(at));
    assert Complete(at) in fs;
  }

  // ---- one snapshot per window ---------------------------------------------

  lemma {:induction false} StepKeepsOnePerWindow(fs: Fs, was: Fs, t: Target, step: Step)
    requires t.schedule.count > 0 && StepLeaves(fs, was, t, step) && OnePerWindow(was, t.schedule)
    requires step.Ran? ==> !step.force
    ensures OnePerWindow(fs, t.schedule)
  {
    hide RunLeaves, PruneLeaves, Schedule.WindowIndex;
    match step
    case Ran(w, start, _, dryRun, o, _) => RunKeepsOnePerWindow(fs, was, t, w, start, dryRun, o);
    case PruneRan(_, _, _, _) => PruneOnlyRemoves(fs, was, t, step);
  }

  /** Over any unforced runs and any `prune` commands, whatever their clocks say, the archive keeps one snapshot per window. */
  lemma {:induction false} AlwaysOnePerWindow(states: seq<Fs>, t: Target, steps: seq<Step>, n: nat)
    requires t.schedule.count > 0 && Lives(states, t, steps) && n <= |steps|
    requires forall i :: 0 <= i < n && steps[i].Ran? ==> !steps[i].force
    requires OnePerWindow(states[0], t.schedule)
    ensures OnePerWindow(states[n], t.schedule)
    decreases n
  {
    hide StepLeaves, OnePerWindow;
    if n > 0 {
      AlwaysOnePerWindow(states, t, steps, n - 1);
      var i := n - 1;
      assert StepLeaves(states[i + 1], states[i], t, steps[i]);
      StepKeepsOnePerWindow(states[n], states[n - 1], t, steps[n - 1]);
    }
  }

  // ---- retention -----------------------------------------------------------

  /** A pass is planned, and no name is ahead of the clock it is planned by. */
  ghost predicate Timely(was: Fs, t: Target, step: Step) {
    match step
    case Ran(w, start, _, dryRun, o, _) =>
      !dryRun && Planned(t, o) ==> AllGenuine(was, w.planNow) && !IsFuture(NameOf(start), w.planNow)
    case PruneRan(_, _, now, r) => r.Pruned? ==> AllGenuine(was, now)
  }

  ghost predicate AllGenuine(fs: Fs, now: int) { forall at :: Complete(at) in fs ==> !IsFuture(at, now) }

  /** A pass went through: nothing planned was left. */
  ghost predicate WentThrough(t: Target, step: Step) {
    match step
    case Ran(_, _, _, dryRun, o, _) => !dryRun && Retained(t, o)
    case PruneRan(_, _, _, r) => r == Pruned([])
  }

  /** Every snapshot there ever was, up to state `n`. */
  ghost function Made(states: seq<Fs>, n: nat): set<int>
    requires n < |states|
  {
    if n == 0 then Completes(states[0]) else Made(states, n - 1) + Completes(states[n])
  }

  /** The archive holds all that the policy keeps of what was ever made, and nothing else but some of the rest. */
  ghost predicate Holds(fs: Fs, made: set<int>, rules: Option<Retention.Rules>) {
    Retention.Kept(made, rules) <= Completes(fs) <= made
  }

  lemma {:induction false} GenuineIsAll(fs: Fs, now: int)
    requires AllGenuine(fs, now)
    ensures Genuine(Completes(fs), now) == Completes(fs)
  {
  }

  lemma {:induction false} SurvivorsAreKept(all: set<int>, rules: Option<Retention.Rules>, now: int)
    requires Genuine(all, now) == all
    ensures Survivors(all, rules, now) == Retention.Kept(all, rules)
  {
    KeptIsPart(all, rules);
    hide Retention.Kept;
  }

  /** A name later than all that is there is later than all that ever was: the newest ever made is kept. */
  lemma {:induction false} NewerThanAllMade(fs: Fs, made: set<int>, rules: Option<Retention.Rules>, name: int)
    requires Holds(fs, made, rules) && forall at :: at in Completes(fs) ==> at < name
    ensures forall at :: at in made ==> at < name
  {
    hide Retention.Kept, Completes;
    if some :| some in made {
      var newest := Greatest(made, some);
      Retention.NewestIsKept(made, rules, newest);
      assert newest in Completes(fs);
    }
  }

  lemma {:induction false} NothingHappened(fs: Fs, was: Fs)
    requires Spared(fs, was)
    ensures Completes(fs) == Completes(was)
  {
    forall at ensures at in Completes(fs) <==> at in Completes(was) {
      assert LocalStore.Kept(fs, was, Complete(at));
      assert at in Completes(fs) <==> Complete(at) in fs;
      assert at in Completes(was) <==> Complete(at) in was;
    }
  }

  /** A new snapshot, and perhaps a pass over what is there with it. */
  lemma {:induction false} GrowthHolds(fs: Fs, mid: Fs, was: Fs, made: set<int>, rules: Option<Retention.Rules>, name: int)
    requires Holds(was, made, rules) && Grew(mid, was, name)
    requires Retention.Kept(Completes(mid), rules) <= Completes(fs) <= Completes(mid)
    ensures Holds(fs, made + Completes(fs), rules)
    ensures Retention.Kept(Completes(mid), rules) == Retention.Kept(made + Completes(fs), rules)
  {
    hide Retention.Kept, Completes, Grew;
    GrowthIsOne(mid, was, name);
    NewerThanAllMade(was, made, rules, name);
    Retention.PruningEarlyIsHarmless(made, Completes(was), {name}, rules);
    Retention.NewestIsKept(Completes(mid), rules, name);
    assert made + Completes(fs) == made + {name};
  }

  /** A pass that stopped early left all that it was to keep. */
  lemma {:induction false} PassHolds(fs: Fs, mid: Fs, rules: Option<Retention.Rules>, now: int)
    requires var all := Completes(mid);
             PassLeaves(fs, mid, all - Survivors(all, rules, now), all - Completes(fs))
    requires Genuine(Completes(mid), now) == Completes(mid)
    ensures Retention.Kept(Completes(mid), rules) <= Completes(fs) <= Completes(mid)
  {
    hide Retention.Kept;
    var all := Completes(mid);
    SurvivorsAreKept(all, rules, now);
    KeptIsPart(all, rules);
    forall at | at in Retention.Kept(all, rules) ensures at in Completes(fs) {
      DoomedAlone(fs, mid, all - Survivors(all, rules, now), at);
    }
  }

  lemma {:induction false} RunHolds(fs: Fs, was: Fs, t: Target, step: Step, made: set<int>)
    requires t.schedule.count > 0 && step.Ran? && StepLeaves(fs, was, t, step) && Timely(was, t, step)
    requires Holds(was, made, t.retention)
    ensures Holds(fs, made + Completes(fs), t.retention)
    ensures WentThrough(t, step) ==> Completes(fs) == Retention.Kept(made + Completes(fs), t.retention)
  {
    hide Retention.Kept, Completes, Grew, Spared, WindowIsFree, Settled, CountsAll, Survivors, PassLeaves, OldestFirst, AllGenuine;
    var name, o, w := NameOf(step.start), step.outcome, step.world;
    if o.LockIsHeld? || step.dryRun || o.report.status.Skipped? {
      SparedItself(was);
      NothingHappened(fs, was);
      assert made + Completes(fs) == made;
    } else if o.report.status.Failed? || o.report.status.Aborted? {
      if o.report.completeCount.None? && Spared(fs, was) {
        NothingHappened(fs, was);
        assert made + Completes(fs) == made;
      } else {
        KeptIsPart(Completes(fs), t.retention);
        GrowthHolds(fs, fs, was, made, t.retention, name);
      }
    } else {
      var mid :| Grew(mid, was, name) && Settled(mid, w, o.report) && Trimmed(fs, mid, t, w, o.report);
      if Planned(t, o) {
        GrowthIsGenuine(mid, was, name, w.planNow);
        PassHolds(fs, mid, t.retention, w.planNow);
        SurvivorsAreKept(Completes(mid), t.retention, w.planNow);
      } else {
        KeptIsPart(Completes(mid), t.retention);
      }
      GrowthHolds(fs, mid, was, made, t.retention, name);
    }
  }

  lemma {:induction false} SparedItself(fs: Fs)
    ensures Spared(fs, fs)
  {
  }

  lemma {:induction false} GrowthIsGenuine(mid: Fs, was: Fs, name: int, now: int)
    requires Grew(mid, was, name) && AllGenuine(was, now) && !IsFuture(name, now)
    ensures Genuine(Completes(mid), now) == Completes(mid)
  {
    hide Grew;
    GrowthIsOne(mid, was, name);
  }

  lemma {:induction false} PruneHolds(fs: Fs, was: Fs, t: Target, step: Step, made: set<int>)
    requires t.schedule.count > 0 && step.PruneRan? && StepLeaves(fs, was, t, step) && Timely(was, t, step)
    requires Holds(was, made, t.retention)
    ensures Holds(fs, made + Completes(fs), t.retention)
    ensures WentThrough(t, step) ==> Completes(fs) == Retention.Kept(made + Completes(fs), t.retention)
  {
    hide Retention.Kept, Completes, Survivors, PassLeaves, AllGenuine, DetectInsertion;
    Retention.PruningEarlyIsHarmless(made, Completes(was), {}, t.retention);
    assert made + {} == made && Completes(was) + {} == Completes(was);
    if step.report.Pruned? {
      GenuineIsAll(was, step.now);
      PassHolds(fs, was, t.retention, step.now);
      SurvivorsAreKept(Completes(was), t.retention, step.now);
    }
    assert made + Completes(fs) == made;
  }

  lemma {:induction false} AlwaysHolds(states: seq<Fs>, t: Target, steps: seq<Step>, n: nat)
    requires t.schedule.count > 0 && Lives(states, t, steps) && n <= |steps|
    requires forall i :: 0 <= i < n ==> Timely(states[i], t, steps[i])
    ensures Holds(states[n], Made(states, n), t.retention)
    ensures n > 0 && WentThrough(t, steps[n - 1]) ==> Completes(states[n]) == Retention.Kept(Made(states, n), t.retention)
    decreases n
  {
    hide StepLeaves, Timely, WentThrough, Retention.Kept, Completes, Holds;
    if n == 0 {
      StartHolds(states[0], t.retention);
    } else {
      AlwaysHolds(states, t, steps, n - 1);
      var i := n - 1;
      assert StepLeaves(states[i + 1], states[i], t, steps[i]);
      if steps[i].Ran? {
        RunHolds(states[n], states[i], t, steps[i], Made(states, i));
      } else {
        PruneHolds(states[n], states[i], t, steps[i], Made(states, i));
      }
    }
  }

  lemma {:induction false} StartHolds(fs: Fs, rules: Option<Retention.Rules>)
    ensures Holds(fs, Completes(fs), rules)
  {
    hide Completes;
    KeptIsPart(Completes(fs), rules);
  }

  /**
    From any archive, over any sequence of runs and `prune` commands - skipped,
    failed, tripped, interrupted in the middle of a pass or not - the archive
    always holds everything that one plan over all snapshots ever made would
    keep; and whenever a pass goes through, it holds exactly that. It asks only
    that no name be ahead of the clock when a pass is planned.
   */
  lemma {:induction false} LifeKeepsThePolicy(states: seq<Fs>, t: Target, steps: seq<Step>, n: nat)
    requires t.schedule.count > 0 && Lives(states, t, steps) && n <= |steps|
    requires forall i :: 0 <= i < n ==> Timely(states[i], t, steps[i])
    ensures Retention.Kept(Made(states, n), t.retention) <= Completes(states[n]) <= Made(states, n)
    ensures n > 0 && WentThrough(t, steps[n - 1]) ==>
              Completes(states[n]) == Retention.Kept(Made(states, n), t.retention)
  {
    hide Lives, Timely, WentThrough, Retention.Kept, Completes, Made;
    AlwaysHolds(states, t, steps, n);
  }

  // ---- the insertion counter -----------------------------------------------

  /** The reports on disk, newest first: of every run that was not dry and lived to write one. */
  ghost function ReportsAfter(steps: seq<Step>, n: nat): seq<Report>
    requires n <= |steps|
  {
    if n == 0 then []
    else
      var step := steps[n - 1];
      if step.Ran? && step.written && !step.dryRun && step.outcome.Reported?
      then [step.outcome.report] + ReportsAfter(steps, n - 1)
      else ReportsAfter(steps, n - 1)
  }

  ghost function MarkAfter(steps: seq<Step>, n: nat): Option<Mark>
    requires n <= |steps|
  {
    MarkOf(ReportsAfter(steps, n))
  }

  /** When the latest run before step `n` started, or the first one to come. */
  ghost function ClockAt(steps: seq<Step>, n: nat): int
    requires n <= |steps|
  {
    if n == 0 then FirstStart(steps)
    else if steps[n - 1].Ran? then steps[n - 1].start
    else ClockAt(steps, n - 1)
  }

  ghost function FirstStart(steps: seq<Step>): int {
    if steps == [] then 0 else if steps[0].Ran? then steps[0].start else FirstStart(steps[1..])
  }

  /** A clock that never steps back, and the newest mark of the reports on disk. */
  ghost predicate Orderly(steps: seq<Step>, n: nat)
    requires n < |steps|
  {
    match steps[n]
    case Ran(w, start, _, _, _, _) =>
      start >= ClockAt(steps, n) && (w.previousMark.Says? ==> IsNewestMark(ReportsAfter(steps, n), w.previousMark.value))
    case PruneRan(mark, _, _, _) => IsNewestMark(ReportsAfter(steps, n), mark)
  }

  /** The archive after `n` steps, as the insertion counter sees it. */
  ghost function HistoryAfter(states: seq<Fs>, steps: seq<Step>, n: nat): History
    requires n <= |steps| && |states| == |steps| + 1
  {
    History(Completes(states[n]), MarkAfter(steps, n), ClockAt(steps, n))
  }

  /** The counter fired, in a run or against a `prune`. */
  ghost predicate Fired(step: Step) {
    match step
    case Ran(_, _, _, _, o, _) => o.Reported? && o.report.inserted
    case PruneRan(_, _, _, r) => r.Refused?
  }

  lemma {:induction false} ListingSize(ats: seq<int>, fs: Fs)
    requires ListsComplete(ats, fs)
    ensures Tripwires.Distinct(ats) && Tripwires.Names(ats) == Completes(fs) && |ats| == |Completes(fs)|
  {
    CompletesAre(fs, ats);
    SizeOf(ats);
  }

  lemma {:induction false} SizeOf(ats: seq<int>)
    requires Ascending(ats)
    ensures |Ats(ats)| == |ats|
    decreases |ats|
  {
    if ats != [] {
      var init, last := ats[..|ats| - 1], ats[|ats| - 1];
      SizeOf(init);
      assert ats == init + [last] && Ats(ats) == Ats(init) + {last} && last !in Ats(init);
    }
  }

  /** A run that grew the archive is one event of its history: what it counted is what the counter's ledger says. */
  lemma {:induction false} GrowthIsEvent(h: History, fs: Fs, mid: Fs, was: Fs, start: int, counted: bool, ats: seq<int>, next: Option<Mark>)
    requires Attested(h) && h.complete == Completes(was) && h.clock <= start
    requires Grew(mid, was, NameOf(start)) && Completes(fs) <= Completes(mid) && ListsComplete(ats, mid)
    requires next == if counted then Some(Mark(NameOf(start), |ats|)) else h.mark
    ensures Attested(History(Completes(fs), next, start)) && DetectInsertion(ats, h.mark).None?
  {
    hide Grew, Attested, ListsComplete, Completes, NameOf;
    GrowthIsOne(mid, was, NameOf(start));
    ListingSize(ats, mid);
    var e := Event.Run(start, counted, Completes(mid) - Completes(fs));
    assert Possible(h, e);
    NextIsAttested(h, e);
    AttestedIsQuiet(h, e, ats);
    assert Completes(mid) - (Completes(mid) - Completes(fs)) == Completes(fs);
  }

  /** A step that made nothing leaves the ledger right. */
  lemma {:induction false} StillAttested(h: History, fs: Fs, clock: int)
    requires Attested(h) && Completes(fs) <= h.complete && h.clock <= clock
    ensures Attested(History(Completes(fs), h.mark, clock))
  {
    hide Completes;
    var e := Event.Prune(h.complete - Completes(fs));
    NextIsAttested(h, e);
    assert h.complete - (h.complete - Completes(fs)) == Completes(fs);
  }

  /** A step moves the mark when it wrote a report that has one. */
  lemma {:induction false} MarkMoves(steps: seq<Step>, n: nat)
    requires n < |steps| && Orderly(steps, n)
    ensures var step := steps[n];
            var r := if step.Ran? && step.outcome.Reported? then Some(step.outcome.report) else None;
            MarkAfter(steps, n + 1) ==
            if r.Some? && step.written && !step.dryRun && Marks(r.value)
            then Some(Mark(r.value.snapshot.value, r.value.completeCount.value))
            else MarkAfter(steps, n)
    ensures steps[n].Ran? && steps[n].world.previousMark.Says? ==> steps[n].world.previousMark.value == MarkAfter(steps, n)
    ensures steps[n].PruneRan? ==> steps[n].mark == MarkAfter(steps, n)
  {
    hide IsNewestMark;
    if steps[n].Ran? {
      if steps[n].world.previousMark.Says? { MarkIsNewest(ReportsAfter(steps, n), steps[n].world.previousMark.value); }
      if steps[n].outcome.Reported? {
        var r := [steps[n].outcome.report];
        assert (r + ReportsAfter(steps, n))[1..] == ReportsAfter(steps, n);
      }
    } else {
      MarkIsNewest(ReportsAfter(steps, n), steps[n].mark);
    }
  }

  lemma {:induction false} RunIsAttested(states: seq<Fs>, t: Target, steps: seq<Step>, n: nat)
    requires t.schedule.count > 0 && Lives(states, t, steps) && n < |steps| && Orderly(steps, n) && steps[n].Ran?
    requires Attested(HistoryAfter(states, steps, n))
    ensures Attested(HistoryAfter(states, steps, n + 1)) && !Fired(steps[n])
  {
    hide Grew, Attested, ListsComplete, Completes, Spared, WindowIsFree, Survivors, PassLeaves, OldestFirst, MarkAfter, IsNewestMark;
    var h, r, fs, was := HistoryAfter(states, steps, n), steps[n], states[n + 1], states[n];
    var i := n;
    assert StepLeaves(states[i + 1], states[i], t, steps[i]);
    MarkMoves(steps, n);
    if r.outcome.LockIsHeld? || r.dryRun || r.outcome.report.status.Skipped? {
      SparedItself(was);
      NothingHappened(fs, was);
      StillAttested(h, fs, r.start);
    } else if r.outcome.report.status.Failed? || r.outcome.report.status.Aborted? {
      if r.outcome.report.completeCount.None? && Spared(fs, was) {
        NothingHappened(fs, was);
        StillAttested(h, fs, r.start);
      } else {
        var ats := SomeCount(fs, r.outcome.report);
        GrowthIsEvent(h, fs, fs, was, r.start, r.written && r.outcome.report.completeCount.Some?, ats, MarkAfter(steps, n + 1));
      }
    } else {
      var mid :| Grew(mid, was, NameOf(r.start)) && Settled(mid, r.world, r.outcome.report)
        && Trimmed(fs, mid, t, r.world, r.outcome.report);
      var ats :| ListsComplete(ats, mid) && r.outcome.report.completeCount == Some(|ats|)
        && r.outcome.report.inserted == DetectInsertion(ats, r.world.previousMark.value).Some?;
      TrimmedIsLess(fs, mid, t, r.world, r.outcome.report);
      GrowthIsEvent(h, fs, mid, was, r.start, r.written, ats, MarkAfter(steps, n + 1));
    }
  }

  lemma {:induction false} SomeCount(fs: Fs, r: Report) returns (ats: seq<int>)
    requires r.completeCount.Some? ==> CountsAll(fs, r)
    ensures ListsComplete(ats, fs) && (r.completeCount.Some? ==> r.completeCount == Some(|ats|))
  {
    hide ListsComplete;
    if r.completeCount.Some? {
      ats :| ListsComplete(ats, fs) && r.completeCount == Some(|ats|);
    } else {
      ats := SomeListing(fs);
    }
  }

  lemma {:induction false} TrimmedIsLess(fs: Fs, mid: Fs, t: Target, w: World, r: Report)
    requires Trimmed(fs, mid, t, w, r)
    ensures Completes(fs) <= Completes(mid)
  {
    hide Survivors, OldestFirst, OnlyPruned;
  }

  lemma {:induction false} PruneIsAttested(states: seq<Fs>, t: Target, steps: seq<Step>, n: nat)
    requires t.schedule.count > 0 && Lives(states, t, steps) && n < |steps| && Orderly(steps, n) && steps[n].PruneRan?
    requires Attested(HistoryAfter(states, steps, n))
    ensures Attested(HistoryAfter(states, steps, n + 1)) && !Fired(steps[n])
  {
    hide Attested, ListsComplete, Completes, Survivors, PassLeaves, DetectInsertion, MarkAfter, IsNewestMark;
    MarkMoves(steps, n);
    var h, step, fs, was := HistoryAfter(states, steps, n), steps[n], states[n + 1], states[n];
    var i := n;
    assert StepLeaves(states[i + 1], states[i], t, steps[i]);
    PruneOnlyRemoves(fs, was, t, step);
    StillAttested(h, fs, h.clock);
    if step.report.Refused? {
      var ats :| ListsComplete(ats, was) && DetectInsertion(ats, step.mark).Some?;
      ListingSize(ats, was);
      AttestedIsQuiet(h, Event.Prune({}), ats);
    }
  }

  /**
    Over any sequence of runs and `prune` commands with a clock that never steps
    back and nobody else writing, the insertion counter never fires: no run
    reports an insertion and no `prune` is refused - whatever runs died on the
    way and left no report.
   */
  lemma {:induction false} InsertionNeverFires(states: seq<Fs>, t: Target, steps: seq<Step>, n: nat)
    requires t.schedule.count > 0 && Lives(states, t, steps) && n <= |steps|
    requires forall i :: 0 <= i < |steps| ==> Orderly(steps, i)
    ensures Attested(HistoryAfter(states, steps, n))
    ensures forall i :: 0 <= i < n ==> !Fired(steps[i])
    decreases n
  {
    hide Lives, Orderly, Attested, Fired;
    if n == 0 {
      NoMarkIsAttested(HistoryAfter(states, steps, 0));
    } else {
      InsertionNeverFires(states, t, steps, n - 1);
      if steps[n - 1].Ran? {
        RunIsAttested(states, t, steps, n - 1);
      } else {
        PruneIsAttested(states, t, steps, n - 1);
      }
    }
  }

  lemma {:induction false} NoMarkIsAttested(h: History)
    requires h.mark.None?
    ensures Attested(h)
  {
  }
}
