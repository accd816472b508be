/**
  The two tripwires that turn retention off (src/engine/internal/reports.ts,
  src/engine/internal/target-runner.ts): files that vanished from the source,
  and snapshots that appeared in the past. Snapshots are named by their
  instants, which order as their names do (SnapshotName.NameOrder).
 */
module Tripwires {
  import opened Prelude
  import opened Calendar
  import opened Reports

  // ---- insertions ----------------------------------------------------------

  /** How much history existed at a run's end, up to and beyond the name it made. */
  datatype Mark = Mark(newest: int, count: nat)

  datatype Insertion = Insertion(previousNewest: int, previousCount: nat, count: nat)

  function CountUpTo(names: seq<int>, newest: int): (n: nat)
    ensures n <= |names|
  {
    if names == [] then 0
    else CountUpTo(names[..|names| - 1], newest) + if names[|names| - 1] <= newest then 1 else 0
  }

  function DetectInsertion(complete: seq<int>, mark: Option<Mark>): Option<Insertion> {
    if mark.None? then None
    else
      var count := CountUpTo(complete, mark.value.newest);
      if count <= mark.value.count then None else Some(Insertion(mark.value.newest, mark.value.count, count))
  }

  ghost predicate Distinct(names: seq<int>) { forall i, j :: 0 <= i < j < |names| ==> names[i] != names[j] }

  ghost function Names(names: seq<int>): set<int> { set at | at in names }

  ghost function UpTo(names: set<int>, newest: int): set<int> { set at | at in names && at <= newest }

  lemma {:induction false} CountIsSize(names: seq<int>, newest: int)
    requires Distinct(names)
    ensures CountUpTo(names, newest) == |UpTo(Names(names), newest)|
    decreases |names|
  {
    if names == [] {
      assert UpTo(Names(names), newest) == {};
    } else {
      var init, last := names[..|names| - 1], names[|names| - 1];
      CountIsSize(init, newest);
      var before, after := UpTo(Names(init), newest), UpTo(Names(names), newest);
      assert forall at :: at in names <==> at in init || at == last;
      assert last !in init;
      assert after == before + if last <= newest then {last} else {};
    }
  }

  // ---- what happened since the mark ----------------------------------------

  /** A run's own promote, a name somebody else put there, or a removal by anyone. */
  datatype Change = Promote(at: int) | Plant(at: int) | Remove(at: int)

  function After(names: set<int>, change: Change): set<int> {
    match change
    case Remove(at) => names - {at}
    case _ => names + {change.at}
  }

  function AfterAll(names: set<int>, changes: seq<Change>): set<int> {
    if changes == [] then names else After(AfterAll(names, changes[..|changes| - 1]), changes[|changes| - 1])
  }

  /** Names appear where there was none, and disappear from where they were. */
  ghost predicate Real(names: set<int>, changes: seq<Change>) {
    forall i :: 0 <= i < |changes| ==> (changes[i].at in AfterAll(names, changes[..i]) <==> changes[i].Remove?)
  }

  function Appeared(changes: seq<Change>, newest: int): nat {
    if changes == [] then 0
    else
      var last := changes[|changes| - 1];
      Appeared(changes[..|changes| - 1], newest) + if !last.Remove? && last.at <= newest then 1 else 0
  }

  function Disappeared(changes: seq<Change>, newest: int): nat {
    if changes == [] then 0
    else
      var last := changes[|changes| - 1];
      Disappeared(changes[..|changes| - 1], newest) + if last.Remove? && last.at <= newest then 1 else 0
  }

  lemma {:induction false} CountsOne(before: set<int>, change: Change, newest: int)
    requires change.at in before <==> change.Remove?
    ensures |UpTo(After(before, change), newest)| ==
            |UpTo(before, newest)| + if change.at > newest then 0 else if change.Remove? then -1 else 1
  {
    var some, all := UpTo(before, newest), UpTo(After(before, change), newest);
    if change.at > newest {
      assert all == some;
    } else if change.Remove? {
      assert all == some - {change.at} && change.at in some;
    } else {
      assert all == some + {change.at} && change.at !in some;
    }
  }

  lemma {:induction false} RealBefore(names: set<int>, changes: seq<Change>)
    requires Real(names, changes) && changes != []
    ensures Real(names, changes[..|changes| - 1])
  {
    hide AfterAll;
    var init := changes[..|changes| - 1];
    forall i | 0 <= i < |init| ensures init[i].at in AfterAll(names, init[..i]) <==> init[i].Remove? {
      assert init[i] == changes[i] && init[..i] == changes[..i];
    }
  }

  lemma {:induction false} Ledger(names: set<int>, changes: seq<Change>, newest: int)
    requires Real(names, changes)
    ensures |UpTo(AfterAll(names, changes), newest)| + Disappeared(changes, newest) ==
            |UpTo(names, newest)| + Appeared(changes, newest)
    decreases |changes|
  {
    hide UpTo, After;
    if changes != [] {
      var init, last := changes[..|changes| - 1], changes[|changes| - 1];
      RealBefore(names, changes);
      Ledger(names, init, newest);
      CountsOne(AfterAll(names, init), last, newest);
    }
  }

  /**
    The counter fires exactly when more names appeared at or below the mark than
    disappeared there, by more than the names the mark counted above itself.
   */
  lemma {:induction false} FiresExactly(names: set<int>, changes: seq<Change>, mark: Mark, complete: seq<int>)
    requires mark.count == |names| && Real(names, changes)
    requires Distinct(complete) && Names(complete) == AfterAll(names, changes)
    ensures DetectInsertion(complete, Some(mark)).Some? <==>
              Appeared(changes, mark.newest) >
              Disappeared(changes, mark.newest) + (|names| - |UpTo(names, mark.newest)|)
    ensures DetectInsertion(complete, Some(mark)).Some? ==>
              DetectInsertion(complete, Some(mark)).value ==
              Insertion(mark.newest, mark.count, |UpTo(AfterAll(names, changes), mark.newest)|)
  {
    CountIsSize(complete, mark.newest);
    Ledger(names, changes, mark.newest);
  }

  // ---- whole runs ----------------------------------------------------------

  /** An archive between runs, the newest mark on record, and the latest clock reading. */
  datatype History = History(complete: set<int>, mark: Option<Mark>, clock: int)

  /**
    A run that promoted at `start` and got as far as counting (`counted`) or
    not, and removed some names; or a prune, or anything else that only removes.
   */
  datatype Event = Run(start: int, counted: bool, removed: set<int>) | Prune(removed: set<int>)

  /** A run names its snapshot for its start, which no clock reading precedes, and after everything that is there. */
  ghost predicate Possible(h: History, e: Event) {
    e.Run? ==> h.clock <= e.start && forall at :: at in h.complete ==> at < NameOf(e.start)
  }

  function Next(h: History, e: Event): History {
    match e
    case Prune(removed) => h.(complete := h.complete - removed)
    case Run(start, counted, removed) =>
      var all := h.complete + {NameOf(start)};
      History(all - removed, if counted then Some(Mark(NameOf(start), |all|)) else h.mark, start)
  }

  ghost function Reach(h: History, events: seq<Event>): History {
    if events == [] then h else Next(Reach(h, events[..|events| - 1]), events[|events| - 1])
  }

  ghost predicate AllPossible(h: History, events: seq<Event>) {
    forall i :: 0 <= i < |events| ==> Possible(Reach(h, events[..i]), events[i])
  }

  /** The names at or below the mark - its own included, though it may be gone - are no more than it counted. */
  ghost predicate Attested(h: History) {
    h.mark.Some? ==>
      && h.mark.value.newest <= h.clock && h.mark.value.newest == NameOf(h.mark.value.newest)
      && |UpTo(h.complete, h.mark.value.newest) + {h.mark.value.newest}| <= h.mark.value.count
  }

  lemma NameReaches(m: int, start: int)
    ensures NameOf(start) <= start && NameOf(NameOf(start)) == NameOf(start)
    ensures m == NameOf(m) && m <= start ==> m <= NameOf(start)
  {
  }

  lemma {:induction false} NextIsAttested(h: History, e: Event)
    requires Attested(h) && Possible(h, e)
    ensures Attested(Next(h, e))
  {
    hide NameOf;
    var t := Next(h, e);
    if t.mark.Some? {
      var m := t.mark.value.newest;
      if e.Run? { NameReaches(m, e.start); }
      if e.Run? && e.counted {
        SubsetSize(UpTo(t.complete, m) + {m}, h.complete + {NameOf(e.start)});
      } else {
        SubsetSize(UpTo(t.complete, m) + {m}, UpTo(h.complete, m) + {m});
      }
    }
  }

  lemma {:induction false} ReachIsAttested(h: History, events: seq<Event>)
    requires Attested(h) && AllPossible(h, events)
    ensures Attested(Reach(h, events))
    decreases |events|
  {
    if events != [] {
      var init := events[..|events| - 1];
      assert forall i :: 0 <= i < |init| ==> init[i] == events[i] && init[..i] == events[..i];
      ReachIsAttested(h, init);
      NextIsAttested(Reach(h, init), events[|events| - 1]);
    }
  }

  /** A run counts right after its own promote; a prune counts what it finds. */
  ghost function Counted(h: History, e: Event): set<int> {
    if e.Run? then h.complete + {NameOf(e.start)} else h.complete
  }

  lemma {:induction false} AttestedIsQuiet(h: History, next: Event, complete: seq<int>)
    requires Attested(h) && Possible(h, next) && Distinct(complete) && Names(complete) == Counted(h, next)
    ensures DetectInsertion(complete, h.mark).None?
  {
    hide NameOf;
    if h.mark.Some? {
      if next.Run? { NameReaches(h.mark.value.newest, next.start); }
      var m := h.mark.value.newest;
      CountIsSize(complete, m);
      SubsetSize(UpTo(Counted(h, next), m), UpTo(h.complete, m) + {m});
    }
  }

  /**
    With a clock that never steps back and only the engine's own promotes and
    removals, the counter never fires, over any sequence of runs and prunes.
   */
  lemma {:induction false} NeverFiresOnItsOwn(h: History, events: seq<Event>, next: Event, complete: seq<int>)
    requires h.mark.None? && AllPossible(h, events) && Possible(Reach(h, events), next)
    requires Distinct(complete) && Names(complete) == Counted(Reach(h, events), next)
    ensures DetectInsertion(complete, Reach(h, events).mark).None?
  {
    ReachIsAttested(h, events);
    AttestedIsQuiet(Reach(h, events), next, complete);
  }

  // ---- collapses -----------------------------------------------------------

  datatype Collapse = Collapse(previousFiles: nat, files: Option<nat>)

  /** Fewer than half the files of the baseline, or none measured against a baseline. */
  function CollapseAgainst(previous: Option<nat>, current: Option<nat>): Option<Collapse> {
    if previous.None? || previous.value == 0 then None
    else if current.None? then Some(Collapse(previous.value, None))
    else if current.value >= (previous.value + 1) / 2 then None
    else Some(Collapse(previous.value, current))
  }

  /** The reports, newest first, from which a baseline is taken: the newest that was measured and not collapsed. */
  ghost predicate IsBaseline(reports: seq<Report>, files: Option<nat>) {
    match files
    case Some(n) => exists k :: 0 <= k < |reports| && reports[k].files == files && !reports[k].collapsed && NoBaseline(reports, k)
    case None => NoBaseline(reports, |reports|)
  }

  ghost predicate NoBaseline(reports: seq<Report>, n: int)
    requires n <= |reports|
  {
    forall j :: 0 <= j < n ==> reports[j].collapsed || reports[j].files.None?
  }

  method NewestStats(reports: seq<Report>) returns (files: Option<nat>)
    ensures IsBaseline(reports, files)
  {
    for i := 0 to |reports|
      invariant NoBaseline(reports, i)
    {
      if !reports[i].collapsed && reports[i].files.Some? { return reports[i].files; }
    }
    return None;
  }

  predicate Marks(r: Report) { r.snapshot.Some? && r.completeCount.Some? }

  /** The mark is that of the newest report which recorded its snapshot and how many there were. */
  ghost predicate IsNewestMark(reports: seq<Report>, mark: Option<Mark>) {
    match mark
    case Some(m) => exists k ::
      && 0 <= k < |reports| && reports[k].snapshot == Some(m.newest) && reports[k].completeCount == Some(m.count)
      && forall j :: 0 <= j < k ==> !Marks(reports[j])
    case None => forall j :: 0 <= j < |reports| ==> !Marks(reports[j])
  }

  ghost function MarkOf(reports: seq<Report>): Option<Mark> {
    if reports == [] then None
    else if Marks(reports[0]) then Some(Mark(reports[0].snapshot.value, reports[0].completeCount.value))
    else MarkOf(reports[1..])
  }

  lemma {:induction false} MarkIsNewest(reports: seq<Report>, mark: Option<Mark>)
    ensures IsNewestMark(reports, mark) <==> mark == MarkOf(reports)
    decreases |reports|
  {
    if reports == [] {
    } else if Marks(reports[0]) {
      assert IsNewestMark(reports, MarkOf(reports));
    } else {
      var rest := reports[1..];
      MarkIsNewest(rest, mark);
      assert reports == [reports[0]] + rest;
      if mark.Some? && IsNewestMark(rest, mark) {
        var k :| 0 <= k < |rest| && rest[k].snapshot == Some(mark.value.newest) && rest[k].completeCount == Some(mark.value.count)
          && forall j :: 0 <= j < k ==> !Marks(rest[j]);
        assert reports[k + 1] == rest[k];
        forall j | 0 <= j < k + 1 ensures !Marks(reports[j]) { if j > 0 { assert reports[j] == rest[j - 1]; } }
      }
      if mark.Some? && IsNewestMark(reports, mark) {
        var k :| 0 <= k < |reports| && reports[k].snapshot == Some(mark.value.newest) && reports[k].completeCount == Some(mark.value.count)
          && forall j :: 0 <= j < k ==> !Marks(reports[j]);
        assert rest[k - 1] == reports[k];
        forall j | 0 <= j < k - 1 ensures !Marks(rest[j]) { assert rest[j] == reports[j + 1]; }
      }
      if mark.None? {
        if IsNewestMark(rest, mark) {
          forall j | 0 <= j < |reports| ensures !Marks(reports[j]) { if j > 0 { assert reports[j] == rest[j - 1]; } }
        }
        if IsNewestMark(reports, mark) {
          forall j | 0 <= j < |rest| ensures !Marks(rest[j]) { assert rest[j] == reports[j + 1]; }
        }
      }
    }
  }

  method NewestHistoryMark(reports: seq<Report>) returns (mark: Option<Mark>)
    ensures IsNewestMark(reports, mark)
  {
    for i := 0 to |reports|
      invariant forall j :: 0 <= j < i ==> !Marks(reports[j])
    {
      if Marks(reports[i]) { return Some(Mark(reports[i].snapshot.value, reports[i].completeCount.value)); }
    }
    return None;
  }

  /** A sustained collapse keeps tripping: the collapsed runs never become the baseline they are measured by. */
  lemma {:induction false} CollapseIsSustained(tripped: seq<Report>, older: seq<Report>, baseline: Option<nat>)
    requires IsBaseline(older, baseline) && forall i :: 0 <= i < |tripped| ==> tripped[i].collapsed
    ensures IsBaseline(tripped + older, baseline)
  {
    var all := tripped + older;
    if baseline.Some? {
      var k :| 0 <= k < |older| && older[k].files == baseline && !older[k].collapsed && NoBaseline(older, k);
      var n := |tripped| + k;
      assert all[n] == older[k];
      assert NoBaseline(all, n);
    }
  }

  lemma {:induction false} BaselineIsUnique(reports: seq<Report>, a: Option<nat>, b: Option<nat>)
    requires IsBaseline(reports, a) && IsBaseline(reports, b)
    ensures a == b
  {
  }

  /** The wire compares a count with half the baseline, rounded up. */
  lemma CollapseIsHalving(previous: Option<nat>, current: Option<nat>)
    ensures CollapseAgainst(previous, current).Some? <==>
              previous.Some? && previous.value > 0 && (current.None? || 2 * current.value < previous.value)
    ensures CollapseAgainst(previous, current).Some? ==>
              CollapseAgainst(previous, current).value == Collapse(previous.value, current)
  {
  }
}
