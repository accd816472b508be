/**
  Every hypothesis of mutual exclusion is needed: for each one there is a run
  that satisfies all the others and ends with two processes inside.
 */
module LockWitness {
  import opened Prelude
  import opened LockRules
  import opened LockProtocol

  datatype Hypothesis =
    | Atomicity | Uniqueness | Shortness | Promptness | NoForce | Honesty | OwnOrphan | Trust

  /** A step that satisfies every hypothesis except perhaps `h`. */
  ghost predicate StepWithout(h: Hypothesis, s: State, act: Act, t: State) {
    && Next(s, act) == Some(t)
    && (h.Atomicity? || AtomicSteal(s, act, t))
    && (h.Uniqueness? || UniqueTokens(s, act))
    && (h.Shortness? || ShortSections(t))
    && (h.Promptness? || PromptMeta(t))
    && (h.NoForce? || NoBlindUnlock(act))
    && (h.Honesty? || HonestReplies(act))
    && (h.OwnOrphan? || MarkerlessIsOwnOrphan(s, act))
    && (h.Trust? || MetaTrusted(s, act))
  }

  ghost predicate RunWithout(h: Hypothesis, states: seq<State>, acts: seq<Act>) {
    && |states| == |acts| + 1
    && (exists kind, now :: states[0] == Initial(kind, now))
    && forall i :: 0 <= i < |acts| ==> StepWithout(h, states[i], acts[i], states[i + 1])
  }

  ghost predicate Reachable(h: Hypothesis, s: State) {
    exists states, acts :: RunWithout(h, states, acts) && states[|acts|] == s
  }

  lemma {:induction false} Begin(h: Hypothesis, kind: Kind) returns (s: State)
    ensures At(h, s) && s == Initial(kind, 0)
  {
    s := Initial(kind, 0);
    assert Fine(h, s);
    var states, acts := [s], [];
    assert RunWithout(h, states, acts) && states[|acts|] == s;
  }

  lemma {:induction false} Extend(h: Hypothesis, s: State, act: Act) returns (t: State)
    requires Reachable(h, s) && Next(s, act).Some? && StepWithout(h, s, act, Next(s, act).value)
    ensures t == Next(s, act).value && Reachable(h, t)
  {
    t := Next(s, act).value;
    hide StepWithout, Next;
    var states, acts :| RunWithout(h, states, acts) && states[|acts|] == s;
    var longer, further := states + [t], acts + [act];
    forall i | 0 <= i < |further| ensures StepWithout(h, longer[i], further[i], longer[i + 1]) {
      if i < |acts| { assert StepWithout(h, states[i], acts[i], states[i + 1]); }
    }
    assert RunWithout(h, longer, further) && longer[|further|] == t;
  }

  // ---- stretches of a run --------------------------------------------------

  /** Nobody is between the comparison and the delete of a steal. */
  ghost predicate NoThief(s: State) { forall p :: Running(s, p) ==> !PhaseOf(s, p).Deleting? }

  /** Nothing about `s` itself breaks a hypothesis other than `h`. */
  ghost predicate Fine(h: Hypothesis, s: State) {
    && (h.Shortness? || ShortSections(s))
    && (h.Promptness? || PromptMeta(s))
    && (h.Atomicity? || NoThief(s))
    && (forall p :: p in s.procs && s.procs[p].won.Some? ==> s.procs[p].won.value < |s.owners|)
  }

  /** A fine, reachable state. */
  ghost predicate At(h: Hypothesis, s: State) { Fine(h, s) && Reachable(h, s) }

  lemma {:induction false} StillNoThief(h: Hypothesis, s: State, t: State, p: nat)
    requires h.Atomicity? || NoThief(s)
    requires forall q :: q in t.procs && q != p ==> q in s.procs && t.procs[q] == s.procs[q]
    requires s.dead <= t.dead && (Running(t, p) && PhaseOf(t, p).Deleting? ==> h.Atomicity?)
    ensures h.Atomicity? || NoThief(t)
  {
    forall q | Running(t, q) ensures h.Atomicity? || !PhaseOf(t, q).Deleting? {
      assert q != p ==> Running(s, q) && PhaseOf(s, q) == PhaseOf(t, q);
    }
  }

  function Moved(s: State, act: Act): State {
    match act
    case Start(p) => if p in s.procs then Move(s, p, Trying(1)) else s
    case Leave(p) => if p in s.procs then Move(s, p, Releasing) else s
    case _ => s
  }

  /** A step that touches neither the lock nor the clock. */
  lemma {:induction false} Go(h: Hypothesis, s: State, act: Act) returns (t: State)
    requires At(h, s)
    requires match act
             case Start(p) => Running(s, p) && PhaseOf(s, p).Idle?
             case Leave(p) => Running(s, p) && PhaseOf(s, p).Inside?
             case _ => false
    ensures t == Moved(s, act) && At(h, t)
  {
    hide Reachable, DoMkdir, DoStamp, DoRemove, DoInspect, DoDecide, LocalStale, Unchanged;
    t := Extend(h, s, act);
    assert t == Moved(s, act);
    assert h.Shortness? || ShortSections(t);
    assert h.Promptness? || PromptMeta(t);
    StillNoThief(h, s, t, act.p);
  }

  lemma {:induction false} Join(h: Hypothesis, s: State, p: nat, host: nat, home: nat) returns (t: State)
    requires At(h, s) && p !in s.procs
    ensures t == s.(procs := s.procs[p := Proc(Idle, host, home, None)]) && At(h, t)
  {
    hide Reachable, DoMkdir, DoStamp, DoRemove, DoInspect, DoDecide, LocalStale, Unchanged;
    t := Extend(h, s, Spawn(p, host, home));
    StillNoThief(h, s, t, p);
  }

  lemma {:induction false} Kill(h: Hypothesis, s: State, p: nat) returns (t: State)
    requires At(h, s) && Running(s, p)
    ensures t == s.(dead := s.dead + {p}) && At(h, t)
  {
    hide Reachable, DoMkdir, DoStamp, DoRemove, DoInspect, DoDecide, LocalStale, Unchanged;
    t := Extend(h, s, Crash(p));
    StillNoThief(h, s, t, p);
  }

  lemma {:induction false} Wait(h: Hypothesis, s: State, time: int) returns (t: State)
    requires At(h, s) && Fine(h, s.(now := time))
    ensures t == s.(now := time) && At(h, t)
  {
    hide Reachable, DoMkdir, DoStamp, DoRemove, DoInspect, DoDecide, LocalStale, Unchanged;
    t := Extend(h, s, Tick(time));
  }

  /** A contender that finds no lock wins it. */
  function Winner(s: State, p: nat): State
    requires p in s.procs
  {
    var t := s.(procs := s.procs[p := s.procs[p].(phase := Won, won := Some(|s.owners|))],
                dir := Dir(|s.owners|, s.now, None), tokens := s.tokens + [s.now / 1_000], owners := s.owners + [p]);
    if s.kind.Remote? then t.(journal := s.journal[p := Entry(s.now / 1_000, true)]) else t
  }

  lemma {:induction false} Win(h: Hypothesis, s: State, p: nat) returns (t: State)
    requires At(h, s) && Running(s, p) && PhaseOf(s, p).Trying? && s.dir.Absent?
    requires h.Uniqueness? || s.kind.Local? || s.now / 1_000 !in s.tokens
    ensures t == Winner(s, p) && At(h, t)
  {
    hide Reachable, DoStamp, DoRemove, DoInspect, DoDecide, LocalStale, Unchanged;
    t := Extend(h, s, Mkdir(p, true, true));
    assert t == Winner(s, p);
    StillNoThief(h, s, t, p);
  }

  /** The winner of a remote lock records it; of a local one, has nothing to record. */
  function Noted(s: State, p: nat): State
    requires p in s.procs
  {
    var t := Move(s, p, Stamping);
    if p in s.journal
    then t.(records := s.records[s.procs[p].home := Record(s.journal[p].marker, p, s.procs[p].host)])
    else t
  }

  lemma {:induction false} Note(h: Hypothesis, s: State, p: nat) returns (t: State)
    requires At(h, s) && Running(s, p) && PhaseOf(s, p).Won?
    ensures t == Noted(s, p) && At(h, t)
  {
    hide Reachable, DoMkdir, DoStamp, DoRemove, DoInspect, DoDecide, LocalStale, Unchanged;
    t := Extend(h, s, Persist(p, true));
    assert t == Noted(s, p);
    StillNoThief(h, s, t, p);
  }

  function Stamped(s: State, p: nat, startKnown: bool): Stamp
    requires p in s.procs && (s.kind.Remote? ==> p in s.journal)
  {
    if s.kind.Remote? then Marker(s.journal[p].marker) else Meta(p, s.procs[p].host, startKnown, s.now)
  }

  /** A contender that stamps whatever lock is there goes inside. */
  function Entered(s: State, p: nat, startKnown: bool): State
    requires p in s.procs && (s.kind.Remote? ==> p in s.journal) && s.dir.Dir?
  {
    s.(procs := s.procs[p := s.procs[p].(phase := Inside)],
       dir := s.dir.(stamp := Some(Stamped(s, p, startKnown))))
  }

  lemma {:induction false} Enter(h: Hypothesis, s: State, p: nat, startKnown: bool) returns (t: State)
    requires At(h, s) && Running(s, p) && PhaseOf(s, p).Stamping? && s.dir.Dir? && (startKnown || h.Trust?)
    requires s.kind.Remote? ==> p in s.journal && Abs(s.now - s.journal[p].marker * 1_000) <= TTL_MS
    ensures t == Entered(s, p, startKnown) && At(h, t)
  {
    hide Reachable, DoMkdir, DoRemove, DoInspect, DoDecide, LocalStale, Unchanged;
    t := Extend(h, s, WriteStamp(p, true, true, startKnown));
    assert t == Entered(s, p, startKnown);
    StillNoThief(h, s, t, p);
  }

  lemma {:induction false} Miss(h: Hypothesis, s: State, p: nat) returns (t: State)
    requires At(h, s) && Running(s, p) && PhaseOf(s, p) == Trying(1) && s.dir.Dir?
    ensures t == Move(s, p, Looking(1)) && At(h, t)
  {
    hide Reachable, DoStamp, DoRemove, DoInspect, DoDecide, LocalStale, Unchanged;
    t := Extend(h, s, Mkdir(p, false, false));
    assert t == Move(s, p, Looking(1));
    StillNoThief(h, s, t, p);
  }

  lemma {:induction false} Stat(h: Hypothesis, s: State, p: nat) returns (t: State)
    requires At(h, s) && Running(s, p) && PhaseOf(s, p) == Looking(1) && s.dir.Dir? && s.kind.Local?
    ensures t == Move(s, p, Statted(1, SeeLocal(s.dir), s.dir.born)) && At(h, t)
  {
    hide Reachable, DoMkdir, DoStamp, DoRemove, DoDecide, LocalStale, RemoteStale, Unchanged;
    t := Extend(h, s, Inspect(p, true));
    StillNoThief(h, s, t, p);
  }

  lemma {:induction false} Read(h: Hypothesis, s: State, p: nat) returns (t: State)
    requires At(h, s) && Running(s, p) && s.dir.Dir? && PhaseOf(s, p) == Statted(1, SeeLocal(s.dir), s.dir.born)
    ensures t == Move(s, p, Judged(1, SeeLocal(s.dir), LocalStale(s.dir, true, s.dir.born, s.now, s.procs[p].host, s.dead)))
    ensures At(h, t)
  {
    hide Reachable, DoMkdir, DoStamp, DoRemove, DoInspect, DoDecide, LocalStale, RemoteStale, Unchanged;
    t := Extend(h, s, ReadMeta(p, true));
    StillNoThief(h, s, t, p);
  }

  lemma {:induction false} List(h: Hypothesis, s: State, p: nat) returns (t: State)
    requires At(h, s) && Running(s, p) && PhaseOf(s, p) == Looking(1) && s.dir.Dir? && s.kind.Remote?
    ensures t == Move(s, p, Judged(1, SeeRemote(s.dir, true), RemoteStale(SeeRemote(s.dir, true), s.now))) && At(h, t)
  {
    hide Reachable, DoMkdir, DoStamp, DoRemove, DoDecide, LocalStale, RemoteStale, Unchanged;
    t := Extend(h, s, Inspect(p, true));
    StillNoThief(h, s, t, p);
  }

  lemma {:induction false} Aim(h: Hypothesis, s: State, p: nat) returns (t: State)
    requires At(h, s) && Running(s, p) && PhaseOf(s, p).Judged? && PhaseOf(s, p).attempt == 1
    requires PhaseOf(s, p).stale || Mine(s, p)
    requires h.OwnOrphan? || MarkerlessIsOwnOrphan(s, Decide(p))
    ensures t == Move(s, p, Stealing(PhaseOf(s, p).seen)) && At(h, t)
  {
    hide Reachable, DoMkdir, DoStamp, DoRemove, DoInspect, LocalStale, RemoteStale, Unchanged, Owns, Mine;
    t := Extend(h, s, Decide(p));
    StillNoThief(h, s, t, p);
  }

  /** The compare half of a steal, where nothing forbids others to act before the delete. */
  lemma {:induction false} Confirm(s: State, p: nat) returns (t: State)
    requires At(Atomicity, s) && Running(s, p) && PhaseOf(s, p).Stealing?
    requires Unchanged(s.kind, s.dir, true, PhaseOf(s, p).seen)
    ensures t == Move(s, p, Deleting(PhaseOf(s, p).seen)) && At(Atomicity, t)
  {
    hide Reachable, DoMkdir, DoStamp, DoRemove, DoInspect, DoDecide, LocalStale, Unchanged;
    t := Extend(Atomicity, s, Compare(p, true));
  }

  lemma {:induction false} Strike(s: State, p: nat) returns (t: State)
    requires At(Atomicity, s) && Running(s, p) && PhaseOf(s, p).Deleting?
    ensures t == Move(s.(dir := Absent), p, Trying(2)) && At(Atomicity, t)
  {
    hide Reachable, DoMkdir, DoStamp, DoRemove, DoInspect, DoDecide, LocalStale, Unchanged;
    t := Extend(Atomicity, s, Delete(p, true, true));
  }

  /** A process that holds nothing is bound by no deadline. */
  lemma {:induction false} MoveKeepsTimes(s: State, p: nat, phase: Phase)
    requires p in s.procs && !Holds(phase)
    ensures ShortSections(s) ==> ShortSections(Move(s, p, phase))
    ensures PromptMeta(s) ==> PromptMeta(Move(s, p, phase))
  {
  }

  lemma {:induction false} CompareStep(h: Hypothesis, s: State, p: nat)
    requires Fine(h, s) && Running(s, p) && PhaseOf(s, p).Stealing?
    requires Unchanged(s.kind, s.dir, true, PhaseOf(s, p).seen)
    ensures StepWithout(h, s, Compare(p, true), Move(s, p, Deleting(PhaseOf(s, p).seen)))
  {
    MoveKeepsTimes(s, p, Deleting(PhaseOf(s, p).seen));
    hide DoMkdir, DoStamp, DoRemove, DoInspect, DoDecide, LocalStale, Unchanged, ShortSections, PromptMeta;
  }

  lemma {:induction false} DeleteStep(h: Hypothesis, s: State, p: nat)
    requires Running(s, p) && PhaseOf(s, p).Deleting?
    requires h.Atomicity? || forall q :: Running(s, q) && q != p ==> !PhaseOf(s, q).Deleting?
    ensures StepWithout(h, s, Delete(p, true, true), Move(s.(dir := Absent), p, Trying(2)))
  {
    hide DoMkdir, DoStamp, DoRemove, DoInspect, DoDecide, LocalStale, Unchanged;
  }

  /** Compare and delete with nothing between them. */
  lemma {:induction false} Steal(h: Hypothesis, s: State, p: nat) returns (t: State)
    requires At(h, s) && Running(s, p) && PhaseOf(s, p).Stealing?
    requires Unchanged(s.kind, s.dir, true, PhaseOf(s, p).seen)
    ensures t == Move(s.(dir := Absent), p, Trying(2)) && At(h, t)
  {
    var u := Move(s, p, Deleting(PhaseOf(s, p).seen));
    CompareStep(h, s, p);
    forall q | Running(u, q) && q != p ensures h.Atomicity? || !PhaseOf(u, q).Deleting? {
      assert Running(s, q) && PhaseOf(s, q) == PhaseOf(u, q);
    }
    DeleteStep(h, u, p);
    assert Next(s, Compare(p, true)) == Some(u) && Next(u, Delete(p, true, true)) == Some(Move(u.(dir := Absent), p, Trying(2)))
    by { hide Reachable, Running, Fine; }
    hide Next, StepWithout, Reachable;
    u := Extend(h, s, Compare(p, true));
    t := Extend(h, u, Delete(p, true, true));
    assert t == Move(s.(dir := Absent), p, Trying(2));
    StillNoThief(h, s, t, p);
  }

  /** The lock vanishes: a blind `unlock`, or a deletion whose reply is lost. */
  lemma {:induction false} Vanish(h: Hypothesis, s: State, act: Act) returns (t: State)
    requires At(h, s)
    requires (act.ForceUnlock? && h.NoForce?)
             || (act.LostReply? && h.Honesty? && Running(s, act.p) && PhaseOf(s, act.p).Releasing?)
    ensures t == s.(dir := Absent) && At(h, t)
  {
    hide Reachable, DoMkdir, DoStamp, DoRemove, DoInspect, DoDecide, LocalStale, Unchanged;
    t := Extend(h, s, act);
    assert h.Atomicity? || NoThief(t) by {
      forall q | Running(t, q) ensures h.Atomicity? || !PhaseOf(t, q).Deleting? {
        assert Running(s, q) && PhaseOf(s, q) == PhaseOf(t, q);
      }
    }
  }

  /** A remote release that reports success, or one that fails and does nothing. */
  lemma {:induction false} Release(h: Hypothesis, s: State, p: nat) returns (t: State)
    requires At(h, s) && Running(s, p) && PhaseOf(s, p).Releasing? && s.kind.Remote?
    ensures t == Move(s, p, Idle).(dir := Absent, journal := s.journal - {p}, records := s.records - {s.procs[p].home})
    ensures At(h, t)
  {
    hide Reachable, DoMkdir, DoStamp, DoInspect, DoDecide, LocalStale, Unchanged;
    t := Extend(h, s, Remove(p, true, true, true));
    StillNoThief(h, s, t, p);
  }

  lemma {:induction false} Orphan(h: Hypothesis, s: State, p: nat) returns (t: State)
    requires At(h, s) && Running(s, p) && PhaseOf(s, p).Releasing? && s.kind.Remote? && p in s.journal
    ensures t == Move(s, p, Idle).(journal := s.journal[p := s.journal[p].(live := false)]) && At(h, t)
  {
    hide Reachable, DoMkdir, DoStamp, DoInspect, DoDecide, LocalStale, Unchanged;
    t := Extend(h, s, Remove(p, false, false, false));
    StillNoThief(h, s, t, p);
  }

  lemma {:induction false} Finish(h: Hypothesis, s: State)
    requires At(h, s) && IsInside(s, 1) && IsInside(s, 2)
    ensures TwoInside(h)
  {
  }

  // ---- one run for each hypothesis -----------------------------------------

  ghost predicate TwoInside(h: Hypothesis) {
    exists s, p, q :: Reachable(h, s) && p != q && IsInside(s, p) && IsInside(s, q)
  }

  /** The first process goes inside, on its own. */
  lemma {:induction false} FirstInside(h: Hypothesis, kind: Kind) returns (s: State)
    ensures At(h, s) && s.kind == kind && s.now == 0
    ensures s.procs == map[1 := Proc(Inside, 1, 1, Some(0)), 2 := Proc(Idle, 1, 2, None)]
    ensures s.dead == {} && s.owners == [1] && s.tokens == [0]
    ensures s.dir == Dir(0, 0, Some(if kind.Remote? then Marker(0) else Meta(1, 1, true, 0)))
    ensures kind.Remote? ==> s.journal == map[1 := Entry(0, true)] && s.records == map[1 := Record(0, 1, 1)]
    ensures kind.Local? ==> s.journal == map[] && s.records == map[]
  {
    hide At, Next;
    s := Begin(h, kind);
    s := Join(h, s, 1, 1, 1);
    s := Join(h, s, 2, 1, 2);
    s := Go(h, s, Start(1));
    s := Win(h, s, 1);
    s := Note(h, s, 1);
    s := Enter(h, s, 1, true);
  }

  lemma {:induction false} BlindUnlockBreaks()
    ensures TwoInside(NoForce)
  {
    hide At, Next;
    var s := FirstInside(NoForce, Local);
    s := Vanish(NoForce, s, ForceUnlock);
    s := Go(NoForce, s, Start(2));
    s := Win(NoForce, s, 2);
    s := Note(NoForce, s, 2);
    s := Enter(NoForce, s, 2, true);
    Finish(NoForce, s);
  }

  /** The second process finds the first one's lock past its TTL and takes it over. */
  lemma {:induction false} TakeOver(h: Hypothesis, s: State) returns (t: State)
    requires At(h, s) && s.kind.Remote? && s.now == TTL_MS + 1_000 && s.dead == {}
    requires 1 in s.procs && s.procs[1].phase in {Idle, Inside}
    requires s.procs == map[1 := s.procs[1], 2 := Proc(Idle, 1, 2, None)]
    requires s.owners == [1] && s.tokens == [0] && s.dir == Dir(0, 0, Some(Marker(0)))
    ensures At(h, t)
    ensures t == s.(procs := s.procs[2 := Proc(Won, 1, 2, Some(1))], dir := Dir(1, s.now, None),
                    tokens := [0, s.now / 1_000], owners := [1, 2],
                    journal := s.journal[2 := Entry(s.now / 1_000, true)])
  {
    hide At, Next;
    t := Go(h, s, Start(2));
    t := Miss(h, t, 2);
    t := List(h, t, 2);
    t := Aim(h, t, 2);
    t := Steal(h, t, 2);
    t := Win(h, t, 2);
  }

  /** A section longer than the TTL is judged stale and its lock stolen. */
  lemma {:induction false} LongSectionBreaks()
    ensures TwoInside(Shortness)
  {
    hide At, Next;
    var s := FirstInside(Shortness, Remote);
    assert Fine(Shortness, s.(now := TTL_MS + 1_000));
    s := Wait(Shortness, s, TTL_MS + 1_000);
    s := TakeOver(Shortness, s);
    s := Note(Shortness, s, 2);
    s := Enter(Shortness, s, 2, true);
    Finish(Shortness, s);
  }

  /** The second process finds the first one's local lock stale, and decides to take it over. */
  lemma {:induction false} AimLocally(h: Hypothesis, s: State) returns (t: State)
    requires At(h, s) && s.kind.Local? && s.dead == {}
    requires 2 in s.procs && s.procs[2] == Proc(Idle, 1, 2, None)
    requires s.dir.Dir? && LocalStale(s.dir, true, s.dir.born, s.now, 1, {})
    ensures At(h, t) && t == Move(s, 2, Stealing(SeeLocal(s.dir)))
  {
    hide At, Next, LocalStale;
    t := Go(h, s, Start(2));
    t := Miss(h, t, 2);
    t := Stat(h, t, 2);
    t := Read(h, t, 2);
    t := Aim(h, t, 2);
    assert t.procs == s.procs[2 := Proc(Stealing(SeeLocal(s.dir)), 1, 2, None)];
  }

  /** The second process takes the first one's stale local lock over. */
  lemma {:induction false} TakeOverLocally(h: Hypothesis, s: State) returns (t: State)
    requires At(h, s) && s.kind.Local? && s.dead == {} && s.owners == [1] && s.journal == map[]
    requires 1 in s.procs && Holds(s.procs[1].phase) && s.procs == map[1 := s.procs[1], 2 := Proc(Idle, 1, 2, None)]
    requires s.dir.Dir? && s.dir.inst == 0 && LocalStale(s.dir, true, s.dir.born, s.now, 1, {})
    ensures At(h, t) && 1 in t.procs && t.procs[1] == s.procs[1] && IsInside(t, 2) && t.dir.Dir?
    ensures t.kind.Local? && t.dead == {} && t.journal == map[]
  {
    hide At, Next, LocalStale;
    t := AimLocally(h, s);
    t := Steal(h, t, 2);
    t := Win(h, t, 2);
    t := Note(h, t, 2);
    t := Enter(h, t, 2, true);
  }

  /** A winner slower than the grace loses its lock before it writes its meta. */
  lemma {:induction false} SlowMetaBreaks()
    ensures TwoInside(Promptness)
  {
    hide At, Next;
    var h := Promptness;
    var s := Begin(h, Local);
    s := Join(h, s, 1, 1, 1);
    s := Join(h, s, 2, 1, 2);
    s := Go(h, s, Start(1));
    s := Win(h, s, 1);
    assert Fine(h, s.(now := GRACE_MS));
    s := Wait(h, s, GRACE_MS);
    s := TakeOverLocally(h, s);
    s := Note(h, s, 1);
    s := Enter(h, s, 1, true);
    Finish(h, s);
  }

  lemma {:induction false} ResentRelease() returns (s: State)
    ensures At(Honesty, s) && s.kind.Remote? && s.now == 1_000 && s.dead == {} && s.dir.Absent?
    ensures s.procs == map[1 := Proc(Idle, 1, 1, Some(0)), 2 := Proc(Inside, 1, 2, Some(1))]
    ensures s.tokens == [0, 1] && s.owners == [1, 2] && s.journal == map[2 := Entry(1, true)]
  {
    hide At, Next;
    var h := Honesty;
    s := FirstInside(h, Remote);
    s := Go(h, s, Leave(1));
    s := Vanish(h, s, LostReply(1));
    assert Fine(h, s.(now := 1_000));
    s := Wait(h, s, 1_000);
    s := Go(h, s, Start(2));
    s := Win(h, s, 2);
    s := Note(h, s, 2);
    s := Enter(h, s, 2, true);
    s := Release(h, s, 1);
  }

  /** A first `rm -rf` whose reply was lost: its re-send deletes the next holder's lock. */
  lemma {:induction false} ResentReleaseBreaks()
    ensures TwoInside(Honesty)
  {
    hide At, Next;
    var h := Honesty;
    var s := ResentRelease();
    assert Fine(h, s.(now := 2_000));
    s := Wait(h, s, 2_000);
    s := Go(h, s, Start(1));
    s := Win(h, s, 1);
    s := Note(h, s, 1);
    s := Enter(h, s, 1, true);
    Finish(h, s);
  }

  /** A recorded holder is killed inside; another process takes its place. */
  lemma {:induction false} KilledInside(h: Hypothesis) returns (s: State)
    ensures At(h, s) && s.kind.Remote? && s.now == 0 && s.dead == {3} && s.owners == [3] && s.tokens == [0]
    ensures s.procs == map[3 := Proc(Inside, 1, 1, Some(0)), 1 := Proc(Idle, 1, 1, None), 2 := Proc(Idle, 1, 1, None)]
    ensures s.dir == Dir(0, 0, Some(Marker(0))) && s.journal == map[3 := Entry(0, true)]
    ensures s.records == map[1 := Record(0, 3, 1)]
  {
    hide At, Next;
    s := Begin(h, Remote);
    s := Join(h, s, 3, 1, 1);
    s := Go(h, s, Start(3));
    s := Win(h, s, 3);
    s := Note(h, s, 3);
    s := Enter(h, s, 3, true);
    s := Kill(h, s, 3);
    s := Join(h, s, 1, 1, 1);
    s := Join(h, s, 2, 1, 1);
  }

  lemma {:induction false} BothAim(h: Hypothesis) returns (s: State)
    ensures At(h, s) && s.kind.Remote? && s.now == 0 && s.dead == {3} && s.owners == [3] && s.tokens == [0]
    ensures s.procs == map[3 := Proc(Inside, 1, 1, Some(0)),
                           1 := Proc(Stealing(Marked(0)), 1, 1, None), 2 := Proc(Stealing(Marked(0)), 1, 1, None)]
    ensures s.dir == Dir(0, 0, Some(Marker(0))) && s.journal == map[3 := Entry(0, true)]
    ensures s.records == map[1 := Record(0, 3, 1)]
  {
    hide At, Next;
    s := KilledInside(h);
    s := Go(h, s, Start(1));
    s := Miss(h, s, 1);
    s := List(h, s, 1);
    s := Aim(h, s, 1);
    s := Go(h, s, Start(2));
    s := Miss(h, s, 2);
    s := List(h, s, 2);
    s := Aim(h, s, 2);
  }

  /** Two locks won in one second look alike to the comparison. */
  lemma {:induction false} SameSecondBreaks()
    ensures TwoInside(Uniqueness)
  {
    hide At, Next;
    var h := Uniqueness;
    var s := BothAim(h);
    s := Steal(h, s, 2);
    s := Win(h, s, 2);
    s := Note(h, s, 2);
    s := Enter(h, s, 2, true);
    s := Steal(h, s, 1);
    s := Win(h, s, 1);
    s := Note(h, s, 1);
    s := Enter(h, s, 1, true);
    Finish(h, s);
  }

  /** Between one thief's comparison and its delete, another steals, wins and goes inside. */
  lemma {:induction false} SplitStealBreaks()
    ensures TwoInside(Atomicity)
  {
    hide At, Next;
    var h := Atomicity;
    var s := BothAim(h);
    s := Confirm(s, 1);
    s := Steal(h, s, 2);
    assert Fine(h, s.(now := 1_000));
    s := Wait(h, s, 1_000);
    s := Win(h, s, 2);
    s := Note(h, s, 2);
    s := Enter(h, s, 2, true);
    s := Strike(s, 1);
    assert Fine(h, s.(now := 2_000));
    s := Wait(h, s, 2_000);
    s := Win(h, s, 1);
    s := Note(h, s, 1);
    s := Enter(h, s, 1, true);
    Finish(h, s);
  }

  /** The first process orphans its lock; the second takes it over and has not stamped it yet. */
  lemma {:induction false} OrphanTakenOver() returns (s: State)
    ensures At(OwnOrphan, s) && s.kind.Remote? && s.now == TTL_MS + 1_000 && s.dead == {}
    ensures s.procs == map[1 := Proc(Idle, 1, 1, Some(0)), 2 := Proc(Won, 1, 2, Some(1))]
    ensures s.tokens == [0, s.now / 1_000] && s.owners == [1, 2] && s.dir == Dir(1, s.now, None)
    ensures s.journal == map[1 := Entry(0, false), 2 := Entry(s.now / 1_000, true)]
  {
    hide At, Next;
    var h := OwnOrphan;
    s := FirstInside(h, Remote);
    s := Go(h, s, Leave(1));
    s := Orphan(h, s, 1);
    assert Fine(h, s.(now := TTL_MS + 1_000));
    s := Wait(h, s, TTL_MS + 1_000);
    s := TakeOver(h, s);
  }

  /** The first process takes the markerless lock it finds for its own. */
  lemma {:induction false} WrongOrphan() returns (s: State)
    ensures At(OwnOrphan, s) && s.kind.Remote? && s.now == TTL_MS + 1_000 && s.dead == {} && s.dir.Absent?
    ensures s.procs == map[1 := Proc(Trying(2), 1, 1, Some(0)), 2 := Proc(Won, 1, 2, Some(1))]
    ensures s.tokens == [0, s.now / 1_000] && s.owners == [1, 2]
    ensures s.journal == map[1 := Entry(0, false), 2 := Entry(s.now / 1_000, true)]
  {
    hide At, Next;
    var h := OwnOrphan;
    s := OrphanTakenOver();
    s := Go(h, s, Start(1));
    s := Miss(h, s, 1);
    s := List(h, s, 1);
    s := Aim(h, s, 1);
    s := Steal(h, s, 1);
  }

  /**
    A process that orphaned its lock takes a markerless one for it, though
    another has taken the orphan over and not written its marker yet.
   */
  lemma {:induction false} OrphanTakenOverBreaks()
    ensures TwoInside(OwnOrphan)
  {
    hide At, Next;
    var h := OwnOrphan;
    var s := WrongOrphan();
    assert Fine(h, s.(now := TTL_MS + 2_000));
    s := Wait(h, s, TTL_MS + 2_000);
    s := Win(h, s, 1);
    s := Note(h, s, 1);
    s := Enter(h, s, 1, true);
    s := Note(h, s, 2);
    s := Enter(h, s, 2, true);
    Finish(h, s);
  }

  /** A meta without a start time is stale even while its holder runs. */
  lemma {:induction false} UnknownStartBreaks()
    ensures TwoInside(Trust)
  {
    hide At, Next;
    var h := Trust;
    var s := Begin(h, Local);
    s := Join(h, s, 1, 1, 1);
    s := Join(h, s, 2, 1, 2);
    s := Go(h, s, Start(1));
    s := Win(h, s, 1);
    s := Note(h, s, 1);
    s := Enter(h, s, 1, false);
    s := TakeOverLocally(h, s);
    Finish(h, s);
  }

  /** No hypothesis of mutual exclusion can be dropped. */
  lemma {:induction false} EveryHypothesisIsNeeded(h: Hypothesis)
    ensures TwoInside(h)
  {
    hide TwoInside;
    match h
    case Atomicity => SplitStealBreaks();
    case Uniqueness => SameSecondBreaks();
    case Shortness => LongSectionBreaks();
    case Promptness => SlowMetaBreaks();
    case NoForce => BlindUnlockBreaks();
    case Honesty => ResentReleaseBreaks();
    case OwnOrphan => OrphanTakenOverBreaks();
    case Trust => UnknownStartBreaks();
  }
}
