/**
  The destination lock as a protocol between any number of processes. Every
  filesystem or remote command is one step of `Next`; a step carries whether
  the command took effect and whether it reported success.
 */
module LockProtocol {
  import opened Prelude
  import opened LockRules

  // ---- states and steps ----------------------------------------------------

  /** Where a process is in `withLockScope`; `attempt` is the bounded retry of `acquire`. */
  datatype Phase =
    | Idle
    | Trying(attempt: int)
    | Won
    | Stamping
    | Inside
    | Releasing
    | RollingBack
    | Looking(attempt: int)
    | Statted(attempt: int, seen: Sight, born: int)
    | Judged(attempt: int, seen: Sight, stale: bool)
    | Stealing(seen: Sight)
    | Deleting(seen: Sight)

  /** A process: its host, its state directory and the lock instance it won last. */
  datatype Proc = Proc(phase: Phase, host: nat, home: nat, won: Option<nat>)

  /**
    `tokens` and `owners` are the history of all instances: the second in
    which each was won, and by whom.
   */
  datatype State = State(
    kind: Kind, now: int, dir: Dir, procs: map<nat, Proc>, dead: set<nat>,
    journal: map<nat, Entry>, records: map<nat, Record>,
    tokens: seq<int>, owners: seq<nat>)

  datatype Act =
    | Spawn(p: nat, host: nat, home: nat)
    | Crash(p: nat)
    | Tick(time: int)
    | Start(p: nat)
    | GiveUp(p: nat)
    | Mkdir(p: nat, ok: bool, took: bool)
    | Persist(p: nat, ok: bool)
    | WriteStamp(p: nat, ok: bool, took: bool, startKnown: bool)
    | Leave(p: nat)
    | Remove(p: nat, ok: bool, took: bool, recordGone: bool)
    | LostReply(p: nat)
    | Inspect(p: nat, readable: bool)
    | ReadMeta(p: nat, readable: bool)
    | Decide(p: nat)
    | Compare(p: nat, readable: bool)
    | Delete(p: nat, ok: bool, took: bool)
    | ForceUnlock

  function Initial(kind: Kind, now: int): State {
    State(kind, now, Absent, map[], {}, map[], map[], [], [])
  }

  predicate Running(s: State, p: nat) { p in s.procs && p !in s.dead }

  function PhaseOf(s: State, p: nat): Phase
    requires p in s.procs
  {
    s.procs[p].phase
  }

  function Move(s: State, p: nat, phase: Phase): State
    requires p in s.procs
  {
    s.(procs := s.procs[p := s.procs[p].(phase := phase)])
  }

  function Lookup<K, V>(m: map<K, V>, k: K): Option<V> { if k in m then Some(m[k]) else None }

  /** A new instance at the lock path, won in the current second. */
  function Create(s: State, p: nat, stamp: Option<Stamp>): State {
    s.(dir := Dir(|s.owners|, s.now, stamp), tokens := s.tokens + [s.now / 1_000], owners := s.owners + [p])
  }

  /** `mkdir` of the lock, and `journal.held` in memory when it was won. */
  function DoMkdir(s: State, p: nat, ok: bool, took: bool): Option<State>
    requires p in s.procs && PhaseOf(s, p).Trying?
  {
    if took && s.dir.Dir? then None
    else if ok && !took then None
    else
      var t := if took then Create(s, p, None) else s;
      if ok then
        var u := t.(procs := t.procs[p := t.procs[p].(phase := Won, won := Some(|s.owners|))]);
        Some(if s.kind.Remote? then u.(journal := u.journal[p := Entry(s.now / 1_000, true)]) else u)
      else if s.kind.Local? && s.dir.Absent? then Some(Move(t, p, Idle))
      else Some(Move(t, p, Looking(PhaseOf(s, p).attempt)))
  }

  /** The marker `mkdir -p` (which recreates a lost lock) or the meta `writeFile` (which cannot). */
  function DoStamp(s: State, p: nat, ok: bool, took: bool, startKnown: bool): Option<State>
    requires p in s.procs && PhaseOf(s, p).Stamping?
  {
    var second := if p in s.journal then s.journal[p].marker else s.now / 1_000;
    var stamp := if s.kind.Remote? then Marker(second) else Meta(p, s.procs[p].host, startKnown, s.now);
    if took && s.kind.Local? && s.dir.Absent? then None
    else
      var t := if !took then s
               else if s.dir.Absent? then Create(s, p, Some(stamp))
               else s.(dir := s.dir.(stamp := Some(stamp)));
      Some(Move(t, p, if ok then Inside else RollingBack))
  }

  /** The release in `finally`, or the rollback of a failed meta write. */
  function DoRemove(s: State, p: nat, ok: bool, took: bool, recordGone: bool): State
    requires p in s.procs
  {
    var t := if took then s.(dir := Absent) else s;
    var u := Move(t, p, Idle);
    if s.kind.Local? then u
    else if ok then
      u.(journal := u.journal - {p},
         records := if recordGone then u.records - {s.procs[p].home} else u.records)
    else if p in s.journal then u.(journal := u.journal[p := s.journal[p].(live := false)])
    else u
  }

  function DoInspect(s: State, p: nat, readable: bool): State
    requires p in s.procs && PhaseOf(s, p).Looking?
  {
    var attempt := PhaseOf(s, p).attempt;
    if s.kind.Remote? then
      var seen := SeeRemote(s.dir, readable);
      Move(s, p, Judged(attempt, seen, RemoteStale(seen, s.now)))
    else if s.dir.Absent? || !readable then Move(s, p, Judged(attempt, Nothing, true))
    else Move(s, p, Statted(attempt, SeeLocal(s.dir), s.dir.born))
  }

  predicate Mine(s: State, p: nat)
    requires p in s.procs && PhaseOf(s, p).Judged?
  {
    var proc := s.procs[p];
    Owns(Lookup(s.journal, p), Lookup(s.records, proc.home), proc.host, s.dead, proc.phase.seen)
  }

  function DoDecide(s: State, p: nat): State
    requires p in s.procs && PhaseOf(s, p).Judged?
  {
    var phase := PhaseOf(s, p);
    if (!phase.stale && !Mine(s, p)) || phase.attempt == 2 then Move(s, p, Idle)
    else Move(s, p, Stealing(phase.seen))
  }

  function Next(s: State, act: Act): Option<State> {
    match act
    case Spawn(p, host, home) =>
      if p in s.procs then None else Some(s.(procs := s.procs[p := Proc(Idle, host, home, None)]))
    case Crash(p) =>
      if Running(s, p) then Some(s.(dead := s.dead + {p})) else None
    case Tick(time) => Some(s.(now := time))
    case ForceUnlock => Some(s.(dir := Absent))
    case Start(p) =>
      if Running(s, p) && PhaseOf(s, p).Idle? then Some(Move(s, p, Trying(1))) else None
    case GiveUp(p) =>
      if Running(s, p) && PhaseOf(s, p).Trying? then Some(Move(s, p, Idle)) else None
    case Mkdir(p, ok, took) =>
      if Running(s, p) && PhaseOf(s, p).Trying? then DoMkdir(s, p, ok, took) else None
    case Persist(p, ok) =>
      if Running(s, p) && PhaseOf(s, p).Won? then
        var t := Move(s, p, Stamping);
        Some(if ok && p in s.journal
             then t.(records := t.records[s.procs[p].home := Record(s.journal[p].marker, p, s.procs[p].host)])
             else t)
      else None
    case WriteStamp(p, ok, took, startKnown) =>
      if Running(s, p) && PhaseOf(s, p).Stamping? then DoStamp(s, p, ok, took, startKnown) else None
    case Leave(p) =>
      if Running(s, p) && PhaseOf(s, p).Inside? then Some(Move(s, p, Releasing)) else None
    case Remove(p, ok, took, recordGone) =>
      if Running(s, p) && (PhaseOf(s, p).Releasing? || PhaseOf(s, p).RollingBack?)
      then Some(DoRemove(s, p, ok, took, recordGone)) else None
    case LostReply(p) =>
      if Running(s, p) && (PhaseOf(s, p).Releasing? || PhaseOf(s, p).RollingBack? || PhaseOf(s, p).Deleting?)
      then Some(s.(dir := Absent)) else None
    case Inspect(p, readable) =>
      if Running(s, p) && PhaseOf(s, p).Looking? then Some(DoInspect(s, p, readable)) else None
    case ReadMeta(p, readable) =>
      if Running(s, p) && PhaseOf(s, p).Statted? then
        var phase := PhaseOf(s, p);
        Some(Move(s, p, Judged(phase.attempt, phase.seen,
          LocalStale(s.dir, readable, phase.born, s.now, s.procs[p].host, s.dead))))
      else None
    case Decide(p) =>
      if Running(s, p) && PhaseOf(s, p).Judged? then Some(DoDecide(s, p)) else None
    case Compare(p, readable) =>
      if Running(s, p) && PhaseOf(s, p).Stealing? then
        var seen := PhaseOf(s, p).seen;
        Some(Move(s, p, if Unchanged(s.kind, s.dir, readable, seen) then Deleting(seen) else Idle))
      else None
    case Delete(p, ok, took) =>
      if Running(s, p) && PhaseOf(s, p).Deleting? then
        Some(Move(if took then s.(dir := Absent) else s, p, if ok then Trying(2) else Idle))
      else None
  }

  // ---- the hypotheses ------------------------------------------------------

  predicate Holds(phase: Phase) {
    phase.Won? || phase.Stamping? || phase.Inside? || phase.Releasing? || phase.RollingBack?
  }

  /** A running process between winning `mkdir` and the end of its release. */
  predicate Holder(s: State, p: nat) { Running(s, p) && Holds(PhaseOf(s, p)) }

  /** Compare and delete are one step: nobody else touches the lock between the two. */
  ghost predicate AtomicSteal(s: State, act: Act, t: State) {
    forall p :: Running(s, p) && PhaseOf(s, p).Deleting? && !(act.Delete? && act.p == p) ==> t.dir == s.dir
  }

  /** No two remote locks are ever won in the same second. */
  predicate UniqueTokens(s: State, act: Act) {
    act.Mkdir? && act.took && s.kind.Remote? ==> s.now / 1_000 !in s.tokens
  }

  /** A held, stamped lock is within the TTL on the one clock all processes share. */
  ghost predicate ShortSections(s: State) {
    forall p :: Holder(s, p) && s.dir.Dir? && s.procs[p].won == Some(s.dir.inst) && s.dir.stamp.Some? ==>
      match s.dir.stamp.value
      case Marker(second) => Abs(s.now - second * 1_000) <= TTL_MS
      case Meta(_, _, _, createdAt) => Abs(s.now - createdAt) <= TTL_MS
  }

  /** A held local lock gets its meta within the grace. */
  ghost predicate PromptMeta(s: State) {
    forall p ::
      s.kind.Local? && Holder(s, p) && s.dir.Dir? && s.procs[p].won == Some(s.dir.inst) && s.dir.stamp.None? ==>
        s.now - s.dir.born < GRACE_MS
  }

  /** No `unlock` removes a lock it did not compare. */
  predicate NoBlindUnlock(act: Act) { !act.ForceUnlock? }

  /** A command that reports failure had no effect, and none is sent twice. */
  predicate HonestReplies(act: Act) {
    && !act.LostReply?
    && (act.Mkdir? ==> act.ok == act.took)
    && (act.WriteStamp? ==> act.ok == act.took)
    && (act.Remove? ==> act.ok == act.took)
    && (act.Delete? ==> act.ok == act.took)
  }

  /** When `owns` claims a markerless lock, it is the instance this process orphaned. */
  predicate MarkerlessIsOwnOrphan(s: State, act: Act) {
    act.Decide? && Running(s, act.p) && PhaseOf(s, act.p).Judged? && PhaseOf(s, act.p).seen.Bare? && Mine(s, act.p) ==>
      s.dir.Dir? && s.dir.stamp.None? && s.procs[act.p].won == Some(s.dir.inst)
  }

  /** A local meta that was written can be read, and it records the process start time. */
  predicate MetaTrusted(s: State, act: Act) {
    && (act.WriteStamp? ==> act.startKnown)
    && (act.ReadMeta? && s.dir.Dir? && s.dir.stamp.Some? ==> act.readable)
  }

  ghost predicate LawfulStep(s: State, act: Act, t: State) {
    && Next(s, act) == Some(t)
    && AtomicSteal(s, act, t) && UniqueTokens(s, act) && NoBlindUnlock(act) && HonestReplies(act)
    && MarkerlessIsOwnOrphan(s, act) && MetaTrusted(s, act)
    && ShortSections(t) && PromptMeta(t)
  }

  /** A run: every step is enabled and satisfies every hypothesis. */
  ghost predicate LawfulRun(states: seq<State>, acts: seq<Act>) {
    && |states| == |acts| + 1
    && (exists kind, now :: states[0] == Initial(kind, now))
    && forall i :: 0 <= i < |acts| ==> LawfulStep(states[i], acts[i], states[i + 1])
  }

  // ---- the invariant -------------------------------------------------------

  ghost predicate HistoryInv(s: State) {
    && |s.tokens| == |s.owners|
    && (forall i :: 0 <= i < |s.owners| ==> s.owners[i] in s.procs)
    && (s.kind.Remote? ==> forall i, j :: 0 <= i < j < |s.tokens| ==> s.tokens[i] != s.tokens[j])
    && (s.kind.Local? ==> s.journal == map[] && s.records == map[])
    && (forall p :: p in s.journal ==> p in s.procs)
  }

  /** What the lock path shows belongs to its instance. */
  ghost predicate DirInv(s: State)
    requires HistoryInv(s)
  {
    s.dir.Dir? ==>
      && s.dir.inst < |s.owners|
      && (s.dir.stamp.Some? ==>
           match s.dir.stamp.value
           case Marker(second) => s.kind.Remote? && second == s.tokens[s.dir.inst]
           case Meta(proc, host, startKnown, _) =>
             s.kind.Local? && proc == s.owners[s.dir.inst] && host == s.procs[proc].host && startKnown)
  }

  /** A process that won an instance is its owner; its journal entry is live exactly while it holds it. */
  ghost predicate OwnerInv(s: State, p: nat)
    requires HistoryInv(s) && p in s.procs
  {
    var proc := s.procs[p];
    && (proc.won.Some? ==> proc.won.value < |s.owners| && s.owners[proc.won.value] == p)
    && (Holds(proc.phase) ==> proc.won.Some? && (s.kind.Remote? ==> p in s.journal))
    && (p in s.journal ==> proc.won.Some? && s.journal[p].marker == s.tokens[proc.won.value])
    && (p in s.journal ==> (s.journal[p].live <==> Holds(proc.phase)))
  }

  /** A holder's instance is the one at the lock path, stamped exactly once the stamp was written. */
  ghost predicate HolderInv(s: State, p: nat)
    requires p in s.procs
  {
    var proc := s.procs[p];
    Holder(s, p) ==>
      && s.dir.Dir? && proc.won == Some(s.dir.inst)
      && (s.dir.stamp.Some? <==> proc.phase.Inside? || proc.phase.Releasing?)
  }

  /** A persisted record names an instance its process won. */
  ghost predicate RecordInv(s: State, home: nat)
    requires HistoryInv(s) && home in s.records
  {
    var r := s.records[home];
    exists i :: 0 <= i < |s.tokens| && s.tokens[i] == r.marker && s.owners[i] == r.proc
  }

  /** Instance `i` is not held by the process that won it - and so never again by anyone. */
  ghost predicate Abandoned(s: State, i: nat)
    requires HistoryInv(s) && i < |s.owners|
  {
    !(Holder(s, s.owners[i]) && s.procs[s.owners[i]].won == Some(i))
  }

  /** Deleting whatever still presents `seen` harms no holder. */
  ghost predicate Condemned(s: State, p: nat, seen: Sight)
    requires HistoryInv(s) && p in s.procs
  {
    match seen
    case Marked(second) => exists i :: 0 <= i < |s.tokens| && s.tokens[i] == second && Abandoned(s, i)
    case Inode(inst, _) => inst < |s.owners| && Abandoned(s, inst)
    case Bare => s.dir.Dir? && s.dir.stamp.None? && s.procs[p].won == Some(s.dir.inst)
    case Nothing => true
    case Unread => false
  }

  predicate SightFits(kind: Kind, seen: Sight) {
    match kind
    case Remote => seen.Unread? || seen.Bare? || seen.Marked?
    case Local => seen.Nothing? || seen.Inode?
  }

  /** What an acquiring process knows about the lock it looked at. */
  ghost predicate PhaseInv(s: State, p: nat)
    requires HistoryInv(s) && p in s.procs
  {
    match s.procs[p].phase
    case Statted(_, seen, born) =>
      && s.kind.Local? && seen.Inode? && seen.inst < |s.owners|
      && (s.dir.Dir? && s.dir.inst == seen.inst ==> s.dir.born == born)
    case Judged(_, seen, stale) => SightFits(s.kind, seen) && !(stale && seen.Bare?) && (stale ==> Condemned(s, p, seen))
    case Stealing(seen) => SightFits(s.kind, seen) && Condemned(s, p, seen)
    case Deleting(seen) =>
      && SightFits(s.kind, seen) && s.dir.Dir? && s.dir.inst < |s.owners| && Abandoned(s, s.dir.inst)
      && (seen.Bare? ==> s.dir.stamp.None? && s.procs[p].won == Some(s.dir.inst))
      && (seen.Marked? ==> s.dir.stamp.Some?) && !seen.Unread?
    case _ => true
  }

  /** Everything the invariant says except what acquiring processes know. */
  ghost predicate Base(s: State) {
    && HistoryInv(s) && DirInv(s)
    && (forall p :: p in s.procs ==> OwnerInv(s, p) && HolderInv(s, p))
    && (forall home :: home in s.records ==> RecordInv(s, home))
  }

  ghost predicate Inv(s: State) {
    && Base(s) && ShortSections(s) && PromptMeta(s)
    && (forall p :: Running(s, p) ==> PhaseInv(s, p))
  }

  // ---- every step keeps the invariant --------------------------------------

  /** Steps that leave the lock path, the history and the journal alone. */
  predicate Quiet(act: Act) {
    !act.Mkdir? && !act.WriteStamp? && !act.Remove? && !act.Delete? && !act.LostReply? && !act.ForceUnlock?
  }

  /** A quiet step moves at most one running process, never into or out of holding the lock. */
  ghost predicate QuietEffect(s: State, act: Act, t: State) {
    && t.kind == s.kind && t.dir == s.dir && t.journal == s.journal && t.tokens == s.tokens && t.owners == s.owners
    && s.procs.Keys <= t.procs.Keys && s.dead <= t.dead
    && (forall p :: p in t.procs && p !in s.procs ==> t.procs[p].phase.Idle? && t.procs[p].won.None?)
    && (forall p :: p in s.procs ==> SameHold(s.procs[p], t.procs[p]))
    && (t.records == s.records
        || (act.Persist? && act.p in s.journal && Running(s, act.p) && Holds(s.procs[act.p].phase)
            && t.records == s.records[s.procs[act.p].home := Record(s.journal[act.p].marker, act.p, s.procs[act.p].host)]))
  }

  predicate SameHold(a: Proc, b: Proc) {
    && a.won == b.won && a.host == b.host && (Holds(a.phase) <==> Holds(b.phase))
    && (a.phase.Inside? || a.phase.Releasing? <==> b.phase.Inside? || b.phase.Releasing?)
  }

  lemma {:induction false} QuietStep(s: State, act: Act, t: State)
    requires Next(s, act) == Some(t) && Quiet(act)
    ensures QuietEffect(s, act, t)
  {
    if act.Inspect? || act.ReadMeta? || act.Decide? || act.Compare? {
      AcquiringStep(s, act, t);
    } else {
      hide DoMkdir, DoStamp, DoRemove, DoInspect, DoDecide, LocalStale, Unchanged;
    }
  }

  lemma {:induction false} AcquiringStep(s: State, act: Act, t: State)
    requires Next(s, act) == Some(t) && (act.Inspect? || act.ReadMeta? || act.Decide? || act.Compare?)
    ensures QuietEffect(s, act, t)
  {
    hide Next, QuietEffect;
    var phase := AcquiringMove(s, act, t);
    MoveIsQuiet(s, act, phase);
  }

  /** Looking, judging, deciding and comparing move the process on, and nothing else. */
  lemma {:induction false} AcquiringMove(s: State, act: Act, t: State) returns (phase: Phase)
    requires Next(s, act) == Some(t) && (act.Inspect? || act.ReadMeta? || act.Decide? || act.Compare?)
    ensures act.p in s.procs && !Holds(s.procs[act.p].phase) && !Holds(phase) && t == Move(s, act.p, phase)
  {
    hide DoMkdir, DoStamp, DoRemove, SeeRemote, SeeLocal, RemoteStale, LocalStale, Owns, Mine, Unchanged;
    phase := t.procs[act.p].phase;
  }

  lemma {:induction false} MoveIsQuiet(s: State, act: Act, phase: Phase)
    requires !act.Tick? && !act.ForceUnlock? && act.p in s.procs && !Holds(s.procs[act.p].phase) && !Holds(phase)
    ensures QuietEffect(s, act, Move(s, act.p, phase))
  {
  }

  lemma {:induction false} QuietKeepsBase(s: State, act: Act, t: State)
    requires Inv(s) && LawfulStep(s, act, t) && Quiet(act)
    ensures Base(t) && t.kind == s.kind && s.tokens <= t.tokens && s.owners <= t.owners
  {
    hide Next, SeeRemote, PhaseInv, ShortSections, PromptMeta, AtomicSteal, UniqueTokens;
    QuietStep(s, act, t);
    forall p | p in t.procs ensures OwnerInv(t, p) && HolderInv(t, p) {
      if p in s.procs { assert OwnerInv(s, p) && HolderInv(s, p); }
    }
    forall home | home in t.records ensures RecordInv(t, home) {
      if home in s.records && t.records[home] == s.records[home] {
        assert RecordInv(s, home);
      } else {
        assert OwnerInv(s, act.p);
        var i := s.procs[act.p].won.value;
        assert t.tokens[i] == t.records[home].marker && t.owners[i] == t.records[home].proc;
      }
    }
  }

  lemma {:induction false} RecordsKept(s: State, t: State, home: nat)
    requires HistoryInv(s) && HistoryInv(t) && s.tokens <= t.tokens && s.owners <= t.owners
    requires home in s.records && home in t.records && t.records[home] == s.records[home] && RecordInv(s, home)
    ensures RecordInv(t, home)
  {
    var i :| 0 <= i < |s.tokens| && s.tokens[i] == s.records[home].marker && s.owners[i] == s.records[home].proc;
    assert t.tokens[i] == s.tokens[i] && t.owners[i] == s.owners[i];
  }

  lemma {:induction false} MkdirKeepsBase(s: State, act: Act, t: State)
    requires Inv(s) && LawfulStep(s, act, t) && act.Mkdir?
    ensures Base(t) && t.kind == s.kind && s.tokens <= t.tokens && s.owners <= t.owners
  {
    hide Next, PhaseInv, ShortSections, PromptMeta, AtomicSteal, RecordInv, OwnerInv, HolderInv;
    MkdirEffect(s, act, t);
    MkdirKeepsHistory(s, act, t);
    forall p | p in t.procs ensures OwnerInv(t, p) && HolderInv(t, p) {
      assert OwnerInv(s, p) && HolderInv(s, p);
      MkdirKeepsOwner(s, act, t, p);
    }
    forall home | home in t.records ensures RecordInv(t, home) { RecordsKept(s, t, home); }
  }

  lemma {:induction false} MkdirKeepsOwner(s: State, act: Act, t: State, p: nat)
    requires HistoryInv(s) && HistoryInv(t) && Next(s, act) == Some(t) && act.Mkdir? && act.ok == act.took
    requires p in s.procs && OwnerInv(s, p) && HolderInv(s, p) && p in t.procs
    ensures OwnerInv(t, p) && HolderInv(t, p)
  {
    hide Next, HistoryInv;
    assert |s.tokens| == |s.owners| && |t.tokens| == |t.owners| && (s.kind.Local? ==> s.journal == map[]) by {
      HistoryBasics(s);
      HistoryBasics(t);
    }
    MkdirEffect(s, act, t);
  }

  lemma {:induction false} HistoryBasics(s: State)
    requires HistoryInv(s)
    ensures |s.tokens| == |s.owners| && (s.kind.Local? ==> s.journal == map[])
  {
  }

  /** A `mkdir` that wins makes a new instance; any other leaves the process to look, or gives up. */
  lemma {:induction false} MkdirEffect(s: State, act: Act, t: State)
    requires Next(s, act) == Some(t) && act.Mkdir? && act.ok == act.took
    ensures Running(s, act.p) && s.procs[act.p].phase.Trying?
    ensures act.ok ==>
              var p := act.p;
              && s.dir.Absent?
              && t == s.(dir := Dir(|s.owners|, s.now, None), tokens := s.tokens + [s.now / 1_000], owners := s.owners + [p],
                         procs := s.procs[p := s.procs[p].(phase := Won, won := Some(|s.owners|))],
                         journal := if s.kind.Remote? then s.journal[p := Entry(s.now / 1_000, true)] else s.journal)
    ensures !act.ok ==> act.p in t.procs && !Holds(t.procs[act.p].phase) && t == Move(s, act.p, t.procs[act.p].phase)
  {
  }

  lemma {:induction false} MkdirKeepsHistory(s: State, act: Act, t: State)
    requires Inv(s) && LawfulStep(s, act, t) && act.Mkdir?
    ensures HistoryInv(t) && DirInv(t) && s.tokens <= t.tokens && s.owners <= t.owners && t.records == s.records
  {
    hide Next, PhaseInv, ShortSections, PromptMeta, AtomicSteal, RecordInv, OwnerInv, HolderInv;
    MkdirEffect(s, act, t);
  }

  lemma {:induction false} StampKeepsBase(s: State, act: Act, t: State)
    requires Inv(s) && LawfulStep(s, act, t) && act.WriteStamp?
    ensures Base(t) && t.kind == s.kind && s.tokens <= t.tokens && s.owners <= t.owners
  {
    hide PhaseInv, ShortSections, PromptMeta, AtomicSteal, RecordInv;
    assert OwnerInv(s, act.p) && HolderInv(s, act.p);
    forall p | p in t.procs ensures OwnerInv(t, p) && HolderInv(t, p) {
      assert OwnerInv(s, p) && HolderInv(s, p);
    }
    forall home | home in t.records ensures RecordInv(t, home) { RecordsKept(s, t, home); }
  }

  lemma {:induction false} RemoveKeepsBase(s: State, act: Act, t: State)
    requires Inv(s) && LawfulStep(s, act, t) && act.Remove?
    ensures Base(t) && t.kind == s.kind && s.tokens <= t.tokens && s.owners <= t.owners
  {
    hide PhaseInv, ShortSections, PromptMeta, AtomicSteal, RecordInv;
    RemoveEffect(s, act, t);
    hide Next;
    assert OwnerInv(s, act.p) && HolderInv(s, act.p);
    forall p | p in t.procs ensures OwnerInv(t, p) && HolderInv(t, p) {
      assert OwnerInv(s, p) && HolderInv(s, p);
    }
    forall home | home in t.records ensures RecordInv(t, home) { RecordsKept(s, t, home); }
  }

  lemma {:induction false} RemoveEffect(s: State, act: Act, t: State)
    requires LawfulStep(s, act, t) && act.Remove? && (s.kind.Local? ==> s.journal == map[])
    ensures Holder(s, act.p) && t.kind == s.kind && t.tokens == s.tokens && t.owners == s.owners && t.dead == s.dead
    ensures t.procs == s.procs[act.p := s.procs[act.p].(phase := Idle)]
    ensures t.dir == (if act.took then Absent else s.dir)
    ensures t.records == s.records || (t.records == s.records - {s.procs[act.p].home} && s.kind.Remote?)
    ensures t.journal == if act.ok then s.journal - {act.p}
                         else if act.p in s.journal then s.journal[act.p := s.journal[act.p].(live := false)]
                         else s.journal
  {
    hide ShortSections, PromptMeta, AtomicSteal;
  }

  /** The steal deletes an abandoned instance, so no holder loses its lock. */
  lemma {:induction false} DeleteKeepsBase(s: State, act: Act, t: State)
    requires Inv(s) && LawfulStep(s, act, t) && act.Delete?
    ensures Base(t) && t.kind == s.kind && s.tokens <= t.tokens && s.owners <= t.owners
  {
    hide ShortSections, PromptMeta, AtomicSteal, RecordInv;
    assert PhaseInv(s, act.p);
    forall p | p in t.procs ensures OwnerInv(t, p) && HolderInv(t, p) {
      assert OwnerInv(s, p) && HolderInv(s, p);
    }
    forall home | home in t.records ensures RecordInv(t, home) { RecordsKept(s, t, home); }
  }

  lemma {:induction false} StepKeepsBase(s: State, act: Act, t: State)
    requires Inv(s) && LawfulStep(s, act, t)
    ensures Base(t) && t.kind == s.kind && s.tokens <= t.tokens && s.owners <= t.owners
  {
    hide Next, Base, Inv;
    if act.Mkdir? { MkdirKeepsBase(s, act, t); }
    else if act.WriteStamp? { StampKeepsBase(s, act, t); }
    else if act.Remove? { RemoveKeepsBase(s, act, t); }
    else if act.Delete? { DeleteKeepsBase(s, act, t); }
    else { QuietKeepsBase(s, act, t); }
  }

  /** An abandoned instance stays abandoned: only a new instance is ever won. */
  lemma {:induction false} StaysAbandoned(s: State, act: Act, t: State, i: nat)
    requires HistoryInv(s) && HistoryInv(t) && LawfulStep(s, act, t) && i < |s.owners| && Abandoned(s, i)
    ensures i < |t.owners| && s.owners[i] == t.owners[i] && s.tokens[i] == t.tokens[i] && Abandoned(t, i)
  {
    hide ShortSections, PromptMeta, AtomicSteal;
    if Quiet(act) {
      QuietStep(s, act, t);
      hide Next;
    } else {
      hide DoInspect, DoDecide, LocalStale, Unchanged;
    }
  }

  /** Only the steps that touch the lock path can change it, and each is its holder's or a thief's. */
  lemma {:induction false} DirChange(s: State, act: Act, t: State)
    requires Inv(s) && LawfulStep(s, act, t)
    ensures t.dir == s.dir
            || (act.Mkdir? && s.dir.Absent? && t.dir == Dir(|s.owners|, s.now, None))
            || (act.WriteStamp? && Holder(s, act.p) && s.dir.Dir? && t.dir == s.dir.(stamp := t.dir.stamp))
            || (act.Remove? && Holder(s, act.p) && t.dir.Absent?)
            || (act.Delete? && Running(s, act.p) && s.procs[act.p].phase.Deleting? && t.dir.Absent?)
  {
    hide SeeRemote, SeeLocal, RemoteStale, LocalStale, Owns, Unchanged, ShortSections, PromptMeta, AtomicSteal, PhaseInv;
    if act.WriteStamp? || act.Remove? { assert HolderInv(s, act.p); }
  }

  lemma {:induction false} CondemnedKept(s: State, act: Act, t: State, p: nat, seen: Sight)
    requires Inv(s) && LawfulStep(s, act, t) && HistoryInv(t)
    requires Running(s, p) && p in t.procs && t.procs[p].won == s.procs[p].won && !Holds(s.procs[p].phase)
    requires SightFits(s.kind, seen) && Condemned(s, p, seen) && !(act.Delete? && act.p == p)
    ensures Condemned(t, p, seen)
  {
    hide Next, ShortSections, PromptMeta, AtomicSteal, Abandoned;
    match seen {
      case Marked(second) =>
        var i :| 0 <= i < |s.tokens| && s.tokens[i] == second && Abandoned(s, i);
        StaysAbandoned(s, act, t, i);
        assert t.tokens[i] == second;
      case Inode(inst, _) => StaysAbandoned(s, act, t, inst);
      case Bare =>
        DirChange(s, act, t);
        assert OwnerInv(s, p);
      case Nothing =>
      case Unread =>
    }
  }

  /** A process whose own phase does not change keeps knowing what it knew. */
  lemma {:induction false} BystandersKept(s: State, act: Act, t: State, p: nat)
    requires Inv(s) && LawfulStep(s, act, t) && HistoryInv(t)
    requires Running(s, p) && Running(t, p) && t.procs[p] == s.procs[p]
    requires !(act.Delete? && act.p == p) && t.kind == s.kind && s.owners <= t.owners
    ensures PhaseInv(t, p)
  {
    hide Next, ShortSections, PromptMeta, Abandoned, DirInv, OwnerInv, HolderInv, RecordInv;
    assert PhaseInv(s, p);
    DirChange(s, act, t);
    match s.procs[p].phase {
      case Judged(_, seen, stale) => if stale { CondemnedKept(s, act, t, p, seen); }
      case Stealing(seen) => CondemnedKept(s, act, t, p, seen);
      case Deleting(seen) => StaysAbandoned(s, act, t, s.dir.inst);
      case Statted(_, seen, _) => assert seen.inst < |t.owners|;
      case _ =>
    }
  }

  /** A remote inspection finds stale only what nobody holds. */
  lemma {:induction false} InspectKnows(s: State, act: Act, t: State)
    requires Inv(s) && LawfulStep(s, act, t) && act.Inspect? && HistoryInv(t)
    ensures PhaseInv(t, act.p)
  {
    hide PromptMeta, AtomicSteal, RecordInv;
    if s.dir.Dir? {
      var owner := s.owners[s.dir.inst];
      assert OwnerInv(s, owner) && HolderInv(s, owner);
    }
  }

  /** A local inspection finds stale only what nobody holds. */
  lemma {:induction false} ReadMetaKnows(s: State, act: Act, t: State)
    requires Inv(s) && LawfulStep(s, act, t) && act.ReadMeta? && HistoryInv(t)
    ensures PhaseInv(t, act.p)
  {
    hide AtomicSteal, RecordInv, DoMkdir, DoStamp, DoRemove, DoInspect, DoDecide;
    assert PhaseInv(s, act.p);
    var seen := s.procs[act.p].phase.seen;
    var owner := s.owners[seen.inst];
    assert OwnerInv(s, owner) && HolderInv(s, owner);
  }

  /** A lock this process claims as its own is one nobody holds. */
  lemma {:induction false} MineIsAbandoned(s: State, p: nat)
    requires Inv(s) && Running(s, p) && PhaseOf(s, p).Judged? && Mine(s, p)
    requires MarkerlessIsOwnOrphan(s, Decide(p))
    ensures Condemned(s, p, PhaseOf(s, p).seen)
  {
    hide ShortSections, PromptMeta;
    assert OwnerInv(s, p) && PhaseInv(s, p);
    var seen, home := PhaseOf(s, p).seen, s.procs[p].home;
    if seen.Marked? {
      if p in s.journal {
        var i := s.procs[p].won.value;
        assert s.tokens[i] == seen.second && Abandoned(s, i);
      } else {
        assert RecordInv(s, home);
        var i :| 0 <= i < |s.tokens| && s.tokens[i] == s.records[home].marker && s.owners[i] == s.records[home].proc;
        assert s.tokens[i] == seen.second && Abandoned(s, i);
      }
    }
  }

  lemma {:induction false} DecideKnows(s: State, act: Act, t: State)
    requires Inv(s) && LawfulStep(s, act, t) && act.Decide? && HistoryInv(t)
    ensures PhaseInv(t, act.p)
  {
    hide ShortSections, PromptMeta, AtomicSteal, RecordInv, Owns, Mine, Condemned, MarkerlessIsOwnOrphan;
    var p := act.p;
    assert PhaseInv(s, p);
    if PhaseOf(t, p).Stealing? {
      if !PhaseOf(s, p).stale { MineIsAbandoned(s, p); }
      SightKept(s, act, t, p, PhaseOf(s, p).seen);
    }
  }

  lemma {:induction false} SightKept(s: State, act: Act, t: State, p: nat, seen: Sight)
    requires Inv(s) && LawfulStep(s, act, t) && HistoryInv(t) && (act.Decide? || act.Compare?) && act.p == p
    requires SightFits(s.kind, seen) && p in s.procs && Condemned(s, p, seen)
    ensures p in t.procs && Condemned(t, p, seen)
  {
    hide Next, ShortSections, PromptMeta, AtomicSteal, PhaseInv, DirInv, OwnerInv, HolderInv, RecordInv;
    QuietStep(s, act, t);
    match seen {
      case Marked(second) =>
        var i :| 0 <= i < |s.tokens| && s.tokens[i] == second && Abandoned(s, i);
        StaysAbandoned(s, act, t, i);
      case Inode(inst, _) => StaysAbandoned(s, act, t, inst);
      case _ =>
    }
  }

  /** What the comparison confirms is still the abandoned instance. */
  lemma {:induction false} CompareKnows(s: State, act: Act, t: State)
    requires Inv(s) && LawfulStep(s, act, t) && act.Compare? && HistoryInv(t)
    ensures PhaseInv(t, act.p)
  {
    hide ShortSections, PromptMeta, AtomicSteal, RecordInv;
    var p := act.p;
    assert PhaseInv(s, p);
    if PhaseOf(t, p).Deleting? {
      var seen := PhaseOf(s, p).seen;
      assert Unchanged(s.kind, s.dir, act.readable, seen);
      if seen.Marked? {
        var i :| 0 <= i < |s.tokens| && s.tokens[i] == seen.second && Abandoned(s, i);
        assert s.tokens[s.dir.inst] == s.tokens[i];
        assert i == s.dir.inst;
      } else if seen.Bare? {
        assert OwnerInv(s, p);
      }
      StaysAbandoned(s, act, t, s.dir.inst);
    }
  }

  /** A process in another phase claims nothing about the lock. */
  predicate IsPlain(phase: Phase) { !phase.Statted? && !phase.Judged? && !phase.Stealing? && !phase.Deleting? }

  /** Only the acting process moved, into a phase that claims nothing. */
  ghost predicate MovesPlainly(s: State, p: nat, t: State) {
    p in t.procs && t.procs == s.procs[p := t.procs[p]] && t.dead == s.dead && IsPlain(t.procs[p].phase)
  }

  lemma {:induction false} CommandsMovePlainly(s: State, act: Act, t: State)
    requires Next(s, act) == Some(t) && (act.Mkdir? || act.WriteStamp? || act.Remove? || act.Delete?)
    ensures MovesPlainly(s, act.p, t)
  {
    hide MovesPlainly, DoMkdir, DoStamp, DoRemove;
    match act
    case Mkdir(p, ok, took) => MkdirMovesPlainly(s, p, ok, took);
    case WriteStamp(p, ok, took, startKnown) => StampMovesPlainly(s, p, ok, took, startKnown);
    case Remove(p, ok, took, recordGone) => RemoveMovesPlainly(s, p, ok, took, recordGone);
    case Delete(p, ok, took) => MovedPlainly(s, if took then s.(dir := Absent) else s, p, if ok then Trying(2) else Idle);
  }

  lemma {:induction false} MovedPlainly(s: State, t: State, p: nat, phase: Phase)
    requires p in s.procs && t.procs == s.procs && t.dead == s.dead && IsPlain(phase)
    ensures MovesPlainly(s, p, Move(t, p, phase))
  {
  }

  lemma {:induction false} MkdirMovesPlainly(s: State, p: nat, ok: bool, took: bool)
    requires p in s.procs && PhaseOf(s, p).Trying? && DoMkdir(s, p, ok, took).Some?
    ensures MovesPlainly(s, p, DoMkdir(s, p, ok, took).value)
  {
  }

  lemma {:induction false} StampMovesPlainly(s: State, p: nat, ok: bool, took: bool, startKnown: bool)
    requires p in s.procs && PhaseOf(s, p).Stamping? && DoStamp(s, p, ok, took, startKnown).Some?
    ensures MovesPlainly(s, p, DoStamp(s, p, ok, took, startKnown).value)
  {
  }

  lemma {:induction false} RemoveMovesPlainly(s: State, p: nat, ok: bool, took: bool, recordGone: bool)
    requires p in s.procs
    ensures MovesPlainly(s, p, DoRemove(s, p, ok, took, recordGone))
  {
  }

  /** No other step of a process leaves it in a phase that claims anything. */
  lemma {:induction false} PlainStepClaimsNothing(s: State, act: Act, t: State)
    requires Next(s, act) == Some(t) && !act.Crash? && !act.Tick? && !act.ForceUnlock? && !act.LostReply?
    requires !act.Inspect? && !act.ReadMeta? && !act.Decide? && !act.Compare?
    ensures MovesPlainly(s, act.p, t)
  {
    if act.Mkdir? || act.WriteStamp? || act.Remove? || act.Delete? {
      hide Next;
      CommandsMovePlainly(s, act, t);
    } else {
      hide SeeRemote, SeeLocal, RemoteStale, LocalStale, Owns, Mine, Unchanged, DoInspect, DoDecide, DoMkdir, DoStamp, DoRemove;
    }
  }

  lemma {:induction false} OthersUnmoved(s: State, act: Act, t: State)
    requires Next(s, act) == Some(t) && !act.Tick? && !act.ForceUnlock?
    ensures forall q :: q in t.procs && q != act.p ==> q in s.procs && t.procs[q] == s.procs[q]
    ensures act.Inspect? || act.ReadMeta? || act.Decide? || act.Compare? ==> t.dead == s.dead
    ensures act.Crash? || act.LostReply? ==> t.procs == s.procs
  {
    hide Next;
    if act.Inspect? || act.ReadMeta? || act.Decide? || act.Compare? {
      var phase := AcquiringMove(s, act, t);
    } else if act.Crash? || act.LostReply? {
      Interrupted(s, act, t);
    } else {
      PlainStepClaimsNothing(s, act, t);
    }
  }

  lemma {:induction false} Interrupted(s: State, act: Act, t: State)
    requires Next(s, act) == Some(t) && (act.Crash? || act.LostReply?)
    ensures t.procs == s.procs
  {
  }

  lemma {:induction false} PhaseKept(s: State, act: Act, t: State, p: nat)
    requires Inv(s) && LawfulStep(s, act, t) && HistoryInv(t) && Running(t, p)
    requires t.kind == s.kind && s.owners <= t.owners
    ensures PhaseInv(t, p)
  {
    hide PhaseInv, Base, ShortSections, PromptMeta, AtomicSteal;
    if act.Tick? {
      BystandersKept(s, act, t, p);
    } else if act.p != p || act.Crash? {
      OthersUnmoved(s, act, t);
      hide Next;
      BystandersKept(s, act, t, p);
    } else if act.Inspect? {
      InspectKnows(s, act, t);
    } else if act.ReadMeta? {
      ReadMetaKnows(s, act, t);
    } else if act.Decide? {
      DecideKnows(s, act, t);
    } else if act.Compare? {
      CompareKnows(s, act, t);
    } else {
      PlainStepClaimsNothing(s, act, t);
      hide Next;
      ClaimsNothing(t, p);
    }
  }

  lemma {:induction false} ClaimsNothing(t: State, p: nat)
    requires HistoryInv(t) && p in t.procs
    requires IsPlain(t.procs[p].phase)
    ensures PhaseInv(t, p)
  {
  }

  lemma {:induction false} StepKeepsInv(s: State, act: Act, t: State)
    requires Inv(s) && LawfulStep(s, act, t)
    ensures Inv(t)
  {
    StepKeepsBase(s, act, t);
    forall p | Running(t, p) ensures PhaseInv(t, p) {
      PhaseKept(s, act, t, p);
    }
    hide Next, Base, PhaseInv;
  }

  // ---- mutual exclusion ----------------------------------------------------

  lemma {:induction false} RunKeepsInv(states: seq<State>, acts: seq<Act>, i: nat)
    requires LawfulRun(states, acts) && i < |states|
    ensures Inv(states[i])
  {
    if i > 0 {
      RunKeepsInv(states, acts, i - 1);
      assert LawfulStep(states[i - 1], acts[i - 1], states[i]);
      StepKeepsInv(states[i - 1], acts[i - 1], states[i]);
    }
  }

  predicate IsInside(s: State, p: nat) { Running(s, p) && PhaseOf(s, p).Inside? }

  /**
    In every state of every lawful run, however many processes contend, crash,
    steal, orphan and reclaim: at most one runs its critical section, and the
    lock at the path is the very instance it won.
   */
  lemma {:induction false} MutualExclusion(states: seq<State>, acts: seq<Act>, i: nat, p: nat, q: nat)
    requires LawfulRun(states, acts) && i < |states|
    requires IsInside(states[i], p) && IsInside(states[i], q)
    ensures p == q && states[i].dir.Dir? && states[i].procs[p].won == Some(states[i].dir.inst)
  {
    hide PhaseInv, ShortSections, PromptMeta, RecordInv, LawfulRun;
    var s := states[i];
    RunKeepsInv(states, acts, i);
    assert OwnerInv(s, p) && OwnerInv(s, q) && HolderInv(s, p) && HolderInv(s, q);
  }

  /**
    In every state of every lawful run a journal entry names the instance its
    process won last, and is live exactly while that process holds it - from
    winning `mkdir` until its release or rollback.
   */
  lemma {:induction false} JournalIsSound(states: seq<State>, acts: seq<Act>, i: nat, p: nat)
    requires LawfulRun(states, acts) && i < |states| && p in states[i].journal
    ensures var s := states[i];
            && p in s.procs && s.procs[p].won.Some? && s.procs[p].won.value < |s.tokens|
            && s.journal[p].marker == s.tokens[s.procs[p].won.value]
            && (s.journal[p].live <==> Holds(s.procs[p].phase))
  {
    hide PhaseInv, ShortSections, PromptMeta, RecordInv, DirInv, HolderInv, LawfulRun;
    RunKeepsInv(states, acts, i);
    assert OwnerInv(states[i], p);
  }
}
