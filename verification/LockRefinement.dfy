/**
  `acquire`, the scope and the release, as LockScope and LocalLock state them
  command by command, are runs of LockProtocol: whatever other processes do
  between two commands. So mutual exclusion holds of them.
 */
module LockRefinement {
  import opened Prelude
  import opened LockRules
  import opened LockProtocol
  import LockScope
  import LocalLock

  // ---- one process among others --------------------------------------------

  /** `acts`, one after the other. */
  function Done(s: State, acts: seq<Act>): Option<State>
    decreases |acts|
  {
    if acts == [] then Some(s)
    else
      match Next(s, acts[0])
      case None => None
      case Some(t) => Done(t, acts[1..])
  }

  ghost predicate Lawfully(s: State, acts: seq<Act>)
    decreases |acts|
  {
    acts == [] || (Next(s, acts[0]).Some? && LawfulStep(s, acts[0], Next(s, acts[0]).value) && Lawfully(Next(s, acts[0]).value, acts[1..]))
  }

  predicate By(act: Act, p: nat) { !act.Tick? && !act.ForceUnlock? && act.p == p }

  ghost predicate OfOthers(acts: seq<Act>, p: nat) { forall i :: 0 <= i < |acts| ==> !By(acts[i], p) }

  /** The steps a process takes with one command over the remote backend. */
  function RemoteActs(s: State, p: nat, cmd: LockScope.Cmd, disk: bool): seq<Act>
    requires p in s.procs
  {
    var works, took := cmd.reply.Works?, !cmd.reply.Refused?;
    match PhaseOf(s, p)
    case Trying(_) => [Mkdir(p, works && s.dir.Absent?, took && s.dir.Absent?)]
    case Won => [Persist(p, disk)]
    case Stamping => [WriteStamp(p, works, took, true)]
    case Looking(_) => [Inspect(p, works)]
    case Judged(_, _, _) => [Decide(p)]
    case Stealing(_) => [Compare(p, works)]
    case Deleting(_) => [Delete(p, works, took)]
    case RollingBack => [Remove(p, works, took, disk)]
    case Inside => [Leave(p), Remove(p, works, took, disk)]
    case _ => []
  }

  /** The same over the local backend, whose locks are not journalled and whose failing calls do nothing. */
  function LocalActs(s: State, p: nat, cmd: LockScope.Cmd, known: bool): seq<Act>
    requires p in s.procs
  {
    var works := cmd.reply.Works?;
    match PhaseOf(s, p)
    case Trying(_) =>
      if !works then [GiveUp(p)]
      else if s.dir.Absent? then [Mkdir(p, true, true), Persist(p, false)]
      else [Mkdir(p, false, false)]
    case Stamping => [WriteStamp(p, works && s.dir.Dir?, works && s.dir.Dir?, known)]
    case Looking(_) => if works && s.dir.Dir? then [Inspect(p, true)] else [Inspect(p, works), Decide(p)]
    case Statted(_, _, _) => [ReadMeta(p, works), Decide(p)]
    case Stealing(_) => [Compare(p, works)]
    case Deleting(_) => [Delete(p, works, works)]
    case RollingBack => [Remove(p, works, works, false)]
    case Inside => [Leave(p), Remove(p, works, works, false)]
    case _ => []
  }

  function OwnActs(s: State, p: nat, cmd: LockScope.Cmd, flag: bool): seq<Act>
    requires p in s.procs
  {
    match s.kind
    case Remote => RemoteActs(s, p, cmd, flag)
    case Local => LocalActs(s, p, cmd, flag)
  }

  /** The command meets the world as it is. */
  predicate Tells(cmd: LockScope.Cmd, s: State, p: nat)
    requires p in s.procs
  {
    && cmd.at == s.now && cmd.inst == |s.owners| && cmd.dead == s.dead
    && cmd.meddled == Some(s.dir) && cmd.rewritten == Some(Lookup(s.records, s.procs[p].home))
  }

  /** `world(i)` is what command `i` meets; after it others do `others(i)`. */
  datatype Play = Play(world: nat -> State, others: nat -> seq<Act>, script: LockScope.Script)

  /**
    Command `i` of process `p`: its own steps, then those of others. `flag` is
    whether the journal has a disk, or whether the start time is known.
   */
  ghost predicate PlaysAt(y: Play, p: nat, flag: bool, i: nat) {
    var s := y.world(i);
    && Running(s, p) && Tells(y.script(i), s, p) && OfOthers(y.others(i), p)
    && (s.kind.Remote? && !flag ==> s.procs[p].home !in s.records)
    && var mid := Done(s, OwnActs(s, p, y.script(i), flag));
       mid.Some? && Done(mid.value, y.others(i)) == Some(y.world(i + 1))
  }

  ghost predicate Plays(y: Play, p: nat, flag: bool, n: nat, m: nat) {
    forall i :: n <= i < m ==> PlaysAt(y, p, flag, i)
  }

  /** What the others' steps leave alone. */
  ghost predicate Keeps(s: State, t: State, p: nat) {
    && p in s.procs && p in t.procs && t.procs[p] == s.procs[p] && Lookup(t.journal, p) == Lookup(s.journal, p)
    && t.kind == s.kind && (p !in s.dead ==> p !in t.dead)
  }

  lemma {:induction false} OtherKeeps(s: State, act: Act, t: State, p: nat)
    requires Next(s, act) == Some(t) && !By(act, p) && p in s.procs
    ensures Keeps(s, t, p)
  {
    hide Next;
    if act.Tick? || act.ForceUnlock? || act.Crash? || act.LostReply? {
      OutsideKeeps(s, act, t, p);
    } else if act.Inspect? || act.ReadMeta? || act.Decide? || act.Compare? {
      var phase := AcquiringMove(s, act, t);
    } else {
      PlainStepClaimsNothing(s, act, t);
      JournalKeeps(s, act, t, p);
    }
  }

  lemma {:induction false} OutsideKeeps(s: State, act: Act, t: State, p: nat)
    requires Next(s, act) == Some(t) && !By(act, p) && p in s.procs
    requires act.Tick? || act.ForceUnlock? || act.Crash? || act.LostReply?
    ensures Keeps(s, t, p)
  {
  }

  /** No step touches another process's journal. */
  lemma {:induction false} JournalKeeps(s: State, act: Act, t: State, p: nat)
    requires Next(s, act) == Some(t) && !act.Tick? && !act.ForceUnlock? && act.p != p
    requires !act.Inspect? && !act.ReadMeta? && !act.Decide? && !act.Compare?
    ensures t.kind == s.kind && Lookup(t.journal, p) == Lookup(s.journal, p)
  {
    hide DoInspect, DoDecide, LocalStale, Unchanged;
  }

  lemma {:induction false} OthersKeep(s: State, acts: seq<Act>, t: State, p: nat)
    requires Done(s, acts) == Some(t) && OfOthers(acts, p) && p in s.procs
    ensures Keeps(s, t, p)
    decreases |acts|
  {
    hide Next;
    if acts != [] {
      var u := Next(s, acts[0]).value;
      OtherKeeps(s, acts[0], u, p);
      OthersKeep(u, acts[1..], t, p);
    }
  }

  lemma {:induction false} DoneOnce(s: State, a: Act)
    ensures Done(s, [a]) == Next(s, a)
  {
    hide Next;
    assert [a][1..] == [];
  }

  lemma {:induction false} DoneTwice(s: State, a: Act, b: Act)
    ensures Done(s, [a, b]) == if Next(s, a).Some? then Next(Next(s, a).value, b) else None
  {
    hide Next;
    assert [a, b][1..] == [b];
    if Next(s, a).Some? { DoneOnce(Next(s, a).value, b); }
  }

  /** The state right after the process's own part of command `i`. */
  ghost function Own(y: Play, p: nat, flag: bool, i: nat): State
    requires PlaysAt(y, p, flag, i)
  {
    Done(y.world(i), OwnActs(y.world(i), p, y.script(i), flag)).value
  }

  lemma {:induction false} Turn(y: Play, p: nat, flag: bool, n: nat, m: nat, i: nat)
    requires Plays(y, p, flag, n, m) && n <= i < m
    ensures PlaysAt(y, p, flag, i) && Keeps(Own(y, p, flag, i), y.world(i + 1), p)
  {
    hide OwnActs, Tells, Next;
    assert PlaysAt(y, p, flag, i);
    var s := y.world(i);
    OwnKeepsProc(s, OwnActs(s, p, y.script(i), flag), Own(y, p, flag, i), p);
    OthersKeep(Own(y, p, flag, i), y.others(i), y.world(i + 1), p);
  }

  /** What command `i` meets. */
  lemma {:induction false} Meets(y: Play, p: nat, flag: bool, n: nat, m: nat, i: nat)
    requires Plays(y, p, flag, n, m) && n <= i < m
    ensures PlaysAt(y, p, flag, i) && p in y.world(i).procs && Tells(y.script(i), y.world(i), p)
    ensures y.script(i).at == y.world(i).now && y.script(i).inst == |y.world(i).owners| && y.script(i).dead == y.world(i).dead
    ensures forall dir :: LockScope.Before(dir, y.script(i)) == y.world(i).dir
    ensures forall dir, token :: LockScope.AfterMark(dir, y.script(i), token) == LockScope.AfterMark(y.world(i).dir, y.script(i), token)
    ensures forall dir :: LockScope.AfterRm(dir, y.script(i)) == LockScope.AfterRm(y.world(i).dir, y.script(i))
  {
    hide OwnActs, Done, Next;
    assert PlaysAt(y, p, flag, i);
  }

  /** Processes never disappear. */
  lemma {:induction false} OwnKeepsProc(s: State, acts: seq<Act>, t: State, p: nat)
    requires Done(s, acts) == Some(t) && p in s.procs
    ensures p in t.procs
    decreases |acts|
  {
    hide Next;
    if acts != [] {
      StillThere(s, acts[0], Next(s, acts[0]).value, p);
      OwnKeepsProc(Next(s, acts[0]).value, acts[1..], t, p);
    }
  }

  lemma {:induction false} StillThere(s: State, act: Act, t: State, p: nat)
    requires Next(s, act) == Some(t) && p in s.procs
    ensures p in t.procs
  {
    hide Next;
    if !By(act, p) {
      OtherKeeps(s, act, t, p);
    } else if act.Crash? || act.LostReply? {
      Interrupted(s, act, t);
    } else if act.Inspect? || act.ReadMeta? || act.Decide? || act.Compare? {
      var phase := AcquiringMove(s, act, t);
    } else {
      PlainStepClaimsNothing(s, act, t);
    }
  }

  // ---- the remote acquire --------------------------------------------------

  /** Where the process is, and what its memory says about the lock. */
  ghost predicate IsAt(s: State, me: LockScope.Me, phase: Phase, entry: Option<Entry>) {
    && s.kind.Remote? && Running(s, me.pid) && PhaseOf(s, me.pid) == phase && s.procs[me.pid].host == me.host
    && Lookup(s.journal, me.pid) == entry
  }

  lemma PhaseIs(s: State, me: LockScope.Me, phase: Phase, entry: Option<Entry>)
    requires IsAt(s, me, phase, entry)
    ensures me.pid in s.procs && PhaseOf(s, me.pid) == phase
  {
  }

  /** The process's part of one command leaves the lock `dir`, and the process there. */
  ghost predicate Takes(s: State, me: LockScope.Me, cmd: LockScope.Cmd, disk: bool, dir: Dir, phase: Phase, entry: Option<Entry>)
    requires me.pid in s.procs
  {
    var t := Done(s, OwnActs(s, me.pid, cmd, disk));
    t.Some? && t.value.dir == dir && IsAt(t.value, me, phase, entry)
  }

  lemma {:induction false} MkdirEvent(s: State, me: LockScope.Me, cmd: LockScope.Cmd, disk: bool, attempt: int)
    requires me.pid in s.procs && IsAt(s, me, Trying(attempt), Lookup(s.journal, me.pid)) && Tells(cmd, s, me.pid)
    ensures var dir := LockScope.AfterMkdir(s.dir, cmd);
            if LockScope.MkdirWins(s.dir, cmd) then Takes(s, me, cmd, disk, dir, Won, Some(Entry(cmd.at / 1_000, true)))
            else Takes(s, me, cmd, disk, dir, Looking(attempt), Lookup(s.journal, me.pid))
  {
    DoneOnce(s, OwnActs(s, me.pid, cmd, disk)[0]);
  }

  lemma {:induction false} PersistEvent(s: State, me: LockScope.Me, cmd: LockScope.Cmd, disk: bool, entry: Option<Entry>)
    requires me.pid in s.procs && IsAt(s, me, Won, entry) && Tells(cmd, s, me.pid)
    ensures Takes(s, me, cmd, disk, s.dir, Stamping, entry)
    ensures disk && entry.Some? ==>
              var t := Done(s, OwnActs(s, me.pid, cmd, disk)).value;
              t.records == s.records[s.procs[me.pid].home := Record(entry.value.marker, me.pid, me.host)]
    ensures !disk ==> Done(s, OwnActs(s, me.pid, cmd, disk)).value.records == s.records
  {
    DoneOnce(s, Persist(me.pid, disk));
  }

  lemma {:induction false} StampEvent(s: State, me: LockScope.Me, cmd: LockScope.Cmd, disk: bool, token: int)
    requires me.pid in s.procs && IsAt(s, me, Stamping, Some(Entry(token, true))) && Tells(cmd, s, me.pid)
    ensures Takes(s, me, cmd, disk, LockScope.AfterMark(s.dir, cmd, token), if cmd.reply.Works? then Inside else RollingBack,
                  Some(Entry(token, true)))
  {
    DoneOnce(s, OwnActs(s, me.pid, cmd, disk)[0]);
  }

  /** Removing the lock: the journal forgets it, or disowns it. */
  function LetGo(entry: Option<Entry>, cmd: LockScope.Cmd): Option<Entry> {
    if cmd.reply.Works? then None else LockScope.Disowned(entry)
  }

  lemma {:induction false} RollbackEvent(s: State, me: LockScope.Me, cmd: LockScope.Cmd, disk: bool, entry: Option<Entry>)
    requires me.pid in s.procs && IsAt(s, me, RollingBack, entry) && Tells(cmd, s, me.pid)
    ensures Takes(s, me, cmd, disk, LockScope.AfterRm(s.dir, cmd), Idle, LetGo(entry, cmd))
  {
    DoneOnce(s, OwnActs(s, me.pid, cmd, disk)[0]);
  }

  lemma {:induction false} ReleaseEvent(s: State, me: LockScope.Me, cmd: LockScope.Cmd, disk: bool, entry: Option<Entry>)
    requires me.pid in s.procs && IsAt(s, me, Inside, entry) && Tells(cmd, s, me.pid)
    ensures Takes(s, me, cmd, disk, LockScope.AfterRm(s.dir, cmd), Idle, LetGo(entry, cmd))
    ensures var t := Done(s, OwnActs(s, me.pid, cmd, disk)).value;
            t.records == if disk && cmd.reply.Works? then s.records - {s.procs[me.pid].home} else s.records
  {
    var acts := OwnActs(s, me.pid, cmd, disk);
    DoneTwice(s, acts[0], acts[1]);
  }

  lemma {:induction false} ListEvent(s: State, me: LockScope.Me, cmd: LockScope.Cmd, disk: bool, attempt: int)
    requires me.pid in s.procs && IsAt(s, me, Looking(attempt), Lookup(s.journal, me.pid)) && Tells(cmd, s, me.pid)
    ensures var seen := LockScope.Listed(s.dir, cmd);
            Takes(s, me, cmd, disk, s.dir, Judged(attempt, seen, RemoteStale(seen, cmd.at)), Lookup(s.journal, me.pid))
  {
    hide SeeRemote, RemoteStale;
    DoneOnce(s, OwnActs(s, me.pid, cmd, disk)[0]);
  }

  lemma {:induction false} DecideEvent(s: State, me: LockScope.Me, cmd: LockScope.Cmd, disk: bool)
    requires me.pid in s.procs && IsAt(s, me, PhaseOf(s, me.pid), Lookup(s.journal, me.pid))
    requires PhaseOf(s, me.pid).Judged? && Tells(cmd, s, me.pid)
    ensures var phase, record := PhaseOf(s, me.pid), Lookup(s.records, s.procs[me.pid].home);
            var mine := Owns(Lookup(s.journal, me.pid), record, s.procs[me.pid].host, s.dead, phase.seen);
            Takes(s, me, cmd, disk, s.dir, if (!phase.stale && !mine) || phase.attempt == 2 then Idle else Stealing(phase.seen),
                  Lookup(s.journal, me.pid))
  {
    hide Owns;
    DoneOnce(s, Decide(me.pid));
  }

  lemma {:induction false} CompareEvent(s: State, me: LockScope.Me, cmd: LockScope.Cmd, disk: bool, seen: Sight)
    requires me.pid in s.procs && IsAt(s, me, Stealing(seen), Lookup(s.journal, me.pid)) && Tells(cmd, s, me.pid)
    ensures var again := LockScope.Listed(s.dir, cmd);
            Takes(s, me, cmd, disk, s.dir, if again.Unread? || again != seen then Idle else Deleting(seen), Lookup(s.journal, me.pid))
  {
    hide SeeRemote;
    DoneOnce(s, OwnActs(s, me.pid, cmd, disk)[0]);
  }

  lemma {:induction false} DeleteEvent(s: State, me: LockScope.Me, cmd: LockScope.Cmd, disk: bool)
    requires me.pid in s.procs && IsAt(s, me, PhaseOf(s, me.pid), Lookup(s.journal, me.pid))
    requires PhaseOf(s, me.pid).Deleting? && Tells(cmd, s, me.pid)
    ensures Takes(s, me, cmd, disk, LockScope.AfterRm(s.dir, cmd), if cmd.reply.Works? then Trying(2) else Idle, Lookup(s.journal, me.pid))
  {
    DoneOnce(s, OwnActs(s, me.pid, cmd, disk)[0]);
  }

  /** Where the next command finds a process that its last one left there. */
  lemma {:induction false} Arrives(y: Play, me: LockScope.Me, disk: bool, n: nat, m: nat, i: nat,
                                     dir: Dir, phase: Phase, entry: Option<Entry>)
    requires Plays(y, me.pid, disk, n, m) && n <= i < m && me.pid in y.world(i).procs
    requires Takes(y.world(i), me, y.script(i), disk, dir, phase, entry)
    ensures PlaysAt(y, me.pid, disk, i) && Own(y, me.pid, disk, i).dir == dir && IsAt(y.world(i + 1), me, phase, entry)
  {
    hide OwnActs, Tells, Next, Done;
    Turn(y, me.pid, disk, n, m, i);
  }

  /**
    How a trial that ended before command `m` looks from the protocol: where
    the process is then, what its journal says, and what its last command left.
   */
  ghost predicate EndsAs(y: Play, me: LockScope.Me, disk: bool, trial: LockScope.Trial) {
    var m := trial.sent;
    && m > 0 && PlaysAt(y, me.pid, disk, m - 1) && Own(y, me.pid, disk, m - 1).dir == trial.scene.dir
    && IsAt(y.world(m), me, if trial.outcome.Entered? then Inside else Idle, trial.scene.entry)
    && var last := PhaseOf(y.world(m - 1), me.pid);
       match trial.outcome
       case Entered(token) => last.Stamping? && trial.scene.entry == Some(Entry(token, true))
       case LockHeld => last.Judged? || last.Stealing?
       case StoreError => last.Deleting? || last.RollingBack?
  }

  lemma {:induction false} RollbackIsARun(y: Play, me: LockScope.Me, disk: bool, n: nat, m: nat, i: nat, token: int)
    requires Plays(y, me.pid, disk, n, m) && n <= i < m && IsAt(y.world(i), me, RollingBack, Some(Entry(token, true)))
    ensures PlaysAt(y, me.pid, disk, i) && Own(y, me.pid, disk, i).dir == LockScope.AfterRm(y.world(i).dir, y.script(i))
    ensures IsAt(y.world(i + 1), me, Idle, LetGo(Some(Entry(token, true)), y.script(i)))
  {
    hide OwnActs, Next, Done, PlaysAt, Plays, Tells, Takes;
    Meets(y, me.pid, disk, n, m, i);
    RollbackEvent(y.world(i), me, y.script(i), disk, Some(Entry(token, true)));
    Arrives(y, me, disk, n, m, i, LockScope.AfterRm(y.world(i).dir, y.script(i)), Idle, LetGo(Some(Entry(token, true)), y.script(i)));
  }

  lemma {:induction false} SettleIsARun(y: Play, me: LockScope.Me, disk: bool, n: nat, scene: LockScope.Scene, token: int)
    requires var trial := LockScope.Settle(me, disk, y.script, n, scene, token); Plays(y, me.pid, disk, n, trial.sent)
    requires IsAt(y.world(n), me, Won, Some(Entry(token, true)))
    ensures EndsAs(y, me, disk, LockScope.Settle(me, disk, y.script, n, scene, token))
  {
    hide OwnActs, Next, Done, PlaysAt, Plays, Tells, Takes, IsAt, LockScope.AfterMark, LockScope.AfterRm, LockScope.Before;
    var p, m := me.pid, LockScope.Settle(me, disk, y.script, n, scene, token).sent;
    Meets(y, p, disk, n, m, n);
    Meets(y, p, disk, n, m, n + 1);
    PersistEvent(y.world(n), me, y.script(n), disk, Some(Entry(token, true)));
    Arrives(y, me, disk, n, m, n, y.world(n).dir, Stamping, Some(Entry(token, true)));
    StampEvent(y.world(n + 1), me, y.script(n + 1), disk, token);
    var marked, works := LockScope.AfterMark(y.world(n + 1).dir, y.script(n + 1), token), y.script(n + 1).reply.Works?;
    Arrives(y, me, disk, n, m, n + 1, marked, if works then Inside else RollingBack, Some(Entry(token, true)));
    PhaseIs(y.world(n + 1), me, Stamping, Some(Entry(token, true)));
    if !works {
      PhaseIs(y.world(n + 2), me, RollingBack, Some(Entry(token, true)));
      Meets(y, p, disk, n, m, n + 2);
      RollbackIsARun(y, me, disk, n, m, n + 2, token);
    }
  }

  /** After a lost `mkdir`: the lock is looked at, judged by the journal as it is then, compared, and deleted. */
  lemma {:induction false} LooksUntil(y: Play, me: LockScope.Me, disk: bool, n: nat, scene: LockScope.Scene, attempt: int, m: nat)
    requires 1 <= attempt <= 2 && Plays(y, me.pid, disk, n, m)
    requires !LockScope.MkdirWins(scene.dir, y.script(n)) && m == LockScope.Try(me, disk, y.script, n, scene, attempt).sent
    requires IsAt(y.world(n), me, Trying(attempt), scene.entry)
    requires disk || scene.record.None?
    ensures n + 3 <= m
    ensures var made := LockScope.AfterMkdir(scene.dir, y.script(n));
            var seen := LockScope.Listed(made, y.script(n + 1));
            var read := scene.(dir := y.world(n + 2).dir, record := LockScope.Reread(scene.record, disk, y.script(n + 2)));
            && PlaysAt(y, me.pid, disk, n + 2) && Own(y, me.pid, disk, n + 2).dir == read.dir
            && PhaseOf(y.world(n + 2), me.pid).Judged?
            && IsAt(y.world(n + 3), me,
                    if !LockScope.MayTake(me, read, seen, y.script(n + 1), y.script(n + 2)) || attempt == 2 then Idle else Stealing(seen),
                    scene.entry)
  {
    hide OwnActs, Next, Done, Takes, Owns, RemoteStale, SeeRemote;
    var p := me.pid;
    SentAfterLoss(me, disk, y.script, n, scene, attempt);
    assert PlaysAt(y, p, disk, n) && PlaysAt(y, p, disk, n + 1) && PlaysAt(y, p, disk, n + 2);
    MkdirEvent(y.world(n), me, y.script(n), disk, attempt);
    Arrives(y, me, disk, n, m, n, LockScope.AfterMkdir(y.world(n).dir, y.script(n)), Looking(attempt), scene.entry);
    ListEvent(y.world(n + 1), me, y.script(n + 1), disk, attempt);
    var seen := LockScope.Listed(y.world(n + 1).dir, y.script(n + 1));
    Arrives(y, me, disk, n, m, n + 1, y.world(n + 1).dir, Judged(attempt, seen, RemoteStale(seen, y.script(n + 1).at)), scene.entry);
    DecideEvent(y.world(n + 2), me, y.script(n + 2), disk);
    var record := Lookup(y.world(n + 2).records, y.world(n + 2).procs[p].home);
    assert LockScope.Reread(scene.record, disk, y.script(n + 2)) == record;
    var may := RemoteStale(seen, y.script(n + 1).at) || Owns(scene.entry, record, me.host, y.world(n + 2).dead, seen);
    Arrives(y, me, disk, n, m, n + 2, y.world(n + 2).dir, if !may || attempt == 2 then Idle else Stealing(seen), scene.entry);
  }

  lemma {:induction false} SentAfterLoss(me: LockScope.Me, disk: bool, script: LockScope.Script, n: nat,
                                           scene: LockScope.Scene, attempt: int)
    requires 1 <= attempt <= 2 && !LockScope.MkdirWins(scene.dir, script(n))
    ensures n + 3 <= LockScope.Try(me, disk, script, n, scene, attempt).sent
  {
    hide LockScope.MkdirWins, LockScope.MayTake, LockScope.Listed;
  }

  lemma {:induction false} AcquireWins(y: Play, me: LockScope.Me, disk: bool, n: nat, scene: LockScope.Scene, attempt: int)
    requires 1 <= attempt <= 2 && LockScope.MkdirWins(scene.dir, y.script(n))
    requires Plays(y, me.pid, disk, n, LockScope.Try(me, disk, y.script, n, scene, attempt).sent)
    requires IsAt(y.world(n), me, Trying(attempt), scene.entry)
    ensures EndsAs(y, me, disk, LockScope.Try(me, disk, y.script, n, scene, attempt))
  {
    hide OwnActs, Next, Done, PlaysAt, Tells, Takes;
    var p, token := me.pid, y.script(n).at / 1_000;
    var trial := LockScope.Try(me, disk, y.script, n, scene, attempt);
    Meets(y, p, disk, n, trial.sent, n);
    MkdirEvent(y.world(n), me, y.script(n), disk, attempt);
    Arrives(y, me, disk, n, trial.sent, n, LockScope.AfterMkdir(y.world(n).dir, y.script(n)), Won, Some(Entry(token, true)));
    hide EndsAs;
    SettleIsARun(y, me, disk, n + 1, scene.(dir := LockScope.AfterMkdir(scene.dir, y.script(n))), token);
  }

  lemma {:induction false} StealIsARun(y: Play, me: LockScope.Me, disk: bool, n: nat, scene: LockScope.Scene, seen: Sight)
    requires disk || scene.record.None?
    requires Plays(y, me.pid, disk, n, LockScope.Steal(me, disk, y.script, n, scene, seen).sent)
    requires IsAt(y.world(n), me, Stealing(seen), scene.entry)
    ensures EndsAs(y, me, disk, LockScope.Steal(me, disk, y.script, n, scene, seen))
    decreases 0, 1
  {
    hide OwnActs, Next, Done, PlaysAt, Tells, Takes, SeeRemote, LockScope.Try;
    var p, trial := me.pid, LockScope.Steal(me, disk, y.script, n, scene, seen);
    var m := trial.sent;
    SentAfterSteal(me, disk, y.script, n, scene, seen);
    Meets(y, p, disk, n, m, n);
    CompareEvent(y.world(n), me, y.script(n), disk, seen);
    var again := LockScope.Listed(y.world(n).dir, y.script(n));
    var gives := again.Unread? || again != seen;
    Arrives(y, me, disk, n, m, n, y.world(n).dir, if gives then Idle else Deleting(seen), scene.entry);
    if !gives {
      Meets(y, p, disk, n, m, n + 1);
      DeleteEvent(y.world(n + 1), me, y.script(n + 1), disk);
      var works := y.script(n + 1).reply.Works?;
      var gone := LockScope.AfterRm(y.world(n + 1).dir, y.script(n + 1));
      Arrives(y, me, disk, n, m, n + 1, gone, if works then Trying(2) else Idle, scene.entry);
      if works {
        AcquireIsARun(y, me, disk, n + 2, scene.(dir := gone), 2);
      }
    }
  }

  lemma {:induction false} SentAfterSteal(me: LockScope.Me, disk: bool, script: LockScope.Script, n: nat,
                                            scene: LockScope.Scene, seen: Sight)
    ensures var again := LockScope.Listed(scene.dir, script(n)); var sent := LockScope.Steal(me, disk, script, n, scene, seen).sent;
            n + 1 <= sent && (!again.Unread? && again == seen ==> n + 2 <= sent)
  {
    hide LockScope.MkdirWins, LockScope.MayTake, LockScope.Listed;
  }

  /**
    Every `acquire` over the remote backend, whatever others do between its
    commands, is a run of the protocol: it enters exactly when the process gets
    inside, and then holds the token its journal names; it reports a held lock
    exactly when the process gave up after judging or comparing, and an error
    when a command failed after that; and it leaves the lock as that run does.
   */
  lemma {:induction false} AcquireIsARun(y: Play, me: LockScope.Me, disk: bool, n: nat, scene: LockScope.Scene, attempt: int)
    requires 1 <= attempt <= 2 && (disk || scene.record.None?)
    requires Plays(y, me.pid, disk, n, LockScope.Try(me, disk, y.script, n, scene, attempt).sent)
    requires IsAt(y.world(n), me, Trying(attempt), scene.entry)
    ensures EndsAs(y, me, disk, LockScope.Try(me, disk, y.script, n, scene, attempt))
    decreases 2 - attempt, 0
  {
    hide OwnActs, Next, Done, Takes, Owns, RemoteStale, SeeRemote, LockScope.Settle, LockScope.Steal, LockScope.MayTake;
    var p, trial := me.pid, LockScope.Try(me, disk, y.script, n, scene, attempt);
    if LockScope.MkdirWins(scene.dir, y.script(n)) {
      AcquireWins(y, me, disk, n, scene, attempt);
    } else {
      LooksUntil(y, me, disk, n, scene, attempt, trial.sent);
      var seen := LockScope.Listed(LockScope.AfterMkdir(scene.dir, y.script(n)), y.script(n + 1));
      var read := scene.(dir := y.world(n + 2).dir, record := LockScope.Reread(scene.record, disk, y.script(n + 2)));
      if LockScope.MayTake(me, read, seen, y.script(n + 1), y.script(n + 2)) && attempt == 1 {
        StealIsARun(y, me, disk, n + 3, read, seen);
      }
    }
  }

  /** The release of a scope that entered, at whatever time: the process is out, and the journal and the lock are as the run leaves them. */
  lemma {:induction false} ReleaseIsARun(y: Play, me: LockScope.Me, disk: bool, n: nat, scene: LockScope.Scene)
    requires IsAt(y.world(n), me, Inside, scene.entry) && PlaysAt(y, me.pid, disk, n)
    ensures var done := LockScope.Release(disk, y.script, n, scene);
            Own(y, me.pid, disk, n).dir == done.dir && IsAt(y.world(n + 1), me, Idle, done.entry)
    ensures var s := y.world(n);
            Own(y, me.pid, disk, n).records ==
            if disk && y.script(n).reply.Works? then s.records - {s.procs[me.pid].home} else s.records
  {
    hide OwnActs, Next, Done, Takes;
    var done := LockScope.Release(disk, y.script, n, scene);
    ReleaseEvent(y.world(n), me, y.script(n), disk, scene.entry);
    Arrives(y, me, disk, n, n + 1, n, done.dir, Idle, done.entry);
  }

  // ---- the local acquire ---------------------------------------------------

  ghost predicate LocallyAt(s: State, me: LockScope.Me, phase: Phase) {
    s.kind.Local? && Running(s, me.pid) && PhaseOf(s, me.pid) == phase && s.procs[me.pid].host == me.host
  }

  ghost predicate TakesLocally(s: State, me: LockScope.Me, cmd: LockScope.Cmd, known: bool, dir: Dir, phase: Phase)
    requires me.pid in s.procs
  {
    var t := Done(s, OwnActs(s, me.pid, cmd, known));
    t.Some? && t.value.dir == dir && LocallyAt(t.value, me, phase)
  }

  lemma {:induction false} LocalMkdir(s: State, me: LockScope.Me, cmd: LockScope.Cmd, known: bool, attempt: int)
    requires LocallyAt(s, me, Trying(attempt)) && Tells(cmd, s, me.pid)
    ensures !cmd.reply.Works? ==> TakesLocally(s, me, cmd, known, s.dir, Idle)
    ensures cmd.reply.Works? && s.dir.Absent? ==> TakesLocally(s, me, cmd, known, Dir(cmd.inst, cmd.at, None), Stamping)
    ensures cmd.reply.Works? && s.dir.Dir? ==> TakesLocally(s, me, cmd, known, s.dir, Looking(attempt))
  {
    var acts := OwnActs(s, me.pid, cmd, known);
    DoneOnce(s, acts[0]);
    if |acts| == 2 { DoneTwice(s, acts[0], acts[1]); }
  }

  lemma {:induction false} LocalMark(s: State, me: LockScope.Me, cmd: LockScope.Cmd, known: bool)
    requires LocallyAt(s, me, Stamping) && Tells(cmd, s, me.pid)
    ensures if cmd.reply.Works? && s.dir.Dir?
            then TakesLocally(s, me, cmd, known, s.dir.(stamp := Some(LocalLock.MetaOf(me, known, cmd.at))), Inside)
            else TakesLocally(s, me, cmd, known, s.dir, RollingBack)
  {
    DoneOnce(s, OwnActs(s, me.pid, cmd, known)[0]);
  }

  lemma {:induction false} LocalRollback(s: State, me: LockScope.Me, cmd: LockScope.Cmd, known: bool)
    requires LocallyAt(s, me, RollingBack) && Tells(cmd, s, me.pid)
    ensures TakesLocally(s, me, cmd, known, if cmd.reply.Works? then Absent else s.dir, Idle)
  {
    DoneOnce(s, OwnActs(s, me.pid, cmd, known)[0]);
  }

  /** What the process does once it has a verdict. */
  function Decided(seen: Sight, stale: bool, attempt: int): Phase { if !stale || attempt == 2 then Idle else Stealing(seen) }

  lemma {:induction false} LocalStat(s: State, me: LockScope.Me, cmd: LockScope.Cmd, known: bool, attempt: int)
    requires LocallyAt(s, me, Looking(attempt)) && Tells(cmd, s, me.pid)
    ensures var seen := LocalLock.Stat(s.dir, cmd.reply.Works?);
            if seen.Nothing? then TakesLocally(s, me, cmd, known, s.dir, Decided(Nothing, true, attempt))
            else s.dir.Dir? && TakesLocally(s, me, cmd, known, s.dir, Statted(attempt, seen, s.dir.born))
  {
    var acts := OwnActs(s, me.pid, cmd, known);
    DoneOnce(s, acts[0]);
    if |acts| == 2 { DoneTwice(s, acts[0], acts[1]); }
  }

  lemma {:induction false} LocalRead(s: State, me: LockScope.Me, cmd: LockScope.Cmd, known: bool, attempt: int, seen: Sight, born: int)
    requires LocallyAt(s, me, Statted(attempt, seen, born)) && Tells(cmd, s, me.pid) && seen.Inode?
    ensures var stale := LocalStale(s.dir, cmd.reply.Works?, born, cmd.at, me.host, cmd.dead);
            TakesLocally(s, me, cmd, known, s.dir, Decided(seen, stale, attempt))
  {
    hide LocalStale;
    var acts := OwnActs(s, me.pid, cmd, known);
    DoneTwice(s, acts[0], acts[1]);
  }

  lemma {:induction false} LocalCompare(s: State, me: LockScope.Me, cmd: LockScope.Cmd, known: bool, seen: Sight)
    requires LocallyAt(s, me, Stealing(seen)) && Tells(cmd, s, me.pid)
    ensures TakesLocally(s, me, cmd, known, s.dir, if Unchanged(Local, s.dir, cmd.reply.Works?, seen) then Deleting(seen) else Idle)
  {
    hide Unchanged;
    DoneOnce(s, OwnActs(s, me.pid, cmd, known)[0]);
  }

  lemma {:induction false} LocalDelete(s: State, me: LockScope.Me, cmd: LockScope.Cmd, known: bool)
    requires me.pid in s.procs && LocallyAt(s, me, PhaseOf(s, me.pid)) && PhaseOf(s, me.pid).Deleting? && Tells(cmd, s, me.pid)
    ensures if cmd.reply.Works? then TakesLocally(s, me, cmd, known, Absent, Trying(2))
            else TakesLocally(s, me, cmd, known, s.dir, Idle)
  {
    DoneOnce(s, OwnActs(s, me.pid, cmd, known)[0]);
  }

  lemma {:induction false} ArrivesLocally(y: Play, me: LockScope.Me, known: bool, n: nat, m: nat, i: nat, dir: Dir, phase: Phase)
    requires Plays(y, me.pid, known, n, m) && n <= i < m && me.pid in y.world(i).procs
    requires TakesLocally(y.world(i), me, y.script(i), known, dir, phase)
    ensures PlaysAt(y, me.pid, known, i) && Own(y, me.pid, known, i).dir == dir && LocallyAt(y.world(i + 1), me, phase)
  {
    hide OwnActs, Tells, Next, Done;
    Turn(y, me.pid, known, n, m, i);
  }

  /** How a local trial looks from the protocol. */
  ghost predicate LocallyEndsAs(y: Play, me: LockScope.Me, known: bool, trial: LocalLock.LocalTrial) {
    var m := trial.sent;
    && m > 0 && PlaysAt(y, me.pid, known, m - 1) && Own(y, me.pid, known, m - 1).dir == trial.dir
    && LocallyAt(y.world(m), me, if trial.outcome.Inside? then Inside else Idle)
    && var last := PhaseOf(y.world(m - 1), me.pid);
       match trial.outcome
       case Inside => last.Stamping?
       case HeldByOther => last.Looking? || last.Statted? || last.Stealing?
       case Threw => last.Trying? || last.RollingBack? || last.Deleting?
  }

  lemma {:induction false} MarkIsARun(y: Play, me: LockScope.Me, known: bool, n: nat, dir: Dir)
    requires var trial := LocalLock.Mark(me, known, y.script, n, dir); Plays(y, me.pid, known, n, trial.sent)
    requires LocallyAt(y.world(n), me, Stamping)
    ensures LocallyEndsAs(y, me, known, LocalLock.Mark(me, known, y.script, n, dir))
  {
    hide OwnActs, Next, Done, PlaysAt, Plays, Tells, TakesLocally;
    var trial := LocalLock.Mark(me, known, y.script, n, dir);
    Meets(y, me.pid, known, n, trial.sent, n);
    var s, cmd := y.world(n), y.script(n);
    LocalMark(s, me, cmd, known);
    if cmd.reply.Works? && s.dir.Dir? {
      ArrivesLocally(y, me, known, n, trial.sent, n, s.dir.(stamp := Some(LocalLock.MetaOf(me, known, cmd.at))), Inside);
    } else {
      ArrivesLocally(y, me, known, n, trial.sent, n, s.dir, RollingBack);
      Meets(y, me.pid, known, n, trial.sent, n + 1);
      LocalRollback(y.world(n + 1), me, y.script(n + 1), known);
      ArrivesLocally(y, me, known, n, trial.sent, n + 1, if y.script(n + 1).reply.Works? then Absent else y.world(n + 1).dir, Idle);
    }
  }

  /** The inspection: one call or two, and a decision. */
  lemma {:induction false} JudgeIsARun(y: Play, me: LockScope.Me, known: bool, n: nat, dir: Dir, attempt: int, m: nat)
    requires 1 <= attempt <= 2 && LocallyAt(y.world(n), me, Looking(attempt))
    requires LocalLock.Judge(me, y.script, n, dir).sent <= m && Plays(y, me.pid, known, n, m)
    ensures var v := LocalLock.Judge(me, y.script, n, dir);
            && n < v.sent && LocallyAt(y.world(v.sent), me, Decided(v.seen, v.stale, attempt))
            && PlaysAt(y, me.pid, known, v.sent - 1) && Own(y, me.pid, known, v.sent - 1).dir == v.dir
            && (PhaseOf(y.world(v.sent - 1), me.pid).Looking? || PhaseOf(y.world(v.sent - 1), me.pid).Statted?)
  {
    hide OwnActs, Next, Done, PlaysAt, Plays, Tells, TakesLocally, LocalStale;
    Meets(y, me.pid, known, n, m, n);
    var s, cmd := y.world(n), y.script(n);
    LocalStat(s, me, cmd, known, attempt);
    var seen := LocalLock.Stat(s.dir, cmd.reply.Works?);
    if seen.Nothing? {
      ArrivesLocally(y, me, known, n, m, n, s.dir, Decided(Nothing, true, attempt));
    } else {
      ArrivesLocally(y, me, known, n, m, n, s.dir, Statted(attempt, seen, s.dir.born));
      Meets(y, me.pid, known, n, m, n + 1);
      var t, read := y.world(n + 1), y.script(n + 1);
      LocalRead(t, me, read, known, attempt, seen, s.dir.born);
      var stale := LocalStale(t.dir, read.reply.Works?, s.dir.born, read.at, me.host, read.dead);
      ArrivesLocally(y, me, known, n, m, n + 1, t.dir, Decided(seen, stale, attempt));
    }
  }

  lemma {:induction false} SentAfterJudging(me: LockScope.Me, known: bool, script: LockScope.Script, n: nat, dir: Dir, attempt: int)
    requires 1 <= attempt <= 2 && LocalLock.DoesWork(script, n) && LockScope.Before(dir, script(n)).Dir?
    ensures var v := LocalLock.Judge(me, script, n + 1, LockScope.Before(dir, script(n)));
            var sent := LocalLock.LocalTry(me, known, script, n, dir, attempt).sent;
            v.sent <= sent
  {
    hide LocalLock.Judge, LocalLock.RemovesSeen;
    var v := LocalLock.Judge(me, script, n + 1, LockScope.Before(dir, script(n)));
    FirstIsSent(me, known, script, v.sent + 2, Absent, 2);
  }

  /** Every local `acquire`, too, is a run of the protocol, whatever others do between its calls. */
  lemma {:induction false} LocalAcquireIsARun(y: Play, me: LockScope.Me, known: bool, n: nat, dir: Dir, attempt: int)
    requires 1 <= attempt <= 2
    requires Plays(y, me.pid, known, n, LocalLock.LocalTry(me, known, y.script, n, dir, attempt).sent)
    requires LocallyAt(y.world(n), me, Trying(attempt))
    ensures LocallyEndsAs(y, me, known, LocalLock.LocalTry(me, known, y.script, n, dir, attempt))
    decreases 2 - attempt, 2
  {
    hide OwnActs, Next, Done, PlaysAt, Tells, TakesLocally, LocalStale, LocalLock.Mark, LocalLock.Judge;
    var p, trial := me.pid, LocalLock.LocalTry(me, known, y.script, n, dir, attempt);
    var m := trial.sent;
    FirstIsSent(me, known, y.script, n, dir, attempt);
    Meets(y, p, known, n, m, n);
    var s, cmd := y.world(n), y.script(n);
    LocalMkdir(s, me, cmd, known, attempt);
    if !cmd.reply.Works? {
      ArrivesLocally(y, me, known, n, m, n, s.dir, Idle);
    } else if s.dir.Absent? {
      ArrivesLocally(y, me, known, n, m, n, Dir(cmd.inst, cmd.at, None), Stamping);
      MarkIsARun(y, me, known, n + 1, Dir(cmd.inst, cmd.at, None));
    } else {
      ArrivesLocally(y, me, known, n, m, n, s.dir, Looking(attempt));
      LocalLossIsARun(y, me, known, n, dir, attempt);
    }
  }

  lemma {:induction false} LocalLossIsARun(y: Play, me: LockScope.Me, known: bool, n: nat, dir: Dir, attempt: int)
    requires 1 <= attempt <= 2 && LocalLock.DoesWork(y.script, n) && LockScope.Before(dir, y.script(n)).Dir?
    requires Plays(y, me.pid, known, n, LocalLock.LocalTry(me, known, y.script, n, dir, attempt).sent)
    requires LocallyAt(y.world(n + 1), me, Looking(attempt))
    ensures LocallyEndsAs(y, me, known, LocalLock.LocalTry(me, known, y.script, n, dir, attempt))
    decreases 2 - attempt, 1
  {
    hide OwnActs, Next, Done, PlaysAt, Tells, LocallyAt, LocalStale, LocalLock.Mark, LocalLock.Judge, LocalLock.LocalSteal;
    var found, trial := LockScope.Before(dir, y.script(n)), LocalLock.LocalTry(me, known, y.script, n, dir, attempt);
    SentAfterJudging(me, known, y.script, n, dir, attempt);
    JudgeIsARun(y, me, known, n + 1, found, attempt, trial.sent);
    var v := LocalLock.Judge(me, y.script, n + 1, found);
    if v.stale && attempt == 1 { LocalStealIsARun(y, me, known, v, trial); }
  }

  lemma {:induction false} FirstIsSent(me: LockScope.Me, known: bool, script: LockScope.Script, n: nat, dir: Dir, attempt: int)
    requires 1 <= attempt <= 2
    ensures LocalLock.LocalTry(me, known, script, n, dir, attempt).sent > n
    decreases 2 - attempt
  {
    if attempt == 1 {
      var v := LocalLock.Judge(me, script, n + 1, LockScope.Before(dir, script(n)));
      FirstIsSent(me, known, script, v.sent + 2, Absent, 2);
    }
  }

  lemma {:induction false} LocalStealIsARun(y: Play, me: LockScope.Me, known: bool, v: LocalLock.Verdict, trial: LocalLock.LocalTrial)
    requires trial == LocalLock.LocalSteal(me, known, y.script, v) && Plays(y, me.pid, known, v.sent, trial.sent)
    requires LocallyAt(y.world(v.sent), me, Stealing(v.seen))
    ensures LocallyEndsAs(y, me, known, trial)
    decreases 0, 3
  {
    hide OwnActs, Next, Done, PlaysAt, Tells, TakesLocally, LocalLock.LocalTry;
    FirstIsSent(me, known, y.script, v.sent + 2, Absent, 2);
    var n, m := v.sent, trial.sent;
    Meets(y, me.pid, known, n, m, n);
    var s, cmd := y.world(n), y.script(n);
    LocalCompare(s, me, cmd, known, v.seen);
    if Unchanged(Local, s.dir, cmd.reply.Works?, v.seen) {
      ArrivesLocally(y, me, known, n, m, n, s.dir, Deleting(v.seen));
      Meets(y, me.pid, known, n, m, n + 1);
      LocalDelete(y.world(n + 1), me, y.script(n + 1), known);
      if y.script(n + 1).reply.Works? {
        ArrivesLocally(y, me, known, n, m, n + 1, Absent, Trying(2));
        LocalAcquireIsARun(y, me, known, n + 2, Absent, 2);
      } else {
        ArrivesLocally(y, me, known, n, m, n + 1, y.world(n + 1).dir, Idle);
      }
    } else {
      ArrivesLocally(y, me, known, n, m, n, s.dir, Idle);
    }
  }

  // ---- mutual exclusion ----------------------------------------------------

  /** Every step, the process's and the others', satisfies the hypotheses. */
  ghost predicate PlaysLawfully(y: Play, p: nat, flag: bool, n: nat, m: nat) {
    forall i :: n <= i < m && PlaysAt(y, p, flag, i) ==>
      Lawfully(y.world(i), OwnActs(y.world(i), p, y.script(i), flag)) && Lawfully(Own(y, p, flag, i), y.others(i))
  }

  lemma {:induction false} LawfullyKeepsInv(s: State, acts: seq<Act>, t: State)
    requires Inv(s) && Lawfully(s, acts) && Done(s, acts) == Some(t)
    ensures Inv(t)
    decreases |acts|
  {
    hide Inv, LawfulStep, Next;
    if acts != [] {
      StepKeepsInv(s, acts[0], Next(s, acts[0]).value);
      LawfullyKeepsInv(Next(s, acts[0]).value, acts[1..], t);
    }
  }

  lemma {:induction false} PlayKeepsInv(y: Play, p: nat, flag: bool, n: nat, m: nat)
    requires n <= m && Plays(y, p, flag, n, m) && PlaysLawfully(y, p, flag, n, m) && Inv(y.world(n))
    ensures Inv(y.world(m))
    decreases m
  {
    hide Inv, Lawfully, Done, OwnActs, Tells;
    if n < m {
      PlayKeepsInv(y, p, flag, n, m - 1);
      var i := m - 1;
      assert PlaysAt(y, p, flag, i);
      LawfullyKeepsInv(y.world(i), OwnActs(y.world(i), p, y.script(i), flag), Own(y, p, flag, i));
      LawfullyKeepsInv(Own(y, p, flag, i), y.others(i), y.world(i + 1));
    }
  }

  /** The process is inside alone, and the lock at the path is the instance it won. */
  ghost predicate InsideAlone(s: State, p: nat) {
    && IsInside(s, p) && (forall q :: IsInside(s, q) ==> q == p)
    && s.dir.Dir? && s.procs[p].won == Some(s.dir.inst)
  }

  lemma {:induction false} InsideIsAlone(s: State, p: nat)
    requires Inv(s) && IsInside(s, p)
    ensures InsideAlone(s, p)
  {
    hide PhaseInv, ShortSections, PromptMeta, RecordInv, HistoryInv, DirInv, OwnerInv;
    forall q | IsInside(s, q) ensures q == p { BothHold(s, p, q); }
    assert HolderInv(s, p);
  }

  lemma {:induction false} BothHold(s: State, p: nat, q: nat)
    requires Inv(s) && IsInside(s, p) && IsInside(s, q)
    ensures p == q
  {
    hide PhaseInv, ShortSections, PromptMeta, RecordInv, DirInv;
    assert OwnerInv(s, p) && OwnerInv(s, q) && HolderInv(s, p) && HolderInv(s, q);
  }

  /**
    So `acquire`, over either backend and from any state a lawful run reaches,
    returns with the lock only to a process that is inside alone.
   */
  lemma {:induction false} AcquireExcludes(y: Play, me: LockScope.Me, disk: bool, n: nat, scene: LockScope.Scene)
    requires disk || scene.record.None?
    requires var m := LockScope.Try(me, disk, y.script, n, scene, 1).sent;
             Plays(y, me.pid, disk, n, m) && PlaysLawfully(y, me.pid, disk, n, m)
    requires Inv(y.world(n)) && IsAt(y.world(n), me, Trying(1), scene.entry)
    ensures var trial := LockScope.Try(me, disk, y.script, n, scene, 1);
            Inv(y.world(trial.sent)) && (trial.outcome.Entered? ==> InsideAlone(y.world(trial.sent), me.pid))
  {
    hide Inv, LockScope.Try, Plays, PlaysLawfully, InsideAlone, PlaysAt;
    var trial := LockScope.Try(me, disk, y.script, n, scene, 1);
    RemoteSends(me, disk, y.script, n, scene);
    AcquireIsARun(y, me, disk, n, scene, 1);
    PlayKeepsInv(y, me.pid, disk, n, trial.sent);
    if trial.outcome.Entered? { InsideIsAlone(y.world(trial.sent), me.pid); }
  }

  lemma {:induction false} RemoteSends(me: LockScope.Me, disk: bool, script: LockScope.Script, n: nat, scene: LockScope.Scene)
    ensures LockScope.Try(me, disk, script, n, scene, 1).sent > n
  {
    hide LockScope.MkdirWins, LockScope.MayTake, LockScope.Listed;
  }

  lemma {:induction false} LocalAcquireExcludes(y: Play, me: LockScope.Me, known: bool, n: nat, dir: Dir)
    requires var m := LocalLock.LocalTry(me, known, y.script, n, dir, 1).sent;
             Plays(y, me.pid, known, n, m) && PlaysLawfully(y, me.pid, known, n, m)
    requires Inv(y.world(n)) && LocallyAt(y.world(n), me, Trying(1))
    ensures var trial := LocalLock.LocalTry(me, known, y.script, n, dir, 1);
            Inv(y.world(trial.sent)) && (trial.outcome.Inside? ==> InsideAlone(y.world(trial.sent), me.pid))
  {
    hide Inv, LocalLock.LocalTry, Plays, PlaysLawfully, InsideAlone, PlaysAt;
    var trial := LocalLock.LocalTry(me, known, y.script, n, dir, 1);
    FirstIsSent(me, known, y.script, n, dir, 1);
    LocalAcquireIsARun(y, me, known, n, dir, 1);
    PlayKeepsInv(y, me.pid, known, n, trial.sent);
    if trial.outcome.Inside? { InsideIsAlone(y.world(trial.sent), me.pid); }
  }
}
