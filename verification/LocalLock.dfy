/**
  The local lock backend (src/snapshots/internal/local-store.ts:121-264) under
  `acquire` (src/snapshots/internal/lock.ts:360-416): an atomic `mkdir`, a meta
  file inside, and a judgement made of two system calls. Other processes may act
  before every one of them; one that does not work has no effect.
 */
module LocalLock {
  import opened Prelude
  import opened LockRules
  import opened LockScope

  datatype Tried = Won | Exists | Throws

  datatype LocalOutcome = Inside | HeldByOther | Threw

  /** What a local `acquire` returns, the lock it leaves and the number of the next call. */
  datatype LocalTrial = LocalTrial(outcome: LocalOutcome, dir: Dir, sent: nat)

  predicate DoesWork(script: Script, n: nat) { script(n).reply.Works? }

  function MetaOf(me: Me, known: bool, at: int): Stamp { Meta(me.pid, me.host, known, at) }

  /** An `lstat` that fails for whatever reason sees nothing. */
  function Stat(found: Dir, works: bool): Sight { if works then SeeLocal(found) else Nothing }

  /** After winning `mkdir`: the meta, and the rollback when it cannot be written. */
  function Mark(me: Me, known: bool, script: Script, n: nat, dir: Dir): LocalTrial {
    var found := Before(dir, script(n));
    if DoesWork(script, n) && found.Dir?
    then LocalTrial(Inside, found.(stamp := Some(MetaOf(me, known, script(n).at))), n + 1)
    else LocalTrial(Threw, if DoesWork(script, n + 1) then Absent else Before(found, script(n + 1)), n + 2)
  }

  /** A verdict: what was seen, whether it is stale, and the lock and call number afterwards. */
  datatype Verdict = Verdict(seen: Sight, stale: bool, dir: Dir, sent: nat)

  /** `inspect`: the lock as `lstat` found it, judged by the meta as it was read after that. */
  function Judge(me: Me, script: Script, n: nat, dir: Dir): Verdict {
    var first := Before(dir, script(n));
    var seen := Stat(first, DoesWork(script, n));
    if seen.Nothing? then Verdict(seen, true, first, n + 1)
    else
      var second := Before(first, script(n + 1));
      Verdict(seen, LocalStale(second, DoesWork(script, n + 1), first.born, script(n + 1).at, me.host, script(n + 1).dead), second, n + 2)
  }

  /** `removeIfUnchanged`: whether the lock is still the instance seen, and what is left. */
  function RemovesSeen(script: Script, n: nat, dir: Dir, seen: Sight): bool {
    var found := Before(dir, script(n));
    DoesWork(script, n) && found.Dir? && SeeLocal(found) == seen
  }

  function LocalTry(me: Me, known: bool, script: Script, n: nat, dir: Dir, attempt: int): LocalTrial
    requires 1 <= attempt <= 2
    decreases 2 - attempt, 0
  {
    var found := Before(dir, script(n));
    if !DoesWork(script, n) then LocalTrial(Threw, found, n + 1)
    else if found.Absent? then Mark(me, known, script, n + 1, Dir(script(n).inst, script(n).at, None))
    else
      var v := Judge(me, script, n + 1, found);
      if !v.stale || attempt == 2 then LocalTrial(HeldByOther, v.dir, v.sent) else LocalSteal(me, known, script, v)
  }

  /** Compare and delete, and the one re-attempt. */
  function LocalSteal(me: Me, known: bool, script: Script, v: Verdict): LocalTrial
    decreases 0, 1
  {
    if !RemovesSeen(script, v.sent, v.dir, v.seen) then LocalTrial(HeldByOther, Before(v.dir, script(v.sent)), v.sent + 1)
    else if !DoesWork(script, v.sent + 1)
    then LocalTrial(Threw, Before(Before(v.dir, script(v.sent)), script(v.sent + 1)), v.sent + 2)
    else LocalTry(me, known, script, v.sent + 2, Absent, 2)
  }

  /** `LocalLockBackend`; `dir` is the lock path. */
  class LocalLockBackend {
    const me: Me
    const script: Script
    var sent: nat
    var dir: Dir
    var inspected: Sight

    constructor (me: Me, script: Script, dir: Dir)
      ensures this.me == me && this.script == script && this.dir == dir && sent == 0 && inspected == Nothing
    {
      this.me, this.script, this.dir, sent, inspected := me, script, dir, 0, Nothing;
    }

    method TryAcquire() returns (tried: Tried)
      modifies this`sent, this`dir
      ensures var n, found := old(sent), Before(old(dir), script(old(sent)));
              && (tried.Won? <==> DoesWork(script, n) && found.Absent?) && (tried.Throws? <==> !DoesWork(script, n))
              && dir == if tried.Won? then Dir(script(n).inst, script(n).at, None) else found
      ensures sent == old(sent) + 1
    {
      var n := sent;
      dir := Before(dir, script(n));
      sent := sent + 1;
      if !DoesWork(script, n) { return Throws; }
      if dir.Dir? { return Exists; }
      dir := Dir(script(n).inst, script(n).at, None);
      return Won;
    }

    /** The meta goes into the lock that is there, whoever's it is by then, and never makes a new one. */
    method WriteMeta(known: bool) returns (ok: bool)
      modifies this`sent, this`dir
      ensures var n, found := old(sent), Before(old(dir), script(old(sent)));
              && ok == (DoesWork(script, n) && found.Dir?)
              && dir == if ok then found.(stamp := Some(MetaOf(me, known, script(n).at))) else found
      ensures sent == old(sent) + 1
    {
      dir := Before(dir, script(sent));
      ok := DoesWork(script, sent) && dir.Dir?;
      if ok { dir := dir.(stamp := Some(MetaOf(me, known, script(sent).at))); }
      sent := sent + 1;
    }

    /** `lstat`, and then the meta: what the first saw is remembered, what the second read is judged. */
    method Inspect() returns (stale: bool)
      modifies this`sent, this`dir, this`inspected
      ensures Judge(me, script, old(sent), old(dir)) == Verdict(inspected, stale, dir, sent)
    {
      dir := Before(dir, script(sent));
      inspected := Stat(dir, DoesWork(script, sent));
      sent := sent + 1;
      if inspected.Nothing? { return true; }
      var born := dir.born;
      dir := Before(dir, script(sent));
      var readable, now, dead := DoesWork(script, sent), script(sent).at, script(sent).dead;
      sent := sent + 1;
      if !readable || dir.Absent? || dir.stamp.None? || !dir.stamp.value.Meta? {
        return now - born >= GRACE_MS;
      }
      var meta := dir.stamp.value;
      if meta.host != me.host { return Abs(now - meta.createdAt) > TTL_MS; }
      if meta.proc in dead { return true; }
      return !meta.startKnown;
    }

    method Remove() returns (ok: bool)
      modifies this`sent, this`dir
      ensures ok == DoesWork(script, old(sent)) && sent == old(sent) + 1
      ensures dir == if ok then Absent else Before(old(dir), script(old(sent)))
    {
      ok := DoesWork(script, sent);
      dir := if ok then Absent else Before(dir, script(sent));
      sent := sent + 1;
    }

    /** Tries to remove the lock while it is still the instance that was inspected; a vanished one is left to others. */
    method RemoveIfUnchanged() returns (tried: bool, ok: bool)
      modifies this`sent, this`dir
      ensures var n, found := old(sent), Before(old(dir), script(old(sent)));
              && tried == RemovesSeen(script, n, old(dir), inspected)
              && (tried ==> ok == DoesWork(script, n + 1))
              && sent == (if tried then n + 2 else n + 1)
              && dir == (if !tried then found else if ok then Absent else Before(found, script(n + 1)))
    {
      ok := DoesWork(script, sent);
      dir := Before(dir, script(sent));
      sent := sent + 1;
      tried := ok && dir.Dir? && inspected == Inode(dir.inst, dir.stamp.Some?);
      if tried { ok := Remove(); }
    }
  }

  /** `acquire` over the local backend, whose locks carry no token and are never journalled. */
  method Acquire(backend: LocalLockBackend, known: bool) returns (outcome: LocalOutcome)
    modifies backend
    ensures LocalTry(backend.me, known, backend.script, old(backend.sent), old(backend.dir), 1) ==
            LocalTrial(outcome, backend.dir, backend.sent)
  {
    hide Judge, RemovesSeen, Before;
    ghost var goal := LocalTry(backend.me, known, backend.script, backend.sent, backend.dir, 1);
    for attempt := 1 to 3
      invariant attempt <= 2
      invariant LocalTry(backend.me, known, backend.script, backend.sent, backend.dir, attempt) == goal
    {
      var tried := backend.TryAcquire();
      if tried.Throws? { return Threw; }
      if tried.Won? {
        var marked := backend.WriteMeta(known);
        if marked { return Inside; }
        var _ := backend.Remove();
        return Threw;
      }
      var stale := backend.Inspect();
      if !stale || attempt == 2 { return HeldByOther; }
      var matched, stolen := backend.RemoveIfUnchanged();
      if !matched { return HeldByOther; }
      if !stolen { return Threw; }
    }
    assert false;
  }

  // ---- what a local acquire does -------------------------------------------

  ghost predicate WorksFor(script: Script, n: nat, k: nat) { forall i :: n <= i < n + k ==> DoesWork(script, i) }

  /** Others act only just before the `lstat` of the first inspection. */
  ghost predicate QuietButAtLstat(script: Script, n: nat) {
    forall i :: n <= i < n + 7 && i != n + 1 ==> script(i).meddled.None?
  }

  /**
    After a lost `mkdir`, with calls that work and others acting only before
    the `lstat`: it enters exactly when the lock is still there and stale by
    what is then read. A lock released in between is not retried: the caller is
    told it is held, and the path is left free.
   */
  lemma {:induction false} LostMkdir(me: Me, known: bool, script: Script, n: nat, dir: Dir)
    requires dir.Dir? && WorksFor(script, n, 7) && QuietButAtLstat(script, n)
    ensures var first := Before(dir, script(n + 1)); var trial := LocalTry(me, known, script, n, dir, 1);
            && (trial.outcome.Inside? <==>
                  first.Dir? && LocalStale(first, true, first.born, script(n + 2).at, me.host, script(n + 2).dead))
            && (first.Absent? ==> trial == LocalTrial(HeldByOther, Absent, n + 3))
            && (trial.outcome.Inside? ==>
                  trial == LocalTrial(Inside, Dir(script(n + 5).inst, script(n + 5).at, Some(MetaOf(me, known, script(n + 6).at))), n + 7))
            && (!trial.outcome.Inside? ==> trial == LocalTrial(HeldByOther, first, n + 3))
  {
    hide LocalStale;
    assert DoesWork(script, n) && DoesWork(script, n + 1) && DoesWork(script, n + 2) && DoesWork(script, n + 3);
    assert DoesWork(script, n + 4) && DoesWork(script, n + 5) && DoesWork(script, n + 6);
    assert script(n).meddled.None? && script(n + 2).meddled.None? && script(n + 3).meddled.None?;
    assert script(n + 4).meddled.None? && script(n + 5).meddled.None? && script(n + 6).meddled.None?;
    var first := Before(dir, script(n + 1));
    if first.Dir? && LocalStale(first, true, first.born, script(n + 2).at, me.host, script(n + 2).dead) {
      assert LocalTry(me, known, script, n, dir, 1) == LocalTry(me, known, script, n + 5, Absent, 2);
    }
  }

  /** A lock of this host, with its meta and a start time. */
  predicate HeldHere(dir: Dir, me: Me, proc: nat) {
    && dir.Dir? && dir.stamp.Some? && dir.stamp.value.Meta?
    && dir.stamp.value.proc == proc && dir.stamp.value.host == me.host && dir.stamp.value.startKnown
  }

  /**
    A holder of this host whose start time is known is robbed exactly when its
    process is dead: a live one never, however old its lock, and a crashed one
    always, at once and within the two attempts.
   */
  lemma {:induction false} HolderDecides(me: Me, known: bool, script: Script, n: nat, dir: Dir, proc: nat)
    requires HeldHere(dir, me, proc) && WorksFor(script, n, 7)
    requires forall i :: n <= i < n + 7 ==> script(i).meddled.None?
    ensures var trial := LocalTry(me, known, script, n, dir, 1);
            && (proc in script(n + 2).dead ==> trial.outcome.Inside? && HeldHere(trial.dir, me, me.pid) == known && trial.sent == n + 7)
            && (proc !in script(n + 2).dead ==> trial == LocalTrial(HeldByOther, dir, n + 3))
  {
    hide LocalTry;
    assert script(n + 1).meddled.None?;
    LostMkdir(me, known, script, n, dir);
  }

  /** A lock without meta is given its grace, and robbed after it - whether or not its maker lives. */
  lemma {:induction false} UnmarkedAgesOut(me: Me, known: bool, script: Script, n: nat, dir: Dir)
    requires dir.Dir? && dir.stamp.None? && WorksFor(script, n, 7)
    requires forall i :: n <= i < n + 7 ==> script(i).meddled.None?
    ensures LocalTry(me, known, script, n, dir, 1).outcome.Inside? <==> script(n + 2).at - dir.born >= GRACE_MS
  {
    hide LocalTry;
    assert script(n + 1).meddled.None?;
    LostMkdir(me, known, script, n, dir);
  }

  /** A lock that got its meta between the inspection and the comparison, or is another one by then, is left alone. */
  lemma {:induction false} ChangedIsSpared(script: Script, n: nat, dir: Dir, seen: Dir)
    requires dir.Dir? && seen.Dir? && script(n).meddled == Some(dir)
    ensures seen.inst != dir.inst || (seen.stamp.None? && dir.stamp.Some?) ==> !RemovesSeen(script, n, dir, Stat(seen, true))
    ensures seen == dir && DoesWork(script, n) ==> RemovesSeen(script, n, dir, Stat(seen, true))
  {
  }

  /** The re-attempt does not settle a lock that vanished: its release leaves the path free, and the caller is refused. */
  lemma {:induction false} VanishedLockIsNotRetaken(me: Me, known: bool)
    ensures exists script, dir: Dir ::
              dir.Dir? && LocalTry(me, known, script, 0, dir, 1) == LocalTrial(HeldByOther, Absent, 3)
  {
    var dir := Dir(0, 0, None);
    var script: Script := (i: nat) => Cmd(Works, 0, i, {}, if i == 1 then Some(Absent) else None, None);
    LostMkdir(me, known, script, 0, dir);
  }
}
