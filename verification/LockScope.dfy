/**
  The destination lock as one process runs it: the journal of leaked locks,
  the remote backend, `acquire` with its single retry, and the scope around a
  run (src/snapshots/internal/lock.ts, src/snapshots/internal/remote-store.ts).

  What every command meets is given by a script: how it is answered, when, and
  what other processes did just before. The methods are proved against
  functions of the script, and the guarantees against those. LockRefinement
  proves that the functions are runs of LockProtocol.
 */
module LockScope {
  import opened Prelude
  import opened LockRules

  // ---- commands ------------------------------------------------------------

  /** A command is answered, fails without effect, or takes effect while its reply is lost. */
  datatype Reply = Works | Refused | Lost

  /**
    One command to the archive, or one turn to the process's own disk: the
    number a new lock instance would get, the processes that are dead by then,
    and the lock and the record as other processes left them just before, if
    they did.
   */
  datatype Cmd = Cmd(reply: Reply, at: int, inst: nat, dead: set<nat>, meddled: Option<Dir>, rewritten: Option<Option<Record>>)

  type Script = nat -> Cmd

  /** The process that runs. */
  datatype Me = Me(pid: nat, host: nat)

  /** The lock path and what the journal says about it. */
  datatype Scene = Scene(dir: Dir, entry: Option<Entry>, record: Option<Record>)

  function Before(dir: Dir, cmd: Cmd): Dir { if cmd.meddled.Some? then cmd.meddled.value else dir }

  /** The record as it is read: nothing without a disk that can be read. */
  function Reread(record: Option<Record>, disk: bool, cmd: Cmd): Option<Record> {
    if disk && cmd.rewritten.Some? then cmd.rewritten.value else record
  }

  /** `mkdir -- <lock>`: atomic, and the loser finds the lock there. */
  function AfterMkdir(dir: Dir, cmd: Cmd): Dir {
    if cmd.reply.Refused? || Before(dir, cmd).Dir? then Before(dir, cmd) else Dir(cmd.inst, cmd.at, None)
  }

  predicate MkdirWins(dir: Dir, cmd: Cmd) { cmd.reply.Works? && Before(dir, cmd).Absent? }

  /** `mkdir -p -- <lock>/<marker>`, which recreates a lock that was lost. */
  function AfterMark(dir: Dir, cmd: Cmd, marker: int): Dir {
    var d := Before(dir, cmd);
    if cmd.reply.Refused? then d
    else if d.Absent? then Dir(cmd.inst, cmd.at, Some(Marker(marker)))
    else d.(stamp := Some(Marker(marker)))
  }

  /** `rm -rf -- <lock>`. */
  function AfterRm(dir: Dir, cmd: Cmd): Dir { if cmd.reply.Refused? then Before(dir, cmd) else Absent }

  function Listed(dir: Dir, cmd: Cmd): Sight { SeeRemote(Before(dir, cmd), cmd.reply.Works?) }

  // ---- acquire, as a function of the script --------------------------------

  /** Inside, `LockHeldError`, or the `SnapshotStoreError` of a command that failed. */
  datatype Outcome = Entered(token: int) | LockHeld | StoreError

  /** What `acquire` returns, the scene it leaves and the number of the next command. */
  datatype Trial = Trial(outcome: Outcome, scene: Scene, sent: nat)

  /** After winning `mkdir`: journal, marker, and the rollback when the marker fails. */
  function Settle(me: Me, disk: bool, script: Script, n: nat, scene: Scene, token: int): Trial {
    var record := if disk then Some(Record(token, me.pid, me.host)) else scene.record;
    var marked := AfterMark(Before(scene.dir, script(n)), script(n + 1), token);
    if script(n + 1).reply.Works? then Trial(Entered(token), Scene(marked, Some(Entry(token, true)), record), n + 2)
    else
      var dir := AfterRm(marked, script(n + 2));
      if script(n + 2).reply.Works?
      then Trial(StoreError, Scene(dir, None, if disk then None else record), n + 3)
      else Trial(StoreError, Scene(dir, Some(Entry(token, false)), record), n + 3)
  }

  /** Whether the lock that presented `seen` is past its TTL, or by the journal as it is read after that our own. */
  predicate MayTake(me: Me, scene: Scene, seen: Sight, listed: Cmd, read: Cmd) {
    RemoteStale(seen, listed.at) || Owns(scene.entry, scene.record, me.host, read.dead, seen)
  }

  function Try(me: Me, disk: bool, script: Script, n: nat, scene: Scene, attempt: int): Trial
    requires 1 <= attempt <= 2
    decreases 2 - attempt, 0
  {
    var made := scene.(dir := AfterMkdir(scene.dir, script(n)));
    if MkdirWins(scene.dir, script(n)) then
      Settle(me, disk, script, n + 1, made, script(n).at / 1_000)
    else
      var seen := Listed(made.dir, script(n + 1));
      var looked := Before(made.dir, script(n + 1));
      var read := made.(dir := Before(looked, script(n + 2)), record := Reread(made.record, disk, script(n + 2)));
      if !MayTake(me, read, seen, script(n + 1), script(n + 2)) || attempt == 2 then Trial(LockHeld, read, n + 3)
      else Steal(me, disk, script, n + 3, read, seen)
  }

  /** Compare and delete, and the one re-attempt. */
  function Steal(me: Me, disk: bool, script: Script, n: nat, scene: Scene, seen: Sight): Trial
    decreases 0, 1
  {
    var again := Listed(scene.dir, script(n));
    var compared := scene.(dir := Before(scene.dir, script(n)));
    if again.Unread? || again != seen then Trial(LockHeld, compared, n + 1)
    else
      var gone := compared.(dir := AfterRm(compared.dir, script(n + 1)));
      if !script(n + 1).reply.Works? then Trial(StoreError, gone, n + 2)
      else Try(me, disk, script, n + 2, gone, 2)
  }

  /** The release in `finally`. */
  function Release(disk: bool, script: Script, n: nat, scene: Scene): Scene {
    var dir := AfterRm(scene.dir, script(n));
    if script(n).reply.Works? then Scene(dir, None, if disk then None else scene.record)
    else Scene(dir, Disowned(scene.entry), scene.record)
  }

  /** An entry whose scope is over, though its lock may still be there. */
  function Disowned(entry: Option<Entry>): Option<Entry> {
    if entry.Some? then Some(entry.value.(live := false)) else None
  }

  // ---- the objects ---------------------------------------------------------

  function Get<V>(m: map<string, V>, key: string): Option<V> { if key in m then Some(m[key]) else None }

  function Put<V>(m: map<string, V>, key: string, v: Option<V>): map<string, V> {
    if v.Some? then m[key := v.value] else m - {key}
  }

  /** Only what was put last counts, and only under its key. */
  lemma PutPut<V>(m: map<string, V>, key: string)
    ensures forall a, b :: Put(Put(m, key, a), key, b) == Put(m, key, b)
    ensures forall a :: Get(Put(m, key, a), key) == a
    ensures Put(m, key, Get(m, key)) == m
  {
  }

  /** The far side: the lock directory, and how many commands have been sent to it. */
  class Link {
    const script: Script
    var sent: nat
    var dir: Dir

    constructor (script: Script, dir: Dir)
      ensures this.script == script && this.dir == dir && sent == 0
    {
      this.script, this.dir, sent := script, dir, 0;
    }

    method Mkdir() returns (won: bool, at: int)
      modifies this
      ensures won == MkdirWins(old(dir), script(old(sent))) && at == script(old(sent)).at
      ensures dir == AfterMkdir(old(dir), script(old(sent))) && sent == old(sent) + 1
    {
      var cmd := script(sent);
      won, at := MkdirWins(dir, cmd), cmd.at;
      dir := AfterMkdir(dir, cmd);
      sent := sent + 1;
    }

    method Mark(marker: int) returns (ok: bool)
      modifies this
      ensures ok == script(old(sent)).reply.Works?
      ensures dir == AfterMark(old(dir), script(old(sent)), marker) && sent == old(sent) + 1
    {
      ok := script(sent).reply.Works?;
      dir := AfterMark(dir, script(sent), marker);
      sent := sent + 1;
    }

    method List() returns (seen: Sight, at: int)
      modifies this
      ensures seen == Listed(old(dir), script(old(sent))) && at == script(old(sent)).at
      ensures dir == Before(old(dir), script(old(sent))) && sent == old(sent) + 1
    {
      seen, at := Listed(dir, script(sent)), script(sent).at;
      dir := Before(dir, script(sent));
      sent := sent + 1;
    }

    /** Time passes while the process turns to its own disk. */
    method Turn() returns (read: Cmd)
      modifies this
      ensures read == script(old(sent)) && dir == Before(old(dir), read) && sent == old(sent) + 1
    {
      read := script(sent);
      dir := Before(dir, read);
      sent := sent + 1;
    }

    method Rm() returns (ok: bool)
      modifies this
      ensures ok == script(old(sent)).reply.Works?
      ensures dir == AfterRm(old(dir), script(old(sent))) && sent == old(sent) + 1
    {
      ok := script(sent).reply.Works?;
      dir := AfterRm(dir, script(sent));
      sent := sent + 1;
    }
  }

  /** `disk` says whether there is a state directory that can be written and read. */
  class LockJournal {
    const me: Me
    const disk: bool
    var entries: map<string, Entry>
    var records: map<string, Record>

    constructor (me: Me, disk: bool, records: map<string, Record>)
      ensures this.me == me && this.disk == disk && this.records == records && entries == map[]
    {
      this.me, this.disk, this.records, entries := me, disk, records, map[];
    }

    method Held(key: string, marker: int)
      modifies this
      ensures entries == Put(old(entries), key, Some(Entry(marker, true)))
      ensures records == if disk then Put(old(records), key, Some(Record(marker, me.pid, me.host))) else old(records)
    {
      entries := entries[key := Entry(marker, true)];
      if disk { records := records[key := Record(marker, me.pid, me.host)]; }
    }

    method Released(key: string)
      modifies this
      ensures entries == Put(old(entries), key, None)
      ensures records == if disk then Put(old(records), key, None) else old(records)
    {
      entries := entries - {key};
      if disk { records := records - {key}; }
    }

    method Orphaned(key: string)
      modifies this`entries
      ensures entries == Put(old(entries), key, Disowned(Get(old(entries), key)))
    {
      if key in entries { entries := entries[key := entries[key].(live := false)]; }
    }

    /** Refuses the unreadable lock, the running scope, and the record of a running or foreign process. */
    method Owns(key: string, seen: Sight, read: Cmd) returns (mine: bool)
      requires disk || key !in records
      modifies this`records
      ensures records == Put(old(records), key, Reread(Get(old(records), key), disk, read))
      ensures mine == LockRules.Owns(Get(entries, key), Get(records, key), me.host, read.dead, seen)
      ensures disk || key !in records
    {
      PutPut(records, key);
      if disk && read.rewritten.Some? { records := Put(records, key, read.rewritten.value); }
      if !seen.Bare? && !seen.Marked? { return false; }
      if key in entries {
        var entry := entries[key];
        if entry.live { return false; }
        return seen.Bare? || seen.second == entry.marker;
      }
      if key !in records || seen.Bare? || records[key].marker != seen.second { return false; }
      if records[key].host != me.host { return false; }
      return records[key].proc in read.dead;
    }
  }

  /** `RemoteLockBackend`: the token of the last win, and what the last inspection saw. */
  class RemoteLockBackend {
    const link: Link
    var ownerToken: int
    var inspected: Sight

    constructor (link: Link)
      ensures this.link == link
    {
      this.link, ownerToken, inspected := link, 0, Unread;
    }

    method TryAcquire() returns (won: bool)
      modifies this`ownerToken, link
      ensures won == MkdirWins(old(link.dir), link.script(old(link.sent)))
      ensures won ==> ownerToken == link.script(old(link.sent)).at / 1_000
      ensures link.dir == AfterMkdir(old(link.dir), link.script(old(link.sent)))
      ensures link.sent == old(link.sent) + 1
    {
      var at;
      won, at := link.Mkdir();
      if won { ownerToken := at / 1_000; }
    }

    method WriteMeta() returns (ok: bool)
      modifies link
      ensures ok == link.script(old(link.sent)).reply.Works?
      ensures link.dir == AfterMark(old(link.dir), link.script(old(link.sent)), ownerToken)
      ensures link.sent == old(link.sent) + 1
    {
      ok := link.Mark(ownerToken);
    }

    method Inspect() returns (stale: bool)
      modifies this`inspected, link
      ensures inspected == Listed(old(link.dir), link.script(old(link.sent)))
      ensures stale == RemoteStale(inspected, link.script(old(link.sent)).at)
      ensures link.dir == Before(old(link.dir), link.script(old(link.sent))) && link.sent == old(link.sent) + 1
    {
      var at;
      inspected, at := link.List();
      stale := inspected.Marked? && Abs(at - inspected.second * 1_000) > TTL_MS;
    }

    /** Compare and delete: abandoned when the lock is unreadable or presents another marker. */
    method RemoveIfUnchanged() returns (tried: bool, ok: bool)
      modifies link
      ensures var n := old(link.sent); var again := Listed(old(link.dir), link.script(n));
              && tried == (!again.Unread? && again == inspected)
              && ok == (tried && link.script(n + 1).reply.Works?)
              && link.sent == (if tried then n + 2 else n + 1)
              && link.dir == (if tried then AfterRm(Before(old(link.dir), link.script(n)), link.script(n + 1))
                              else Before(old(link.dir), link.script(n)))
    {
      var again, at := link.List();
      tried, ok := !again.Unread? && again == inspected, false;
      if tried { ok := link.Rm(); }
    }
  }

  function SceneOf(link: Link, journal: LockJournal, key: string): Scene
    reads link, journal
  {
    Scene(link.dir, Get(journal.entries, key), Get(journal.records, key))
  }

  /** One lock's part of the journal is as the scene says, and every other lock's is as it was. */
  twostate predicate Became(link: Link, journal: LockJournal, key: string, sent: nat, scene: Scene)
    reads link, journal
  {
    && link.sent == sent && link.dir == scene.dir
    && journal.entries == Put(old(journal.entries), key, scene.entry)
    && journal.records == Put(old(journal.records), key, scene.record)
  }

  /** The lock is ours: it is recorded before its marker is written, and rolled back if that fails. */
  method RecordAndMark(backend: RemoteLockBackend, journal: LockJournal, key: string) returns (outcome: Outcome)
    requires journal.disk || key !in journal.records
    modifies backend.link, journal
    ensures var was := old(SceneOf(backend.link, journal, key));
            var trial := Settle(journal.me, journal.disk, backend.link.script, old(backend.link.sent), was, backend.ownerToken);
            outcome == trial.outcome && Became(backend.link, journal, key, trial.sent, trial.scene)
    ensures journal.disk || key !in journal.records
  {
    hide AfterMark, AfterRm, Before, Put;
    PutPut(journal.entries, key);
    PutPut(journal.records, key);
    var _ := backend.link.Turn();
    journal.Held(key, backend.ownerToken);
    var marked := backend.WriteMeta();
    if !marked {
      var removed := backend.link.Rm();
      if removed { journal.Released(key); } else { journal.Orphaned(key); }
      return StoreError;
    }
    return Entered(backend.ownerToken);
  }

  /** Looks at the lock somebody else has: it may go when it is past its TTL or one this process left behind. */
  method Condemns(backend: RemoteLockBackend, journal: LockJournal, key: string) returns (may: bool)
    requires journal.disk || key !in journal.records
    modifies backend`inspected, backend.link, journal`records
    ensures var link, script, n := backend.link, backend.link.script, old(backend.link.sent);
            var was, scene := old(SceneOf(backend.link, journal, key)), SceneOf(backend.link, journal, key);
            && backend.inspected == Listed(was.dir, script(n)) && link.sent == n + 2
            && scene.dir == Before(Before(was.dir, script(n)), script(n + 1))
            && scene.record == Reread(was.record, journal.disk, script(n + 1))
            && journal.records == Put(old(journal.records), key, scene.record)
            && may == MayTake(journal.me, scene, backend.inspected, script(n), script(n + 1))
    ensures journal.disk || key !in journal.records
  {
    hide Before, Listed, LockRules.Owns, RemoteStale, Reread, Put;
    PutPut(journal.records, key);
    var stale := backend.Inspect();
    var read := backend.link.Turn();
    var mine := journal.Owns(key, backend.inspected, read);
    return stale || mine;
  }

  method Acquire(backend: RemoteLockBackend, journal: LockJournal, key: string) returns (outcome: Outcome)
    requires journal.disk || key !in journal.records
    modifies backend, backend.link, journal
    ensures var was := old(SceneOf(backend.link, journal, key));
            var trial := Try(journal.me, journal.disk, backend.link.script, old(backend.link.sent), was, 1);
            outcome == trial.outcome && Became(backend.link, journal, key, trial.sent, trial.scene)
    ensures journal.disk || key !in journal.records
  {
    hide AfterMkdir, AfterMark, AfterRm, Before, Listed, MkdirWins, MayTake, Settle, Put, Reread;
    PutPut(journal.entries, key);
    PutPut(journal.records, key);
    var link := backend.link;
    ghost var was, n0 := SceneOf(link, journal, key), link.sent;
    ghost var goal := Try(journal.me, journal.disk, link.script, n0, was, 1);
    for attempt := 1 to 3
      invariant attempt <= 2 && backend.link == link && (journal.disk || key !in journal.records)
      invariant journal.entries == old(journal.entries)
      invariant journal.records == Put(old(journal.records), key, Get(journal.records, key))
      invariant Try(journal.me, journal.disk, link.script, link.sent, SceneOf(link, journal, key), attempt) == goal
    {
      var won := backend.TryAcquire();
      if won {
        outcome := RecordAndMark(backend, journal, key);
        return;
      }
      var condemned := Condemns(backend, journal, key);
      if !condemned || attempt == 2 {
        return LockHeld;
      }
      var tried, stolen := backend.RemoveIfUnchanged();
      if !tried { return LockHeld; }
      if !stolen { return StoreError; }
    }
    assert false;
  }

  /** `withLockScope`: the release runs on every path of a run that entered, and its failure is journalled. */
  method WithLockScope(backend: RemoteLockBackend, journal: LockJournal, key: string) returns (outcome: Outcome)
    requires journal.disk || key !in journal.records
    modifies backend, backend.link, journal
    ensures var was := old(SceneOf(backend.link, journal, key));
            var script := backend.link.script;
            var trial := Try(journal.me, journal.disk, script, old(backend.link.sent), was, 1);
            && outcome == trial.outcome
            && if outcome.Entered?
               then Became(backend.link, journal, key, trial.sent + 1, Release(journal.disk, script, trial.sent, trial.scene))
               else Became(backend.link, journal, key, trial.sent, trial.scene)
    ensures journal.disk || key !in journal.records
  {
    hide Try, Release, Put;
    PutPut(journal.entries, key);
    PutPut(journal.records, key);
    ghost var was := SceneOf(backend.link, journal, key);
    ghost var trial := Try(journal.me, journal.disk, backend.link.script, backend.link.sent, was, 1);
    ghost var done := Release(journal.disk, backend.link.script, trial.sent, trial.scene);
    outcome := Acquire(backend, journal, key);
    if outcome.Entered? {
      var _ := LetGo(backend, journal, key);
    }
  }

  /** Removes the lock, and journals whether that worked. */
  method LetGo(backend: RemoteLockBackend, journal: LockJournal, key: string) returns (gone: bool)
    requires journal.disk || key !in journal.records
    modifies backend.link, journal
    ensures gone == backend.link.script(old(backend.link.sent)).reply.Works?
    ensures var was := old(SceneOf(backend.link, journal, key)); var n := old(backend.link.sent);
            Became(backend.link, journal, key, n + 1, Release(journal.disk, backend.link.script, n, was))
    ensures journal.disk || key !in journal.records
  {
    hide AfterRm, Put;
    PutPut(journal.entries, key);
    PutPut(journal.records, key);
    gone := backend.link.Rm();
    if gone { journal.Released(key); } else { journal.Orphaned(key); }
  }

  datatype Unlocked = NothingHeld | Removed | StillHeld | Failed

  /** What `forceUnlock` leaves, and the number of the next command. */
  function Unlock(me: Me, disk: bool, script: Script, n: nat, scene: Scene, force: bool): (Unlocked, Scene, nat) {
    var made := AfterMkdir(scene.dir, script(n));
    if MkdirWins(scene.dir, script(n)) then
      var token := script(n).at / 1_000;
      var record := if disk then Some(Record(token, me.pid, me.host)) else scene.record;
      var marked := AfterMark(Before(made, script(n + 1)), script(n + 2), token);
      var after := Release(disk, script, n + 3, Scene(marked, Some(Entry(token, true)), record));
      (if script(n + 3).reply.Works? then NothingHeld else Failed, after, n + 4)
    else
      var looked := Before(made, script(n + 1));
      if !RemoteStale(Listed(made, script(n + 1)), script(n + 1).at) && !force
      then (StillHeld, scene.(dir := looked), n + 2)
      else
        var gone := AfterRm(looked, script(n + 2));
        if script(n + 2).reply.Works?
        then (Removed, Scene(gone, None, if disk then None else scene.record), n + 3)
        else (Failed, scene.(dir := gone), n + 3)
  }

  method ForceUnlock(backend: RemoteLockBackend, journal: LockJournal, key: string, force: bool) returns (status: Unlocked)
    requires journal.disk || key !in journal.records
    modifies backend, backend.link, journal
    ensures var was := old(SceneOf(backend.link, journal, key));
            var done := Unlock(journal.me, journal.disk, backend.link.script, old(backend.link.sent), was, force);
            status == done.0 && Became(backend.link, journal, key, done.2, done.1)
  {
    hide AfterMkdir, AfterMark, AfterRm, Before, Listed, MkdirWins, RemoteStale, Release, Put;
    PutPut(journal.entries, key);
    PutPut(journal.records, key);
    var link := backend.link;
    var won := backend.TryAcquire();
    if won {
      var _ := link.Turn();
      journal.Held(key, backend.ownerToken);
      var _ := backend.WriteMeta();
      var removed := LetGo(backend, journal, key);
      return if removed then NothingHeld else Failed;
    }
    var stale := backend.Inspect();
    if !stale && !force { return StillHeld; }
    var removed := link.Rm();
    if !removed { return Failed; }
    journal.Released(key);
    return Removed;
  }

  // ---- what the journal knows ----------------------------------------------

  predicate IsLive(scene: Scene) { scene.entry.Some? && scene.entry.value.live }

  /**
    Whatever every command meets: an entry is live after `acquire` exactly when
    it returned with the lock, and then it names that very acquisition.
   */
  lemma {:induction false} LiveExactlyInside(me: Me, disk: bool, script: Script, n: nat, scene: Scene, attempt: int)
    requires 1 <= attempt <= 2 && !IsLive(scene)
    ensures var trial := Try(me, disk, script, n, scene, attempt);
            && (IsLive(trial.scene) <==> trial.outcome.Entered?)
            && (trial.outcome.Entered? ==>
                  && trial.scene.entry == Some(Entry(trial.outcome.token, true))
                  && (disk ==> trial.scene.record == Some(Record(trial.outcome.token, me.pid, me.host))))
            && !IsLive(Release(disk, script, trial.sent, trial.scene))
            && n < trial.sent <= n + 9
    decreases 2 - attempt
  {
    hide AfterMkdir, AfterMark, AfterRm, Before, Listed, MkdirWins, MayTake;
  }

  /**
    With a disk, what stays behind can be retaken after a restart: a lock that
    was won, and not let go again, is on record under its token and this process.
   */
  lemma {:induction false} RecordOutlives(me: Me, script: Script, n: nat, scene: Scene, token: int)
    ensures var trial := Settle(me, true, script, n, scene, token);
            && (trial.scene.entry.Some? ==> trial.scene.record == Some(Record(token, me.pid, me.host)))
            && (trial.scene.entry.None? ==> trial.scene.record.None?)
    ensures !script(n).reply.Works? ==> Release(true, script, n, scene).record == scene.record
  {
    hide AfterMark, AfterRm, Before;
  }

  /** The journal claims no lock for this process, whatever the lock shows, in memory or after a restart. */
  ghost predicate ClaimsNothing(scene: Scene) {
    forall host, dead, seen :: !Owns(scene.entry, scene.record, host, dead, seen)
  }

  /**
    After a scope whose release worked, the path is free and the journal claims
    nothing: the next holder's lock is never taken for one that was left behind.
   */
  lemma {:induction false} CleanReleaseForgets(me: Me, disk: bool, script: Script, n: nat, scene: Scene)
    requires disk || scene.record.None?
    ensures var trial := Try(me, disk, script, n, scene, 1); var done := Release(disk, script, trial.sent, trial.scene);
            trial.outcome.Entered? && script(trial.sent).reply.Works? ==> done.dir.Absent? && ClaimsNothing(done)
  {
    hide Try;
    RecordNeedsDisk(me, disk, script, n, scene, 1);
  }

  lemma {:induction false} RecordNeedsDisk(me: Me, disk: bool, script: Script, n: nat, scene: Scene, attempt: int)
    requires 1 <= attempt <= 2 && (disk || scene.record.None?)
    ensures disk || Try(me, disk, script, n, scene, attempt).scene.record.None?
    decreases 2 - attempt
  {
    hide AfterMkdir, AfterMark, AfterRm, Before, Listed, MkdirWins, MayTake;
  }

  /** Nor does it after a rollback that worked, or an `unlock` that removed what it found, or nothing. */
  lemma {:induction false} CleanRollbackForgets(me: Me, disk: bool, script: Script, n: nat, scene: Scene, token: int, force: bool)
    requires disk || scene.record.None?
    ensures var trial := Settle(me, disk, script, n, scene, token);
            trial.outcome.StoreError? && script(n + 2).reply.Works? ==> trial.scene.dir.Absent? && ClaimsNothing(trial.scene)
    ensures var done := Unlock(me, disk, script, n, scene, force);
            done.0.Removed? || done.0.NothingHeld? ==> done.1.dir.Absent? && ClaimsNothing(done.1)
  {
    hide AfterMkdir, AfterMark, Before, Listed, MkdirWins;
  }

  /** While a scope of this process runs, no other acquire of it takes the lock it can read there. */
  lemma {:induction false} RunningScopeIsRefused(me: Me, disk: bool, script: Script, n: nat, scene: Scene)
    requires IsLive(scene) && Quiet(script, n, 3) && scene.dir.Dir?
    requires !RemoteStale(Listed(scene.dir, script(n + 1)), script(n + 1).at)
    ensures Try(me, disk, script, n, scene, 1) == Trial(LockHeld, scene, n + 3)
  {
    assert script(n).meddled.None? && script(n + 1).meddled.None?;
    assert script(n + 2).meddled.None? && script(n + 2).rewritten.None?;
  }

  /** No other process meddles with the lock or its record while commands `n` to `n + k - 1` are sent. */
  ghost predicate Quiet(script: Script, n: nat, k: nat) {
    forall i :: n <= i < n + k ==> script(i).meddled.None? && script(i).rewritten.None?
  }

  ghost predicate AllWork(script: Script, n: nat, k: nat) {
    forall i :: n <= i < n + k ==> script(i).reply.Works?
  }

  /**
    Without contention or faults: `acquire` enters exactly when the path is free
    or shows a lock that is past its TTL or our own, within two attempts; else
    it touches nothing.
   */
  lemma {:induction false} UncontendedAcquire(me: Me, disk: bool, script: Script, n: nat, scene: Scene)
    requires Quiet(script, n, 8) && AllWork(script, n, 8)
    ensures var trial := Try(me, disk, script, n, scene, 1);
            && (trial.outcome.Entered? <==>
                  scene.dir.Absent? || MayTake(me, scene, SeeRemote(scene.dir, true), script(n + 1), script(n + 2)))
            && (trial.outcome.Entered? ==>
                  && trial.sent == n + (if scene.dir.Absent? then 3 else 8)
                  && trial.scene.dir.Dir? && trial.scene.dir.stamp == Some(Marker(trial.outcome.token)))
            && (!trial.outcome.Entered? ==> trial == Trial(LockHeld, scene, n + 3))
  {
    hide MayTake;
    assert script(n).meddled.None? && script(n + 1).meddled.None? && script(n + 2).meddled.None?;
    assert script(n + 3).meddled.None? && script(n + 4).meddled.None? && script(n + 5).meddled.None?;
    assert script(n + 6).meddled.None? && script(n + 7).meddled.None? && script(n + 2).rewritten.None?;
    assert script(n).reply.Works? && script(n + 1).reply.Works? && script(n + 2).reply.Works?;
    assert script(n + 3).reply.Works? && script(n + 4).reply.Works? && script(n + 5).reply.Works?;
    assert script(n + 7).reply.Works?;
    assert scene.(dir := scene.dir, record := scene.record) == scene;
    if scene.dir.Dir? && MayTake(me, scene, SeeRemote(scene.dir, true), script(n + 1), script(n + 2)) {
      var gone := scene.(dir := Absent);
      assert Try(me, disk, script, n, scene, 1) == Try(me, disk, script, n + 5, gone, 2) by {
        assert SeeRemote(scene.dir, true) != Unread;
      }
    }
  }

  /** A lock this process failed to release, or to roll back, as it was left. */
  ghost predicate Orphan(scene: Scene, token: int) {
    && scene.entry == Some(Entry(token, false)) && scene.dir.Dir?
    && (scene.dir.stamp.None? || scene.dir.stamp == Some(Marker(token)))
  }

  /** A rollback that fails without effect leaves an orphan, whether or not the marker it was for got there. */
  lemma {:induction false} FailedRollbackOrphans(me: Me, disk: bool, script: Script, n: nat, scene: Scene, token: int)
    requires Quiet(script, n, 3) && scene.dir.Dir? && scene.dir.stamp.None?
    requires !script(n + 1).reply.Works? && script(n + 2).reply.Refused?
    ensures var trial := Settle(me, disk, script, n, scene, token);
            trial.outcome.StoreError? && Orphan(trial.scene, token)
  {
    assert script(n).meddled.None? && script(n + 1).meddled.None? && script(n + 2).meddled.None?;
  }

  /** A release that fails without effect leaves an orphan. */
  lemma {:induction false} FailureOrphans(me: Me, disk: bool, script: Script, n: nat, scene: Scene)
    requires Quiet(script, n, 9) && !IsLive(scene)
    ensures var trial := Try(me, disk, script, n, scene, 1);
            && (trial.outcome.Entered? && script(trial.sent).meddled.None? && script(trial.sent).reply.Refused? ==>
                  Orphan(Release(disk, script, trial.sent, trial.scene), trial.outcome.token))
  {
    hide MayTake;
    assert forall i :: n <= i < n + 9 ==> script(i).meddled.None?;
  }

  /** The owner's next acquire retakes an orphan within two attempts, however old it is. */
  lemma {:induction false} OrphanIsRetaken(me: Me, disk: bool, script: Script, n: nat, scene: Scene, token: int)
    requires Orphan(scene, token) && Quiet(script, n, 8) && AllWork(script, n, 8)
    ensures Try(me, disk, script, n, scene, 1).outcome.Entered?
  {
    UncontendedAcquire(me, disk, script, n, scene);
    hide Try;
  }

  /**
    After a restart only the record is left. A lock within its TTL is then
    retaken exactly when a dead process of this host recorded its very marker:
    a markerless one never is.
   */
  lemma {:induction false} RestartRetakes(me: Me, disk: bool, script: Script, n: nat, scene: Scene)
    requires scene.entry.None? && scene.dir.Dir? && Quiet(script, n, 8) && AllWork(script, n, 8)
    requires !RemoteStale(SeeRemote(scene.dir, true), script(n + 1).at)
    ensures Try(me, disk, script, n, scene, 1).outcome.Entered? <==>
              scene.record.Some? && scene.dir.stamp == Some(Marker(scene.record.value.marker))
              && scene.record.value.host == me.host && scene.record.value.proc in script(n + 2).dead
  {
    UncontendedAcquire(me, disk, script, n, scene);
    hide Try;
  }

  /**
    `unlock` among others that do nothing: a free path stays free, a lock is
    removed exactly when it may be - with force whatever it shows, without only
    past its TTL - and a command that fails is told.
   */
  lemma {:induction false} UnlockRemovesExactly(me: Me, disk: bool, script: Script, n: nat, scene: Scene, force: bool)
    requires Quiet(script, n, 4)
    ensures var done := Unlock(me, disk, script, n, scene, force);
            && (AllWork(script, n, 4) && scene.dir.Absent? ==> done.0.NothingHeld? && done.1.dir.Absent?)
            && (scene.dir.Dir? ==>
                  && (done.0.StillHeld? <==> !force && !RemoteStale(Listed(scene.dir, script(n + 1)), script(n + 1).at))
                  && (done.0.StillHeld? ==> done.1 == scene)
                  && (!done.0.StillHeld? ==> (done.0.Removed? <==> script(n + 2).reply.Works?))
                  && (done.0.Removed? ==> done.1.dir.Absent?)
                  && (done.0.Failed? ==> done.1.entry == scene.entry && done.1.record == scene.record))
  {
    assert script(n).meddled.None? && script(n + 1).meddled.None? && script(n + 2).meddled.None? && script(n + 3).meddled.None?;
    if AllWork(script, n, 4) { assert script(n).reply.Works? && script(n + 3).reply.Works?; }
  }
}
