/**
  The decisions of the destination lock (src/snapshots/internal/lock.ts and its
  two backends) as functions of what they read. Processes, hosts and state
  directories are numbers; a remote marker is the whole second it names.
 */
module LockRules {
  import opened Prelude

  const TTL_MS := 86_400_000
  const GRACE_MS := 30_000

  datatype Kind = Local | Remote

  /** What a holder records inside the lock directory. */
  datatype Stamp =
    | Marker(second: int)
    | Meta(proc: nat, host: nat, startKnown: bool, createdAt: int)

  /** The lock path: one instance per successful `mkdir`, born at its mtime. */
  datatype Dir = Absent | Dir(inst: nat, born: int, stamp: Option<Stamp>)

  /**
    What an inspection saw, and what the compare-and-delete compares.
    `Unread`, `Bare` and `Marked` are the tri-state token of a remote lock;
    `Inode` is a local directory's inode and ctime, which its meta changes.
   */
  datatype Sight = Nothing | Unread | Bare | Marked(second: int) | Inode(inst: nat, stamped: bool)

  /** A journal entry of a running process, and the record that survives it. */
  datatype Entry = Entry(marker: int, live: bool)
  datatype Record = Record(marker: int, proc: nat, host: nat)

  function Abs(n: int): nat { if n < 0 then -n else n }

  function SeeRemote(dir: Dir, readable: bool): Sight {
    if dir.Absent? || !readable then Unread
    else if dir.stamp.Some? && dir.stamp.value.Marker? then Marked(dir.stamp.value.second)
    else Bare
  }

  function SeeLocal(dir: Dir): Sight {
    if dir.Absent? then Nothing else Inode(dir.inst, dir.stamp.Some?)
  }

  /** Remote staleness: a readable marker more than the TTL away, in either direction. */
  predicate RemoteStale(seen: Sight, now: int) {
    seen.Marked? && Abs(now - seen.second * 1_000) > TTL_MS
  }

  /**
    Local staleness, from the meta read after an `lstat` that dated the
    directory `born`: no meta is stale past the grace, another host's meta
    past the TTL, and this host's when its process is gone or recycled - or
    when it recorded no start time.
   */
  predicate LocalStale(dir: Dir, readable: bool, born: int, now: int, host: nat, dead: set<nat>) {
    if dir.Absent? || dir.stamp.None? || !dir.stamp.value.Meta? || !readable then now - born >= GRACE_MS
    else
      var meta := dir.stamp.value;
      if meta.host != host then Abs(now - meta.createdAt) > TTL_MS
      else meta.proc in dead || !meta.startKnown
  }

  /**
    A remote lock goes stale a day from its second, before or after. A local
    one does half a minute after it was made when its meta cannot be read; a day
    from its date, before or after, when another host's; and when this host's,
    once its process is dead or if its start time is not known.
   */
  lemma StaleTimes(second: int, born: int, now: int, host: nat, dead: set<nat>, dir: Dir, proc: nat, other: nat, known: bool, created: int)
    ensures RemoteStale(Marked(second), now) <==> now > second * 1_000 + 24 * 3_600_000 || now < second * 1_000 - 24 * 3_600_000
    ensures LocalStale(dir, false, born, now, host, dead) <==> now >= born + 30_000
    ensures dir.Dir? && dir.stamp == Some(Meta(proc, other, known, created)) && other != host ==>
              (LocalStale(dir, true, born, now, host, dead) <==>
                now > created + 24 * 3_600_000 || now < created - 24 * 3_600_000)
    ensures dir.Dir? && dir.stamp == Some(Meta(proc, host, known, created)) ==>
              (LocalStale(dir, true, born, now, host, dead) <==> proc in dead || !known)
  {
  }

  /** `LockJournal.owns`: is the lock now presenting `seen` one we left behind? */
  predicate Owns(entry: Option<Entry>, record: Option<Record>, host: nat, dead: set<nat>, seen: Sight) {
    if !seen.Bare? && !seen.Marked? then false
    else if entry.Some? then
      !entry.value.live && (seen.Bare? || seen.second == entry.value.marker)
    else
      && record.Some? && seen.Marked? && record.value.marker == seen.second
      && record.value.host == host && record.value.proc in dead
  }

  /** Whether the lock still presents what the inspection judged. */
  predicate Unchanged(kind: Kind, dir: Dir, readable: bool, seen: Sight) {
    match kind
    case Remote => !SeeRemote(dir, readable).Unread? && SeeRemote(dir, readable) == seen
    case Local => readable && dir.Dir? && SeeLocal(dir) == seen
  }
}
