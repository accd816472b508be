# What backupkit promises, proved

backupkit pulls or pushes rsync snapshots into an archive directory, one
directory per snapshot, named by its UTC second. Several machines may share an
archive; a daemon runs each target once per schedule window, keeps the snapshots
a grandfather-father-son policy asks for and deletes the rest. This project
models the parts that can lose data or let two runs meet, and proves what they
promise for every input, every run and every interleaving. It also covers the
configuration reader.

| module | what it is about |
|---|---|
| Calendar, Schedule, Anchors | the proleptic Gregorian calendar; schedule windows and due instants; when they fire by calendar and clock |
| SnapshotName, IsoWeek | the name codec, the entry families, the ISO week key |
| Retention, RetentionPlan, Periods | the policy on sets of instants and its confluence; the planner's loops; what the tiers mean |
| LockRules, LockProtocol | the lock's decisions; any number of processes on one lock |
| LockWitness | for each hypothesis of mutual exclusion, a run that breaks it without it |
| LockScope, LocalLock | the journal, the two backends, `acquire`, the scope and `unlock`, command by command |
| LockRefinement | every `acquire` and release of the two is a run of the protocol |
| FileTree, LocalStore, RemoteStore | trees with hard links; claim, promote and remove, any step of which may be the last |
| Reports, Tripwires, Pruning, TargetRun | run reports; collapse and insertion detection; retention passes; one run |
| Lifetime | an archive over any sequence of runs and `prune` commands |
| Backoff, Daemon | the failure backoff in memory and on disk; what a daemon remembers |
| JsoncText, JsoncSpec, JsoncTokens, JsoncGrammar, JsoncParser | the JSONC reader: grammar and printer, specification, exactness, the class |
| JsoncWriter, JsoncDiagnosis | an independent writer it reads back; its errors are where it says |
| Include, IncludeRead, IncludeRefusals, IncludeWitness | merging configuration trees; reading a graph of files; why one does not load; a graph that order matters for |

## Reading the model

- Time is unbounded integer milliseconds. A snapshot is its instant, since
  `SnapshotName` proves names and instants in bijection and in the same order.
- Code that updates state in place is a class or a method here too (`Parser`,
  `LockJournal`, `RemoteLockBackend`, `LocalLockBackend`, `Disk`, `LocalSnapshotStore`,
  `RemoteSnapshotStore`, `BackoffTracker`, `Engine`, `Scheduler`, and the loops
  of `PlanRetention`, `DeriveBackoff`, `MergeNodes`, `RunTarget`). Each is
  proved against a function or predicate, and the promises are lemmas about that.
- A crash and a failing command leave the same archive behind. `Disk` gives each
  command a `Fate`: it works, or it fails and, if it was a removal, leaves part
  of a tree. A contract that holds for every sequence of fates holds for a crash
  at every step.
- `LockScope` sends commands to a `Link` that follows a script: how each is
  answered (works, refused, effect without reply), when, and what other
  processes did just before, to the lock, to the record on disk, or by dying.
  `LockProtocol` is the same lock as a state machine over the steps of all
  processes, and `LockRefinement` shows that the first is a run of the second,
  so that `MutualExclusion` holds of `acquire` itself.
- What ssh, rsync, the disk guard and the report files answer are inputs
  (`TargetRun.World`, `Daemon.Ran`, `IncludeRead.World`).

## Mutual exclusion and its hypotheses

`LockProtocol.MutualExclusion` holds for runs whose every step satisfies eight
named predicates. Each of them is something the code states or leans on, and
`LockWitness.EveryHypothesisIsNeeded` gives, for each one, a run that satisfies
the other seven and ends with two processes inside.

| predicate | says | without it |
|---|---|---|
| AtomicSteal | nobody touches the lock between compare and delete (src/snapshots/internal/lock.ts:351-358) | another thief wins in between |
| UniqueTokens | no two remote locks are won in one second | the comparison takes one for the other |
| ShortSections | a held lock is within the TTL on one shared clock | the lock is stolen from a running scope |
| PromptMeta | a held local lock has its meta within 30 s | the lock is stolen before it is marked |
| NoBlindUnlock | no `unlock` deletes any lock: it does so without comparing (src/snapshots/internal/lock.ts:476-482) | it removes a live lock |
| HonestReplies | a command that reports failure had no effect, and none is sent twice | the re-sent `rm -rf` deletes the next holder's lock |
| MarkerlessIsOwnOrphan | a markerless lock that `owns` claims is the one this process orphaned (src/snapshots/internal/lock.ts:281) | another host took the orphan over and has not marked it yet |
| MetaTrusted | a written local meta can be read and has a start time | it is judged stale while its holder runs |

One more is built into the states and has no witness: every `mkdir` makes a new
instance number, so a local lock's inode and creation time never repeat
(src/snapshots/internal/local-store.ts:110-118).

## Where the code and its promises part

- `Date.UTC` reads years 0 to 99 as 1900 to 1999. Month windows there are
  misplaced: `Schedule.WindowsTile` holds exactly when neither the window's
  first year nor its successor's is remapped. The weekly retention key of
  0100-01-01 to 0100-01-03, whose ISO year is 99, is not the ISO week;
  `IsoWeek.WeeklyKeyIsIso` says so exactly, and `IsoWeek.SameWeeklyKey` shows
  that the grouping is right all the same.
- src/snapshots/internal/lock.ts:351-358 says the remote backend deletes
  blindly; src/snapshots/internal/remote-store.ts:289-306 compares first. The
  model follows the code.
- src/snapshots/internal/local-store.ts:173-237 judges a lock stale when its
  meta stays unreadable past the grace or has no start time, even while its
  holder lives. That is hypothesis MetaTrusted, and it is needed.
- src/snapshots/internal/local-store.ts:186 says a lock that vanished is settled
  by the re-attempt; `removeIfUnchanged` then returns false and `acquire` gives
  up with the path free. `LocalLock.VanishedLockIsNotRetaken` is such a run and
  `LocalLock.LostMkdir` the exact condition for entering.
- `deriveBackoff` forgets the backoff anchor when a `lock-held` or `disk-low`
  skip is newer than the newest failure. `Backoff.AnchorsAgreeExactly` is the
  exact condition; `Backoff.NextRunHeals` shows the next run restores it, and
  `Daemon.RestartKeepsBackoff` says when a restart of the daemon changes a wait.
- Merging is not associative when a scalar stands between two objects
  (`Include.ScalarBetweenObjects`); `Include.MergeAssociatesExactly` is the
  exact condition, and `IncludeWitness.LoadingIsNotAlwaysFolding` four files for
  which it shows. `Include.NestingIsFolding` asks for that condition once per
  document under an include but the first, which is enough but not always
  needed: a later file may hide the difference (`IncludeWitness.LaterFileHides`).
- With a clock that steps back more than five minutes during a run, retention
  may prune the run's own snapshot as future-dated (`TargetRun.RunMayPruneItsOwn`).
  `TargetRun.RunKeepsItsOwnExactly` says when the snapshot stays.
- `nextDueAt` is not the least due instant when the year of the window it looks
  at is remapped (`Schedule.RemappedDueIsLate`, exactly:
  `Schedule.NextDueIsLeastExactly`), and with a backoff it may be an instant at
  which nothing is due (`Schedule.BackoffEndsBeforeAnchor`, exactly:
  `Schedule.NextDueWithBackoff`).
- The remote `promote` reports a nested snapshot for a partial that holds an
  entry of its own name, though the rename worked.

## Model

| member | source | states |
|---|---|---|
| Calendar.CivilOrder | src/shared/time.ts:64-70 | day numbers order valid calendar days exactly as (year, month, day) does, which month arithmetic leans on |
| Calendar.CivilRoundTrip | src/shared/time.ts:64-70 | a valid calendar day is the one its day number decodes to, over the whole proleptic Gregorian calendar |
| Calendar.DaysByGauss | src/shared/time.ts:64-70 | the day number of every date is the one Gauss's count gives, which has no month table and no leap-year rule |
| Schedule.RemIsMod | src/shared/time.ts:64-88 | JavaScript's truncating remainder, as the anchors use it, against the Euclidean one |
| Schedule.WindowsTile | src/shared/time.ts:93-137 | for all five intervals and every count: an instant has index i exactly when it lies between the starts of windows i and i+1 - if and only if `Date.UTC` remaps neither year |
| Schedule.WindowsMonotone | src/shared/time.ts:93-111 | a later instant never has an earlier window, remapped years included |
| Schedule.WindowIgnoresSubseconds | src/shared/time.ts:93-111 | an instant and its snapshot name fall in the same window |
| Schedule.AnchorInWindow | src/shared/time.ts:140-152 | a window's anchor lies inside that window, if and only if its year is not remapped or the window spans more than 1900 years |
| Anchors.AnchorReadsAt | src/shared/time.ts:84-88 | day, week and month windows fire when the UTC clock shows the schedule's hour and minute, on the minute |
| Anchors.WeekAnchorIsOn | src/shared/time.ts:74-82 | a week's anchor falls on the schedule's weekday, Monday being 0 and the epoch a Thursday |
| Anchors.MonthAnchorIsOn | src/shared/time.ts:140-152 | a month's anchor falls on the schedule's day of the window's first month, 1900 years late where `Date.UTC` remaps the year |
| Anchors.DayAnchorIsOn | src/shared/time.ts:140-152 | a day's anchor falls on the window's first day |
| Anchors.StartIsFirst | src/shared/time.ts:118-152 | a window starts at the first instant of its index, minute and hour windows fire there, day and week windows on that day |
| Anchors.WindowLengths | src/shared/time.ts:93-137 | windows are the schedule's count of minutes, hours, days or weeks long, and window 0 holds the epoch |
| Schedule.NextDueIsLeast | src/engine/internal/scheduler.ts:52-65 | without backoff `nextDueAt` is due, not before now, and no earlier instant from now on is due, whenever the anchor it looks at lies in its own window |
| Schedule.NextDueIsLeastExactly | src/engine/internal/scheduler.ts:52-65 | exactly when that anchor lies in its own window, or is the very anchor of a window not yet fulfilled and every window in between is remapped or fulfilled |
| Schedule.RemappedDueIsLate | src/shared/time.ts:126-137 | a monthly schedule in December of the year 99 gets a next due instant that is not the least |
| Schedule.NextDueWithBackoff | src/engine/internal/scheduler.ts:61-64 | with backoff it is the least instant at which the gate opens, if and only if a run is due when the backoff ends - or, when it ends before the next due instant, the anchor looked at serves from then on |
| Schedule.BackoffEndsBeforeAnchor | src/engine/internal/scheduler.ts:61-64 | a daily schedule and a backoff for which it is an instant at which nothing is due |
| Schedule.DueNowIffNextDueIsNow | src/shared/time.ts:160-166 | the gate of a tick opens exactly when the next due instant is now, for every schedule and every instant |
| Anchors.DueOncePerWindow | src/shared/time.ts:160-166 | a run that began in a window fulfils it: nothing is due again until the window ends, and the next due instant lies in the next; without one the target is due from the anchor on |
| SnapshotName.ParseIsExact | src/shared/snapshot-name.ts:41-51 | a name parses to an instant exactly when it is that instant's formatted name and a whole second of years 0100 to 9999 |
| SnapshotName.FormatParses | src/shared/snapshot-name.ts:30-51 | formatting and parsing back gives the instant to the second |
| SnapshotName.FormatIsStamp | src/shared/format.ts:34-39 | what the formatter writes, colons removed, is the fixed-width stamp of the UTC fields |
| SnapshotName.EpochIsSpelt | src/shared/snapshot-name.ts:30-32 | how the name of the epoch is spelt |
| SnapshotName.SuffixesAreSpelt | src/shared/snapshot-name.ts:57-69 | the suffixes of unfinished snapshots and of those being removed |
| SnapshotName.LexicalIsChronological | src/shared/snapshot-name.ts:23-32 | lexical order of names is chronological order of whole seconds |
| SnapshotName.FamiliesAreDisjoint | src/shared/snapshot-name.ts:57-69 | complete, `.partial` and `.deleting` names exclude each other |
| SnapshotName.SpellClassify | src/shared/snapshot-name.ts:41-69 | classifying an entry name and spelling it again gives the name back |
| SnapshotName.ClassifySpell | src/shared/snapshot-name.ts:41-69 | spelling a proper entry and classifying it gives the entry back |
| SnapshotName.EntriesSortByInstant | src/snapshots/internal/local-store.ts:298-300 | sorted listings of complete names and of partial names run by instant |
| IsoWeek.WeeklyKeyIsIso | src/retention/retention.ts:51-59 | the weekly key is the ISO year and week, if and only if the ISO year is 100 or later |
| IsoWeek.SameWeeklyKey | src/retention/retention.ts:51-59 | two instants share a weekly key exactly when they share a Monday-start week, year boundaries included |
| Retention.Confluence | src/retention/retention.ts:111-184 | planning and pruning after every arrival leaves exactly what one plan over everything that ever arrived would keep |
| Retention.PruningEarlyIsHarmless | src/retention/retention.ts:111-184 | pruning before newer snapshots arrive, completely or only in part, never changes what is kept after they do |
| Retention.ReplanningPrunesNothing | src/retention/retention.ts:111-184 | planning again over what was kept prunes nothing |
| Retention.NewestIsKept | src/retention/retention.ts:133 | the newest snapshot is always kept |
| Periods.SameKey | src/retention/retention.ts:35-66 | two snapshots share a tier's key exactly when they fall in the same hour, day, Monday-start week, month or year |
| Periods.KeysArePrefixes | src/retention/retention.ts:35-66 | yearly, monthly, daily and hourly keys are what the snapshot's own name begins with |
| Periods.AllReasons | src/retention/retention.ts:133-170 | every reason there is, spelt out, in the order it is given |
| Periods.OneTierKeeps | src/retention/retention.ts:133-170 | with one tier on, exactly the newest snapshot and the newest of each of its n most recent periods are kept, for every count |
| Periods.LastKeeps | src/retention/retention.ts:134-139 | with `keepLast` alone, exactly the newest n are kept, and never none |
| Periods.RulesAddUp | src/retention/retention.ts:133-170 | rules keep what each of their counts would keep alone, and nothing else |
| RetentionPlan.ReasonsMeanKept | src/retention/retention.ts:123-171 | a snapshot has a reason exactly when the policy keeps it: newest, among the `keepLast` newest, or newest of a recent bucket of some tier |
| RetentionPlan.ApplyTier | src/retention/retention.ts:154-170 | one tier's walk gives a reason to exactly the newest snapshot of each of its most recent distinct buckets |
| RetentionPlan.PlanRetention | src/retention/retention.ts:111-184 | keep and prune cover the parseable names and share none, repeated names included; for distinct names the split and every reason are the policy's, newest first |
| LockProtocol.StepKeepsInv | src/snapshots/internal/lock.ts:360-416 | every lawful step of every process keeps the invariant: one holder, its instance at the path, live entries only while held, condemned sights only of abandoned instances |
| LockProtocol.MutualExclusion | src/snapshots/internal/lock.ts:501-528 | in every state of every lawful run at most one process is inside, and the lock at the path is the instance it won |
| LockProtocol.JournalIsSound | src/snapshots/internal/lock.ts:187-316 | in every lawful run an entry names the process's last win and is live exactly while it holds it |
| LockProtocol.MineIsAbandoned | src/snapshots/internal/lock.ts:265-302 | a lock that `owns` claims is one that nobody holds |
| LockProtocol.InspectKnows | src/snapshots/internal/remote-store.ts:231-277 | a remote inspection calls stale only what nobody holds |
| LockProtocol.ReadMetaKnows | src/snapshots/internal/local-store.ts:173-237 | a local inspection calls stale only what nobody holds |
| LockProtocol.CompareKnows | src/snapshots/internal/local-store.ts:257-264 | what the comparison confirms is still the abandoned instance |
| LockWitness.EveryHypothesisIsNeeded | src/snapshots/internal/lock.ts:322-359 | for each hypothesis of mutual exclusion a run satisfies all the others and ends with two processes inside |
| LockWitness.SplitStealBreaks | src/snapshots/internal/lock.ts:351-358 | the admitted residual: a second thief between compare and delete |
| LockWitness.ResentReleaseBreaks | src/snapshots/internal/remote-store.ts:60-85 | a release whose first reply was lost deletes the next holder's lock |
| LockWitness.OrphanTakenOverBreaks | src/snapshots/internal/lock.ts:265-281 | a markerless lock taken for one's own orphan, though another process has just won it |
| LockScope.LockJournal.Held | src/snapshots/internal/lock.ts:209-232 | winning sets one live entry and, with a state directory, one record; other locks' entries stay |
| LockScope.LockJournal.Released | src/snapshots/internal/lock.ts:235-241 | a clean release forgets the lock in memory and on disk, and no other |
| LockScope.LockJournal.Orphaned | src/snapshots/internal/lock.ts:248-253 | a failed release clears `live` and leaves the record |
| LockScope.LockJournal.Owns | src/snapshots/internal/lock.ts:265-302 | claims a lock exactly as LockRules.Owns says: never an unreadable one, a running scope's, or that of a running or foreign process |
| LockScope.RemoteLockBackend.TryAcquire | src/snapshots/internal/remote-store.ts:187-198 | a win sets the token to the second of the win; a loss keeps it |
| LockScope.RemoteLockBackend.Inspect | src/snapshots/internal/remote-store.ts:231-277 | remembers what it saw and judges a readable marker stale past the TTL in either direction |
| LockScope.RemoteLockBackend.RemoveIfUnchanged | src/snapshots/internal/remote-store.ts:289-306 | removes only what still shows the marker last inspected, and nothing unreadable |
| LockScope.RecordAndMark | src/snapshots/internal/lock.ts:363-383 | the journal is written before the marker, and a failed marker is rolled back or orphaned |
| LockScope.Acquire | src/snapshots/internal/lock.ts:360-416 | against any script of replies and interference: outcome, lock, journal and number of commands are those of the specification `Try` |
| LockScope.Condemns | src/snapshots/internal/lock.ts:386-391 | what is looked at, and that it may go when past its TTL or, by the journal as it is read then, this process's own |
| LockRefinement.AcquireIsARun | src/snapshots/internal/lock.ts:360-416 | every `acquire` over the remote backend, whatever others do between its commands, is a run of the protocol: it enters exactly when the process gets inside, holds the token its journal names, fails exactly as that run does, and leaves the lock as that run does |
| LockRefinement.ReleaseIsARun | src/snapshots/internal/lock.ts:501-528 | so is the release of its scope, and the journal afterwards is that run's |
| LockRefinement.AcquireExcludes | src/snapshots/internal/lock.ts:339-345 | so under the eight hypotheses, and from any state a lawful run reaches, `acquire` enters only a process that is then inside alone, with the instance it won at the path |
| LockScope.WithLockScope | src/snapshots/internal/lock.ts:501-528 | the scope runs exactly when the lock was entered, and then the release or its failure is journalled |
| LockScope.ForceUnlock | src/snapshots/internal/lock.ts:451-484 | what `unlock` removes, leaves alone and records, against any script |
| LockScope.LiveExactlyInside | src/snapshots/internal/lock.ts:360-416 | whatever every command meets, an entry is live after `acquire` exactly when it entered, names that acquisition, and is not live after the release |
| LockScope.RecordOutlives | src/snapshots/internal/lock.ts:205-241 | with a disk, a lock that was won and not let go is on record under its token and this process, through a failed rollback or release |
| LockScope.CleanReleaseForgets | src/snapshots/internal/lock.ts:235-241 | after a scope whose release worked the path is free and the journal claims no lock, whatever it shows, in memory or after a restart |
| LockScope.CleanRollbackForgets | src/snapshots/internal/lock.ts:371-383 | nor after a rollback that worked, or an `unlock` that removed what it found, or nothing |
| LockScope.RunningScopeIsRefused | src/snapshots/internal/lock.ts:270-273 | while a scope of this process runs, another acquire of it touches nothing |
| LockScope.UncontendedAcquire | src/snapshots/internal/lock.ts:360-416 | without faults it enters exactly when the path is free, stale or our own, within two attempts; else it changes nothing |
| LockScope.FailureOrphans | src/snapshots/internal/lock.ts:501-528 | a release that fails without effect leaves an orphan of ours |
| LockScope.FailedRollbackOrphans | src/snapshots/internal/lock.ts:372-381 | so does a rollback that fails after a lost marker |
| LockScope.OrphanIsRetaken | src/snapshots/internal/lock.ts:265-281 | the owner's next uncontended acquire retakes its orphan within two attempts, marked or markerless |
| LockScope.RestartRetakes | src/snapshots/internal/lock.ts:283-302 | after a restart a fresh lock is retaken exactly when a dead process of this host recorded its very marker |
| LockRules.StaleTimes | src/snapshots/internal/remote-store.ts:245-265 | a remote lock is stale more than a day from its second, before or after; a local one half a minute after it was made if its meta cannot be read, a day from its date if another host's, and else by its process |
| LockScope.UnlockRemovesExactly | src/snapshots/internal/lock.ts:454-484 | with nobody else acting, `unlock` leaves a free path free, removes a lock exactly with force or past its TTL, and reports a removal that fails |
| LocalLock.LocalLockBackend.TryAcquire | src/snapshots/internal/local-store.ts:142-152 | wins exactly when the path is free and the call works |
| LocalLock.LocalLockBackend.WriteMeta | src/snapshots/internal/local-store.ts:155-163 | marks the lock that is there, whoever's it is by then, and never makes one |
| LocalLock.LocalLockBackend.Inspect | src/snapshots/internal/local-store.ts:173-237 | remembers the instance the first look saw, judges the meta the second look read, leaves the lock as others made it, in one call or two |
| LocalLock.LocalLockBackend.RemoveIfUnchanged | src/snapshots/internal/local-store.ts:257-264 | removes exactly a lock that is still the instance inspected, and says what is left either way |
| LocalLock.Acquire | src/snapshots/internal/lock.ts:360-416 | against any script of failures and interference: outcome, lock and number of calls are those of the specification `LocalTry` |
| LockRefinement.LocalAcquireIsARun | src/snapshots/internal/local-store.ts:121-262 | every local `acquire` is a run of the protocol, whatever others do between its calls |
| LockRefinement.LocalAcquireExcludes | src/snapshots/internal/lock.ts:339-345 | and enters only a process that is then inside alone |
| LocalLock.LostMkdir | src/snapshots/internal/local-store.ts:182-237 | after a lost `mkdir`, with others acting only before the `lstat`, it enters exactly when the lock is still there and stale by what is then read; one released in between is reported held and the path left free |
| LocalLock.VanishedLockIsNotRetaken | src/snapshots/internal/local-store.ts:183-190 | such a run: the re-attempt does not settle a lock that vanished |
| LocalLock.HolderDecides | src/snapshots/internal/local-store.ts:221-236 | a holder of this host with a start time is robbed exactly when its process is dead: a live one never, a crashed one at once, within two attempts |
| LocalLock.UnmarkedAgesOut | src/snapshots/internal/local-store.ts:176-181 | a lock without meta is robbed exactly when its grace is over, whether or not its maker lives |
| LocalLock.ChangedIsSpared | src/snapshots/internal/local-store.ts:240-262 | a lock that got its meta after it was inspected, or was replaced, is left alone |
| FileTree.HasMultiplyLinkedEntry | src/snapshots/internal/local-store.ts:78-101 | the walk answers true exactly when something in the tree has another link or cannot be looked at |
| FileTree.UnsharedIsIsolated | src/snapshots/internal/local-store.ts:78-101 | under honest link counts, a tree the walk clears shares no inode with any other entry or with anything elsewhere |
| FileTree.UnsharedExactly | src/snapshots/internal/local-store.ts:77-95 | under honest counts a directory that can be walked is cleared exactly when it shares no inode with itself, another entry or anything elsewhere |
| FileTree.OccursCounts | src/snapshots/internal/local-store.ts:77-95 | an inode occurs in a tree as often as it is named there |
| FileTree.SmallerOccurs | src/snapshots/internal/local-store.ts:324-331 | what an interrupted removal leaves of a tree has no link that was not in it |
| FileTree.RmIsHonest | src/snapshots/internal/local-store.ts:324-331 | removing an entry, even in part, keeps link counts honest |
| FileTree.RenameIsHonest | src/snapshots/internal/local-store.ts:366-368 | renaming keeps link counts honest |
| LocalStore.SplitFutureSnapshots | src/snapshots/types.ts:57-67 | splits an ascending listing into its genuine names and, after them, the future-dated ones |
| LocalStore.NewestUndeletable | src/snapshots/types.ts:76-79 | the newest genuine name, or the newest of all when none is genuine, or nothing |
| LocalStore.Disk.ReadDir | src/snapshots/internal/local-store.ts:286-295 | lists every entry once |
| LocalStore.LocalSnapshotStore.ListComplete | src/snapshots/internal/local-store.ts:298-300 | the complete snapshots, ascending |
| LocalStore.LocalSnapshotStore.ClaimPartial | src/snapshots/internal/local-store.ts:320-370 | it fails exactly when a command failed; however it ends, complete and foreign entries stay; if it ends, no `.deleting` and at most this run's `.partial` is left; it resumes exactly the newest partial that is an unshared directory, and then shares no inode with anything |
| LocalStore.LocalSnapshotStore.Promote | src/snapshots/internal/local-store.ts:373-392 | succeeds exactly when the name is free and the partial can be renamed, and changes nothing else |
| LocalStore.LocalSnapshotStore.Remove | src/snapshots/internal/local-store.ts:402-414 | succeeds exactly when the name is complete, not the undeletable one, and every command works; however it ends only this name changed |
| LocalStore.StepIsSafe | src/snapshots/internal/local-store.ts:320-414 | a step of the store, wherever it stops: foreign entries stay, snapshots never change, at most one appears or goes, and the last one never goes |
| LocalStore.ArchiveNeverEmpties | src/snapshots/internal/local-store.ts:402-414 | over any number of steps and crashes an archive with a snapshot keeps having one |
| LocalStore.RemovalLeavesOne | src/snapshots/types.ts:76-79 | what the guard permits leaves at least one snapshot |
| RemoteStore.RemoteSnapshotStore.ListEntries | src/snapshots/internal/remote-store.ts:422-439 | one listing of the root, which is created once per store |
| RemoteStore.RemoteSnapshotStore.Promote | src/snapshots/internal/remote-store.ts:491-509 | success means the partial was renamed and not moved into a directory of that name, whoever planted one when; alone, it fails on a free name exactly for a partial that holds an entry of its own name, which is renamed all the same |
| RemoteStore.RemoteSnapshotStore.Remove | src/snapshots/internal/remote-store.ts:522-534 | nothing but this snapshot goes, and never the undeletable one; alone and with working commands it succeeds exactly on a listed snapshot that is not the undeletable one |
| RemoteStore.RemoteSnapshotStore.ClaimPartial | src/snapshots/internal/remote-store.ts:452-475 | complete and foreign entries stay; alone, it leaves no `.deleting` and exactly the newest partial, under this run's name |
| Tripwires.CountIsSize | src/engine/internal/reports.ts:211 | the count over a listing is the number of snapshots at or below the mark |
| Tripwires.FiresExactly | src/engine/internal/reports.ts:204-216 | over any changes since the mark, it fires exactly when more names appeared at or below it than disappeared there, by more than the names it counted above itself |
| Tripwires.NeverFiresOnItsOwn | src/engine/internal/reports.ts:188-203 | with a clock that never steps back and only the engine writing, it never fires, over any sequence of runs and prunes |
| Tripwires.CollapseIsHalving | src/engine/internal/target-runner.ts:177-191 | the wire trips exactly when a baseline with files exists and the run measured less than half of it, or nothing |
| Tripwires.NewestStats | src/engine/internal/reports.ts:148-158 | the newest measured report that did not itself collapse, or none |
| Tripwires.BaselineIsUnique | src/engine/internal/reports.ts:148-158 | the reports determine the baseline |
| Tripwires.NewestHistoryMark | src/engine/internal/reports.ts:179-186 | the newest report with both a snapshot and a count, or none |
| Tripwires.MarkIsNewest | src/engine/internal/reports.ts:179-186 | the reports determine the mark |
| Tripwires.CollapseIsSustained | src/engine/internal/reports.ts:124-147 | collapsed runs never become the baseline they are measured by |
| Pruning.PlanPrune | src/retention/retention.ts:173-183 | the planner's prune list, as instants: newest first, exactly what the policy does not keep |
| Pruning.PlanFor | src/engine/backupkit.ts:1584-1603 | future-dated names lead the list while any name is genuine; what is left is the policy's choice of the genuine ones, or everything |
| Pruning.DeleteOldestFirst | src/engine/internal/target-runner.ts:799-802 | only planned names go, oldest first, up to the first failure; at one clock with working commands it cannot fail |
| Pruning.DeleteEach | src/engine/backupkit.ts:1507-1514 | every planned name is gone or reported failed; at one clock with working commands none fails |
| Pruning.PlanIsPrunable | src/engine/backupkit.ts:1503-1506 | what the plan dooms never includes the snapshot the store refuses to delete |
| Pruning.PassIsExact | src/engine/internal/target-runner.ts:783-802 | a pass that deleted its plan leaves exactly the keep set |
| Pruning.Prune | src/engine/backupkit.ts:1495-1516 | the lock decides whether it runs, its listing whether it plans; a refusal changes nothing; else one listing is counted and planned over, and when nothing fails exactly the survivors are left |
| TargetRun.RunTarget | src/engine/internal/target-runner.ts:458-834 | what a run leaves and reports, wherever it stops: nothing changed, or grew by exactly what was transferred, and only then trimmed by a pass no tripwire forbade; with working commands every status and every reason is reported exactly when it is the case |
| TargetRun.SuccessIsEarned | src/engine/internal/target-runner.ts:490-833 | so with working commands it succeeds if and only if nothing stands against it: stop, lock, name, space, transfer, verification, reports, order or window |
| TargetRun.Save | src/engine/internal/target-runner.ts:579-695 | from the disk guard to the promote: an error leaves every snapshot as it was, and with working commands each way it can end is reported exactly when it is the case |
| TargetRun.Settle | src/engine/internal/target-runner.ts:706-809 | the count and both tripwires are of the archive right after the promote, an error there prunes nothing, and it succeeds exactly when the listing and both reports answer |
| TargetRun.Retain | src/engine/internal/target-runner.ts:758-807 | the pass removes only what the plan dooms, oldest first, and at one clock with working commands ends with exactly the survivors |
| TargetRun.NewestDecides | src/engine/internal/target-runner.ts:516-534 | asking the newest snapshot alone decides that no snapshot is in the start's window or later |
| TargetRun.NewestStands | src/engine/internal/target-runner.ts:510-549 | the newest snapshot alone decides, both ways, whether the new one would come last and in a window of its own |
| TargetRun.FailureRemovesNothing | src/engine/internal/target-runner.ts:822-833 | a run reported failed, skipped or aborted, or that tripped a wire, removes and changes no snapshot |
| TargetRun.RunIsSafe | src/engine/internal/target-runner.ts:500-810 | foreign entries stay, no snapshot changes, at most the run's own appears, and an archive with a snapshot keeps one |
| TargetRun.RunKeepsOnePerWindow | src/engine/internal/target-runner.ts:512-549 | an unforced run keeps one snapshot per window, whatever the clock says |
| TargetRun.RunRetains | src/engine/internal/target-runner.ts:783-802 | a run whose pass went through leaves exactly the survivors of what was there and its own snapshot, future-dated names included |
| TargetRun.RunKeepsItsOwnExactly | src/engine/internal/target-runner.ts:783-802 | such a run keeps the snapshot it made if and only if its name is not ahead of the clock by more than the allowance, or no older snapshot is genuine |
| TargetRun.RunMayPruneItsOwn | src/engine/internal/target-runner.ts:783-802 | a run during which the clock steps back and which, by the contract of `RunTarget`, can only succeed and prune the very snapshot it made |
| Lifetime.AlwaysOnePerWindow | src/engine/internal/target-runner.ts:512-549 | over any unforced runs and any `prune` commands, whatever the clocks say, the archive keeps one snapshot per window |
| Lifetime.LifeKeepsThePolicy | src/engine/internal/target-runner.ts:752-802 | from any archive, over any runs and `prune` commands however they end, the archive holds all that one plan over every snapshot ever made would keep, and exactly that whenever a pass goes through |
| Lifetime.GrowthHolds | src/retention/retention.ts:111-184 | a new snapshot, with or without a pass over what is there, keeps the archive between the policy's choice and everything ever made |
| Lifetime.InsertionNeverFires | src/engine/internal/target-runner.ts:740-750 | over any runs and `prune` commands, runs that died and left no report among them, with a clock that never steps back and nobody else writing, no run reports an insertion and no `prune` is refused |
| Backoff.DelayTellsUpToSix | src/engine/internal/scheduler.ts:38-43 | delays grow up to the cap and tell failure counts apart up to six, and no further |
| Backoff.WaitDoubles | src/engine/internal/scheduler.ts:38-43 | a first failure waits fifteen minutes from its end, every further one twice as long, up to six hours |
| Backoff.BackoffTracker.Record | src/engine/internal/scheduler.ts:109-135 | success and warning clear, a failure extends, the rest leave alone; other targets are untouched |
| Backoff.BackoffTracker.UntilFor | src/engine/internal/scheduler.ts:143-149 | the anchor plus the delay, or nothing |
| Backoff.DeriveBackoff | src/engine/internal/reports.ts:285-348 | every field of the derivation: the streak's failures, the newest trouble and its date, the newest completed run |
| Backoff.DerivesNext | src/engine/internal/reports.ts:285-348 | what one more report changes of every derived field: a completed run starts afresh, a failure counts and is told, a held lock or a low disk is told and takes the wait away, the rest change nothing |
| Backoff.FailureCountsAgree | src/engine/internal/reports.ts:293-305 | for every history the derived failure count is the tracker's |
| Backoff.AnchorsAgreeExactly | src/engine/internal/reports.ts:295-323 | with valid dates the anchors agree exactly when no blocking skip is newer than the streak's newest failure; otherwise the backoff is lost |
| Backoff.DerivedAnchor | src/engine/internal/reports.ts:295-323 | for every history, unreadable dates included, the derived anchor is the newest failure's, or none when a blocking skip is newer |
| Backoff.StaysInStep | src/engine/internal/scheduler.ts:109-135 | one more report, recorded in memory and on disk, keeps the tracker in step with the reports, up to an anchor a restart forgot |
| Backoff.RestartAgrees | src/engine/internal/reports.ts:285-348 | a tracker in step waits as long as a restart would, if and only if it has no anchor or no blocking skip is newer than the newest failure |
| Backoff.NextRunHeals | src/engine/internal/scheduler.ts:109-135 | the next failed or completed run makes memory and disk agree again |
| Backoff.SixFailuresAreEnough | src/engine/internal/reports.ts:285-348 | with the newest n reports only, the delay is the same exactly when they hold six failures or the whole count; the anchor is the same when they hold any |
| Daemon.Engine.RunOne | src/engine/backupkit.ts:863-978 | in memory a rehydrated target stays in step with its reports; one report per stretch of lock-held or disk-low skips, none for a dry run; what each outcome does to the damping state and that other targets are untouched |
| Daemon.Engine.EnsureBackoffState | src/engine/backupkit.ts:709-716 | rehydration, once per target, takes over what the reports say and touches no other target |
| Daemon.RestartKeepsBackoff | src/engine/backupkit.ts:709-716 | what a running daemon would wait and what a restart would make of its reports are the same, if and only if nothing is waited for in memory or no blocking skip is newer than the newest failure |
| Daemon.Scheduler.Decide | src/engine/internal/scheduler.ts:262-313 | backoff comes before remote work, a target runs exactly when its next due instant is now, and only an answered due check is cached |
| Daemon.Scheduler.After | src/engine/internal/scheduler.ts:315-336 | what every kind of report does to the cache of fulfilled windows |
| JsoncParser.Parser.Advance | src/config/internal/jsonc.ts:133-141 | `line` stays one more than the newlines before `pos`, and `lineStart` where that line begins |
| JsoncParser.Parser.SkipTrivia | src/config/internal/jsonc.ts:144-181 | skips as specified, and reports an open comment where it began |
| JsoncParser.Parser.ParseString | src/config/internal/jsonc.ts:327-400 | decodes as specified, every failure at its position |
| JsoncParser.Parser.ParseNumber | src/config/internal/jsonc.ts:403-452 | keeps the literal as specified, every failure at its position |
| JsoncParser.Parser.ParseKeyword | src/config/internal/jsonc.ts:455-472 | the three words, and the errors of all others, as specified |
| JsoncParser.Parser.ParseObject | src/config/internal/jsonc.ts:229-288 | depth cap, unique keys and one trailing comma as specified |
| JsoncParser.Parser.ParseArray | src/config/internal/jsonc.ts:291-324 | depth cap and one trailing comma as specified |
| JsoncParser.Parser.ParseValue | src/config/internal/jsonc.ts:198-226 | dispatches as specified, and reports what can start no value |
| JsoncParser.Parser.ParseDocument | src/config/internal/jsonc.ts:184-195 | one value and nothing after it |
| JsoncParser.ParseJsonc | src/config/internal/jsonc.ts:483-486 | strips one byte order mark and returns the specified tree, or the error at its line and column |
| JsoncTokens.TriviaWritten | src/config/internal/jsonc.ts:144-181 | whatever trivia was written is skipped whole |
| JsoncTokens.TriviaRead | src/config/internal/jsonc.ts:144-181 | whatever is skipped is trivia, and only the end of the text ends a line comment without a newline |
| JsoncTokens.StringWritten | src/config/internal/jsonc.ts:327-400 | a written string reads back as its decoding |
| JsoncTokens.StringRead | src/config/internal/jsonc.ts:327-400 | whatever reads as a string was written as one |
| JsoncTokens.NumberWritten | src/config/internal/jsonc.ts:403-452 | a written number reads back as its literal |
| JsoncTokens.NumberRead | src/config/internal/jsonc.ts:403-452 | whatever reads as a number follows section 6 of RFC 8259 |
| JsoncGrammar.ValueWritten | src/config/internal/jsonc.ts:198-324 | a printed value, with any trivia, parses to its meaning, every node on its line |
| JsoncGrammar.ValueRead | src/config/internal/jsonc.ts:198-324 | whatever parses as a value was printed by some value of the grammar with that meaning |
| JsoncGrammar.ReaderIsExact | src/config/internal/jsonc.ts:184-324 | a text is accepted with a tree exactly when the grammar - sections 2 to 7 of RFC 8259, comments, one trailing comma, depth 64, unique keys - prints it with that meaning |
| JsoncGrammar.MeaningIsUnique | src/config/internal/jsonc.ts:184-195 | no text is written in two ways that differ in meaning |
| JsoncGrammar.BomIsDropped | src/config/internal/jsonc.ts:483-486 | one byte order mark before a document changes nothing, and a second is refused |
| JsoncWriter.HexReadsExactly | src/config/internal/jsonc.ts:379-390 | four hex digits of either case are a code unit exactly when they spell its base-16 digits, most significant first |
| JsoncWriter.WrittenIsRead | src/config/internal/jsonc.ts:327-400 | a writer that escapes quotes, backslashes, control characters and everything outside ASCII is undone by the reader, for every text |
| JsoncWriter.WordsRead | src/config/internal/jsonc.ts:455-472 | the three words and their values |
| JsoncWriter.NumbersRead | src/config/internal/jsonc.ts:403-452 | a number with every part, of either sign and either exponent letter |
| JsoncWriter.EmptyBracketsRead | src/config/internal/jsonc.ts:229-325 | an object and an array of nothing |
| JsoncWriter.ArrayReads | src/config/internal/jsonc.ts:291-325 | an array with a trailing comma, as text and as a tree |
| JsoncWriter.ObjectReads | src/config/internal/jsonc.ts:229-289 | an object with one member, as text and as a tree |
| JsoncDiagnosis.ErrorsAreThere | src/config/internal/jsonc.ts:121-131 | every error is there: the character, key, word or end of text it names stands at the position it is reported at |
| JsoncDiagnosis.ReportCounts | src/config/internal/jsonc.ts:115-131 | lines and columns count from one, and a new line begins after each newline |
| JsoncDiagnosis.DeepIsRefused | src/config/internal/jsonc.ts:291-294 | of any text that opens sixty-five brackets, the sixty-fifth is refused |
| Include.MergeNodes | src/config/internal/include.ts:47-62 | the loop sets each key in place or at the end, and computes `Merge`: base keys in order, then the new ones |
| Include.MergeIsKeyed | src/config/internal/include.ts:51-61 | merging keeps keys unique at every level |
| Include.GetMerged | src/config/internal/include.ts:57-60 | a key's value after merging: both sides' merged, or the one there is |
| Include.MergeOrder | src/config/internal/include.ts:47-62 | the base's keys stay in place, new ones follow in the override's order, the whole stands where the override was written, and anything but two objects is replaced |
| Include.MergeAssociatesExactly | src/config/internal/include.ts:47-62 | merging is associative - nodes, key order, files and lines - if and only if no non-object stands between two objects that leave a trace |
| Include.ScalarBetweenObjects | src/config/internal/include.ts:48-50 | a triple on which it is not |
| Include.AbsorbedExactly | src/config/internal/include.ts:47-62 | overriding leaves no trace of the base exactly when the base's keys lead the override's, all the way down |
| Include.CompatibleWithMerge | src/config/internal/include.ts:47-62 | trees that agree on what is an object keep agreeing after a merge |
| Include.NestingIsFolding | src/config/internal/include.ts:143-148 | however deep includes nest, the result is one left fold of all documents in post-order, when every include but the first regroups nothing that matters with what was read before it |
| Include.AgreeInsideSettles | src/config/internal/include.ts:143-148 | that holds when the files under every include but the first agree among themselves on what is an object |
| Include.AgreeingAgreeInside | src/config/internal/include.ts:143-148 | and they do when all files agree |
| Include.FlatListsFold | src/config/internal/include.ts:143-148 | files that include nothing, read in order, fold whatever their documents are |
| IncludeRead.CollectPaths | src/config/internal/include.ts:72-109 | the paths an `include` names, or the first refusal |
| IncludeRead.ReadDocument | src/config/internal/include.ts:116-149 | ends on every graph of files and returns the specified document or refusal |
| IncludeRead.LoadsExactly | src/config/internal/include.ts:116-149 | a configuration loads exactly when every include chain from it reads well, repeats no file and has at most eight files |
| IncludeRefusals.RefusalsAreTrue | src/config/internal/include.ts:72-142 | every refusal is true of the last file of a chain of includes: it repeats one, is the ninth, cannot be read, or is wrong by itself as and where the refusal says |
| IncludeRefusals.ItemTaken | src/config/internal/include.ts:72-108 | an item is taken exactly when it is a string of one line that resolves to a file that exists |
| IncludeRefusals.IncludeIsSpelt | src/config/internal/include.ts:72-142 | the key that names included files |
| IncludeRead.DocumentIsKeyed | src/config/internal/jsonc.ts:255-259 | what the reader accepts repeats no key |
| IncludeRead.ReadIsKeyed | src/config/internal/include.ts:116-149 | nor does what an include graph comes to |
| IncludeRead.LoadingIsFolding | src/config/internal/include.ts:143-148 | a loaded configuration is the left fold of its files in post-order, when the files under every include but the first agree on what is an object |
| IncludeWitness.LoadingIsNotAlwaysFolding | src/config/internal/include.ts:143-148 | four files, as texts, whose loaded configuration is not that fold |
| IncludeWitness.LaterFileHides | src/config/internal/include.ts:143-148 | a tree that regroups something and folds all the same, since a later file hides it |

## Left out

- Child processes, ssh, rsync arguments and their error texts: a command is an atomic step with an outcome.
- Command line, help, tables, log lines, service units and message texts: an error is its kind and its position.
- The mirror pipeline, the disk guard's arithmetic, transfer retries, shell quoting and field validators: they touch neither the lock nor the snapshots of an archive; the mirror keeps none, the others compute on their arguments alone.
- Number conversion in the parser: a number node keeps its literal.
- Contents of files: a tree is its shape and its inodes, so isolation is about shared inodes, not about bytes.
- Report files: a history is a sequence of reports. Rotation is `Backoff.SixFailuresAreEnough`; unreadable and corrupt files are absent.
- Pid probing: a dead or recycled process is a fact that stays true.
- The lock directory holds at most one marker; a second `mkdir -p` into it replaces the first.
- Path resolution and home expansion of `include`: a parameter of `IncludeRead.World`.
- LocalLock.LocalLockBackend.Inspect: a lock path that is not a directory is left out.
- LockRefinement.AcquireExcludes: the hypotheses of `MutualExclusion` are asked of every step, the process's own and the others'.
- LockProtocol.MutualExclusion: assumes the eight hypotheses above, each shown to be needed.
- RemoteStore.RemoteSnapshotStore.ClaimPartial: exact only while nobody else plants entries; the remote store has no hard-link guard, as in the source.
- LocalStore.LocalSnapshotStore.ClaimPartial: isolation is per run; retries within a run re-enter the same partial.
- TargetRun.RunTarget: other clients do not write into the archive during a run, except in RemoteStore; the insertion ledger of Tripwires covers writes between runs.
- Lifetime.LifeKeepsThePolicy: asks that no name be ahead of the clock when a pass is planned; future-dated names are pruned or kept by `Pruning.Survivors`, whatever the policy says of them.
- Include.NestingIsFolding: enough, not exact, because what an include regroups may be hidden by a later file.
- The file count a dry run estimates: its report is never written.
- Daemon.Scheduler.Decide: log damping and the escalation of lock-held ticks are left out.
