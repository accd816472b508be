/**
  Run reports, as the run writes them and as the tripwires, the backoff and the
  scheduler read them back (src/engine/types.ts:15-156). Instants are as read
  from a report file: a date that does not parse is `None`.
 */
module Reports {
  import opened Prelude

  datatype Status = Success | Warning | Failed | Skipped | Aborted

  /** Why a run skipped or failed; `Stopped` is the code "aborted". */
  datatype Reason =
    | Window | DiskLow | ClockSkew | VerifyFailed | Stopped | DryRun | RemoteUnavailable
    | ContentCollapse | LockHeld | DueCheckFailed | RunThrew

  /**
    `files` is the file count of its transfer, `completeCount` the number of
    snapshots right after its promote; `collapsed` and `inserted` say which
    tripwires fired.
   */
  datatype Report = Report(
    status: Status, reason: Option<Reason>, error: Option<string>,
    startedAt: Option<int>, finishedAt: Option<int>,
    snapshot: Option<int>, files: Option<nat>, completeCount: Option<nat>,
    collapsed: bool, inserted: bool)
}
