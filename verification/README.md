# Verification model of the anime download manager

The backend of this repository downloads episodes, tracks each task on a progress bus with a
history table and a Redis mirror, lands BitTorrent transfers from Put.io, renders comment overlays,
uploads over FTP and keeps logs and lists. The Dafny modules here model its stateful cores and prove
what they promise, over all inputs, all runs and, where threads meet, all interleavings.

`dafny verify dfyconfig.toml` checks the whole project.

| module | what it models |
|---|---|
| `ProgressModel` | values of the bus, the history table and the mirror; the whole-state effect of each operation |
| `ProgressBus` | the bus, the history repository and the Redis mirror as objects that change in place |
| `ProgressRuns` | what every run of the bus keeps when each method is one step |
| `ProgressSteps` | the same protocol with every lock section and database call a step of its own |
| `ManualRunner` | one download and a batch of downloads as clients of the bus |
| `BtFeedEntries` | the feed-entry table: row transitions and the selecting queries with SQL NULLs |
| `LandingWorker` | the landing tick and the remote-refresh tick against any answers of Put.io |
| `BtHistory` | the history rows of feed entries through dispatches, landing ticks and boots |
| `RemoteRefresh` | runs of the remote-refresh tick and the fate of cleared rows |
| `LandingThrottle` | the progress throttle of one landing download |
| `Danmu` | the packer of rolling comments |
| `DailyLog` | the daily log files with size rollover, shared by several handlers |
| `DailyLogSteps` | the same with the parts of an emit as steps of their own |
| `LogRing` | the in-memory ring of log entries, its filters, deduplication and line parser |
| `LogTailer` | the incremental reader of today's log file |
| `LogPipeline` | the rolled files and the tailer together |
| `FtpUploader` | resumable upload over a connection that may break anywhere |
| `DuplicateForest` | duplicate pointers of the anime list |
| `SnList` | the printer and the parser of the `sn_list` text |
| `Ordering`, `PyText`, `Wrappers` | ids in SQL order, Python's string operations, optional values |

## How to read it

Objects whose methods change their fields are classes. Where a method's whole new state matters, its
contract gives it as a function of the old state (`ProgressModel.AfterFinish`,
`BtFeedEntries.After`, `LogRing.Happened`); what the code promises is then proved about runs of those
functions, so the methods inherit it. What those functions compute is said again without them, in terms of
fields, columns, characters and answers (`ProgressRuns.OpenEntryIsTheTrace`, `BtFeedEntries.WhoWrites`,
`LandingWorker.DecideIff`, `LogRing.PassesIff`, `SnList.ParsedIs`). Loops are loops with invariants.

Outside answers are parameters, quantified over: Put.io's replies and the settings (`Attempt`), the
network of an FTP attempt, the random stream of the packer, clocks (integers), the parser of one log
header line (any function from a line to an entry or nothing).

Several promises hold only under a condition a caller can check. Each of these has an
if-and-only-if, most with a run that fails:

- `force_finish` on an sn whose row is open in the same bus leaves that row open for the rest of the
  process, and nothing else does (`ProgressRuns.BijectionRun`, `ProgressRuns.OrphanedForGood`,
  `ProgressRuns.ForceFinishOrphans`). The bus of the BT service has no history repository, so it is
  never in this case.
- Under free interleaving, between two crashes, a row is left open with nobody to close it exactly when
  some task is ended inside the window of its own `start`, or by `force_finish`
  (`ProgressSteps.LeftOpenIffEndedTooEarly`, `ProgressSteps.AbandonedForGood`, with the schedule in
  `ProgressSteps.FinishInsideWindow`).
- The delayed finish that `cancel` schedules is not tied to the cancelled task: it ends a task started
  anew exactly when it was pending at that start (`ProgressRuns.StaleTimerInterrupts`,
  `ProgressRuns.StaleTimerRun`).
- The status '下載失敗' that the landing worker writes is unknown to `normalize_legacy_statuses`: a failed
  landing is in the recent list only until the next boot, which makes it '中斷' and hides it
  (`BtHistory.FailureShownUntilBoot`, `BtHistory.FailureRun`; the rewritten rows are exactly those of
  `ProgressRuns.NormalizeRewrites`).
- A transfer that is not found is said to leave its history row open to finish normally. The open rows of
  an entry are exactly its dispatches not answered by a close, and a close answers the latest one, so the
  row stays open until a boot (`BtHistory.OpenRowsAreUnanswered`, `BtHistory.ResetLeavesRowOpen`,
  `BtHistory.LeftoverRun`).
- `delete_stale` documents that unmatched rows have nothing in flight; rows dispatched by hand do
  (`BtFeedEntries.DeleteStaleOrphansIff`, `BtFeedEntries.ManualDispatchCanBeOrphaned`).
- The remote refresh documents that rows beyond its batch are reached by later ticks; a row that shares
  its fetch time with no other is reached exactly when, at some tick, fewer newer rows than the batch
  holds are uncleared
  (`RemoteRefresh.PolledWithinIff`, `RemoteRefresh.StarvedForever`).
- A worker's late call on a row it listed keeps the table coherent exactly when the row is still
  dispatched (`BtFeedEntries.CoherentStep`), so unless it was reset in between
  (`BtFeedEntries.LateCallIsCallable`, with the schedule in `BtFeedEntries.LateRefreshBreaksCoherence`).
- The packing of every prefix of the rolling comments is optimal, for all texts and draws, exactly when
  the raw times never go down (`Danmu.OptimalIffSorted`, `Danmu.UnsortedIsNotOptimal`); in any order the
  rows stay disjoint.
- An echo from the log file is recognised exactly when the host runs on UTC, since the file holds local
  time and is read back as UTC; elsewhere the entry appears twice (`LogRing.EchoTwiceIffNotUtc`,
  `LogRing.EchoTwiceEastOfUtc`).
- A day's lines are all handed on exactly when no line end is written after the last poll before
  midnight (`LogTailer.LinesMissedAtMidnightIff`, `LogTailer.MissedAtMidnight`) and nothing rolled over
  to a suffixed file (`LogPipeline.OnlyThePlainFileIsTailed`).
- An upload that answers True left an equal remote file exactly when the remote file began as a
  prefix of the local one or a transfer began again from the first byte (`FtpUploader.SuccessIff`,
  `FtpUploader.LongerLeftoverIsNotComplete`).
- A printed name is read back exactly when it has no '#' and no two spaces together; '<' and '>'
  do no harm (`SnList.PrintedLine`).

## Model

| member | source | states |
|---|---|---|
| ProgressBus.ProgressBus.constructor | backend/app/downloader/progress.py:97-108 | A new bus tracks nothing, holds no row id and no timer. |
| ProgressBus.ProgressBus.Start | backend/app/downloader/progress.py:112-257 | The three branches: refresh when the row is open or the entry active, else a new entry and, with a repository, one new row whose id is kept; then publish. |
| ProgressBus.ProgressBus.StartLocked | backend/app/downloader/progress.py:156-253 | The same up to the publish. |
| ProgressBus.ProgressBus.OpenFresh | backend/app/downloader/progress.py:209-253 | The inserting branch adds exactly one row with the in-progress status and stores its id. |
| ProgressBus.ProgressBus.RefreshEntry | backend/app/downloader/progress.py:168-185 | The refreshing branches reset the transient fields, keep retries and overwrite metadata only with values. |
| ProgressBus.ProgressBus.UpdateRate | backend/app/downloader/progress.py:259-266 | Only the rate of a tracked entry changes; untracked sns are left alone. |
| ProgressBus.ProgressBus.UpdateStatus | backend/app/downloader/progress.py:268-275 | Only the status of a tracked entry changes. |
| ProgressBus.ProgressBus.UpdateStats | backend/app/downloader/progress.py:277-301 | Speed, ETA and rate change where a value is given. |
| ProgressBus.ProgressBus.UpdateMetadata | backend/app/downloader/progress.py:303-333 | Metadata and file name change where a value is given. |
| ProgressBus.ProgressBus.UpdateResolution | backend/app/downloader/progress.py:335-342 | Only the resolution changes. |
| ProgressBus.ProgressBus.MarkRetry | backend/app/downloader/progress.py:344-352 | One more retry and the restarting status. |
| ProgressBus.ProgressBus.Finish | backend/app/downloader/progress.py:354-419 | Idempotent close: status coerced to '中斷' unless terminal, rate 1 on success, id popped, its row closed once, then published. |
| ProgressBus.ProgressBus.ForceFinish | backend/app/downloader/progress.py:421-486 | Closes or makes up an entry without touching the row id or the ledger. |
| ProgressBus.ProgressBus.Cancel | backend/app/downloader/progress.py:488-511 | Sets the status and the event, schedules one delayed finish, and tells whether the sn was tracked. |
| ProgressBus.ProgressBus.TimerFires | backend/app/downloader/progress.py:507-510 | A scheduled finish is used up and finishes whatever task the sn has then. |
| ProgressBus.ProgressBus.SetCooldown | backend/app/downloader/progress.py:513-529 | Only the cooldown deadline is set. |
| ProgressBus.ProgressBus.ClearCooldown | backend/app/downloader/progress.py:531-541 | Only the cooldown deadline is cleared. |
| ProgressBus.ProgressBus.MirrorPublish | backend/app/downloader/progress.py:543-564 | The mirror gets the entry without its cancel event; nothing without an entry or a mirror. |
| ProgressBus.ProgressBus.Snapshot | backend/app/downloader/progress.py:589-605 | Prunes finished entries past the time to live, and hands out copies of all others that agree with them field by field and hold no cancel event. |
| ProgressBus.ProgressBus.PruneStale | backend/app/downloader/progress.py:576-587 | Exactly the entries finished longer ago than the time to live go. |
| ProgressBus.TaskHistoryRepository.RecordStart | backend/app/persistence/task_history_repo.py:86-124 | A new row is added under a new id. |
| ProgressBus.TaskHistoryRepository.RecordFinish | backend/app/persistence/task_history_repo.py:126-166 | The row is closed; missing metadata is not written; an unknown id changes nothing. |
| ProgressBus.TaskHistoryRepository.MarkInterruptedOnBoot | backend/app/persistence/task_history_repo.py:168-185 | Exactly the open rows become '中斷', and are counted. |
| ProgressBus.TaskHistoryRepository.NormalizeLegacyStatuses | backend/app/persistence/task_history_repo.py:187-222 | Exactly the closed rows with an unknown status become '中斷', and are counted. |
| ProgressBus.TaskHistoryRepository.GetLatestInProgressBySn | backend/app/persistence/task_history_repo.py:243-267 | The open row of the sn with the greatest id, or nothing when there is none. |
| ProgressBus.RedisProgressMirror.Publish | backend/app/downloader/redis_progress_mirror.py:58-73 | The hash is written, and the sn joins or leaves the active set with the entry's finish. |
| ProgressRuns.BijectionStep | backend/app/downloader/progress.py:160-257 | Open rows, row ids and unfinished entries stay in bijection through any one operation but a `force_finish` on an open row. |
| ProgressRuns.BijectionRun | backend/app/downloader/progress.py:421-486 | Over every run the bijection survives if and only if no `force_finish` hits an open row; else some row is orphaned. |
| ProgressRuns.OrphanedForGood | backend/app/downloader/progress.py:380-404 | An orphaned row is open under the same id after any run of the process. |
| ProgressRuns.ForceFinishOrphans | backend/app/downloader/progress.py:471-486 | From an empty bus, start and `force_finish` orphan a row. |
| ProgressRuns.OneOpenRowPerSn | backend/app/downloader/progress.py:138-155 | Never two open rows for one sn, and an open row means an unfinished entry. |
| ProgressRuns.RebootRestoresBijection | backend/app/persistence/task_history_repo.py:168-185 | After a crash in any state and the boot step the bijection holds; open rows read '中斷', the others are unchanged. |
| ProgressRuns.ClosedRowsFrozen | backend/app/downloader/progress.py:385-404 | A closed row never changes again, whatever is called. |
| ProgressRuns.OpenTaskFollowsTrace | backend/app/downloader/progress.py:259-352 | While nothing ends a task, its entry is the last values written and its retries the number of `mark_retry` calls. |
| ProgressRuns.OpenEntryIsTheTrace | backend/app/downloader/progress.py:259-541 | While nothing ends a task, every field of its entry is a function of the trace; its cancel event is set if and only if a cancel came, through any refresh and update. |
| ProgressRuns.FinishedEntryIsTheTrace | backend/app/downloader/progress.py:368-384 | What closing leaves in memory: that entry with the status of the trace, '中斷' unless terminal, and a full bar for a success. |
| ProgressRuns.OtherTasksUntouched | backend/app/downloader/progress.py:112-541 | A call on one sn changes no other sn's entry, row id or timers. |
| ProgressRuns.ClosedRowIsTheTrace | backend/app/downloader/progress.py:390-417 | A row closed by `finish` or by the delayed finish of a cancel is a function of the trace: last values, coerced last status, retry count; and it stays so. |
| ProgressRuns.RowFinishedIs | backend/app/persistence/task_history_repo.py:126-166 | On any id and any values: that row alone is closed, and what is not given stays as it was. |
| ProgressRuns.ForceFinishEntry | backend/app/downloader/progress.py:421-486 | What `force_finish` leaves in memory, with and without an unfinished entry; a finished entry stays. |
| ProgressRuns.PruneForgets | backend/app/downloader/progress.py:576-587 | A prune forgets exactly the entries finished more than seven days ago, and touches no row id, row, card or timer. |
| ProgressRuns.BusRowsStayBusClosed | backend/app/downloader/progress.py:390-417 | Rows written by the bus are open or hold a terminal status, in every run. |
| ProgressRuns.NormalizeKeepsBusRows | backend/app/persistence/task_history_repo.py:187-222 | Normalisation is the identity on a table only the bus wrote. |
| ProgressRuns.NormalizeRewrites | backend/app/persistence/task_history_repo.py:199-222 | On one row: rewritten if and only if it is closed with an unknown status; once is enough; a listed '下載失敗' is hidden. |
| ProgressRuns.CancelsPendingRun | backend/app/downloader/progress.py:488-511 | In every run a cancelled unfinished task has a delayed finish on its way. |
| ProgressRuns.StaleTimerInterrupts | backend/app/downloader/progress.py:507-510 | A timer firing during a task that nothing cancelled or finished ends it if and only if a timer was pending at its start; then the row gets the coerced status, else it stays untouched. |
| ProgressRuns.TimersOfOpenTask | backend/app/downloader/progress.py:488-511 | An open task's pending timers are those found at its start and one more for each cancel. |
| ProgressRuns.StartedUnderTimer | backend/app/downloader/progress.py:507-510 | A task started while a timer is pending is interrupted by it, its row closed as '中斷', older closed rows untouched. |
| ProgressRuns.StaleTimerRun | backend/app/downloader/progress.py:488-511 | From an empty bus: start, cancel, finish, start again, and the first task's timer interrupts the second task. |
| ProgressRuns.MirrorRun | backend/app/downloader/progress.py:543-564 | In every run from a boot, cards equal entries and the active set is the unfinished entries plus the ghosts not yet adopted. |
| ProgressRuns.CardsAgree | backend/app/downloader/progress.py:543-564 | In every run from a boot each card agrees with its entry field by field and holds no cancel event. |
| ProgressRuns.ForceFinishClearsGhost | backend/app/downloader/progress.py:421-486 | `force_finish` takes exactly its ghost off the active list and leaves the ledger alone. |
| ProgressSteps.ClosedAtMostOnce | backend/app/downloader/progress.py:380-417 | Over every interleaving, crashes included, each row is passed to `record_finish` at most once, with a terminal status it keeps. |
| ProgressSteps.StartIsItsSteps | backend/app/downloader/progress.py:156-257 | An undisturbed `start` of the atomic picture is its lock section, its insert and its storing of the id. |
| ProgressSteps.FinishIsItsSteps | backend/app/downloader/progress.py:366-404 | An undisturbed `finish` is its lock section and its close, with the status of the closed row. |
| ProgressSteps.OtherCallsAreSteps | backend/app/downloader/progress.py:268-511 | Status updates, retries, cancels, `force_finish` and a crash with its boot step are one step each. |
| ProgressSteps.DoomedIffEndedTooEarly | backend/app/downloader/progress.py:209-253 | From any start of a process, whatever the table holds: something is doomed if and only if some task was ended inside the window of its own start, or by `force_finish`. |
| ProgressSteps.DoomedStays | backend/app/downloader/progress.py:209-253 | What is doomed stays doomed through every step but a crash. |
| ProgressSteps.CrashRests | backend/app/persistence/task_history_repo.py:168-185 | A crash with its boot step, like the first boot, ends with idle threads, nothing in memory and no row open. |
| ProgressSteps.DoomedIsAbandoned | backend/app/downloader/progress.py:209-253 | With all threads idle an sn is doomed if and only if it has an open row that is lost or held by an entry that is not unfinished. |
| ProgressSteps.AbandonedForGood | backend/app/downloader/progress.py:380-417 | Such a row is open after everything any thread does until a crash. |
| ProgressSteps.LeftOpenIffEndedTooEarly | backend/app/downloader/progress.py:240-253 | Between two crashes, when all calls have returned, some row is left open in this way if and only if some task was ended too early. |
| ProgressSteps.QuiescentBijection | backend/app/downloader/progress.py:160-257 | From any start of a process, with all threads idle and nothing ended too early, the bijection of the atomic picture holds. |
| ProgressSteps.FinishInsideWindow | backend/app/downloader/progress.py:240-253 | A concrete schedule of two threads that leaves a row open. |
| ManualRunner.Runner.DownloadOne | backend/app/scheduler/manual_runner.py:331-467 | With the cancel event set it only finishes the task, so a task waiting since its announcement is skipped if and only if it was cancelled; else its bus calls come in order, announced and finished at different times, for every behaviour of the download; an exception leaves it exactly when one is raised outside the try blocks or by a report inside an except or else branch. |
| ManualRunner.SkipsIffCancelled | backend/app/scheduler/manual_runner.py:349-355 | From its announcement on, with any calls in between that do not end it, a waiting task is skipped if and only if it was cancelled; its row then closes with the last status of its trace. |
| ManualRunner.WorkerClosesWith | backend/app/scheduler/manual_runner.py:357-467 | The status a worker's row is closed with: '失敗' when loading or downloading raised, else the last one written before the end, coerced. |
| ManualRunner.Runner.LoadAndDownload | backend/app/scheduler/manual_runner.py:357-467 | Loading failures and downloads both end in finish, also when the report of the end raises. |
| ManualRunner.Runner.Download | backend/app/scheduler/manual_runner.py:416-467 | The except branches and the finally block around the download. |
| ManualRunner.Runner.Announce | backend/app/scheduler/manual_runner.py:243-264 | The waiting card of an sn. |
| ManualRunner.DownloadOneClosesIffGuarded | backend/app/scheduler/manual_runner.py:331-467 | One announced task is closed if and only if nothing raises outside the try blocks. |
| ManualRunner.FinishedWorkerStays | backend/app/scheduler/manual_runner.py:462-467 | A worker's task stays finished, whoever else calls the bus. |
| ManualRunner.DownloadManyClosesEverything | backend/app/scheduler/manual_runner.py:509-570 | Whatever all threads call during the announcements, `force_finish` apart, and however the workers and other threads interleave afterwards, each worker finishing at its own time, every guarded sn ends without unfinished entry or open row, and its rows of the batch are terminal. |
| BtFeedEntries.BtFeedEntryRepository.InsertIfNew | backend/app/persistence/bt_feed_entry_repo.py:56-81 | A key is inserted once, undispatched. |
| BtFeedEntries.BtFeedEntryRepository.MarkMatched | backend/app/persistence/bt_feed_entry_repo.py:207-221 | Only the match is set. |
| BtFeedEntries.BtFeedEntryRepository.MarkDispatched | backend/app/persistence/bt_feed_entry_repo.py:223-236 | Match, dispatch time, transfer and status are set together. |
| BtFeedEntries.BtFeedEntryRepository.MarkDispatchedManual | backend/app/persistence/bt_feed_entry_repo.py:364-381 | Transfer, dispatch time and status are set, the path is cleared, match and clearing time are left. |
| BtFeedEntries.BtFeedEntryRepository.UpdatePutioStatus | backend/app/persistence/bt_feed_entry_repo.py:238-241 | Only the status changes. |
| BtFeedEntries.BtFeedEntryRepository.UpdateLocalPath | backend/app/persistence/bt_feed_entry_repo.py:243-246 | Only the path changes. |
| BtFeedEntries.BtFeedEntryRepository.ResetDispatch | backend/app/persistence/bt_feed_entry_repo.py:383-405 | All dispatch state and the path are cleared, the match kept. |
| BtFeedEntries.BtFeedEntryRepository.MarkRemoteCleared | backend/app/persistence/bt_feed_entry_repo.py:407-420 | Clearing time and the cleared status are set. |
| BtFeedEntries.BtFeedEntryRepository.MarkRemoteRemoved | backend/app/persistence/bt_feed_entry_repo.py:422-436 | Clearing time and the removed status are set. |
| BtFeedEntries.BtFeedEntryRepository.DeleteStale | backend/app/persistence/bt_feed_entry_repo.py:248-276 | Exactly the old rows that are unmatched or landed go, and are counted. |
| BtFeedEntries.BtFeedEntryRepository.ListPendingLanding | backend/app/persistence/bt_feed_entry_repo.py:168-183 | The dispatched rows without a path, each once, by ascending id. |
| BtFeedEntries.BtFeedEntryRepository.ListLandedPendingRemoteCheck | backend/app/persistence/bt_feed_entry_repo.py:438-469 | At most the limit of landed uncleared rows, and none left out is newer than one listed. |
| BtFeedEntries.QueriesMean | backend/app/persistence/bt_feed_entry_repo.py:168-332 | What each selecting query means in terms of the columns, NULL or not. |
| BtFeedEntries.WhoWrites | backend/app/persistence/bt_feed_entry_repo.py:207-436 | Column by column: which call on which row writes it, and what; every other value stays. |
| BtFeedEntries.WhoInserts | backend/app/persistence/bt_feed_entry_repo.py:56-81 | A row comes into the table by the insert of a new key alone, blank but for its fetch time. |
| BtFeedEntries.ManualDispatchIsPending | backend/app/persistence/bt_feed_entry_repo.py:364-381 | A row dispatched by hand, landed or not, is pending landing with the new transfer, its match and clearing time kept. |
| BtFeedEntries.StaleRowsGo | backend/app/persistence/bt_feed_entry_repo.py:248-276 | Old rows go if and only if they were never matched or have landed; all others stay as they are. |
| BtFeedEntries.CoherentStep | backend/app/persistence/bt_feed_entry_repo.py:223-246 | Transfer, dispatch time and status stay all null or all set if and only if status, path and clearing are written to dispatched rows only. |
| BtFeedEntries.CoherentRun | backend/app/persistence/bt_feed_entry_repo.py:364-436 | So in every run of such calls. |
| BtFeedEntries.LateCallIsCallable | backend/app/persistence/bt_feed_entry_repo.py:238-246 | A call on a dispatched row stays one the row is meant for through any other calls that do not reset or insert it. |
| BtFeedEntries.LateRefreshBreaksCoherence | backend/app/bt_downloader/landing_worker.py:443-459 | A dispatch by hand, a reset and the late status of a refresh tick leave a half dispatched row. |
| BtFeedEntries.CoherentPartition | backend/app/persistence/bt_feed_entry_repo.py:278-332 | In a coherent table the landed, terminal-unlanded and stale-ghost queries split the old dispatched rows into three disjoint classes. |
| BtFeedEntries.QueriesPartition | backend/app/persistence/bt_feed_entry_repo.py:278-332 | They do so in every table reachable by repository calls on the rows they are meant for. |
| BtFeedEntries.FallsThroughIffStatusNull | backend/app/persistence/bt_feed_entry_repo.py:305-332 | A row falls through all three queries if and only if it is unlanded with a NULL status. |
| BtFeedEntries.DeleteStaleOrphansIff | backend/app/persistence/bt_feed_entry_repo.py:248-276 | A transfer in flight is dropped if and only if its row is old and unmatched. |
| BtFeedEntries.ManualDispatchCanBeOrphaned | backend/app/persistence/bt_feed_entry_repo.py:364-381 | A concrete run in which that happens. |
| BtFeedEntries.MatchedKeptUntilLanded | backend/app/persistence/bt_feed_entry_repo.py:185-205 | A matched row is kept until it has landed, keeps its match, and is pending dispatch exactly while undispatched. |
| RemoteRefresh.MatchedKeptByWorkers | backend/app/persistence/bt_feed_entry_repo.py:185-205 | The same through any alternation of both ticks and all repository calls. |
| BtFeedEntries.ClearedIsFinal | backend/app/persistence/bt_feed_entry_repo.py:407-469 | Through any repository calls but a new dispatch, a cleared landed row stays out of both polling queries; it stays cleared unless it is reset or deleted. |
| LandingWorker.LandingWorker.RunIteration | backend/app/bt_downloader/landing_worker.py:144-157 | Every pending row is handled by its own answers alone; no row's failure touches another; all other rows are unchanged. |
| LandingWorker.LandingWorker.HandleRow | backend/app/bt_downloader/landing_worker.py:149-185 | One attempt, one more after a 429 with a capped wait, and the reports of the deciding attempt. |
| LandingWorker.LandingWorker.ProcessRow | backend/app/bt_downloader/landing_worker.py:187-287 | What one attempt leaves, reports, shows on the live card and raises, each characterised by the lemmas below; it raises only while the path is unset. |
| LandingWorker.LandingWorker.DownloadFiles | backend/app/bt_downloader/landing_worker.py:272-279 | The first failing file decides, else the last file's name. |
| LandingWorker.DownloadedIs | backend/app/bt_downloader/landing_worker.py:271-279 | The loop answers a name if and only if every file was fetched, and then the last one's; it raises what the first failing file raised. |
| LandingWorker.DecideIff | backend/app/bt_downloader/landing_worker.py:187-287 | Each outcome from the answers alone. A row lands if and only if its transfer is complete or seeding, names a file, and every file of its listing, or the single file it is, was fetched; and when it resets, is a remote error, waits or fails, and with which failure. |
| LandingWorker.AttemptWrites | backend/app/bt_downloader/landing_worker.py:187-314 | What one attempt writes to the row, column by column. |
| LandingWorker.AttemptTells | backend/app/bt_downloader/landing_worker.py:209-287 | Which status update, card update, landing report, failure report and delete request an attempt makes, each if and only if. |
| LandingWorker.AttemptCloses | backend/app/bt_downloader/landing_worker.py:191-287 | Which history row and which card an attempt closes, and with what. |
| LandingWorker.HandleRetries | backend/app/bt_downloader/landing_worker.py:149-185 | A second attempt if and only if the first met a 429, after at most sixty seconds; a failure raised by the deciding attempt is told last. |
| LandingWorker.LandingWorker.Land | backend/app/bt_downloader/landing_worker.py:281-314 | The row is marked and reported before the remote delete is tried, which cannot undo it. |
| LandingWorker.LandingWorker.DeleteRemoteAndMarkCleared | backend/app/bt_downloader/landing_worker.py:348-402 | Never raises; the row is marked cleared if and only if the delete worked or found nothing. |
| LandingWorker.LandingWorker.RefreshRemoteStatus | backend/app/bt_downloader/landing_worker.py:443-470 | What one poll of a landed row leaves and which delete it requests, whatever is answered. |
| LandingWorker.RefreshWrites | backend/app/bt_downloader/landing_worker.py:443-470 | What one poll of the refresh tick writes to the row, column by column. |
| LandingWorker.RefreshTells | backend/app/bt_downloader/landing_worker.py:316-346 | A poll requests a delete if and only if the file is landable and the setting is on. |
| LandingWorker.LandingWorker.RunRemoteRefreshIteration | backend/app/bt_downloader/landing_worker.py:404-441 | One tick polls exactly the newest uncleared rows of its batch, each by its own answers; its events are their delete requests. |
| LandingWorker.ExactlyOneFate | backend/app/bt_downloader/landing_worker.py:144-287 | For any answers a pending row is landed, reset, failed or deferred, and only one of these, within two attempts. |
| LandingWorker.TickFates | backend/app/bt_downloader/landing_worker.py:144-157 | The same over a whole tick: a landed row is reported landed once and never failed, told from the whole event log. |
| LandingWorker.PolledLeavesIffCleared | backend/app/bt_downloader/landing_worker.py:443-470 | A polled row leaves the query's set if and only if the poll clears it. |
| RemoteRefresh.TickDrains | backend/app/bt_downloader/landing_worker.py:404-441 | A tick whose polls clear takes the whole batch off the set. |
| RemoteRefresh.RefreshDrains | backend/app/bt_downloader/landing_worker.py:404-470 | When every poll made clears its row, k ticks leave n - k * batch rows, none after ceil(n / batch). |
| RemoteRefresh.PolledNowIff | backend/app/persistence/bt_feed_entry_repo.py:438-469 | A tick polls an uncleared row if and only if fewer than `batch` newer ones are uncleared; rows of the same fetch time compete. |
| RemoteRefresh.PolledWithinIff | backend/app/bt_downloader/landing_worker.py:423-441 | A run of ticks polls a row if and only if at some tick fewer than `batch` newer rows are uncleared. |
| RemoteRefresh.RefreshStarves | backend/app/bt_downloader/landing_worker.py:423-441 | In any run of ticks a full batch of newer rows whose polls never clear keeps an older row from being polled. |
| RemoteRefresh.StarvedForever | backend/app/bt_downloader/landing_worker.py:423-441 | A table of two rows whose older one is never polled with a batch of one, though one poll would clear it. |
| LandingWorker.TicksKeepCoherent | backend/app/bt_downloader/landing_worker.py:187-287 | Both ticks keep every row coherent. |
| LandingWorker.EveryTableCoherent | backend/app/bt_downloader/landing_worker.py:144-470 | Through any alternation of ticks, whatever Put.io answers, and of repository calls, every row stays coherent and the queries split the old dispatched rows. |
| BtHistory.FinishTaskHistory | backend/app/bt_downloader/landing_worker.py:680-710 | The newest open row of the task is closed; without one nothing changes. |
| BtHistory.TellHistory | backend/app/bt_downloader/landing_worker.py:282-285 | The history closes of some landing work, in order. |
| BtHistory.DispatchOpens | backend/app/services/bt_manual_dispatch_service.py:219-240 | A dispatch of a stored entry gives it the new transfer and opens exactly one row of its task, naming episode, feed and source. |
| BtHistory.HandleCloses | backend/app/bt_downloader/landing_worker.py:144-185 | A row's share of a tick closes at most one history row, as its deciding attempt says. |
| BtHistory.TickCloses | backend/app/bt_downloader/landing_worker.py:144-157 | Of a whole tick only the entry's own share reaches the history of its task. |
| BtHistory.CloseNewestPops | backend/app/persistence/task_history_repo.py:243-267 | A close takes the newest id off the open rows of its task. |
| BtHistory.OpenRowsAreUnanswered | backend/app/persistence/task_history_repo.py:243-267 | Over any run of dispatches, ticks, other calls and boots the open history rows of an entry are exactly its dispatches not answered by a close, a close answering the latest. |
| BtHistory.FailedTickCloses | backend/app/bt_downloader/landing_worker.py:144-157 | A failed landing closes the newest open row as '下載失敗' at the time of the tick. |
| BtHistory.FailureShownUntilBoot | backend/app/persistence/task_history_repo.py:187-222 | That row is in the recent list, whatever follows, until the next boot, which hides it for every cutoff. |
| BtHistory.FailureRun | backend/app/persistence/task_history_repo.py:199-222 | From an empty world: inserted, dispatched, failed, listed, booted, hidden. |
| BtHistory.ResetLeavesRowOpen | backend/app/bt_downloader/landing_worker.py:191-208 | A transfer that is not found, a new dispatch and its landing: the new row is complete and the old one open through everything but a boot or another dispatch. |
| BtHistory.LeftoverRun | backend/app/bt_downloader/landing_worker.py:191-208 | That run from an empty world. |
| BtHistory.BootInterrupts | backend/app/persistence/task_history_repo.py:168-185 | A boot interrupts any row still open. |
| RemoteRefresh.MovedKeepsOutOfReach | backend/app/bt_downloader/landing_worker.py:144-470 | Neither tick touches a cleared row, whatever is answered; only a new dispatch brings it back. |
| RemoteRefresh.ClearedIsFinalForWorkers | backend/app/bt_downloader/landing_worker.py:348-470 | Through any alternation of both ticks and repository calls without a new dispatch, a cleared landed row is in neither polled set; it stays cleared unless a call resets or deletes it. |
| RemoteRefresh.UnlistedIsSilent | backend/app/bt_downloader/landing_worker.py:144-157 | A row that a tick does not list causes no event of that tick, so no delete either. |
| LandingThrottle.ProgressCallback.OnProgress | backend/app/bt_downloader/landing_worker.py:613-644 | Emits the first sample, and then if and only if five seconds or ten points have passed since the last emit. |
| LandingThrottle.PercentIs | backend/app/bt_downloader/landing_worker.py:613-617 | The percentage is the whole points done: 100 for a full download, 0 of an unknown total. |
| LandingThrottle.Download | backend/app/bt_downloader/landing_worker.py:585-644 | A download of T milliseconds emits at most 1 + T / 5000 + 10 times, any two consecutive emits far apart, and still the last emit is under five seconds and ten points behind. |
| LandingThrottle.EmitsUseUpTime | backend/app/bt_downloader/landing_worker.py:632-644 | Each further emit uses up five seconds or ten of the hundred points. |
| Danmu.RollPacker.Allocate | backend/app/downloader/danmu.py:204-227 | First fit or a new row with the drawn speed, and the exact interval, end time and height; rows stay disjoint in any order. |
| Danmu.RollPacker.FirstFree | backend/app/downloader/danmu.py:215-221 | The first row that is free, or one past the last. |
| Danmu.PackNext | backend/app/downloader/danmu.py:145-162 | One pass of the rendering loop: a rolling comment is placed, any other changes nothing. |
| Danmu.PackAll | backend/app/downloader/danmu.py:139-162 | Every rolling comment is placed in order; when the rolling comments are in time order the number of rows is optimal. |
| Danmu.PackOnLowestRows | backend/app/downloader/danmu.py:204-227 | In any order of comments each goes to the lowest row on which no earlier one still runs, and row i runs at the speed of draw i. |
| Danmu.OpeningIsForced | backend/app/downloader/danmu.py:221-226 | In time order a new row is opened only when every row is busy at that instant. |
| Danmu.DepthNeedsRows | backend/app/downloader/danmu.py:204-227 | Comments that share an instant need that many rows in any assignment. |
| Danmu.TightIsOptimal | backend/app/downloader/danmu.py:204-227 | So the rows used equal the greatest depth, and no assignment needs fewer. |
| Danmu.RowsHaveOwnHeights | backend/app/downloader/danmu.py:217-225 | Two comments have the same height if and only if they are on the same row. |
| Danmu.UnsortedIsNotOptimal | backend/app/downloader/danmu.py:145-162 | The packer run on two comments out of time order that never meet opens two rows, whatever it draws, though one would do. |
| Danmu.PackIsOptimal | backend/app/downloader/danmu.py:139-162 | Whenever the rolling comments are in time order the packing is optimal. |
| Danmu.DescentIsNotOptimal | backend/app/downloader/danmu.py:204-227 | At the first descent of the raw times some texts make the packing use a row too many, whatever is drawn. |
| Danmu.OptimalIffSorted | backend/app/downloader/danmu.py:145-162 | The packing of every prefix is optimal for all texts and draws if and only if the raw times never go down. |
| DailyLog.DailyLogFileHandler.Emit | backend/app/log_config.py:526-549 | One line goes to the end of the resolved file; the suffix moves on if and only if that file is now full; old days are pruned once a day. |
| DailyLog.DailyLogFileHandler.ResolveSuffix | backend/app/log_config.py:564-575 | Ends at the first suffix whose file is not full. |
| DailyLog.PrunedKeepsLastDays | backend/app/log_config.py:577-596 | Pruning keeps exactly the files of the last `backupCount` days, unchanged, and all of them without a retention. |
| DailyLog.OldFilesGo | backend/app/log_config.py:546-548 | Through a day of any handlers and restarts the first record clears away exactly the files of older days; retained files of other days stay as they were. |
| DailyLog.RolloverRun | backend/app/log_config.py:526-575 | With any number of handlers and restarts: files below a suffix are full, and every file is exactly its share of the emitted lines, in order. |
| DailyLog.CapPlusOneLinePerHandler | backend/app/log_config.py:535-544 | No file passes the cap by more than one longest line per handler. |
| DailyLog.SingleHandlerAtFirstGap | backend/app/log_config.py:532-544 | With one handler the suffix in use is always the first file that is not full. |
| DailyLog.RestartResumes | backend/app/log_config.py:564-575 | So a restart resolves exactly the suffix in use. |
| DailyLogSteps.InterleavedRollover | backend/app/log_config.py:526-575 | The same as a run of finer steps: handlers of several processes interleave inside an emit and may crash there, and still files below a suffix are full and every file is exactly its share of the lines written, in order. |
| DailyLogSteps.EmitIsItsSteps | backend/app/log_config.py:526-549 | The finer steps of one handler, undisturbed, are one emit. |
| DailyLogSteps.InterleavedCap | backend/app/log_config.py:535-544 | And no file passes the cap by more than one longest line per handler. |
| LogRing.RingBufferHandler.Emit | backend/app/log_config.py:270-282 | The entry and its key are recorded. |
| LogRing.RingBufferHandler.PushParsedEntry | backend/app/log_config.py:284-320 | A tailed entry is recorded if and only if it passes the filters and its key is not among the recent ones. |
| LogRing.PassesIff | backend/app/log_config.py:299-310 | Which tailed entries get through: loggers of the app and the four upper levels in any case, unless a websocket logger tells of a client that went away. |
| LogRing.SameKeyIff | backend/app/log_config.py:249-268 | Two entries have one key if and only if the first 19 characters of the time, the logger and the first message line agree. |
| LogRing.RingBufferHandler.BootstrapFromFile | backend/app/log_config.py:355-400 | At most once a process, the entries of the last lines join the ring and no key is recorded. |
| LogRing.ParseLines | backend/app/log_config.py:424-453 | The loop over lines: headers open entries, other lines continue the newest one. |
| LogRing.ParseKeepsHeaders | backend/app/log_config.py:424-453 | One entry a header line, in order, each message beginning with its header's. |
| LogRing.OneEntryHasItsLines | backend/app/log_config.py:424-453 | A header and the lines after it, up to the next header, are one entry that has all of their text. |
| LogRing.ParseInTwo | backend/app/log_config.py:424-453 | Parsing two batches differs from one reading in the second's leading continuation lines only. |
| LogRing.TwoBatchesIff | backend/app/log_config.py:424-453 | It does not differ if and only if the second batch starts with a header, is empty, or has nothing to continue. |
| LogRing.ParsedKeysAreHeaderKeys | backend/app/log_config.py:249-268 | Continuation lines never change a deduplication key. |
| LogRing.RingIsLastAccepted | backend/app/log_config.py:238-248 | In every run the ring is the last `capacity` accepted entries, bootstrap included, and the key window the last 500 recorded. |
| LogRing.TailedNeverRepeats | backend/app/log_config.py:312-320 | In every run a tailed entry's key differs from the 500 keys recorded before it. |
| LogRing.EchoIsDropped | backend/app/log_config.py:284-320 | An entry of this process that comes back within the window changes nothing. |
| LogRing.EchoKeyIffUtc | backend/app/log_config.py:249-268 | The echo, continuation lines or not, has its entry's key if and only if local time is UTC. |
| LogRing.EchoTwiceIffNotUtc | backend/app/log_config.py:284-320 | In any run an echo within the window is dropped on UTC and accepted as a second entry elsewhere. |
| LogRing.EchoTwiceEastOfUtc | backend/app/log_config.py:322-335 | A concrete entry and its echo eight hours east of UTC, both accepted. |
| LogTailer.LogFileTailer.constructor | backend/app/log_config.py:802-807 | The tailer starts at the end of today's file. |
| LogTailer.LogFileTailer.PollOnce | backend/app/log_config.py:814-854 | Resets on a new day or a shorter file, reads what is new, carries the unfinished line over and pushes the entries of the complete ones. |
| LogTailer.SplitJoins | backend/app/log_config.py:843-848 | Splitting loses nothing and leaves no line end in a line. |
| LogTailer.SplitInTwo | backend/app/log_config.py:842-848 | Splitting in two chunks with a carried-over line is splitting once. |
| LogTailer.TailingReadsOnce | backend/app/log_config.py:814-854 | After any appends and polls of a day the lines handed on plus the carry are the split of all that was appended. |
| LogTailer.ReadFromItsStart | backend/app/log_config.py:817-838 | The file of a new day, and one that has become shorter, is read from its first line. |
| LogTailer.TailedEntriesAreOneShot | backend/app/log_config.py:842-854 | The pushed entries have the headers and keys of one reading, each message a prefix. |
| LogTailer.ExactIffCleanCuts | backend/app/log_config.py:842-854 | They are equal, messages included, if and only if no poll cuts an entry before a continuation line. |
| LogTailer.LinesMissedAtMidnightIff | backend/app/log_config.py:817-821 | A day's lines were all handed on if and only if no line end came after its last poll. |
| LogTailer.MissedAtMidnight | backend/app/log_config.py:817-821 | A run whose last line is never handed on. |
| LogPipeline.SplitOfFile | backend/app/log_config.py:536-541 | The text of a file splits into the lines of its records. |
| LogPipeline.FileSizes | backend/app/log_config.py:557-562 | The sizes the handler compares with the cap are those of the files' text. |
| LogPipeline.OnlyThePlainFileIsTailed | backend/app/log_config.py:856-859 | Through any day of emits, restarts and polls, a tailer started after the first k records of suffix 0 has handed on exactly the lines of the later ones; they are the whole log if and only if k is 0 and nothing rolled over. |
| FtpUploader.StorFile | backend/app/downloader/uploader_ftp.py:147-179 | What one attempt leaves on the server, and exactly when it succeeds: it reaches, SIZE is answered, and the remote file is told as long as a non-empty local one, or all the rest is carried and confirmed. |
| FtpUploader.AttemptDelivers | backend/app/downloader/uploader_ftp.py:147-179 | The remote file after one attempt, for any connection: the missing bytes it carried are appended, or sent from the first byte, or the file is as before. |
| FtpUploader.SendFrom | backend/app/downloader/uploader_ftp.py:166-178 | The block loop delivers exactly the bytes the connection carries, in order. |
| FtpUploader.Upload | backend/app/downloader/uploader_ftp.py:44-92 | True after the first attempt that succeeds, and no later than the first clean one; False after max_retry_num + 1 that do not, or without a local file. |
| FtpUploader.CleanSucceeds | backend/app/downloader/uploader_ftp.py:62-75 | An attempt that reaches, opens, carries what is left and confirms counts as a success, whatever came before it. |
| FtpUploader.PrefixIff | backend/app/downloader/uploader_ftp.py:147-179 | Through any attempts the remote file is a prefix if and only if it began as one or a transfer began again. |
| FtpUploader.SuccessIff | backend/app/downloader/uploader_ftp.py:62-92 | On True the files are equal under exactly that condition. |
| FtpUploader.LongerLeftoverIsNotComplete | backend/app/downloader/uploader_ftp.py:160-162 | A different remote file at least as long is called complete. |
| FtpUploader.NothingSentTwice | backend/app/downloader/uploader_ftp.py:166-178 | Without a restart the bytes that arrived in all attempts are those the remote file gained. |
| DuplicateForest.AnimeListRepository.Upgrade | backend/alembic/versions/0010_anime_list_duplicate_of.py:46-72 | Every named row but the least of its name points at that one and is disabled; all else is unchanged. |
| DuplicateForest.AnimeListRepository.UpgradeRow | backend/alembic/versions/0010_anime_list_duplicate_of.py:57-72 | One turn of the loop keeps the first ids seen least of their names. |
| DuplicateForest.AnimeListRepository.FindDuplicateSource | backend/app/persistence/anime_list_repo.py:161-189 | The least matching id other than the excluded one, or nothing when there is none. |
| DuplicateForest.SqlMatchIff | backend/app/persistence/anime_list_repo.py:161-189 | A stored name matches if and only if, its spaces and the white space around the one asked for aside, it differs in the case of letters alone. |
| DuplicateForest.FindsTheRoot | backend/app/persistence/anime_list_repo.py:161-189 | In a forest whose names have nothing but spaces around them the search finds the root of the name, and nothing if and only if no row has it. |
| DuplicateForest.AnimeListRepository.ReevaluateDuplicatesAfterDelete | backend/app/persistence/anime_list_repo.py:191-229 | The least row that pointed at the deleted one becomes a root, the others point at it, and exactly these are returned in order. |
| DuplicateForest.AnimeListRepository.ApplyDuplicateFlags | backend/app/services/animelist_service.py:213-264 | After a save every named row points at the least row of its name, whatever pointers it held. |
| DuplicateForest.CanonicalIffForest | backend/alembic/versions/0010_anime_list_duplicate_of.py:9-11 | Pointers given by the names are exactly a depth-one forest with live lower targets, disabled duplicates and one root a name. |
| DuplicateForest.SameGroupIff | backend/alembic/versions/0010_anime_list_duplicate_of.py:46-58 | Two rows are of one group if and only if their names, stripped, differ in the case of letters alone; which names the migration and the pass after a save skip. |
| DuplicateForest.SwitchesOf | backend/app/persistence/anime_list_repo.py:191-229 | Linking disables the duplicates and no other row; the repair switches none on or off. |
| DuplicateForest.UpgradeIsCanonical | backend/alembic/versions/0010_anime_list_duplicate_of.py:57-72 | The migration builds such a forest. |
| DuplicateForest.DeleteAndRepairIsCanonical | backend/app/persistence/anime_list_repo.py:191-229 | Deleting any row and repairing keeps it. |
| DuplicateForest.AnyDeletesKeepForest | backend/app/persistence/anime_list_repo.py:191-229 | So do any number of deletes. |
| DuplicateForest.RepairNeededIff | backend/app/persistence/anime_list_repo.py:195-203 | Without the repair the pointers stay right if and only if nothing pointed at the deleted row. |
| DuplicateForest.ApplyIsCanonicalIff | backend/app/services/animelist_service.py:213-264 | The pass after a save builds such a forest if and only if the rows it skips were in order. |
| SnList.Export | backend/app/integrations/my_anime_export.py:59-63 | The printed text and the count of entries. |
| SnList.ParseLegacy | backend/app/persistence/sn_list_repo.py:57-103 | The line loop with its category, comment, space, mode and rename rules; what it makes of a text is `SnList.ParsedIs`. |
| SnList.ParsedIs | backend/app/persistence/sn_list_repo.py:73-103 | For every text: exactly the sns with a row come out, each with the mode and rename of its last row and the category of the last category line before it, none after a reset line or without one. |
| SnList.ListRoundTrip | backend/app/persistence/sn_list_repo.py:73-103 | A text of category lines and rows in all three modes comes back as what it says. |
| SnList.RenameIs | backend/app/persistence/sn_list_repo.py:94-96 | A bracketed name goes from the first '<' to the last '>' after it. |
| SnList.CommentGoes | backend/app/persistence/sn_list_repo.py:82 | A comment goes when it says something and its line ends; anything else of the line stays. |
| SnList.DecimalIs | backend/app/persistence/sn_list_repo.py:90 | The digits of a number, leading zeros or not, are read as that number. |
| PyText.SplitLinesIs | backend/app/persistence/sn_list_repo.py:73 | Splitting into lines loses nothing and cuts after each line break, never inside a '\r\n'. |
| PyText.WordsAre | backend/app/persistence/sn_list_repo.py:84 | Splitting at spaces gives the pieces between them, every one. |
| PyText.StripIs | backend/app/persistence/sn_list_repo.py:82 | Stripping leaves the text between its first and last character that is no white space. |
| PyText.CollapsedIsSingle | backend/app/persistence/sn_list_repo.py:83 | Collapsing leaves no two spaces together. |
| SnList.PrintedLine | backend/app/persistence/sn_list_repo.py:84-103 | A printed line is read back with its sn and mode 'all', and with its name if and only if the name is clean. |
| SnList.PrintedLines | backend/app/integrations/my_anime_export.py:59-63 | The printed text splits into the printed lines again. |
| SnList.RoundTrip | backend/app/persistence/sn_list_repo.py:73-103 | Exactly the printed sns come back, no category, the last entry of an sn winning, names under the same condition. |
| SnList.CleanRoundTrip | backend/app/persistence/sn_list_repo.py:73-103 | With clean names the round trip is exact. |

## Left out

- HTTP, video streams, metadata scraping, OAuth, Telegram, web routes, web sockets and the frontend: input and output around the modelled state.
- The BT dispatch service, the reconciler and the task service: only their repository and bus calls are modelled.
- The deletion of old history rows and the reuse of ids: rows are never removed. Rows of the bus and rows of feed entries are modelled apart.
- BtHistory.FinishTaskHistory: database failures, which the code swallows, are not modelled; the map from entries to task sns is any injective function.
- ProgressBus.ProgressBus.MirrorPublish: publishes are taken to succeed, in the order of the calls; the code swallows their failures and gives racing threads no order.
- ProgressBus.RedisProgressMirror.Publish: does not model the expiry of finished hashes or the serialisation to strings.
- ProgressBus.ProgressBus.Cancel: an entry is a value in a map, so the identity of the event object a running download holds is not modelled.
- ManualRunner.Runner.DownloadOne: covers runs with information mode off; cancellation inside the download is one of its endings.
- ManualRunner.DownloadManyClosesEverything: the limit on worker threads is not modelled; any interleaving is allowed.
- BtFeedEntries.BtFeedEntryRepository.InsertIfNew: one id stands for the pair of feed and guid.
- LandingWorker.LandingWorker.ProcessRow: the card updates during a download are the throttle's and not events here; the count of deletes that only triggers a log line is left out; repository calls are taken to succeed.
- LandingWorker.LandingWorker.RunIteration: events are told in order without their texts and sizes; the wait after a rate limit is a number, and the other worker may run between ticks, not inside one; what a call inside a tick can break is `BtFeedEntries.LateRefreshBreaksCoherence`.
- LandingThrottle.ProgressCallback.OnProgress: percentages are exact integer floors; the code computes them in floating point. Speed and ETA are left out.
- Danmu.RollPacker.Allocate: times are counted in eighths, so the code's division by eight is exact; colours, stamps and fixed comments are left out.
- DailyLog.DailyLogFileHandler.Emit: one emit is one step here (`DailyLogSteps` takes it apart), and one write is never split; a character takes one byte; file errors are left out.
- LogRing.RingBufferHandler.PushParsedEntry: subscribers and their queues are left out; levels are upper-cased as ASCII.
- LogRing.EchoKeyIffUtc: time stamps are any 19-character text that tells the two seconds apart.
- LogTailer.LogFileTailer.PollOnce: the file is opened in text mode, which turns '\r' and '\r\n' into '\n', also when a poll ends between the two; the model splits at '\n' only, in `Split` and in `LogPipeline.LinesOf`. Positions count characters, so a poll inside a multi-byte character is not modelled; only the plain file of the day is read, as in the code.
- LogTailer.TailingReadsOnce: for a file that is not truncated on that day.
- FtpUploader.StorFile: the local file does not change during an upload, and SIZE tells the truth when it answers.
- DuplicateForest.AnimeListRepository.FindDuplicateSource: nothing in the application calls it; it strips spaces where the migration strips any white space, so its link to the forest (`DuplicateForest.FindsTheRoot`) is for names with nothing but spaces around them.
- DuplicateForest.AnimeListRepository.Delete: foreign keys are not enforced by the database connection, so pointers at a deleted row stay until the repair.
- DuplicateForest: letters are ASCII, so lower-casing in SQL and in Python agree; replacing a user's whole list and renaming are seen only through the pass after a save.
- SnList.ParseLegacy: digits are ASCII; the byte-order mark and decoding are left out.
- SnList.RoundTrip: for sns of ASCII digits and names without line breaks, as the exporter is given.
