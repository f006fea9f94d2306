# DiscEcho daemon: a verified model

DiscEcho rips optical discs. Each drive has a queue of rips and scans (`Orchestrator`), finished rips hand their files
to one pool of transcode workers (`Compute`), rows in SQLite (`Store`) say what state every job and drive is in, and a
directory per rip (`Spool`) holds the files between the two halves. Users cancel, retry and delete at any moment, and
the daemon may stop between any two steps. This project models that protocol and the algorithms around it, and proves
what they keep.

| file | what it models |
|---|---|
| `Jobs.dfy` | the jobs table, the effect of each statement on it, spool names |
| `Protocol.dfy` | workers, requests, queues, spool directory and crashes as one transition system |
| `Ownership.dfy` | no job is in two places; none starts twice without a retry |
| `Settled.dfy` | final writes are final; exactly when a cancelled job still starts |
| `Handlers.dfy` | every submitted disc keeps a type with a handler |
| `Stranded.dfy` | exactly which steps leave an active job in nobody's hands |
| `Continuations.dfy` | the daemon's own work can end an active job exactly when it is not stranded |
| `Outcomes.dfy` | what is recorded at the end is what the handler reported |
| `Completion.dfy` | runs that go well: a waiting job can be done, and each request does its work |
| `SpoolRetention.dfy` | a spool directory lives as long as a transcode may need it |
| `Store.dfy` | the store, spool and compute-queue objects, and the retry and delete requests, as methods |
| `Gate.dfy` | the concurrency gate of the transcode pool, atomic operation by atomic operation |
| `Drives.dfy` | claim and release of a drive by identify passes, rips, ejects and removals |
| `Broadcaster.dfy` | delivery, drop and close of subscriber channels |
| `StartDisc.dfy` | racing start requests |
| `Timestamps.dfy` | timestamps compared as text |
| `Retention.dfy`, `History.dfy` | pruning, its preview, history clearing, and the discs that go with the jobs |
| `LibrarySeries.dfy` | the 30-day series of the library widget |
| `Lifecycle.dfy` | a disc's state derived from its jobs, singly and in one batch |
| `FileMoves.dfy` | collision suffixes, `AtomicMove`, and the loop that moves files into the library |
| `OutputPaths.dfy`, `Text.dfy` | sanitized library paths |
| `Streams.dfy` | line splitting and the cd-info watcher, for any division of the output into pieces |
| `AccurateRip.dfy` | the AccurateRip summary built by two goroutines |
| `Options.dfy` | the optional value |

A step of a transition system is one SQL statement or transaction, one channel operation, one atomic operation or one
section of a mutex. Runs are arbitrary interleavings of such steps, of any length, with any number of workers, drives
and request threads. Loops and objects that the daemon updates in place are methods and classes, proved against
functions on values, and the lemmas are about those functions.

## Where the code does less than it says

Each of these is proved, with a concrete case and, where it is a question of when, the exact condition.

- The comment on `ClearHistory` says that in-progress jobs are untouched. The column `parent_job_id` is declared
  `ON DELETE CASCADE` (daemon/state/migrations/014_job_kind_and_spool.sql:14) and foreign keys are on
  (daemon/state/db.go:36), so a running transcode whose rip is done is deleted with the rip row
  (`History.ClearCanTakeRunningJob`). Exactly the active jobs are left, and the returned count is exact, if and only if
  no active job has a finished parent.
- For the same reason `PruneHistory` can remove rows that no limit names, running ones included
  (`Retention.PruneTakesUnnamed`; exactly when: `Retention.PruneExactIff`), and `DeleteJob`, which refuses jobs in
  progress, takes those that descend from the finished job (`History.DeleteCanTakeRunningJob`; exactly when:
  `History.DeleteTakesActiveIff`).
- The numbers that `PruneHistory` reports are RowsAffected, and those leave out rows that went with their parent, as the
  comment at daemon/state/store.go:2870-2872 says of `ClearHistory`. The preview counts them. A done rip and its done
  transcode are two in the preview and one in the report (`Retention.PreviewCountsTwice`);
  `Retention.PreviewExactIff` says for each bucket exactly when the two agree.
- A cancel can lose against a worker that has read the row and not yet written `running` (`Settled.CancelCanLose`);
  `Settled.CancelledJobStartsIff` says exactly when. The same race lets two active rips of one disc exist
  (`StartDisc.CancelAllowsTwoRips`); `StartDisc.RipsApartIff` and `StartDisc.DoublesMakesTwo` say exactly when.
- An old identify pass can release a newer claim (`Drives.OldPassReleasesNewClaim`). A second pass can be let in beside
  an open one exactly if a rip or an eject ends, or media is removed, while a pass is open
  (`Drives.SecondPassPossibleIff`).
- The gate is not work-conserving (`Gate.NotWorkConserving`); a worker misses a free slot only when somebody interferes
  between its first load and its swap (`Gate.MissesOnlyWhenDisturbed`), and waits beside a free slot only after that or
  after another worker took a token (`Gate.WaitsBesideFreeSlot`).
- A suffixed path can equal one that was never suffixed (`FileMoves.ClashExample`); the move then stops.
- Text order is not time order within one second when one trimmed fraction is a proper prefix of the other
  (`Timestamps.AgreeWithinSecondIff`), although the retention and statistics queries compare the texts as times.

Two exits turn out never to be taken: the compute pool's refusal of jobs that are not transcodes
(`Ownership.ComputeSeesOnlyTranscodes`), and runJob's exit for a disc type without a handler
(`Handlers.NoHandlerNeverTaken`). The second matters, because that exit alone writes through a context that a cancel may
have ended already.

## Model

| member | source | states |
|---|---|---|
| Ownership.OwnedAtMostOnce | daemon/jobs/orchestrator.go:249-294 | in every reachable state, over submits, cancels, retries, deletions and crashes, an id is at most once among the blocked senders, the queues and the workers without a final write |
| Ownership.NoSecondStartWithoutRetry | daemon/jobs/compute.go:216-310 | a job has begun at most once more often than it was reset; a rip or scan begins at most once |
| Ownership.ComputeSeesOnlyTranscodes | daemon/jobs/compute.go:300-304 | the pool never reads a row that is not a transcode: its refusal of other kinds never happens |
| Ownership.InvKept | daemon/state/store.go:1559-1616 | every step keeps: ids unique over all places, jobs on their side, done, failed and interrupted rows owned by nobody |
| Settled.FinalWriteIsFinal | daemon/jobs/compute.go:417-420 | once a worker has made its last write, with the state that `Outcomes.FinalWriteRecords` gives, no late cancel, restart or other worker changes the row, until a retry or a deletion |
| Settled.SettledKept | daemon/state/store.go:1374-1419 | a row in a terminal state that nobody owns is unchanged by every step except its own retry |
| Outcomes.FinalWriteRecords | daemon/jobs/compute.go:393-420 | in every execution, a final write puts on the row of the job that the worker popped the state that its last report since then decided, and the time, and changes no other row |
| Outcomes.ReportStays | daemon/jobs/orchestrator.go:447-468 | what the handler returned, or the failure of the rip, stays decided until the worker's final write, whatever happens in between |
| Outcomes.DoneMeansDelivered | daemon/jobs/orchestrator.go:553-614 | `done` is decided only by a handler without an error or, for a rip, by its own hand-over of the child, in the same job; for a transcode only by its handler |
| Outcomes.DirectoryLeaves | daemon/jobs/compute.go:417-463 | a directory leaves the disk only by a restart, with a deleted transcode, after its own rip's failure, or by the worker that has recorded its transcode as done |
| Outcomes.CleanupRecords | daemon/jobs/orchestrator.go:572-585 | a failed rip's directory is removed before the failure is recorded, a done transcode's after it is |
| Outcomes.StartRecords | daemon/jobs/compute.go:340-344 | a job that was neither found cancelled nor failed in the read is marked running |
| Outcomes.ChildRecords | daemon/jobs/orchestrator.go:593-606 | the child is a queued transcode of the rip's disc whose spool path names the rip's directory |
| Outcomes.HandOffSends | daemon/jobs/orchestrator.go:610-613 | the child that the rip made is what goes to the end of the compute queue |
| Outcomes.ExitMeansSettled | daemon/jobs/compute.go:272-438 | a worker is done with a job only when its outcome is on the row, for a done transcode with the spool cleaned up, or when it found the row cancelled |
| Completion.WaitingCanSucceed | daemon/jobs/compute.go:272-403 | in every reachable state, a waiting active job that is not stranded can be brought to `done` by workers and pending sends alone |
| Completion.RipCanHandOver | daemon/jobs/orchestrator.go:553-614 | a started rip can end as done with its directory on disk and its child last in the compute queue |
| Completion.SubmitAlone | daemon/jobs/orchestrator.go:108-154 | undisturbed, Submit adds the row and puts the id at the end of its drive's queue |
| Completion.RetryAlone | daemon/api/jobs.go:192-211 | exactly failed and interrupted transcodes can be reset; undisturbed, the row is queued without an end time and the id at the end of the queue |
| Completion.DeleteAlone | daemon/api/jobs.go:258-290 | undisturbed, a finished transcode's row goes, with its descendants, and then its directory |
| Completion.PopAlone | daemon/jobs/compute.go:79-101 | each drive's worker and each of the eight compute workers, idle and not returned, can take the head of its queue |
| Completion.CloseCanStrand | daemon/jobs/orchestrator.go:279-294 | an execution in which a Close leaves a sent job in nobody's hands |
| Settled.CancelledJobStartsIff | daemon/jobs/orchestrator.go:206-221 | a cancelled row can be set to running without a retry if and only if a live worker had read the row before the cancel |
| Settled.CancelCanLose | daemon/jobs/orchestrator.go:366-419 | for any times, the run submit, send, pop, register, read, cancel, running exists and ends with a running row |
| Handlers.NoHandlerNeverTaken | daemon/jobs/orchestrator.go:410-415 | in every execution, with discs retyped at will, no worker takes the exit for a disc type without a handler |
| Handlers.HandlersOkKept | daemon/api/discs.go:783-828 | every step keeps: the disc of each rip and scan, and of the copies that drive workers hold, has a type with a handler |
| Stranded.StrandedIff | daemon/jobs/orchestrator.go:249-294 | after any step, an active row is in nobody's hands if and only if it was so before or the step abandoned it: a wait or send given up at shutdown, the return of the last worker of the queue it waits for, a Close before its sender found the queue, or an arrival at a queue that is closed or without workers |
| Stranded.StrandedWasAbandoned | daemon/jobs/compute.go:257-275 | in every execution a stranded job was abandoned by such a step since the last restart |
| Stranded.DrainedKept | daemon/jobs/compute.go:257-267 | a queue loses its workers only by the return of the last one, and gets none back before a restart |
| Continuations.WorkCanEndIff | daemon/jobs/orchestrator.go:366-499 | in every reachable state, steps of workers and pending sends alone can bring an active job to a terminal row if and only if it is not stranded |
| Continuations.AbandonedWhileOpenIff | daemon/jobs/orchestrator.go:93-104 | while neither pool is being closed, a step abandons a job if and only if it is the Close that comes before the job's sender has found its queue |
| Continuations.NoneStrandedWhileOpen | daemon/jobs/orchestrator.go:347-363 | in every execution, over any number of restarts, no queued or running row is in nobody's hands until a Close begins |
| Continuations.EveryJobCanEndWhileOpen | daemon/jobs/orchestrator.go:366-499 | until then, steps of workers and pending sends can bring every active job to a terminal row |
| Continuations.StaffedKept | daemon/jobs/compute.go:201-211 | only stopped pools lose workers, and only idle ones; only drive workers hand over; no queue overflows |
| SpoolRetention.SpoolRetained | daemon/jobs/orchestrator.go:553-614 | in every reachable state, each queued, active, failed or interrupted transcode has its spool directory |
| SpoolRetention.RetryFindsSpool | daemon/api/jobs.go:145-157 | at every moment, a transcode that may be retried has its directory |
| SpoolRetention.RetryGoneMeansOver | daemon/api/jobs.go:132-157 | the handler reads the row first and looks for the directory later; when it answers 410, the job has meanwhile been deleted, done or cancelled |
| SpoolRetention.TranscodeReadsItsSpool | daemon/jobs/compute.go:334-358 | while a transcode runs, its directory is on disk |
| SpoolRetention.RestartKeepsExactlyRetryable | daemon/spool/spool.go:114-150 | after a restart whose removals succeed, the directories left are exactly those of failed and interrupted transcodes, none missing and none to spare |
| SpoolRetention.SpoolInvKept | daemon/jobs/compute.go:417-463 | every step keeps: one child per rip, directories never shared, never made again after the hand-over, and there for as long as needed |
| Store.JobStore.UpdateJobState | daemon/state/store.go:1374-1401 | sets the state whatever it was, stamps terminal ones, and does nothing to other rows |
| Store.JobStore.CancelJobIfActive | daemon/state/store.go:1403-1419 | afterwards the job is not active; a row has changed exactly if it was this job's and active, so a late cancel leaves a terminal state and its time alone |
| Store.JobStore.ResetTranscodeJob | daemon/state/store.go:1559-1616 | the three refusals in order, else queued with the end time cleared |
| Store.JobStore.MarkInterruptedJobs | daemon/state/store.go:1623-1664 | afterwards no row is active; exactly the rows that were have changed, in state and end time only; the result counts them |
| Store.JobStore.ActiveSpoolReferences | daemon/state/store.go:1488-1539 | the two queries yield exactly the names that a live rip or an unfinished transcode still needs |
| Store.Basename | daemon/jobs/compute.go:456-463 | the backward scan finds what follows the last separator |
| Jobs.BasenameOfSpoolPath | daemon/jobs/compute.go:443-463 | the name cut from a row's spool path is the directory that the rip created |
| Jobs.BasenameMeaning | daemon/jobs/compute.go:456-463 | the name holds no slash or backslash and stands at the start or behind one |
| Store.SpoolDir.GC | daemon/spool/spool.go:114-150 | keeps exactly the referenced entries and those whose removal fails, and counts the removed |
| Store.SpoolDir.Cleanup | daemon/spool/spool.go:92-100 | refuses the empty name, else removes that entry alone |
| Store.ComputePool.Enqueue | daemon/jobs/compute.go:216-226 | appends to the queue with room, fails after Close without having appended, or blocks exactly while the queue is full before Close |
| Store.RetryTranscode | daemon/api/jobs.go:130-213 | 404, 409, 422 and 410 each if and only if its condition holds; else the row is reset, and the job is queued exactly when accepted |
| Store.DeleteJob | daemon/api/jobs.go:258-290 | unknown and active jobs are refused unchanged; else the row and its children go, and for a transcode its directory |
| Gate.InFlightBounded | daemon/jobs/compute.go:172-196 | in every interleaving the counter equals the slots held and never exceeds the largest limit set so far |
| Gate.NoDeadlock | daemon/jobs/compute.go:172-196 | a worker blocked with no token buffered leaves another that holds a slot, is mid-release or is on its way to a free one |
| Gate.OnItsWayWins | daemon/jobs/compute.go:174-177 | such a worker, left alone, takes the slot within three steps |
| Gate.BlockedWorkerCanAcquire | daemon/jobs/compute.go:127-196 | from every reachable state there is a way for each blocked worker to get a slot |
| Gate.NotWorkConserving | daemon/jobs/compute.go:176-185 | a run after which a worker waits without a token although a slot is free |
| Gate.MissesOnlyWhenDisturbed | daemon/jobs/compute.go:174-177 | a worker whose swap fails beside a free slot was disturbed: between its first load and its swap the count or the limit changed |
| Gate.WaitsBesideFreeSlot | daemon/jobs/compute.go:172-196 | in every run, a worker that waits without a token beside a free slot, with no wakeup on its way, missed the slot in its own swap or waits since before some worker took a token |
| Gate.SafeKept | daemon/jobs/compute.go:127-196 | each atomic operation keeps counter and bounds right, with several limit changes under way at once |
| Gate.LimitChangeArrives | daemon/jobs/compute.go:127-143 | in any run, a call that loads another limit stores its own value, whatever happens in between, and returns exactly when it has sent that many wakeups; a call that loads its own changes nothing |
| Gate.SetConcurrencyAlone | daemon/jobs/compute.go:127-143 | the steps of one undisturbed call end with the clamped limit, as many more wakeups as the channel takes, and no call under way |
| Gate.AcquireAlone | daemon/jobs/compute.go:172-187 | the steps of one undisturbed acquire take a free slot and no token, or use up the tokens and wait |
| Gate.ReleaseAlone | daemon/jobs/compute.go:190-196 | the steps of one release give back the slot and add a token if there is room |
| Gate.TokensConserved | daemon/jobs/compute.go:127-196 | in any run, each wakeup that found room is in the channel or has been taken by one worker |
| Gate.Pool.SetConcurrency | daemon/jobs/compute.go:127-143 | the limit is clamped; a change adds as many wakeups as the new limit, up to the capacity |
| Gate.Pool.Acquire | daemon/jobs/compute.go:172-187 | undisturbed, takes a free slot at once and no token, else drains the tokens and would block |
| Gate.Normalise | daemon/jobs/compute.go:112-120 | the result lies in [1, 8] and equals the request when that does |
| Drives.IdentifyingHasLivePass | daemon/state/store.go:243-275 | in every run, an `identifying` row belongs to the pass with the latest claim, that pass is still to release, and its release frees the drive |
| Drives.RippingUntilIdleWrite | daemon/jobs/orchestrator.go:419-479 | without ejects and removals, `ripping` stays in the row until the rip's own idle write |
| Drives.SecondPassPossibleIff | daemon/state/store.go:243-275 | in any run, a second pass would at some moment be let in beside an open one if and only if the end of a rip, the end of an eject or a removal lands while a pass is open |
| Drives.SecondPassIff | daemon/state/store.go:243-253 | a fresh claim is granted beside an open pass if and only if the row can be claimed |
| Drives.PassesExcludeEachOther | daemon/state/store.go:243-275 | in every run without such a step at most one pass is open, and while it is, nobody can claim |
| Drives.OldPassReleasesNewClaim | daemon/state/store.go:266-275 | a run in which an old pass ends a newer claim |
| Drives.Drive.Handle | daemon/cmd/discecho/discflow.go:76-291 | on every path as many releases as claims, and the row ends in the state that the outcome calls for |
| Drives.Drive.Reidentify | daemon/api/discs.go:673-709 | refused on a busy or claimed drive; else one release, which moves the row, and announces so, exactly if it still says `identifying` |
| Drives.ErrorIff | daemon/cmd/discecho/discflow.go:140-290 | a pass leaves the drive in error exactly if it could not classify or identify the disc, or could not store it |
| Broadcaster.LiveSubscriberGetsEverything | daemon/state/broadcaster.go:31-80 | received plus buffered equal, in order, everything published since the subscription |
| Broadcaster.DroppedIff | daemon/state/broadcaster.go:61-80 | in every run, a subscriber that neither cancels nor is closed with the broadcaster is dropped if and only if an event is offered while as many are unread as it asked room for; until then it is open and has been given everything |
| Broadcaster.PublishAlone | daemon/state/broadcaster.go:61-80 | the steps of one Publish give the event to every subscriber with room, close the others, and touch nobody else |
| Broadcaster.CloseAlone | daemon/state/broadcaster.go:84-95 | the steps of one Close close everybody, keep what is unread, and make later publishes and subscriptions empty |
| Broadcaster.CancelAlone | daemon/state/broadcaster.go:40-57 | a cancel closes its own channel only, and a second one does nothing |
| Broadcaster.ClosedSubscriberKeepsPrefix | daemon/state/broadcaster.go:61-95 | a dropped, cancelled or closed subscriber was given an exact prefix of that, and nothing changes it later |
| Broadcaster.NoPanic | daemon/state/broadcaster.go:31-95 | no run of subscribe, publish, cancel, close and receive closes a channel twice or sends on a closed one |
| StartDisc.AtMostOneActiveRipWithoutCancels | daemon/api/discs.go:64-95 | any number of racing requests and worker steps, without cancels, leave at most one active rip per disc |
| StartDisc.RipsApartIff | daemon/api/discs.go:64-95 | in any run, no state has two active rips of a disc, or one and a request that has won the disc, if and only if no `running` write revives a terminal rip beside such a rip or request |
| StartDisc.DoublesMakesTwo | daemon/jobs/orchestrator.go:366-419 | after such a write there are two active rips, at once or when the winning request creates its own |
| StartDisc.AtMostOneActiveRip | daemon/state/store.go:594-608 | without such a write there is at most one active rip per disc, cancels included |
| StartDisc.LosersWriteNothing | daemon/api/discs.go:82-95 | a request that loses has not written the disc's metadata |
| StartDisc.RefusedIff | daemon/state/store.go:594-608 | at either check a request is refused if and only if a job of its own disc is queued, identifying, running or paused |
| StartDisc.StartAlone | daemon/api/discs.go:64-211 | with the lock free and no such job, whatever other discs do, a request has a run that creates its rip |
| StartDisc.CancelAllowsTwoRips | daemon/jobs/orchestrator.go:366-419 | a run with one cancel that ends with two active rips of one disc |
| Timestamps.AgreeAcrossSeconds | daemon/state/store.go:33-34 | text order is time order whenever the whole seconds differ |
| Timestamps.AgreeWithinSecondIff | daemon/state/store.go:33-34 | within one second exactly when neither trimmed fraction is a proper prefix of the other |
| Timestamps.WholeSecondSortsLast | daemon/state/store.go:33-34 | a whole second sorts behind every later time of that second |
| Timestamps.ParseUndoesFormat | daemon/state/store.go:33-42 | parsing a written timestamp gives back the time |
| Timestamps.DateOrder | daemon/state/store.go:33-34 | day numbers follow the Gregorian calendar order |
| Timestamps.YearStartFormula | daemon/state/store.go:33-34 | the day numbers of years agree with the closed formula of the Gregorian calendar |
| Timestamps.MonthStartFormula | daemon/state/store.go:33-34 | so do those of months from March on |
| Retention.PruneExactIff | daemon/state/store.go:2664-2754 | what is left is exactly the rows that no limit names if and only if no row to be kept has a parent to be removed |
| Retention.BucketLeft | daemon/state/store.go:2664-2688 | then each bucket keeps exactly its newest rows, up to the count, that also pass the age test |
| Retention.BucketsExact | daemon/state/store.go:2628-2631 | the buckets are disjoint and hold exactly the rows in a final state with an end time, the first the done ones |
| Retention.SelectedMeaning | daemon/state/store.go:2664-2688 | a statement names exactly the finished rows of its kind that are too old or have as many later ones as the count, ties going to the greater id |
| Retention.PruneLeaves | daemon/state/store.go:2710-2754 | under the condition of PruneExactIff, what is left of each kind is exactly its newest rows, up to the count, within the age limit; rows under way stay |
| Retention.NewestSize | daemon/state/store.go:2673-2678 | the subquery keeps as many rows as the limit, or all |
| Retention.NewestIsNewer | daemon/state/store.go:2673-2678 | every row it keeps precedes every row it leaves out, by end time and then id |
| Retention.PruneIdempotent | daemon/state/store.go:2710-2754 | pruning again at the same time removes nothing, cascades included |
| Retention.PreviewExactIff | daemon/state/store.go:2729-2784 | the report never exceeds the preview; for the success bucket they agree exactly when no selected row descends from another, for the failure bucket when also the first statement leaves its selection alone |
| Retention.PreviewCountsTwice | daemon/state/store.go:2729-2784 | a done rip and its done transcode from any second before the cutoff's: two in the preview, one in the report, none left |
| Retention.PruneTakesUnnamed | daemon/state/store.go:2733-2743 | a rip done in any second before the cutoff's takes its running transcode, which no limit names |
| Retention.SelectionUntouchedIff | daemon/state/store.go:2733-2743 | exactly when the first DELETE leaves the second the rows it would have named |
| Retention.BelowIff | daemon/state/migrations/014_job_kind_and_spool.sql:14 | the rows that a cascade adds are those with a line of descent from a named row |
| Retention.AgeTestRight | daemon/state/store.go:2668-2672 | the age test is right for every job at least one second from the cutoff |
| Retention.DoomedClosed | daemon/state/migrations/014_job_kind_and_spool.sql:14 | a delete takes every child of a row it takes |
| Retention.DoomedLeast | daemon/state/migrations/014_job_kind_and_spool.sql:14 | and no row that a closed set containing the named rows could keep out |
| History.Database.SweepDiscs | daemon/state/store.go:2695-2705 | deleting superseded discs one by one in any order, with the guard evaluated on the shrinking table, gives the table of evaluating it on all first |
| History.NewestSurvives | daemon/state/store.go:2695-2705 | every drive that had a disc still has its newest one |
| History.GuardStable | daemon/state/store.go:2698-2704 | removing superseded discs never changes whether another is superseded |
| History.DeleteRows | daemon/state/store.go:2733-2743 | deleting row by row in rowid order with cascades leaves what deleting at once would, and counts the named rows that no named ancestor took |
| History.Database.PruneHistory | daemon/state/store.go:2710-2754 | both buckets, then the discs without a job that are superseded; the three RowsAffected |
| History.PruneHistoryIdempotent | daemon/state/store.go:2710-2754 | a second prune at the same time leaves jobs and discs as they are |
| History.Database.CreateJob | daemon/state/store.go:944-1029 | inserts a row only with its disc and parent present, behind all rows before it |
| History.Database.ClearHistory | daemon/state/store.go:2864-2918 | the whole new state of jobs and discs and the returned count |
| History.ClearExactIff | daemon/state/store.go:2857-2918 | exactly the active jobs are left if and only if no active job has a finished parent |
| History.ClearCountIff | daemon/state/store.go:2872-2879 | the returned number is never too large, and right exactly then |
| History.ClearKeepsLinks | daemon/state/store.go:2881-2912 | no remaining job loses its disc or parent; discs of active jobs and discs without jobs stay |
| History.ClearedDiscIff | daemon/state/store.go:2881-2904 | a disc goes exactly if it has jobs, all in a final state, and is on no drive or not the newest of its drive |
| History.PrunedDiscIff | daemon/state/store.go:2695-2705 | a disc goes exactly if no remaining job refers to it and it is on no drive or not the newest of its drive |
| History.ClearCanTakeRunningJob | daemon/state/store.go:2857-2863 | a running transcode of a done rip is removed |
| History.ClearTakesChildren | daemon/state/migrations/014_job_kind_and_spool.sql:14 | every job with a finished parent goes, in progress or not |
| History.Database.DeleteJobAndOrphans | daemon/state/store.go:2810-2855 | the row and its descendants go; its disc only when no job is left on it and it is superseded |
| History.DeleteTakesActiveIff | daemon/api/jobs.go:258-290 | deleting a finished job removes a job in progress if and only if it descends from the finished one |
| History.DeleteCanTakeRunningJob | daemon/api/jobs.go:258-290 | deleting a done rip removes its running transcode |
| History.DeleteJobKeepsLinks | daemon/state/store.go:2810-2855 | no remaining job loses its disc or parent |
| History.PruneKeepsLinks | daemon/state/store.go:2710-2754 | the same after a prune |
| LibrarySeries.StatsLibrary | daemon/state/store.go:2977-3032 | baseline plus running total equals, on each of the 30 days, the plain sum of everything done by the end of that day |
| LibrarySeries.Placement | daemon/state/store.go:2998-3012 | every row enters the total once and by its own day, even when its text sorts before midnight |
| LibrarySeries.WindowStart | daemon/state/store.go:2988-2998 | comparing with the midnight text splits by day except within the first second of the day |
| LibrarySeries.DaysOfSeries | daemon/state/store.go:2988-2990 | the 30 days are consecutive calendar days and end with today |
| LibrarySeries.NeverDecreases | daemon/state/store.go:3025-3030 | with no negative sizes the series never falls |
| LibrarySeries.EndsAtUsedBytes | daemon/state/store.go:2992-2994 | its last point is the total when nothing was done after today |
| Lifecycle.DeriveLifecycleState | daemon/state/disc_lifecycle.go:22-89 | the two loops compute the state given by the newest rip and its newest transcode |
| Lifecycle.OrderIrrelevant | daemon/state/disc_lifecycle.go:7-14 | with distinct creation times any permutation of the jobs gives the same state |
| Lifecycle.HistoryIrrelevant | daemon/state/disc_lifecycle.go:11-14 | an older rip, a child of another rip or a scan, inserted anywhere, changes nothing |
| Lifecycle.CompleteIff | daemon/state/disc_lifecycle.go:56-86 | done exactly when the newest rip is done and, for DVD, BDMV and UHD, its newest transcode too |
| Lifecycle.AnswerIs | daemon/state/disc_lifecycle.go:22-89 | every answer: which state of the newest rip, or of its newest transcode, gives which state of the disc |
| Lifecycle.LatestOfConcat | daemon/state/disc_lifecycle.go:27-40 | the scan for the newest job splits at any point |
| Lifecycle.LifecycleStates | daemon/state/store.go:1240-1313 | the batched query gives every asked disc, and only those, the state derived from its own jobs |
| FileMoves.SuffixCollisions | daemon/pipelines/movie_move.go:95-104 | the in-place pass rewrites exactly the paths that occur more than once |
| FileMoves.SuffixedDiffer | daemon/pipelines/movie_move.go:99-104 | paths that were equal differ afterwards, and suffixed paths are pairwise distinct |
| FileMoves.TitleNumber | daemon/pipelines/movie_move.go:101-102 | equal suffixed paths carry the same number, whatever their stems and extensions |
| FileMoves.DistinctIff | daemon/pipelines/movie_move.go:95-104 | all paths are distinct if and only if no suffixed path is also an unsuffixed one |
| FileMoves.ClashExample | daemon/pipelines/movie_move.go:95-104 | three paths for which the pass leaves two equal |
| FileMoves.FileSystem.CopyFile | daemon/pipelines/output.go:235-256 | creates the destination only if absent; a failure leaves every file as it was, and at most a remainder at the destination |
| FileMoves.FileSystem.AtomicMove | daemon/pipelines/output.go:210-233 | succeeds exactly if there is a source, nothing in its place, and rename or else copy and removal work; moves the content or leaves the source, and never replaces a file |
| FileMoves.MoveAll | daemon/pipelines/movie_move.go:105-113 | however far it gets, every file still exists with its content, sources at their source or a destination, all others where they were, no two merged; without failures and with free destinations it gets to the end |
| FileMoves.MoveMovieOutputs | daemon/pipelines/movie_move.go:95-113 | suffix pass and moves together; with destinations apart from the sources it completes only if no suffixed path clashes |
| FileMoves.UnderMeaning | daemon/pipelines/movie_move.go:107 | a destination has the components of the library root, then those of the rendered path |
| FileMoves.IndexOfLargest | daemon/pipelines/movie_move.go:134-144 | the first of the largest, or 0 when no size is positive |
| OutputPaths.RenderedStaysInside | daemon/pipelines/output.go:75-95 | following the rendered path from the library root never leaves it, and goes no deeper than the template's own slashes |
| OutputPaths.PathIsClean | daemon/pipelines/output.go:136-157 | the result is relative and no component is empty, "." or ".." |
| OutputPaths.RelPathIdempotent | daemon/pipelines/output.go:140-168 | sanitizing a path twice is sanitizing it once |
| OutputPaths.FieldValueIdempotent | daemon/pipelines/output.go:123-134 | the same for a field value |
| OutputPaths.RelPathFixedIff | daemon/pipelines/output.go:140-168 | a path comes back unchanged exactly when it has no control character and only clean components |
| OutputPaths.FieldValueFixedIff | daemon/pipelines/output.go:119-134 | a field value comes back unchanged exactly when it is empty or one clean component |
| OutputPaths.FieldHasNoSlash | daemon/pipelines/output.go:119-134 | a field value never splits into several components |
| OutputPaths.FieldKeepsParts | daemon/pipelines/output.go:119-134 | every part of a field value between slashes that has a name of its own is in the result |
| OutputPaths.PathKeepsParts | daemon/pipelines/output.go:140-157 | every such part of a path is a component of the result |
| OutputPaths.SanitizeRelPath | daemon/pipelines/output.go:140-157 | the loop computes the specified path; the removal of NUL after stripping is redundant |
| Streams.DrainAfterScan | daemon/tools/streamparse.go:26-51 | for any read sizes and any point at which the parser stops, it saw the tokens of the whole text up to the first that does not fit, and the stream is read to its end |
| Streams.Scanner.Scan | daemon/tools/streamparse.go:63-76 | the next token of what is left, or the reason why there is none |
| Streams.SplitCROrLF | daemon/tools/streamparse.go:63-76 | the token before the first CR or LF, the remainder at the end, or a request for more |
| Streams.PiecesConserve | daemon/tools/streamparse.go:53-62 | splitting loses nothing but terminators, and each of them ends one piece |
| Streams.ReadableIs | daemon/tools/streamparse.go:46-49 | the number of tokens seen is fixed by the text, the buffer size and the parser's limit |
| Streams.Watch | daemon/identify/classify.go:101-143 | for any division into writes the watcher fires exactly when the whole output holds a complete line with the prefix and a value that is neither blank nor an error |
| Streams.AnnouncesIff | daemon/identify/classify.go:121-171 | a line announces a disc mode exactly if it has the prefix, something but blanks behind it, and neither error message there, in capitals or not |
| Streams.CdInfoWatcher.Write | daemon/identify/classify.go:121-143 | after each write that holds for the output so far, and the buffer is that output |
| AccurateRip.ParseWhipperStreams | daemon/tools/whipper.go:121-141 | for every interleaving of the two parsers the map is the per-track maximum over both streams, and the hint is logged once if there was any output |
| AccurateRip.MaximumUnique | daemon/tools/whipper.go:151-167 | only one map has that property, so scheduling cannot show |
| AccurateRip.VerifiedIff | daemon/tools/whipper.go:331-371 | a track is in the summary exactly if some line speaks of it, verified exactly if some line reports a match, and a count above one was given by a line |
| AccurateRip.Accumulator.RecordAR | daemon/tools/whipper.go:160-167 | keeps the greater confidence and leaves other tracks alone |

## Left out

- The SQL engine: a statement is a function on a table of rows, its WHERE clause evaluated against the table before it; a DELETE that cascades visits the rows it names in rowid order, which is the order of insertion. `date()` is taken as the day in the text; SQLite's rounding of fractions is not modelled. Sums are unbounded integers.
- Failing store writes, except those through a context that was cancelled and those on rows that are gone.
- The conditions under which a worker waits between taking a job and registering it (spool capacity, a slot of the gate): in the protocol it may go on, stay, or give up after a stop; the gate itself is in `Gate.dfy`.
- Continuations.WorkCanEndIff: states that an end can be reached, not that an unfair scheduler or a handler that never returns must let it be.
- Job steps, log lines, progress, events sent to clients and notifications: they do not feed back into states or files.
- Disc types: a disc's first type is arbitrary, and later ones have a handler, as UpdateDiscType's two callers see to; the set of handlers is fixed.
- Handlers that override `RipResult.SpoolPath`, and handlers that remove the directory they were given.
- Changing the profile of a transcode together with its retry.
- Processes outside the daemon that change the spool, the library or the database while a step runs.
- Time offsets other than UTC in `parseTime`: the store writes UTC only.
- Freshness of UUIDs is assumed: a new job's id has never been used before.
- Rendering of names in `MoveMovieOutputs` (extras folders, episode numbers): the rendered paths are an input.
- Directories and permissions in the file system: creating parents may fail and is otherwise without effect; a path without a file may still be a directory, which `AtomicMove` refuses.
- `text/template` beyond literal text, text fields and number fields; whipper's patterns, of which only the classification of a line is an input.
- Invalid UTF-8 in rendered paths, and Unicode spaces when the watcher trims a value.
- Identification, metadata lookups, profiles, HTTP beyond the named requests, the web interface.
- `dailyByteSeries`, `statsFailures` and `UsageBytes`: simpler relatives of what is modelled.
- Broadcaster.LiveSubscriberGetsEverything: states an event under way as not yet delivered to the subscribers that `Publish` has not reached; the broadcaster is a transition system and not a class, because receivers take no lock.
- Gate.BlockedWorkerCanAcquire: states that a way to a slot always exists, not that an unfair scheduler must take it.
- Store.DeleteJob: the disc row that may go with the job is part of `History.Database.DeleteJobAndOrphans`.
