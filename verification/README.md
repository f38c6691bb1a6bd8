# VaultBack: verified models of the backup coordinator

This project models the parts of VaultBack's backend whose correctness does not depend on I/O, and proves what they
are for. All statements hold for every input, every run, or every interleaving; nothing here is a bounded check.
`dafny verify dfyconfig.toml` checks everything.

| Part | Files | Main results |
|---|---|---|
| Execution queue | `ExecutionTypes`, `ExecutionStore`, `ExecutionInvariant`, `Dispatcher`, `Recovery`, `ExecutionWorld`, `ExecutionService`, `ExecutionMeaning`, `ExecutionLimits` | invariant of every run, what each status means, configured limits, work conservation, queue order, retries, cancellation safety, termination, crash recovery |
| Schedules | `Calendar`, `Cron`, `CronFields`, `RunDue` | what a cron expression stands for, exactly the time zones in which the search is least, each occurrence counted once over every run |
| Archives | `Crc32`, `Zip`, `ZipFormat` | table-driven CRC equals polynomial division, exact round trip of the ZIP writer and reader |
| SQL | `SqlStream`, `SqlParts`, `SqlLexemes`, `SqlNames`, `SqlRename`, `SqlDirectives` | the scanner cuts at exactly the semicolons among the words, for every chunking; the renamer is one simultaneous substitution that renames every statement and reference and leaves strings and comments alone, and the names for which it does |
| Data directory | `DataOwner`, `SqliteFile` | mutual exclusion with crashes, nested transactions are all or nothing |
| Protection | `Fingerprint`, `Protection` | three computations of one identity agree, exact next set of open incidents |

`Wrappers` holds the optional and result types, `Sequences` concatenation and stable sorting.

## How the source is modelled

Code that updates rows or variables in place is a class or a method with loops: `Store`, `Service`, `Scheduler`,
`ProtectionService`, `SqliteFile` and `DataDirectory` keep the tables and files as fields, and every method states its
whole new state through a specification function on values. The properties are then proved about those functions, as
invariants over lists of steps. Code made of expressions is a function.

- **Meaning.** `ExecutionMeaning`, `ExecutionLimits`, `CronFields`, `SqlLexemes`, `SqlDirectives` and `ZipFormat` say what
  the specification functions compute without using them: in terms of the rows, of spelled-out texts and of numbers.
- **Queue.** Tables are sequences of executions with their pairs and attempts. A row id is the position of the row.
  Each store method is one atomic step; `SqliteFile.Perform` says why that is justified. The clock is a parameter of
  every step, and a pump reads it again, `lag` later, for every attempt it starts. A worker ends in one step that
  stores the result and removes the worker, or in one in which storing fails and the service stops.
- **Time zones** are functions from instants to offsets, and `nextCron` is modelled for all of them: it considers the
  firing minutes whose offset one of its nine samples shows (`Cron.Hits`). `Cron.Visible` says that these are all firing
  minutes, and `Cron.MinutesAdvance` that no whole minute has an earlier local date than an instant before it.
  `Cron.Regular` zones, with offsets of whole minutes between -12 and +14 hours that last at least twelve hours, are
  visible (`Cron.RegularIsVisible`).
- **Schedules.** A state is the queue, the rows of `backup_jobs` and the events. Steps are committed and failed
  transactions of `runDue` and every other action of the queue; `Scheduler.RunDue` returns the run that it performs.
- **Archives.** `deflate` and `inflate` are parameters, and inverse where extraction needs it. Names are their UTF-8
  bytes. A 32-bit word is a sequence of 32 bits, least significant first.
- **SQL stream.** What is done with a piece of text is a parameter; the result is the one for the whole file if that
  function may be computed piece by piece at top-level terminators. The UTF-8 size of a text is a parameter too.
- **Renamer.** The pattern for strings and comments, the mask, the three patterns for names and the substitution are all
  modelled; a pattern is a function that does what backtracking does. The mapping is a list of entries. Case folding of
  characters beyond ASCII is a parameter.
- **Data directory.** Processes take one file operation per step, in any order; any operation may throw, a process may
  die between any two of them, and process ids are used again. Which process created the lock file is part of the
  model only.
- **Transactions.** The database is its exported image, a statement is a function on it, and a callback is a tree of
  calls with exceptions thrown and caught and choices that depend on the database.
- **Protection.** Assessments are given, one for each pair, as the primary keys guarantee. The hash is a parameter,
  injective where that matters.

## Where the code does not meet the obvious property

- The day-by-day search of `nextCron` can pass over a date that the clock is about to repeat
  (`Cron.SearchCanMissRepeatedDate`), or a minute whose offset no sample shows. It returns the least instant for every
  schedule and from every moment exactly when `Cron.MinutesAdvance` and `Cron.Visible` hold (`Cron.LeastExactlyWhen`, for
  offsets of less than a day), and in a regular zone exactly when `Cron.MinutesAdvance` does
  (`Cron.RegularLeastExactlyWhen`).
- A ZIP archive that the writer completes is not always readable: the reader has a limit of 32 MiB on the directory and
  refuses unsafe and repeated names. `Zip.RoundTrip` gives the exact condition; `a\b` and `a/b` are written and not
  listed, because both are stored as `a/b` (`Zip.AlikeNamesAreNotListed`).
- `rewritePitrSqlDatabases` can replace a quoted name across a string or comment, for example `a    b` across `/**/`
  (`SqlNames.BlankNameCanCoverComment`). When no blank of a source is followed by a blank, a carriage return or a line
  feed (`SqlNames.SingleBlanks`), no character of a string or comment changes, in any text
  (`SqlRename.ProtectedTextIsKept`). That condition is exact: over all divisions into parts of the form that the pattern
  allows for every name (`SqlNames.OnlyInCodeExactlyWhen`), and over the texts themselves for every name in which no
  string or comment begins (`SqlNames.PlainNamesExactly`).
- Memory and file part when saving throws after the rename and something has changed, and only then
  (`SqliteFile.AgreementIsExact`; one such statement is `SqliteFile.MemoryAndFileCanPart`).
- A run of a single-file schedule whose stored compression is none of `none`, `gzip` and `zip` is recorded as `gzip`, so
  it never counts for the schedule; otherwise it always does (`Fingerprint.IdentitiesAgree`; an input is
  `Fingerprint.UnknownCompressionIsLost`). No writer of the application stores such a compression: both functions that
  save a schedule normalise it (src/backup/backup.service.ts:347 and 365), so that the runs of every schedule saved by
  them count (`Fingerprint.SavedSchedulesAgree`). The column itself has no check.
- `runDue` stops counting missed occurrences at 10000. Over a run the count of a job equals the number of occurrences
  its next_run_at has passed exactly when no sweep of it was stopped so, and is less otherwise
  (`RunDue.EachOccurrenceOnce`).
- Day of month and weekday must both match in `nextCron`, unlike the `crontab` rule; the model follows the code.

## Model

| member | source | states |
|---|---|---|
| ExecutionStore.Store.StartAttempt | src/backup/execution.store.ts:28-44 | which of the four refusals applies, in the order of the checks; otherwise the attempt, pair and execution rows afterwards, and nothing else changed |
| ExecutionStore.Store.RequestCancellation | src/backup/execution.store.ts:45-55 | the whole table afterwards; an unknown execution is an error and a finished one is left alone |
| ExecutionStore.Store.FinishAttempt | src/backup/execution.store.ts:56-73 | the whole table afterwards, including retries, cancelled failures and the recomputed execution |
| ExecutionStore.Store.SummarisePairs | src/backup/execution.store.ts:68-70 | the loop-computed status equals the aggregate of the pairs' statuses |
| ExecutionStore.Store.Insert | src/backup/execution.service.ts:234-247 | an occurrence that was already admitted yields its row and changes nothing; otherwise one new row with the next sequence number, unless a pair is repeated |
| ExecutionInvariant.OneRunningAttempt | src/backup/execution.store.ts:36-39 | under the invariant a pair is running or cancel_requested iff one attempt is running, and that one is the last |
| ExecutionInvariant.FinishedIffPairsTerminal | src/backup/execution.store.ts:68-71 | under the invariant an execution is finished iff all pairs are terminal iff finished_at is set |
| ExecutionInvariant.FreshIsOk | src/backup/execution.service.ts:237-243 | an inserted execution satisfies the invariant |
| ExecutionInvariant.RunKeeps | src/backup/execution.store.ts:28-73 | every run of start, finish, cancel, note and priority steps keeps the invariant: attempts are numbered 1..n, only the last may run, statuses agree with attempts, the execution is the aggregate of its pairs |
| ExecutionInvariant.IssuedStays | src/backup/execution.store.ts:56-60 | a context handed out by startAttempt keeps naming the same attempt through every later step |
| ExecutionInvariant.LateFinishIsIgnored | src/backup/execution.store.ts:59-60 | once an attempt was finished, finishing it again changes nothing, whatever happened in between |
| ExecutionInvariant.StepUsesBudget | src/backup/execution.store.ts:28-73 | every start, finish or cancel that changes something strictly lowers a measure made of retry budget and phase |
| ExecutionInvariant.RunsAreBounded | src/backup/execution.store.ts:28-73 | the number of effective steps of any run is at most the measure at its start |
| ExecutionInvariant.AttemptsAreBounded | src/backup/execution.store.ts:64 | an execution makes at most the sum of retry_count + 1 attempts |
| ExecutionInvariant.NeverStuck | src/backup/execution.store.ts:28-73 | an unfinished execution always has a start or finish step that changes it |
| ExecutionInvariant.EndIsReached | src/backup/execution.store.ts:28-73 | every execution has a run of effective steps to a finished status, no longer than the measure |
| ExecutionInvariant.MaximalRunsEnd | src/backup/execution.store.ts:28-73 | no start or finish changes anything after a run exactly when it has finished the execution, and its effective steps are at most the measure |
| ExecutionInvariant.CancelTakesEffect | src/backup/execution.store.ts:45-55 | cancelling turns waiting pairs into not_started, active ones into cancel_requested, leaves the rest and their attempts, and is complete at once iff nothing was active |
| ExecutionInvariant.CancellationIsFinal | src/backup/execution.store.ts:33-73 | after cancellation no run of steps starts or reschedules an attempt, active pairs end only as success or cancelled, and the status is cancelled exactly when all pairs are terminal |
| ExecutionMeaning.StatusMeans | src/backup/execution.store.ts:68-70 | unless it is being cancelled, an execution has a status iff its pairs show it: success when all succeeded, partial_failure when all ended and some but not all succeeded, failed, interrupted, running, retrying and queued likewise; while cancelling nothing waits or runs |
| ExecutionMeaning.ReachableStatusMeans | src/backup/execution.store.ts:68-70 | so it is for every execution in every state a new installation reaches |
| ExecutionMeaning.FinishMeans | src/backup/execution.store.ts:59-67 | a failed attempt is retried, after retry_delay seconds, iff the attempts made do not exceed retry_count; every other result is final; a stopping attempt counts as cancelled unless it succeeded; no other pair changes |
| ExecutionMeaning.RetryStartsWhenDue | src/backup/execution.store.ts:33-41 | a pair in retry_wait starts from next_attempt_at on and not before |
| ExecutionMeaning.CancelMeans | src/backup/execution.store.ts:45-55 | cancelling an unfinished execution takes waiting pairs out and asks running ones to stop; one that has finished stays as it is |
| ExecutionMeaning.AdmissionMeans | src/backup/execution.service.ts:234-247 | an admission stores one queued execution with one queued pair for each request, with the columns of the request and the present group of its connection |
| ExecutionMeaning.AssignMeans | src/backup/execution.service.ts:38-61 | an accepted assignment puts exactly the named connections under the group, returns removed ones to the group of host and port, moves no connection with open work, and stores the concurrency, from 1 to 8 |
| ExecutionMeaning.QueueMeans | src/backup/execution.store.ts:22-24 | the queue lists the queued and retry_wait pairs of queued, running and retrying executions, by descending priority, then sequence, then row |
| ExecutionMeaning.NobodyIsOvertaken | src/backup/execution.service.ts:70-88 | a pump starts no pair past a due one of its group that has higher priority or was admitted earlier |
| Dispatcher.QueueOrder | src/backup/execution.store.ts:22-24 | the queue lists exactly the ready pairs, once each, by priority, sequence and row |
| Dispatcher.PassKeeps | src/backup/execution.service.ts:70-88 | startAttempt never throws when pump calls it, and the pass keeps the tables and the worker map consistent |
| Dispatcher.PassRespectsCaps | src/backup/execution.service.ts:73-85 | no start takes the workers above the limit or a group above min(limit, concurrency); existing excess is only not increased |
| Dispatcher.PassIsWorkConserving | src/backup/execution.service.ts:74-86 | after a pass every listed pair either runs or waits with a stored reason that is still true |
| Dispatcher.PassRespectsOrder | src/backup/execution.service.ts:74-86 | a pair is never started while an earlier due pair of its group on the list is not |
| Dispatcher.PumpIsWorkConserving | src/backup/execution.service.ts:70-88 | after pump every ready pair waits for its delay, for the full limit or for its full group, and its wait reason says which |
| Dispatcher.PumpRespectsOrder | src/backup/execution.service.ts:70-88 | within a group pump never starts a pair past an earlier-ordered due one |
| Recovery.RecoveryIsExact | src/backup/execution.service.ts:95-98 | from any reachable table: active pairs end as success iff their run was recorded as success and as interrupted or cancelled otherwise, no other pair changes, and the invariant holds |
| Recovery.NothingRuns | src/backup/execution.service.ts:95-98 | after recovery no attempt is running |
| Recovery.WaitingWorkSurvives | src/backup/execution.service.ts:95-98 | waiting pairs are untouched by recovery and can be dispatched |
| Recovery.RecoveryIsIdempotent | src/backup/execution.service.ts:89-99 | recovering again changes nothing |
| ExecutionWorld.RunAllKeeps | src/backup/execution.service.ts:15-128 | every sequence of pumps, worker endings, cancellations, configuration, regrouping, admissions, shutdowns and restarts keeps tables, workers and groups consistent |
| ExecutionWorld.ReachableIsOk | src/backup/execution.service.ts:15-128 | every state that a new installation reaches is consistent |
| ExecutionWorld.StepRespectsCaps | src/backup/execution.service.ts:70-88 | no step takes the workers or the members of a group above what they were or the limit then in force |
| ExecutionWorld.RunRespectsCaps | src/backup/execution.service.ts:22-88 | over a whole run neither exceeds both its first value and the highest limit in force at a pump of a service that was not stopped |
| ExecutionWorld.RegisteringIsInvisible | src/backup/execution.service.ts:23-31 | storing derived groups changes the group of no connection and the cap of no group |
| ExecutionWorld.AssignKeepsBusyGroups | src/backup/execution.service.ts:38-61 | a connection with unfinished work keeps its group through every accepted assignment |
| ExecutionWorld.ConnectionIsInOneGroup | src/backup/execution.service.ts:38-61 | all active pairs of a connection belong to its present group |
| ExecutionWorld.ConnectionCap | src/backup/execution.service.ts:38-88 | over runs that regroup it, the active pairs of a connection never exceed the highest cap its present group had at one of those pumps |
| ExecutionWorld.CancelledForGood | src/backup/execution.service.ts:119-127 | once an execution is cancelling, no sequence of any steps, restarts included, starts its work again, and it is cancelled exactly when its pairs are terminal |
| ExecutionLimits.PumpStaysWithin | src/backup/execution.service.ts:73-80 | a pump leaves at most the configured number of workers, where a setting below 1 counts as 1 and above 32 as 32, and in a group at most the concurrency of its row, 1 without one; or no more than there were |
| ExecutionLimits.PumpLeavesNothingDue | src/backup/execution.service.ts:77-81 | a pair left waiting waits for its delay, for that number of workers or for that number in its group |
| ExecutionLimits.ConfiguredLimitHolds | src/backup/execution.service.ts:22-88 | configuring n is accepted from 1 to 32, and no run without a further change takes the workers above n unless there were more before |
| ExecutionLimits.AssignedCapHolds | src/backup/execution.service.ts:38-88 | an assignment with concurrency k holds its group to k and to the setting over every run without a further change |
| ExecutionService.Service.Visit | src/backup/execution.service.ts:75-85 | one iteration of pump's loop: the wait reason written, or the attempt started and the worker added |
| ExecutionService.Service.Pump | src/backup/execution.service.ts:70-88 | the loop over the queue is the pump step of the model |
| ExecutionService.Service.EndWorker | src/backup/execution.service.ts:84 | the end of a worker is a finish step, or stops the service when storing fails |
| ExecutionService.Service.CancelExecution | src/backup/execution.service.ts:119-127 | refused exactly when work is running and stopping it was not confirmed; otherwise the cancel step |
| ExecutionService.Service.Configure | src/backup/execution.service.ts:22 | accepted exactly for limits from 1 to 32; the new limit, and nothing else changed |
| ExecutionService.Service.ReprioritiseExecution | src/backup/execution.service.ts:62-69 | accepted exactly for queued executions |
| ExecutionService.Service.SourceGroup | src/backup/execution.service.ts:23-31 | the group of a connection, and the rows it stores on the way |
| ExecutionService.Service.AssignGroup | src/backup/execution.service.ts:38-61 | accepted exactly when every condition of the source holds, with the whole new state; refused assignments change nothing |
| ExecutionService.Service.Enqueue | src/backup/execution.service.ts:182-200 | the admission step; fails exactly when a pair is repeated and the occurrence is new, and then changes nothing |
| ExecutionService.Service.Recover | src/backup/execution.service.ts:95-98 | the loop over running attempts is the restart step of the model |
| Calendar.DayNumberOfDate | src/backup/backup.utils.ts:41-46 | the closed form of Date.UTC counts the days of a calendar that advances day by day |
| CronFields.DateOfDayNumber | src/backup/backup.utils.ts:41-46 | every date of the calendar is the date of the day that the closed form gives |
| CronFields.WeekdaysFollow | src/backup/backup.utils.ts:47 | weekdays run from 0 to 6 in turn, with Thursday on 1 January 1970 |
| Cron.AllowedValues | src/backup/backup.utils.ts:13-30 | the list of a field holds exactly the values in range that the field allows, ascending |
| CronFields.RangeYields | src/backup/backup.utils.ts:19 | `a-b/step` stands for a and every step-th number behind it up to b, in range |
| CronFields.StarYields | src/backup/backup.utils.ts:18 | `*/step` stands for the multiples of step in range |
| CronFields.SingleYields | src/backup/backup.utils.ts:20 | a number stands for itself |
| CronFields.EveryYields | src/backup/backup.utils.ts:14 | `*` stands for the whole range |
| CronFields.CommaYields | src/backup/backup.utils.ts:15-21 | a list stands for what any of its parts stands for |
| CronFields.MalformedYieldsNothing | src/backup/backup.utils.ts:16-20 | a step below 1, and a step, bound or value that is no number, stand for nothing |
| CronFields.FiresWhen | src/backup/backup.utils.ts:43-60 | a schedule fires at the whole minutes at which the clock shows a date whose day, month and weekday, and a time whose hour and minute, it lists |
| Cron.ReadSchedule | src/backup/backup.utils.ts:25-33 | each of the two errors occurs exactly when its condition holds |
| Cron.SamplesFindOffset | src/backup/backup.utils.ts:48-52 | the nine samples around a day contain every offset in force on it |
| Cron.SampleOffsets | src/backup/backup.utils.ts:48-52 | the loop collects exactly the offsets that the nine samples show, in any zone |
| Cron.EarliestOn | src/backup/backup.utils.ts:53-63 | in any zone the nested loops return the first firing minute with a sampled offset of the local day after `from`, or none iff there is none |
| Cron.Search | src/backup/backup.utils.ts:40-65 | in any zone the day-by-day search returns the first firing minute with a sampled offset of the first local day that has one, or fails iff 2928 days have none |
| Cron.NextCron | src/backup/backup.utils.ts:24-66 | the whole function in any zone, with its three errors |
| Cron.SearchIsLeast | src/backup/backup.utils.ts:42-65 | where samples see every offset and dates do not go back at minutes, the result is the least firing instant after `from`, and failure means exactly that none lies within the horizon |
| Cron.LeastExactlyWhen | src/backup/backup.utils.ts:40-65 | with offsets of less than a day the search is least for every schedule and moment iff no minute has an earlier date than an instant before it and the samples see every offset |
| Cron.RegularLeastExactlyWhen | src/backup/backup.utils.ts:40-65 | in a regular zone the search is least for every schedule and moment iff no minute has an earlier date than an instant before it |
| Cron.RegularIsVisible | src/backup/backup.utils.ts:48-52 | in a regular zone the nine samples see the offset of every minute |
| Cron.RepeatedTimesFireTwice | src/backup/backup.utils.ts:43-43 | a repeated local time fires at both instants, and after the first the search returns the second at the latest |
| Cron.SkippedDays | src/backup/backup.utils.ts:53-63 | the search finds nothing on a matching day exactly when the clock jumps over every time of the schedule on it, and then returns an instant of another day |
| Cron.SearchCanMissRepeatedDate | src/backup/backup.utils.ts:40-63 | a zone that repeats a date, and a schedule for which the search is not least |
| RunDue.SweepOccurrences | src/backup/execution.service.ts:104-107 | the loop counts exactly the occurrences from next_run_at to now, or stops at 10000 of more; the next occurrence is the first after now |
| RunDue.OverlapsWhen | src/backup/execution.service.ts:108 | a skipping schedule is held back iff an execution of the job has a pair that waits, runs or is stopping |
| RunDue.MissedMeans | src/backup/execution.service.ts:110-111 | a new row lists as missed the occurrences from next_run_at to now, less the one it stands for unless it is a catch-up |
| RunDue.Scheduler.Admit | src/backup/execution.service.ts:110-112 | the admission step with the missed count written to the row of the occurrence; no other row changes, and a failure changes nothing |
| RunDue.Scheduler.RunJob | src/backup/execution.service.ts:103-115 | one committed transaction is a booking step of the model; if it throws nothing has changed and one of the listed causes holds |
| RunDue.Scheduler.TryJob | src/backup/execution.service.ts:103-117 | one iteration with its catch is a step of the model: a booking, or a failure that is on record |
| RunDue.Scheduler.RunDue | src/backup/execution.service.ts:100-118 | a call is a run of the model that keeps it consistent; a stopped service does nothing; afterwards every enabled job with next_run_at up to now has moved past now or has a failure on record, and other jobs are untouched |
| RunDue.BookedCounts | src/backup/execution.service.ts:108-114 | one booking adds exactly the swept occurrences to its own job, and adds no work while a skipping schedule has unfinished work |
| RunDue.BookKeepsWorld | src/backup/execution.service.ts:108-114 | a booking keeps tables, workers and groups consistent |
| RunDue.StepAccounts | src/backup/execution.service.ts:100-118 | every step keeps the state consistent and raises the count of each job by what its next_run_at passed, by less iff the bound stopped its sweep |
| RunDue.EachOccurrenceOnce | src/backup/execution.service.ts:100-118 | over every run of bookings, failures and other actions, the rows and events of a job count each occurrence its next_run_at has passed once: all of them exactly when the bound stopped no sweep of the job, fewer otherwise |
| RunDue.OtherStepsCountNothing | src/backup/execution.service.ts:62-128 | no other step of the queue changes what the rows of a schedule account for |
| Crc32.BuildTable | src/backup/backup.service.ts:61 | entry i of the table is eight polynomial steps from i |
| Crc32.Update | src/backup/backup.service.ts:750 | the table-driven loop is bit-by-bit polynomial division |
| Crc32.EightSteps | src/backup/backup.service.ts:750 | eight steps split into a table entry for the low byte and a shift, by linearity of the step |
| Crc32.ChunkingDoesNotMatter | src/backup/backup.service.ts:761 | updating chunk by chunk is updating with the concatenation |
| Crc32.OneChangedByteIsDetected | src/backup/backup.service.ts:750-762 | changing any one byte changes the checksum |
| ZipFormat.KnownChecksums | src/backup/backup.service.ts:61 | the checksums of nothing, of 0xff and of 0x7f are 0, 0xff000000 and 0x12b88320 |
| Zip.WriteMember | src/backup/backup.service.ts:756-762 | the bytes of one entry and its directory row; fails exactly when a name or a size does not fit |
| Zip.WriteZip | src/backup/backup.service.ts:751-767 | the bytes of the whole archive; succeeds exactly when every field holds its value |
| Zip.FieldsDescribe | src/backup/backup.service.ts:764 | the fields of a written directory header read back as the row it was made from, checksum included |
| ZipFormat.Signatures | src/backup/backup.service.ts:756-766 | the four kinds of records begin with PK and 0304, 0102, 0506 and 0708 |
| Zip.FindEndRecord | src/backup/backup.service.ts:775 | the backward search finds the last end record signature |
| Zip.ReadZipEntries | src/backup/backup.service.ts:774-780 | the reader with all its checks, in their order |
| Zip.EndOfArchive | src/backup/backup.service.ts:765-776 | in a written archive the first end record found from the back is the real one, and its three fields locate the directory |
| Zip.RoundTrip | src/backup/backup.service.ts:751-780 | reading a written archive lists its entries in order with names, sizes and offsets exactly when the directory is at most 32 MiB and every name is safe and new; otherwise the error is given |
| Zip.AcceptableNames | src/backup/backup.service.ts:777-778 | that condition in terms of the names: all safe and pairwise different |
| ZipFormat.SafeNames | src/backup/backup.service.ts:778 | a path is safe iff it neither begins nor ends with a slash, has no part that is one or two dots, no backslash, no zero and no drive letter |
| Zip.AlikeNamesAreRefused | src/backup/backup.service.ts:751-780 | a written archive in which two names are stored alike is never listed |
| Zip.AlikeNamesAreNotListed | src/backup/backup.service.ts:757-778 | two concrete names for which the writer succeeds and the reader fails |
| Zip.ExpectedAt | src/backup/backup.service.ts:778-779 | entry i of the listing is entry i of the input |
| Zip.ExtractionRestores | src/backup/backup.service.ts:781-866 | extracting an entry of a written archive returns its content, unless it exceeds the limit in force: for a manifest (lines 781-790) and for a file (line 866) |
| SqlStream.LastSqlStatementBoundary | src/backup/backup.service.ts:1348-1374 | the scanner returns the end of the last top-level terminator, or 0 iff there is none |
| SqlLexemes.CutsAreSemicolonsAmongWords | src/backup/backup.service.ts:1348-1374 | in a text of words, strings and comments the terminators are exactly the semicolons among the words |
| SqlLexemes.StringHasNoCut | src/backup/backup.service.ts:1358-1366 | no terminator lies in a string, whatever its quotes and however they are escaped, and behind it the cuts are those of the rest |
| SqlLexemes.LineHasNoCut | src/backup/backup.service.ts:1356 | the same for a comment up to the end of its line |
| SqlLexemes.BlockHasNoCut | src/backup/backup.service.ts:1357 | the same for a block comment |
| SqlLexemes.WordsAreCutAtSemicolons | src/backup/backup.service.ts:1367-1371 | where neither a string nor a comment begins every semicolon is a terminator and nothing else is |
| SqlLexemes.OpenStringHasNoCut | src/backup/backup.service.ts:1358-1366 | a string that is never closed hides everything behind it |
| SqlLexemes.LastLineHasNoCut | src/backup/backup.service.ts:1356 | the same for a comment on the last line |
| SqlLexemes.OpenBlockHasNoCut | src/backup/backup.service.ts:1357 | the same for a block comment that is never closed |
| SqlStream.PrefixStable | src/backup/backup.service.ts:1353-1372 | a scan that lacks lookahead finds the same terminators as one that sees more |
| SqlStream.Restarts | src/backup/backup.service.ts:1340-1341 | behind a terminator a fresh scan finds exactly the remaining terminators |
| SqlStream.CarryIsEnough | src/backup/backup.service.ts:1336-1341 | scanning carry and chunk finds the last terminator of everything read so far |
| SqlStream.PieceByPiece | src/backup/backup.service.ts:1391 | a function that distributes over top-level terminators may be applied to the pieces |
| SqlStream.RewritePitrSqlFile | src/backup/backup.service.ts:1375-1394 | for every chunking: rejected exactly when some unfinished statement exceeds the limit; otherwise the pieces end at top-level terminators of the whole input and the output is the rewriting of the whole input |
| SqlStream.ValidatePitrSqlFile | src/backup/backup.service.ts:1333-1347 | accepted exactly when no unfinished statement exceeds the limit and the whole input is valid, for every chunking |
| SqlParts.DivideIsExact | src/backup/pitr.utils.ts:100-103 | dividing a text into code, strings, comments and executed comments loses nothing, and every part has the form the pattern gives it |
| SqlParts.CodeMaskIsExact | src/backup/pitr.utils.ts:102-109 | the mask has the length of the text, the text's character at every code position and a blank at every other |
| SqlLexemes.StringIsMasked | src/backup/pitr.utils.ts:100-108 | a string is masked as a whole, however its quotes are escaped, and what follows it like any text |
| SqlLexemes.LineIsMasked | src/backup/pitr.utils.ts:100-108 | so is a comment behind `#`, or behind two dashes and a blank or tab, up to the end of the line |
| SqlLexemes.BlockIsMasked | src/backup/pitr.utils.ts:100-108 | so is a block comment that is not executed |
| SqlLexemes.ExecutedIsSearched | src/backup/pitr.utils.ts:105-107 | of an executed comment the opening and the end are masked, and its inside like any text |
| SqlParts.LoneIsBeforeLineEnd | src/backup/pitr.utils.ts:100 | the only part that leaves a single blank between code is a bare `#` at the end of its line |
| SqlNames.FoundInCode | src/backup/pitr.utils.ts:100-116 | a name without adjacent blanks, and without blanks at a line end, found in the mask stands in the text, entirely in code |
| SqlNames.CapturedInCode | src/backup/pitr.utils.ts:111-133 | so does whatever one of the three patterns captures, up to case |
| SqlNames.OnlyInCodeExactlyWhen | src/backup/pitr.utils.ts:98-125 | over all divisions into well-formed parts and all positions, the pattern for the quoted name matches only in code iff no blank of the name is followed by a blank or a line end |
| SqlNames.PlainNamesExactly | src/backup/pitr.utils.ts:98-125 | the same over all texts, with the condition sufficient for every name and exact for names in which no string or comment begins |
| SqlNames.NothingIsMissed | src/backup/pitr.utils.ts:115 | wherever a pattern matches, a match that the loop sees covers the place |
| SqlNames.BacktickDoubled | src/backup/pitr.utils.ts:99 | quoting a name doubles its backticks and changes nothing else |
| SqlNames.BlankNameCanCoverComment | src/backup/pitr.utils.ts:100-125 | a concrete name and text in which the pattern matches across a comment |
| SqlRename.EditCoversCapture | src/backup/pitr.utils.ts:114-121 | an edit covers exactly the captured text at the end of its match |
| SqlRename.SortedIsPermutation | src/backup/pitr.utils.ts:134 | sorting keeps the edits and orders them by descending start |
| SqlRename.EqualStartsKeepOrder | src/backup/pitr.utils.ts:134 | edits with equal starts keep the order in which they were collected |
| SqlRename.RewriteFromTheRight | src/backup/pitr.utils.ts:134-142 | the right-to-left loop equals one left-to-right substitution of the chosen edits |
| SqlRename.AddEdits | src/backup/pitr.utils.ts:114-121 | the loop over the matches of one pattern appends their edits |
| SqlRename.EditsStand | src/backup/pitr.utils.ts:122-133 | every edit lies in the text and replaces the name of a source, as a pattern recognises it, by the quoted destination |
| SqlRename.RewritePitrSqlDatabases | src/backup/pitr.utils.ts:111-143 | the whole function, from text and mapping to text, is one left-to-right substitution |
| SqlRename.RenamesAreInCode | src/backup/pitr.utils.ts:111-143 | with single blanks in the sources every edit carried out lies in code, where the text itself has the name |
| SqlRename.ProtectedTextIsKept | src/backup/pitr.utils.ts:111-143 | then no character of a string or comment changes; it only moves |
| SqlRename.ReferencesAreRenamed | src/backup/pitr.utils.ts:124-142 | every qualified reference is covered by an edit to its destination that is carried out, or overlaps one that is |
| SqlDirectives.WholeStatement | src/backup/pitr.utils.ts:123-141 | USE, CREATE, ALTER and DROP DATABASE, in any case and with any white space, with or without IF [NOT] EXISTS, quoted or bare, come out with the new name and otherwise unchanged |
| SqlDirectives.StatementIsRenamed | src/backup/pitr.utils.ts:123-141 | wherever such a statement begins in the code of a text an edit to exactly its name is carried out, or overlaps one that is |
| SqlDirectives.WholeReference | src/backup/pitr.utils.ts:123-141 | a name in front of a dot comes out with the new name and otherwise unchanged |
| SqlDirectives.ReferenceIsRenamed | src/backup/pitr.utils.ts:123-141 | wherever a name stands in front of a dot in the code of a text it is covered by an edit that is carried out, or overlaps one that is |
| SqlRename.ChosenEdits | src/backup/pitr.utils.ts:137-140 | the chosen edits are disjoint edits of the list, and every other edit overlaps a chosen one |
| SqlRename.OutsideIsKept | src/backup/pitr.utils.ts:139 | text outside the edits is unchanged and moved by the length differences before it |
| SqlRename.ReplacementsArePut | src/backup/pitr.utils.ts:139 | every replacement appears whole where its range has moved to, and is not rewritten again |
| SqlRename.RoundTrip | src/backup/pitr.utils.ts:111-143 | substituting the replaced texts back restores the original |
| DataOwner.MutualExclusion | src/database/data-owner.ts:7-38 | in every interleaving with crashes, failing operations and reused process ids at most one live process owns the directory, and the lock file holds its id and token |
| DataOwner.NobodyElsesFile | src/database/data-owner.ts:23-36 | no step of a process removes or changes the lock file of another live one |
| DataOwner.OwnerExcludes | src/database/data-owner.ts:19-25 | while one process owns the directory no other has created a lock file |
| DataOwner.AbandonedForEver | src/database/data-owner.ts:12-14 | an abandoned gate stays, and no process becomes owner behind it |
| DataOwner.AbandonedWhen | src/database/data-owner.ts:15-28 | a gate is abandoned exactly when its process dies behind it or cannot remove it |
| DataOwner.AcquireAlone | src/database/data-owner.ts:8-28 | left alone, acquire succeeds exactly when there is no gate and no lock file, or one whose readable owner is dead |
| DataOwner.ReleaseFrees | src/database/data-owner.ts:30-36 | the owner's own check never fails, and release removes the lock file |
| DataOwner.DataDirectory.Acquire | src/database/data-owner.ts:8-37 | the body of acquire, with any set of failing operations, performs exactly the steps of the model |
| DataOwner.DataDirectory.Release | src/database/data-owner.ts:30-35 | the release function performs the two release steps, and does nothing once released |
| SqliteFile.SqliteFile.Persist | src/database/database.service.ts:51-71 | the file afterwards for each way in which saving can end |
| SqliteFile.SqliteFile.Execute | src/database/database.service.ts:30-32 | a failing statement leaves nothing behind, although it may have changed something |
| SqliteFile.SqliteFile.Transaction | src/database/database.service.ts:33-50 | the result, the memory, the file and the depth after one transaction at any depth |
| SqliteFile.SqliteFile.Perform | src/database/database.service.ts:16-50 | for every tree of nested work the memory is the fold of the surviving statements; the file only changes at an outermost commit |
| SqliteFile.FailedWorkNeverRan | src/database/database.service.ts:36-49 | taking every failed transaction out of the work changes neither the database nor the outcome, and then no call fails |
| SqliteFile.MemoryIsOnDisk | src/database/database.service.ts:42-67 | with no transaction open memory and file agree, also when saving fails before the rename |
| SqliteFile.AgreementIsExact | src/database/database.service.ts:42-70 | exactly when one outermost transaction makes memory and file differ |
| SqliteFile.MemoryAndFileCanPart | src/database/database.service.ts:42-70 | one statement and one failed save after which memory and file differ |
| SqliteFile.NestedWorkIgnoresDisk | src/database/database.service.ts:42 | the outcome of nested work does not depend on how saving would end |
| Fingerprint.CanonicalIsTheSet | src/backup/execution.types.ts:41 | two lists of names have the same canonical form iff they are the same set, and the form is stable |
| Fingerprint.FingerprintMeans | src/backup/execution.types.ts:40-45 | two configurations match iff scope, names (unless all), layout, objects, insert mode, compression and encryption agree |
| Fingerprint.SelectionOrderDoesNotMatter | src/backup/execution.types.ts:48-54 | order and repetition of the selected names do not change the snapshot |
| Fingerprint.SnapshotOfSaved | src/backup/execution.types.ts:48-54 | the snapshot of a saved schedule is what was asked for, with the defaults for choices that do not exist |
| Fingerprint.ObjectsByDefault | src/backup/execution.types.ts:52-53 | objects that are not mentioned are dumped, except that a dump by tables keeps triggers only |
| Fingerprint.SplitReadsList | src/backup/execution.types.ts:50 | names written with commas and white space between them are read back in order |
| Fingerprint.IdentitiesAgree | src/backup/protection.service.ts:26-38 | identities at enqueue, in the policy and recovered from a run's columns agree, the last exactly when the stored compression is one a run knows; the columns of a run that stopped early match nothing |
| Fingerprint.SavedSchedulesAgree | src/backup/backup.service.ts:338-356 | the own runs of every schedule the application saves count for it |
| Fingerprint.UnknownCompressionIsLost | src/backup/protection.service.ts:26-38 | a concrete row with an unknown compression whose runs do not count |
| Fingerprint.OldRunsAfterChange | src/backup/protection.service.ts:65-73 | after a change of the schedule its old runs count iff the change does not touch the identity |
| Protection.ProtectionService.Examine | src/backup/protection.service.ts:81-92 | one check of one assessment: which incident it opens, with which event, and which it keeps |
| Protection.ProtectionService.EvaluateIncidents | src/backup/protection.service.ts:75-103 | the two loops produce the rows and events of the specified step |
| Protection.NextOpenSet | src/backup/protection.service.ts:75-103 | open afterwards are exactly the required and bad keys, the open ones that are required and paused or unknown, and the open ones whose required pair is invalid |
| Protection.OpenWhen | src/backup/protection.service.ts:75-103 | the same in terms of the assessed signals: stale, missed and long raise, paused and unknown keep, an invalid configuration keeps |
| Protection.StaysUnique | src/backup/protection.service.ts:82-91 | at most one open incident for each key |
| Protection.EventsBalance | src/backup/protection.service.ts:88-100 | opened minus closing events is the change in the number of open incidents |
| Protection.RunsKeep | src/backup/protection.service.ts:75-103 | over any run: uniqueness, the balance of events, and rows and events that are never rewritten once closed or logged |
| Protection.SecondEvaluationIsSilent | src/backup/protection.service.ts:75-103 | evaluating the same assessments again changes nothing and emits nothing |
| Protection.ReasonsAreTrue | src/backup/protection.service.ts:98-100 | each reported reason holds exactly when the assessments say so |

## Left out

- Dump and restore tools, mysql2, SQL.js, storage providers, HTTP, server-sent events and the user interface: I/O.
- Encryption, and the inside of the hash, deflate and inflate.
- `assess`: how freshness, missed start and long-running are decided from runs and pairs; the incident step takes its result.
- Authorisation checks (`actor`) and audit events other than those of the incident policy and of `runDue`.
- Cleanup warnings, error messages and stages stored with attempts and executions.
- Connection host edits (`saveConnection`): its guard omits cancel_requested, so the cap for a connection is claimed for group assignments only.
- The branch of `recover` for pairs of `connection:` groups: it updates a pair without recomputing its execution.
- The interval between storing a result and removing its worker; completion is one step.
- The pump at the end of cancel, configure, assignGroup and runDue, and the timer: a pump is a step of its own that may come at any time.
- The setting of the concurrency limit is an integer or absent; texts that are not whole numbers are not modelled.
- `retry` and `retryHistoricalRun`: their admission is the same insert step with other pairs.
- Pagination, listing and queue positions (`get`, `list`).
- Cron fields are given split at blanks, commas, slashes and hyphens, with each number read as an integer or not a number; fractional numbers are not modelled.
- Time zones are functions; the formatter is assumed to print the date and time that the offset gives.
- RunDue.EachOccurrenceOnce: jobs hold a next_run_at that their own expression fires at, which is how the source stores it, and a time zone in which `nextCron` is least.
- RunDue.Scheduler.RunDue: edits of a schedule (`saveJob` and its newer form write next_run_at anew, src/backup/backup.service.ts:356 and 365) and its deletion are not steps of the runs.
- SqlRename.RewritePitrSqlDatabases: no agreement between the renamer's strings and comments and those of the stream scanner is claimed.
- SqlDirectives.StatementIsRenamed: for sources without a semicolon, and not for a bare `if` without a condition, where the words that follow may be read as one; `SqlDirectives.WholeStatement` has neither restriction.
- SqlNames.PlainNamesExactly: for names that hold a quote, `#`, `--` or `/*` and also adjacent blanks, whether a text exists that matches across a string or comment is decided for divisions into parts only.
- SqlStream.RewritePitrSqlFile: whether the real renamer may be computed piece by piece is not claimed; the equality with the whole file is for functions that may.
- SqlStream: characters are code units, and decoding of UTF-8 across chunks is the decoder's.
- DataOwner: processes that cannot see each other's process ids, such as other containers, and the directory's real path.
- SqliteFile: data flow from a callback's result, and the directory sync after the rename, whose failure is ignored by the source.
- Protection: the order of closing events follows the rows, which the query leaves open; evidence and timestamps inside payloads are not modelled.
- Fingerprint: runs without an execution context, and databases filtered out as virtual.
- `acquireWorkClaim`, sessions and users, capacity estimates, asset caching, notifications and the tool installer.
