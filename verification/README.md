# VaultGuard: verified models of backup runs, archives and state machines

Dafny models of the parts of VaultGuard in which interleaving, unbounded input or nested
encodings decide whether a backup can be trusted, with proofs of what they keep.

- **Backup runs.** The run table is changed by users, the scheduler, retries, claiming
  agents, status reports and the health monitor. `RunServer` has one step function per
  database statement; where a handler reads a row and compares and sets it later, these are
  two steps, and anything may come between. An execution is any sequence of steps.
  `RunEffects` says field by field what each step writes and exactly when, `RunHistory`
  holds the theorems about executions, `RunHandlers` the handlers and loops as methods of a
  class proved to perform those steps. `RunProtocol` joins the server to the polling agents
  and the object store, `RunMoves` says what each move of an agent does, `RunRecord` what a
  COMPLETED run records, and `CancelWindow` which cancels cost a finished backup its object.
  `Cron` is the arithmetic of tick windows.
- **Binary formats.** `Crypto` is the chunked encrypted container VG01, `MongoNative` the
  Mongo archive VGM1 and `MongoIndex` the index specs in it: writers and readers as loops,
  proved against a description of the format, and the round trips of the format.
- **Files.** `Filesystem` is the pruned walk that makes an entry list from a tree, and the
  extraction that makes a tree from an entry list; `RestoreEffects` says what an entry and
  a whole restore leave on the disk; `FilePatterns` is the include and exclude patterns.
- **Limits, credentials, alerts.** `RateLimit` is the sliding window filtered in place,
  `RefreshTokens` the token families with reuse detection, `Enrollment` the single-use
  tokens, `Alerts` the coalescing of alerts. The last three are state machines of
  transactions with row locks, rollbacks and lost races; `RefreshEffects`,
  `EnrollmentEffects` and `AlertEffects` say what each of their steps writes and exactly
  when, and where a run that nobody disturbs leads to.
- **Text.** `MongoExport` and `MongoCsv` are the JSON and CSV dumps with their replay in
  batches, `BsonJson` says which documents a JSON dump keeps, `CsvText` is the text that
  the CSV writer and reader exchange, `ExportCsv` the client's CSV writer against a reader
  of RFC 4180, `Schedule` the cron builder and reader of the client, and `CronMeaning` what
  the scheduler makes of cron text.

`dafny verify dfyconfig.toml` checks everything. Each module declares what it takes from
outside as a law it assumes of a parameter: `AeadLaw` (opening undoes sealing, a tag is 16
bytes), `CodecLaw` (decoding undoes encoding), `JsonLaw` (decoding undoes encoding up to
what relaxed extended JSON forgets, except for documents that are written like values of
another type; a marker line is probed as JSON reads it), `BsonLaw` (what is forgotten and
what is written so, for BSON), `NextLaw` (the cron library returns the least firing instant
after its argument, or the zero time when there is none before its limit), `EveryLaw` (for
an interval schedule it adds the interval), `TotalOrder` (string order); SHA-256 and the
shell-style match are arbitrary functions.

## Assumptions about atomicity

- A cancel reads the row and writes it without a guard (server/internal/handlers/backup_run.go:92-120): one step.
- A same-status report overwrites the counters without a guard (server/internal/handlers/backup_run.go:201-211): one step with its read.
- Run Now, retries and firings count runs in flight and then insert (server/internal/handlers/backup_job.go:422-444, server/internal/services/scheduler.go:157-291): one step each. The unique index on job and boundary is part of the firing.
- A monitor pass lists stale runs, looks at the agent of each and then writes with a guard on the status (server/internal/services/health_monitor.go:146-177): three steps, between which anything may come.
- A claim, an acknowledgement, a resolve and a prune are single guarded statements.
- Transactions run at read committed isolation. A row they lock or write stays locked to their end; a statement sees what was committed when it started, and looks again at rows it had to wait for.
- Requests, monitor passes and agents may stop at any point and be answered late or never.

## Where the code and its promises differ

- The comment at agent/internal/agent/runner.go:446-448 says that every progress report is answered with the cancel flag. A same-status report is answered without it (server/internal/handlers/backup_run.go:201-214), so while a backup runs only the push channel tells the agent.
- A cancel that comes after the VERIFYING report is answered and before the COMPLETED report is written is not noticed in time: the run is recorded COMPLETED and the agent then deletes its object (`CancelWindow.CompletedRunWasCancelledIff`, `CancelWindow.WindowLosesTheObjectIff`).
- The comment at server/internal/services/health_monitor.go:131-134 says that a fresh heartbeat and recent progress keep a run from being failed. They do when the monitor reads them; what comes between its look and its write is not seen (`RunHistory.LateHeartbeatExample`).
- Status reports do not refresh the agent's last-seen time, which the monitor consults (`RunHistory.ReportsDoNotTouch`); only writes to the row keep a busy run from being failed.
- One tick can create two runs for a job when its retry ends before the boundary is fired (`RunHistory.DisturbedTickExample`).
- When a schedule has no firing for as long as the cron library looks ahead it returns the zero time, which passes for a due boundary (`Cron.BoundaryStraysIff`).
- The scheduler's parser takes interval schedules ("@every", server/internal/services/scheduler.go:36-38), which the library counts from the instant it is asked about; with ticks closer than the interval they never come due (`Cron.EveryReportsIff`).
- The client reads weekday 7 as Sunday (client/src/utils/schedule.ts:116-121); the scheduler's parser knows the days 0 to 6, refuses the expression and skips the job (server/internal/services/scheduler.go:125-131; `CronMeaning.SundayAsSevenExample`). The client also trims what it reads, while a job's expression is stored and parsed as it was sent (server/internal/handlers/backup_job.go:259-268): a descriptor with a blank beside it, or fields with a byte order mark, are shown as a schedule and never run (`CronMeaning.ReadAsMeantIff`, `CronMeaning.BlankDailyExample`).
- An encrypted file cut at a frame boundary is accepted (`Crypto.TruncationIsDetectedUnlessOnBoundary`): nothing in the file says how many frames follow. Nor does it compare the nonces with the header's prefix or with each other, so frames in another order decrypt in that order (`Crypto.AcceptedIff`).
- The comment at agent/internal/agent/backup.go:39-42 says that "*.log" matches "sub/dir/app.log". It does, but the walk prunes sub first (`FilePatterns.LogPatternExample`).
- The limiter reads the clock before it takes the lock, so its order of readings is not the order of its decisions (`RateLimit.StaleReadingExample`), and an attempt exactly one window old no longer counts (`RateLimit.ClosedWindowExample`).
- Reuse of a revoked refresh token does not end the session when a rotation of the family commits during the revocation (`RefreshTokens.ReuseRaceExample`), and a logout with a token that has been rotated leaves its successor in force (`RefreshTokens.LogoutEndsFamilyIff`).
- An alert acknowledged and pruned between the lookup and the bump of a second raise loses that occurrence (`Alerts.LostBumpExample`).
- In a CSV dump an empty record, a record of one empty cell, and a header or row that looks like a marker are lost (`MongoCsv.CsvReplaysDeliveredIff`), and a CR-LF inside a cell comes back as LF (`MongoCsv.CsvReplaysExactlyIff`).
- In a JSON dump a document with a string field named like the marker, in any letter case, is taken for one, and a collection whose name Go quotes in a way that is not JSON fails to restore (`MongoExport.JsonReplaysRelaxedIff`, `MongoExport.BellNameExample`). A 64-bit integer that fits 32 bits comes back as a 32-bit one and text that is no UTF-8 comes back mended; an embedded document whose first key stands for a type, such as "$oid", comes back as a value of that type or ends the restore (`BsonJson.JsonKeepsDocumentsIff`, `BsonJson.OidKeyExample`).
- A restored Mongo index keeps its key, name, uniqueness, sparseness and expiry; other options are dropped (`MongoIndex.SplitSpec`).
- The client's CSV export of a table with an empty row is not read back as written (`ExportCsv.ExportReadsBackIff`).

## Model

| member | source | states |
|---|---|---|
| BackupRun.PathIsShort | server/internal/models/backup_run.go:64-76 | a chain of legal status transitions visits at most five statuses, none twice, and only the last can be terminal |
| BackupRun.LivesAre | server/internal/models/backup_run.go:64-76 | the lives of a run are exactly: the happy path up to any point, a cancel after any of its stages but the last, a failure after any but the first and the last |
| RunServer.StepTable | server/internal/handlers/backup_run.go:92-274 | every step of any actor leaves the table as it was, moves one row along one legal transition, or adds one pending run of an idle job at a new boundary or as a retry of the job's newest, failed run |
| RunServer.ExecInv | server/internal/services/scheduler.go:157-291 | over all interleavings: open requests fit their rows, one run in flight per job, boundaries fired once, retry chains well formed |
| RunHistory.FinishedRunsAreSealed | server/internal/handlers/backup_run.go:196-274 | a terminal run never changes again: status, counters, checksum, path, error and times |
| RunHistory.StatusWritesAreTransitions | server/internal/models/backup_run.go:64-76 | in every execution each status write of a run is a legal transition and a run changes status at most four times |
| RunHistory.ClaimedOnceByItsOwnAgent | server/internal/handlers/agent_work.go:226-242 | a run is granted to at most one claim, and only to the agent it was created for |
| RunHistory.JobsRunOneAtATime | server/internal/handlers/backup_job.go:419-444 | across ticks, retries and Run Now a job has at most one run in flight, no two runs carry the same boundary, and no run is retried twice |
| RunEffects.FiringAddsIff | server/internal/services/scheduler.go:235-291 | a firing adds one run, carrying its boundary, exactly when every run of the job has ended and none has that boundary; otherwise it does nothing |
| RunEffects.BoundaryFiresOnce | server/internal/services/scheduler.go:235-291 | in every execution, of all firings of a boundary for a job at most one adds a run |
| RunEffects.RetryAddsIff | server/internal/services/scheduler.go:157-214 | a retry is made exactly when one is due: policy enabled, job idle, its newest run failed with attempts left and ended at least the delay ago; it points at that run and counts one attempt more |
| RunEffects.RunNowAddsIff | server/internal/handlers/backup_job.go:419-444 | Run Now adds one plain run exactly when the job is idle |
| RunEffects.ClaimStartsIff | server/internal/handlers/agent_work.go:213-242 | a claim starts exactly a pending run of the claiming agent and stamps its start; every claim is a sign of life |
| RunEffects.CancelFlags | server/internal/handlers/backup_run.go:92-120 | a cancel ends a pending run, flags a busy one and leaves a finished one alone |
| RunEffects.ReportBegins | server/internal/handlers/backup_run.go:156-234 | which reports open a request, which overwrite the three counters and nothing else, and which do nothing |
| RunEffects.ReportIsWrittenIff | server/internal/handlers/backup_run.go:234-274 | a request is written exactly when the status it read is still there, and then puts every reported value into the row and stamps the end of a completed or failed run |
| RunEffects.AnswerCarriesFlag | server/internal/handlers/backup_run.go:274-300 | the answer carries the cancel flag as it is after the write |
| RunEffects.ListingOpensIff | server/internal/services/health_monitor.go:146-152 | the monitor lists exactly the claimed runs that were not written for 15 minutes |
| RunEffects.LookJudgesIff | server/internal/services/health_monitor.go:153-159 | it takes exactly the enrolled agents for gone that were not seen for 3 minutes |
| RunEffects.MonitorWritesIff | server/internal/services/health_monitor.go:160-177 | it ends a run exactly when its status is still the one listed, and keeps its counters, path and checksum |
| RunHistory.RetriesWereDue | server/internal/services/scheduler.go:157-214 | behind every retry is a scheduler step entitled to make it: attempt within MaxRetries then in force, parent the job's newest run and FAILED, the delay elapsed since it ended |
| RunHistory.ChainsAreBounded | server/internal/services/scheduler.go:157-214 | the retries that led to a run form one chain of failed runs of its job, as long as its attempt number says |
| RunHistory.TickCreatesAtMostOne | server/internal/services/scheduler.go:64-99 | one tick, undisturbed, adds at most one run to a job |
| RunHistory.DisturbedTickCreatesTwo | server/internal/services/scheduler.go:157-291 | with anything between retry and firing, the tick adds a second run if and only if every run the job has got since the retry, that one included, has ended, and the boundary was not fired before |
| RunHistory.DisturbedTickExample | server/internal/services/scheduler.go:64-99 | an execution in which one tick adds two runs to a job: the retry is cancelled before the boundary is fired |
| RunHistory.MonitorEndsOnlyStaleRuns | server/internal/services/health_monitor.go:146-177 | the monitor ends a run only if its row had not been written for 15 minutes when listed and its agent not seen for 3 minutes when it was then looked at, and its status is still the one listed; CANCELLED if a cancel was pending at the listing, else FAILED |
| RunHistory.LateHeartbeatExample | server/internal/services/health_monitor.go:146-177 | an execution in which the agent is heard of after that look and its run is failed all the same |
| RunHistory.ReportsDoNotTouch | server/internal/handlers/backup_run.go:156-274 | no status report refreshes the agent's last-seen time that the monitor judges by |
| RunHandlers.RunStore.CountInFlight | server/internal/services/scheduler.go:161-173 | the count of in-flight runs is positive exactly when the job is busy, and at most one |
| RunHandlers.RunStore.RunNow | server/internal/handlers/backup_job.go:419-444 | Run Now adds a run exactly when the job is idle |
| RunHandlers.RunStore.FindLatest | server/internal/services/scheduler.go:174-182 | finds the newest run of a job |
| RunHandlers.RunStore.MaybeFire | server/internal/services/scheduler.go:157-214 | the retry handler performs the retry step |
| RunHandlers.RunStore.Fire | server/internal/services/scheduler.go:235-291 | the firing handler performs the firing step, guard and unique index included |
| RunHandlers.RunStore.Claim | server/internal/handlers/agent_work.go:213-242 | claiming is a compare-and-set that succeeds exactly for a pending run of the claiming agent |
| RunHandlers.RunStore.Cancel | server/internal/handlers/backup_run.go:92-120 | cancelling performs the cancel step |
| RunHandlers.RunStore.BeginReport | server/internal/handlers/backup_run.go:156-234 | the first half of a status report: validation, the same-status heartbeat, or a request left open |
| RunHandlers.RunStore.CommitReport | server/internal/handlers/backup_run.go:234-274 | the guarded write of a status report |
| RunHandlers.RunStore.CheckStaleRuns | server/internal/services/health_monitor.go:146-177 | a monitor pass ends exactly the runs that are stale and whose agent is gone, touches nothing else, and leaves the table that those steps leave |
| RunHandlers.PassIsItsSteps | server/internal/services/health_monitor.go:146-177 | a whole pass, as all listing steps followed by look and guarded write for each listed run in the interleaved model, ends exactly the stale runs of lost agents and leaves no handler of its own open |
| RunHandlers.TickAddsOnePerJob | server/internal/services/scheduler.go:64-99 | over all jobs of a tick: at most one new run per job, none for other jobs, old rows untouched |
| RunHandlers.Scheduler.Tick | server/internal/services/scheduler.go:64-99 | the tick loop performs the retry and firing steps job after job and moves the window on even when listing fails |
| RunProtocol.ReachableWorldsAreOk | agent/internal/agent/runner.go:405-682 | an invariant of agents, server and object store over all runs of the joint system, with lost, late and abandoned requests |
| RunProtocol.CompletedRunHasItsObject | agent/internal/agent/runner.go:601-682 | in every reachable state a COMPLETED run without a cancel request has its object, of the recorded size, hashing to the recorded checksum if the store kept what it was given |
| RunRecord.CompletedRunRecordsItsBackup | agent/internal/agent/runner.go:515-669 | in every reachable state the row of a COMPLETED run records what two moves made: the counters of the one that produced its archive, the path of the one that uploaded it, and size and checksum of that archive |
| RunMoves.TrustedGoesOn | agent/internal/agent/runner.go:626-646 | after the upload an executor goes on exactly if the object is there, has the right size and carries no other checksum |
| RunMoves.UntrustedEnds | agent/internal/agent/runner.go:626-646 | otherwise it reports FAILED, and deletes an object that is there |
| RunMoves.ClosingReport | agent/internal/agent/runner.go:654-669 | the closing reports are UPLOADING, VERIFYING and COMPLETED and carry counters, size, path and checksum |
| RunMoves.AnswerMovesOn | agent/internal/agent/runner.go:670-681 | an answer stops the executor exactly if it carries a cancel or a nudge about one came first |
| RunMoves.EchoGoesOn | agent/internal/agent/runner.go:654-681 | a closing report of a status the run has already moves the executor on |
| RunMoves.CancelledDrops | agent/internal/agent/runner.go:674-681 | told to cancel it deletes the object, if the store lets it, and reports CANCELLED |
| RunMoves.EarlyEnds | agent/internal/agent/runner.go:405-570 | before the upload a cancel that is seen ends the run as CANCELLED and an error as FAILED |
| RunMoves.UploadStores | agent/internal/agent/runner.go:596-620 | an upload leaves what the store kept under the run, and one that fails ends the run as FAILED |
| RunMoves.OutOfTurnIsNothing | agent/internal/agent/runner.go:405-681 | an executor makes each move in its own phase only |
| CancelWindow.CompletedRunWasCancelledIff | agent/internal/agent/runner.go:601-682 | in every reachable state a COMPLETED run has a cancel request if and only if some cancel of it came while it was VERIFYING and after its VERIFYING report had been answered |
| CancelWindow.CompletedRunLosesItsObjectIff | agent/internal/agent/runner.go:661-681 | in every reachable state the object of a COMPLETED run is missing only if a cancel came in that window, and exactly then once its executor heard its last answer and no delete failed |
| CancelWindow.WindowLosesTheObjectIff | agent/internal/agent/runner.go:661-681 | from every reachable state in that window the object can come to be lost if and only if the executor is still between its reports, and then a cancel in that very state can be what costs it |
| CancelWindow.LateCancelExample | agent/internal/agent/runner.go:661-681 | the window is reached from the start, and with it a COMPLETED run without object |
| Cron.BoundaryIsFirstInWindow | server/internal/services/scheduler.go:121-143 | an instant is reported exactly when the window holds one, and it is the first there, unless the schedule is silent for as long as the cron library looks ahead |
| Cron.BoundaryStraysIff | server/internal/services/scheduler.go:137-143 | an instant outside the window is reported if and only if the schedule has no firing from the window's start to as far as the library looks ahead |
| Cron.EveryReportsIff | server/internal/services/scheduler.go:36-143 | an interval schedule comes due over a run of ticks if and only if two successive ticks lie at least the interval apart |
| Cron.WindowsPartition | server/internal/services/scheduler.go:64-66 | every instant between the first and the last tick lies in exactly one window |
| Cron.ReportsIncrease | server/internal/services/scheduler.go:121-143 | reported instants strictly increase |
| Cron.ReportedIffFirst | server/internal/services/scheduler.go:121-143 | a firing instant is reported if and only if no earlier one shares its window |
| Crypto.BigEndianRoundTrip | agent/internal/agent/crypto.go:45-56 | a number written big-endian reads back when it fits the width |
| Crypto.EncryptFile | agent/internal/agent/crypto.go:57-117 | the chunk loop writes exactly the container: header, then one frame for each chunk of at most 1 MiB |
| Crypto.DecryptFile | agent/internal/agent/crypto.go:135-196 | the frame loop accepts exactly what the container reader accepts, with the same error or the same plaintext |
| Crypto.DecryptUndoesEncrypt | agent/internal/agent/crypto.go:57-196 | decrypting an encrypted file returns the plaintext, for every length, and the file is 8 + n + 32 per started MiB long |
| Crypto.FrameIsRead | agent/internal/agent/crypto.go:146-195 | every written frame passes the reader's length bound and opens to its chunk |
| Crypto.ContainerLayout | agent/internal/agent/crypto.go:57-80 | the container byte for byte: the magic "VG01", the prefix, the frames |
| Crypto.FrameLayout | agent/internal/agent/crypto.go:45-110 | a frame byte for byte: prefix, chunk number in eight bytes, ciphertext length in four, and the chunk sealed under the first twelve bytes |
| Crypto.ChunkSizes | agent/internal/agent/crypto.go:84-110 | all chunks but the last have 1 MiB, none is empty, and together they are the plaintext |
| Crypto.NoncesDiffer | agent/internal/agent/crypto.go:45-56 | two nonces of a file agree exactly when their chunk numbers agree modulo 2^64 |
| Crypto.TruncationIsDetectedUnlessOnBoundary | agent/internal/agent/crypto.go:146-195 | a cut file is accepted if and only if the cut falls on a frame boundary at or after byte 8, and yields then exactly the leading whole chunks |
| Crypto.AcceptedIff | agent/internal/agent/crypto.go:135-196 | any file at all is accepted if and only if it begins with the magic and is, after byte 8, a row of frames each of which opens by itself; it then decrypts to what they open to in that order |
| MongoNative.UvarintRoundTrip | agent/internal/agent/mongo_native.go:50-56 | reading a written 64-bit varint returns it and the untouched rest |
| MongoNative.ArchiveLayout | agent/internal/agent/mongo_native.go:20-66 | the archive byte for byte: the magic "VGM1", the number of collections, and name, specs and documents of each behind their lengths and counts |
| MongoNative.FrameReader.NextUint | agent/internal/agent/mongo_native.go:235-239 | the byte loop of the varint reader computes the varint, at most ten bytes and 64 bits |
| MongoNative.FrameReader.Next | agent/internal/agent/mongo_native.go:216-234 | a frame is read exactly when its length is at most 256 MiB and its bytes are there |
| MongoNative.BackupMongoNative | agent/internal/agent/mongo_native.go:68-214 | the writer's loops, with documents counted in a side file, produce exactly the archive of the listed collections |
| MongoIndex.SplitSpec | agent/internal/agent/mongo_native.go:285-329 | the loop splits a spec into its last key document and the options, or takes it whole if it has no keys; each known option is what it says last |
| MongoIndex.IndexComesBack | agent/internal/agent/mongo_native.go:130-160 | what a listed spec comes back as, in terms of its elements: the last key document, or the whole spec without its stamped fields; no options exactly if nothing but keys and stamps is there; else name, uniqueness, sparseness and expiry as last said with a fitting type |
| MongoIndex.OptionsAreLast | agent/internal/agent/mongo_native.go:305-327 | each known index option is what its last well-typed occurrence in the spec says, 64-bit expiries wrapped to 32 |
| MongoNative.ReadDocs | agent/internal/agent/mongo_native.go:330-366 | documents are inserted in order in batches of at most 500; when a frame is missing or does not decode the full batches before it are in and no others, and a refused insert ends the reading |
| MongoNative.RestoreMongoNative | agent/internal/agent/mongo_native.go:241-373 | on any file and any database a restore makes exactly the calls of the part that can be read, up to the first that is refused; it succeeds exactly when none is refused and the file is whole |
| MongoNative.WholeFileIsReplay | agent/internal/agent/mongo_native.go:216-373 | a file is whole exactly when it parses and decodes, and its calls are then those of the collections it holds |
| MongoNative.ArchiveRoundTrip | agent/internal/agent/mongo_native.go:50-373 | a written archive reads back whole with nothing left over if and only if every frame is at most 256 MiB |
| MongoNative.RestoreRecoversDatabase | agent/internal/agent/mongo_native.go:50-373 | backup then restore works exactly then, and every collection gets exactly its documents in order, in batches of 1 to 500, and for every spec the index that its elements say; other collections get nothing |
| MongoNative.TruncationIsNoticed | agent/internal/agent/mongo_native.go:216-373 | an archive cut short at any byte fails to restore, and what was sent by then is the beginning of what the whole archive sends |
| Filesystem.BackupFilesystem | agent/internal/agent/backup.go:75-236 | the walk archives exactly the listing and counts its files and bytes; it fails exactly when no regular file is listed |
| Filesystem.KeptIffAllIncluded | agent/internal/agent/backup.go:155-180 | a node survives the pruning if and only if it and every directory above it are included |
| Filesystem.ArchivedIffKept | agent/internal/agent/backup.go:155-180 | the archive holds an entry for a node exactly when it survives |
| Filesystem.ArchivedOnce | agent/internal/agent/backup.go:155-180 | no path is archived twice |
| FilePatterns.PathPatternCoversSubtree | agent/internal/agent/backup.go:43-58 | a pattern that is a directory's path matches that directory and all below it, and nothing else beyond the shell-style match |
| FilePatterns.UnmatchedParentPrunes | agent/internal/agent/backup.go:60-71 | a path is not archived when some directory above it is not included, whatever it matches itself |
| FilePatterns.LogPatternExample | agent/internal/agent/backup.go:39-58 | "*.log" matches sub/app.log, but a tree with only that file backs up to nothing |
| FilePatterns.KeptIffChosen | agent/internal/agent/backup.go:43-71 | a supported node survives exactly if no exclude pattern hits it or a directory above it and, where there are include patterns, one of them hits each of these; a pattern hits by shell-style match of path or name, or by naming the path or one above it |
| FilePatterns.ExcludedIsGone | agent/internal/agent/backup.go:60-71 | an exclude pattern that hits a path removes it and all below it, whatever is included |
| FilePatterns.ExcludeLogExample | agent/internal/agent/backup.go:60-71 | excluding "*.log" leaves the other file of a directory, and only that |
| FilePatterns.NoPatternsKeepAll | agent/internal/agent/backup.go:60-71 | without patterns everything is archived but sockets, pipes and devices |
| FilePatterns.ExcludedDirectoryIsGone | agent/internal/agent/backup.go:60-71 | an exclude pattern naming a directory removes it and all below it, whatever is included |
| Filesystem.FileSystem.RestoreLocal | agent/internal/agent/restore.go:16-103 | without a destination it is an error; otherwise the destination is made, then the entries in order up to the first failure, counting the bytes written |
| Filesystem.RestoreIsConfined | agent/internal/agent/restore.go:16-77 | whatever the archive holds, nothing outside the destination changes but directories made above it, not even the files that links inside the destination lead to, and those links stay |
| Filesystem.RootDestinationRefuses | agent/internal/agent/restore.go:60-65 | under the root destination the first entry is refused unless its name resolves to the root |
| Filesystem.WrittenIsBytes | agent/internal/agent/restore.go:47-103 | a restore that succeeds has written as many bytes as the archive's files hold |
| Filesystem.RestoreRebuildsTree | agent/internal/agent/restore.go:16-103 | restoring the backup of a directory, be it empty, into an empty non-root destination succeeds exactly when no link survives the pruning, writes the bytes the backup read, and rebuilds exactly the surviving tree |
| Filesystem.RestoreRebuildsFile | agent/internal/agent/restore.go:16-103 | the backup of a single file comes back as that file under its own name |
| RestoreEffects.PathsAreCleaned | agent/internal/agent/restore.go:58-65 | the rules that fix where a name leads: empty parts and dots go, a pair of dots takes the part before it, at the root nothing, all else is kept |
| RestoreEffects.MakesDirectories | agent/internal/agent/restore.go:21-23 | making a directory succeeds exactly when no file or link is in the way, and leaves directories at every path up to it and all else as it was |
| RestoreEffects.EntryIsRestoredIff | agent/internal/agent/restore.go:58-102 | an entry is restored if and only if its name stays below the destination or leads to it, it is no link, directories can be made where it needs them, and a file replaces no directory or link |
| RestoreEffects.EntryWrites | agent/internal/agent/restore.go:66-102 | what a restored entry leaves on every path, and the bytes it counts |
| RestoreEffects.RefusedEntryWrites | agent/internal/agent/restore.go:58-102 | a refused entry leaves at most new directories above where its file was to stand |
| RestoreEffects.GuardIsNeeded | agent/internal/agent/restore.go:71-77 | a file named like a link is refused; written onto it, it would have replaced what the link leads to |
| RestoreEffects.StopsAtFirstFailure | agent/internal/agent/restore.go:47-103 | a restore takes the entries in order up to the first that fails and counts the bytes of those before it |
| RestoreEffects.DestinationComesFirst | agent/internal/agent/restore.go:16-23 | without a destination, or with something in its way, nothing is done; otherwise it is made first |
| FilePatterns.RestoreRebuildsIncluded | agent/internal/agent/backup.go:43-71 | restoring a backup succeeds exactly when no link is chosen together with all directories above it, and then a path is there, with its contents, exactly when it and they are chosen |
| RateLimit.Filter | server/internal/middleware/ratelimit.go:57-63 | the in-place filter leaves exactly the times after the cutoff, in order |
| RateLimit.RateLimiter.Allow | server/internal/middleware/ratelimit.go:51-69 | an attempt is allowed exactly when fewer than the limit are recent, and the slices change as specified |
| RateLimit.RateLimiter.Reap | server/internal/middleware/ratelimit.go:27-48 | a reaper pass leaves exactly the keys with recent times, filtered |
| RateLimit.AnswersAsFullHistory | server/internal/middleware/ratelimit.go:51-69 | with nondecreasing clock readings every attempt is answered as by a limiter that keeps the full history and is never reaped |
| RateLimit.ReaperGoesUnnoticed | server/internal/middleware/ratelimit.go:27-48 | reaper passes change no answer |
| RateLimit.AllowedIffRoom | server/internal/middleware/ratelimit.go:51-69 | with nondecreasing readings an attempt is allowed if and only if fewer than the limit of its key's attempts were allowed in the window that ends with it |
| RateLimit.WindowBound | server/internal/middleware/ratelimit.go:51-69 | every window (a, a + length] holds at most `limit` allowed attempts of a key when clock readings are nondecreasing |
| RateLimit.WindowBoundWithSkew | server/internal/middleware/ratelimit.go:27-69 | when readings go back by at most d, of attempts and reaper passes alike, every window shorter by d holds at most `limit` |
| RateLimit.SkewIsNeeded | server/internal/middleware/ratelimit.go:27-69 | for every d up to the window a run in which a window shorter by one less than d holds one more than the limit |
| RateLimit.ClosedWindowExample | server/internal/middleware/ratelimit.go:51-69 | with both ends included a window can hold one more |
| RateLimit.StaleReadingExample | server/internal/middleware/ratelimit.go:30-32 | a reaper holding a later clock reading lets an attempt with an earlier one exceed the limit |
| RateLimit.ReapLeavesOnlyRecent | server/internal/middleware/ratelimit.go:27-48 | after a pass every key left has a recent time and only recent ones |
| RefreshTokens.ReachableInv | server/internal/handlers/auth.go:138-184 | in every reachable state each family has at most one unrevoked token |
| RefreshTokens.DeadStaysDead | server/internal/handlers/auth.go:138-184 | a family without an unrevoked token never has one again, rolled-back rotations included |
| RefreshTokens.RefreshesWereEntitled | server/internal/handlers/auth.go:138-148 | behind every rotation and detected reuse is a request with the token of the row, for its own user, before expiry, while nobody held the row |
| RefreshTokens.ReuseEndsFamilyIff | server/internal/handlers/auth.go:150-160 | a reuse leaves the family without a token if and only if it had none before the revocation finished, or no rotation committed since the revoking statement looked |
| RefreshTokens.ReuseRaceExample | server/internal/handlers/auth.go:150-184 | an execution in which a detected reuse leaves a live token |
| RefreshTokens.LogoutEndsFamilyIff | server/internal/handlers/auth.go:207-219 | a logout ends the session if and only if the presented token was its unrevoked one, or there was none |
| RefreshEffects.SuccessorWorksUntilExpiry | server/internal/handlers/auth.go:138-184 | after a rotation the new token gets its user in exactly until the new expiry, and the old one is taken for a reuse |
| RefreshEffects.BegunIff | server/internal/handlers/auth.go:138-150 | a refresh gets in exactly with an unexpired token of its own user once the row is free, as a reuse exactly if it is revoked |
| RefreshEffects.RotationWrites | server/internal/handlers/auth.go:162-184 | a rotation revokes its row and adds the successor with the same user and family and the new expiry, or writes nothing |
| RefreshEffects.FamilyIsFound | server/internal/handlers/auth.go:150-157 | a reuse finds exactly the unrevoked rows of its family |
| RefreshEffects.FamilyIsRevoked | server/internal/handlers/auth.go:150-157 | and revokes exactly those, once all are free |
| RefreshEffects.LoginStarts | server/internal/handlers/auth.go:86-94 | a login starts a family of its own with one unrevoked token |
| RefreshEffects.LogoutRevokes | server/internal/handlers/auth.go:207-219 | a logout revokes the row of its token and no other |
| RefreshTokens.TokenTable.StartSession | server/internal/handlers/auth.go:90-97 | a login starts a family of its own; a failed insert is ignored |
| RefreshTokens.TokenTable.BeginRefreshing | server/internal/handlers/auth.go:138-148 | the locked lookup opens a rotation or a reuse, or nothing |
| RefreshTokens.TokenTable.CommitRotating | server/internal/handlers/auth.go:162-184 | a rotation revokes and creates, or rolls both back |
| RefreshTokens.TokenTable.FinishRevoking | server/internal/handlers/auth.go:150-160 | the family revocation waits for locks and revokes the rows it found |
| Enrollment.TokensAreSingleUse | server/internal/handlers/enrollment.go:183-228 | in every reachable state: at most one credential per token, used exactly when one enrollment committed, never both used and revoked |
| Enrollment.EnrollsWerePresented | server/internal/handlers/enrollment.go:157-169 | behind every enrollment is a presentation of its token before it expired, while neither used nor revoked |
| Enrollment.RevokedTokenNeverEnrolls | server/internal/handlers/enrollment.go:311-329 | once revoked, a token never yields a credential |
| EnrollmentEffects.RevocationTakesHold | server/internal/handlers/enrollment.go:311-329 | in every execution a revocation that finds its token unspent and its row free marks it, and no enrollment with it ever commits afterwards |
| EnrollmentEffects.RevokedIff | server/internal/handlers/enrollment.go:318-329 | a revocation writes exactly when the token is unspent and its row free |
| EnrollmentEffects.PresentedIff | server/internal/handlers/enrollment.go:157-169 | a token is accepted exactly while it is unspent and before it expires |
| EnrollmentEffects.ClaimedIff | server/internal/handlers/enrollment.go:186-195 | a claim waits for its row and succeeds exactly on an unspent token |
| EnrollmentEffects.CheckedIff | server/internal/handlers/enrollment.go:196-203 | an enrollment goes on exactly if its agent is there and not revoked |
| EnrollmentEffects.CommitWrites | server/internal/handlers/enrollment.go:203-228 | the commit marks the token as used at the time of its claim and writes the credential to its agent |
| EnrollmentEffects.UndisturbedEnrollmentSucceeds | server/internal/handlers/enrollment.go:157-228 | an enrollment nobody disturbs, with a good token and agent, gets its credential |
| Enrollment.RevokedAgentGetsNothing | server/internal/handlers/enrollment.go:196-203 | an agent revoked or deleted before the transaction reads it gets no credential from it |
| Enrollment.LateRevocationExample | server/internal/handlers/enrollment.go:196-203 | revoked after that reading, it does |
| Enrollment.Tables.ClaimRow | server/internal/handlers/enrollment.go:186-195 | the claiming update waits for the row, and affects it exactly when the token is neither used nor revoked |
| Enrollment.Tables.WriteCredential | server/internal/handlers/enrollment.go:203-228 | the committing write |
| Enrollment.Tables.RevokeRow | server/internal/handlers/enrollment.go:318-329 | marks a token as revoked, and reports so, exactly when it is unspent and its row free |
| Alerts.AlwaysOneFiring | server/internal/services/alerts.go:42-145 | in every execution at most one firing alert per organization and key, no firing row pruned, at most one email per row |
| Alerts.ClosedStaysClosed | server/internal/handlers/alert.go:88-111 | an acknowledged or resolved alert never fires again, a pruned one stays pruned, no email follows creation |
| Alerts.RaisesAreCountedIff | server/internal/services/alerts.go:42-113 | in every execution the raises that returned an alert equal the occurrence counts of its rows, pruned ones included, plus the bump steps taken on a row already pruned; so they are equal if and only if there was no such step |
| Alerts.LostBumpExample | server/internal/services/alerts.go:91-113 | an execution in which a raise is counted nowhere |
| AlertEffects.UndisturbedRaise | server/internal/services/alerts.go:42-113 | a raise nobody disturbs makes one firing alert, emailed about exactly if asked, or counts once more on the newest one that fires |
| AlertEffects.InsertMakes | server/internal/services/alerts.go:60-90 | an insert makes a firing alert with one occurrence; a keyed subject that fires already is refused |
| AlertEffects.BumpCounts | server/internal/services/alerts.go:91-113 | a bump counts one occurrence more on the alert found, unless that was pruned |
| AlertEffects.ClosedIff | server/internal/handlers/alert.go:88-111 | acknowledging closes a firing alert only, resolving any that is still there |
| AlertEffects.ListedIff | server/internal/services/alerts.go:118-130 | resolving by key lists exactly the firing alerts of that subject and kind |
| AlertEffects.PrunedIff | server/internal/services/health_monitor.go:350-358 | retention takes exactly the acknowledged and the resolved alerts from before the cutoff |
| Alerts.AlertTable.FirstFiring | server/internal/services/alerts.go:91-101 | finds the firing row of a subject |
| Alerts.AlertTable.Acknowledge | server/internal/handlers/alert.go:88-98 | acknowledges a firing row and reports whether one changed |
| Alerts.AlertTable.ResolveIds | server/internal/services/alerts.go:128-140 | resolves the listed rows |
| Alerts.AlertTable.EnforceRetention | server/internal/services/health_monitor.go:350-358 | prunes exactly the acknowledged and resolved rows created before the cutoff |
| MongoExport.BackupMongoJson | agent/internal/agent/mongo_export.go:110-139 | writes a marker line and one line per document for each collection |
| MongoExport.RestoreMongoJson | agent/internal/agent/mongo_export.go:170-222 | sends the documents met before the first unreadable line, in order, in batches of 1 to 500, none lost or repeated at collection switches: all of them on success, all but a last batch at an unreadable line, those before a refused insert |
| MongoExport.NameIsRead | agent/internal/agent/mongo_export.go:110-222 | a collection name reads back from its quoted marker line if and only if it holds no character that Go quotes in a way JSON does not know |
| MongoExport.QuoteExample | agent/internal/agent/mongo_export.go:111-111 | how characters that do not print as themselves are quoted |
| MongoExport.ScanExample | agent/internal/agent/mongo_export.go:183-185 | lines as the scanner takes them: a carriage return before the line feed goes, the last line needs no line feed |
| MongoExport.LineStopsIff | agent/internal/agent/mongo_export.go:185-212 | a replay stops at a line if and only if that is too long, no JSON, a document before any marker, or neither a marker nor a document |
| MongoExport.JsonReplaysRelaxedIff | agent/internal/agent/mongo_export.go:110-222 | a dump replays to its documents but for what relaxed JSON forgets if and only if every name reads back, no document imitates the marker, every line is under 16 MiB and no document is written like a value of another type; in the first three cases documents are missing or the restore fails |
| MongoExport.JsonReplaysExactlyIff | agent/internal/agent/mongo_export.go:110-222 | it replays to the documents themselves if and only if, in addition, relaxed JSON forgets nothing of them |
| BsonJson.JsonKeepsDocumentsIff | agent/internal/agent/mongo_export.go:110-222 | that is, if and only if no document holds at any depth a 64-bit integer that fits 32 bits, text that is no UTF-8, or a document whose first key stands for a type |
| BsonJson.ForgetsIffSomewhere | agent/internal/agent/mongo_export.go:121-139 | relaxed JSON changes a value if and only if a chain of values, each in the one before, leads from it to such an integer, such a text or such a key |
| BsonJson.MembersWrapIff | agent/internal/agent/mongo_export.go:208-208 | and a document is read as something else if and only if such a chain leads from one of its values to a document whose first key stands for a type |
| BsonJson.Int64Example | agent/internal/agent/mongo_export.go:110-139 | a document with such an integer comes back with a 32-bit one |
| BsonJson.OidKeyExample | agent/internal/agent/mongo_export.go:121-208 | a document holding one that begins with "$oid" loses nothing to relaxed JSON and still does not come back |
| MongoExport.BellNameExample | agent/internal/agent/mongo_export.go:110-139 | a dump with a collection named by a bell character fails to restore |
| MongoCsv.FlattenBson | agent/internal/agent/mongo_export.go:227-262 | the recursive assignment of dotted paths |
| MongoCsv.FlatIsLastLeaf | agent/internal/agent/mongo_export.go:227-262 | a path is in the flattened document exactly when a leaf has it, with the text of the last such leaf |
| MongoCsv.FlattenedIffReached | agent/internal/agent/mongo_export.go:227-262 | a path is in the flattened document if and only if some scalar, at any depth, has it as the dotted keys leading to it |
| MongoCsv.FlattenExample | agent/internal/agent/mongo_export.go:227-262 | two scalars with one path, the later of which is kept; an empty key at the end and an empty document |
| MongoCsv.HeaderUnion | agent/internal/agent/mongo_export.go:312-341 | the header is the sorted union of all documents' paths |
| MongoCsv.HeaderIsUnique | agent/internal/agent/mongo_export.go:341-341 | that listing does not depend on the order in which paths were met |
| MongoCsv.DumpIsUnique | agent/internal/agent/mongo_export.go:312-363 | a collection has exactly one dump |
| MongoCsv.BackupMongoCsv | agent/internal/agent/mongo_export.go:312-363 | the file text of marker, header and padded rows for each collection |
| MongoCsv.DumpExample | agent/internal/agent/mongo_export.go:342-356 | the text of a dump: marker, header, padded row |
| MongoCsv.RestoreMongoCsv | agent/internal/agent/mongo_export.go:400-460 | sends exactly the documents met in the parsed file, in order, in batches of 1 to 500; an insert that is refused ends it after those before |
| CsvText.FileIsDelivered | agent/internal/agent/mongo_export.go:312-460 | the text written for any records is read as those records without the empty ones, each CR-LF inside a cell turned into LF |
| CsvText.BareExample | agent/internal/agent/mongo_export.go:311-311 | plain and empty cells are written as they are |
| CsvText.QuotedExample | agent/internal/agent/mongo_export.go:311-311 | a comma or a line break in a cell puts it in quotes |
| CsvText.QuotedStartExample | agent/internal/agent/mongo_export.go:311-311 | so does a blank in front, or the cell being a backslash and a dot |
| CsvText.ForgivingExample | agent/internal/agent/mongo_export.go:396-398 | how stray and unclosed quotes are read |
| CsvText.LinesExample | agent/internal/agent/mongo_export.go:396-398 | empty lines are skipped, and a carriage return goes before a line feed and at the end of the file |
| CsvText.UnixRecordKeepsIff | agent/internal/agent/mongo_export.go:400-460 | that turn leaves a record as it was if and only if none of its cells holds CR-LF |
| MongoCsv.CsvReplaysDeliveredIff | agent/internal/agent/mongo_export.go:312-460 | a dump replays to its rows as the reader delivers them if and only if, in every collection with documents, no header or row is an empty line or looks like a marker; otherwise documents are missing |
| MongoCsv.CsvReplaysExactlyIff | agent/internal/agent/mongo_export.go:312-460 | it replays to exactly the rows written if and only if, in addition, no name, header or row holds CR-LF |
| MongoCsv.CrLfExample | agent/internal/agent/mongo_export.go:400-460 | a cell with such a line break, and what it is read as |
| MongoCsv.OneCellReplays | agent/internal/agent/mongo_export.go:312-460 | a dump of one cell comes back with its CR-LF turned into LF |
| MongoCsv.RestoredFields | agent/internal/agent/mongo_export.go:427-447 | each restored field is the flattened text, padded with nothing, CR-LF turned into LF, and an identifier in place of a hexadecimal _id |
| MongoCsv.NothingBeforeMarker | agent/internal/agent/mongo_export.go:430-432 | records before the first marker are passed over |
| MongoCsv.HexIdExample | agent/internal/agent/mongo_export.go:444-449 | which texts are revived as identifiers |
| ExportCsv.CellIsRead | client/src/utils/exportCsv.ts:8-15 | a written cell reads back as its text whatever quotes, commas and line breaks it holds |
| ExportCsv.ExportExample | client/src/utils/exportCsv.ts:4-21 | the text of an export: every cell in quotes, nothing for a missing value, CRLF between rows only |
| ExportCsv.ExportReadsBackIff | client/src/utils/exportCsv.ts:4-21 | a reader following section 2 of RFC 4180 returns header and rows exactly if and only if all of them have a cell |
| Schedule.BuildThenParse | client/src/utils/schedule.ts:59-145 | for every non-custom schedule, reading what was rendered gives the same frequency and the fields it uses, clamped and zero-padded |
| Schedule.InRangeFieldsSurvive | client/src/utils/schedule.ts:43-145 | for fields in range with a zero-padded time nothing the frequency uses is lost |
| Schedule.ParseBuildParseIff | client/src/utils/schedule.ts:59-145 | reading, rendering and reading again agrees with the first reading if and only if that was not custom |
| Schedule.TrimExample | client/src/utils/schedule.ts:83-83 | which characters the client trims |
| Schedule.TimeExample | client/src/utils/schedule.ts:43-48 | how loosely a time is read: signs, trailing letters, a missing part, and bringing both parts into the day |
| Schedule.DefaultExample | client/src/utils/schedule.ts:33-39 | what a text does not say is as in a new schedule |
| CronMeaning.BuiltFiresAsMeant | client/src/utils/schedule.ts:59-78 | the rendered expression fires at exactly the moments the fields describe |
| CronMeaning.ReadAsMeantIff | client/src/utils/schedule.ts:82-145 | an expression the client recognises, stored as it is, fires in the scheduler at exactly the moments the client reads it as if and only if it is blank, or a descriptor with nothing around it, or five fields without a byte order mark around them and without weekday 7 |
| CronMeaning.SundayAsSevenExample | client/src/utils/schedule.ts:116-121 | "0 0 * * 7" is read as weekly on Sunday and never fires |
| CronMeaning.BlankDailyExample | client/src/utils/schedule.ts:82-100 | " @daily" is read as daily at midnight and never fires |
| CronMeaning.BothDaysExample | server/internal/services/scheduler.go:36-38 | with both days restricted either will do: the 13th and every Friday |
| CronMeaning.StarStepExample | server/internal/services/scheduler.go:36-38 | a step of one restricts nothing |

## Left out

- The gRPC stream path (server/internal/grpcserver/server.go), which writes run status without a guard: the models cover the polling protocol only.
- RunProtocol.CompletedRunHasItsObject: the checksum half asks that the store kept what it was given, because the checksum read back from the store is the metadata the agent itself attached. Object keys are identified with run ids, in which they end.
- The agent's runner is modelled on values, as moves of an executor, and not as one method: between any two of its statements other actors move. Its producers (file walk, dump tools, encryption) are one move with any archive as result.
- RunProtocol.ReachableWorldsAreOk: one executor per claimed run; an agent that restarts and resumes nothing is an executor that stops.
- RunHandlers.RunStore.BeginReport: the check that a storage path lies in the target's directory is a yes or no from outside.
- Run durations, failure categories, wrapped data keys, audit rows, publish calls, webhooks and recipients of emails: side effects without influence on the invariants.
- Retention deletes runs and their files; the run table here only grows, as the retry chains need their parents.
- Alerts.RaisesAreCountedIff: database errors are modelled as failed bumps and inserts; a raise whose process dies stays unfinished and is not counted as returned.
- Enrollment.TokensAreSingleUse: expiry is checked when the token is presented, as in the code, and not again at the claim. Registration keys and credential rotation, the other writers of credentials, are not modelled.
- RefreshTokens.ReuseEndsFamilyIff: two families never share a row, and deadlocks and lock timeouts show as rollbacks. Signatures and expiry inside the signed token are not modelled.
- RateLimit.RateLimiter.Reap: one pass is one step, as the lock makes it; the ticker that starts passes is not modelled.
- Crypto.EncryptFile: the random prefix is a parameter; file creation, removal after failure and the returned checksum are not modelled. Nonces of different files are not compared, as every run has a key of its own.
- MongoNative.RestoreMongoNative: an insert that the database refuses is taken to have inserted nothing, although part of its batch may be in; an index creation likewise. Documents are decoded by an abstract codec.
- MongoExport.JsonReplaysRelaxedIff: the JSON of a document is abstract but for the marker probe, and lengths count characters where the code counts bytes; which characters Go takes for printable is a parameter.
- BsonJson.JsonKeepsDocumentsIff: which keys stand for a type is a parameter; the extended JSON library is not part of this model. Kinds other than integers, text, lists and documents are taken to be kept; the payload of a NaN and text that is no UTF-8 in code, symbols and patterns are not modelled, nor is the reader's limit on nesting, which is beyond that of the database.
- MongoCsv.CsvReplaysExactlyIff: asks that collection names are not empty, as the database does, and that every row has the header's width, as the writer makes it.
- MongoExport.RestoreMongoJson: a refused insert is taken to have inserted nothing.
- MongoCsv.RestoredFields: scalars come as the text they are rendered to; times, numbers and extended JSON are not modelled.
- Filesystem.RestoreRebuildsTree: file modes and the tar and gzip encodings are not modelled; links in an archive are, as entries that fail.
- Filesystem.RestoreIsConfined: symbolic links to files are modelled, with the check that refuses to write onto one; links to directories, in the destination or on the way to it, are not: the code follows them.
- Filesystem.BackupFilesystem: read errors during the walk are not modelled, and a file's contents do not change while it is read.
- CronMeaning.BuiltFiresAsMeant: weekday and month names, months, question marks, lists and ranges never come from the builder and have no meaning here; numbers are integers, so NaN and fractions are not modelled.
- Cron.BoundaryIsFirstInWindow: time zones and daylight saving are part of what a schedule's firing instants are; sub-second parts of the ticks are not modelled.
- The claims and the life of restore jobs, and the choice of what to restore, are not modelled.
- The cron, BSON, AES-GCM, SHA-256, bcrypt, JWT, tar and gzip libraries, the S3 client and the dump tools are parameters with stated laws or are absent.
- Input validation, list endpoints, policy selection, the desktop and web interfaces.
