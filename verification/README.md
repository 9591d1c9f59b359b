# Dafny models of cobot

Dafny models of the parts of cobot where a mistake is hardest to see:
the cron schedulers that coordinate through one SQLite file, the translation of
virtual paths to sandboxed ones, the agent's transcript and its compaction, and
the text scanners that cut prompts, shell commands, messages, streams and
arguments apart.

`dafny verify dfyconfig.toml` checks everything. What the repository's code
changes step by step is modelled by classes and loops, each proved against a
specification; what the specification guarantees over all inputs or whole runs
is proved as lemmas beside it.

| file | models |
|---|---|
| `prelude.dfy`, `text.dfy`, `decimals.dfy` | shared shapes: options and results, splitting and trimming text, decimal numbers |
| `time_text.dfy` | the timestamp text the database compares |
| `broker_tables.dfy`, `broker.dfy` | the tables and the broker's methods over them |
| `delivery.dfy` | message delivery over whole runs of the broker |
| `scheduler_process.dfy` | one scheduler process: `Start`, `Stop`, the renew loop, the cron it runs |
| `lease_protocol.dfy` | any number of such processes and the lease row |
| `job_store.dfy`, `entry_index.dfy`, `scheduler.dfy`, `consumer.dfy` | the job files and their tokens, the index of cron entries, the scheduler's calls, the consumer of results |
| `cron_runs.dfy` | runs of a leading scheduler: the single steps of its calls, its syncs and the jobs it runs, among other processes' writes |
| `clean_paths.dfy`, `sandbox_paths.dfy` | lexical Unix paths, path translation, the access decision |
| `skills_section.dfy` | the prompt-section replacer |
| `shell_words.dfy` | the shell word and redirection scanners |
| `post_rows.dfy` | the fenced-block row splitter |
| `reexec.dfy` | the arguments of the sandbox child |
| `agent_loop.dfy`, `compaction.dfy`, `stream_calls.dfy` | the turn loop and its transcript, the bounded log and its compaction, tool calls from stream deltas |
| `channel_manager.dfy` | registered channels, heartbeats and expiry |

## Reading the models

- The database is five maps and sets; each SQL statement or transaction is one
  atomic step that takes a clock reading. Instants are integers, which
  `TimeText` justifies for years up to 9999 and refutes beyond.
- Rows picked without an ORDER BY, map iteration, the order in which parallel
  tools finish and the interleaving of threads are nondeterministic, and every
  result holds for all of them.
- Providers, tools, clocks, random tokens and failing statements are inputs.
- A cleanup pass is up to 103 statements that commit one by one. `SqliteBroker`
  has the pass as the code runs it, with nothing between its statements;
  `Delivery` lets any statements of any process come between them.
- Likewise `CronScheduler` has each call of the scheduler as the code runs it,
  with nothing between its locked sections and its accesses to job files;
  `CronRuns` takes the calls, the syncs and the runs of jobs apart and lets
  anything come between their steps.
- Where a promise of the code or its comments is false, a lemma states exactly
  when it holds: `AgreesExactlyUpToYear9999`, `RedeliveredExactlyWhenForgotten`,
  `BecomeLeaderExact`, `RejectedRemoveChangesNothingExactly`,
  `SecondFlagExactly`, `MirroredByTheLastConcern`,
  `ScheduledAreActiveAndStoredExactly`, `SyncMirrorsAllExactly`,
  `RecordMirrorsExactly`, `AddMirrorsExactly`,
  `WriteDuringARunSurvivesExactly`, `ElevenCallsExactly`,
  `InverseExactlyOffTheFileSystemRoot`, `AutoResolveIdempotentExactly`,
  `KeepsTheNextSectionExactly`, `ReplacementIsIdempotentExactly`,
  `QuotedWordsRoundTrip`, `ScannersAgreeExactly`, `StreamIsLostExactly`,
  `CompactionKeepsTheNewest`, `SummarizingGrowsExactly`,
  `StaleSnapshotLosesExactly`, `OlderSnapshotLosesExactly`,
  `CompactionKeepsTheShapeExactly` and
  `CallsRepeatPerFinish`. The inputs and runs on which it fails are in
  `ReleasedFlagStaysUp`, `OneFailedRenewal`, `OldTokenUnschedules`, `PausedInTheStoreWhileScheduled`,
  `StaleSyncSchedulesAPausedJob`,
  `ScheduleInTheWindowRunsTwice`, `NextSectionIsSwallowed`,
  `ScannersDisagreeInSingleQuotes` and `TextIsLost`.

## Model

| member | source | states |
|---|---|---|
| TimeText.TextOrderIsTimeOrder | internal/broker/sqlite.go:19-29 | For any two valid UTC times up to year 9999, SQLite's byte-wise comparison of the stored texts is the comparison of the instants in microseconds, and equal texts are equal instants. |
| TimeText.AgreesExactlyUpToYear9999 | internal/broker/sqlite.go:19-29 | Text order agrees with time order for all times up to a year limit if and only if that limit is at most 9999. |
| TimeText.MicrosOrder | internal/broker/sqlite.go:19-24 | The instant in microseconds, with leap years, is ordered like year, month, day, hour, minute, second and microsecond, field by field. |
| TimeText.YearsAreGregorian | internal/broker/sqlite.go:19-29 | The days before a year, by its closed form: every fourth year is a leap year, but not in three of four centuries. |
| TimeText.MonthsStartAsTheyShould | internal/broker/sqlite.go:19-29 | The day of the year each month starts on, in common and leap years. |
| TimeText.LayoutPrintsItself | internal/broker/sqlite.go:19-29 | The layout formats its own example as it is written. |
| Decimals.ParsePrinted | internal/broker/sqlite.go:300-325 | A row ID printed by `Consume` is parsed by `Ack` to the same row, and is refused exactly when it exceeds an int64. |
| Decimals.ParseSigned | internal/broker/sqlite.go:327-338 | With a sign the same number or its negative, each within the range of an int64 on its side of zero. |
| Decimals.NotANumber | internal/broker/sqlite.go:327-338 | Text without digits, or with anything but digits after the sign, is refused. |
| Decimals.LeadingZero | internal/broker/sqlite.go:327-338 | Zeros in front change nothing. |
| SqliteBroker.Broker.TryAcquire | internal/broker/sqlite.go:121-143 | Granted exactly when the row is missing or expired strictly before now; then the row is the caller's until now + ttl, else nothing changes. |
| SqliteBroker.Broker.Renew | internal/broker/sqlite.go:145-163 | Succeeds exactly when the row is the caller's and not yet expired; only its end moves. |
| SqliteBroker.Broker.Release | internal/broker/sqlite.go:165-168 | Removes the row exactly when it is the caller's. |
| SqliteBroker.Broker.Register | internal/broker/sqlite.go:172-182 | Inserts or updates the session; a second registration keeps the first start time. |
| SqliteBroker.Broker.Unregister | internal/broker/sqlite.go:184-197 | Removes the session and all its receipts, and nothing else. |
| SqliteBroker.Broker.Heartbeat | internal/broker/sqlite.go:199-214 | Moves the heartbeat of a registered session, and reports exactly the unregistered ones. |
| SqliteBroker.Broker.CleanStaleReceipts | internal/broker/sqlite.go:367-377 | At startup drops exactly the receipts of sessions that are not registered. |
| SqliteBroker.Broker.Publish | internal/broker/sqlite.go:253-263 | Adds the message under the next row ID, with now as creation time if none is given; fails only when the IDs are used up. |
| SqliteBroker.Broker.Consume | internal/broker/sqlite.go:265-314 | Every row returned has the topic, the channel if one is given, has not expired and no receipt of the session; every stored row of that kind is returned, unless as many with lower IDs are as the limit allows (50 if none is given); in ID order. |
| SqliteBroker.Broker.Ack | internal/broker/sqlite.go:327-338 | Adds the receipt, or changes nothing when the ID does not parse. |
| SqliteBroker.Broker.AckAll | internal/broker/sqlite.go:340-365 | Adds the receipts of all IDs, or of none when one of them does not parse. |
| SqliteBroker.Broker.ExpireSessions | internal/broker/sqlite.go:386-390 | Removes exactly the sessions silent past their TTL. |
| SqliteBroker.Broker.ExpireMessages | internal/broker/sqlite.go:392-398 | Removes exactly the messages past their TTL. |
| SqliteBroker.Broker.DeleteBatch | internal/broker/sqlite.go:407-421 | Removes some of the messages collectible at that moment: any 1000, or all when there are fewer. |
| SqliteBroker.Broker.DropOrphans | internal/broker/sqlite.go:436-440 | Leaves exactly the receipts whose message exists. |
| SqliteBroker.Broker.DeleteDelivered | internal/broker/sqlite.go:400-434 | With nothing between the rounds they remove min(collectible, 1000 per round) collectible rows whatever rows each batch picks, and stop as drained, cancelled or failed exactly when they should; a failing round's DELETE may have taken effect. |
| SqliteBroker.Broker.Cleanup | internal/broker/sqlite.go:381-446 | A pass with nothing between its statements, any of which may fail: which sessions, messages and receipts remain, that it reports success exactly when nothing failed, and that it is a chain of at most 103 of the statements above. |
| SqliteBroker.OrderAndLimit | internal/broker/sqlite.go:283-290 | Selection with ORDER BY id and LIMIT gives the least IDs in ascending order. |
| BrokerTables.LowestIsTheLeast | internal/broker/sqlite.go:283-290 | The selected IDs are as many as asked for or there are, ascending, and below every pending ID left out. |
| BrokerTables.CleanupKeepsExactlyTheUndelivered | internal/broker/sqlite.go:381-446 | After an uninterrupted fault-free pass over at most 100,000 collectible messages the survivors are exactly the unexpired ones that some surviving session of their channel has not acked. |
| BrokerTables.CleanupIsSafe | internal/broker/sqlite.go:381-446 | Every uninterrupted pass, faulty or cancelled ones too, keeps an unexpired message that a surviving session of its channel has not acked. |
| BrokerTables.CollectibleAfterDelete | internal/broker/sqlite.go:400-434 | Deleting a batch does not make other messages collectible or uncollectible, so batches may pick any rows. |
| BrokerTables.ShortBatchDrains | internal/broker/sqlite.go:407-433 | A batch that is not full leaves nothing collectible, whatever was done before it. |
| Delivery.AckedIsNeverRedelivered | internal/broker/sqlite.go:265-365 | In every run of every process's statements, those of cleanup passes interleaved in any way, a message a session has acked is never handed to it again unless its receipts are dropped. |
| Delivery.RedeliveredExactlyWhenForgotten | internal/broker/sqlite.go:184-197 | A step makes an acked, stored message available to its session again if and only if it is that session's `Unregister` or a startup purge while the session is not registered. |
| Delivery.UnackedIsNeverLost | internal/broker/sqlite.go:381-446 | In every such run a message for a registered session's channel stays pending for it until it acks, leaves, goes silent past the TTL, or the message expires; no statement that comes between those of a pass makes the pass take it. |
| Delivery.OwedUntilDischarged | internal/broker/sqlite.go:172-446 | A step ends this debt to a session if and only if it is the session's ack of the message, its `Unregister`, its registration with another channel, or an expiry that finds the session or the message too old. |
| Delivery.DeletedExactly | internal/broker/sqlite.go:392-434 | A step deletes a message if and only if it expires it by age, or is a batch that holds it while every registered session of its channel has acked it. |
| Delivery.GoneMeansDeliveredOrExpired | internal/broker/sqlite.go:392-434 | In every run a message that is gone was deleted at a step that found it too old or acked by every session then registered for its channel. |
| Delivery.ShortBatchLeavesTheUndelivered | internal/broker/sqlite.go:426-433 | In every run, after a batch that is not full every stored message has a registered session of its channel that has not acked it. |
| Delivery.UnregisteredConsumerLosesMessages | internal/broker/sqlite.go:400-434 | A consumer that never registered has no such guarantee: one fault-free pass deletes a message for a channel without sessions. |
| SchedulerProcess.StepKeepsInv | internal/cron/leader.go:13-43 | Every step of `Start`, `Stop`, the renew loop and the jobs keeps the process invariant, whatever the threads' interleaving. |
| SchedulerProcess.LiveCronImpliesLeader | internal/cron/scheduler.go:113-165 | At every step of every interleaving of `Stop` with step-down and re-election, a cron that runs or has a job in flight is the current one and the leader flag is set. |
| SchedulerProcess.LeaderRunsItsCron | internal/cron/scheduler.go:68-165 | At every step of every interleaving, while the process serves and its renew loop waits, its current cron runs if and only if the process leads, after `Start` and after every re-election. |
| SchedulerProcess.RunningCronFires | internal/cron/scheduler.go:68-165 | A running cron can fire a job at any time. |
| SchedulerProcess.StopCanEnd | internal/cron/scheduler.go:113-147 | `Stop` cannot get stuck: from wherever `Start`, the renew loop and the jobs are, every run goes on to one in which `Stop` has returned, even if the database refuses every statement. |
| SchedulerProcess.NothingRunsAfterClose | internal/cron/scheduler.go:123-147 | When `Stop` has closed the run store, and ever after, no cron the process made runs, no job is in flight and the renew loop is gone. |
| LeaseProtocol.MoveKeepsInv | internal/broker/sqlite.go:121-168 | A step of any process, with its database effect and even if its reply is lost, keeps the invariant that ties grants, the lease row and clock readings together. |
| LeaseProtocol.LeaseIntervalsAreDisjoint | internal/broker/sqlite.go:121-168 | In every run of any number of schedulers under a non-decreasing clock, before a grant to another holder an earlier grant was released or its TTL, counted from its own clock reading, had run out. |
| LeaseProtocol.FreshHolderOwnsTheRow | internal/broker/sqlite.go:145-168 | A holder whose unreleased grant is younger than the TTL owns the lease row. |
| LeaseProtocol.OneFreshLeader | internal/cron/leader.go:23-37 | At most one scheduler has its flag set on a fresh grant it has not released, and at most one runs a cron or a job on a fresh grant at all. |
| LeaseProtocol.SecondFlagExactly | internal/cron/scheduler.go:123-147 | Beside a scheduler with its flag set on a fresh grant it has not released, another one with a fresh grant has its flag set if and only if it has released its grant. |
| LeaseProtocol.GrantedExactly | internal/broker/sqlite.go:121-143 | A process about to acquire has a step that is granted if and only if there is no row or the row ended before its clock reading. |
| LeaseProtocol.RenewedExactly | internal/broker/sqlite.go:145-163 | A process about to renew has a step that succeeds if and only if the row is its own and ends after its clock reading. |
| LeaseProtocol.FreshGrantIsRenewed | internal/cron/leader.go:23-23 | In every run a scheduler that renews before its unreleased grant runs out has a step that succeeds. |
| LeaseProtocol.StarterCanTakeOver | internal/cron/scheduler.go:68-111 | From every reachable state, whoever holds the lease and whatever became of it, a process that starts can come to lead with its cron running, by time and its own steps alone. |
| LeaseProtocol.DeposedCanLeadAgain | internal/cron/leader.go:23-43 | So can a process that has stepped down and reads the clock to reacquire. |
| LeaseProtocol.OneFailedRenewal | internal/cron/leader.go:23-37 | A run, from the start, of one leader whose renewal fails once: its row has not expired, so its attempt to reacquire cannot be granted, and it is left serving with its flag down and its cron stopped while the row is its own. |
| LeaseProtocol.UnusedLeaseIsRenewed | internal/cron/leader.go:16-42 | A run that goes on from there: at any time before the row ends the next renewal succeeds and moves the end, so the row stays out of every other process's reach. |
| LeaseProtocol.RenewingDoesNotLead | internal/cron/leader.go:16-42 | The comments say it retries at the next tick: in every run a process whose flag is down and whose loop renews does not raise the flag before a renewal fails. |
| LeaseProtocol.ReleasedFlagStaysUp | internal/cron/scheduler.go:123-147 | The release condition is needed: a run of two processes from the start, in which the first leads, stops and releases and the second takes the lease, ends with both flags set on fresh grants. |
| LeaseProtocol.LiveHasNotReleased | internal/cron/scheduler.go:123-147 | A process with a running cron or a job in flight has not given its lease back. |
| JobStore.ReadIdRoundTrip | internal/cron/store.go:64-83 | A printed read ID parses back to its ID and token if and only if the ID is valid and the token not empty. |
| JobStore.ParsedReadIdIsThePrint | internal/cron/store.go:72-83 | Whatever parses is the print of what it parses to, and whatever is refused is no valid job's read ID. |
| JobStore.IdCharsAre | internal/cron/store.go:26-36 | The characters of a valid ID by their codes; none is a separator of paths or read IDs, or a dot. |
| JobStore.Store.Create | internal/cron/store.go:187-196 | Writes the job, changed in nothing but its token, under its own ID with the fresh token, or changes nothing when the ID is invalid. |
| JobStore.Store.Update | internal/cron/store.go:294-300 | The same for an existing job. |
| JobStore.Store.Get | internal/cron/store.go:204-218 | Returns the stored job with a fresh token that is written back; errors change nothing. |
| JobStore.Store.Read | internal/cron/store.go:224-236 | Returns the job without a write, and rejects a non-empty token that is not the stored one. |
| JobStore.Store.List | internal/cron/store.go:239-259 | Returns every job once and leaves each with its fresh token; jobs whose file cannot be loaded or written back are left out and stay as they are. |
| JobStore.Store.Delete | internal/cron/store.go:303-325 | Deletes on the matching token or on an empty one; a rejection leaves the store unchanged. |
| JobStore.TokenProvesUnchanged | internal/cron/store.go:85-90 | In every run with fresh tokens, a token still opens its job exactly while no later call wrote or deleted it, and then the job read is the one its holder saw. |
| JobStore.ReadsWhatWasGiven | internal/cron/store.go:187-300 | In every run what `Create` or `Update` was given is what its token reads back, but for the token, exactly until a later call touches the job. |
| JobStore.DeleteNeedsTheLatestToken | internal/cron/store.go:303-325 | In every run a delete with a token removes the job exactly while nothing was written since, and otherwise changes nothing. |
| JobStore.UnissuedTokenIsRejected | internal/cron/store.go:85-90 | A non-empty token that no call issued opens nothing, at any point of any run. |
| EntryIndex.RunsAreConsistent | internal/cron/scheduler.go:304-376 | After every run of schedule and unschedule calls both maps have the same keys and the job map is a bijection onto the live cron entries. |
| EntryIndex.ConsistentIsABijection | internal/cron/scheduler.go:304-333 | That bijection spelled out: distinct jobs have distinct entries, every live entry is some job's, and each carries the job's schedule string. |
| EntryIndex.RunKeepsLeaked | internal/cron/scheduler.go:304-376 | No call adds an entry the maps do not know, and none removes such an entry. |
| EntryIndex.OnlyItsCallsMatter | internal/cron/leader.go:47-68 | In every sequence of schedule and unschedule calls, whether an ID is scheduled and under which string is what its own calls alone come to, however those for other IDs are interleaved. |
| EntryIndex.BecomeLeaderExact | internal/cron/scheduler.go:150-165 | After `becomeLeader` and everything that follows, the maps fit the cron entries if and only if nothing is registered in the new cron at the moment the maps are emptied; otherwise exactly those entries run on unknown. |
| EntryIndex.ScheduleInTheWindowRunsTwice | internal/cron/scheduler.go:150-165 | A job scheduled between the two locked sections and again from the store has two live entries. |
| EntryIndex.QuietWindow | internal/cron/leader.go:47-68 | When the window sees only unscheduling or refused schedules, nothing leaks. |
| CronScheduler.Scheduler.RemoveJobEntryLocked | internal/cron/scheduler.go:306-312 | Removes the job's entry and both map keys, or nothing. |
| CronScheduler.Scheduler.RegisterEntry | internal/cron/scheduler.go:326-333 | A new entry under the cron's next ID, known to both maps. |
| CronScheduler.Scheduler.ScheduleJobLocked | internal/cron/scheduler.go:315-376 | The old entry goes in any case; a new one comes exactly when the expression parses or the one-shot instant is still ahead. |
| CronScheduler.LastJobOfAnIdCounts | internal/cron/leader.go:86-90 | Of listed jobs with one ID the last counts. |
| CronScheduler.Scheduler.SyncJobs | internal/cron/leader.go:83-123 | The locked section, on any listing: afterwards the scheduled IDs are exactly the listed active jobs that were scheduled with the same string or could be scheduled, each under the listed string; unchanged jobs keep their entries. |
| CronScheduler.Scheduler.RescheduleAllJobs | internal/cron/leader.go:47-68 | With nothing between its locked sections: empties the maps and schedules the listed active jobs in turn; a failed listing leaves nothing scheduled. |
| CronScheduler.BecomeLeaderSchedulesTheStore | internal/cron/leader.go:47-68 | After a quiet window and with other threads' calls between and after the schedule calls in any interleaving, the maps are consistent, and an ID no other call was for is scheduled if and only if the last active job listed under it could be registered. |
| CronScheduler.Scheduler.RemoveJob | internal/cron/scheduler.go:228-239 | With nothing between its steps: unschedules first and then deletes by token; index, store and result in each case. |
| CronScheduler.RejectedRemoveChangesNothingExactly | internal/cron/scheduler.go:228-239 | A call that returns an error never changes the store, and changes nothing at all if and only if the read ID does not parse or its job is not scheduled here. |
| CronScheduler.OldTokenUnschedules | internal/cron/scheduler.go:228-239 | The failing input: a scheduled job and a read ID with an old token; the call is rejected and the job stored but no longer scheduled. |
| CronScheduler.Scheduler.PauseJob | internal/cron/scheduler.go:243-258 | With nothing between its steps: unschedules and stores the pause, or changes nothing when ID or token is rejected. |
| CronScheduler.Scheduler.ResumeJob | internal/cron/scheduler.go:263-283 | With nothing between its steps: resumes only paused jobs; a leader must be able to schedule the job before it is stored as active. |
| CronScheduler.Scheduler.AddJob | internal/cron/scheduler.go:191-223 | With nothing between its steps: added exactly when there is room, the schedule is valid and the ID is; stored first, then scheduled by a leader, with the next run persisted when known. |
| CronScheduler.Scheduler.UpdateLocked | internal/cron/scheduler.go:423-451 | The locked section: a record to write exactly when the job is still scheduled, and a one-shot job is completed and unscheduled. |
| CronScheduler.Scheduler.UpdateAndPersistJob | internal/cron/scheduler.go:423-462 | The locked section and then the write, with nothing between them; CronRuns takes them apart. |
| CronRuns.WriteDuringARunSurvivesExactly | internal/cron/scheduler.go:378-462 | In every run of the steps of calls, syncs, job runs and other processes' writes: what another step wrote to a job, or its deletion, between a run's read and its record stands if and only if the locked check found the job no longer scheduled; otherwise every field of it is lost and the file is the job as it was read, with the run's marks. |
| CronRuns.ChangeMirrorsExactly | internal/cron/scheduler.go:191-462 | An ID is mirrored if, when scheduled, it is an active stored job under the stored schedule. From any state, a step that writes the ID's file or sets or removes its entry leaves it mirrored if and only if what it puts there fits what it finds: a write the schedule, a deletion no schedule, a scheduling (alone or by a sync) the stored job at that moment. Any other step leaves it as mirrored as it was. |
| CronRuns.MirroredByTheLastConcern | internal/cron/scheduler.go:191-462 | At every moment of every run, with every call, sync and job run cut into its file accesses and locked sections and interleaved in any way with each other and with other processes' writes, an ID is mirrored if and only if the last step that concerned it found what it must. |
| CronRuns.ScheduledAreActiveAndStoredExactly | internal/cron/scheduler.go:191-462 | In every such run all IDs are mirrored all the time if and only if every step that concerns an ID finds what it must. |
| CronRuns.SyncMirrorsAllExactly | internal/cron/leader.go:73-123 | A sync lists files one by one and later takes the lock; from any state, all IDs are mirrored after its locked section if and only if every ID it keeps is at that moment stored, active and under the schedule that was listed for it. |
| CronRuns.FreshSyncMirrors | internal/cron/leader.go:73-123 | So it mends any state if no listed job was written or deleted since its file was read. |
| CronRuns.StaleSyncSchedulesAPausedJob | internal/cron/leader.go:73-123 | A run from any state with a stored active job: the sync lists it, `PauseJob` pauses it, and the locked section leaves it paused in the store and scheduled. |
| CronRuns.RecordMirrorsExactly | internal/cron/scheduler.go:423-457 | In every run, a job run's record leaves a mirrored job mirrored if and only if the job is not scheduled, or is recurring and its stored status and schedule are what the run read. |
| CronRuns.RemoveInOneGo | internal/cron/scheduler.go:228-239 | The steps of `RemoveJob` without others between them are the call. |
| CronRuns.PauseInOneGo | internal/cron/scheduler.go:243-258 | So are those of `PauseJob`. |
| CronRuns.ResumeInOneGo | internal/cron/scheduler.go:263-283 | So are a leader's of `ResumeJob`. |
| CronRuns.AddInOneGo | internal/cron/scheduler.go:191-223 | So are those of `AddJob`. |
| CronRuns.RecordInOneGo | internal/cron/scheduler.go:423-462 | The check and the record of a job's run without others between them are `updateAndPersistJob`. |
| CronRuns.RemoveMirrors | internal/cron/scheduler.go:228-239 | `RemoveJob` without others between keeps all IDs mirrored. |
| CronRuns.PauseMirrors | internal/cron/scheduler.go:243-258 | So does `PauseJob`. |
| CronRuns.ResumeMirrors | internal/cron/scheduler.go:263-283 | So does `ResumeJob`, although between its two last steps the job is scheduled and stored as paused. |
| CronRuns.AddMirrorsExactly | internal/cron/scheduler.go:191-223 | When `AddJob` has created and scheduled a job, all IDs are mirrored if and only if it could not schedule the job or the job was added as active. |
| CronRuns.PausedInTheStoreWhileScheduled | internal/cron/scheduler.go:378-462 | A run of whole calls of the scheduler between the steps of a job run that ends with the job paused in the store and still scheduled. |
| CronConsumer.AckAllExisting | internal/cron/consumer.go:41-63 | With any calls failing: what is acked, what stays pending and how many calls are made, as a function of the pending messages. |
| CronConsumer.AcksExactlyTheLowestThousand | internal/cron/consumer.go:32-63 | With a working broker, a fixed clock and no publishing, exactly the min(N, 1000) lowest-ID pending messages are acked, in ceil(N/100) + 1 calls, or ten when N is 1000 or more. |
| CronConsumer.DrainIsBounded | internal/cron/consumer.go:41-63 | Whatever fails, the loop ends within 1000 calls and never makes anything pending. |
| CronConsumer.DrainWhenAcksFail | internal/cron/consumer.go:41-63 | When every `AckAll` fails the same batch is fetched until its size, counted each time, adds up to 1000. |
| CronConsumer.ElevenCallsExactly | internal/cron/consumer.go:32-63 | With every `AckAll` failing, eleven calls suffice if and only if nothing or at least 91 messages are pending. |
| CronConsumer.ConsumeOnce | internal/cron/consumer.go:66-113 | Shows the 50 lowest pending results that decode and name a channel, in order, and acks all fetched ones unless the ack fails. |
| CronConsumer.ShownExactly | internal/cron/consumer.go:78-108 | A fetched result is shown if and only if it decodes and names a channel. |
| CronConsumer.ShownInOrder | internal/cron/consumer.go:78-108 | Results are shown in the order they were fetched in. |
| CleanPaths.CleanIdempotent | internal/sandbox/sandbox.go:232-294 | Cleaning an absolute path twice changes nothing, and its components are names. |
| CleanPaths.CleaningFollowsThePath | internal/sandbox/pathutil.go:54-56 | What cleaning means, one component at a time: a name is a step into it, "." and an empty one none, ".." a step up that stops at the root and, in a relative path with no name to leave, is kept. |
| CleanPaths.OnlyCleaningFollowsThePath | internal/sandbox/pathutil.go:54-56 | No other function from paths to components does so. |
| CleanPaths.PrefixIsComponentPrefix | internal/sandbox/sandbox.go:41-51 | For every root but "/" the string-prefix test accepts exactly the paths whose components start with the root's; for "/" it accepts "/" alone. |
| CleanPaths.SubpathIsComponentPrefix | internal/sandbox/pathutil.go:40-46 | `IsSubpath` holds of absolute paths exactly when the base's components are a prefix of the path's. |
| CleanPaths.RelLeadsToTheTarget | internal/sandbox/pathutil.go:40-46 | The relative path that `IsSubpath` looks at leads from the base to the path. |
| SandboxPaths.ResolveComponents | internal/sandbox/sandbox.go:276-294 | `ResolvePath` accepts exactly the paths at or under the virtual root and moves the rest of their components under the root. |
| SandboxPaths.RealToVirtualComponents | internal/sandbox/sandbox.go:322-344 | A real path under the root becomes the same components under the virtual root. |
| SandboxPaths.ExternalPathsAreMarked | internal/sandbox/sandbox.go:322-344 | A real path outside the root becomes its last name under "[external]". |
| SandboxPaths.RelativePathsAreInTheWorkingDirectory | internal/sandbox/sandbox.go:322-334 | A relative real path is taken in the working directory. |
| SandboxPaths.RootInOtherLettersIsTheVirtualRoot | internal/sandbox/sandbox.go:336-338 | A path that is the root but for the case of letters becomes the virtual root. |
| SandboxPaths.WithoutRootsNothingMoves | internal/sandbox/sandbox.go:232-325 | Without a virtual root, and from real to virtual without a root, every path stays as it is. |
| SandboxPaths.VirtualRoundTrip | internal/sandbox/sandbox.go:276-344 | Virtual to real and back gives the cleaned virtual path. |
| SandboxPaths.RealRoundTrip | internal/sandbox/sandbox.go:276-344 | Real to virtual and back gives the cleaned real path. |
| SandboxPaths.InverseExactlyOffTheFileSystemRoot | internal/sandbox/sandbox.go:276-344 | For absolute roots the two translations are mutually inverse if and only if neither root is "/". |
| SandboxPaths.AutoResolveComponents | internal/sandbox/sandbox.go:232-273 | Every absolute path resolves, a relative one fails exactly when cleaning VirtualRoot/path leaves the virtual root, and the answer is the root or a clean path under it with the stated components. |
| SandboxPaths.EscapesExactly | internal/sandbox/sandbox.go:268-294 | A relative path is refused if and only if, cleaned, it begins with k steps up and does not come back through the last k names of the virtual root (all of them when there are fewer). |
| SandboxPaths.ParentIsRefused | internal/sandbox/sandbox.go:268-294 | "../x" is refused for every x but the last name of the virtual root. |
| SandboxPaths.AutoResolveIdempotentExactly | internal/sandbox/sandbox.go:232-273 | Resolving a second time changes nothing, for every path, if and only if the two roots are the same directory or neither is inside the other. |
| SandboxPaths.AutoResolvedIsCovered | internal/sandbox/sandbox.go:171-273 | What `AutoResolvePath` answers is inside the root by the test the access decision uses. |
| SandboxPaths.IsAllowed | internal/sandbox/sandbox.go:171-228 | Everything without a policy; otherwise a path under a read-only entry can be read and never written, and any other exactly when an allow entry or the root covers it. |
| SkillsSection.InsideCodeBlock | internal/bootstrap/bootstrap.go:303-312 | True exactly when the text has an odd number of fence lines. |
| SkillsSection.InFenceExactly | internal/bootstrap/bootstrap.go:303-312 | The number of fence lines as the size of a set. |
| SkillsSection.FenceLineExactly | internal/bootstrap/bootstrap.go:303-312 | A fence line begins, after white space, with three backquotes. |
| SkillsSection.FoundExactly | internal/bootstrap/bootstrap.go:268-297 | What the two searches find, by characters: the first header at a line start, and the first heading that does not end the text, with an even number of fence lines before it. |
| SkillsSection.FindMarker | internal/bootstrap/bootstrap.go:268-283 | Finds the first header at a line start outside fenced code, or that there is none. |
| SkillsSection.FindHeading | internal/bootstrap/bootstrap.go:288-297 | Finds the first "## " heading outside fenced code that does not end the text, or that there is none. |
| SkillsSection.ReplaceSkillsSection | internal/bootstrap/bootstrap.go:267-299 | The new prompt is the text before the live header, the section and the text from the next live heading found on; without a header the section is appended. |
| SkillsSection.KeepsTheNextSectionExactly | internal/bootstrap/bootstrap.go:267-299 | The text before the header is kept, and the text from the next live heading on if and only if that heading is not on the line right after the header. |
| SkillsSection.NextSectionIsSwallowed | internal/bootstrap/bootstrap.go:284-299 | The failing prompts: a section right under the header is lost. |
| SkillsSection.ReplacementIsIdempotentExactly | internal/bootstrap/bootstrap.go:267-299 | For every section of the catalog's shape, replacing twice is replacing once if and only if the prompt has a live header or does not end inside an open fence. |
| SkillsSection.EmptySectionGrows | internal/bootstrap/bootstrap.go:284-285 | With an empty section each refresh of a prompt without a header adds a blank line. |
| ShellWords.NextShellWord | internal/tools/shell.go:261-299 | The scanner reads the word the specification gives and never moves backwards; its loop is bounded by the text. |
| ShellWords.SplitShellWords | internal/tools/shell.go:305-324 | Yields the words of the specification; the guard against no progress is never needed. |
| ShellWords.ExtractRedirectWriteTargets | internal/tools/shell.go:368-435 | Yields the targets of the specification and always ends. |
| ShellWords.EverySpellingIsRead | internal/tools/shell.go:261-299 | However a word is spelt (bare, escaped, in either quotes, in pieces), it is read as that word and to its end, with backslash escapes on or off. |
| ShellWords.PlainTextIsItself | internal/tools/shell.go:261-299 | Text without white space, quotes and backslashes is read as itself. |
| ShellWords.OpenEndsAreRead | internal/tools/shell.go:261-299 | A quote that is never closed takes everything up to the end, and a last backslash stands for itself. |
| ShellWords.SplitReadsTheLine | internal/tools/shell.go:305-324 | Splitting any line of spelt words gives back their meanings in order, except that empty ones are dropped. |
| ShellWords.QuotedWordsRoundTrip | internal/tools/shell.go:305-324 | Double-quoting words and splitting again is the identity if and only if no word is empty; else exactly the empty ones are missing. |
| ShellWords.RedirectsAreExact | internal/tools/shell.go:368-435 | In any line of spelt words, redirections and operators without a word, with or without space between them (`x>f`, `2>f`, `2>&1`), the targets are exactly the redirected non-empty words in order, with append exactly for `>>`; quoted or escaped `>` never count. |
| ShellWords.ScannersAgreeExactly | internal/tools/shell.go:277-403 | On every text the two scanners see the same quotes if and only if it has no escaped single quote inside single quotes. |
| ShellWords.WordFollowsItsQuoting | internal/tools/shell.go:266-294 | The quoting this is stated with is how the word scanner goes on from each character. |
| ShellWords.RedirectsFollowTheirQuoting | internal/tools/shell.go:373-403 | And how the redirection scanner does. |
| ShellWords.QuotedRedirect | internal/tools/shell.go:368-435 | A quoted word, `>` and a quoted non-empty file name give exactly that file. |
| ShellWords.ScannersDisagreeInSingleQuotes | internal/tools/shell.go:277-386 | A line with such a quote: to the word scanner it is one word, to the redirection scanner it holds a target. |
| PostRows.SegmentRows | internal/channel/feishu.go:558-591 | The loop's rows are those of the segments of the lines, blank ones left out. |
| PostRows.BuildMarkdownPostRows | internal/channel/feishu.go:547-597 | One text row for empty content, one Markdown row without a fence, else the rows of the segments. |
| PostRows.OpensExactly | internal/channel/feishu.go:572-588 | A line opens a block if and only if it begins, after white space, with three backquotes. |
| PostRows.ClosesExactly | internal/channel/feishu.go:572-588 | It closes one if and only if nothing but white space is beside them. |
| PostRows.SegmentsAreASegmentation | internal/channel/feishu.go:572-591 | The segments are all the lines in order, cut into closed blocks and the longest runs of prose between them, with at most an unclosed block at the end. |
| PostRows.SegmentationIsUnique | internal/channel/feishu.go:572-591 | Lines can be cut that way in one way only. |
| PostRows.ContentIsKept | internal/channel/feishu.go:562-591 | Joined by newlines the segments are the content; the rows are those of them that are not blank, in order. |
| PostRows.NonBlankExactly | internal/channel/feishu.go:562-570 | A row is the text of a segment that is not all white space, and every such text is a row. |
| PostRows.ClosedBlockIsOneRow | internal/channel/feishu.go:572-588 | A closed fenced block that begins outside any other is exactly one row, between the rows of the lines above and below it. |
| PostRows.SomeRowIsKept | internal/channel/feishu.go:593-595 | Content with a fence always has a row, so the fallback is never taken. |
| Reexec.BuildReexecArgs | internal/sandbox/landlock_linux.go:31-49 | The arguments are the marker and the printed policy, command and arguments. |
| Reexec.HandleSandboxChildMode | internal/sandbox/landlock_linux.go:86-129 | Reads any argument list: not a child, a missing command, or options and command. |
| Reexec.ChildReadsThePolicy | internal/sandbox/landlock_linux.go:31-124 | For all strings, values equal to "--" or an option name included, the child reads back root, lists, network flag, command and arguments exactly. |
| Reexec.PrintingLosesNothing | internal/sandbox/landlock_linux.go:31-49 | Different policies, commands or arguments are never printed alike. |
| Reexec.PrintingIsCanonical | internal/sandbox/landlock_linux.go:86-124 | Printing what a child read from any arguments gives arguments that are read the same. |
| Reexec.OtherArgumentsAreSkipped | internal/sandbox/landlock_linux.go:92-121 | Arguments that are no option are passed over. |
| Reexec.NoCommandWithoutSeparator | internal/sandbox/landlock_linux.go:92-129 | Without "--" there is no command. |
| AgentLoop.ExecuteParallel | internal/tools/registry.go:78-91 | In whatever order the workers finish, result i is the answer to call i. |
| AgentLoop.Agent.ReadStream | internal/agent/loop.go:178-218 | Reads chunks as specified: an early end, or the content and the calls. |
| AgentLoop.ReadingIsExact | internal/agent/loop.go:178-218 | A stream is read to its first final chunk that has no call in it or before it, or else to its end, with all content and calls up to there in order. |
| AgentLoop.ChunksInOrder | internal/agent/loop.go:178-218 | Texts and calls of chunks are put together in the order they came. |
| AgentLoop.Agent.ExecuteTurn | internal/agent/loop.go:95-307 | What one turn, complete or streamed, adds to the session and how the loop goes on. |
| AgentLoop.Agent.RunLoop | internal/agent/loop.go:42-73 | Adds the prompt and then what the turns add; reports outcome, number of provider calls and turn count, and makes at most `MaxTurns` calls. |
| AgentLoop.LoopStopsExactly | internal/agent/loop.go:42-73 | The loop ends with the first turn that answers without a call (a reply, or a stream with a final chunk that no call comes before) or fails, and reports which, or `MaxTurns` when none does. |
| AgentLoop.StatusExactly | internal/agent/loop.go:95-311 | A turn stops the loop if and only if it answers without a call, and fails it if and only if the provider did. |
| AgentLoop.RepliesAreRecorded | internal/agent/loop.go:95-307 | In every run, of Prompt or Stream, the transcript is the turns' replies with their content, calls and answers, in order, up to the turn the loop stopped at; a streamed turn counts as a reply if some chunk ends it or it holds a call. |
| AgentLoop.StreamIsLostExactly | internal/agent/loop.go:181-311 | A streamed turn leaves nothing, and the loop asks again, if and only if no chunk ends the reply and the stream holds no call. |
| AgentLoop.TextIsLost | internal/agent/loop.go:181-311 | Such a stream: one chunk of text that is not final. |
| AgentLoop.AnswersAreTheTools | internal/tools/registry.go:66-91 | In every run the tool results in the transcript are, each as often, exactly what the tools answered to the calls of the turns, or for an unknown tool the error that says so. |
| AgentLoop.SuccessEndsCallFree | internal/agent/loop.go:95-142 | A successful run ends on an assistant message without calls. |
| AgentLoop.RunKeepsTheShape | internal/agent/loop.go:95-307 | In every run each assistant message with calls is followed at once by exactly one tool message per call, in call order for `Prompt` and normal tools before streaming ones for `Stream`, and there are no other tool messages; so for a session of either kind and for a mixed one. |
| AgentLoop.ArrangedIsAPermutation | internal/agent/loop.go:227-236 | Normal tools before streaming ones is a permutation of the calls. |
| AgentLoop.NormalToolsComeFirst | internal/agent/loop.go:227-236 | It has the calls of tools that do not stream, or are unknown, before those that do. |
| AgentLoop.PickedInOrder | internal/agent/loop.go:227-236 | Calls of one kind stay in the order they were asked in. |
| AgentLoop.AnsweredIds | internal/agent/loop.go:220-307 | The call IDs answered are those asked for, each as often as it was asked. |
| AgentLoop.ShapedFrom | internal/agent/agent.go:48-63 | The end of a well-shaped transcript is well shaped if and only if it does not begin with an answer. |
| Compaction.Session.AddMessage | internal/agent/agent.go:48-63 | Appends; over 1000 messages the oldest go, but never a system message at the head. |
| Compaction.AddAllKeepsTheEnd | internal/agent/agent.go:48-63 | After any number of additions the log has min(1000, all) messages and ends like what was written. |
| Compaction.SystemMessageStays | internal/agent/agent.go:48-63 | A system message at the head outlives every addition and every compaction. |
| Compaction.Session.ReplaceSessionMessages | internal/agent/compaction.go:102-132 | The new log is head, summary, kept messages and the messages since the snapshot; the message after the head is the assistant's, calls nothing and ends with the summary; the tracker is the log's estimate. |
| Compaction.Session.RunCompress | internal/agent/compaction.go:61-100 | With the provider's replies as input: the log holds after its head an assistant message that ends with the trimmed first reply, or with the second if that says something and is at most a fifth longer, and at its end the kept third and what came since; a failed summary changes neither log nor tracker. |
| Compaction.CompactionKeepsTheNewest | internal/agent/compaction.go:102-132 | Of k messages added after a snapshot of n the last min(k, 1000 - n) are kept in order, all of them if and only if n + k is at most 1000. |
| Compaction.CompactedSession | internal/agent/compaction.go:102-132 | From four messages on and within the limit, the session is head, summary, the kept third and every message since, and no longer than before. |
| Compaction.CompactedEstimate | internal/agent/tokenest.go:37-59 | Its estimate is the sum of the estimates of those parts. |
| Compaction.SummarizingGrowsExactly | internal/agent/compressor.go:67-86 | Summarizing makes a session longer if and only if the snapshot has fewer than four messages. |
| Compaction.CompressingGrowsExactly | internal/agent/compaction.go:76-92 | Full compression makes it longer if and only if the snapshot is no longer than the kept head. |
| Compaction.StaleSnapshotLosesExactly | internal/agent/compaction.go:13-66 | When a compaction's snapshot is older than another one's replacement, with any messages between the snapshots, before and after that replacement: it loses the oldest messages its snapshot does not hold, as many as the first made the session shorter; if the first made it longer, none, and that many are kept twice. |
| Compaction.OlderSnapshotLosesExactly | internal/agent/compaction.go:13-66 | The same when the late compaction's snapshot is also older than the first one's: by as much as what the first put in place is shorter than that snapshot, the oldest messages after the first one's snapshot are lost, and of those between the snapshots only what the first kept as it was and stands beyond that length remains. |
| Compaction.Shortening | internal/agent/compressor.go:67-93 | By how much summarizing and full compression make the session shorter. |
| Compaction.CompactionKeepsTheShapeExactly | internal/agent/compressor.go:67-86 | Compaction keeps every call with its answers if and only if the first kept message is not an answer. |
| Compaction.Optimized | internal/agent/compressor.go:132-173 | The summary used is the first one, or a second that is not empty and at most a fifth longer in UTF-8 bytes. |
| Compaction.CharBytesAreUtf8 | internal/agent/compressor.go:166-170 | A character's length is the shortest form of RFC 3629 section 3 that holds it. |
| Compaction.CheckIsMonotone | internal/agent/compressor.go:45-65 | More tokens or more turns never call for a weaker compaction, however the float64 ratio is rounded. |
| Compaction.CheckComparesShares | internal/agent/compressor.go:45-65 | Without rounding, full compression is called for exactly from the threshold's share of the window on, and nothing exactly below all thresholds. |
| Compaction.EstimateTokens | internal/agent/tokenest.go:10-35 | A quarter of the narrow characters, rounded down, all wide ones, counted as a set, and three; or nothing for empty text. |
| Compaction.EstimateMessagesUsage | internal/agent/tokenest.go:37-59 | Prompt and completion sums by role, and their total. |
| Compaction.MessageIsItsTexts | internal/agent/tokenest.go:37-59 | A message costs what its texts cost: the content with the names and arguments of its calls, or a tool's output and error. |
| Compaction.EstimateOfOne | internal/agent/tokenest.go:37-59 | It counts as completion when it is the assistant's and as prompt otherwise. |
| Compaction.EstimateTurnUsage | internal/agent/tokenest.go:61-72 | The provider's usage if it gives a total, else prompt, completion and their sum. |
| Compaction.EstimateAdds | internal/agent/tokenest.go:37-59 | The estimate of two message lists together is the sum of their estimates. |
| Compaction.OneTextIsCheaper | internal/agent/tokenest.go:10-35 | One text costs two or three tokens less than its two non-empty parts. |
| StreamCalls.ReadStream | internal/llm/openai/provider.go:120-208 | Emits, event by event, exactly the chunks the specification gives, whatever order the pending map is visited in. |
| StreamCalls.InterleavingDoesNotMatter | internal/llm/openai/provider.go:166-182 | The assembled calls depend only on each index's own deltas in their order. |
| StreamCalls.ArgumentsInOrder | internal/llm/openai/provider.go:166-182 | Arguments are their pieces in the order they came. |
| StreamCalls.LastIdCounts | internal/llm/openai/provider.go:172-174 | Of the IDs given for an index the last one counts. |
| StreamCalls.LastNameCounts | internal/llm/openai/provider.go:175-178 | Of the names, too. |
| StreamCalls.StreamedEqualsUnstreamed | internal/llm/openai/provider.go:166-202 | For every fragmentation and interleaving of a message the calls are those of the unstreamed response, in index order. |
| StreamCalls.ToProviderResponse | internal/llm/openai/types.go:107-147 | The unstreamed form: the first choice's content, calls in order and stop reason, or an empty response. |
| StreamCalls.EmittedCalls | internal/llm/openai/provider.go:188-206 | Of any stream the emitted calls are all those assembled so far, at every "tool_calls" finish. |
| StreamCalls.TextsAreEmitted | internal/llm/openai/provider.go:120-208 | Apart from calls a stream emits one chunk for each choice with its content and whether it is finished, one for each error, and at the end the usage given last, in order. |
| StreamCalls.CallsComeBeforeTheirFinish | internal/llm/openai/provider.go:184-206 | Every call is emitted before the chunk that says its choice is finished, with nothing but calls between. |
| StreamCalls.OneFinishEmitsTheMessage | internal/llm/openai/provider.go:120-208 | With one finish a fragmented message is emitted as exactly the unstreamed calls, once. |
| StreamCalls.CallsRepeatPerFinish | internal/llm/openai/provider.go:188-206 | When all deltas come at or before the first finish, the calls are emitted once per finish; so, if there are any, once if and only if there is one finish. |
| StreamCalls.SecondFinishRepeats | internal/llm/openai/provider.go:188-202 | For a fragmented message the unstreamed calls come once per finish, because pending calls are not cleared. |
| ChannelManager.Manager.Register | internal/channel/manager.go:40-50 | A new session is added under its channel; a known one only has its heartbeat moved. |
| ChannelManager.Manager.Unregister | internal/channel/manager.go:53-80 | Removes the session with its heartbeat and local mark unless it is registered with another channel. |
| ChannelManager.Manager.Heartbeat | internal/channel/manager.go:145-153 | Moves the heartbeat of a registered session and fails for any other. |
| ChannelManager.Manager.MarkLocal | internal/channel/manager.go:157-161 | Marks the session local and changes nothing else. |
| ChannelManager.Manager.ExpireStale | internal/channel/manager.go:217-250 | Removes and closes exactly the sessions neither local nor heard from within the timeout, each channel object once, in whatever order the table is visited. |
| ChannelManager.OneEntryPerSession | internal/channel/manager.go:20-50 | In every table the methods leave, a session has at most one entry. |
| ChannelManager.RegisteredHaveEntries | internal/channel/manager.go:71-79 | The sessions with a heartbeat are exactly those with an entry. |
| ChannelManager.ListsFewer | internal/channel/manager.go:53-65 | Swap-removal takes out the one entry and keeps all the others. |
| ChannelManager.StaysExactly | internal/channel/manager.go:145-250 | In every run a session stays registered throughout if and only if nothing unregisters it from its channel and at every expiry it is local or was heard from in time. |
| ChannelManager.LocalNeverExpires | internal/channel/manager.go:155-161 | A local session is never expired. |

## Left out

- SQLite's locking, WAL mode, busy timeouts and query plans: a statement or transaction is one atomic step.
- The `acked_at` column, `listSessions`, and how `pid` and start times are printed: nothing modelled depends on them.
- SQL errors outside `Cleanup` and of the lease statements: the methods' success paths are modelled, and in `LeaseProtocol` a lease statement may take effect without its reply.
- robfig/cron: a set of entries, a running flag and a number of jobs in flight; which expressions parse and when an entry fires next are inputs.
- The run store's records and the text of published results.
- Job files on disk, YAML and the directory fingerprint behind `HasChanged`: the store is a map, and a sync pass is modelled from the point where it saw a change.
- JobStore.Store.List: in runs (`JobStore.Apply`) it appears as one `Refresh` per job it returns; the order of the directory listing is not modelled.
- CronScheduler.Scheduler.RemoveJob, PauseJob, ResumeJob and AddJob: nothing comes between their steps; `CronRuns` has the steps apart.
- CronScheduler.Scheduler.RescheduleAllJobs: nothing comes between its locked sections; `BecomeLeaderSchedulesTheStore` lets other threads' calls come between them.
- CronRuns.MirroredByTheLastConcern: the steps of `becomeLeader` and of step-down are not part of these runs (`EntryIndex` and `SchedulerProcess` have them), and a write to one job file is one step.
- CronConsumer.AckAllExisting: the clock stands still and nothing is published between its calls.
- LeaseProtocol.OneFreshLeader: nothing is said about a leader flag whose lease has run out, because the code leaves it set until the next renew, and that a new leader is elected is possible (`StarterCanTakeOver`) but not certain, because a process that starts as a follower never tries again.
- Symlink resolution (`EvalSymlinks`, `normalizePath`): a map from paths to normalized paths; Windows path rules.
- SandboxPaths.RealRoundTrip: for paths under the root as the file system compares names; a path equal to the root but for letter case is also answered with the virtual root, because `RealToVirtual` folds case on Unix too.
- CleanPaths.SubpathIsComponentPrefix: for absolute paths, which is how it is called.
- `SandboxedCmd`, command blocking, path rewriting in command text and output, and the Landlock, Seatbelt and Windows calls.
- Shell parsing with mvdan.cc/sh and the `tee` scanner: the first is a library, the second adds an easy member over the word splitter.
- ShellWords.RedirectsAreExact: words outside redirections with an escaped single quote inside single quotes are excluded, because there the two scanners disagree (`ScannersAgreeExactly`).
- Compaction.StaleSnapshotLosesExactly, OlderSnapshotLosesExactly: while the log stays within its limit of 1000 messages.
- Bytes that are not valid UTF-8: texts are sequences of characters, and every character the scanners look at is ASCII.
- SkillsSection.ReplacementIsIdempotentExactly: for sections that begin with the header line and hold no further heading and no fence line, as the catalog prints them.
- AgentLoop.Agent.RunLoop: the session it appends to is not trimmed or compacted (`Compaction` does that), runs are not cancelled, and short-term memory, usage and events are left out; a missing tool's name is not escaped in its error text.
- Compaction.EstimateTokens: which characters are wide is an input; the Unicode tables are not part of this model.
- The prompts sent to the summarizing model, memory extraction and promotion.
- StreamCalls.ReadStream: JSON decoding and the stream's idle watchdog; an event is its decoded content or an error.
- ChannelManager.Manager.ExpireStale: closing a channel is the returned list of channels; message fan-out (`Notify`) and the timer goroutine are left out.
