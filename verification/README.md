# skipprd: verified models

Dafny models of the stateful core of skipprd, with proofs. `dafny verify dfyconfig.toml` checks all of it.

| files | what they model |
|---|---|
| `CdcTables`, `CdcBulk`, `CdcEquivalence`, `CdcTombstones`, `CdcReplay`, `CdcBatch`, `CdcDelivery`, `OrderTokens` | applying change rows to a keyed target table and a tombstone table: the row-at-a-time guarded path, the four-MERGE bulk plan and Redshift's six statements |
| `StatementPacker` | packing encoded stage rows into INSERT statements |
| `CatalogTypes`, `OutboxIndex`, `OutboxStore`, `OutboxEntries`, `CatalogOutbox` | the durable catalog outbox: its in-memory index, one file per intent, lost and surviving directory changes |
| `CatalogDrain`, `CatalogDelivery` | draining the outbox into Glue, in any number of passes, while callers keep persisting |
| `SchemaFlights`, `SchemaRuns`, `SchemaOutcomes`, `SchemaCoordinator` | single-flight schema publication, with cancelled leaders and followers |
| `SchemaSuperset`, `SchemaSeqlock`, `SchemaReads` | the versioned schema read of the ingest path |
| `IngestQueue`, `IngestCapacity`, `IngestOrder`, `IngestProgress`, `IngestStranding` | task admission, worker completion and the monitor thread: counters, limits, order and progress |
| `BisectSerializer` | the bisecting Arrow serializer and its CDC sidecar |
| `Texts`, `WalSlices`, `SnapshotAncestry` | the `skippr.wal-slices` property and the ancestry walk |
| `SortedKeys`, `WalRefIdentity`, `WalRefFingerprint`, `WalRefReader` | the byte identity of WAL references, their canonical order and the bytes hashed for a list of them |
| `PairedConfig`, `PairedGroups`, `PairedEntries` | configuration writes that keep paired sinks equal |

SQL statements are modelled by what they do to the two tables, concurrent code as a state machine
with one step per lock operation, atomic operation, channel operation or suspension point, and
results are stated over every run. Clocks, file system outcomes, Glue answers, serializer verdicts and
digests are parameters. SHA-256 ids are taken to be injective, and an intent's id to be 64 hex digits.

## What the proofs found

Some natural claims are false of the code. For each there is a witness, and a theorem that says exactly when it holds.

- The bulk plan and the guarded path leave the same target for a batch exactly when, among the newest rows
  of each key, the first one delivered and the one with the lowest ordinal carry the same content
  (`CdcEquivalence.BulkMatchesGuardedExactly`). Batches built by the appender always do; validation alone
  does not ensure it (`CdcBatch.AcceptedTiesDisagree`).
- Their tombstone tables can still differ (`CdcEquivalence.StaleDeleteLeavesTombstone`). They are equal for
  every starting table exactly when, for each key whose winner is an upsert, every delete is followed by a
  newer upsert (`CdcTombstones.TombstonesAgreeExactly`).
- The two paths agree on every target exactly when the batch names all of the target's columns
  (`CdcBatch.CoverageIsExact`): a delete followed by an insert clears an unnamed column on the guarded
  path and keeps it on the bulk path.
- Reopening the outbox clears `directory_sync_required` without syncing the directory, so after a failed
  sync and a restart a coalesced `persist` can return Ok for an intent that a power loss still removes
  (`OutboxStore.UnsyncedRestartLosesIntent`, exact condition in `OutboxStore.RestartExactly`).
- The background worker and a shutdown drain can work on one intent at the same time, and then Glue can end
  at a location that has been replaced (`CatalogDrain.TwoPassesDiverge`). Every run converges exactly when
  passes can meet only on ids whose location never changes (`CatalogDrain.ConvergesExactly`).
- A comment at `src/ingest_work.rs:4358-4361` says that the versioned read never pairs a new schema with
  an old version number. The code stores the schema before it bumps the version, so it can
  (`SchemaSeqlock.NewSchemaOldVersion`); the pair is exact if and only if no publisher is between its
  store and its bump (`SchemaSeqlock.StableRead`). The model follows the code.
- With fingerprints of different lengths a CDC part and a plain part can share an identity
  (`WalRefIdentity.LengthsMustMatch`). Identities are equal exactly when the leading fields and the
  joined tails are (`WalRefIdentity.IdentityExactly`).
- Two lists that mix CDC and plain parts can hash the same bytes without sharing a reference, at every
  fingerprint length (`WalRefFingerprint.MixedListsCollide`). The bytes determine the references exactly
  when the two kinds are not allowed in the same lists (`WalRefFingerprint.DeterminedExactly`).
- A queued task can be left behind. The producer sees every thread busy; all of them finish and the monitor
  finds the queue empty; then the producer queues its task, and unless it lets another one in, no completion
  is left to start it (`IngestStranding.ATaskIsStranded`). Once the producers wait, every schedule
  ends all tasks exactly when no task waits with nothing running and the monitor idle
  (`IngestProgress.CompletesExactly`), and with one producer that state can be reached exactly when the
  queue may be longer than the pool (`IngestStranding.StrandsExactly`), as it may by default.
- The CDC sidecar lines up with the emitted rows for every serializer exactly when there is one CDC row
  per record (`BisectSerializer.AlignmentIsExact`).

## Model

| member | source | states |
|---|---|---|
| CdcTables.ApplyRowKeepsInv | plugins/shared/cdc_apply_core.rs:57-204 | every guarded row keeps each target row under its own key, no tombstone newer than the live row beside it, and no tombstone beside a row without a token |
| CdcTables.ApplyRowWrites | plugins/shared/cdc_apply_core.rs:57-204 | one guarded row is one last-writer-wins register write at its key, changing it only for a strictly greater token, and nothing at any other key |
| OrderTokens.LessExactly | plugins/shared/cdc_apply_core.rs:57-204 | a token is older exactly when, at the first position where the two differ, it ends or has the lower byte: the order of every result about newer and older events |
| CdcBulk.BestIsFirst | plugins/shared/cdc_apply_core.rs:855-872 | the winner of a key is one of its rows and no row of the key has a greater token, or the same token and a lower ordinal |
| CdcBulk.WinnersAreRowNumberOne | plugins/shared/cdc_apply_core.rs:860-872 | with distinct ordinals the winners are exactly the rows that ROW_NUMBER() numbers 1 |
| CdcBulk.RedshiftMatchesMerges | plugins/shared/cdc_apply_core.rs:899-1056 | for every pair of tables and every winner relation, Redshift's six statements leave exactly the tables the four MERGEs leave |
| CdcBulk.MergesAtKey | plugins/shared/cdc_apply_core.rs:899-962 | at every key the four MERGEs do what one guarded transaction of the winner does |
| CdcEquivalence.ApplyRowsWrites | plugins/shared/cdc_apply_core.rs:1114-1196 | the guarded path over a batch is the batch's register writes, key by key |
| CdcEquivalence.MergesWrite | plugins/shared/cdc_apply_core.rs:861-962 | the bulk plan writes each key's winner to its register and touches no other key |
| CdcEquivalence.MergesKeepInv | plugins/shared/cdc_apply_core.rs:899-962 | the bulk plan keeps the invariant of reachable tables |
| CdcEquivalence.ScanIsEarliest | plugins/shared/cdc_apply_core.rs:1114-1196 | a whole batch of writes to a register is one write of the first row that has the greatest token |
| CdcEquivalence.RegistersAreTheTarget | plugins/shared/cdc_apply_core.rs:57-204 | under the invariant, equal registers are exactly equal targets (values and tokens) with equal watermarks per key |
| CdcEquivalence.BulkMatchesGuardedExactly | plugins/shared/cdc_apply_core.rs:861-962 | from every reachable state the two paths leave the same target and watermarks, if and only if the batch's ties agree |
| CdcEquivalence.AscendingBatchAgrees | plugins/shared/cdc_apply_core.rs:1114-1196 | a batch in ascending ordinal order always agrees, from every reachable state |
| CdcEquivalence.StaleDeleteLeavesTombstone | plugins/shared/cdc_apply_core.rs:137-204 | a stale delete leaves a tombstone on the guarded path and none on the bulk path |
| CdcTombstones.TombstonesAgreeExactly | plugins/shared/cdc_apply_core.rs:861-962 | both paths leave the same tombstone table from every pair of tables, if and only if for each key whose winner is an upsert every delete is followed by a newer upsert of the key |
| CdcReplay.RunKeepsInv | plugins/shared/cdc_apply_core.rs:57-204 | every state reached by any sequence of batches and plans satisfies the invariant |
| CdcReplay.PlansIndistinguishable | plugins/shared/cdc_apply_core.rs:861-962 | no later sequence of batches can tell the results of different plans apart through the target or the watermarks |
| CdcReplay.RunSettles | plugins/shared/cdc_apply_core.rs:57-204 | after any run a register is as it was, or holds one delivered event newer than that, and no delivered event of the key is newer than its watermark |
| CdcReplay.ReplayConverges | plugins/shared/cdc_apply_core.rs:57-204 | runs that deliver the same events, in any order, any number of times, in any batches, by any plans, leave the same target and watermarks when the newest events of a key agree |
| CdcReplay.ReplayConvergesExactly | plugins/shared/cdc_apply_core.rs:57-204 | that condition is exact: every delivery of the same events converges if and only if the newest events of each key agree |
| CdcBatch.Validate | plugins/shared/cdc_apply_core.rs:409-459 | accepts exactly the well-formed batches; an error is the first check that fails, with its details |
| CdcBatch.AcceptedExactly | plugins/shared/cdc_apply_core.rs:409-459 | what is accepted: columns with types and distinct names, key columns among them, rows of full width with a token and an ordinal of their own |
| CdcBatch.Append | plugins/shared/cdc_apply_core.rs:470-510 | each appended row has its record's values, its metadata's event id and token, the running ordinal, and is a delete exactly for delete metadata; it fails exactly when metadata is missing, and the rows before the gap stay |
| CdcBatch.AppendKeepsAscending | plugins/shared/cdc_apply_core.rs:470-510 | batches filled at running offsets have ascending ordinals |
| CdcBatch.AcceptedStages | plugins/shared/cdc_apply_core.rs:409-459 | an accepted batch with non-null keys stages rows both paths can take, with distinct ordinals |
| CdcBatch.AcceptedTiesDisagree | plugins/shared/cdc_apply_core.rs:409-459 | a batch that validation accepts and on which the two paths disagree: one key and token twice, descending ordinals, different values |
| CdcBatch.EveryPlanAgrees | plugins/shared/cdc_apply_core.rs:724-1109 | for every batch that was filled in order and validated, all three plans leave the same target and watermarks |
| CdcDelivery.AppendFills | plugins/shared/cdc_apply_core.rs:470-510 | record batches appended at their running offset make a batch of all their records with the metadata at their positions |
| CdcDelivery.BatchShows | plugins/shared/cdc_apply_core.rs:470-1196 | for a filled and accepted batch, by any plan, at any key: the first of the newest records decides; if it is not newer than row and tombstone the row stays, if it is a delete the row is gone and the tombstone has its token, otherwise the row has exactly its values, column by column, and its token |
| CdcDelivery.BatchRaisesTheMark | plugins/shared/cdc_apply_core.rs:470-1196 | afterwards exactly those events are newer than row and tombstone of the key that were so before and are newer than the record that decided |
| CdcDelivery.SomeRecordDecides | plugins/shared/cdc_apply_core.rs:861-872 | every key with a delivered record has one that decides it |
| CdcDelivery.OtherKeysStay | plugins/shared/cdc_apply_core.rs:861-1196 | a key that no record has keeps its row and tombstone, by any plan |
| CdcBatch.CoverageIsExact | plugins/shared/cdc_apply_core.rs:861-962 | both paths agree on every table and batch if and only if the batch names all target columns |
| StatementPacker.CheckRows | plugins/shared/cdc_apply_core.rs:787-824 | refuses exactly the batches with a row too long for a statement or too many bytes in all, and reports the first such row with the exact size |
| StatementPacker.FullStaysAhead | plugins/shared/cdc_apply_core.rs:825-844 | after as many statements, a greedy split is never behind another order-preserving split within the limits |
| StatementPacker.FullIsOptimal | plugins/shared/cdc_apply_core.rs:825-844 | no order-preserving split within the limits uses fewer statements than a greedy one |
| StatementPacker.NextRow | plugins/shared/cdc_apply_core.rs:825-844 | the running byte count is the exact length of the open statement, and the test closes it exactly when the next row no longer fits |
| StatementPacker.PackRows | plugins/shared/cdc_apply_core.rs:825-844 | every row is emitted once and in order, every statement is the exact rendering of its rows and within the limits, and no such split is shorter |
| StatementPacker.RenderedRows | plugins/shared/cdc_apply_core.rs:836-843 | what a statement is made of around any of its rows: the prefix, the rows before it each followed by a comma and a line break, the row, the rows after it each preceded by them, and a semicolon |
| OutboxIndex.MirrorsDetermined | src/catalog_outbox.rs:70-114 | the due set, created set, terminal count and oldest time are determined by the entries |
| OutboxIndex.PendingPlusTerminal | src/catalog_outbox.rs:257-272 | waiting and terminal entries together are all entries |
| OutboxIndex.Index.Upsert | src/catalog_outbox.rs:81-91 | replaces one entry and keeps the derived sets, count and oldest time those of the entries |
| OutboxIndex.Index.Remove | src/catalog_outbox.rs:93-105 | removes one entry, returns what was there, and keeps the derived parts those of the entries |
| OutboxIndex.Index.DueIds | src/catalog_outbox.rs:107-114 | the least `limit` non-terminal due entries by (time, id), in order |
| CatalogTypes.DueBound | src/catalog_outbox.rs:107-114 | the range bound made of the time and the greatest character admits exactly the entries due by then |
| OutboxStore.RunKeepsFlagSound | src/catalog_outbox.rs:172-226 | along every run of persists, deliveries, failures, power losses and restarts with the flag clear, a clear flag means the durable directory is the visible one |
| OutboxStore.PersistOkIsDurable | src/catalog_outbox.rs:172-226 | once persist returns Ok, every intent of the call, coalesced ones included, is recovered after any power loss |
| OutboxStore.SurvivesRun | src/catalog_outbox.rs:172-355 | an intent that is durable stays recoverable along every run until its id is re-persisted with other content or delivered |
| OutboxStore.PersistedIsRecovered | src/catalog_outbox.rs:141-355 | end to end: after any run with clean restarts, an intent whose persist returned Ok is the one recovered after every later run of calls, power losses and restarts that does not replace or deliver it |
| OutboxEntries.PersistLeaves | src/catalog_outbox.rs:172-226 | persist takes its intents in order up to the first write that fails; an id given only what it holds keeps its file and failures, any other ends with its last intent, due at once, without failures, as old as before or as its first intent |
| OutboxEntries.NewIdIsDated | src/catalog_outbox.rs:172-226 | an id brought in by an Ok persist has the time of its first intent there as creation time, in whatever a power loss leaves of it |
| OutboxEntries.CreationTimeStays | src/catalog_outbox.rs:141-355 | along every run of calls, power losses and restarts an id keeps its creation time as long as it is there |
| OutboxEntries.DeliveredIsGone | src/catalog_outbox.rs:274-307 | a delivery applies exactly when the file is the expected generation and all I/O succeeds, and then no power loss brings the file back; a stale one changes nothing |
| OutboxEntries.FailureRecorded | src/catalog_outbox.rs:309-355 | a failure applies exactly when the file is the expected generation and all I/O succeeds; the entry is then due at t exactly when it is not terminal and its delay, saturating at 64 bits, has passed, with the same intent and age, the given error and one more attempt |
| OutboxEntries.AttemptsCount | src/catalog_outbox.rs:309-355 | after n applied failures the attempts have grown by n, up to the largest 32-bit number |
| OutboxStore.RestartExactly | src/catalog_outbox.rs:141-166 | after a reopen, Ok from persist means durable if and only if everything visible was durable at the reopen |
| OutboxStore.UnsyncedRestartLosesIntent | src/catalog_outbox.rs:141-226 | the run of a failed sync, a reopen, a persist that returns Ok and a power loss that removes the intent |
| CatalogOutbox.AnyOrderRecovers | src/catalog_outbox.rs:402-419 | any two enumerations of one directory recover the same entries |
| CatalogOutbox.RecoverIndex | src/catalog_outbox.rs:402-419 | succeeds exactly when every file reads back under its own id and none repeats, and then mirrors the directory; the error is that of the first file that is unreadable or a repetition |
| CatalogOutbox.Outbox.Open | src/catalog_outbox.rs:141-166 | succeeds exactly when the directory can be set up and is recoverable, and then mirrors it with the sync flag clear |
| CatalogOutbox.Outbox.PersistIntents | src/catalog_outbox.rs:172-226 | does to the directory and the flag what the durability results are proved about; the summary counts as coalesced the intents that repeat what their id holds, as inserted the first of each new id, as updated the rest, and the inserted ones are the growth of the outbox |
| CatalogOutbox.Outbox.MarkDeliveredIf | src/catalog_outbox.rs:274-307 | leaves the store and the outcome of the delivery, which OutboxEntries.DeliveredIsGone explains |
| CatalogOutbox.Outbox.RecordFailureIf | src/catalog_outbox.rs:309-355 | leaves the store and the outcome of the recorded failure, which OutboxEntries.FailureRecorded and AttemptsCount explain |
| CatalogOutbox.Outbox.ScanEligible | src/catalog_outbox.rs:240-255 | the entries due now, the earliest (time, id) first, up to the limit, as their files hold them; an error exactly when one of those files cannot be read, and then for the first such file |
| CatalogOutbox.Outbox.MetadataSnapshot | src/catalog_outbox.rs:257-272 | pending plus terminal is everything, due plus deferred is pending, and the oldest time is the minimum |
| CatalogDrain.StepKeepsInv | src/catalog_coordinator.rs:359-680 | every step of every pass, every persist and every restart keeps what each task believes about Glue true |
| CatalogDrain.DrainConverges | src/catalog_coordinator.rs:359-580 | if passes meet only on ids whose location never changes, in every state: an id in the outbox holds its latest persisted intent, and a persisted id no longer there has its Glue partition at the location of its latest persisted intent |
| CatalogDrain.DisjointPassesConverge | src/catalog_coordinator.rs:359-580 | overlapping passes converge as long as no id is in two running tasks |
| CatalogDrain.TwoPassesDiverge | src/catalog_coordinator.rs:337-357 | for every id that two passes may share and that has two locations, a run that ends with the older location in Glue and nothing in the outbox |
| CatalogDrain.ConvergesExactly | src/catalog_coordinator.rs:337-580 | every run under a scan rule converges if and only if the rule lets passes share only ids whose location never changes |
| CatalogDelivery.EveryIntentCanLand | src/catalog_coordinator.rs:359-580 | every run can go on so that a valid intent that is due and free ends in Glue at its location and out of the outbox, by creation, by update or because it is there already, with everything else as it was |
| CatalogDelivery.RestartFreesEverything | src/catalog_coordinator.rs:337-357 | a restart forgets the running passes and nothing else, and then every valid intent that is due can be delivered |
| CatalogDelivery.OnlyDueIsTakenUp | src/catalog_coordinator.rs:359-378 | in every run a pass works only on entries that it found in the outbox, due when it scanned and not terminal |
| CatalogDelivery.OnlyValidReachesGlue | src/catalog_coordinator.rs:366-375 | in every run Glue changes only at a write for a valid intent, and then only that intent's partition, to its location |
| CatalogDelivery.InvalidBecomesTerminal | src/catalog_coordinator.rs:366-372 | a refusal recorded for an invalid intent makes it never due again |
| CatalogDelivery.RefusalIsRecorded | src/catalog_coordinator.rs:580-680 | a recorded refusal leaves the same intent with one more attempt, to be retried after the delay or never |
| CatalogDelivery.TerminalStays | src/catalog_coordinator.rs:359-680 | along every run a terminal entry keeps its file and no pass takes it up, until other content is persisted for its id |
| SchemaCoordinator.Coordinator.Begin | src/schema_coordinator.rs:147-176 | done at once exactly when the version or a later one is published, else joins the flight of the key or registers a new one, as the protocol does |
| SchemaCoordinator.Coordinator.Complete | src/schema_coordinator.rs:72-92 | as the protocol does: on success the version is published and no other namespace changes, on failure nothing is, and only the leader's own flight is dropped |
| SchemaFlights.StepKeepsInv | src/schema_coordinator.rs:44-203 | every step of every caller keeps the protocol's invariant |
| SchemaRuns.OperationsNeverOverlap | src/schema_coordinator.rs:188-202 | in every reachable state at most one operation of a scope and namespace is running |
| SchemaRuns.SuccessesIncrease | src/schema_coordinator.rs:72-114 | in every run the versions whose operation returned Ok strictly increase per scope and namespace |
| SchemaRuns.FlightsAreLed | src/schema_coordinator.rs:72-114 | a flight is in the map only while a caller leads it and has not recorded its result |
| SchemaRuns.FollowersShareTheResult | src/schema_coordinator.rs:44-63 | a follower returns exactly its leader's result, an error if the leader was cancelled |
| SchemaRuns.OkMeansPublished | src/schema_coordinator.rs:149-202 | every Ok return means that the requested version or a later one is published |
| SchemaOutcomes.ReturnsAreEarned | src/schema_coordinator.rs:44-203 | in every run a call returns Ok at once because its version was published when it entered, or returns what settled its flight: the operation's result, the cancellation of the leader, or Ok because the leader found the version published under the lock |
| SchemaOutcomes.SettledOnce | src/schema_coordinator.rs:72-114 | a flight is settled by one step only |
| SchemaOutcomes.ErrorsComeFromTheLeader | src/schema_coordinator.rs:44-114 | every error returned is one that the leader's operation returned or that the leader was cancelled with |
| SchemaOutcomes.CancelledNeverReturns | src/schema_coordinator.rs:105-114 | a cancelled call never returns, and a cancelled leader's flight ends with an error |
| SchemaOutcomes.EnteringPublishedIsOk | src/schema_coordinator.rs:154-161 | a call that enters when its version is published has returned Ok in the next state and for good |
| SchemaOutcomes.RecheckSparesTheOperation | src/schema_coordinator.rs:188-202 | a leader that finds its version published under the namespace lock never runs its operation, and finishes with Ok |
| SchemaOutcomes.PublishedExactly | src/schema_coordinator.rs:72-92 | in every reachable state a version is published if and only if an operation for it or a later one of its scope and namespace returned Ok and was recorded |
| SchemaOutcomes.NextCallerRetries | src/schema_coordinator.rs:163-176 | with the version unpublished and no leader at work on it, the next caller leads a new flight, so failures can be retried |
| SchemaOutcomes.ConcurrentCallersJoin | src/schema_coordinator.rs:163-180 | a caller that enters while a leader is at work on its version follows that flight |
| SchemaOutcomes.NamespacesAreIndependent | src/schema_coordinator.rs:166-188 | a leader waits for the namespace lock exactly while a caller of the same scope and namespace holds it |
| SchemaRuns.NoDeadlock | src/schema_coordinator.rs:44-203 | while a caller has not finished, some caller can take a step of its own, so no sleeping follower is forgotten |
| SchemaRuns.RunsAreBounded | src/schema_coordinator.rs:44-203 | a run takes at most nine steps per call, spurious waits included |
| SchemaRuns.EveryCallReturns | src/schema_coordinator.rs:44-203 | every run can be completed, without new calls or cancellations, to a state in which every call has returned |
| SchemaSuperset.SupersetTransitive | src/converters/skippr_arrow.rs:267-312 | accepted schema replacements compose, through nested structs and lists |
| SchemaSuperset.SupersetKeepsPaths | src/converters/skippr_arrow.rs:267-312 | every path of field names and list items into the older schema leads to the same type in an accepted replacement, timestamps up to their zone |
| SchemaSuperset.SupersetExactly | src/converters/skippr_arrow.rs:267-312 | a schema without repeated names may be replaced exactly by the schemas that keep all its paths |
| SchemaSeqlock.StepKeepsInv | src/ingest_work.rs:2237-2297 | every store, bump and read keeps the version plus the pending publishers equal to the number of publications, and each publication a superset of the earlier ones |
| SchemaSeqlock.StableRead | src/ingest_work.rs:2237-2280 | a read with equal versions v yields publication v plus the publishers then between store and bump: never an older one, a superset of publication v, and publication v itself if and only if there was none |
| SchemaSeqlock.OnePublisher | src/ingest_work.rs:4307-4368 | with one publisher at a time a stable read of version v yields publication v or v+1 |
| SchemaSeqlock.ExhaustedRead | src/ingest_work.rs:2281-2293 | a read that gives up yields a published schema not older than the version it began with and a strictly newer version; that version is ahead of the schema if and only if more bumps came since the load than publishers were then pending, and then its schema is a superset |
| SchemaReads.ReadTries | src/ingest_work.rs:2243-2293 | a read gives up only at its 51st try, and a stable one takes at most as many |
| SchemaReads.TryExactly | src/ingest_work.rs:2273-2293 | a try ends the read as stable exactly when the version is still the one read first, and otherwise leads to another try up to the 51st |
| SchemaReads.PublishedIsRead | src/ingest_work.rs:2237-2280 | an offered schema is what the next undisturbed read returns, under the next version, exactly when there was none or it has another fingerprint and keeps every field; otherwise that read returns what was there |
| SchemaReads.PublicationsChange | src/ingest_work.rs:4307-4368 | in every run each publication has another fingerprint than the one before it |
| SchemaSeqlock.LoadNeverMisses | src/ingest_work.rs:2269-2272 | the schema load after preparation always finds a schema |
| SchemaSeqlock.NewSchemaOldVersion | src/ingest_work.rs:4358-4368 | a run in which a stable read pairs the schema of publication 2 with version 1 |
| IngestQueue.StepKeepsInv | src/ingest_work.rs:2401-2497 | every step of producers, workers and monitor keeps each counter the exact tally of the tasks it stands for and each task in one place |
| IngestQueue.CountersAreExact | src/ingest_work.rs:2401-2497 | between counter updates the queue length is waiting plus running plus undrained completions, and the outstanding bytes are theirs |
| IngestQueue.NoUnderflow | src/ingest_work.rs:2410-2412 | no counter is negative and no subtraction takes more than the counter holds |
| IngestQueue.RunsOnce | src/ingest_work.rs:2446-2490 | in every run no task is handed to the thread pool twice |
| IngestQueue.DrainedMeansFinished | src/ingest_work.rs:2533-2561 | outside admissions both counters are zero if and only if every admitted task has finished and given its bytes back |
| IngestQueue.WaitForCompletion | src/ingest_work.rs:2533-2561 | with the waiting thread as the only producer, a zero queue length read first and zero bytes read later mean that every task has finished |
| IngestCapacity.CapacityIsRespected | src/ingest_work.rs:2759-2870 | with n producers the queue length stays below its maximum plus n, and the active count is at most the number of threads plus n |
| IngestCapacity.ChargesStayWithin | src/ingest_work.rs:2759-2790 | with one producer, charging a task keeps the outstanding bytes, its own included, within what its admission allowed |
| IngestOrder.StartsInOrder | src/ingest_work.rs:2446-2490 | with one producer, in every run, of two tasks the monitor starts the earlier started one was admitted first, push-backs included |
| IngestProgress.CompletesExactly | src/ingest_work.rs:2401-2561 | once the producers wait, pool threads and monitor can end every task if and only if it is not the case that tasks wait while nothing runs and the monitor waits for a completion |
| IngestProgress.EveryScheduleCompletes | src/ingest_work.rs:2401-2561 | and then every schedule does: none goes on for ever, and where it can go no further all tasks are settled |
| IngestProgress.LetInExactly | src/ingest_work.rs:2771-2782 | a look at the gate lets a task pass exactly when a place is free, and when its bytes fit the budget with those outstanding or none are |
| IngestProgress.OversizeIsLetIn | src/ingest_work.rs:2771-2782 | a task of any size is let in, for every byte budget, once a place is free and no bytes are outstanding |
| IngestStranding.ATaskIsStranded | src/ingest_work.rs:2801-2860 | a run of one producer that ends with a task queued that nothing will start, for every number of threads below the queue length |
| IngestStranding.StrandsExactly | src/ingest_work.rs:2395-2400 | with one producer a task can be stranded if and only if the queue length may exceed the number of threads |
| BisectSerializer.BisectIsHonest | src/ingest_work.rs:900-925 | every batch is one accepted call and every reported record fails on its own |
| BisectSerializer.BisectLosesNothing | src/ingest_work.rs:900-925 | for every oracle the records not reported are emitted once and in order, and the reported ones are all the others |
| BisectSerializer.ReportsExactly | src/ingest_work.rs:900-925 | if accepting a list implies accepting each of its records, exactly the records that fail alone are reported |
| BisectSerializer.WholeIsOneBatch | src/ingest_work.rs:900-925 | a list is emitted as one batch exactly when the serializer accepts it |
| BisectSerializer.FewBatches | src/ingest_work.rs:900-925 | if a list is rejected exactly for a record that is rejected alone, f such records among n leave at most f times log2(n), rounded up, plus one batches |
| BisectSerializer.EmitAligns | src/ingest_work.rs:3991-4032 | with one CDC row per record the surviving sidecar rows are those of the emitted rows, in order, and emitted and reported records share out the partition |
| BisectSerializer.AlignmentIsExact | src/ingest_work.rs:3991-4032 | the sidecar lines up for every oracle if and only if there is one CDC row per record |
| WalSlices.OrderedIsTheSet | src/wal_slice_ref.rs:50-57 | the printer lists the references of the set once each, in ascending order |
| WalSlices.DecodeExactly | src/wal_slice_ref.rs:59-79 | a text decodes if and only if every non-empty part names a valid reference, and then to exactly the references named |
| Texts.SplitExactly | src/wal_slice_ref.rs:63-65 | the parts of a text are the only pieces without a separator that join to it |
| WalSlices.NamesExactly | src/wal_slice_ref.rs:66-77 | a part names a reference exactly when it is a path component, the last '@' and a decimal number below 2^64 with an optional plus sign |
| WalSlices.MalformedExactly | src/wal_slice_ref.rs:66-76 | a part is malformed exactly without an '@', with nothing before the last one, or without such a number after it |
| WalSlices.InvalidExactly | src/wal_slice_ref.rs:36-41 | a part with a number is an invalid segment exactly when what stands before the last '@' is no path component |
| WalSlices.DecodeFails | src/wal_slice_ref.rs:59-79 | the first part that does not name a reference decides the error |
| WalSlices.DecodeEncode | src/wal_slice_ref.rs:50-79 | decoding an encoding gives back the set, for every list of valid references |
| WalSlices.EncodeIsCanonical | src/wal_slice_ref.rs:50-57 | two lists have the same encoding if and only if they hold the same set |
| WalSlices.EncodeExample | src/wal_slice_ref.rs:114-120 | the text of the source's own example |
| WalSlices.EncodeDecode | src/wal_slice_ref.rs:50-79 | writing back what decodes gives a text that decodes to the same set and is its own canonical form |
| SnapshotAncestry.Walk | src/wal_slice_ref.rs:84-103 | answers the union of the slices up to the first missing or parentless snapshot, the first property that does not decode, or that the chain is too long |
| SnapshotAncestry.AnswerIsUnique | src/wal_slice_ref.rs:84-103 | the graph determines the answer |
| SnapshotAncestry.SucceedsExactly | src/wal_slice_ref.rs:84-103 | the walk succeeds if and only if the chain ends before the ceiling and every property on it decodes |
| SnapshotAncestry.WalkCollects | src/wal_slice_ref.rs:84-103 | a chain of fewer than 10,000 snapshots that ends and decodes gives exactly the references its snapshots list |
| SnapshotAncestry.WalkStumbles | src/wal_slice_ref.rs:84-103 | the first property that does not decode, among the first 10,000 snapshots, is the error |
| SnapshotAncestry.WalkGivesUp | src/wal_slice_ref.rs:84-103 | a chain whose first 10,000 snapshots decode is too long, whatever follows |
| SnapshotAncestry.LengthDecides | src/wal_slice_ref.rs:84-103 | a decodable chain of exactly 10,000 present snapshots, or more, is too long; a shorter one is collected |
| SnapshotAncestry.CycleFails | src/wal_slice_ref.rs:84-103 | a cycle makes the walk fail |
| WalRefIdentity.IdentityExactly | src/sink_apply_identity.rs:70-92 | for NUL-free strings identities are equal exactly when the fields before the tail and the tails (fingerprint then hash) are, a missing time counting as zero |
| WalRefIdentity.IdentityInjective | src/sink_apply_identity.rs:70-92 | with fingerprints of one length identities are equal if and only if the references agree up to a missing time |
| WalRefReader.IdentityReadsBack | src/sink_apply_identity.rs:70-92 | a reader that takes the fields in order, strings up to a NUL and numbers of eight bytes with the least significant first, gets the reference back, a missing time as zero |
| WalRefIdentity.LengthsMustMatch | src/sink_apply_identity.rs:70-92 | a plain part whose fingerprint ends in a CDC part's hash shares its identity, and is a reference the code can receive when hash and fingerprint are ASCII |
| WalRefIdentity.CanonicalExactly | src/sink_apply_identity.rs:94-101 | two lists have equal canonical identities if and only if they hold the same references equally often, up to a missing time |
| WalRefIdentity.EnvelopeFollowsFingerprint | src/sink_apply_identity.rs:255-259 | the envelope lists the given references in the order of the identities its fingerprint hashes |
| WalRefFingerprint.HashedExactly | src/sink_apply_identity.rs:104-112 | with fingerprints of one length, and a hash on all references or on none, the hashed bytes are equal if and only if the lists hold the same references equally often, up to a missing time |
| WalRefReader.HashedLayout | src/sink_apply_identity.rs:104-112 | the hashed bytes are the label, then the identity of every reference and a 0xff byte, in ascending order of identities |
| WalRefFingerprint.MixedListsCollide | src/sink_apply_identity.rs:104-112 | for every fingerprint length, two lists of valid references, each with one CDC part and one plain part, that hash the same bytes and share no reference |
| WalRefFingerprint.DeterminedExactly | src/sink_apply_identity.rs:104-112 | the hashed bytes determine the references for all lists of a kind if and only if the kind does not allow both CDC and plain parts |
| SortedKeys.SortedExactly | src/sink_apply_identity.rs:94-101 | lists sort to the same list if and only if they are equal as multisets |
| PairedConfig.GroupConfig | src/connect.rs:521-549 | succeeds exactly when all members with fields hold the same ones, and then returns those |
| PairedConfig.Config.WriteMembers | src/connect.rs:578-585 | succeeds exactly when every member can be opened as a mapping, and then gives every member the plugin and leaves everything else as it is |
| PairedConfig.Config.WriteEntry | src/connect.rs:555-587 | succeeds exactly when the secrets are allowed, a link is a reference, the group agrees, nothing scalar stands in the way, and an entry's plugin is of the same kind up to case with a body that is missing, null or a mapping; refused secrets, references and groups leave the document unchanged |
| PairedEntries.KindIsFixed | src/connect.rs:165-189 | no successful write changes the named entry's kind but for case |
| PairedEntries.KindsStay | src/connect.rs:165-189 | no entry loses its plugin or changes it for another, written, in the group or neither |
| PairedEntries.NamedEntryHolds | src/connect.rs:176-202 | the named entry ends with the plugin's name, the link given or else its own, every field given, and without a group all its other fields |
| PairedEntries.KindExactly | src/connect.rs:442-450 | a kind names a paired plugin exactly when, trimmed, it is the plugin's name up to ASCII case |
| PairedEntries.GroupExactly | src/connect.rs:455-492 | a schema sink has a group unless it is of another plugin, made of itself and every data or deadletter sink of the plugin that links it |
| PairedEntries.JoinsExactly | src/connect.rs:494-519 | which group a write joins: that of the schema sink named, given or linked, and when it joins none |
| PairedEntries.TornExactly | src/connect.rs:521-549 | a group is refused exactly when two members have different fields; a member without fields never matters |
| PairedEntries.MembersShareFields | src/connect.rs:555-587 | afterwards every member has the fields some member had, with the given ones on top |
| PairedGroups.MembersHoldOneConfig | src/connect.rs:555-587 | the group held exactly one config before, and every member of the written group ends with it, overridden by the given fields |
| PairedGroups.MembersKeepLinks | src/connect.rs:176-202 | members keep their links, and the named entry takes the link it was given |
| PairedGroups.GroupAfterwards | src/connect.rs:455-519 | the members written are exactly the group as it stands after the write |
| PairedGroups.RepeatedWrite | src/connect.rs:555-587 | repeating a successful write changes no entry, in a group or without one |
| PairedGroups.UnrelatedUntouched | src/connect.rs:555-587 | an entry neither named nor in the group is untouched |
| PairedGroups.OthersStayConsistent | src/connect.rs:455-587 | every other group that held one config still does |
| PairedGroups.AllStayConsistent | src/connect.rs:455-587 | a document in which every group holds one config stays such a document |

## Left out

- SQL text, quoting, literals, DDL, temporary table names and dialect limits: statements are modelled by their effect, rows by encoded bytes.
- The total statement and script size checks after packing, and `batched_cdc_apply_sql`: further limit comparisons and another rendering of the guarded rows.
- NULL business keys: the tombstone table declares its keys NOT NULL.
- AWS calls, Glue error classification, retry jitter, batching of creates, metrics and logging: answers are arbitrary.
- Corruption of outbox files, checksums, temporary files and the JSON format: a file reads back or it does not.
- CatalogDrain.DrainConverges: assumes one Glue partition per identity and no other writer to those partitions; callers persist one intent per step, and the pass's loops over groups and create batches are one step per intent; a power loss that drops unsynced directory changes is not a step here (`OutboxStore` has it), and a Glue write that reports an error lands at that step or never.
- SchemaCoordinator.Coordinator.Begin: namespace locks are modelled in the protocol, one per scope and namespace, not as a field of the class; the waiter count used by tests is not modelled.
- SchemaRuns.EveryCallReturns: assumes that operations return and that the scheduler lets enabled callers run; panics inside an operation are not modelled.
- SchemaSeqlock.StableRead: the preparation lock is not modelled, so more interleavings are covered than can happen; `replace_arrow_schema`, the one writer that is not a superset, is excluded.
- IngestProgress.CompletesExactly: about the time after the producers have stopped; how long an admission waits at the gate is not claimed, and threads of the pool are assumed to run what they are given.
- IngestCapacity.ChargesStayWithin: about one producer; how the byte budget is tuned is not modelled (it is an arbitrary number per admission).
- IngestOrder.StartsInOrder: about one producer, whose admissions number the tasks.
- IngestQueue.DrainedMeansFinished: poisoned locks, disk capacity stops and the WAL writer's own pending work are not modelled; counters are unbounded integers.
- BisectSerializer.EmitAligns: rows that an exact Arrow builder put into the same partition, offset tracking and dead letters are not modelled.
- SnapshotAncestry.Walk: `lookup` is a fixed map from ids to snapshots.
- WalRefFingerprint.HashedExactly: about the bytes given to SHA-256, not about the digest.
- SchemaSuperset.SupersetExactly: for repeated names the condition is one way only (`SupersetKeepsPaths`), since a field behind another of its name has no path.
- CatalogDelivery.EveryIntentCanLand: says that an intent can be delivered, not that Glue will accept it.
- CatalogOutbox.Outbox.RecordFailureIf: a file that somebody else removed, which the source reports as stale, is not an outcome, here and in `MarkDeliveredIf`.
- PairedConfig.Config.WriteEntry: entries have at most one plugin key and string keys; which fields are secret is a parameter; after an error past the group check the document may be partly changed, and callers discard it.
- PairedGroups.OthersStayConsistent: the order of keys in a mapping is not modelled.
- The rest of the repository (plugins, engine, server, CLI, query runtime, schema inference): not part of this model.
