# Verification of the migration tool

Dafny models of the two halves of the tool and proofs about them.

**The runner** receives batches of row changes by webhook, applies them to helper tables keyed by
primary key, and periodically reconciles: it upserts the helper rows into the real tables in
foreign-key order and deletes surplus rows in reverse order, in one transaction that also advances
the stream's watermarks.

**The row verifier** compares two databases: it matches their tables and columns, cuts each table
into shards, pages through every shard on both sides, merges the two sorted streams and reports the
differences; in live mode suspicious keys are checked again with bounded retries. A service runs
verifications as jobs.

SQL is replaced by its meaning: a table is a map from primary key to row, `ORDER BY` a primary key is
a sorted sequence, a tuple comparison is lexicographic. Objects that the program updates are classes
whose methods are proved against functions on values; what holds over whole runs and interleavings is
proved about those functions. Concurrency is a state machine whose steps are what the program and the
database do at once: a SQL statement of a pass, a commit, a lock section. Failures of the network and the database are parameters: which statement or fetch fails,
whether a commit goes through.

| files | contents |
|---|---|
| `HelperPlan`, `Tables`, `Deletes`, `Reconcile`, `Orphans`, `Views`, `ReconcileRun` | planned order, foreign keys, the delete statement with its ON DELETE actions, what a pass over one state of the helper tables does, its statements on changing ones, the transaction and the loop around it |
| `PassRuns`, `Overtaking`, `OvertakenRun` | statements of passes among the requests and batches committed meanwhile, and what the reconciled watermark then stands for |
| `Watermarks`, `Tracking`, `Ingest` | watermarks and their order; routing, persisting and repeated delivery of batches |
| `SqlName`, `StartupPlan`, `Isolation` | identifiers and table names, grouping of mappings, why mappings do not disturb each other |
| `Keys`, `ScanQuery`, `ScanIterator`, `PointLookup` | key order, paging with an asynchronous prefetch, point lookups |
| `RowEvents`, `RowVerify`, `Diff`, `ColumnReports` | events and listeners, the merge join, its meaning |
| `ShardTable`, `VerifyTables`, `WorkerPool` | 64-bit shard arithmetic, the verification end to end, the workers |
| `Retry`, `RetryQueue`, `LiveRetries`, `LiveReverifier`, `LookupFaults`, `LiveVerification` | retries, the heap, live reverification on values and in place, failing lookups, live mode from end to end |
| `DbVerify`, `TableVerify`, `Globs`, `TableFilter` | table lists, table definitions, globs, filters and selections |
| `JobLifecycle`, `Jobs` | jobs under interleaved stop requests, their objects and store |
| `Seqs`, `Texts`, `Options` | sequence facts, the order of text, optional values |

## What the proofs found

Where the code does not do what one would expect of it, the model keeps the code and says exactly when.

- A pass that meets helper tables not closed under the foreign keys, for instance between the deletion of a
  parent and of its child, fails if the key is NO ACTION or RESTRICT.  Under CASCADE and SET NULL it succeeds,
  is committed and advances the watermark, without rows or references that the helper tables have
  (`Orphans.OrphanPass`).  A pass over one state of the helper tables that succeeds equalizes exactly when they
  are closed, which is exactly when no action spreads (`Reconcile.PassSucceeds`).
- The documentation says that after a successful pass real and helper tables are identical for all rows that existed
  at the reconciled watermark (docs/operator-guide/architecture.md:68).  The tracking update reads the received
  watermark after the pass's statements have run, so a watermark accepted during the pass is reconciled by a pass that
  has not seen the batches before it (`OvertakenRun.OvertakenPass`).  The reconciled watermark was accepted before the
  pass's first statement exactly if no greater one came during the pass; all its statements have then worked on every
  change the watermark stands for (`Overtaking.ReconciledStandsFor`).
- A failure of the target that is first met while its remaining rows are drained is dropped, and the
  run counts as clean (`Diff.TargetFailureNoticed`, `Diff.DroppedFailure`). A comment in the code calls
  the remaining rows extraneous; they are the rows before the failure.
- A point lookup whose result stream breaks off is not noticed, since the stream's own error is never asked
  for: rows on which the tables agree can be called missing (`LookupFaults.CutShortMisreports`);
  `LookupFaults.CutShortSuspects` says which keys are judged rightly.
- A lookup error drops the whole batch of suspect keys (`LookupFaults.ErrorDropsKey`); a key is reported exactly
  if every scan of its batch found it suspect and none ended with an error (`LookupFaults.ReportedIfSuspect`).
- A live scan that ends with an error is not flushed: its suspect keys that are still waiting to be sent are never
  looked at again (`LiveVerification.WaitingAreLost`).
- Shard boundaries are computed in 64 bits and can wrap around when a key range is smaller than the
  number of splits and lies at the upper end. The last shard then holds everything, so every key from the minimum
  up to the greatest value is reported twice (`VerifyTables.WrappedShardsRepeat`); every key is
  reported once exactly if no boundary wraps (`VerifyTables.CutFindsDiff`).
- A column that cannot be compared is reported only if the first pair of rows in which it is met has no column
  that differs and none that was met before (`ColumnReports.ReportedExactly`, `ColumnReports.HiddenByMismatch`,
  `ColumnReports.HiddenBeside`).
- Watermarks are compared as text, which is the order of time exactly on watermarks of equal widths
  (`Watermarks.WidthsDecide`); wall times in nanoseconds have 19 digits from 2001 to 2286.
- A table added on a restart has no sync watermark until the next effective pass (`Tracking.NewTableLags`).
- A failing refresh of the metrics turns a committed pass into an error that ends the mapping's loop
  (`ReconcileRun.Destination.RunReconcilePass`).
- Without a primary key a repeated batch doubles its rows (`Ingest.TwiceIsOnce`).
- Two selections of one database combine crosswise (`TableFilters.SelectionsCross`).
- With pages of size zero `HasNext` comes back only if a fetch fails: every page received leaves it waiting at the
  same place (`ScanIterators.ScanIterator.HasNext`, `ScanIterators.ScanIterator.Receive`).

## Model

| member | source | states |
|---|---|---|
| `HelperPlan.FromSchema` | crates/runner/src/helper_plan.rs:182-261 | succeeds exactly when the foreign-key graph of the selected tables has no cycle (a self-reference is one); the order is then topological and greedy with the deletes reversed, else the named tables are exactly those that lead to a cycle, in configured order, each with a parent among them; the first selected table without a schema is reported exactly when there is one |
| `HelperPlan.BuildGraph` | crates/runner/src/helper_plan.rs:187-217 | the degree counters and child lists describe exactly the distinct edges of the graph, whatever duplicate or unselected references the schema has |
| `HelperPlan.Place` | crates/runner/src/helper_plan.rs:222-240 | every table placed has all its parents placed before it and is the first that could come next; what stays unplaced has an open parent count |
| `HelperPlan.Release` | crates/runner/src/helper_plan.rs:233-239 | counting a placed table off keeps every open parent count right and the ready list sorted, duplicate-free and complete |
| `HelperPlan.Unplaced` | crates/runner/src/helper_plan.rs:242-256 | the tables of the error are those with an open parent count, in configured order |
| `HelperPlan.OpenAreReported` | crates/runner/src/helper_plan.rs:242-256 | when not every table was placed the graph is cyclic, and those with an open parent count are exactly the tables that lead to a cycle, each with a parent among them |
| `HelperPlan.TopologicalIsAcyclic` | crates/runner/src/helper_plan.rs:222-261 | no cyclic graph has a topological order |
| `HelperPlan.StuckLeadsToCycle` | crates/runner/src/helper_plan.rs:242-255 | tables that all have a parent among themselves lead to a cycle |
| `HelperPlan.GreedyIsLeast` | crates/runner/src/helper_plan.rs:222-240 | the order found is the lexicographically least of all topological orders by configured position |
| `Reconcile.UpsertedShows` | crates/runner/src/reconcile_runtime/upsert.rs:28-75 | after the upsert statement every helper row is in the real table with exactly the helper's writable columns, other rows are untouched, and rows stay filed under their primary key |
| `Reconcile.UpsertedConsistent` | crates/runner/src/reconcile_runtime/upsert.rs:28-75 | with the helper tables closed under the foreign keys, upserting any set of tables that contains its members' parents violates no foreign key |
| `Reconcile.UpsertsReach` | crates/runner/src/reconcile_runtime/mod.rs:163-173 | in whatever order, upserts that all succeed have put the helper rows over the real ones |
| `Reconcile.UpsertsSucceed` | crates/runner/src/reconcile_runtime/mod.rs:163-173 | in parents-first order every upsert statement succeeds over consistent real tables if the helper tables are closed |
| `Deletes.DeleteKeeps` | crates/runner/src/reconcile_runtime/delete.rs:28-50 | whatever its ON DELETE actions remove and empty, a delete statement that succeeds leaves all foreign keys satisfied |
| `Deletes.Cascaded` | crates/runner-config/src/destination_catalog.rs:322-340 | the rows that go with the deleted ones contain every row that ON DELETE CASCADE reaches from them |
| `Deletes.CascadedIsLeast` | crates/runner-config/src/destination_catalog.rs:322-340 | and no others: they are the least such set |
| `Deletes.PlainDelete` | crates/runner/src/reconcile_runtime/delete.rs:28-50 | a delete statement whose actions do not spread removes exactly the rows the helper table lacks, and it succeeds if no action fires at all |
| `Deletes.DeleteOnlyTakes` | crates/runner/src/reconcile_runtime/delete.rs:28-50 | a delete statement only removes rows and empties nullable columns, and leaves no row of its table that the helper table lacks |
| `Deletes.DeleteKeepsReal` | crates/runner/src/reconcile_runtime/delete.rs:28-50 | it leaves rows under their primary keys and NOT NULL columns filled |
| `Reconcile.DeleteSafe` | crates/runner/src/reconcile_runtime/delete.rs:28-50 | once every referencing table has lost its surplus rows, no ON DELETE action of any kind fires |
| `Reconcile.DeletesReach` | crates/runner/src/reconcile_runtime/mod.rs:174-184 | in whatever order, deletes that all succeed without an action spreading have taken away exactly the rows the helper tables lack |
| `Reconcile.StatementsKeep` | crates/runner/src/reconcile_runtime/mod.rs:158-186 | after every statement of every pass, in any order and with any ON DELETE actions, all foreign keys are satisfied |
| `Reconcile.PassEqualizes` | crates/runner/src/reconcile_runtime/mod.rs:158-186 | a pass over all tables, in any order, that succeeds without an ON DELETE action spreading leaves the real tables equal to the helper tables on non-generated columns |
| `Reconcile.PassSucceeds` | crates/runner/src/reconcile_runtime/mod.rs:158-186 | a planned pass over consistent real tables succeeds and equalizes them if and only if every table has a primary key and the helper tables are closed under the foreign keys; one that succeeds otherwise keeps the foreign keys satisfied and has had an ON DELETE action spread |
| `Reconcile.ClosedSucceeds` | crates/runner/src/reconcile_runtime/mod.rs:158-186 | over closed helper tables a planned pass succeeds and no action spreads, whatever the actions of the foreign keys are |
| `Reconcile.PassivePassSucceeds` | crates/runner/src/reconcile_runtime/mod.rs:158-186 | with NO ACTION and RESTRICT only, a planned pass succeeds if and only if every table has a primary key and the helper tables are closed |
| `Reconcile.PassOnlyLoses` | crates/runner/src/reconcile_runtime/mod.rs:158-186 | what a pass that succeeds leaves are helper rows, nullable columns of which an action may have emptied |
| `Reconcile.PassKeepsReal` | crates/runner/src/reconcile_runtime/mod.rs:158-186 | what it leaves is well formed for the next pass |
| `Orphans.OrphanPass` | crates/runner/src/reconcile_runtime/mod.rs:158-186 | a pass between the deletion of a parent and of its child fails under NO ACTION and RESTRICT, and succeeds without the child under CASCADE and without its reference under SET NULL, although the helper tables have both |
| `Reconcile.PlannedOrder` | crates/runner/src/helper_plan.rs:187-261 | the order from_schema plans has every selected table, parents before children for the upserts and children before parents for the deletes, which is all a pass needs of it |
| `Views.SteadyIsPass` | crates/runner/src/reconcile_runtime/mod.rs:158-186 | statements that all see the same helper tables make the pass of `Reconcile.Pass` |
| `Views.SteadyEqualizes` | crates/runner/src/reconcile_runtime/mod.rs:158-186 | if they succeed, real equals helper if and only if the helper tables are closed under the foreign keys |
| `Views.RunKeepsSound` | crates/runner/src/reconcile_runtime/mod.rs:158-186 | whatever helper tables each statement sees, the foreign keys stay satisfied and rows stay under their keys |
| `Views.RunLeaves` | crates/runner/src/reconcile_runtime/upsert.rs:10-75 | whatever each statement sees, unless an ON DELETE action spreads every row is what the statements about its own table made of it: the row of the upsert's view if it has one, and gone if the delete's view has none |
| `Views.SteadyKey` | crates/runner/src/reconcile_runtime/delete.rs:10-50 | a row that looks the same to all statements about its table ends up as they saw it |
| `ReconcileRun.Destination.ApplyPhase` | crates/runner/src/reconcile_runtime/mod.rs:163-184 | the statements of one phase run in order, each on the helper tables it sees, until one fails, by itself or for a reason of its own |
| `ReconcileRun.Destination.ApplyReconcilePass` | crates/runner/src/reconcile_runtime/mod.rs:158-186 | the in-place pass ends as the pass on values does, or at the statement that met the outside failure |
| `ReconcileRun.Destination.RunReconcilePass` | crates/runner/src/reconcile_runtime/mod.rs:67-145 | all statements and the tracking update are committed together, exactly when nothing fails up to the commit, or the real tables are as before; a failing statement is recorded for its table alone; a failing metrics refresh makes an error of what was committed or recorded |
| `ReconcileRun.Destination.RecordFailure` | crates/runner/src/reconcile_runtime/mod.rs:112-143 | the failure is recorded exactly if the rollback and the record go through |
| `ReconcileRun.RunMappingLoop` | crates/runner/src/reconcile_runtime/mod.rs:47-60 | over any number of passes, whatever fails and whatever the helper tables are at each statement: every tick is a committed pass or changes nothing, the foreign keys stay satisfied, and the real tables are as the last committed pass left them; if its statements all saw the same helper tables, equal to those exactly if they were closed |
| `Tracking.TrackingTables.Seed` | crates/runner/src/tracking_state.rs:65-111 | each seeding statement is committed on its own; watermarks of rows that exist are kept |
| `Tracking.TrackingTables.PersistResolved` | crates/runner/src/tracking_state.rs:113-174 | received becomes the greater of itself and the request's watermark; without the stream's row nothing changes and the request fails |
| `Tracking.TrackingTables.PersistReconcileSuccess` | crates/runner/src/tracking_state.rs:176-249 | reconciled advances to received, every listed table is marked synced and its error cleared; nothing received means nothing changes, a missing row is an error |
| `Tracking.TrackingTables.SyncTables` | crates/runner/src/tracking_state.rs:214-246 | all listed tables get the watermark, or the first one without a row is reported |
| `Tracking.TrackingTables.PersistReconcileFailure` | crates/runner/src/tracking_state.rs:251-301 | one table's last error is written and nothing else |
| `Tracking.ReceivedIsLatest` | crates/runner/src/tracking_state.rs:133-142 | over every run received is the greatest watermark among the accepted requests, whatever their order and repetition |
| `Tracking.ReceivedIsNewest` | crates/runner/src/tracking_state.rs:133-142 | with watermarks of the same widths no accepted one is later in time than the received one |
| `Tracking.WatermarksAdvance` | crates/runner/src/tracking_state.rs:113-249 | no step moves received or reconciled back |
| `Tracking.ReconciledBehind` | crates/runner/src/tracking_state.rs:182-195 | over every run reconciled never exceeds received |
| `Tracking.ReconciledAtLastPass` | crates/runner/src/tracking_state.rs:182-212 | over every run the reconciled watermark is the greatest one accepted before the tracking update of the last effective pass |
| `Tracking.SyncIsLastListed` | crates/runner/src/tracking_state.rs:214-246 | over every run a table's sync watermark is the reconciled one at the last effective pass that listed it |
| `Tracking.TablesInSync` | crates/runner/src/tracking_state.rs:65-249 | with a fixed set of tables every tracked table's sync watermark equals the stream's reconciled one |
| `Tracking.NewTableLags` | crates/runner/src/tracking_state.rs:89-108 | a restart with one more table leaves that table without a sync watermark although the stream is reconciled |
| `Tracking.PassTouches` | crates/runner/src/tracking_state.rs:263-276 | a failed pass changes one table's last_error and no watermark; an effective pass clears the errors of all its tables |
| `PassRuns.TrackingFollows` | crates/runner/src/tracking_state.rs:65-301 | with the statements of passes, batches and requests in any order, the tracking tables go through a run of their own operations |
| `PassRuns.CommitReadsReceived` | crates/runner/src/tracking_state.rs:182-212 | an effective pass leaves reconciled at what was received when its tracking update ran, the greatest watermark accepted until then |
| `PassRuns.ReconciledAtLastCommit` | crates/runner/src/tracking_state.rs:176-249 | in every run whatever is reconciled was left there by the last effective pass |
| `PassRuns.CommittedPass` | crates/runner/src/reconcile_runtime/mod.rs:67-97 | a committed pass has executed all its statements on the real tables as they were, each on the helper tables of its moment |
| `PassRuns.RunSound` | crates/runner/src/reconcile_runtime/mod.rs:67-145 | in every run the real tables satisfy their foreign keys, whatever is committed between the statements of a pass |
| `PassRuns.HelpersAreLog` | crates/runner/src/reconcile_runtime/mod.rs:67-97 | in every run a helper table is what the changes committed to it have made |
| `Overtaking.AcceptedUnlessOvertaken` | crates/runner/src/reconcile_runtime/mod.rs:81-97 | the watermark that a pass leaves was accepted before the pass's first statement if and only if no greater one is accepted between that statement and the tracking update |
| `Overtaking.StatementsSee` | crates/runner/src/reconcile_runtime/mod.rs:158-186 | each statement has worked on all changes committed before any event that precedes the first statement |
| `Overtaking.ReconciledStandsFor` | docs/operator-guide/architecture.md:58-68 | in every run: the reconciled watermark is the greatest accepted before the last effective pass was committed; if none greater came during that pass, and only then, it was accepted before the first statement, and all statements have worked on the changes committed before it |
| `Overtaking.ReconciledRow` | docs/operator-guide/architecture.md:66-68 | a row that no change touches from the acceptance of the watermark to the pass's last statement is in the real tables, until the next pass, as in the helper tables at that acceptance, unless an ON DELETE action spreads |
| `Overtaking.QuietPass` | docs/operator-guide/architecture.md:58-68 | a pass without a batch from its first to its last statement leaves real equal to helper, until the next pass, if and only if the helper tables are closed |
| `OvertakenRun.OvertakenPass` | crates/runner/src/tracking_state.rs:182-195 | a run whose reconciled watermark was accepted during the pass, and whose real table lacks a row committed before that |
| `Watermarks.EqualWidthsAgree` | crates/runner/src/tracking_state.rs:133-142 | watermarks whose wall times and logical counters have the same widths compare as text exactly as they do in time |
| `Watermarks.WidthsDecide` | crates/runner/src/tracking_state.rs:133-142 | text order is time order on watermarks of given widths if and only if the widths are the same |
| `Ingest.RouteRowBatch` | crates/runner/src/webhook_runtime/routing.rs:30-82 | a batch is accepted exactly when it has events, all of one mapped table of the mapping's database, with well-counted keys; otherwise the error is the first offender's |
| `Ingest.NormalizeAll` | crates/runner/src/webhook_runtime/routing.rs:70-112 | every row keeps its operation and values and gets a named key, or the first miscounted key is reported |
| `Ingest.PositionalAddresses` | crates/runner/src/webhook_runtime/routing.rs:90-109 | a positional key addresses the row whose primary key has those values in that order |
| `Ingest.HelperStore.PersistRowBatch` | crates/runner/src/webhook_runtime/persistence.rs:19-55 | a batch is applied as a whole, in order, or changes nothing, wherever it fails |
| `Ingest.ChangeEffect` | crates/runner/src/webhook_runtime/persistence.rs:57-163 | an upsert or delete decides exactly the one key it is about |
| `Ingest.TouchedSettles` | crates/runner/src/webhook_runtime/persistence.rs:19-163 | from the last change of a key on, a delivery leaves the key as that change left it, wherever it falls back to |
| `Ingest.DeliveryConverges` | crates/runner/src/webhook_runtime/persistence.rs:19-163 | any at-least-once delivery of a history, with any number of repetitions from earlier points, leaves a helper table with a primary key as one delivery does |
| `Ingest.KeyOrderConverges` | crates/runner/src/webhook_runtime/persistence.rs:19-163 | so does any delivery that is one for each key by itself, however the changes of different keys are interleaved |
| `Ingest.LastArrivalDecides` | crates/runner/src/webhook_runtime/persistence.rs:19-163 | a key is as the last change that arrived about it left it |
| `Ingest.TwiceIsOnce` | crates/runner/src/webhook_runtime/persistence.rs:95-101 | delivering an accepted batch twice changes nothing if and only if the table has a primary key or the batch is empty |
| `Ingest.RowsStayFiled` | crates/runner/src/helper_plan.rs:122-140 | every helper row carries all columns and is filed under its own primary key |
| `Ingest.SourceReachesReal` | crates/runner/src/reconcile_runtime/mod.rs:158-186 | with repeated deliveries on the way, in order for each key, a pass makes the real tables the source tables if and only if those are closed under the foreign keys; otherwise it fails, or an ON DELETE action has spread |
| `SqlNames.IdentifierRoundTrip` | crates/runner-config/src/sql_name.rs:8-24 | reading the printed form of any identifier gives that identifier back |
| `SqlNames.PrintedDiffer` | crates/runner-config/src/sql_name.rs:20-24 | no two identifiers are printed alike |
| `SqlNames.NameRoundTrip` | crates/runner-config/src/sql_name.rs:37-62 | reading a printed table name gives it back if and only if its schema has no dot |
| `SqlNames.ConfiguredSchema` | crates/runner-config/src/sql_name.rs:37-43 | a configured name's schema never contains a dot |
| `SqlNames.LabelsDiffer` | crates/runner-config/src/sql_name.rs:53-55 | labels tell names apart as long as their schemas have no dot |
| `SqlNames.LabelsCollide` | crates/runner-config/src/sql_name.rs:53-55 | with a dot in a schema two different names can have one label |
| `StartupPlans.NewGroup` | crates/runner-config/src/startup_plan.rs:130-175 | a group is accepted exactly when all its mappings have one target contract and no label occurs twice; else the error names the first mapping with another contract, or the first label met twice |
| `StartupPlans.CheckOwners` | crates/runner-config/src/startup_plan.rs:157-174 | the label that is the first to be met a second time is reported with mappings that own it |
| `StartupPlans.FromConfigs` | crates/runner-config/src/startup_plan.rs:17-44 | the plan succeeds exactly when every group does, and then partitions the mappings by host, port and database in key order; otherwise the first failing group in that order is reported |
| `StartupPlans.KeysOfMember` | crates/runner-config/src/startup_plan.rs:19-31 | a database has a group exactly when some mapping is for it, and the groups are in strictly ascending order |
| `StartupPlans.TablesOwnedOnce` | crates/runner-config/src/startup_plan.rs:157-172 | in an accepted group no table is owned twice, by two mappings or by one |
| `StartupPlans.OverlapIsReal` | crates/runner-config/src/startup_plan.rs:160-163 | configured names have one label exactly when they are one table |
| `Isolation.StepLocal` | crates/runner/src/reconcile_runtime/mod.rs:158-186 | a pass or batch of a mapping changes only that mapping's real and helper tables |
| `Isolation.StepsCommute` | crates/runner-config/src/startup_plan.rs:157-172 | passes and batches of two mappings with different ids and no table in common commute |
| `Isolation.PlannedStepsCommute` | crates/runner-config/src/startup_plan.rs:157-172 | passes and batches of any two mappings that an accepted plan puts into one database commute |
| `ScanQuery.AfterCursor` | cockroachdb_molt/molt/rowiterator/scan_iterator.go:220-257 | selecting after the cursor what was selected before loses no row and repeats none |
| `ScanIterators.DeliverIsRange` | cockroachdb_molt/molt/rowiterator/scan_iterator.go:71-147 | fetching page after page delivers the whole range once, in order, for every page size of at least one |
| `ScanIterators.DeliverFails` | cockroachdb_molt/molt/rowiterator/scan_iterator.go:71-147 | a scan ends with an error exactly if a fetch fails that the full pages before it call for |
| `ScanIterators.DeliversPagesBefore` | cockroachdb_molt/molt/rowiterator/scan_iterator.go:71-147 | exactly the full pages before the first failing fetch are delivered, then the error |
| `ScanIterators.ScanIterator.constructor` | cockroachdb_molt/molt/rowiterator/scan_iterator.go:36-65 | a new iterator has one fetch outstanding and will deliver the rows of [start, end) |
| `ScanIterators.ScanIterator.HasNext` | cockroachdb_molt/molt/rowiterator/scan_iterator.go:71-101 | says whether a row remains without changing what remains, waits only while exactly one fetch is outstanding, and ends if pages have rows or a fetch fails |
| `ScanIterators.ScanIterator.Receive` | cockroachdb_molt/molt/rowiterator/scan_iterator.go:87-99 | a received page ends the wait, except that a page of size zero leaves the iterator waiting at the same place unless its fetch failed |
| `ScanIterators.ScanIterator.Next` | cockroachdb_molt/molt/rowiterator/scan_iterator.go:156-163 | yields the remaining rows one by one |
| `ScanIterators.ScanIterator.RunFetch` | cockroachdb_molt/molt/rowiterator/scan_iterator.go:104-147 | a fetch sends the next page of rows after the cursor, leaves the cursor at the last of them, and changes nothing of what remains |
| `PointLookups.PointLookupIterator.HasNext` | cockroachdb_molt/molt/rowiterator/point_lookup_iterator.go:39-83 | runs the query once, when first asked, over the keys the shared array then holds |
| `PointLookups.PointLookupIterator.Next` | cockroachdb_molt/molt/rowiterator/point_lookup_iterator.go:144-151 | yields the looked-up rows one by one |
| `RowVerify.SettleRow` | cockroachdb_molt/molt/verify/rowverify/rowverify.go:121-256 | one row of truth is settled against the target: extraneous rows passed over, then missing, matching or mismatching |
| `RowVerify.CompareColumns` | cockroachdb_molt/molt/verify/rowverify/rowverify.go:192-236 | which columns differ, which cannot be compared, and whether any of the latter was seen before |
| `RowVerify.MergeRows` | cockroachdb_molt/molt/verify/rowverify/rowverify.go:115-257 | the outer loop settles every row of truth |
| `RowVerify.VerifyRows` | cockroachdb_molt/molt/verify/rowverify/rowverify.go:109-277 | emits exactly the events and the error of the merge of the two streams, even if both lookups share the key array the listener appends to |
| `Diff.MergeIsDiff` | cockroachdb_molt/molt/verify/rowverify/rowverify.go:109-277 | over streams in key order without errors, the findings are the difference of the two tables: every key of either exactly once |
| `Diff.MergeConserves` | cockroachdb_molt/molt/verify/rowverify/rowverify.go:115-274 | on any streams, sorted or not, the counters account for every row of truth and every row of the target |
| `Diff.InterruptedIsPrefix` | cockroachdb_molt/molt/verify/rowverify/rowverify.go:115-276 | an interrupted comparison decides nothing that the complete one would not |
| `Diff.TargetFailureNoticed` | cockroachdb_molt/molt/verify/rowverify/rowverify.go:259-274 | a failure of the target is reported exactly if some row of truth lies after everything it delivered; otherwise it is dropped |
| `Diff.DroppedFailure` | cockroachdb_molt/molt/verify/rowverify/rowverify.go:259-274 | a run that ends clean although the target failed |
| `ColumnReports.ColumnsReportedOnce` | cockroachdb_molt/molt/verify/rowverify/rowverify.go:216-242 | in one comparison every incomparable column is reported at most once |
| `ColumnReports.ReportedExactly` | cockroachdb_molt/molt/verify/rowverify/rowverify.go:216-242 | a column is reported if and only if the first pair of rows in which it cannot be compared has no column that differs and none that could not be compared in a pair before |
| `ColumnReports.HiddenByMismatch` | cockroachdb_molt/molt/verify/rowverify/rowverify.go:237-242 | a column that can never be compared stays unreported if it is first met in a mismatching row |
| `ColumnReports.HiddenBeside` | cockroachdb_molt/molt/verify/rowverify/rowverify.go:216-242 | and so does one first met beside a column that was met before, although no row mismatches |
| `RowEvents.DefaultListener.On` | cockroachdb_molt/molt/verify/rowverify/row_event_listener.go:30-77 | counts every event and hands the reporter exactly the reportable ones and a summary after every 10000 rows |
| `RowEvents.LiveListener.On` | cockroachdb_molt/molt/verify/rowverify/row_event_listener.go:89-119 | suspect keys are collected and counted, everything else goes to the base listener |
| `RowEvents.LiveListener.Flush` | cockroachdb_molt/molt/verify/rowverify/row_event_listener.go:121-134 | every suspect key is in exactly one pushed batch, in order, and no batch is empty |
| `RowEvents.LiveRetryItem.Append` | cockroachdb_molt/molt/verify/rowverify/live_reverifier.go:189-216 | appends in place while the backing array has room, else into a copy |
| `RowEvents.LiveRetryItem.NextRetry` | cockroachdb_molt/molt/retry/retry.go:84-91 | the next try is one capped pause later |
| `RowEvents.ReverifyListener.On` | cockroachdb_molt/molt/verify/rowverify/live_reverifier.go:189-228 | suspect keys are carried over while the scan may be repeated and reported otherwise |
| `ShardTables.Wrap` | cockroachdb_molt/molt/verify/shard_table.go:51-80 | 64-bit arithmetic: the value in range that is congruent |
| `ShardTables.ShardTable` | cockroachdb_molt/molt/verify/shard_table.go:21-120 | an error below one split, one full shard if the key cannot be cut, else the cut into numSplits shards on integers, high words of UUIDs or floating-point numbers |
| `ShardTables.ChainCovers` | cockroachdb_molt/molt/verify/shard_table.go:43-95 | the shards cover every key, even where a boundary wrapped around |
| `ShardTables.OverflowFallsBack` | cockroachdb_molt/molt/verify/shard_table.go:51-58 | an overflowing difference of extremes is always seen as not positive |
| `ShardTables.DisjointExactly` | cockroachdb_molt/molt/verify/shard_table.go:59-80 | the shards are pairwise disjoint if and only if no boundary wraps around |
| `ShardTables.WrappedShard` | cockroachdb_molt/molt/verify/shard_table.go:59-80 | where a boundary wraps, a key from the minimum up is in the last shard and, unless its value is the greatest of all, in the one shard for its value, and in no other |
| `VerifyTables.VerifyRowsOnShard` | cockroachdb_molt/molt/verify/rowverify/rowverify.go:30-107 | one shard's reports and counters are those of the merge of its two paged scans, with a closing summary exactly if the scan ends without an error |
| `VerifyTables.VerifyShards` | cockroachdb_molt/molt/verify/verify.go:196-275 | every shard is verified once: its reports and events are those of its own scans, a shard that fails is counted and does not stop the others, and without faults each shard's findings are the difference within it |
| `VerifyTables.TotalCounts` | cockroachdb_molt/molt/verify/verify.go:161-173 | every finding is made once for each shard that holds its key |
| `VerifyTables.ShardsFindDiff` | cockroachdb_molt/molt/verify/verify.go:161-173 | shards, pages and merge together find exactly the difference of the two tables, every key once |
| `VerifyTables.VerifyTable` | cockroachdb_molt/molt/verify/verify.go:161-275 | if no fetch fails, a table's findings are its difference, every key once, if and only if no shard boundary wraps around |
| `VerifyTables.WrappedShardsRepeat` | cockroachdb_molt/molt/verify/shard_table.go:59-80 | where a boundary wraps, every finding at a key from the minimum up is made exactly twice, or once at the greatest value there is |
| `VerifyTables.CutFindsDiff` | cockroachdb_molt/molt/verify/verify.go:161-173 | shards cut between the extremes of the source of truth find the difference, every key once, if and only if no boundary wraps around |
| `WorkerPool.PoolReportsAll` | cockroachdb_molt/molt/verify/verify.go:196-274 | for every interleaving of the workers each shard is verified exactly once |
| `WorkerPool.PoolProgress` | cockroachdb_molt/molt/verify/verify.go:196-274 | the pool cannot get stuck and every step brings it nearer its end |
| `Retries.BackoffGrows` | cockroachdb_molt/molt/retry/retry.go:17-28 | with verified settings pauses are positive, never shrink and respect the cap |
| `Retries.Do` | cockroachdb_molt/molt/retry/retry.go:93-106 | stops at the first success or after the allowed number of attempts, having waited the sum of the pauses; without a bound, at the first success |
| `RetryQueues.RootIsEarliest` | cockroachdb_molt/molt/verify/rowverify/live_retry_queue.go:27-29 | in a heap nobody comes before the root |
| `RetryQueues.LiveRetryQueue.Up` | cockroachdb_molt/molt/verify/rowverify/live_retry_queue.go:17-19 | restores the heap above one item and loses none |
| `RetryQueues.LiveRetryQueue.Down` | cockroachdb_molt/molt/verify/rowverify/live_retry_queue.go:21-23 | restores the heap below one item and loses none |
| `RetryQueues.LiveRetryQueue.HeapPush` | cockroachdb_molt/molt/verify/rowverify/live_retry_queue.go:35-40 | adds one item, keeping the heap and the key count |
| `RetryQueues.LiveRetryQueue.HeapPop` | cockroachdb_molt/molt/verify/rowverify/live_retry_queue.go:42-51 | removes an item that no other one precedes, keeping the others and the key count |
| `LiveRetries.ScanSuspects` | cockroachdb_molt/molt/verify/rowverify/live_reverifier.go:127-148 | an answered scan finds exactly those of its keys suspect on which the tables disagree at that moment |
| `LiveRetries.InsertKeeps` | cockroachdb_molt/molt/verify/rowverify/live_reverifier.go:116-122 | a new batch keeps the invariant of the run |
| `LiveRetries.WorkKeeps` | cockroachdb_molt/molt/verify/rowverify/live_reverifier.go:123-163 | every scan keeps the invariant: keys are the whole batch or all suspects of the scan before, attempts count up, finished batches are finished for a reason |
| `LiveRetries.ScannedAtMost` | cockroachdb_molt/molt/retry/retry.go:77-82 | with a bound on the retries no batch is scanned more often than that |
| `LiveRetries.KeyFate` | cockroachdb_molt/molt/verify/rowverify/live_reverifier.go:156-169 | a scan finds a key suspect if and only if it and all earlier scans of the batch found the tables to disagree about it |
| `LiveRetries.OnlyLastReports` | cockroachdb_molt/molt/verify/rowverify/live_reverifier.go:193-216 | only the last allowed scan of a batch reports keys, and there is one such scan at most |
| `LiveRetries.ReportedIfAlways` | cockroachdb_molt/molt/verify/rowverify/live_reverifier.go:193-216 | a key of a finished batch was reported if and only if every scan of the batch found the tables to disagree about it |
| `LiveRetries.ReportedOnce` | cockroachdb_molt/molt/verify/rowverify/live_reverifier.go:193-216 | an answered scan reports no key twice |
| `LiveRetries.WorkUsesUp` | cockroachdb_molt/molt/verify/rowverify/live_reverifier.go:123-172 | every scan uses up some of the finitely many scans left |
| `LiveRetries.CalmSettles` | cockroachdb_molt/molt/verify/rowverify/live_reverifier.go:123-172 | a scan while the tables agree finishes its batch, bound or no bound on the retries |
| `LookupFaults.BrokenScan` | cockroachdb_molt/molt/verify/rowverify/live_reverifier.go:151-154 | a failing query finds nothing suspect; it ends the scan with an error, unless it is the target's and truth delivers no row |
| `LookupFaults.CutShortSuspects` | cockroachdb_molt/molt/rowiterator/point_lookup_iterator.go:58-66 | a scan judges a key rightly if and only if neither interrupted lookup lost its row, or both tables have one and just one side lost it and the rows differ, or both lost it and the rows agree |
| `LookupFaults.CutShortMisreports` | cockroachdb_molt/molt/rowiterator/point_lookup_iterator.go:58-66 | an interrupted target lookup makes a row missing that both tables have, without an error |
| `LookupFaults.SuspectAllAlong` | cockroachdb_molt/molt/verify/rowverify/live_reverifier.go:156-169 | a key that a scan finds suspect was found suspect, without an error, by all scans of its batch before |
| `LookupFaults.ReportedIfSuspect` | cockroachdb_molt/molt/verify/rowverify/live_reverifier.go:151-169 | whatever the lookups do, a key of a finished batch was reported if and only if every scan of the batch found it suspect and none ended with an error |
| `LookupFaults.ErrorDropsBatch` | cockroachdb_molt/molt/verify/rowverify/live_reverifier.go:151-154 | when the query for truth fails the batch is dropped and nothing of it reported |
| `LookupFaults.ErrorDropsKey` | cockroachdb_molt/molt/verify/rowverify/live_reverifier.go:151-154 | so a key on which the tables disagree all the time can stay unreported |
| `LiveVerification.ReportedExactly` | cockroachdb_molt/molt/verify/rowverify/rowverify.go:70-103 | once the reverifier is through with the batches sent to it, a key is reported if and only if every lookup of a batch that it was in found it suspect; the batches hold the suspect keys of the scan but for those still waiting to be sent |
| `LiveVerification.WaitingAreLost` | cockroachdb_molt/molt/verify/rowverify/rowverify.go:84-93 | a scan that ends with an error is not flushed: exactly its keys still waiting are lost, and none of them is ever reported |
| `LiveReverifiers.VerifyLookups` | cockroachdb_molt/molt/verify/rowverify/live_reverifier.go:143-157 | the two lookups see the full key list although the listener appends to its array |
| `LiveReverifiers.ScanItem` | cockroachdb_molt/molt/verify/rowverify/live_reverifier.go:143-160 | one scan leaves in the item exactly the keys to carry and hands the base listener the rest |
| `LiveReverifiers.LiveReverifier.OnInsert` | cockroachdb_molt/molt/verify/rowverify/live_reverifier.go:116-122 | a batch that arrives joins the queue; the queue stays a heap whose key count is right |
| `LiveReverifiers.LiveReverifier.OnWork` | cockroachdb_molt/molt/verify/rowverify/live_reverifier.go:123-170 | the earliest batch is scanned and put back exactly if keys are to be carried |
| `LiveReverifiers.LiveReverifier.Run` | cockroachdb_molt/molt/verify/rowverify/live_reverifier.go:96-172 | with a bound on the retries, or if the tables agree from some time on, the loop ends, and only when the scan is complete and no batch waits, having taken in every batch pushed |
| `DbVerify.CompareTables` | cockroachdb_molt/molt/verify/dbverify/dbverify.go:92-140 | the loops compute the merge of the two table lists |
| `DbVerify.ComparedConserves` | cockroachdb_molt/molt/verify/dbverify/dbverify.go:92-140 | sorted or not, every table of either list is accounted for as often as it occurs |
| `DbVerify.ComparedExactly` | cockroachdb_molt/molt/verify/dbverify/dbverify.go:92-140 | on strictly sorted lists the result is the exact intersection and the two differences by case-insensitive name |
| `DbVerify.CompareOrder` | cockroachdb_molt/molt/dbtable/table.go:35-44 | comparing the other way round gives the opposite, and zero means the same name up to case |
| `TableVerify.CompareAllColumns` | cockroachdb_molt/molt/verify/tableverify/tableverify.go:89-159 | the comparable columns and the findings about the others |
| `TableVerify.ComparePrimaryKeys` | cockroachdb_molt/molt/verify/tableverify/tableverify.go:161-212 | the keys agree exactly if they list the same comparable columns in the same order; the clashing collations are collected |
| `TableVerify.ListColumns` | cockroachdb_molt/molt/verify/tableverify/tableverify.go:213-239 | key columns first, then the others in table order |
| `TableVerify.VerifyTable` | cockroachdb_molt/molt/verify/tableverify/tableverify.go:51-242 | rows are verifiable exactly under the stated condition; then the primary key is a prefix of the columns, and the columns are the comparable ones, each once |
| `TableVerify.ProjectedSorted` | cockroachdb_molt/molt/rowiterator/scan_iterator.go:220-257 | rows selected in those columns and ordered by primary key are ordered by their leading columns, which is what cursors, shards and the merge compare |
| `TableVerify.KeyMustComeFirst` | cockroachdb_molt/molt/rowiterator/scan_iterator.go:259-278 | without the key columns first this would fail |
| `JobStores.DatabaseJob.Complete` | cockroachdb_molt/molt/verifyservice/job.go:229-240 | a database with a recorded mismatch fails, any other succeeds, and it is finished |
| `JobStores.DatabaseJob.MarkStopped` | cockroachdb_molt/molt/verifyservice/job.go:254-260 | only a database still at work is stopped |
| `JobStores.Job.Status` | cockroachdb_molt/molt/verifyservice/job.go:105-144 | stopping before running before failed before stopped before succeeded |
| `JobStores.Job.DatabaseNamed` | cockroachdb_molt/molt/verifyservice/job.go:155-162 | the first database of that name |
| `JobStores.Job.MarkStopping` | cockroachdb_molt/molt/verifyservice/job.go:164-168 | every running database is marked, the others are left |
| `JobStores.Job.Stop` | cockroachdb_molt/molt/verifyservice/job.go:175-180 | every database still at work is stopped and the job is finished |
| `JobStores.JobStore.Add` | cockroachdb_molt/molt/verifyservice/job_store.go:22-28 | the job joins the store and the order; others are untouched |
| `JobStores.JobStore.Stop` | cockroachdb_molt/molt/verifyservice/job_store.go:56-67 | exactly an active job with a cancel function is marked stopping; other jobs are untouched |
| `JobStores.JobStore.CompleteDatabase` | cockroachdb_molt/molt/verifyservice/job_store.go:99-112 | one database of one job is completed; other jobs are untouched |
| `JobStores.JobStore.FailDatabase` | cockroachdb_molt/molt/verifyservice/job_store.go:114-127 | one database of one job fails; other jobs are untouched |
| `JobStores.JobStore.FinishJob` | cockroachdb_molt/molt/verifyservice/job_store.go:129-138 | the job gets its finish time and loses its cancel function |
| `JobStores.JobStore.StopJob` | cockroachdb_molt/molt/verifyservice/job_store.go:140-149 | the job's work is stopped and the job finished |
| `JobStores.JobStore.MetricsStatusSnapshot` | cockroachdb_molt/molt/verifyservice/job_store.go:151-177 | the counts of listed jobs by status and of active jobs |
| `JobStores.JobRunner.AtLoopHead` | cockroachdb_molt/molt/verifyservice/service.go:118-154 | at the head of the loop a job finishes, is stopped if cancelled, or its next run begins |
| `JobStores.JobRunner.AtRunEnd` | cockroachdb_molt/molt/verifyservice/service.go:132-151 | the end of a run completes or fails its database, or stops the job |
| `JobLifecycle.IdsDiffer` | cockroachdb_molt/molt/verifyservice/service.go:306-317 | no two jobs get the same id |
| `JobLifecycle.RunKeeps` | cockroachdb_molt/molt/verifyservice/service.go:106-155 | every interleaving of starts, stop requests, cancellations, reports and goroutine steps keeps jobs and goroutines in step |
| `JobLifecycle.JobsAreSound` | cockroachdb_molt/molt/verifyservice/job.go:105-180 | in every run an active job has a cancel function and no finish time, and a job with a finish time has only terminal databases |
| `JobLifecycle.TerminalStays` | cockroachdb_molt/molt/verifyservice/job.go:229-260 | no step changes the status or finish time of a terminal database |
| `JobLifecycle.DuplicateNamesBreak` | cockroachdb_molt/molt/verifyservice/config.go:149-151 | why a configured name must not occur twice: a terminal status would change and a finished job stay active |
| `JobLifecycle.GoroutinesEnd` | cockroachdb_molt/molt/verifyservice/service.go:117-155 | every step of a job's goroutine uses up effort, so each job ends after finitely many of them |
| `JobLifecycle.CancelledJobEnds` | cockroachdb_molt/molt/verifyservice/service.go:118-122 | a cancelled job ends, with all its work terminal, the next time its goroutine looks |
| `JobLifecycle.SnapshotAddsUp` | cockroachdb_molt/molt/verifyservice/job_store.go:151-177 | in every run the counts add up to the number of jobs, and active jobs are those running or stopping |
| `Globs.GlobToRegex` | cockroachdb_molt/molt/verifyservice/filter.go:333-367 | the text written for a glob, with its classes copied, or the error about a bad pattern |
| `Globs.TranslatedPieces` | cockroachdb_molt/molt/verifyservice/filter.go:333-367 | a glob is accepted if and only if it can be written as single characters and closed classes that have something in them |
| `Globs.PiecesTranslated` | cockroachdb_molt/molt/verifyservice/filter.go:333-367 | whatever such pieces a glob is written from, its text is theirs one after the other |
| `Globs.PlainTogether` | cockroachdb_molt/molt/verifyservice/filter.go:314-367 | for globs without classes it is the text that the following is about |
| `Globs.GlobsToRegex` | cockroachdb_molt/molt/verifyservice/filter.go:314-331 | the anchored alternation, with the default text for no glob and for the lone star, or the error if one glob is bad |
| `Globs.ParseJoined` | cockroachdb_molt/molt/verifyservice/filter.go:319-330 | reading the written alternation back gives the globs' own pieces: nothing is mistaken for an operator |
| `Globs.FilterMeans` | cockroachdb_molt/molt/verifyservice/filter.go:314-367 | the compiled filter accepts a name if and only if there is no glob or some glob matches it |
| `Globs.LoneStar` | cockroachdb_molt/molt/verifyservice/filter.go:327-329 | only the glob * is replaced by the default text |
| `TableFilters.AppendUniqueStrings` | cockroachdb_molt/molt/verifyservice/filter.go:289-297 | appends the candidates that are not there yet, each where it first occurs |
| `TableFilters.AddedMeans` | cockroachdb_molt/molt/verifyservice/filter.go:289-297 | nothing is lost or invented and no duplicate arises |
| `TableFilters.FilterInPlace` | cockroachdb_molt/molt/utils/obj_filter.go:52-71 | filtering over the slice's own backing array keeps exactly the wanted elements in order |
| `TableFilters.FilterResult` | cockroachdb_molt/molt/utils/obj_filter.go:27-73 | all three lists are filtered, or none if a text does not compile; the default shortcut keeps what the general way would |
| `TableFilters.Resolve` | cockroachdb_molt/molt/verifyservice/filter.go:179-236 | exactly one plan for every configured database that a selection matches, in configured order, with the globs of all matching selections; failure exactly if there is none |
| `TableFilters.PlanKeeps` | cockroachdb_molt/molt/verifyservice/filter.go:179-252 | a database's filter keeps a table if and only if some selection wants its schema and some selection wants its name |
| `TableFilters.PlanFilters` | cockroachdb_molt/molt/verifyservice/filter.go:238-252 | the filter that a run gets compiles and keeps exactly those tables |
| `TableFilters.SelectionsCross` | cockroachdb_molt/molt/verifyservice/filter.go:189-207 | the selection that wants the schema need not be the one that wants the name |

## Left out

- RunReconcilePass: unique constraints other than the primary key, check constraints, triggers and type conversion are not modelled; a statement that fails for such a reason is the one that meets the outside failure.
- DeleteStatement: all actions of one statement are judged together at its end. Where a row that goes anyway is also referenced by RESTRICT, or two foreign keys of a row share a column and have different actions, the database decides by the order of its triggers; a statement that fails there is one that meets the outside failure. ON UPDATE actions cannot fire, since no statement changes a primary key.
- PassSucceeds: foreign keys from or to tables that are not selected, keys that reference other columns than the primary key, and generated primary keys are excluded by `WellFormed`.
- StatementsKeep: deferred foreign keys (DEFERRABLE INITIALLY DEFERRED) are left out: the catalog query does not read them; with them it is the commit that fails and not the statement.
- CommittedPass: the database is taken to run transactions at READ COMMITTED, since the code sets no isolation level; a restart is a pass rolled back and another seeding.
- UpsertedShows: real rows are seen in their non-generated columns only.
- RunMappingLoop: the interval timer and the tasks of the other mappings are left out; what the other mappings do is covered by `Isolation.StepsCommute`.
- WidthsDecide: text is compared by character code; a destination database with another collation is not modelled.
- PersistRowBatch: values are compared as they are; the conversion from JSON to the column's type appears only as a mutation that fails for a reason of its own.
- StepsCommute: a pass is one step there, over one state of its mapping's own helper tables; helper tables are identified by mapping and table; that the generated helper table names do not collide or get truncated is assumed. A foreign key between tables of two mappings is one to a table that is not selected, and left out as such; with it the order of their passes would matter.
- NameRoundTrip: that a name without a dot makes `from_config` panic is modelled as a result, since configuration is validated before.
- WaitingAreLost: that a reverifier that is never told that the scan is complete goes on waiting is not modelled.
- VerifyRowsOnShard: live mode is modelled by the live listener and the reverifier separately; the unsynchronised updates of the counters that the scan and the reverifier share are not, each listener call is one step.
- VerifyRows: the conversions between booleans, integers, UUIDs, addresses, JSON and strings before a comparison are part of the comparison, which may fail for a column.
- ShardTable: floating-point numbers are exact, so that rounding, which could make neighbouring boundaries equal, and an overflow of their difference do not occur; the databases are taken to order NaN as the comparison does; the extremes are taken from one state of the table.
- VerifyShards: continuous mode and the pauses between runs are left out; the order of the shards among several workers is in `WorkerPool`.
- HasNext: the rate limiter and the initialisation of types are left out; which fetch fails and after how many rows is a parameter. A negative page size makes the query itself fail and is not a separate case.
- NextRetry: time is an integer without overflow, and the power of the multiplier is exact.
- Do: without a bound on the retries and without a success the loop need not end; that case is excluded.
- Run: the rate limiter and the hooks that block or observe scans are left out; without a bound on the retries, and while the tables keep disagreeing, the loop need not end.
- CompareTables: lower-casing is any function on strings.
- VerifyTable: fetching data types cannot fail in the model; comparability of types and collations is any relation, and the texts and the order of the findings are left out.
- Complete: the operator error and the findings kept for display are reduced to whether a mismatch was recorded.
- Stop: the HTTP answer and the call of the cancel function after the lock is released are the separate step `Cancel`.
- FilterMeans: character classes and backslashes are excluded, because the two pattern languages read them differently (a leading ! negates a class in one and is a member of it in the other); names are free of slashes and newlines.
- GlobToRegex: globs are ASCII; a byte of a longer character would be written as a character of its own.
- FilterResult: the regular-expression engine is any one whose default text compiles and matches every name; `Globs.TextMatches` is its meaning for the texts written here.
- Connections, HTTP and TLS, command lines, configuration and JSON decoding, credentials, logging, metrics, the fixup reporter and the text of generated SQL are left out.
