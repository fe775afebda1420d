# A model of the REST server's transactions, filters and notifications

The repository serves PostgreSQL tables over HTTP. This project models its three hard parts and two small ones, and
proves what they keep over all inputs and all runs.

* **The saga** (`Rows`, `Saga`, `SeveralRows`, `RowUndo`, `Undo`, `Refusal`, `Limits`, `Store`, `CommitRecord`,
  `Manager`, `Calls`, `Lifecycle`, `Crash`, `Serial`, `Alignment`, `Middleware`, `Requests`, `Recovery`). Requests made
  inside a transaction are only staged, with a snapshot of the row they name. A commit applies them in one database
  transaction and records what it did; a committed transaction can be undone later from its snapshots.
  `Manager.Manager` is the object whose methods change the two metadata tables and the business data; `Saga` and
  `Store` hold the functions it is proved against. A call is a sequence of durable states, so a crash is a call cut
  short after any of them.
* **The filter compiler** (`Text`, `Filters`, `Parser`, `Splitting`, `RoundTrip`, `WireMeaning` on the reading side;
  `Sql`, `Printer`, `Meaning`, `Faithful`, `Builder`, `Placement`, `Statements` on the printing side; `QueryText` and
  `Operators` over both). SQL text is a sequence of tokens. `Sql.ReadWhere` is a reader of conditions with SQL's
  precedence (section 4.1.6 of the PostgreSQL manual) and `Sql.Eval` gives them SQL's three truth values; `Filters`
  gives the filter tree a meaning of its own, without any text. The theorems connect the two. `QueryText` says what a
  whole query means from the keys it is written under, and `Operators` what each operator word asks of a row's values,
  from the request's text to the rows picked.
* **The notification hub** (`Subscriptions`, `HubProtocol`, `NotificationHub`): subscriptions, buffers of 64 and a
  broadcaster whose snapshot and sends interleave with everything the clients do.
* **Paging, the rate limiter and batch inserts** (`Paging`, `RateLimit`, `BatchInsert`).

Several promises of the design hold of the code only under a condition. Each has a lemma with the exact condition, for
all inputs:

* Conflict safety: a change by another client refuses the rollback exactly when the row existed before the commit, the
  outcome of the transaction's last UPDATE of it was recorded, and the change is visible (`Refusal.ChangeIsRefused`).
  A change is invisible when it only swaps NULL and the text `<nil>`, which print the same (`Rows.RenderCollidesIff`,
  `Limits.NilWriteExample`). The commit drops the errors of its record writes: without the recorded outcome any change
  is overwritten (`Limits.LostStateExample`). A row the transaction inserted itself is deleted although others have
  changed it (`Limits.InsertedRowExample`). `Refusal.RefusedIff` says exactly when a rollback refuses, whatever others
  wrote and whatever the commit failed to record; without the row id of an INSERT it always does.
* A rollback that succeeds restores a row exactly when the row is restorable (`Undo.UndoRestoresIff`): all of them when
  no record was lost (`Undo.UndoRestores`), but not a row whose outcome was not recorded and that others have deleted.
* A rollback with nobody else writing succeeds exactly when the transaction and its records leave nothing stuck
  (`Refusal.UndoableIff`); two recorded updates that change one row, for instance, are refused. With each row written
  once it succeeds exactly when the row ids are on record (`Refusal.CleanUndo`).
* `rolled_back` means undone after a rollback of a committed transaction (`Crash.RollbackIsCrashSafe`). For one that was
  rolled back while pending it does so exactly when no commit of it that changes the data had been stopped after its
  target transaction (`Recovery.RolledBackMeansUndoneIff`); otherwise every change stays and nothing can undo it
  (`Recovery.RollbackOfStoppedCommit`).
* Undo needs the id to be kept and the row to be snapshotted (`Limits.RestoredIffIdKept`,
  `Limits.UncoveredIsNotUndone`); a snapshot covers the written row exactly when the request's conditions select that
  row and no other (`Middleware.CoveredIff`).
* The WHERE text can be read exactly when there is no empty group, empty IN list or `any`/`all` modifier
  (`Faithful.WhereIsFaithful`); the statement picks exactly the rows the filters are true of but for the cases that
  `Statements.PicksRightlyIff` lists.
* The count of a request agrees with its select on every database exactly when the table is in the public schema, or
  no row can meet the condition (`Statements.CountAgreesIff`); elsewhere it reads another table.
* `not.or.(...)` is compiled to the negation of a conjunction; it agrees with the negated disjunction on a row exactly
  when the members of the group have one and the same truth there (`WireMeaning.NegatedOrAgreesIff`), and on every row
  exactly when they all mean the same (`WireMeaning.NegatedOrAlwaysAgreesIff`).
* Eviction of idle limiter keys is unobservable exactly when ten minutes refill the burst, or nothing is ever allowed
  (`RateLimit.EvictionIsUnobservableIff`).
* The reported page positions are exact unless the offset is negative or the last position overflows
  (`Paging.ReportIsExactIff`, `Paging.RangeRequestIsServedIff`).

Data the code gets from elsewhere are parameters: the values the database chooses on insert, which record-keeping
writes were lost, clocks, the conversion of an id from text to a column value, and the writes of other clients.

## Model

| member | source | states |
|---|---|---|
| `Rows.RenderCollidesIff` | internal/transaction/manager.go:489 | two values of one column have the same `%v` text if and only if they are equal or are NULL and the text `<nil>`; numbers are whole and small enough for JSON to carry them exactly |
| `Rows.LooksLikeIff` | internal/transaction/manager.go:481-492 | so the comparison of two rows misses exactly such differences, besides `updated_at` |
| `Saga.UndoAllLastFirst` | internal/transaction/manager.go:400-402 | undoing a list of operations undoes the last one first and then the rest |
| `SeveralRows.CurrentRowsSplit` | internal/transaction/manager.go:257-274 | the rows recorded for several snapshots are those of each in its turn |
| `SeveralRows.CheckAllIff` | internal/transaction/manager.go:464-495 | the conflict check of several rows passes if and only if each recorded row is there and looks as recorded |
| `SeveralRows.DeleteAllDoes` | internal/transaction/manager.go:447-452 | the listed rows are gone and no other |
| `SeveralRows.RestoreAllDoes` | internal/transaction/manager.go:497-528 | each snapshotted row that still exists gets its columns back, and no other row changes |
| `SeveralRows.ReinsertAllDoes` | internal/transaction/manager.go:531-549 | every snapshotted row is back as it was; fails if and only if one of the ids is taken |
| `RowUndo.UndoOneRow` | internal/transaction/manager.go:439-551 | compensating one operation touches only the row it names, and succeeds exactly when the row-level undo does |
| `RowUndo.UndoneUpdateIsStamped` | internal/transaction/manager.go:497-528 | undoing an UPDATE gives the row its snapshot, but `updated_at` is the time of the undo |
| `RowUndo.UndoRowByRow` | internal/transaction/manager.go:439-551 | the reverse loop over all data succeeds if and only if it succeeds on every row taken alone, and acts on each row independently |
| `Undo.ForwardFinishes` | internal/transaction/manager.go:214-280 | the id and state recording of a commit leaves on each operation exactly the row id and the row after all operations |
| `Undo.CommitFinishes` | internal/transaction/manager.go:214-280 | what a commit leaves on record of each operation, with or without lost writes |
| `Undo.RowAfter` | internal/transaction/manager.go:439-551 | what a reverse pass that succeeds makes of one row, for any number of operations on it and any records |
| `Undo.StampAfter` | internal/transaction/manager.go:505-508 | the `updated_at` a successful pass leaves on an existing row: the time of undoing the transaction's first UPDATE of it, or the snapshot's own when it was deleted first |
| `Undo.UndoRestoresIff` | internal/transaction/manager.go:391-565 | main theorem: whatever others wrote and whatever the commit failed to record, a rollback that succeeds restores a row the transaction changed if and only if it is restorable, and leaves the others as found but for outdated row ids; the restored rows are stamped as in `Undo.StampAfter` |
| `Undo.UndoRestores` | internal/transaction/manager.go:391-565 | so with its ids and states recorded, every row the transaction changed is back at its value (or absence) before the commit, `updated_at` aside, and all other rows are as found |
| `Undo.LostIdRefuses` | internal/transaction/manager.go:443-446 | an INSERT without a recorded row id refuses every rollback |
| `Refusal.RefusedIff` | internal/transaction/manager.go:439-551 | main theorem: whatever others wrote since the commit and whatever it failed to record, the rollback refuses if and only if a row id is not on record or an operation on a row that existed before is stuck |
| `Refusal.RowRefusedIff` | internal/transaction/manager.go:439-551 | the same for one existing row taken alone |
| `Refusal.ChangeIsRefused` | internal/transaction/manager.go:464-495 | a row last hit by an UPDATE and since deleted or changed: the change refuses the rollback if and only if the row existed before the commit, that UPDATE's outcome is on record and the change is visible; what a rollback that succeeds makes of the row otherwise |
| `Refusal.UndoableIff` | internal/transaction/manager.go:439-551 | with nobody writing since the commit, the rollback succeeds if and only if the transaction and its records alone leave nothing stuck |
| `Refusal.CleanUndo` | internal/transaction/manager.go:439-551 | with each row written once and untouched since, the rollback succeeds if and only if the row ids of the inserted rows are on record, and then commit followed by rollback is the identity up to `updated_at` |
| `Limits.RestoredIffIdKept` | internal/transaction/manager.go:516-526 | a single UPDATE is undone if and only if it does not write another id |
| `Limits.UncoveredIsNotUndone` | internal/transaction/manager.go:440-455 | without a snapshot the rollback reports success and restores only if the UPDATE changed nothing |
| `Limits.NilWriteIsLost` | internal/transaction/manager.go:481-492 | for every transaction of one UPDATE that leaves NULL in a column: another client's `<nil>` there is overwritten by a rollback that reports success |
| `Limits.NilWriteExample` | internal/transaction/manager.go:481-492 | one such run, from commit to rollback, on concrete data |
| `Limits.LostStateIsNotChecked` | internal/transaction/manager.go:277 | for every transaction of one UPDATE whose outcome was not recorded: the rollback succeeds whatever others did, and restores the row if and only if nobody deleted it |
| `Limits.LostStateExample` | internal/transaction/manager.go:277 | one such run each for a change and a deletion by another client |
| `Limits.LostIdIsFatal` | internal/transaction/manager.go:232-233 | a transaction that lost the row id of an INSERT can never be rolled back |
| `Limits.InsertedRowExample` | internal/transaction/manager.go:440-454 | one run in which a row the transaction inserted is deleted together with another client's change |
| `CommitRecord.CommitFails` | internal/transaction/manager.go:207-248 | a commit whose forward pass fails leaves business data and statuses as they were |
| `CommitRecord.CommitSucceeds` | internal/transaction/manager.go:214-291 | a commit that passes ends with the data of the forward pass, status committed and finished operations, other transactions untouched |
| `CommitRecord.IdsAreNoted` | internal/transaction/manager.go:232-234 | after the forward loop each INSERT carries its own row id, unless that write was lost, and nothing else changed |
| `Manager.Manager.constructor` | internal/transaction/manager.go:21-31 | an empty store over the given data |
| `Manager.Manager.Start` | internal/transaction/manager.go:33-52 | one new pending transaction without operations, all else unchanged |
| `Manager.Manager.Stage` | internal/transaction/manager.go:121-145 | one operation appended with the next id, only to a stored pending transaction |
| `Manager.Manager.ReadCommitted` | internal/transaction/manager.go:257-274 | the current rows of the snapshotted ids that still exist, in snapshot order |
| `Manager.Manager.ApplyStaged` | internal/transaction/manager.go:214-244 | the forward loop computes the forward pass of the specification, and its only durable writes are the row ids |
| `Manager.Manager.RecordStates` | internal/transaction/manager.go:250-280 | the recording loop ends in the specified table, one durable state for each write |
| `Manager.Manager.Commit` | internal/transaction/manager.go:147-294 | goes through exactly the durable states of which `Crash.CommitIsCrashSafe` speaks, under the lock transaction of which `Crash.LockIsPrivate` speaks, and answers the fault of the forward pass if it has one |
| `Manager.Manager.Rollback` | internal/transaction/manager.go:296-318 | drops the operations and then marks the transaction, only when pending |
| `Manager.Manager.RollbackPostCommit` | internal/transaction/manager.go:391-565 | undoes last operation first; a refusal leaves no durable state at all |
| `Manager.Manager.Cleanup` | internal/transaction/manager.go:593-609 | the sweep of which `Lifecycle.SweepIsExact` speaks: removes expired pending and committed transactions with their operations |
| `Manager.DeleteRows` | internal/transaction/manager.go:447-452 | deletes exactly the listed ids |
| `Manager.CompareRow` | internal/transaction/manager.go:481-492 | whatever order the columns are visited in, the answer is whether the rows look alike outside `updated_at` |
| `Manager.CheckRows` | internal/transaction/manager.go:464-495 | refuses exactly when a recorded row is gone or looks different |
| `Manager.RestoreSets` | internal/transaction/manager.go:498-514 | in any map order: never the id, `updated_at` at the time of the undo, and every other column as in the snapshot |
| `Manager.RestoreRows` | internal/transaction/manager.go:497-528 | restores every snapshotted row that still exists |
| `Manager.ReinsertRows` | internal/transaction/manager.go:531-549 | reinserts every snapshotted row, or fails when its id is taken |
| `Manager.Compensate` | internal/transaction/manager.go:439-551 | one turn of the reverse loop equals the compensation of the specification |
| `Manager.HandleCommit` | internal/transaction/handler.go:83-112 | 409 `PGRST305` for a transaction that is not pending, which is left alone; 409 `PGRST306` when the forward pass fails, leaving the row ids noted so far; 200 otherwise |
| `Manager.HandleRollback` | internal/transaction/handler.go:114-163 | drops a pending transaction, undoes a committed one or answers 409 `PGRST320`, and changes nothing in the other states, with 404 for an unknown transaction and 409 `PGRST308` else |
| `Lifecycle.EventIsLawful` | internal/transaction/manager.go:121-318 | every durable state any call can leave behind, complete or cut short, respects the rules of the lifecycle: who may change a status, with which stamp, what starts and what ends a transaction, whose operations are kept and whose are dropped |
| `Lifecycle.RunKeepsInv` | internal/transaction/migration.go:11-29 | over all runs: every operation belongs to a stored transaction, ids rise, and no durable state says `committing` |
| `Lifecycle.StatusMovesOneWay` | internal/transaction/manager.go:147-318 | status moves only from pending to committed to rolled back, or from pending to rolled back |
| `Lifecycle.RolledBackOpsStay` | internal/transaction/manager.go:121-134 | the operations of a rolled-back transaction are never touched again |
| `Lifecycle.CommittedStaysUndoable` | internal/transaction/manager.go:593-609 | a committed transaction stays committed with the very operations it committed until a sweep later than the TTL, over refused and crashed rollbacks of it too |
| `Lifecycle.SweepIsExact` | internal/transaction/manager.go:593-609 | a sweep removes exactly the transactions pending or committed for longer than the TTL, each with its operations, and changes nothing else |
| `Crash.CommitIsCrashSafe` | internal/transaction/manager.go:156-291 | at every crash point none or all of the changes are there, and status committed implies all of them |
| `Crash.LockIsPrivate` | internal/transaction/manager.go:156-168 | the lock transaction says `committing` throughout a commit and nobody else sees it: a crash at any moment discards it and leaves a state of the commit's trace |
| `Crash.RollbackIsCrashSafe` | internal/transaction/manager.go:553-562 | for a committed transaction: status rolled back implies the changes are undone; a rerun after a crash between the two writes refuses or changes nothing but `updated_at` |
| `Crash.RollbackOutcome` | internal/transaction/manager.go:391-565 | on the stored state: success marks and restores exactly the restorable rows, with their new stamps, refusal changes nothing, and it refuses exactly when `Refusal.RefusedIff` says so |
| `Crash.SagaOverRuns` | internal/transaction/manager.go:147-565 | the whole saga: commit, then any run of calls and crashes within the TTL, earlier crashed or refused rollbacks included, then rollback gives that outcome with respect to the data before the commit |
| `Serial.ForwardApplies` | internal/transaction/manager.go:214-248 | the forward pass equals applying the staged statements one after the other |
| `Serial.StepRunsStatement` | internal/transaction/manager.go:214-244 | a step succeeds if and only if its statement does and a row it inserts has a number for its id |
| `Serial.PlayedPlans` | internal/transaction/manager.go:121-145 | over all runs, the stored operations of a pending transaction are what its accepted calls staged, in staging order |
| `Serial.RunIsSerial` | internal/transaction/manager.go:121-318 | after any run without rollback after commit the data are the initial data with each committed transaction applied, in commit order; all others contribute nothing |
| `Alignment.AlignedCounts` | internal/transaction/middleware.go:229-249 | aligned column, placeholder and value lists have one entry for each key of the body |
| `Middleware.ExtractIdParam` | internal/transaction/middleware.go:208-227 | the first `id` value, without its operator if it has one, empty when there is none |
| `Middleware.ExtractParts` | internal/transaction/middleware.go:229-249 | columns, placeholders 1..n and values stay aligned with the body in any map order |
| `Middleware.PartsBind` | internal/transaction/middleware.go:229-249 | binding the values to the placeholders gives back the body |
| `Middleware.BuildInsert` | internal/transaction/manager.go:611-617 | the statement built for an item, with its values bound, inserts that item |
| `Middleware.BuildUpdate` | internal/transaction/manager.go:619-625 | as many parameters as placeholders if and only if the request names an id, and then it updates that row with the body |
| `Middleware.ExtractWhere` | internal/transaction/middleware.go:177-206 | the conditions are exactly the `column = text` of each value `op.text` under each key without an underscore in front, in any map order |
| `Middleware.CaptureSnapshot` | internal/transaction/manager.go:320-389 | lists each row satisfying the conditions once, and the ids of the listed rows; nothing when none does |
| `Middleware.IdsOfMembers` | internal/transaction/manager.go:361-364 | the ids listed are those of the rows, without NULL |
| `Middleware.EachRowHasItsId` | internal/transaction/manager.go:361-364 | the i-th id listed is the id of the i-th row |
| `Middleware.StagePost` | internal/transaction/middleware.go:97-110 | stages one INSERT for each item, in order, until the first one the database refuses |
| `Middleware.StagePatch` | internal/transaction/middleware.go:112-144 | stages the first item only, with the snapshot of the rows its conditions select |
| `Middleware.StageDelete` | internal/transaction/middleware.go:146-166 | stages one DELETE with a snapshot of the row of its id |
| `Middleware.DeleteIsCovered` | internal/transaction/middleware.go:148-151 | the snapshot of a DELETE is always of exactly the row it deletes |
| `Middleware.UpdateIsCoveredIff` | internal/transaction/middleware.go:117-127 | with `id=<op>.<v>` the snapshot covers the written row if and only if the row is absent or meets every other condition |
| `Middleware.SingleIdIsCovered` | internal/transaction/middleware.go:117-127 | with that filter alone it always does |
| `Middleware.BareIdIsNotCovered` | internal/transaction/middleware.go:194-201 | `id=<v>` without operator writes the row and snapshots nothing |
| `Middleware.OneRowIsCovered` | internal/transaction/middleware.go:96-166 | inserts, and requests for one id and nothing else, always stage covered operations |
| `Middleware.CoveredIff` | internal/transaction/middleware.go:117-127 | for any request that names an id, with or without operator and beside any other conditions, the snapshot covers the UPDATE if and only if its conditions select the written row and no other |
| `Requests.StagedOverRun` | internal/transaction/manager.go:121-145 | operations covered when staged are covered at the end of any run in which nobody changed the rows they name, failed commits of the transaction included |
| `Requests.SagaFromRequests` | internal/transaction/middleware.go:17-175 | the whole saga from its requests: staged over any such run by one-row requests, then as in `Crash.SagaOverRuns` |
| `Recovery.CommitCut` | internal/transaction/manager.go:147-294 | wherever a commit stops, it has changed the data completely or not at all, and is committed only at its end |
| `Recovery.RollbackOfStoppedCommit` | internal/transaction/manager.go:296-318 | a commit stopped before its last write, then a rollback of the pending transaction, then any run: it says rolled back for good, with all changes in place if and only if the commit got past its target transaction (or changed nothing) |
| `Recovery.RolledBackIsFinal` | internal/transaction/manager.go:296-318 | nothing leads out of rolled back, over any run |
| `Recovery.SecondCommitAppliesAgain` | internal/transaction/manager.go:147-248 | committing again after a stop past the target applies the same statements a second time, and succeeds if and only if they can be |
| `Recovery.GivenIdBlocksSecondCommit` | internal/transaction/manager.go:222-230 | when the first of them inserts a given id it never can |
| `Recovery.RollbackOfSecondCommit` | internal/transaction/manager.go:391-565 | rolling back such a second commit restores the rows as of their snapshots, before the first attempt; a row that attempt inserted under another id stays |
| `Recovery.RolledBackMeansUndoneIff` | internal/transaction/manager.go:147-318 | over all crashing runs that end rolled back without a rollback after commit, the transaction's calls left the data alone if and only if none of its commits that change them got past the target |
| `Recovery.CrashedRunIsSerial` | internal/transaction/manager.go:214-248 | over all crashing runs without rollback after commit, the data are the initial data with each transaction applied whose commit got past its target, whatever its status says |
| `Printer.WhereNumbered` | internal/query/builder.go:363-399 | the placeholders of the WHERE text are the next ones, each once, in order, one for each argument, and the counter ends behind them |
| `Meaning.WhereReads` | internal/query/builder.go:363-492 | the printed text reads back, with SQL precedence, as the conjunction of the intended conditions |
| `Meaning.WhereEval` | internal/query/builder.go:363-492 | those conditions have the truth of the filter tree on every row |
| `Faithful.WhereIsFaithful` | internal/query/builder.go:363-492 | main theorem: the text is readable if and only if there is no empty group, empty IN list or modifier, and then it means exactly the tree, wherever its arguments stand |
| `Faithful.LoneEmptyGroupIsDropped` | internal/query/builder.go:476-478 | the failing case: a lone empty `_or` group prints nothing although it means false |
| `Builder.ParseInValues` | internal/query/builder.go:548-574 | the values of an IN list for any text; `Splitting.InListInverts` shows that they are the ones printed |
| `Builder.SplitValues` | internal/query/builder.go:550-573 | commas separate until the first quote, none does afterwards, and quotes are dropped |
| `Builder.BuildHolders` | internal/query/builder.go:426-432 | one placeholder for each value, joined by commas, the counter advanced by their number |
| `Builder.BuildFilterCondition` | internal/query/builder.go:401-452 | text, arguments and the counter left behind the last placeholder, for the text whose meaning `Faithful.WhereIsFaithful` and, operator by operator, `Operators.FilterAsks` give; invalid IS values are refused |
| `Builder.BuildLogicalCondition` | internal/query/builder.go:454-492 | the same for groups of any depth, on one shared counter |
| `Builder.BuildFtsCondition` | internal/query/builder.go:510-523 | the same for text search |
| `Builder.BuildWhere` | internal/query/builder.go:363-399 | the same for a whole request |
| `Placement.PrintWhereAnywhere` | internal/query/builder.go:363-399 | started at another placeholder the text is the same with every placeholder shifted, and the arguments are equal |
| `Statements.BuildOrderBy` | internal/query/builder.go:494-508 | columns, directions and placement of nulls as asked for; `_rank` is the rank of the first search, bound to `$1`, exactly when there is a search |
| `Statements.BuildRanks` | internal/query/builder.go:64-75 | each rank is put in front of the earlier ones and bound to its own term |
| `Statements.BuildSelect` | internal/query/builder.go:34-110 | the table, ranks, WHERE text, arguments and order that `SelectIsAligned` and `BuildOrderBy` speak of, limit and offset, or the unknown column |
| `Statements.BuildCount` | internal/query/builder.go:199-215 | the count statement has the WHERE text numbered from 1 |
| `Statements.BuildDelete` | internal/query/builder.go:341-354 | so has the delete statement |
| `Statements.BuildSets` | internal/api/handler.go:340-352 | the SET list is aligned with the body in any map order; unknown columns are refused |
| `Statements.HandlePatch` | internal/api/handler.go:340-371 | set arguments first, filter arguments after them on the same counter; refused for an empty body, and a text search ends in the panic of the missing table |
| `Statements.SelectIsAligned` | internal/query/builder.go:64-95 | placeholders are exactly 1..n each once, each bound to the value it was printed for, and `$1` of the rank order is the first search term |
| `Statements.PatchIsAligned` | internal/api/handler.go:359-371 | the WHERE text of a PATCH means its filters under the concatenated arguments |
| `Statements.SameRows` | internal/api/handler.go:629-640 | on every database a delete chooses the rows an unlimited select returns, and so does the count of a public table |
| `Statements.SameTableIff` | internal/query/builder.go:356-361 | the count, built without a schema name, reads the table of the select if and only if that is in the public schema |
| `Statements.CountAgreesIff` | internal/api/handler.go:629-640 | the count equals the number of selected rows on every database if and only if the schema is public or no row can meet the condition |
| `Statements.PicksIff` | internal/query/builder.go:363-399 | a row is picked if and only if the request prints nothing, or its text can be read and its filters are true of the row |
| `Statements.PicksRightlyIff` | internal/query/builder.go:363-399 | when that is the same as the filters being true: the exact exceptions |
| `Statements.OrderDoesNotMatter` | internal/query/params.go:160-236 | filters, groups and searches in any order mean the same |
| `Parser.SplitLogicalConditions` | internal/query/params.go:394-423 | the pieces at depth-zero commas, of which `Splitting.SplitIsExact` is the meaning |
| `Parser.ParseLogicalFilter` | internal/query/params.go:317-354 | the tree that `RoundTrip.WireRoundTrips` speaks of, or the first fault in text order; terminates on the length of the text |
| `Parser.Parse` | internal/query/params.go:150-239 | in whatever order the map is walked, the request holds what each key contributes, whose meaning `QueryText.QueryMeans` gives; it fails only when a key does |
| `Splitting.SplitIsExact` | internal/query/params.go:394-423 | the pieces joined by commas give the text back but for one trailing comma; all but the last are balanced, and none can be split further |
| `Splitting.InListInverts` | internal/query/builder.go:548-574 | reading a parenthesised comma list of clean values gives the values, whatever parentheses trimming took away |
| `Splitting.QuotedTailIsOneValue` | internal/query/builder.go:554-571 | the first quote of a list makes one value of all that follows, commas included, without the quotes |
| `RoundTrip.LeafRoundTrips` | internal/query/params.go:356-392 | a printed leaf parses to the leaf |
| `RoundTrip.CoreParses` | internal/query/params.go:317-354 | any text that trims down to the core of a group parses to that group |
| `RoundTrip.WireRoundTrips` | internal/query/params.go:317-423 | main theorem: printing a tree of groups and parsing the text gives the same tree, although trimming over-strips parentheses at every level |
| `WireMeaning.WireCompilesFaithfully` | internal/query/builder.go:454-492 | a group sent over the wire compiles to the same SQL, arguments and numbering as the group itself |
| `WireMeaning.TopFilterRoundTrips` | internal/query/params.go:245-289 | `column=[not.]op.value` parses to the filter, and under `_not.` to its negation |
| `QueryText.QueryMeans` | internal/query/params.go:160-236 | main theorem: a query written key by key parses, and means the conjunction of a disjunction under `_or`, a conjunction under `_and`, the negated conjunction under `_not.or` and `_not.and`, the negated filter under `_not.<column>`, and the filter or search itself under `<column>` and `_fts` |
| `QueryText.EntryReads` | internal/query/params.go:160-236 | the same for each key taken alone |
| `QueryText.SearchReads` | internal/query/params.go:291-315 | `_fts=[not.]column.term` searches that column for the term, negated under `not.` only |
| `QueryText.ParsedIsSafe` | internal/query/params.go:245-392 | whatever the query says, the parsed request names only columns of the table, at any depth, and only the two modifiers |
| `QueryText.ModifierIsCutIff` | internal/query/params.go:259-267 | `any` or `all` is cut out if and only if it stands in the first parentheses and behind something; any other text stays whole |
| `Operators.FilterAsks` | internal/query/params.go:33-76 | main theorem: a filter means for a row what its word asks of the value: `x > v` for `gt`, `x < v` for `lt`, and so on for all twenty words, with SQL's rules for NULL |
| `Operators.RequestPicksIff` | internal/query/params.go:245-289 | main theorem, from request to rows: `column=[not.]word.text`, parsed, printed and read by the database, picks exactly the rows whose value is as the word asks |
| `Operators.BareValueIsEqualityIff` | internal/query/params.go:269-280 | `column=text` asks for equality with the whole text if and only if it starts with no operator word or `not.` and has no modifier |
| `Operators.OtherTestsAreRefused` | internal/query/builder.go:405-422 | an IS value is refused if and only if it is not null, true or false, in any letter case |
| `WireMeaning.MapOrderDoesNotMatter` | internal/query/params.go:160-236 | the parsed request means the same for every row in whatever order the query map is walked |
| `WireMeaning.NegatedGroupForgetsItsWord` | internal/query/params.go:336-340 | `not.or` and `not.and` groups parse to the same tree |
| `WireMeaning.NegatedOrAgreesIff` | internal/query/builder.go:480-489 | so `not.or` means the negated disjunction on a row if and only if all members have the same truth there |
| `WireMeaning.NegatedOrAlwaysAgreesIff` | internal/query/builder.go:480-489 | it does so on every row if and only if the group has members and they all mean the same |
| `WireMeaning.NegatedOrOfComparisonsIff` | internal/query/builder.go:480-489 | for a group of comparisons: if and only if they are all one and the same comparison |
| `HubProtocol.GapFreeDelivery` | internal/notification/hub.go:48-93 | over every interleaving, consumed plus buffered is a gap-free run of the channel's broadcasts from the first whose snapshot follows the subscription; at most 64 are buffered |
| `HubProtocol.KeepingUpMissesNothing` | internal/notification/hub.go:76-93 | a client that does not unsubscribe and whose buffer never fills stays subscribed over every interleaving and gets every event since its subscription |
| `HubProtocol.MissedOnceMissedForever` | internal/notification/hub.go:76-93 | a client that misses one event is in no later snapshot and gets no later event |
| `NotificationHub.Client.Close` | internal/notification/hub.go:25-31 | closing is idempotent, and the channel behind it is never closed twice |
| `NotificationHub.Hub.Subscribe` | internal/notification/hub.go:48-60 | a fresh client joins the channel, all else unchanged |
| `NotificationHub.Hub.Unsubscribe` | internal/notification/hub.go:62-74 | the client leaves the channel, an empty channel leaves the map, and the client is closed; idempotent |
| `NotificationHub.Hub.Broadcast` | internal/notification/hub.go:76-93 | every client of the channel gets the event or is unsubscribed, in any order, other channels untouched |
| `NotificationHub.Hub.ClientCount` | internal/notification/hub.go:95-103 | the number of subscriptions over all channels, in any order of the map |
| `NotificationHub.SubscribeIsAStep` | internal/notification/hub.go:48-60 | what `Subscribe` does to the object is one step of the protocol |
| `NotificationHub.UnsubscribeIsAStep` | internal/notification/hub.go:62-74 | so is what `Unsubscribe` does |
| `NotificationHub.BroadcastIsARun` | internal/notification/hub.go:76-93 | whatever an uninterrupted `Broadcast` does to the object is a run of the protocol: one snapshot, then one or two steps for each client |
| `NotificationHub.Deliver` | internal/notification/listener.go:71-81 | the listener's call of `Broadcast` is such a run from any protocol state that shows the object |
| `RateLimit.Limiter.Allow` | internal/ratelimit/limiter.go:34-47 | one event against the key's bucket, a new key starting full; other keys untouched |
| `RateLimit.Limiter.Cleanup` | internal/ratelimit/limiter.go:62-67 | removes exactly the keys idle for more than ten minutes |
| `RateLimit.AllowanceIsBounded` | internal/ratelimit/limiter.go:34-71 | over any run a key is granted at most the burst and what the rate refills meanwhile; with eviction too, when ten minutes refill the burst |
| `RateLimit.SimulatedAnswers` | internal/ratelimit/limiter.go:34-71 | a limiter that evicts and one that does not answer alike from states that hold the same tokens |
| `RateLimit.EvictionIsUnobservableIff` | internal/ratelimit/limiter.go:34-71 | main theorem: eviction shows in no run if and only if ten minutes refill the burst, or nothing is ever allowed |
| `Paging.Params.UseRange` | internal/api/handler.go:57-68 | an explicit limit, and an offset that is not zero, win over the header, and the header over the default of 1000; the limit is never negative afterwards |
| `Paging.HeaderRoundTrips` | internal/response/response.go:163-197 | `items=a-b` is read as a range from a of length b-a+1; bounds out of order or too large are refused |
| `Paging.HeaderIsReadIff` | internal/response/response.go:163-197 | a header is read if and only if it is `items=` and two numbers in order with one dash between them |
| `Paging.SignedNumerals` | internal/response/response.go:179-187 | a plus or minus sign in front of a number is read as such |
| `Paging.ParsedRangeIsNatural` | internal/response/response.go:163-197 | no header asks for a negative position; a length that is not positive is the wrapped one |
| `Paging.ReportIsExactIff` | internal/response/response.go:143-152 | the reported positions are those of the rows LIMIT and OFFSET return if and only if the offset is not negative and nothing overflows, or there is nothing to return |
| `Paging.RangeRequestIsServedIff` | internal/api/handler.go:57-100 | a request for a to b is reported as a to min(b, total-1), except for the one request whose length wraps |
| `Paging.PagesCover` | internal/query/builder.go:102-107 | the first pages of one size are the first rows, each once and in order |
| `Paging.WalkVisitsEveryRowOnce` | internal/response/response.go:143-197 | a client that keeps asking behind the last position reported gets every row once, in order |
| `BatchInsert.FirstColumns` | internal/api/handler.go:195-208 | the columns of the first object once each, or the fault |
| `BatchInsert.CollectArgs` | internal/api/handler.go:210-222 | the arguments row by row, null for a missing column; `BatchInsert.ArgAt` places each of them |
| `BatchInsert.CollectTuples` | internal/api/handler.go:224-234 | the placeholder tuples that `BatchInsert.TupleDenotesItsRow` reads |
| `BatchInsert.CollectSets` | internal/api/handler.go:259-271 | the columns outside the conflict target, as `BatchInsert.OutsideMembers` and `OutsideKeepsOrder` characterise them |
| `BatchInsert.CollectTarget` | internal/api/handler.go:241-252 | the trimmed, known names of `on_conflict`, or the first unknown one |
| `BatchInsert.BuildInsert` | internal/api/handler.go:195-283 | the whole statement with the clause asked for: on the primary key without `on_conflict`, on its columns with it, none without either; or an error in exactly the listed cases |
| `BatchInsert.ArgAt` | internal/api/handler.go:210-222 | argument r*width+c+1 is row r's value for column c |
| `BatchInsert.TupleDenotesItsRow` | internal/api/handler.go:210-237 | binding the arguments, tuple r denotes row r: the first object's columns, null where missing, other columns dropped |
| `BatchInsert.StatementInserts` | internal/api/handler.go:210-237 | so the statement inserts each object's values for the columns of the first |
| `BatchInsert.EveryArgumentIsBoundOnce` | internal/api/handler.go:224-234 | placeholder k stands in exactly one place of the VALUES text |
| `BatchInsert.OutsideMembers` | internal/api/handler.go:259-271 | the SET list names exactly the inserted columns outside the conflict target |
| `BatchInsert.OutsideKeepsOrder` | internal/api/handler.go:259-271 | in the order of the columns, each once |
| `BatchInsert.UpsertMerges` | internal/api/handler.go:238-280 | from the request: an upsert over a stored row that agrees with the object in the target (the primary key, or the `on_conflict` columns) gives every inserted column its new value and keeps the others, also with DO NOTHING |
| `BatchInsert.OtherwiseRefused` | internal/api/handler.go:236-283 | without a preference, or with an upsert that has no target, such a row is a duplicate key; with ignore-duplicates the table stays as it is |
| `BatchInsert.OnConflictRoundTrips` | internal/api/handler.go:241-252 | a comma-joined list of known columns is read back as the conflict target |
| `BatchInsert.NamedIs` | internal/api/handler.go:241-252 | for any `on_conflict` text: the target is made of the non-blank names between the commas, or one of them is unknown |

## Left out

- PostgreSQL itself: constraints other than the id key, cascades on business tables, triggers, column types and defaults. The values the database chooses on insert are a parameter.
- JSON: encoding of values, array and object columns (`fmtVal`), and numbers that a 64-bit float cannot carry exactly. Values are NULL, text, whole numbers and truth values with equality.
- Conversion of an id from query text to a column value is a parameter (`Cast`); the schema of a table does not change between commit and rollback.
- Interleaved calls on one transaction id: the status check and the status write are separate statements in the code, so each call is one sequence of durable states here.
- `Rows.RenderCollidesIff`: numbers beyond 2^53 can also print the same after JSON has rounded them; they are not modelled, neither here nor in what a rollback restores.
- `Undo.UndoRestores`: speaks of commits that lost no record; `Undo.UndoRestoresIff` says what is restored in all other cases. Both assume that staged updates do not write the id and that the rows they name were snapshotted as of the commit; `Limits.RestoredIffIdKept` and `Limits.UncoveredIsNotUndone` show what happens otherwise.
- `Refusal.CleanUndo`: speaks of transactions that write each row once and carry no outdated row id from an earlier attempt; `Refusal.UndoableIff` gives the exact condition for all others.
- `Recovery.RollbackOfSecondCommit`: assumes that the attempt stopped before had recorded no outcome yet.
- `Lifecycle.StatusMovesOneWay`: a second transaction started under the same id is excluded; ids are random in the code.
- Decoding of the query string (`splitQuery`), repeated keys, and the parsing of `_select`, `_order`, `_limit`, `_offset` and `_count`.
- Embeds, joins, aggregates, RPC, and the query builder's own `BuildInsert`, `BuildUpsert` and `BuildUpdate`, which the handlers do not call.
- `RoundTrip.WireRoundTrips`: IN lists come back up to their closing parentheses, which trimming may remove; `Splitting.InListInverts` shows that their values do not depend on them. Quoted IN values have no round trip, only the reading of `Splitting.QuotedTailIsOneValue`.
- `Operators.FilterAsks`: values of different kinds are in no relation, where PostgreSQL would report a type error; text is ordered by its characters; regular expressions, text search and the reading of a value's text are parameters.
- `BatchInsert.UpsertMerges`: one row at a time, into a table with one unique constraint; a command that hits one stored row twice, which PostgreSQL refuses, is not modelled.
- `HubProtocol.GapFreeDelivery`: one broadcaster, as the listener runs it; the locks make each step atomic. `NotificationHub` ties the object's methods to it as uninterrupted calls.
- `RateLimit.EvictionIsUnobservableIff`: times and rates are real numbers and the rate is not negative; the bucket follows the documented rule of golang.org/x/time/rate, whose code is not part of this model. An infinite rate is not modelled.
- `Paging.WalkVisitsEveryRowOnce`: requires that row count plus page size fit an int, so that the last request can be written.
- List and Get endpoints, HTTP plumbing, CORS, metrics, logging, schema introspection, configuration, OpenAPI and the web page.
