# LumeScope: verified model

LumeScope keeps three Postgres tables (supernodes, actions, action_transactions)
up to date with background loops and serves read-only views of them. This Dafny
project models the loops, the SQL statements they issue, the readers and the
chain client's transaction parsing, and proves how they behave together.

Each table is a map keyed by its primary or unique key, and each SQL statement is
one atomic step. The chain, the probed nodes, clocks, `net.ParseIP`, text
rendering and the database's willingness to execute a statement are parameters
that may answer anything or fail. Integer widths are explicit where they matter:
BIGINT ids and query parameters, the INTEGER failure counter, `ParseInt` ranges.

Files, from the bottom up:

- `Sql`, `GoText`, `Collections`, `WhereClauses`, `Keyset`: three-valued logic and
  JSONB operators, number parsing, grouped sums, assembled WHERE clauses, and
  keyset pagination over any unique, totally ordered key.
- `Tables`, `Transfers`, `Client`: action and transaction rows, transfer-flow
  selection, the chain client.
- `Enricher`, `EnricherGuarantees`, `EnricherRuns`: the enricher loop as a method,
  what one run achieves, and safety over all runs of any number of enrichers;
  `EnrichedRows` and `RowContents` say what each stored row is, down to the
  node's answer; `FixedRows` says when rows are final; `EnricherRefinement` shows
  that the loop is one of those runs.
- `Supernodes`, `SupernodeTraces`, `SyncLoops`, `Heights`, `Hosts`: the two writers
  of supernode rows, all interleavings of them, the loops that issue them, and
  the helpers they use; `LoopResults` says what the loops leave in the table.
- `ActionListing`, `SupernodeListing`, `VersionMatrix`, `TxLookup`, `ActionStats`,
  `Payments`: the readers.
- `SyncTrigger`: the manual trigger as a concurrent state machine.

Where the code and its documentation differ, the model follows the code:

- docs/DATABASE_UPDATE_ARCHITECTURE.md:74-77 says that neither writer overwrites
  the other's data. This holds for every data column except `metricsReport`, which
  both write (`SupernodeTraces.InterleavingIrrelevant`,
  `SupernodeTraces.ReportIsNotIndependent`). As a consequence a node can be in
  neither the available nor the unavailable listing
  (`SupernodeListing.NeitherIff`).
- The placeholder is meant to mark actions without transactions on the chain.
  Failed searches are swallowed (internal/lumera/client.go:422-425), so it only
  means that no query returned one (`Client.NoRowsIff`).
- README.md:188-204 recommends several replicas on one database. With more than
  one enricher a placeholder can replace a real register row
  (`EnricherRuns.NeverClobbersIff`).
- An action with a register row is not selected again, but its rows may still
  change, ordinarily when its finalize row follows
  (`EnricherRuns.FinalizeFollowsRegister`). They are final exactly when no worker
  has the action queued and every row still pending for it is stored already
  (`FixedRows.RowsFixedIff`). A restart in between loses the rows not yet written
  for good (`FixedRows.RestartLosesRow`).
- The label rules in the comment at internal/background/scheduler.go:645-651 are
  stricter than the scanner (`Hosts.LongLabelAccepted`).
- `failedProbeCounter` is an INTEGER. At its limit a failed probe is a database
  error that writes nothing, so the counter saturates.

## Model

| member | source | states |
|---|---|---|
| Enricher.RunActionTxEnricher | internal/background/scheduler.go:152-248 | the batched, early-exiting loop terminates whatever the chain, the queries and the writes do, and leaves exactly the outcome and table of the run function that the guarantees below are about |
| Enricher.ProcessBatch | internal/background/scheduler.go:180-230 | one batch writes each action's rows in order and advances `minID` to one past the last id |
| Enricher.ProcessAction | internal/background/scheduler.go:192-229 | an action without transactions gets one placeholder; a client error writes nothing; otherwise every row is upserted, failed writes being skipped |
| Enricher.ProcessAllFrame | internal/background/scheduler.go:192-229 | processing leaves the rows of every other action alone, whichever writes fail |
| EnricherGuarantees.VisitsAscend | internal/background/scheduler.go:183-186 | no action is visited twice and visits come in strictly ascending id order, for arbitrary tables, answers and write failures |
| EnricherGuarantees.VisitsOnlyUnenriched | internal/db/db.go:1520-1532 | every visited action had no register row when the run started, lies at or beyond the start id, and was in the table, as reported, when some batch was fetched |
| EnricherGuarantees.RunComplete | internal/background/scheduler.go:165-236 | an action that is in the table throughout, at or beyond the start id and unregistered, is visited even while other actions come and go between batches, the run's writes shrink the query and any writes fail; the short-batch exit loses nothing |
| EnricherGuarantees.CursorNeverWraps | internal/background/scheduler.go:183-186 | `ActionID + 1` stays within 2^63 for every visited action, so the cursor never wraps a uint64 |
| EnricherGuarantees.RunProcessesVisited | internal/background/scheduler.go:162-241 | the batched run leaves the table that processing the visited actions one by one in a single pass would leave |
| EnricherGuarantees.RunVisitsEverything | internal/background/scheduler.go:152-248 | on a fixed actions table the run visits exactly what one unlimited query at the start would list, in the same order |
| EnricherGuarantees.EnrichesIff | internal/background/scheduler.go:202-229 | a run registers an action exactly when the placeholder lands after an empty answer or one of the found register rows lands |
| EnricherGuarantees.LeftForNextRun | internal/db/db.go:1526-1530 | what the next run still selects is exactly what this one selected minus the actions for which a register row landed |
| EnricherGuarantees.RunFailsIff | internal/background/scheduler.go:168-172 | unless a query fails needlessly, a run fails if and only if it starts beyond the BIGINT range or a full last batch ends with the largest BIGINT, so that the next cursor is no BIGINT |
| EnrichedRows.LastAnswerIsStored | internal/background/scheduler.go:220-229 | after a run, whatever else it processed, the row of a visited action and a type is the last row of that type in the chain's answer whose write landed |
| EnrichedRows.PlaceholderIsStored | internal/background/scheduler.go:202-217 | when the answer was empty and the write landed, the register row is the `_NO_TX_FOUND_` row with height 0, dated to the creation of the action |
| EnrichedRows.OtherRowsAreKept | internal/background/scheduler.go:192-229 | in every other case, and for every action that was not visited, the row is the one from before the run |
| EnricherRuns.SettledForever | internal/background/scheduler.go:149-151 | over every run with one enricher, interleaved with action syncs and restarts: an action that has a register row and is not being processed keeps all its rows unchanged forever |
| FixedRows.RowsFixedIff | internal/background/scheduler.go:180-229 | for any number of enrichers, in every state of every run: nothing that can still happen changes a row of a registered action if and only if no worker has the action queued and every row still pending for it is stored already |
| FixedRows.FixedForeverIff | internal/background/scheduler.go:180-229 | the same equivalence for every state in which each worker holds only rows of the action it is processing; when the condition fails, a continuation that changes a row is constructed |
| FixedRows.OneEnricherFixedIff | internal/background/scheduler.go:149-151 | with one enricher the condition is that every row still pending for the action is stored already; in particular the rows are final once the action is no longer being processed |
| FixedRows.RestartLosesRow | internal/background/scheduler.go:220-229 | a concrete run: a restart between the register and the finalize write drops the finalize row that was found, and nothing that can happen afterwards stores it |
| EnricherRuns.ChangesOnlyInFlight | internal/background/scheduler.go:221-229 | with any number of enrichers, a step changes the rows of an action exactly when it lands a row of it that the table lacks, and then a worker is processing that action |
| EnricherRuns.FinalizeFollowsRegister | internal/lumera/client.go:419-437 | a concrete run of one enricher in which the finalize row of an action appears after the action has been registered |
| EnricherRuns.RowsMoveInFlight | internal/lumera/client.go:427-437 | a concrete run in which the register row itself changes after it was first stored, because the chain reported two register transactions |
| EnricherRuns.AnyRowIsStored | internal/background/scheduler.go:219-229 | whatever row the chain reports for an action, a run of one enricher stores exactly that row |
| EnricherRuns.OneEnricherNeverClobbers | internal/background/scheduler.go:202-217 | with one enricher no step of any run writes a placeholder over a real register row, although batches are fetched before they are processed |
| EnricherRuns.TwoEnrichersClobber | internal/db/db.go:1343-1359 | for any n >= 2 enrichers on one database, a reachable run in which a placeholder replaces a real register row |
| EnricherRuns.NeverClobbersIff | internal/background/scheduler.go:167-217 | a placeholder never replaces a real register row, over all runs, if and only if at most one enricher works on the database |
| EnricherRuns.TableAlwaysGood | internal/db/db.go:1343-1367 | with any number of enrichers every reachable transaction table is keyed by (actionID, txType), has only known types, and its prices are absent or non-empty digit strings and its denominations absent or non-empty |
| EnricherRuns.ActionsStay | internal/db/db.go:369-390 | actions never leave the table and keep their creation time over any run |
| Tables.TransactionStore.UpsertActionTransaction | internal/db/db.go:1343-1367 | on success the keys are the old ones plus (actionID, txType), the row there is the new one and every other row stays, those of other types of the same action included; on failure nothing changes |
| Tables.UpsertedActionStores | internal/db/db.go:369-390 | the action upsert stores every column of the new row but keeps the creation time of an existing one, and touches no other action |
| EnricherRefinement.LoopIsARun | internal/background/scheduler.go:152-248 | the loop as written, with any action syncs between its batch queries, is one of the runs of the interleaving model: it leads from an idle worker to an idle worker with the table the loop computes |
| EnricherRefinement.LoopKeepsSettled | internal/background/scheduler.go:149-151 | so after any run of a single enricher that ended idle, a further pass of the loop, with any action syncs between its batch queries, leaves the rows of every registered action untouched |
| Client.LumeraClient.GetActionModuleAccount | internal/lumera/client.go:51-74 | a cached non-empty address is returned without change; otherwise a non-empty answer is cached and a failure or empty answer leaves the client as it was |
| Client.LumeraClient.GetActionTransactions | internal/lumera/client.go:399-441 | returns the rows of the register, finalize and approve queries in that order, skipping failed queries and never reporting an error |
| Client.ParseTxResult | internal/lumera/client.go:472-510 | builds the row of a transaction: id, type, hash, time and first fee from the response and its own body, the numbers and the flow as RowContents states them |
| Client.ExtractTxSigner | internal/lumera/client.go:514-536 | the signer is the first non-empty of the message fields creator, sender, from_address and signer |
| Client.ActionRowsAreChainRows | internal/lumera/client.go:471-510 | every returned row belongs to the action, has a known type and a well-formed price |
| Client.NoRowsIff | internal/lumera/client.go:419-440 | the answer is empty exactly when each query failed or found nothing; so a placeholder does not mean that the chain has no transaction |
| Client.RegisterRowIff | internal/lumera/client.go:410-437 | a register row is returned exactly when the register query itself returned a transaction |
| RowContents.AnswerParts | internal/lumera/client.go:407-438 | the answer is the register rows, all from the register query, then the finalize rows, all from the finalize query, then the approve rows, all from the approve query |
| RowContents.RowOfResponse | internal/lumera/client.go:427-437 | a query contributes one row per response, row k from response k and body k |
| RowContents.NumbersAreKept | internal/lumera/client.go:473-475 | height, gas wanted and gas used written as 64-bit numbers are stored as those numbers; text that is no number is stored as 0 |
| RowContents.OneTransferRow | internal/lumera/client.go:501-507 | if the only transfer event, however often it is repeated, names sender s, recipient r and the coin d+u, the row has payer s, payee r, price d and denomination u |
| RowContents.NoFlowRowIff | internal/lumera/client.go:576-578 | the row has neither payer nor payee, and then no price, if and only if no transfer event names a sender or a recipient |
| RowContents.RegisterRowFlow | internal/lumera/client.go:582-601 | the flow of a register row is read from the first event, top level before logs, that pays the known module account, else the first that the creator pays, else the first |
| RowContents.PayoutRowFlow | internal/lumera/client.go:603-657 | the flow of a finalize or approve row is read from the first event from module to signer, else module to supernode, else from the module, else to the signer, else to the supernode, else not paid by the creator, else the first |
| RowContents.LastResponseIsStored | internal/background/scheduler.go:192-229 | end to end: when the writes for a visited action land, the table holds for each type the row of the last response of that type's query |
| Transfers.ParseCoinString | internal/lumera/client.go:255-265 | splits a coin string into its digits and the rest |
| Transfers.CoinSplitUnique | internal/lumera/client.go:259-264 | a string has only one split into digits and a rest that does not start with a digit |
| Transfers.ParseTransferEvent | internal/lumera/client.go:665-692 | reads the four fields attribute by attribute and reports nothing without payer and payee |
| Transfers.TransferIff | internal/lumera/client.go:686-689 | an event describes a transfer if and only if it names a sender or a recipient |
| Transfers.FieldsAreLast | internal/lumera/client.go:668-684 | each field is read independently: it comes from the last attribute that supplies it |
| Transfers.PriceAndDenomMayDisagree | internal/lumera/client.go:674-682 | with several amount attributes the price and the denomination can come from different ones |
| Transfers.OneSourceIff | internal/lumera/client.go:674-682 | for every event that reports both: the price comes from the last amount attribute that has digits, the denomination from the last that has a rest, and these are one attribute if and only if the last attribute that has either has both |
| Transfers.SourcesExist | internal/lumera/client.go:674-682 | these last attributes exist whenever both parts are reported |
| Transfers.FieldsHavePriceShape | internal/lumera/client.go:676-682 | a parsed price is a non-empty digit string and a parsed denomination is not empty |
| Transfers.SelectForPayout | internal/lumera/client.go:603-657 | the cascade of guarded loops for finalize and approve returns the transfer that minimises (tier, position), which PayoutChoice spells out |
| Transfers.PayoutChoice | internal/lumera/client.go:603-657 | that transfer is the first one that meets the first of seven wishes any transfer meets: module to signer, module to supernode, from the module, to the signer, to the supernode, not paid by the creator, any |
| Transfers.SelectForRegister | internal/lumera/client.go:582-601 | the cascade for register returns the transfer that minimises (tier, position), which RegisterChoice spells out |
| Transfers.RegisterChoice | internal/lumera/client.go:582-601 | that transfer is the first one paid to the non-empty module address, else the first one paid by the creator, else the first one |
| Transfers.ExtractTransferFlow | internal/lumera/client.go:550-661 | the flow is that choice over all parsed transfers, top-level events first |
| Transfers.ChoiceIsEventChoice | internal/lumera/client.go:555-574 | the choice over parsed transfers is the choice over the events themselves, in the order of the top-level events followed by the logs |
| Transfers.BestUnique | internal/lumera/client.go:580-658 | that minimum is at one position only |
| Transfers.NoFlowIff | internal/lumera/client.go:576-578 | no flow is reported exactly when no event describes a transfer or the transaction type is unknown |
| Transfers.RepeatedLogsChangeNothing | internal/lumera/client.go:564-574 | the flow is unchanged when the logs only repeat the top-level events |
| Transfers.SelectedHasPriceShape | internal/lumera/client.go:674-682 | the reported flow always carries a well-formed price and denomination |
| Supernodes.SupernodeStore.UpsertSupernode | internal/db/db.go:183-207 | inserts a row with default probe columns, or updates only the chain columns and a non-NULL report |
| Supernodes.SupernodeStore.UpdateSupernodeProbeData | internal/db/db.go:211-309 | updates the probe columns of an existing row; unknown accounts are ignored and a counter overflow fails without writing |
| Supernodes.RowsAreIndependent | internal/db/db.go:188-241 | after any trace a row depends only on the statements for its own account |
| SupernodeTraces.HalvesAreIndependent | internal/db/db.go:183-309 | for every interleaving the chain columns are those of a table only the chain sync writes, and the probe columns those of a table only the probes after the first sync write; the row exists exactly from the first sync on |
| SupernodeTraces.TableHalves | internal/db/db.go:183-309 | the same for the row of any account in the shared table, whatever is written to other accounts |
| SupernodeTraces.InterleavingIrrelevant | internal/db/db.go:183-309 | two interleavings of the same syncs and the same live probes agree on every column except metricsReport |
| SupernodeTraces.LastReportWins | internal/db/db.go:199 | metricsReport is the value of whichever statement wrote it last |
| SupernodeTraces.LastReportExists | internal/db/db.go:236 | once the row exists, some statement wrote metricsReport last |
| SupernodeTraces.ReportIsNotIndependent | internal/db/db.go:199-236 | after any history, one more sync and one more probe commute if and only if the row exists and the sync has no report, the probe overflows the counter, or both reports are equal; when an existing row differs, it differs in metricsReport alone, which is the later report |
| SupernodeTraces.CounterCountsFailures | internal/db/db.go:216-285 | failedProbeCounter is the number of failed probes since the last success or the row's creation, saturating at the INTEGER limit |
| SupernodeTraces.CounterOfTable | internal/db/db.go:216-285 | the same for every row of the table, for any interleaving of concurrent probe loops |
| SupernodeTraces.ReachableTable | internal/background/scheduler.go:482-513 | in every reachable table: a true status flag implies counter 0 and equal non-NULL check and success times; a false flag implies a failure or no probe yet; lastKnownActualVersion is NULL or the non-empty actualVersion |
| SupernodeTraces.VersionsStayEqualIff | internal/db/db.go:219-239 | a probe keeps the two version columns equal exactly when it succeeded, carries no version, or repeats the known one |
| SyncLoops.ProbeSupernodes | internal/background/scheduler.go:429-519 | the probe loop applies one update per usable target, in order, skipping the other targets and the writes the database does not execute |
| LoopResults.ProbedRow | internal/background/scheduler.go:429-519 | after the loop, the row of an account whose last landed target has an address shows what that probe found: flag and hardware from the status answer, version and times, counter 0 or one more, chain columns untouched; it is listed as available exactly when the status API answered and both ports (4445 if none is set) are open, and as unavailable otherwise; a counter overflow leaves it alone |
| LoopResults.UnprobedRow | internal/background/scheduler.go:434-468 | an account without such a target keeps its row |
| SyncLoops.ProbeEventsAreSystem | internal/background/scheduler.go:482-513 | every statement of the probe loop has the check time equal to the probe time, an empty version on failure and a report with both ports |
| SyncLoops.SyncPage | internal/background/scheduler.go:292-314 | the chain sync upserts each supernode with its newest state and address, skipping failed writes |
| LoopResults.SyncedRow | internal/background/scheduler.go:292-314 | after a page, the row of an account whose last write landed has the state and the address of the first entries with the greatest heights, the moniker if one is known, and the chain report; its probe columns are untouched or, for a new row, empty |
| SyncLoops.SyncEventsAreSystem | internal/background/scheduler.go:297-310 | every statement of the chain sync carries a chain metrics object as its report |
| SyncLoops.LoopsExtendTraces | internal/background/scheduler.go:284-321 | running either loop on a reachable table gives a reachable table |
| SupernodeListing.AvailabilityTrichotomy | internal/db/db.go:446-458 | under three-valued logic no row is both available and unavailable, and a row is neither exactly when the flag is true, a port result is missing and no port is reported closed |
| SupernodeListing.NeitherIff | internal/db/db.go:446-458 | over the statements of one account: its row is in neither listing exactly when its status flag is true and its last report came from the chain sync |
| SupernodeListing.NeitherIffInTable | internal/db/db.go:446-458 | the same for every row of every reachable table |
| SupernodeListing.BuildWhere | internal/db/db.go:420-476 | the assembled conditions, placeholder numbers and arguments bind to the tests of the filter |
| SupernodeListing.TestsMeanFilter | internal/db/db.go:430-476 | those tests select exactly the rows whose columns meet each set filter field, beyond the cursor, NULL rejecting a row |
| SupernodeListing.ListSupernodeMetricsFiltered | internal/db/db.go:414-555 | a page is the first `limit` matching accounts after the cursor in collation order, and the flag says whether more follow |
| SupernodeListing.ListSupernodesMetrics | internal/handlers/supernodes.go:175-251 | the response holds the page, the greatest check time or else successful probe time, and the account of the last row as cursor exactly when more follow |
| SupernodeListing.WalkUnderWrites | internal/handlers/supernodes.go:239-251 | a walk by cursor returns no account twice, every account of a page matched when that page was fetched, and when the walk ends it has returned every account that matched throughout it, whatever is written between pages |
| SupernodeListing.AggregateIsSumOverPages | internal/db/db.go:1310-1339 | for every page size the pages hold each available, running supernode once, and the aggregate count and the sums of its four hardware columns equal the sums over all pages |
| Keyset.ListingUnique | internal/db/db.go:483-485 | ordering by a unique key determines the listing |
| Keyset.TrimmedIsPage | internal/db/db.go:887-890 | fetching limit+1 rows and trimming gives the page and the flag |
| Keyset.WalkAscends | internal/handlers/actions.go:270-285 | a walk by cursor is strictly ordered, however the table changes between pages |
| Keyset.WalkSound | internal/handlers/actions.go:270-285 | every item of a page matched when that page was fetched |
| Keyset.WalkComplete | internal/handlers/actions.go:270-285 | a finished walk has returned every key that matched throughout it |
| Keyset.WalkFixed | internal/handlers/actions.go:270-285 | on a fixed table the pages concatenate to the whole listing for every page size, after as many pages as it needs |
| ActionListing.BuildWhere | internal/db/db.go:806-841 | the assembled conditions, placeholder numbers and arguments bind to the tests of the filter |
| ActionListing.TestsMeanFilter | internal/db/db.go:806-841 | those tests select exactly the rows the filter describes with an id below the cursor |
| ActionListing.ListActionsFiltered | internal/db/db.go:787-893 | a page is the first `limit` matching ids below the cursor, greatest first, with the flag; unless the query fails, the call fails if and only if one of the first `limit`+1 of them has a NULL mimeType |
| ActionListing.ParseLimit | internal/handlers/actions.go:109-123 | the page size is 50 by default, a number in 1..200 as given, otherwise the nearer bound; a non-number is an error |
| ActionListing.IssueCursor | internal/handlers/actions.go:270-285 | the cursor is the last id of a page that has a successor |
| ActionListing.WalkUnderUpserts | internal/handlers/actions.go:145-174 | with upserts between pages ids strictly decrease, every row of a page matched when that page was fetched, and every row matching throughout is returned exactly once |
| ActionListing.WalkOfFixedTable | internal/handlers/actions.go:270-285 | on a fixed table the pages concatenate to the full filtered listing |
| ActionListing.WalkTerminates | internal/db/db.go:836-841 | a walk from a cursor ends however the table changes |
| VersionMatrix.MatrixPartitions | internal/db/db.go:1003-1011 | every row splits into available and unavailable nodes, and the totals add up to the nodes with a known version |
| VersionMatrix.MatrixOfVersions | internal/db/db.go:1003-1011 | in every reachable state each known version has a row that counts the nodes reporting it, those whose status API answered as available and the others as unavailable |
| VersionMatrix.FallbackAgrees | internal/db/db.go:1003-1028 | in every reachable state the primary and the fallback query admit exactly the same answers |
| VersionMatrix.BuildMatrix | internal/handlers/version.go:36-64 | exactly one row is marked latest, it has a maximal total, and there is none exactly when no node has a known version |
| TxLookup.GetActionTransactionsByActionIDs | internal/db/db.go:1604-1650 | the map groups the answer by action, keeping its order, without empty entries |
| TxLookup.BulkAgreesWithSingle | internal/db/db.go:1371-1407 | for every requested id the bulk map holds an answer the single query may give: the same rows, heights ascending |
| TxLookup.ListItem | internal/handlers/actions.go:226-260 | the list item's fields and transactions as folds over the action's rows |
| TxLookup.DetailFields | internal/handlers/actions.go:324-352 | the detail response's fields and transactions as the same folds |
| TxLookup.FlattenedIsTable | internal/handlers/actions.go:233-255 | whatever the order of rows of equal height, the flattened fields are those stored in the table, and exactly the placeholders are hidden |
| TxLookup.FieldsAreStoredRows | internal/handlers/actions.go:233-255 | the register, finalize and approve fields are hash and block time of the stored rows whose hash is not `_NO_TX_FOUND_`, and empty otherwise |
| TxLookup.ShownInOrder | internal/handlers/actions.go:226-260 | the shown transactions are the stored ones that are no placeholder, each once, in height order |
| TxLookup.ListAgreesWithDetail | internal/handlers/actions.go:324-352 | list and detail responses agree on the flattened fields of every action |
| ActionStats.GetActionStatsExtended | internal/db/db.go:1237-1290 | the total is the sum of the state counts and the MIME rows are those with a non-empty type |
| ActionStats.JoinCountsEachActionOnce | internal/db/db.go:1223-1230 | the join with register rows counts each action at most once |
| ActionStats.DateFilteredStats | internal/db/db.go:1196-1291 | total, state counts, and MIME counts plus actions without a MIME type all equal the number of matching actions whose register row, placeholder or not, is in range |
| ActionStats.UnfilteredStats | internal/db/db.go:1228-1230 | without dates the same holds over all actions of the type |
| ActionStats.DateFilteredNumbers | internal/db/db.go:1196-1291 | with a date bound, the total, the count of each state and the count of each MIME type are those of the actions of the type whose register row lies in range, both ends included |
| ActionStats.UnfilteredNumbers | internal/db/db.go:1228-1291 | without dates the same numbers are those of all actions of the type |
| Payments.PriceCastNeverFails | internal/db/db.go:1666 | the price cast never fails on a stored row and yields the value of its digits |
| Payments.PricesCastInEveryRun | internal/db/db.go:1666 | the same in every state of every run with any number of enrichers |
| Payments.QueryFailsIff | internal/db/db.go:1663-1676 | the payment query fails exactly when some fee of the payee's finalize rows is not numeric |
| Payments.FeeCanBreakQuery | internal/lumera/client.go:490-495 | fees are stored as the chain sent them: for every fee text and payee a run of one enricher ends in a table on which the query fails if and only if the text is not numeric |
| Payments.DenomsDistinct | internal/db/db.go:1665-1670 | no two output rows share a denomination, although NULL is shown as the empty string |
| Payments.PayeeConserved | internal/db/db.go:1663-1671 | the per-denomination prices and fees of a payee add up to the prices and the fees of all its finalize rows |
| Payments.SummandOfNumber | internal/db/db.go:1666-1667 | a price or fee written as a number contributes that number, and NULL contributes nothing |
| Payments.AllPayeesConserved | internal/db/db.go:1663-1671 | summed over all payees, the reported prices and fees equal the sums over every finalize row with a payee |
| Payments.DenomConserved | internal/db/db.go:1663-1671 | what a payee is reported to have received, and the fees, in one denomination are the sums over its finalize rows in that denomination |
| Payments.AllPayeesDenomConserved | internal/db/db.go:1663-1671 | for every denomination, the prices and fees reported over all payees add up to those of every finalize row in it that has a payee |
| Heights.LatestState | internal/background/scheduler.go:524-540 | returns the first entry with the greatest positive parseable height, else the first entry |
| Heights.LatestIPAddress | internal/background/scheduler.go:543-559 | returns the address of the first entry with the greatest positive parseable height, else of the first entry |
| Heights.SameHeightsSamePosition | internal/background/scheduler.go:524-559 | for equal heights both functions choose the same position |
| Heights.HeightOfText | internal/background/scheduler.go:530-535 | a height written as a positive 64-bit number counts as that number; zero, negative, larger and malformed heights count as 0 |
| GoText.ParseOfFormat | internal/background/scheduler.go:530 | parsing the decimal text of a number gives it back, or the nearest 64-bit bound and an error |
| GoText.SyntaxErrorIff | internal/background/scheduler.go:530 | text is read as 0 with an error if and only if it is not an optional sign followed by digits |
| Heights.OrderIrrelevantIff | internal/background/scheduler.go:528-538 | the choice is independent of the listing order if and only if every entry tied at the greatest height is the same entry |
| Hosts.IsValidHost | internal/background/scheduler.go:639-690 | accepts an IP, or exactly the dotted names: at most 253 bytes, at least two non-empty labels of letters, digits and hyphens, a letter, no hyphen at either end of the whole string |
| Hosts.ScanIsDottedName | internal/background/scheduler.go:657-689 | the one-pass character test and the description by labels are equivalent |
| Hosts.SplitThenJoin | internal/background/scheduler.go:657-689 | the labels of that description are the dot-free parts that, joined by dots, give the host back |
| Hosts.LongLabelAccepted | internal/background/scheduler.go:649 | labels longer than the 63 bytes the comment mentions are accepted |
| Hosts.LabelEdgeHyphenAccepted | internal/background/scheduler.go:674-678 | a hyphen at the end of a label is accepted |
| SyncTrigger.AtMostOneRun | internal/background/scheduler.go:401-427 | in every state of every run with any number of callers: at most one sync+probe is active, the flag is set exactly while a started run has not reset it, and started runs exceed completed ones by at most one |
| SyncTrigger.EndedRunHasProbed | internal/background/scheduler.go:411-424 | in every state of every run: a started run that resets the flag or has ended has synced first and probed afterwards |
| SyncTrigger.CountersCount | internal/background/scheduler.go:401-427 | the flag has been set once per claiming caller and cleared once per ended run, and at most one claimed run has not ended |
| SyncTrigger.RefusedOnlyWhileRunning | internal/background/scheduler.go:402-407 | a caller is refused exactly while another run is under way and otherwise starts one |

## Left out

- HTTP, TCP dialing, JSON, base64 and protobuf decoding, MIME tables, timestamps as text: foreign libraries; they appear as parameters.
- Connection pooling, schema bootstrap and migrations, the missing-column fallback inside UpdateSupernodeProbeData: they depend on driver error texts. The model starts from the bootstrapped schema, but keeps the rows with a NULL mimeType that a migration leaves behind.
- Timers, sleeps, ticker draining, logging, shutdown and the log counters of the enricher: scheduling is an arbitrary interleaving of steps.
- Router, CORS, ETags, configuration and health endpoints: short branches without a deep property.
- Floating-point metrics, average sizes and percentages: counts and sums are kept.
- Most columns of wide rows: one chain column and the hardware columns stand for the plain ones; registeredServices and runningTasks are never set by the chain sync.
- The pagination loops of syncSupernodes, syncActions and syncValidators: the chain decides when they end; SyncLoops.SyncPage is the body for one page.
- createdAt of transaction rows and updatedAt of all rows: bookkeeping clocks.
- The timestamp inside the actions cursor: it is parsed but never used by the query.
- PostgreSQL's limit of 131072 digits for numeric: a longer digit string would fail the price cast.
- A chain transaction whose hash equals the placeholder marker: EnricherRuns assumes there is none.
- The order of equal totals in the version matrix and of equal heights in transaction lists is left to the database; every order is covered.
- GetSupernodeActionStats, GetActionStats, ListUnavailableSupernodes, GetActionsAfterID: simpler variants of modelled readers.
- Enricher.RunActionTxEnricher: the actions table is read only when a batch is fetched, so its changes are given per batch, and the client's answer is given per action, which loses nothing because no action is visited twice in a run.
- Transfers.SelectForPayout: the loops of the cascade share one helper loop, FirstMatch.
- The condition text of GetActionStatsExtended: its selected rows are described directly.
- The request context of a manual run: cancelling it only makes the two loops fail early.
- SyncTrigger: modelled on values as a state machine of threads rather than as a class, because the property is about all interleavings.
