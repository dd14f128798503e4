# Personal finance: a verified model of the ledger, its reports, backups and money text

The program keeps a household's double-entry ledger. This project models the part of it that must never be wrong and
proves what it promises, for every input and over every run:

- **The ledger machine.** Posting and reversal commands, drafts, the catalog and reconciliation act on one database of
  accounts, categories, transactions with their entries, draft details, reversal links, idempotency records,
  reconciliations, memberships and audit events (`Ledger`, `Database`). `Commands` and `Reconciliation` say what each use
  case does to the database as a value, `Machine` turns them into steps, and a run is any sequence of steps. A command
  step carries whether it is interrupted by a failure, and whether the failure event is lost as well.
- **The services under it.** `Store.UnitOfWork` holds committed and working rows; every row write checks the keys and
  triggers of the schema and may fail. `LedgerRepository`, `LedgerServices`, `CatalogService` and `ReconciliationService`
  write row by row, in the program's order, and are proved to commit exactly what the machine's steps say, whichever
  write fails. No trigger is ever what stops them.
- **What holds over all runs.** `Invariants` and `Reachability` give the invariants of every reachable database;
  `Lifecycle`, `Idempotency`, `Chains`, `Balances`, `Eligibility`, `Projection`, `CatalogNames`, `Acceptance`, `Effects` and
  `TransactionDetails` prove the promises. `Runs` steps through the concrete runs of `ArchivedTransfer` and `CrossedCategory`.
- **Reports.** `Reports` says which rows a report reads, `ReportQueries` has the loops, `ReportRows`, `ReportMoves` and
  `ReportTheorems` prove that the reports agree with each other, with what was asked for and with the ledger.
- **The daily backup.** `Backup` is a protocol of any number of runners whose steps interleave, fail and crash;
  `BackupService` is one run, statement by statement, proved to be a run of that protocol.
- **Money text.** `Money` has the parser and the printer of euro amounts, over a small model of regular expressions;
  `Doubles` shows that the floating-point division by 100 inside the printer is exact after flooring.
- **The audit log.** `AuditLog` has keyset pages and walks over a log that grows meanwhile; `AuditTrail` proves that the
  ledger's own audit events are such a log while the ledger runs on.

Facts about the program that the proofs brought out:

- Posting a draft accepts an income whose category is an expense category, and the other way round; the direct commands
  refuse it. `CrossedCategory.IncomeOnExpenseCategory` is a run that ends so, `Effects.OnlyDraftsCrossKinds` says for every
  run exactly when a posting does, and `Effects.DraftPathSkipsCategoryKind` that this is the only difference between the
  two paths. Reports go by the category's kind.
- Archiving does not project transactions again, so a stored state can differ from its projection although the persistence
  doctrine says a projection can always be rebuilt: `ArchivedTransfer.StateIsNotItsProjection` is such a run, and
  `Projection.AgreementIsLostExactlyWhen` says, in terms of the ledger before a step, exactly which steps take a stored
  state away from its projection; `Projection.StateDiffersExactlyWhen` says which states differ at any time. The lifecycle
  order is kept all the same.
- A household account called "Opening equity" blocks every opening of its space for as long as the space has no equity
  account of its own: `CatalogNames.ReservedNameBlocksOpenings` is such a run, and `CatalogNames.OpeningNeedsItsName` says
  exactly when an opening can be posted.
- Updating a replacement draft drops the note of which transaction it replaces (`Effects.UpdateIsDiscardAndCreate`).
- When the clock goes back, a newly created backup of an older date can be pruned at once: `BackdatedBackup.CreatedAndPruned`
  is such a run, and `BackupService.BackupService.RunIfDue` says exactly when, in terms of the catalog before the call.

## Model

| member | source | states |
|---|---|---|
| `Reachability.Reachable` | backend/app/ledger/application/handlers.py:250-304 | Every run from the empty database, whatever is archived, reconciled, reversed, repeated or interrupted, satisfies the catalog, shape, link, membership, state, key and audit invariants |
| `Reachability.DeliverKeeps` | backend/app/ledger/application/handlers.py:260-292 | One delivery of any posting or reversal command, interrupted or not, keeps all invariants |
| `Lifecycle.PostedHistoryIsImmutable` | backend/alembic/versions/0002_ledger_immutability.py:32-62 | A transaction once posted keeps its space, kind, dates, description and entries in every later state, and its state only moves POSTED, RECONCILED, VOIDED |
| `Lifecycle.StepKeepsHistory` | backend/alembic/versions/0002_ledger_immutability.py:50-62 | Each single step changes the state of a posted transaction only as the lifecycle trigger allows, so that the trigger never fires |
| `Lifecycle.ReachableIsWellPosted` | backend/app/ledger/domain/transaction.py:90-95 | In every reachable database nothing is left in the intermediate posting state, and every posted transaction has at least two same-space positive entries that balance |
| `Lifecycle.AuditOnlyGrows` | backend/alembic/versions/0001_initial.py:47-61 | Over every run the audit log only grows at its end |
| `CompletionProofs.ReconciledStays` | backend/app/ledger/application/state_projection.py:17-34 | Projecting a RECONCILED transaction again after another of its entries is completed leaves it RECONCILED |
| `CompletionProofs.CompletionAdvances` | backend/app/reconciliation/application/service.py:168-184 | A completion leaves each transaction as it is or moves it from POSTED to RECONCILED, and keeps its state in line with its completed entries |
| `Projection.StateIsProjection` | backend/app/ledger/application/state_projection.py:11-34 | In runs that archive no account every stored state equals its projection |
| `Projection.AgreementIsLostExactlyWhen` | backend/app/ledger/application/catalog.py:71-78 | In every reachable ledger a step takes a stored state away from its projection if and only if it changes the archive flag of an account that an entry of a half-completed transaction is on, under a condition on the ledger before the call |
| `Projection.NewTransactionsAgree` | backend/app/ledger/application/state_projection.py:17-34 | No step adds a transaction whose stored state differs from its projection |
| `Projection.StateAgainstMemberships` | backend/app/reconciliation/application/service.py:174-183 | In every run RECONCILED implies a completed entry, and full completion of the countable entries implies RECONCILED or VOIDED |
| `ArchivedTransfer.StateIsNotItsProjection` | backend/app/ledger/application/catalog.py:71-78 | A run of six steps that ends with a transfer stored RECONCILED and projected POSTED |
| `Idempotency.ExactlyOnce` | backend/app/shared/idempotency.py:45-110 | For any schedule of repeated, conflicting and interrupted deliveries, the final state apart from audit events is that of the first successful deliveries alone, of which there is at most one per key and each succeeds when they are run alone |
| `Idempotency.RepeatsReturnTheFirstResult` | backend/app/shared/idempotency.py:92-110 | After any further steps a repeat returns the first result and changes nothing, and another command under the same key is a conflict |
| `Idempotency.NeverInProgress` | backend/app/shared/idempotency.py:103-104 | The in-progress error is unreachable |
| `Idempotency.TransactionsKeysEvents` | backend/app/ledger/application/handlers.py:261-288 | Posted transactions, idempotency records and success events of postings and reversals correspond one to one in every reachable database, and each event is named after its command |
| `Idempotency.OtherDeliveriesOnlyAudit` | backend/app/ledger/application/handlers.py:290-304 | Every delivery but a first success changes nothing except for one failure event, named after its command, when it raised and the append was not lost; a replay adds none |
| `Effects.PostingFulfilsTheRequest` | backend/app/ledger/domain/posting_recipes.py:18-83 | A posting that takes effect adds exactly one transaction with the kind, dates and description asked for, debiting and crediting the right targets by the amount |
| `Effects.PostingMovesBalances` | backend/app/ledger/application/handlers.py:102-248 | It moves exactly the balances it names, by its amount and in the right direction, for every account of every space |
| `ReportMoves.PostingMovesTotals` | backend/app/reporting/application/queries.py:31-100 | An income on an income category moves income and receipts up by its amount, an expense on an expense category expenses and payments; a crossed draft moves the other total down; and only in reports whose dates contain it |
| `ReportMoves.PostingMovesWorth` | backend/app/reporting/application/queries.py:102-127 | The assets and the liabilities of net worth each move by what the accounts of that kind move, from the economic date on |
| `ReportMoves.PostingMovesResult` | backend/app/reporting/application/queries.py:31-56 | It moves the economic result of exactly the intervals that contain it, up for an income, down for an expense, not for transfers or openings |
| `Effects.PostedDraftIsDated` | backend/app/ledger/application/handlers.py:102-124 | A posted draft takes the cash date given when posting, or else its own, or else the economic date; an opening takes none |
| `Effects.ReversalDraftsItsReplacement` | backend/app/ledger/application/reversal.py:113-140 | A reversal with a replacement adds one draft under a new id that its result names, with what was asked for and a note of what it replaces; without one it adds none |
| `Acceptance.PostingSucceedsIff` | backend/app/ledger/application/handlers.py:250-288 | In every reachable ledger, the first delivery of a posting succeeds if and only if its key, identifiers, amount, accounts and category are as they must be |
| `Acceptance.ReversalSucceedsIff` | backend/app/ledger/application/reversal.py:52-107 | In every reachable ledger, the first delivery of a reversal succeeds if and only if its original is POSTED or RECONCILED, its identifiers are new and its replacement, if any, is in order; a reversal can be reversed too |
| `Acceptance.DraftIsAcceptedIff` | backend/app/ledger/application/handlers.py:332-348 | A draft is accepted if and only if its amount is positive, what it names is open and its id is new |
| `Acceptance.ClosedIsRefused` | backend/app/ledger/application/handlers.py:399-415 | A direct command on an account or category that is not open is refused as not found, archived or not for postings, whichever is the case |
| `Acceptance.AttemptIsRefused` | backend/app/ledger/application/reversal.py:53-73 | A command without a key, under another command's key, about a draft or transaction that is not there, or reversing one that is neither POSTED nor RECONCILED is refused as just that |
| `Effects.ReversingMovesBalancesBack` | backend/app/ledger/application/reversal.py:64-91 | A reversal mirrors its original, is dated as asked or today, has a cash date exactly when the original has, and takes back what the original moved on every account |
| `Effects.DraftPathSkipsCategoryKind` | backend/app/ledger/application/handlers.py:337-397 | A draft posts if and only if the direct command would, except for the category's kind, and then builds the same transaction |
| `Effects.OnlyDraftsCrossKinds` | backend/app/ledger/application/handlers.py:337-377 | A posting that takes effect leaves an income on an expense category, or the reverse, if and only if it posts a draft whose chosen category is of the other kind |
| `CrossedCategory.IncomeOnExpenseCategory` | backend/app/ledger/application/handlers.py:370-373 | A run of four steps that ends with a posted income on an expense category |
| `CatalogNames.NamesStayUnique` | backend/app/shared/models_ledger.py:24-60 | In every run catalog names are trimmed, of admissible length and unique within their space and kind of row |
| `CatalogNames.CatalogUseMeans` | backend/app/ledger/application/catalog.py:24-95 | In every reachable ledger, a use of the catalog is accepted if and only if its name is admissible and free and its row is new, or there, as it must be, and it changes just the name or flag of that row or adds it as asked |
| `CatalogNames.StartersOnce` | backend/app/ledger/application/catalog.py:46-61 | Asking for the starter categories again changes nothing |
| `CatalogNames.ArchivingSucceeds` | backend/app/ledger/application/catalog.py:71-78 | Archiving and unarchiving an account is refused only when the space has no such account |
| `CatalogNames.OpeningNeedsItsName` | backend/app/ledger/application/handlers.py:142-159 | In every reachable ledger an opening can be posted if and only if its account is active, its amount positive, and the equity account exists or its name is free |
| `CatalogNames.ReservedNameBlocksOpenings` | backend/app/ledger/application/handlers.py:417-433 | After one account is created with the reserved name no opening of the space can be posted |
| `Effects.DraftRoundTrip` | backend/app/ledger/application/handlers.py:48-66 | Discarding a draft undoes creating it, and posting it asks for what it was created with, with the cash date given when posting if there is one |
| `Effects.UpdateIsDiscardAndCreate` | backend/app/ledger/application/handlers.py:68-92 | Updating a draft succeeds exactly when discarding and creating it anew does, with the same outcome |
| `Chains.ReversalsFormChains` | backend/app/ledger/application/reversal.py:64-91 | Reversal links form disjoint finite chains without cycles; VOIDED means being reversed, posted kind REVERSAL means reversing another, and a reversal mirrors its original |
| `Chains.BalanceIsStanding` | backend/app/ledger/adapters/repositories.py:318-332 | Every account balance is the sum over transactions that reverse nothing and have an even number of reversals above them |
| `ReversalProofs.AcyclicExtends` | backend/app/ledger/adapters/repositories.py:283-298 | Linking an unlinked transaction to a new reversal keeps the links free of cycles |
| `Balances.CandidatesByDate` | backend/app/reconciliation/adapters/repository.py:54-115 | In every reachable ledger, the entries that may be selected are exactly the posted ones on the account not completed yet, by the cutoff: by cash date, but by economic date for an opening and its reversal |
| `Eligibility.PostedIsCandidateFrom` | backend/app/reconciliation/adapters/repository.py:61-96 | What a posting writes on an account can be selected from the cash date asked for on, an opening from its economic date on |
| `Balances.CompletionSucceedsIff` | backend/app/reconciliation/application/service.py:103-135 | A completion succeeds if and only if the account is open, the selected entries are pending, at least one and none twice, the observed balance is what they and the completed ones make, and its id is new; otherwise it is refused for the first of these that fails |
| `Balances.CompletionRecords` | backend/app/reconciliation/adapters/repository.py:164-206 | A completion that succeeds stores one record with the observed balance, exactly the selected memberships and one event; any other adds at most a failure event |
| `Balances.CandidatesAndPriorPartition` | backend/app/reconciliation/adapters/repository.py:54-162 | Candidates and previously completed cents partition an account's effects up to a cutoff; no entry is in two reconciliations |
| `Balances.CompletedBalanceIsObserved` | backend/app/reconciliation/application/service.py:90-129 | Right after a completion the completed cents up to its cutoff are the observed balance |
| `Balances.ObservedIsSumUpToCutoff` | backend/app/reconciliation/domain/reconciliation.py:150-170 | Over every run, in whatever order the cutoffs come, the n-th observed balance is the sum of the effects selected so far that are eligible at the n-th cutoff |
| `Balances.ObservedIsRunningSum` | backend/app/reconciliation/domain/reconciliation.py:150-170 | Over any run whose completions of an account have non-decreasing cutoffs, the n-th observed balance is the sum of all effects selected so far |
| `ReportRows.ReadsEachEntryOnce` | backend/app/reporting/adapters/sql_queries.py:27-100 | A report reads exactly one row for each posted entry its dates let through, with the entry's own fields and its account's or category's kind, sorted by date, transaction and entry |
| `Reports.ReadSum` | backend/app/reporting/adapters/sql_queries.py:50-100 | A total over the ordered rows a report reads is the total over the ledger of what its filters let through |
| `ReportQueries.Economic` | backend/app/reporting/application/queries.py:31-56 | The loop returns the income and expense totals over all rows and names each contributing row once |
| `ReportQueries.GroupRows` | backend/app/reporting/application/queries.py:63-65 | Grouping keeps every row of a transaction, in order, under its id |
| `ReportQueries.CashFlow` | backend/app/reporting/application/queries.py:58-100 | The loop over groups returns the receipts and payments of all transactions, named in id order |
| `ReportQueries.NetWorth` | backend/app/reporting/application/queries.py:102-127 | The loop returns the asset and liability totals over all rows and names each contributing row once |
| `ReportTheorems.EconomicAgrees` | backend/app/reporting/application/queries.py:31-56 | Income is the posted credits less debits on income categories, expense the debits less credits on expense categories, by economic date |
| `ReportTheorems.NetWorthAgrees` | backend/app/reporting/application/queries.py:102-127 | Assets and liabilities are what the posted entries on accounts of each kind are worth up to the date |
| `ReportTheorems.AccountingEquation` | backend/app/reporting/application/queries.py:102-127 | Net worth at one date less net worth at an earlier one is the economic result between them less the equity movement, in every reachable ledger |
| `ReportTheorems.NetWorthIsBalances` | backend/app/ledger/adapters/repositories.py:318-332 | Net worth as of a date nothing comes after is the sum of the balances of the space's asset and liability accounts |
| `ReportTheorems.CashFlowAgrees` | backend/app/reporting/application/queries.py:58-100 | The grouped cash report gives the posted credits less debits on income categories and debits less credits on expense categories by cash date, and its net is all that asset and liability accounts moved |
| `ReportTheorems.SelectionBalances` | backend/app/reporting/adapters/sql_queries.py:27-74 | Over any selection of transactions what accounts move is what categories earn less what they cost |
| `ReportTheorems.ReportsAreAdditive` | backend/app/reporting/adapters/sql_queries.py:27-44 | Economic and cash reports of adjacent intervals add up to the report of the whole |
| `ReportTheorems.ReversedPairsCancel` | backend/app/ledger/domain/entry.py:56-65 | Removing an original together with its reversal leaves every report as it is when the report sees both or neither |
| `TransactionDetails.PostedDetailsReadBack` | backend/app/api/transactions.py:202-241 | Reading details back from the stored entries of a posting, in whichever order they are stored, gives what was asked for |
| `TransactionDetails.ReversalReadsSwapped` | backend/app/api/transactions.py:202-241 | A reversal reads back like its original, a transfer with source and destination swapped |
| `Store.UnitOfWork.Enter` | backend/app/shared/unit_of_work.py:26-31 | Entering starts a working copy of the committed rows and is refused when already entered |
| `Store.UnitOfWork.Commit` | backend/app/shared/unit_of_work.py:33-41 | A commit makes the working copy the committed one or leaves the committed one alone |
| `Store.UnitOfWork.InsertEntry` | backend/alembic/versions/0001_initial.py:63-73 | No entry joins a visible transaction; otherwise it is inserted exactly when its id is new and its target and space fit |
| `Store.UnitOfWork.UpdateState` | backend/alembic/versions/0001_initial.py:21-45 | A state change goes through exactly when the posting and lifecycle guards let it |
| `Store.UnitOfWork.UpdateSnapshot` | backend/alembic/versions/0002_ledger_immutability.py:32-39 | The snapshot of a transaction changes exactly when it is not visible |
| `Store.UnitOfWork.DeleteTransaction` | backend/alembic/versions/0002_ledger_immutability.py:41-48 | A transaction is deleted, with its details, exactly when it is not visible |
| `LedgerRepository.AddEntries` | backend/app/ledger/adapters/repositories.py:408-421 | Inserting the entries one by one ends with all of them in stored order and only a clash of ids can stop it |
| `LedgerRepository.AddPosted` | backend/app/ledger/adapters/repositories.py:250-257 | Writing a transaction row by row through the guards gives the posted row or its integrity error |
| `LedgerRepository.PostExistingDraft` | backend/app/ledger/adapters/repositories.py:259-274 | Turning a draft into a posted transaction row by row gives the posted row without its details, or the right refusal |
| `LedgerRepository.MarkVoided` | backend/app/ledger/adapters/repositories.py:276-281 | Only POSTED and RECONCILED transactions are voided, and the lifecycle guard agrees |
| `LedgerRepository.UpdateDraft` | backend/app/ledger/adapters/repositories.py:203-218 | Only drafts are rewritten, row and details together |
| `LedgerRepository.DiscardDraft` | backend/app/ledger/adapters/repositories.py:220-225 | Only drafts are deleted, row and details together |
| `LedgerServices.EnsureEquity` | backend/app/ledger/application/handlers.py:417-433 | The technical equity account of a space is found by its id or added, and a clash of its name is a duplicate name |
| `LedgerServices.ExecutePosting` | backend/app/ledger/application/handlers.py:272-278 | Building and writing a posting through the store has the specified effect or error |
| `LedgerServices.ExecuteReversal` | backend/app/ledger/application/reversal.py:63-97 | Posting the mirror, voiding, linking and drafting the replacement have the specified effect or error |
| `LedgerServices.Reserve` | backend/app/shared/idempotency.py:45-69 | A key is reserved, replayed or refused as specified, writing only when it is new |
| `LedgerServices.Deliver` | backend/app/ledger/application/handlers.py:250-304 | Whichever write fails, the committed database is the whole effect, a replay, or the old one with at most one failure event; without failures the outcome is the specified one; no trigger fires |
| `LedgerServices.CreateDraft` | backend/app/ledger/application/handlers.py:48-66 | Creates the draft or leaves the committed rows alone with the specified error |
| `LedgerServices.UpdateDraft` | backend/app/ledger/application/handlers.py:68-87 | Updates the draft or leaves the committed rows alone with the specified error |
| `LedgerServices.DiscardDraft` | backend/app/ledger/application/handlers.py:89-92 | Discards the draft or leaves the committed rows alone with the specified error |
| `CatalogService.CreateAccount` | backend/app/ledger/application/catalog.py:24-37 | Adds a visible account under its trimmed name, or refuses a bad or taken name, and leaves the committed rows alone when refused or failing |
| `CatalogService.CreateCategory` | backend/app/ledger/application/catalog.py:39-44 | Adds a category under its trimmed name, or refuses a bad or taken name, and leaves the committed rows alone when refused or failing |
| `CatalogService.RenameAccount` | backend/app/ledger/application/catalog.py:63-69 | Changes the name of an account of the space and nothing else, or refuses a bad or taken name |
| `CatalogService.RenameCategory` | backend/app/ledger/application/catalog.py:80-86 | Changes the name of a category of the space and nothing else, or refuses a bad or taken name |
| `CatalogService.EnsureStarterCategories` | backend/app/ledger/application/catalog.py:46-61 | Returns two categories with the starter names, found or added in one unit of work |
| `CatalogService.SetAccountArchived` | backend/app/ledger/application/catalog.py:71-78 | Changes the archive flag of an account of the space and nothing else |
| `CatalogService.SetCategoryArchived` | backend/app/ledger/application/catalog.py:88-95 | Changes the archive flag of a category of the space and nothing else |
| `ReconciliationService.Draft` | backend/app/reconciliation/application/service.py:137-166 | Recomputes prior and selected cents from the ledger and refuses exactly the selections the domain refuses; a preview changes nothing |
| `ReconciliationService.AddCompleted` | backend/app/reconciliation/adapters/repository.py:164-206 | One record and one membership per selected entry are written, or none |
| `ReconciliationService.ProjectAll` | backend/app/reconciliation/application/service.py:168-184 | Projecting the given transactions one by one gives all their projected states and lists each once, in id order, with its state |
| `ReconciliationService.ProjectAffectedTransactions` | backend/app/reconciliation/application/service.py:168-184 | The returned pairs are exactly the affected transactions, in id order, with the states now stored |
| `ReconciliationService.CompleteReconciliation` | backend/app/reconciliation/application/service.py:90-135 | Whichever write fails, the committed database is the completed one or the old one with at most one failure event; the returned states are the affected transactions in id order with the states committed; neither the lifecycle trigger nor the unique index on completed entries is ever what refuses it |
| `Backup.NewestBackupsSurvive` | backend/app/recovery/application/backup.py:53-116 | However many runners interleave, fail and crash, each of the newest completed dates has on disk the file its own run published |
| `Backup.NextKeeps` | backend/app/recovery/adapters/filesystem.py:25-46 | Every single step of every runner, a prune from a stale list included, keeps the protocol's invariants |
| `Backup.CompletedForever` | backend/app/recovery/adapters/run_repository.py:62-76 | Over every run of the protocol a date once completed stays completed by the same run: no claim, failure or crash takes it back |
| `Backup.ClaimedWhenFree` | backend/app/recovery/adapters/run_repository.py:39-76 | A claim under a new id gets a date exactly when it has no row or a FAILED one, and takes the row over |
| `Backup.FailedDateIsClaimedAgain` | backend/app/recovery/adapters/run_repository.py:66-76 | Once a failed attempt is cleaned up and marked, the date can be claimed again, whatever other runners do |
| `Backup.OneRunnerPerDate` | backend/app/recovery/adapters/run_repository.py:39-76 | At most one runner is between its claim and its terminal mark for a date, and the row is its own |
| `Backup.NewerInList` | backend/app/recovery/adapters/run_repository.py:106-115 | Position k of the verified list has exactly k newer completed dates |
| `BackupService.ObsoleteIffOld` | backend/app/recovery/adapters/filesystem.py:41-46 | A completed date is pruned if and only if at least as many newer ones are completed as are kept |
| `BackupService.BackupService.Attempt` | backend/app/recovery/application/backup.py:77-97 | Copy, verify, publish and mark are a run of the protocol that completes the date or says whether it had published |
| `BackupService.BackupService.GiveUp` | backend/app/recovery/application/backup.py:97-139 | The failure path touches only the date's own file and row |
| `BackupService.BackupService.PruneVerified` | backend/app/recovery/adapters/filesystem.py:41-46 | Pruning one by one removes exactly the obsolete files, or stops at the first failure |
| `BackupService.BackupService.RunIfDue` | backend/app/recovery/application/backup.py:53-116 | A daily run is a run of the protocol; its outcome says what became of the date, which is backed up when it has no row or a failed one and nothing fails; after an undisturbed creation the completed files left are exactly those of the newest dates, and the new one is among them if and only if too few newer dates were completed before |
| `BackdatedBackup.CreatedAndPruned` | backend/app/recovery/application/backup.py:104-107 | A run in which the clock goes back ends with a completed date whose file was pruned at once |
| `Doubles.FloorOfNearest` | frontend/src/lib/money.ts:37-37 | For every safe integer n, flooring any double nearest to n / 100 gives the exact whole quotient |
| `Doubles.HundredthsRecombine` | frontend/src/lib/money.ts:36-40 | The printed euros and cents always recombine to the amount |
| `Money.PatternMeans` | frontend/src/lib/money.ts:5-5 | The pattern accepts exactly an optional sign, plain or fully grouped euros, and an optional fraction of one or two digits |
| `Money.AcceptedPartsAreDigits` | frontend/src/lib/money.ts:15-19 | What the pattern accepts leaves only digits for the number conversions, which therefore never throw |
| `Money.ParseReadsWhatIsWritten` | frontend/src/lib/money.ts:7-29 | The parser gives v if and only if the trimmed text writes v cents and v is safe, and calls a text no amount if and only if it writes none |
| `Money.SpellingsAgree` | frontend/src/lib/money.ts:16-21 | Grouped and ungrouped spellings of one amount parse to the same value, with any white space around them |
| `Money.EurosGroup` | frontend/src/lib/money.ts:37-39 | The dots of accepted euros are exactly those the printer would put between their digits |
| `Money.PrintedParsesBack` | frontend/src/features/transactions/form.tsx:45-49 | Every safe amount survives printing, taking off the suffix and parsing |
| `Money.SuffixIsRefused` | frontend/src/lib/money.ts:41-41 | A printed amount with its suffix is refused by the parser |
| `Money.PrintingNormalizes` | frontend/src/lib/money.ts:31-42 | Printing a parsed value gives a normal form: it parses to the same value, and texts print alike if and only if they parse alike |
| `AuditLog.PageMeans` | backend/app/audit/adapters/repository.py:70-92 | A page holds due events in descending order, all of them or as many as asked for with a cursor above the rest |
| `AuditLog.WalkDescends` | backend/app/audit/application/service.py:99-105 | A walk over a growing log returns events of its scope in strictly descending order of time and id, none twice |
| `AuditLog.WalkIsComplete` | backend/app/audit/application/service.py:99-105 | A walk that has ended has returned every event that was due when it began |
| `AuditLog.WalkReturnsEachOnce` | backend/app/audit/application/service.py:65-105 | Every event present at the start is returned exactly once |
| `AuditLog.WalkEnds` | backend/app/audit/application/service.py:99-105 | A walk makes no more visits than the log has events |
| `AuditTrail.WalkSeesTheTrail` | backend/app/audit/application/service.py:44-105 | A walk over a space's audit events while the ledger runs on returns each event recorded at its start exactly once, and ends |
| `AuditLog.AuditRepository.Append` | backend/app/audit/adapters/repository.py:34-49 | An append adds one event and changes none, and is refused exactly when the id is taken |
| `AuditLog.AuditRepository.Query` | backend/app/audit/application/service.py:65-105 | Limits outside 1 to 200 are refused and otherwise the specified page is returned |

## Left out

- HTTP routes, schemas, sessions, identity, cookies, the React pages and charts: no ledger state of their own.
- SQLAlchemy, SQLite and the migrations themselves: the store is a set of maps whose writes check keys and triggers.
- Concurrent units of work: each is one atomic step, as SQLite serializes writers; a commit that raises counts as not committed.
- Identifiers and clocks: parameters of each command. A clash of identifiers is an integrity error, so nothing assumes they are fresh.
- The canonical JSON payload and its SHA-256 hash: a command is compared with the stored one as a value, the hash taken to be injective.
- Entry storage order: entries are kept in the order of their ids, the order every reader sorts them into.
- The trimming and length check of descriptions: a refusal for one leaves the committed rows alone, as an interrupted command does.
- The description of a reversal: a parameter of the command.
- Lists ordered and paged by offset, and the account, category and transaction views: reads without further state.
- Reconciliation candidates: modelled as the set of their ids and the sum of their effects, not as the ordered list the screen shows.
- The metadata of audit events, its JSON and its redaction: one opaque value in an event.
- The audit events of backups, the catalog's backup status labels and the clock's time zone: they decide nothing in the protocol.
- Exceptions other than OSError and RuntimeError in a backup run: crashes of the runner, at any step. A crash leaves its date started for good, so that nothing is claimed about backups being made.
- The bytes of a backup and its integrity check: a file is the run it was published by, and a copy or check succeeds or fails.
- Restore into an isolated file.
- UTF-16: amount texts are sequences of characters; no accepted text has one that takes two units.
