# Monthly ledger engine, modelled in Dafny

This project models `DbProvider`, the ledger engine of a personal-finance app.
The engine keeps one document per calendar month, a `MonthOverView` snapshot
under its `YYYY-MM` key. Each snapshot holds accounts with an opening
(`initialBalance`) and closing (`finalBalance`) balance and their transactions.
It also holds spending categories with their expenses and budgets, and the set
of tags used.

The model covers:

- **Month keys** (`month_keys.dfy`). A month is a `(year, month 1..12)` pair. `Next` and `Prev` carry across year ends. The `YYYY-MM` text form is proved to round-trip, so comparing keys stands for comparing key strings.
- **Documents** (`models.dfy`). Accounts, transactions, categories, budgets, expenses and snapshots are values. The account and snapshot methods the engine calls are functions on them.
- **One month** (`ledger.dfy`, `ledger_facts.dfy`):
  - the rollover that builds a month from the month before;
  - the three mutators (expense, transfer between own accounts, transfer from an external account);
  - the balance delta the propagation loops apply to each later month.
- **The store** (`store.dfy`). A map from key to snapshot. On it are defined:
  - the read-through that creates a missing month by rollover;
  - recording one operation into one month;
  - the forward propagation as written, and a corrected propagation.
- **Chaining** (`propagation_facts.dfy`). A month's opening balance should equal the previous month's closing balance. This module states what the entry points do to that chain and which months they touch.
- **Concrete stores** (`scenarios.dfy`):
  - the three-month expense example;
  - the store in which propagation counts an expense twice;
  - the same store under the corrected propagation.
- **Account history** (`history.dfy`). The `getAllAccounts` merge: accounts of every month, latest month first, merged by name and de-duplicated by transaction id.
- **Category rewrites** (`rewrites.dfy`). Recolour, rename or re-icon one category in every month.
- **`DbProvider`** (`db.dfy`). A class whose field `db` is the store. Each method is the step-by-step code of the corresponding source method, proved equal to the store function that specifies it:
  - the rollover loop;
  - the propagation `while` loop;
  - the nested `forEach` loops of `getAllAccounts`;
  - the rewrite and bulk-write loops.

The current month (`_id_now`, read from the clock once at construction) is an
explicit `now` parameter. Amounts are whole numbers (cents).

Where the source and its design description disagree, the model follows the source:

- Propagation runs up to and including the current month.
- It creates missing months by rollover instead of skipping them.
- The read-through creates only the requested month from the previous one; it does not recurse further back.

## Model

| member | source | states |
|---|---|---|
| MonthKeys.Next | src/providers/db/db.ts:223 | adding one month moves the month index up by exactly one, carrying December into January of the next year |
| MonthKeys.Prev | src/providers/db/db.ts:119 | subtracting one month moves the month index down by exactly one |
| MonthKeys.PrevNext | src/providers/db/db.ts:119 | one month back and one month forward are inverse |
| MonthKeys.StepsReach | src/providers/db/db.ts:223-225 | from a month not after the stop key, stepping forward reaches the stop key after exactly the index difference and not before, so the loop visits each month in between once, in order |
| MonthKeys.StepsNeverReach | src/providers/db/db.ts:225 | from a month after the stop key, no number of steps reaches it: when the edited month is after the current one, the loop's key test never ends the walk, which stops only if a step throws |
| MonthKeys.ParseFormat | src/providers/db/db.ts:119 | the `YYYY-MM` text of a key parses back to the key |
| MonthKeys.FormatParse | src/providers/db/db.ts:234 | a parsed `YYYY-MM` string formats back to the same string |
| MonthKeys.FormatInjective | src/providers/db/db.ts:225 | two keys have the same text exactly when they are the same month, so the loop's string test is a key test |
| Models.UpdateFinalBalance | src/providers/db/db.ts:186-189 | the account keeps its name; its balance change is stated by `Models.AccountUpdates` |
| Models.UpdateInitialBalance | src/providers/db/db.ts:191-194 | the account keeps its name; its balance change is stated by `Models.AccountUpdates` |
| Models.AddTransaction | src/providers/db/db.ts:158-161 | the account keeps its name; the appended transaction is stated by `Models.AccountUpdates` |
| Models.AccountUpdates | src/providers/db/db.ts:186-194 | `'increase'` adds and `'decrease'` subtracts the amount from the one balance updated, and adding a transaction appends it; nothing else of the account changes |
| Models.FindAccount | src/providers/db/db.ts:199 | `getAccByName` finds the first account with the name, or none |
| Models.FindCategory | src/providers/db/db.ts:330 | `getCategoryByName` finds the first category with the name, or none |
| Models.AddTagsToUsedTags | src/providers/db/db.ts:333 | the used tags become their union with the expense's tags; nothing else changes |
| Ledger.Rollover | src/providers/db/db.ts:119-128 | the new month has the given key and the previous month's tags. Each account opens and closes at the previous closing balance and has no transactions. Each category keeps its name, colour, icon and limit, with no expenses and nothing spent |
| Ledger.RolloverChains | src/providers/db/db.ts:121-123 | the new month holds exactly the previous month's account names, each opening with the closing balance of the month before |
| Ledger.Transfer | src/providers/db/db.ts:209-220 | succeeds exactly when both accounts exist; id, categories and tags stay |
| Ledger.TransferFromExternal | src/providers/db/db.ts:196-206 | succeeds exactly when the receiving account exists; id, categories and tags stay |
| Ledger.AddExpense | src/providers/db/db.ts:326-336 | succeeds exactly when the paying account and the category exist; the used tags gain the expense's tags |
| Ledger.ApplyDelta | src/providers/db/db.ts:301-322 | one iteration of a propagation loop as written; it fails when a named account is missing |
| Ledger.ApplyDeltaFixed | src/providers/db/db.ts:309-315 | the expense delta with the old account receiving the cost back in both balances |
| LedgerFacts.TransferShifts | src/providers/db/db.ts:163-167 | A's closing balance drops and B's rises by the amount; every opening balance and every other account stays |
| LedgerFacts.TransferConservesTotals | src/providers/db/db.ts:209-216 | the sums of closing balances and of opening balances over all accounts are unchanged |
| LedgerFacts.TransferRecords | src/providers/db/db.ts:158-161 | A gains one decrease transaction from A to B and B one increase transaction from A to B; every other account is unchanged |
| LedgerFacts.ExternalShifts | src/providers/db/db.ts:196-202 | only the receiver's closing balance rises by the amount; every opening balance stays |
| LedgerFacts.ExternalRecords | src/providers/db/db.ts:196-202 | the receiver gains one increase transaction from the external holder; the closing total grows by the amount, the opening total and every other account stay |
| LedgerFacts.ExpenseShifts | src/providers/db/db.ts:326-328 | the paying account's closing balance drops by the cost; every opening balance and every other account stays |
| LedgerFacts.ExpenseRecorded | src/providers/db/db.ts:329-333 | the category gains the expense; its spend grows by the cost whatever the limit. Name, colour, icon, limit and every other category stay. The closing total drops by the cost |
| LedgerFacts.TwoExpensesAccumulate | src/providers/db/db.ts:331-332 | two expenses in one category add both costs to its spend |
| LedgerFacts.InitialThenFinal | src/providers/db/db.ts:169-174 | updating an account's opening and then its closing balance by the same signed amount moves both balances of that account by it, and leaves every other account and every lookup as it was |
| LedgerFacts.FinalThenInitial | src/providers/db/db.ts:309-315 | the same two updates in the other order, as the expense loop does them, have the same effect |
| LedgerFacts.TransferDeltaShifts | src/providers/db/db.ts:169-174 | in a later month both balances of A drop and both of B rise by the amount; other accounts stay |
| LedgerFacts.TransferDeltaConservesTotals | src/providers/db/db.ts:222-237 | the transfer delta keeps both balance totals of the month |
| LedgerFacts.ExternalDeltaShiftsFinalOnly | src/providers/db/db.ts:239-252 | in a later month only the receiver's closing balance rises; its opening balance stays |
| LedgerFacts.ExpenseDeltaShifts | src/providers/db/db.ts:305-308 | without an old account, both balances of the paying account drop by the cost and the tags are joined |
| LedgerFacts.OldAccountDeltaFixedShifts | src/providers/db/db.ts:309-315 | the corrected delta moves the payer down and the old account up in both balances |
| LedgerFacts.DeltaFixedShifts | src/providers/db/db.ts:301-322 | every corrected transfer or expense delta moves both balances of every account by its shift |
| Store.Put | src/providers/db/db.ts:97-99 | a put overwrites exactly the entry under the document's id |
| Store.CreateNew | src/providers/db/db.ts:116-135 | a month is created exactly when the month before is stored, under the requested key; otherwise nothing is written |
| Store.ReadThrough | src/providers/db/db.ts:142-155 | a snapshot is returned exactly when the month or the month before is stored; a stored month is returned unchanged |
| Store.Mutate | src/providers/db/db.ts:196-220 | the single-month mutator keeps the month's id |
| Store.DeltaOf | src/providers/db/db.ts:344 | the entry points never pass an old account name |
| Store.Record | src/providers/db/db.ts:326-336 | recording into a month changes no other month and keeps every snapshot under its own key |
| Store.Propagate | src/providers/db/db.ts:222-237 | the propagation loop as written touches only months from the start key up to but excluding the stop key |
| Store.Service | src/providers/db/db.ts:340-352 | recording and propagating touches only the months from the edited month through the current month |
| Store.PropagateFixed | src/providers/db/db.ts:301-322 | the corrected propagation touches the same range of months |
| Store.ServiceFixed | src/providers/db/db.ts:340-352 | the corrected entry point touches the same range of months |
| Store.PutAll | src/providers/db/db.ts:397 | the bulk write stores exactly the old keys and the documents' ids |
| Store.PutAllDistinct | src/providers/db/db.ts:397 | with distinct ids, each document ends up under its id and every other month stays |
| Store.PutAllOver | src/providers/db/db.ts:397 | writing one document per stored key, each under its own key and equal to a target store's entry, gives exactly the target store |
| PropagationFacts.CoversApplies | src/providers/db/db.ts:226-229 | a delta applies exactly when the month holds every account it names |
| PropagationFacts.RolloverChained | src/providers/db/db.ts:121-123 | a rolled-over month is chained to the month it came from |
| PropagationFacts.ChainedAfterFinalShift | src/providers/db/db.ts:202 | changing only closing balances of a month keeps it chained to the month before |
| PropagationFacts.ChainedAfterShift | src/providers/db/db.ts:229 | moving a month's closing balances and the next month's both balances by the same shift keeps them chained |
| PropagationFacts.ReadThroughIdempotent | src/providers/db/db.ts:142-155 | reading the same month twice returns the same snapshot and writes nothing more |
| PropagationFacts.ReadThroughCreatesLinked | src/providers/db/db.ts:148-151 | a month created on read is the rollover of the month before and chained to it |
| PropagationFacts.PropagateUnfold | src/providers/db/db.ts:225-235 | one loop iteration on a stored month: the updated month is written under its own key and the loop continues from the next month |
| PropagationFacts.PropagateReach | src/providers/db/db.ts:225-235 | when every month in range is stored and holds the accounts, each gets the delta exactly once |
| PropagationFacts.ShiftStep | src/providers/db/db.ts:225-235 | one corrected iteration on a stored month moves both balances of that month by the delta, keeps its accounts, and changes no other month |
| PropagationFacts.CreateStep | src/providers/db/db.ts:148-151 | one corrected iteration on a missing month creates it by rollover, chained to the month before, with no delta, and changes no other month |
| PropagationFacts.PropagateFixedChain | src/providers/db/db.ts:225-235 | the corrected propagation keeps every chained pair in range chained and chains every month it creates |
| PropagationFacts.MutateShifts | src/providers/db/db.ts:196-220 | a successful mutation moves only closing balances, each by the operation's shift |
| PropagationFacts.RecordStep | src/providers/db/db.ts:326-336 | recording moves the month's closing balances by the shift and keeps it chained to the month before |
| PropagationFacts.ServiceFixedKeepsChain | src/providers/db/db.ts:340-352 | under the corrected propagation, an expense or own transfer keeps every chained pair chained, except the current month with the next, and chains every month it creates |
| PropagationFacts.WalkAfterRecord | src/providers/db/db.ts:340-352 | after recording, the corrected propagation from the next month through the current one keeps every chained pair in range chained and chains each month it creates |
| PropagationFacts.PropagateMatchesFixed | src/providers/db/db.ts:225-235 | on a range where every month is stored and without an old account name, the loop as written and the corrected loop give the same store |
| PropagationFacts.ServiceMatchesFixed | src/providers/db/db.ts:340-377 | with every month after the edited one through the current one stored, the entry points as written give exactly the corrected result |
| PropagationFacts.ServiceKeepsChain | src/providers/db/db.ts:340-365 | with every later month through the current one stored and holding the accounts, an expense or own transfer as written keeps every linked pair linked, except the current month with the next |
| PropagationFacts.ServiceReach | src/providers/db/db.ts:340-352 | with every month stored, the edited month gets the mutation, each later month up to and including the current one gets the delta once, and nothing else changes |
| PropagationFacts.ExpenseReach | src/providers/db/db.ts:301-322 | an expense lowers the payer's closing balance in the edited month and both balances in every later month through the current one |
| PropagationFacts.ExternalReach | src/providers/db/db.ts:239-252 | an external transfer raises only the receiver's closing balance in every month from the edited one through the current one |
| PropagationFacts.ExternalUnlinks | src/providers/db/db.ts:245 | a non-zero external transfer into an earlier month unchains that month from the next |
| PropagationFacts.OldAccountDeltaAsWritten | src/providers/db/db.ts:314 | as written, the paying account's opening balance is restored and the old account's stays, so the delta is not the intended shift |
| Scenarios.ThreeMonthExpense | src/providers/db/db.ts:340-352 | with Checking at `b` in April, May and June and June current, an expense of 20 in April leaves Checking at `b - 20` at April's close and at May's and June's open and close |
| Scenarios.PropagateCreatesLast | src/providers/db/db.ts:305-308 | propagating through one missing month creates it by rollover and then applies the delta to the created copy |
| Scenarios.DoubleCountInCreatedMonth | src/providers/db/db.ts:305-308 | with only April stored and May current, May is created at 80 and lowered again to 60, so April and May are not chained |
| Scenarios.CreatedMonthFixed | src/providers/db/db.ts:305-308 | the corrected propagation creates May at 80 and leaves it chained to April |
| History.AddMissingFacts | src/providers/db/db.ts:283-287 | merging by id keeps the list merged into as a prefix, yields the ids of both lists, and adds no repeated id |
| History.SharedIdOnce | src/providers/db/db.ts:284 | an id held by both lists appears exactly once after merging |
| History.MergeAccountFacts | src/providers/db/db.ts:278-288 | one merge step adds the incoming name, keeps names unique, keeps every merged account's position and balances, and keeps ids unique |
| History.MergeAllNames | src/providers/db/db.ts:278-281 | the names after merging a list are those merged into and those of the list |
| History.MergeAllKeeps | src/providers/db/db.ts:283-287 | merging a list keeps every account merged into at its position with its owner, name and balances, and keeps names unique |
| History.MergeAllFacts | src/providers/db/db.ts:275-290 | merging a list gives the union of the names, keeps names unique and keeps the balances of the accounts merged into |
| History.MergeAllUniqueIds | src/providers/db/db.ts:283-287 | no merged account repeats an id, if no account met first under its name does |
| History.MergeAllIds | src/providers/db/db.ts:283-287 | the ids under each name after merging are those of every account under that name |
| History.MergeAllFirst | src/providers/db/db.ts:278-280 | the merged account under a name has the owner and balances of the first account under that name |
| History.KeysDescending | src/providers/db/db.ts:270-273 | holds exactly the stored keys |
| History.KeysDescendingSorted | src/providers/db/db.ts:270-273 | the keys come latest month first, strictly, so each appears once |
| History.AccountsOfFirst | src/providers/db/db.ts:270-273 | reading months latest first, the first account under a name is the one in the latest month holding it |
| History.HistoryFacts | src/providers/db/db.ts:265-298 | every name of every month appears once, with the balances of the latest month holding it, and with exactly the ids recorded under it in any month, none repeated |
| CategoryRewrites.ExpensesWithIcon | src/providers/db/db.ts:393 | every expense gets the icon and keeps everything else |
| CategoryRewrites.RewriteStore | src/providers/db/db.ts:381-398 | every month is written back under the same keys |
| CategoryRewrites.RewriteFrame | src/providers/db/db.ts:389-394 | only the first category under the name changes; id, accounts, tags and other categories stay; a month without it is unchanged |
| CategoryRewrites.RewriteCategoryEffect | src/providers/db/db.ts:390-394 | the rewrite sets the colour, the name, or the icon of the category and of each of its expenses; every other field of the category, and everything but the icon of each expense, stays |
| CategoryRewrites.RewriteIdempotent | src/providers/db/db.ts:400-416 | recolouring or re-iconing twice is the same as once |
| CategoryRewrites.RenameBack | src/providers/db/db.ts:418-436 | renaming to an unused name and back restores the month |
| CategoryRewrites.RewriteKeepsLinks | src/providers/db/db.ts:381-436 | the rewrites keep every snapshot under its key and every month chained as before |
| Db.DbProvider.constructor | src/providers/db/db.ts:51-61 | the provider works on the database `initSignIn` opens, as given, each snapshot under its own key; the clock reading of the source constructor is the `now` parameter of the methods |
| Db.DbProvider.SaveMonthOverview | src/providers/db/db.ts:97-99 | the snapshot is put under its id |
| Db.DbProvider.SetupFirstMonthOverview | src/providers/db/db.ts:106-113 | the current month is stored with the given accounts and no used tags |
| Db.DbProvider.CreateNewMonthOverview | src/providers/db/db.ts:116-135 | the carry-over loop and clears give `CreateNew`: the rollover of the stored month before, or nothing |
| Db.DbProvider.GetMonthOverviewObject | src/providers/db/db.ts:142-155 | the store and result are `ReadThrough` |
| Db.DbProvider.TransferFromExternalAccount | src/providers/db/db.ts:196-206 | the new store is `Record` of the external operation |
| Db.DbProvider.TransferBetweenOwnAccounts | src/providers/db/db.ts:209-220 | the new store is `Record` of the transfer |
| Db.DbProvider.AddExpenseToCategoryToMonthOverview | src/providers/db/db.ts:326-336 | the new store is `Record` of the expense |
| Db.DbProvider.UpdateBalanceInFollowingMonths | src/providers/db/db.ts:225-235 | the `while` loop from the month after the edited one until the month after the current one is `Propagate` |
| Db.DbProvider.UpdateBalanceInFollowingMonthsAfterTransfer | src/providers/db/db.ts:222-237 | the loop with the transfer delta |
| Db.DbProvider.UpdateBalanceInFollowingMonthsAfterExternalTransfer | src/providers/db/db.ts:239-252 | the loop with the external delta; the holder plays no part |
| Db.DbProvider.UpdateBalanceInFollowingMonthsAfterExpense | src/providers/db/db.ts:301-322 | the loop with the expense delta and optional old account |
| Db.DbProvider.AddExpenseToCategory | src/providers/db/db.ts:340-352 | record, then propagate unless the month is current: `Service` |
| Db.DbProvider.AddTransfer | src/providers/db/db.ts:354-365 | the same for an own transfer |
| Db.DbProvider.AddTransferFromExternalAccount | src/providers/db/db.ts:367-377 | the same for an external transfer |
| Db.DbProvider.AllDocsDescending | src/providers/db/db.ts:270-273 | the keys latest month first |
| Db.DbProvider.TakeLatest | src/providers/db/db.ts:270-273 | one step of the descending read takes the latest remaining key |
| Db.DbProvider.MergeMonths | src/providers/db/db.ts:275-290 | the nested `forEach` loops over the months read compute the merge of all their accounts in that order |
| Db.DbProvider.GetAllAccounts | src/providers/db/db.ts:265-298 | the nested loops compute the merge of the history. Names are unique and are exactly those of any month, each with the balances of the latest month holding it |
| Db.DbProvider.MergeAccountInPlace | src/providers/db/db.ts:277-290 | one outer iteration: append a new name, or append the missing transactions to the known account |
| Db.DbProvider.UpdateCategoryAndExpensesIconName | src/providers/db/db.ts:381-398 | the store becomes its re-iconed form |
| Db.DbProvider.UpdateCategoryColor | src/providers/db/db.ts:400-416 | the store becomes its recoloured form |
| Db.DbProvider.UpdateCategoryName | src/providers/db/db.ts:418-436 | the store becomes its renamed form |
| Db.DbProvider.RewriteAllMonths | src/providers/db/db.ts:387-397 | reading every month, rewriting it and writing all back is `RewriteStore` |
| Db.DbProvider.RewrittenDocs | src/providers/db/db.ts:387-396 | the new documents are the rewritten months, in the order read |
| Db.DbProvider.RewriteMonthObject | src/providers/db/db.ts:388-395 | one month's rewrite, with the loop over the expenses' icons |
| Db.DbProvider.BulkDocs | src/providers/db/db.ts:397 | the documents are put in turn |
| Db.BulkRewriteWrites | src/providers/db/db.ts:397 | writing back one rewritten document per stored month, each under its own key, gives exactly the rewritten store |

## Left out

- Sign-in, remote sync and live replication: network I/O. The local database `initSignIn` opens may already hold synced months; the constructor takes its contents as a parameter.
- Document revisions and the `latest`/`force` put options: every put is an unconditional overwrite.
- The user-overview document, which sign-up puts into the same database (db.ts:73). It is not a month, so the store holds months only, and the `accounts` guard of `getAllAccounts` never skips anything in this model.
- Db.DbProvider.RewriteAllMonths: the three category rewrites also read the user-overview document. In the source it is rebuilt as a month snapshot without its `externalAccounts` and written back over itself, or `containsCategory` throws on its missing categories and nothing at all is written. The model rewrites months only and does not capture either outcome.
- History.AddMissing: `getTransactions()` is taken to return the account's own transaction list, so transactions added while merging one month also count when testing the next transaction id of that month. `Account` is not part of this model.
- The mutators and propagators are not awaited in the entry points. The model runs them in order, mutation first.
- Logging and the swallowed errors. A thrown error is modelled as an aborted step: nothing more of it is written.
- `initializeMinAndMaxDate`, `getMinDate`, `getMaxDate`, `getUserOverview`, `saveUserOverview`, `getDb`, `getRangeOfDateTimes`, `getMonthOverview` (a plain alias): date-picker wiring and trivial wrappers. The read-through's call to `initializeMinAndMaxDate` only touches the picker.
- The transaction id generation lives in `Transaction`, which is not part of this model. Ids are given to the operations as parameters.
- The `MonthOverView`, `Account`, `Category` and `Budget` classes are not part of this model. Their methods are modelled from their call sites. The constructor's default categories are a parameter of `SetupFirstMonthOverview`.
- The chart and moment providers. The clock is the `now` parameter; date arithmetic is `Next`/`Prev`.
- JavaScript `number` amounts are modelled as unbounded integers (cents); floating point is not modelled.
- Db.DbProvider.AllDocsDescending: the store's key order is the month index. This matches text order for the four-digit years `Format` covers.
- Db.DbProvider.RewriteAllMonths: the rewrites read the months in ascending key order. The model reads them latest first, which writes the same documents because each month is rewritten on its own.
- Db.DbProvider.AddExpenseToCategory: requires the edited month not to be after the current one. Otherwise the source loop's key test never ends the walk (`MonthKeys.StepsNeverReach`), so it may never stop. It still stops at once when a step throws: the read-through finds neither the month nor the month before and returns nothing, or a month lacks a named account. The same holds for `AddTransfer`, `AddTransferFromExternalAccount` and the propagation loops.
- The external-transfer propagation moves only the receiver's closing balance in later months, as the source does. The chain theorem therefore excludes it, and `PropagationFacts.ExternalUnlinks` shows the break.

## Findings

| source | as written | input that shows it | evidently intended | confidence | as-written member | corrected member |
|---|---|---|---|---|---|---|
| src/providers/db/db.ts:305-308 | the propagation loop fetches each later month through the read-through, which creates a missing month by rollover from the already updated previous month, and then applies the delta to it again | only April stored with Checking at 100, current month May, expense of 20 in April: May is created at 80 and lowered to 60 while April closes at 80 | a month created during propagation already carries the change and gets no delta | medium (not executed; proved under the model's unconditional put; the month created at db.ts:125 carries no revision, so the database may refuse the put at db.ts:316 and end the walk instead) | Scenarios.DoubleCountInCreatedMonth | PropagationFacts.ServiceFixedKeepsChain, Scenarios.CreatedMonthFixed |
| src/providers/db/db.ts:314 | with an old account name, the cost is added back to the paying account's opening balance | any month holding both accounts and an expense with non-zero cost moved from account `old` to account `new`: `old`'s opening balance stays while its closing balance rises | the old account's opening balance rises by the cost | high (proved; not executed; the line is unreachable in this file: the loop is private and its only caller, db.ts:345, passes no old account name, as `Store.DeltaOf` states) | PropagationFacts.OldAccountDeltaAsWritten | LedgerFacts.OldAccountDeltaFixedShifts |

The class methods follow the source as written. `Store.PropagateFixed`, `Store.ServiceFixed` and `Ledger.ApplyDeltaFixed` are the corrected definitions, and the chain theorems are proved about them. `PropagationFacts.ServiceMatchesFixed` shows that the source as written gives the same result whenever no month in the walk is missing, so `PropagationFacts.ServiceKeepsChain` states the chain theorem for the source itself in that case.
