# Quick-Split ledger model

A Dafny model of the core of Quick-Split, a console expense splitter for a
group of users. The model covers:

- **The SQLite database** (`DatabaseManager` and the `UserService`,
  `ExpenseService` and `BalanceService` classes, which issue the same SQL).
  It is one `Ledger` object holding the `users`, `expenses`, `splits` and
  `settlements` tables as sequences of rows, with their AUTOINCREMENT
  counters. Its methods are the JDBC operations:
  - registration, login and user lookup;
  - inserting expenses and splits, and reading them back as `Expense` and
    `Split` objects;
  - deleting an expense with its splits;
  - the two balance queries and their merge into one balance map;
  - the settlement transaction, and the settlement history.
- **The mutable records** `Expense` and `Split` (module `Model`).
- **The console screens' decisions**, with prompts and printing left out:
  - how "Add Expense" turns the typed choices into equal or custom shares,
    with the one-cent tolerance, the proportional auto-adjustment and the
    rounding fix on the creator's share;
  - which split rows its persistence loop writes;
  - which balances the balances screen lists;
  - how the settle screen numbers the debts and picks one;
  - how the subtitle is centred.

The specification functions are in `Balances` (what the queries compute) and
`SplitRules` (what shares are recorded). The lemmas beside them state what
the results mean. Balances are per-pair sums of unpaid splits and are
antisymmetric between two users. A settlement clears exactly the payer's debt
to the receiver and nothing else. Recorded shares total the amount within
one cent.

A failing SQL statement is a boolean parameter chosen by the environment.
A timestamp is an abstract string parameter. What the user types at a prompt
is a parameter of the screen's method. Amounts are exact reals.

Three behaviours of the code are easy to miss, and the model follows them:
- After a custom split is auto-adjusted, the shares total the expense amount
  only within the 0.01 tolerance, not exactly. The rounding fix runs only
  when the rescaled total misses by more than 0.01. This is on exact reals;
  "## Left out" gives an input where Java's doubles still apply the fix.
- Recording an expense and its splits is not atomic. The expense row stays
  when a split insert fails, and later split inserts still run.
- `getExpenseSplits` never sets a split's `expenseId`, and the reads never
  set an expense's `createdById`; both keep Java's default 0.

## Model

| member | source | states |
|---|---|---|
| Common.KeysIncreasingAppend | src/main/java/com/expensesplitter/db/DatabaseManager.java:64-110 | inserting a row with the next AUTOINCREMENT id keeps ids positive, strictly increasing and below the counter |
| Common.KeysIncreasingFilter | src/main/java/com/expensesplitter/db/DatabaseManager.java:64-110 | deleting rows keeps the AUTOINCREMENT id discipline |
| Tables.NameOfInjective | src/main/java/com/expensesplitter/db/DatabaseManager.java:67 | with UNIQUE usernames, two user ids that join to the same username are the same id |
| Tables.UserByNameJoinsBack | src/main/java/com/expensesplitter/db/DatabaseManager.java:162-179 | the user found by username has an id that joins back to that username |
| Balances.OwedToUserByPair | src/main/java/com/expensesplitter/db/DatabaseManager.java:275-293 | the first balance query's group for counterparty c exists iff c has an unpaid split on the user's expenses, and equals the sum of those splits |
| Balances.UserOwesByPair | src/main/java/com/expensesplitter/db/DatabaseManager.java:295-316 | the second balance query's group for creator c exists iff the user has an unpaid split on c's expenses, and equals the sum of those splits |
| Balances.BalanceAt | src/main/java/com/expensesplitter/db/DatabaseManager.java:271-322 | a counterparty is in the balance map iff either still owes the other, and its balance is what it owes the user minus what the user owes it |
| Balances.Antisymmetric | src/main/java/com/expensesplitter/db/DatabaseManager.java:271-322 | b is in a's balances iff a is in b's, and the two balances are negatives of each other |
| Balances.OwedToUserKeys | src/main/java/com/expensesplitter/db/DatabaseManager.java:275-289 | every key of the first query's result is the username of some user other than the querying user |
| Balances.UserOwesKeys | src/main/java/com/expensesplitter/db/DatabaseManager.java:295-309 | every key of the second query's result is the username of some user other than the querying user |
| Balances.BalanceKeys | src/main/java/com/expensesplitter/db/DatabaseManager.java:271-322 | every key of a balance map is another existing user's name, never the user's own |
| Balances.IgnoredSplit | src/main/java/com/expensesplitter/db/DatabaseManager.java:275-316 | a paid split, or a creator's split on their own expense, changes no balance |
| Balances.MarkPaid | src/main/java/com/expensesplitter/db/DatabaseManager.java:338-344 | the settle UPDATE changes only `is_paid`; it is set on exactly the payer's unpaid splits on the receiver's expenses and never cleared |
| Balances.SettleClearsPair | src/main/java/com/expensesplitter/db/DatabaseManager.java:338-344 | after the UPDATE the payer owes the receiver nothing |
| Balances.SettleKeepsOtherPairs | src/main/java/com/expensesplitter/db/DatabaseManager.java:338-344 | every other ordered pair of users keeps exactly what it owed |
| Balances.SettledBalance | src/main/java/com/expensesplitter/db/DatabaseManager.java:325-359 | after settling, the receiver is in the payer's balances iff the receiver still owes the payer, and then with exactly that amount, whatever amount was paid |
| Balances.SettleInvisibleToOthers | src/main/java/com/expensesplitter/db/DatabaseManager.java:338-344 | a settlement leaves every third user's two query results and balance map unchanged |
| Balances.PaidHistoryMembers | src/main/java/com/expensesplitter/service/BalanceService.java:136-157 | the "paid" list holds an entry for every settlement the user paid whose receiver joins a user, and nothing else |
| Balances.ReceivedHistoryMembers | src/main/java/com/expensesplitter/service/BalanceService.java:159-178 | the "received" list holds an entry for every settlement the user received whose payer joins a user, and nothing else |
| Balances.HistoryAppendOnly | src/main/java/com/expensesplitter/service/BalanceService.java:131-183 | recording a settlement only extends each user's history lists; in table order, earlier entries keep their places |
| Model.Split.constructor | src/main/java/com/expensesplitter/model/Split.java:14 | a new split has every field at Java's default and is unpaid |
| Model.Split.Of | src/main/java/com/expensesplitter/model/Split.java:16-21 | stores user id, username and amount; the split starts unpaid |
| Model.Split.SetId | src/main/java/com/expensesplitter/model/Split.java:27-29 | sets the id and only the id |
| Model.Split.SetExpenseId | src/main/java/com/expensesplitter/model/Split.java:35-37 | sets the expense id and only that field |
| Model.Split.SetUserId | src/main/java/com/expensesplitter/model/Split.java:43-45 | sets the user id and only that field |
| Model.Split.SetUsername | src/main/java/com/expensesplitter/model/Split.java:51-53 | sets the username and only that field |
| Model.Split.SetAmount | src/main/java/com/expensesplitter/model/Split.java:59-61 | sets the amount and only that field |
| Model.Split.SetPaid | src/main/java/com/expensesplitter/model/Split.java:67-69 | sets the paid flag and only that field |
| Model.Expense.constructor | src/main/java/com/expensesplitter/model/Expense.java:16-18 | a new expense has an empty split list |
| Model.Expense.SetId | src/main/java/com/expensesplitter/model/Expense.java:24-26 | sets the id and only the id |
| Model.Expense.SetDescription | src/main/java/com/expensesplitter/model/Expense.java:32-34 | sets the description and only that field |
| Model.Expense.SetAmount | src/main/java/com/expensesplitter/model/Expense.java:40-42 | sets the amount and only that field |
| Model.Expense.SetCreatedAt | src/main/java/com/expensesplitter/model/Expense.java:48-50 | sets the creation time and only that field |
| Model.Expense.SetCreatedBy | src/main/java/com/expensesplitter/model/Expense.java:56-58 | sets the creator's name and only that field |
| Model.Expense.SetCreatedById | src/main/java/com/expensesplitter/model/Expense.java:64-66 | sets the creator's id and only that field |
| Model.Expense.SetSplits | src/main/java/com/expensesplitter/model/Expense.java:72-74 | replaces the split list |
| Model.Expense.AddSplit | src/main/java/com/expensesplitter/model/Expense.java:76-78 | appends one split; earlier splits stay in place |
| Model.Expense.GetTotalSplitAmount | src/main/java/com/expensesplitter/model/Expense.java:84-90 | returns the sum of the split amounts in list order, 0 for no splits |
| Model.AddSplitTotal | src/main/java/com/expensesplitter/model/Expense.java:76-90 | adding a split raises the total by exactly its amount |
| LedgerStore.LoadSplit | src/main/java/com/expensesplitter/service/ExpenseService.java:96-101 | a new split object carries the row's id, user id, amount and paid flag and the joined username; its expense id stays 0 |
| LedgerStore.Ledger.constructor | src/main/java/com/expensesplitter/db/DatabaseManager.java:60-114 | a new database has four empty tables that satisfy the key and UNIQUE constraints |
| LedgerStore.Ledger.RegisterUser | src/main/java/com/expensesplitter/db/DatabaseManager.java:128-140 | succeeds iff the statement does not fail and neither username nor email is taken; then exactly one row with the next id is appended, otherwise nothing changes |
| LedgerStore.Ledger.AuthenticateUser | src/main/java/com/expensesplitter/db/DatabaseManager.java:142-160 | returns a user iff some row has both the username and the password; that user has the row's id and email and no password |
| LedgerStore.Ledger.GetUserByUsername | src/main/java/com/expensesplitter/db/DatabaseManager.java:162-179 | returns a user iff some row has the username, and then it is that row's user |
| LedgerStore.Ledger.GetAllUsers | src/main/java/com/expensesplitter/service/UserService.java:78-96 | one user per row, in table order, with the row's id, username and email |
| LedgerStore.Ledger.AddExpense | src/main/java/com/expensesplitter/db/DatabaseManager.java:182-198 | returns -1 iff the insert fails, and then nothing changes; otherwise it returns a fresh positive id that no earlier row has, and exactly that row is appended |
| LedgerStore.Ledger.AddSplit | src/main/java/com/expensesplitter/db/DatabaseManager.java:200-212 | succeeds iff the insert does not fail; then exactly one unpaid row with the next id is appended, otherwise nothing changes |
| LedgerStore.Ledger.GetExpenseSplits | src/main/java/com/expensesplitter/db/DatabaseManager.java:244-268 | one new split object per split row of the expense whose participant joins a user, in table order |
| LedgerStore.Ledger.GetUserExpenses | src/main/java/com/expensesplitter/db/DatabaseManager.java:214-242 | one new expense object per expense the user created (if the user exists), in table order, each carrying its own splits |
| LedgerStore.Ledger.LoadExpense | src/main/java/com/expensesplitter/service/ExpenseService.java:122-130 | a new expense object carries the row's fields, the creator's name and the objects of that expense's splits |
| LedgerStore.Ledger.GetExpenseById | src/main/java/com/expensesplitter/service/ExpenseService.java:112-139 | null iff no expense with that id joins its creator; otherwise that expense with its splits |
| LedgerStore.Ledger.DeleteExpense | src/main/java/com/expensesplitter/service/ExpenseService.java:141-170 | on success the expense's splits and the expense are both gone and every other row stays; if either delete fails, the rollback leaves both tables unchanged |
| LedgerStore.Ledger.GetUserBalances | src/main/java/com/expensesplitter/db/DatabaseManager.java:271-322 | the put loop and the merge loop build exactly the balance map (owed minus owes per counterparty) whose meaning the Balances lemmas state |
| LedgerStore.Ledger.SettleDebt | src/main/java/com/expensesplitter/db/DatabaseManager.java:325-359 | succeeds iff both statements succeed; then exactly one settlement row is appended and exactly the payer's unpaid splits on the receiver's expenses become paid; otherwise both tables are rolled back |
| LedgerStore.Ledger.GetSettlementHistory | src/main/java/com/expensesplitter/service/BalanceService.java:131-183 | the map always has exactly the keys "paid" and "received", holding the two history lists |
| LedgerStore.Ledger.PaidSettlements | src/main/java/com/expensesplitter/service/BalanceService.java:136-157 | the loop over the first history query yields exactly the "paid" list |
| LedgerStore.Ledger.ReceivedSettlements | src/main/java/com/expensesplitter/service/BalanceService.java:159-178 | the loop over the second history query yields exactly the "received" list |
| SplitRules.RoundCents | src/main/java/com/expensesplitter/ui/ConsoleUI.java:258 | rounding to cents gives a whole number of cents within half a cent of the input |
| SplitRules.EqualShares | src/main/java/com/expensesplitter/ui/ConsoleUI.java:189-192 | n equal shares of amount / n that add up to the amount |
| SplitRules.Rescaled | src/main/java/com/expensesplitter/ui/ConsoleUI.java:256-259 | every rescaled share is a whole number of cents within half a cent of its exact proportional value, and the list keeps its length |
| SplitRules.Adjusted | src/main/java/com/expensesplitter/ui/ConsoleUI.java:263-274 | only share 0 can change; a total within 0.01 is left alone; otherwise the total becomes exactly the amount; either way the total ends within 0.01 |
| SplitRules.CustomShares | src/main/java/com/expensesplitter/ui/ConsoleUI.java:243-276 | entered shares within 0.01 of the amount are kept as typed; an auto-adjusted split also ends within 0.01 of the amount |
| SplitRules.Written | src/main/java/com/expensesplitter/ui/ConsoleUI.java:301-312 | the shares the persistence loop writes, at most one per participant; WrittenMembers and WrittenAll state which ones |
| SplitRules.WrittenMembers | src/main/java/com/expensesplitter/ui/ConsoleUI.java:301-312 | a share is written iff its participant is attempted and its insert succeeds; a failure does not stop the later inserts |
| SplitRules.SplitRowsKeepKeys | src/main/java/com/expensesplitter/db/DatabaseManager.java:200-212 | writing the split rows of one expense, with ids drawn from the AUTOINCREMENT counter, keeps the splits table's ids positive, strictly increasing and below the advanced counter |
| SplitRules.SplitRowsAppend | src/main/java/com/expensesplitter/db/DatabaseManager.java:200-212 | writing one more share appends one more row with the next id |
| SplitRules.NoneFailedAt | src/main/java/com/expensesplitter/ui/ConsoleUI.java:301-312 | the all-added flag stays true iff no attempted insert so far failed; the skipped creator's slot is never looked at |
| SplitRules.WrittenAll | src/main/java/com/expensesplitter/ui/ConsoleUI.java:301-312 | with no failed insert, every attempted participant's share is written, in participant order after a skipped creator |
| SplitRules.WrittenTotal | src/main/java/com/expensesplitter/ui/ConsoleUI.java:301-312 | with no failed insert, the written shares add up to all shares minus a skipped creator's share |
| SplitRules.EqualSplitPersistsOthersShares | src/main/java/com/expensesplitter/ui/ConsoleUI.java:187-192 | an equal split with no failed insert writes rows totalling the amount minus the creator's own share |
| SplitRules.FillEqualShares | src/main/java/com/expensesplitter/ui/ConsoleUI.java:189-192 | the array holds the equal split of the amount |
| SplitRules.EnterShares | src/main/java/com/expensesplitter/ui/ConsoleUI.java:214-240 | the array holds the shares as entered and the running total is their sum |
| SplitRules.Total | src/main/java/com/expensesplitter/ui/ConsoleUI.java:263-267 | the loop's total is the sum of the array |
| SplitRules.Rescale | src/main/java/com/expensesplitter/ui/ConsoleUI.java:256-259 | each array slot is replaced in place by its scaled, cent-rounded share |
| SplitRules.AutoAdjust | src/main/java/com/expensesplitter/ui/ConsoleUI.java:254-276 | the array ends as the adjusted rescaled shares, whose total is within 0.01 of the amount |
| Console.JavaDiv | src/main/java/com/expensesplitter/ui/ConsoleUI.java:542 | Java's int division truncates toward zero: the remainder has the dividend's sign and is smaller than the divisor |
| Console.SubtitleLine | src/main/java/com/expensesplitter/ui/ConsoleUI.java:540-552 | the framed subtitle preceded only by spaces; centred within one column in an 80-column console when it fits; no padding when it is 79 or more wide |
| Console.LineFor | src/main/java/com/expensesplitter/ui/ConsoleUI.java:342-346 | a line is shown iff the balance is non-zero; it says "owes you" iff the balance is positive, with the absolute amount |
| Console.ListBalances | src/main/java/com/expensesplitter/ui/ConsoleUI.java:338-347 | exactly one line per non-zero balance, each with its own counterparty and amount, no counterparty twice |
| Console.CollectDebts | src/main/java/com/expensesplitter/ui/ConsoleUI.java:370-386 | the arrays' first count slots hold each debt exactly once with its absolute amount; count is the number of debts |
| Console.ListedDebtsCount | src/main/java/com/expensesplitter/ui/ConsoleUI.java:370-386 | once every balance is visited, the listed names are exactly the debts, each with its absolute amount and each once, so there is one entry per debt |
| Console.NegativeChoicePassesGuard | src/main/java/com/expensesplitter/ui/ConsoleUI.java:398-405 | the guard as written lets every negative choice through, to the array index `choice - 1`, which is below 0 |
| Console.Selection | src/main/java/com/expensesplitter/ui/ConsoleUI.java:395-405 | a debt is picked iff 1 <= choice <= count, and its index is then in range |
| Console.SelectionAgreesOnNonNegative | src/main/java/com/expensesplitter/ui/ConsoleUI.java:398-405 | the corrected guard agrees with the guard as written on every non-negative choice |
| Console.ParticipantIdsNamed | src/main/java/com/expensesplitter/ui/ConsoleUI.java:183-210 | the creator is participant 0, and each further participant is the id of a user row with the typed name |
| Console.RecordedShares | src/main/java/com/expensesplitter/ui/ConsoleUI.java:187-285 | one share per participant, totalling the amount within 0.01 |
| Console.CounterpartyResolves | src/main/java/com/expensesplitter/ui/ConsoleUI.java:412 | a counterparty name from the balance map always resolves by username, to a user other than the payer whose id joins back to that name |
| Console.ConsoleUI.constructor | src/main/java/com/expensesplitter/ui/ConsoleUI.java:19-22 | a console over the given database with nobody logged in |
| Console.ConsoleUI.Login | src/main/java/com/expensesplitter/ui/ConsoleUI.java:105-125 | succeeds iff some user has these credentials, and then that user is logged in; a failed login keeps the previous user |
| Console.ConsoleUI.Logout | src/main/java/com/expensesplitter/ui/ConsoleUI.java:461-465 | nobody is logged in afterwards |
| Console.ConsoleUI.ViewBalances | src/main/java/com/expensesplitter/ui/ConsoleUI.java:322-351 | "no outstanding balances" iff the balance map is empty; otherwise exactly one line per non-zero balance, matching its sign and absolute amount, no counterparty twice |
| Console.ConsoleUI.Register | src/main/java/com/expensesplitter/ui/ConsoleUI.java:127-148 | registration succeeds iff the insert does not fail and neither name nor email is taken; then exactly the new row is appended |
| Console.ConsoleUI.ResolveParticipants | src/main/java/com/expensesplitter/ui/ConsoleUI.java:194-210 | the id array becomes the participant ids: the creator, then each typed name's user |
| Console.ConsoleUI.EnterSplit | src/main/java/com/expensesplitter/ui/ConsoleUI.java:187-290 | the screen goes on to record iff the split type is valid and the custom total is within 0.01 or auto-adjusted; it then leaves the participant ids and the recorded shares in the arrays; otherwise it reports an invalid type, a restart or a cancel |
| Console.ConsoleUI.PersistSplits | src/main/java/com/expensesplitter/ui/ConsoleUI.java:300-312 | appends exactly the rows of the written shares; the flag is true iff no attempted insert failed |
| Console.ConsoleUI.Record | src/main/java/com/expensesplitter/ui/ConsoleUI.java:292-312 | no row at all when the expense insert fails; otherwise the expense row and then exactly the written split rows |
| Console.ConsoleUI.AddExpense | src/main/java/com/expensesplitter/ui/ConsoleUI.java:150-320 | each early exit (too few users, invalid type, restart, cancel, failed insert) happens exactly under its condition and writes nothing; otherwise the expense and the split rows of the recorded shares are appended |
| Console.ConsoleUI.SettleWith | src/main/java/com/expensesplitter/ui/ConsoleUI.java:411-420 | settles with the counterparty's user; on success the user no longer owes the receiver, and the receiver stays only with what it still owes the user |
| Console.ConsoleUI.SettleDebts | src/main/java/com/expensesplitter/ui/ConsoleUI.java:353-425 | each ending happens exactly under its condition; a settlement uses a listed debt's absolute amount and clears the user's debt to that receiver; every other ending writes nothing; on every non-negative choice it cancels exactly when the guard as written does |

## Left out

- `DatabaseHelper`, `Main`, the `Transaction` record, and the connection set-up and close in `DatabaseManager` are not part of this model.
- Console I/O is not modelled: printing, prompts, `clearScreen`, `sleep`, `exit`, `displayMainTitle` and the menu loops. Typed values arrive as parameters.
- The expense-history screen (`viewExpenseHistory`) only prints, so it is not modelled.
- Amounts are exact reals, not IEEE doubles. The 0.01 tolerance comparison, `Math.round` and `amount / numUsers` are therefore exact. Double rounding near the 0.01 boundary is not captured. For example, custom shares 40, 40 and 10 of 100 rescale to 44.44, 44.44 and 11.11. On exact reals their total 99.99 is within the tolerance, so the model records them unchanged. In doubles `99.99 - 100` is slightly more than 0.01 in magnitude, so Java applies the rounding fix and records 44.45, 44.44 and 11.11.
- Console.ConsoleUI.SettleDebts: the screen checks the choice with the corrected guard (`Console.Selection`), so a negative choice cancels. In the code a negative choice passes the guard and `usernames[choice - 1]` throws an uncaught `ArrayIndexOutOfBoundsException` that ends the program; `Console.NegativeChoicePassesGuard` states that the guard lets it through. For every non-negative choice the screen's contract agrees with the guard as written.
- Console.ConsoleUI.AddExpense: requires a non-zero entered total when the user picks the automatic adjustment. In Java that division by zero gives an infinite or NaN factor, which the model does not represent.
- Console.ConsoleUI.AddExpense: choice 2 on the mismatch menu restarts the screen recursively. The model returns `Restarted` and leaves the new attempt to the caller.
- Console.ConsoleUI.AddExpense: the re-prompt loop for an unknown participant name is replaced by a requirement that every typed name resolves (`AllResolve`).
- Console.ConsoleUI.AddExpense: the `usernames` array is used only for display, so it is not modelled.
- `ORDER BY created_at DESC` / `settled_at DESC` is not modelled. Reads return rows in table order.
- Read queries assume success. Their `SQLException` paths (an empty list, `null` or an empty map) are not modelled.
- Failures of `setAutoCommit`, and of the rollback itself, are not modelled.
- Database-level ids are unbounded integers. The 32-bit overflow of Java `int` ids is not modelled.
- Foreign keys are not assumed to be enforced. Joins with `users` drop rows whose referent is missing, as an inner join does.
- A `NULL` email, which SQLite's UNIQUE lets repeat, is not modelled. Emails are strings.
- Java `null` strings in new `Expense` and `Split` objects are modelled as the empty string.
- Getters are plain field reads. `toString` is not modelled.
- `getSplits` returns the list object itself, and callers could mutate it. This aliasing is not modelled; the list is a `seq` field.
- Passwords are stored and compared as plain text, as in the source. Hashing is not modelled.
- LedgerStore.Ledger.GetUserBalances: the `HashMap` iteration order is not modelled. The loops pick keys in an unspecified order, and the result is the same map whatever the order.

## Findings

| source | as written | input that shows it | evidently intended | confidence | as-written member | corrected member |
|---|---|---|---|---|---|---|
| src/main/java/com/expensesplitter/ui/ConsoleUI.java:398-405 | the guard `choice == 0 \|\| choice > count` lets a negative choice through to `usernames[choice - 1]` | choice = -1 gives index -2, which throws `ArrayIndexOutOfBoundsException` | only `1 <= choice <= count` selects a debt, and every other choice cancels, as the "0 to cancel" prompt and the "invalid selection" message say | not executed | Console.NegativeChoicePassesGuard | Console.Selection |
