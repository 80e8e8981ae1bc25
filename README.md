# Pledge ledger

A Dafny model of the pledge server in `backend.js`. The server records
"pledges" of an amount by a public key. It never lets one key's total
exceed the wallet balance sent with the pledge that would push it over.
It answers three routes:

- `POST /pledgesDB` validates the body, sums what the key has already
  pledged (a missing sum counts as 0), refuses the pledge when
  `prior + amount > walletBalance`, and otherwise inserts one row
  `(publicKey, amount)`. The walletBalance itself is never stored.
- `GET /pledgesDB` returns at most 10 rows, ordered by `created_at`,
  newest first.
- `GET /total-pledged` returns the sum of every amount, 0 for an empty table.

The MySQL table `pledges` is modelled as a sequence of rows
`Pledge(id, publicKey, amount, createdAt)`, held in the `rows` field of a
`Ledger` object. `Submit` appends to it in place. The two GET routes are
functions over it.

Modules, one per part of the handler code:

- `PledgeRequest` (`Request.dfy`): the JSON body, JavaScript truthiness
  (`!v`), and the two input checks (`Check`).
- `PledgeTable` (`Table.dfy`): rows, per-key and global sums, SQL's NULL
  result of `SUM` over no rows, and the `|| 0` that turns it into 0.
- `RecentPledges` (`Recent.dfy`): `ORDER BY created_at DESC LIMIT 10`.
- `PledgeLedger` (`Ledger.dfy`): the `Ledger` class with `Submit`,
  `ListRecent` and `TotalPledged`. It also holds `Answer` and `TableAfter`,
  which specify `Submit`, and the lemmas about them.

`Ledger.Valid()` is the object invariant. It says that ids rise strictly in
insertion order (AUTO_INCREMENT). It also carries the budget rule over the
whole table through a ghost map `ceiling`. For every key with rows,
`ceiling` holds the walletBalance of the latest submission that inserted a
row for it. That key's total never exceeds it. Each `Submit` keeps this
invariant.

Inputs that the server gets from outside are parameters:

- the `created_at` stamp the database assigns (`now`);
- which storage call throws, if any (`fault`: the connection, the SUM
  query, the INSERT, or the `connection.end()` reached after the budget
  test; each throw is caught and answered 500).

Outcomes correspond to responses as follows:

| outcome | status | error text |
|---|---|---|
| `Created(pledge)` | 201 | — (body: `publicKey`, `amount`, `timestamp`; `pledge` is the stored row, see "Left out") |
| `Invalid(MissingField)` | 400 | `Public key and amount are required.` |
| `Invalid(BadBalance)` | 400 | `walletBalance is required and must be a number.` |
| `BudgetExceeded` | 400 | `Pledge exceeds your total wallet balance.` |
| `StorageError` | 500 | `Internal server error.` |

Where the code and the system's design description differ, the model
follows the code:

- A negative `amount` is accepted. Only `0`, `""`, `null`, `false` and a
  missing member are falsy. The design description calls amounts positive.
- A failing `connection.end()` after a successful INSERT answers 500, yet
  the row stays written (`TableAfter` with `fault == AtRelease`). The
  design description says a failed submission never writes.
- MySQL does not fix the order among rows with equal `created_at`. The
  model sorts them in one particular order, but no contract depends on it.
  The design description breaks such ties by id.

## Model

| member | source | states |
|---|---|---|
| PledgeRequest.Check | backend.js:35-46 | Built on `Falsy` (the `!v` of backend.js:37). A falsy `publicKey` or `amount` gives the "required" error, whatever `walletBalance` is. A truthy pair with a non-number `walletBalance` gives the walletBalance error. A body is accepted exactly when the key is a non-empty string, the amount a non-zero number and the balance a number, and the accepted values are those of the body. |
| PledgeRequest.IllTypedBodiesRejected | backend.js:37-45 | A numeric key with a zero amount gets the "required" error, and a string amount with a string balance gets the walletBalance error: such bodies are inside the modelled domain. |
| PledgeTable.Where | backend.js:54 | Keeps exactly the rows whose key matches (or, for `matching == false`, does not match), each as many times as it occurs in the table. |
| PledgeTable.SumWhere | backend.js:53-56 | The per-key SUM is NULL exactly when no row has that key; otherwise it is the sum over that key's rows. |
| PledgeTable.PriorTotal | backend.js:53-58 | Built on `SumWhere` and `OrZero` (the "or 0" default of backend.js:58). Reading back the per-key SUM with the "or 0" default equals the sum of `amount` over exactly the key's rows, and is 0 when the key has none. |
| PledgeTable.GrandTotal | backend.js:115-119 | Built on `SumAll` (backend.js:116) and `OrZero` (backend.js:119). Reading back the global SUM with the "or 0" default equals the sum of all amounts, and is 0 on an empty table. |
| PledgeTable.TotalAppend | backend.js:70-73 | Inserting a row raises the sum of all amounts by exactly that row's amount. |
| PledgeTable.WhereAppend | backend.js:70-73 | An inserted row joins the selection for its own key and no other. |
| PledgeTable.KeyTotalAppend | backend.js:53-73 | Inserting a row raises its own key's total by its amount and leaves every other key's total unchanged. |
| PledgeTable.TotalSplitsByKey | backend.js:115-119 | The global sum is a key's sum plus the sum of all rows with another key. |
| RecentPledges.InsertNewestFirst | backend.js:98 | Inserting into a newest-first sequence keeps it newest-first and adds exactly that row. |
| RecentPledges.ConsNewestFirst | backend.js:98 | A row no older than the head of a newest-first sequence may be put in front of it. |
| RecentPledges.SortNewestFirst | backend.js:96-98 | `ORDER BY created_at DESC` gives a permutation of the table whose stamps never increase. |
| RecentPledges.SplitLeavesRest | backend.js:99 | The rows that `LIMIT` cuts off are exactly those past the limit. |
| RecentPledges.PrefixIsNewest | backend.js:98-99 | A prefix of a newest-first sequence is newest-first, is drawn from it, and nothing left out is newer than anything kept. |
| RecentPledges.Recent | backend.js:95-100 | The query returns the smaller of the table size and 10 rows, drawn from the table, newest first, and no row left out is newer than a row returned. |
| RecentPledges.SortOfInsertionOrder | backend.js:96-98 | When stamps strictly rise with insertion, the ordered table is the table reversed. |
| RecentPledges.RecentOfInsertionOrder | backend.js:95-100 | When stamps strictly rise with insertion, the query returns the rows inserted last, up to 10 of them, latest first. |
| PledgeLedger.Answer | backend.js:33-86 | Built on `Check` and `WithinBudget` (the negated test of backend.js:61). The response to a submission. Input errors are reported whatever the storage does. It is 201 exactly when the body is valid, no storage call throws and the new total is within the balance; the 201 carries the key, the amount, the next id and the stamp. It is the budget error exactly when the body is valid, the pledge is over budget, and neither the connection nor the SUM nor the `connection.end()` throws. It is 500 in every remaining case of a valid body. |
| PledgeLedger.TableAfter | backend.js:61-73 | The table grows by exactly one row when the INSERT runs, and by none otherwise; earlier rows never change. A 201 stored the row it returns, without any walletBalance. Every 400, and every 500 except a failing `connection.end()` after the INSERT, leaves the table unchanged. |
| PledgeLedger.SubmitKeepsBudget | backend.js:61-73 | After an inserting submission, the key's total is at most the walletBalance sent with it. |
| PledgeLedger.SubmitTotals | backend.js:70-73 | A submission raises its key's total and the grand total by exactly its amount when it inserts, and changes no total otherwise. |
| PledgeLedger.SubmitTwice | backend.js:70-73 | The same valid body sent twice within budget is stored as two rows and counts twice: no deduplication. |
| PledgeLedger.BudgetScenario | backend.js:53-73 | With a balance of 100: 40 is accepted, 70 refused, 60 accepted (total 100), then 1 refused. |
| PledgeLedger.AppendKeepsIds | backend.js:70-73 | A row given the next id keeps ids strictly rising and below the next id. |
| PledgeLedger.AppendKeepsCeilings | backend.js:61-73 | An insert admitted by the budget test keeps every key's total within its latest admitted walletBalance. |
| PledgeLedger.Ledger.ListRecent | backend.js:89-108 | `GET /pledgesDB` on the ledger's table: at most 10 rows, from the table, newest first, none left out newer than one returned. |
| PledgeLedger.Ledger.TotalPledged | backend.js:112-125 | `GET /total-pledged`: the sum of all amounts, 0 on an empty table, and for every key that key's total plus the rest. |
| PledgeLedger.Ledger.Insert | backend.js:70-73 | Appends exactly one row with the next id, the key, the amount and the stamp, and keeps the ledger invariant. |
| PledgeLedger.Ledger.Submit | backend.js:33-86 | Keeps the invariant (per-key totals within their ceilings, ids rising). Returns `Answer`, leaves the table as `TableAfter`, advances the id exactly when a row is inserted, and records the balance as the key's ceiling only then. |

## Left out

- Express setup, CORS, JSON body parsing and `app.listen` (backend.js:13-20, 127-131): framework wiring.
- MySQL configuration and connection lifecycle (backend.js:22-30 and the `createConnection`/`end` calls): only their failures are modelled, as `StorageFault`.
- The 500 path of the two GET routes: a failing query there changes nothing and only produces an error response.
- `console.error` logging and the `timestamp: new Date()` of the 201 response: output and wall-clock time.
- The HTTP status codes and error texts: listed in the table of outcomes above, not modelled as a function.
- Concurrent requests: the model is sequential. Two overlapping submissions for one key can both pass the budget test before either inserts, because the SUM and the INSERT are separate statements outside a transaction. The per-key invariant holds only for submissions that run one after another.
- PledgeRequest.Check: requires, only of bodies that pass both checks (truthy `publicKey` and `amount`, numeric `walletBalance`), that the key is a string and the amount a number. Every other body gets its 400 in the model as in the source. Past the checks the source relies on JavaScript's `+`, which may concatenate strings, and on MySQL's type coercion; neither is modelled.
- PledgeLedger.Answer: inherits that requirement on the body from `Check`.
- PledgeLedger.TableAfter: inherits that requirement on the body from `Check`.
- PledgeLedger.Ledger.Submit: inherits that requirement on the body from `Check`.
- JavaScript numbers: amounts and balances are exact reals. Floating-point rounding is not modelled, and neither is mysql2 returning `SUM` as a decimal string. Nor is overflow: `JSON.parse` reads a literal such as `1e400` as `Infinity`, so a `walletBalance` of that size admits every finite amount at backend.js:61, while the model has no infinite value.
- PledgeTable.Where: keys compare by exact string equality, as under a binary collation. `WHERE publicKey = ?` (backend.js:54) compares under the column's collation, and a case-, accent- or trailing-space-insensitive one would merge keys the model keeps apart. The table definition is not part of the source.
- PledgeTable.Where: a stored amount is exactly the amount that passed the budget test. The INSERT (backend.js:70-73) stores it rounded to the column's type, and rounding up could put a key's stored total above the walletBalance admitted at backend.js:61. The column type is not part of the source.
- PledgeLedger.Answer: `Created` carries the stored row (id, key, amount, `created_at`) rather than the 201 body, which sends only `publicKey`, `amount` and a wall-clock `new Date()` and never reads the insert id (backend.js:76-81).
- The id sequence starts at 1 for an empty table. The constructor stands for a freshly created table; table creation is not part of the source.
