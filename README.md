# Installment ledger — a verified model

This project models the business logic of a small installment-payment web
application (a Flask app over SQL Server). The app keeps three tables:
Customers, Contracts and Installments. It offers three pieces of logic, and
the model covers all three.

- **Creating a contract** (`add_new`) inserts a customer, then a contract
  for that customer, then one installment per month, all in one database
  transaction. Installment `i` falls due `i + 1` calendar months after the
  start date, and each one is for the total divided by the month count. Any exception
  rolls the transaction back.
- **Paying an installment** (`pay_installment`) is one UPDATE of the row
  with the given id. The row becomes paid, its paid amount becomes its full
  amount, and it is stamped with the current time. Errors are swallowed.
- **The summary on the index page** has three aggregates over the
  Installments table: Collected, Pending and Late. Each one falls back to 0
  on an empty table.

Modules:

- `Wrappers`: `Option` and `Result`. `Option` stands for a SQL NULL and
  `Result` for an exception.
- `Dates`: dates as (year, month, day) triples with datetime's range, and
  month addition as the `dateutil` library's relative offsets perform it.
  - The relativedelta library is not part of this model. Its behaviour is
    an assumption: the offset is split into years and months, the month
    carries into the year, and the day is clamped to the last day of the
    target month under the Gregorian leap-year rule.
  - A year past 9999 raises, as `datetime.replace` does.
  - `Instant` stands for the database's current time, which is passed in as a
    parameter.
- `Amounts`: exact real sums. Amounts are reals instead of Python floats.
- `Schedule`: the schedule that the `add_new` loop produces, as a pure
  function.
- `Tables`: the row records, the well-formedness invariant and the
  single-statement effects.
  - The invariant covers unique identity values, resolving foreign keys and
    the unpaid/paid row states.
  - The single-statement effects are the three INSERTs and the pay UPDATE.
- `Summary`: the aggregate query of the index page, with SQL's NULL-on-empty
  sums and the fallback to 0.
- `Ledger`: a class holding the three tables and their identity counters.
  - `AddContract` is `add_new`: the division, then the transaction, then
    the rollback on failure. `Transact` runs the transaction's statements,
    `InsertInstallments` is its month loop, and each INSERT statement is its
    own method.
  - The spec function `TransactionFailure` gives the exception `add_new`
    meets first, if any.
  - The spec function `Executed` gives the tables when the transaction
    stops, before any rollback.
  - `Pay` is `pay_installment`. Its UPDATE is `UpdateInstallments`, a scan
    that changes the matching rows in place.

Modelling assumptions:

- Database failures are parameters:
  - `failing` gives the number of the statement of the `add_new`
    transaction that the database refuses, if any. The statements are
    numbered in the order they are issued: the customer INSERT is 0, the
    contract INSERT 1, the INSERT of installment i is 2 + i, and the COMMIT
    comes last, at 2 + the number of installments.
  - `unavailable` says whether the pay UPDATE or its commit fails.
- New installment rows start with `IsPaid = 0`, `PaidAmount = 0` and a NULL
  `PaymentDate`. The repository does not show these column defaults.
- Identity columns start at 1 and increase. A rollback does not give back
  identity values already handed out, as with SQL Server's IDENTITY.
- Due dates carry the time 00:00, because the start date is parsed without
  a time of day. So a due date counts as past on the due day itself, once
  that day has begun.

Behaviour of the code that the model keeps:

- A negative month count raises nothing. The month loop then runs no times, so
  the customer and the contract are committed with no installments (see
  `Schedule.NegativeMonthsGiveEmptySchedule`). The total amount is never
  checked for sign either.
- Every due date is computed from the start date, not from the previous
  due date. With day
  clamping the two differ: from 2024-01-31 the second row is due
  2024-03-31, not 2024-03-29 (see `Schedule.DueDatesAnchoredToStart`).
- Pay has no existence check and no already-paid guard. Paying an unknown
  id changes nothing, and paying twice re-stamps `PaymentDate`.
- When a due date and a refused INSERT would fail on the same row, the due
  date fails first, because it is computed before its INSERT is issued.

## Model

| member | source | states |
|---|---|---|
| `Dates.AddMonths` | app.py:98 | adding n months succeeds exactly when the result stays within year 9999; the result is exactly n calendar months later and keeps the day of month, or the month's last day when the day does not exist there |
| `Dates.DueBefore` | app.py:43 | the late test on a due date at midnight holds exactly when that midnight precedes the current instant: on any earlier day, and on the due day itself from its first tick on |
| `Schedule.DueDate` | app.py:98 | row i falls due i + 1 calendar months after the start date, on the same day or the month's last day, and strictly after the start date |
| `Schedule.Share` | app.py:79 | the monthly amount `total / months`, taken `months` times, gives back the total |
| `Schedule.Generate` | app.py:79-101 | division by zero exactly when months is 0; otherwise a schedule exists exactly when every due date stays in range; it has `max(months, 0)` rows, each for the share `total / months`, row i due i + 1 calendar months after the start, day clamped |
| `Schedule.DueDatesIncrease` | app.py:97-98 | due dates strictly increase, and consecutive rows fall in consecutive calendar months |
| `Schedule.FirstDueOneMonthAfterStart` | app.py:97-98 | the first installment is due one calendar month after the start date, so strictly after it |
| `Schedule.AmountsSumToTotal` | app.py:79 | for months ≥ 1 the installment amounts add up exactly to the contract total |
| `Schedule.NegativeMonthsGiveEmptySchedule` | app.py:97 | a negative month count yields an empty schedule and no error |
| `Schedule.TwelveMonthExample` | app.py:79-101 | 1200 over 12 months from 2024-01-15 gives twelve rows of 100 due 2024-02-15 … 2025-01-15 |
| `Schedule.DueDatesAnchoredToStart` | app.py:98 | from 2024-01-31 the rows fall due 2024-02-29 then 2024-03-31, which is not one month after 2024-02-29 |
| `Tables.InsertCustomer` | app.py:85-89 | the customer table gains exactly one row at its end, carrying the next identity value and the given name and phone; the counter advances by one; nothing else changes |
| `Tables.InsertContract` | app.py:91-95 | the contract table gains exactly one row at its end, carrying the next identity value, the customer id, item, total and start date; the counter advances by one; nothing else changes |
| `Tables.InsertInstallment` | app.py:99-102 | the installment table gains exactly one unpaid row at its end (PaidAmount 0, PaymentDate NULL), carrying the next identity value, the contract id and the entry's due date and amount; the counter advances by one; nothing else changes |
| `Tables.InsertCustomerKeepsWellFormed` | app.py:85-89 | the new customer's id is fresh, it joins the customer ids, and the tables stay well formed |
| `Tables.InsertContractKeepsWellFormed` | app.py:91-95 | a contract referencing an existing customer gets a fresh id and keeps the tables well formed |
| `Tables.InsertInstallmentKeepsWellFormed` | app.py:99-102 | an unpaid installment of an existing contract keeps the tables well formed |
| `Tables.PayRow` | app.py:114-120 | a row whose id matches becomes paid with PaidAmount = Amount and the new stamp; any other row is unchanged; id, contract, due date and amount never change; a row in one of the two valid states stays in one |
| `Tables.PayRows` | app.py:114-120 | the table keeps its length and order; only rows whose id matches change, and each becomes paid with PaidAmount = Amount and the new stamp, keeping its id, contract, due date and amount |
| `Tables.PayMissingIdIsNoOp` | app.py:119 | paying an id no row has leaves the table unchanged |
| `Tables.PayIsSingleRowUpdate` | app.py:119 | with unique ids, paying the id of row j updates row j alone |
| `Tables.PayAgainOnlyRestamps` | app.py:116-118 | paying twice is paying once with the later stamp; the second payment changes only PaymentDate |
| `Tables.PayPreservesWellFormed` | app.py:114-120 | paying keeps ids, foreign keys and the unpaid/paid row states intact |
| `Tables.RolledBackIsWellFormed` | app.py:106-107 | restoring the rows of well-formed tables while keeping identity counters that only advanced leaves the tables well formed |
| `Summary.Summarize` | app.py:39-45 | each figure is the plain sum of its column, so an empty table gives (0, 0, 0) and never NULL; Collected + Pending equals the sum of all amounts |
| `Summary.LateWithinPending` | app.py:42-43 | in well-formed tables with non-negative amounts, 0 ≤ Late ≤ Pending |
| `Summary.PaySummary` | app.py:41-43 | paying a row moves what it still owed from Pending to Collected, and removes it from Late if it was late |
| `Summary.SummaryOfAppend` | app.py:41-43 | all three figures add up over a split of the table |
| `Summary.NewRowsSummary` | app.py:99-101 | freshly inserted rows contribute nothing to Collected and their amounts to Pending |
| `Summary.NewContractSummary` | app.py:97-101 | a new contract with months ≥ 1 raises Pending by exactly its total and leaves Collected unchanged |
| `Ledger.TransactionFailureMatchesSchedule` | app.py:79-108 | the transaction commits exactly when the schedule can be computed and no statement up to the COMMIT is refused; a schedule error it reports is the schedule computation's own |
| `Ledger.Ledger.Rollback` | app.py:106-107 | every table returns to the transaction's starting rows; the identity counters keep the values already handed out; the tables stay well formed |
| `Ledger.Ledger.InsertCustomerRow` | app.py:85-89 | appends one customer with the next identity value and returns that id |
| `Ledger.Ledger.InsertContractRow` | app.py:91-95 | appends one contract for the given customer with the next identity value and returns that id |
| `Ledger.Ledger.InsertInstallmentRow` | app.py:99-102 | appends one unpaid installment row for the given contract |
| `Ledger.Ledger.InsertScheduleRow` | app.py:98-102 | one loop iteration's INSERT extends the inserted part of the schedule by its next row |
| `Ledger.Ledger.InsertInstallments` | app.py:97-102 | fails exactly when some row before the last cannot be inserted; the first failing row k is the first whose due date passes 9999 or whose INSERT is refused, the due date winning a tie; the rows before k (all rows on success) are inserted in order, and the error names row k |
| `Ledger.Ledger.Transact` | app.py:84-104 | runs the customer INSERT, the contract INSERT, the installment loop and the COMMIT up to the first refused statement; the error is exactly the first one `add_new` meets; the tables afterwards hold exactly the rows of the statements that ran before it: nothing for a refused customer INSERT, the customer alone for a refused contract INSERT, the customer, the contract and the rows before the first failing row for a failure in the loop, and everything for a refused COMMIT or on success |
| `Ledger.Ledger.AddContract` | app.py:69-108 | all or nothing. The error is exactly the first exception the code meets: division by zero, then the refused INSERTs in issue order with a due date past 9999 winning a tie, then the refused COMMIT. It succeeds exactly when the schedule exists and no statement is refused, and then adds one customer, one contract referencing it and the schedule's rows referencing that contract, with no existing row changed. On any failure every table holds the rows it held before, and each identity counter stands where the statements that ran before the failure left it; for months = 0 nothing at all changes. Tables stay well formed |
| `Ledger.Ledger.Pay` | app.py:112-127 | the Installments table becomes the pay UPDATE applied to it; other tables unchanged; when the database fails, nothing changes and nothing is reported |
| `Ledger.Ledger.UpdateInstallments` | app.py:114-123 | the in-place scan leaves the Installments table equal to the pay UPDATE applied to its old contents |

## Left out

- HTTP routing, form parsing, redirects and templates: these are presentation.
  - The `float(...)` and `int(...)` conversions are not modelled.
  - The `strptime` parsing is not modelled either, so the start date arrives
    already parsed.
- The database configuration and the engine are environment settings. A
  failure to open the connection or to begin the transaction is not
  modelled; it raises before any insert.
- The Excel export is delegated to pandas and openpyxl over the
  `v_InstallmentStatus` view, whose definition is not in the repository.
- The list query on that view, and its ordering, are left out for the same
  reason.
- Floating-point rounding of the monthly division is left out: amounts
  are exact reals.
- The clock is left out. The database's current time is an `Instant` parameter.
- Error texts and logging carry nothing to verify.
- Concurrent requests are left out. The model is sequential and relies on
  the database's transaction isolation.
