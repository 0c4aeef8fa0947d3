# Financing service model

A Dafny model of the financing service of `finance` (Go): the installment
calculator, the read services (user limits, tenor catalog, installment
simulation), the financing submission with its transactional unit of work,
the error package (driver-error classification, application errors, the
mapping to HTTP replies) and the validation-error handler.

## How the model is organised

| file | module | models |
|---|---|---|
| `wrappers.dfy` | `Wrappers` | `Option` and `Result` |
| `error.dfy` | `Errorx` | `pkg/errorx/error.go`: error types, `AppError`, Go `error` values and `errors.Is`/`errors.As` |
| `db_err.dfy` | `DbErr` | `pkg/errorx/db_err.go`: `DbError` |
| `map_err.dfy` | `MapErr` | `pkg/errorx/map_err.go`: status mapping and the reply `SendError` writes |
| `money.dfy` | `Money` | money in integer cents, rounding half away from zero |
| `calendar.dfy` | `Calendar` | dates and `AddDate(0, n, 0)` |
| `entity.dfy` | `Model` | `internal/model/entity.go`: records and binding rules |
| `unit_of_work.dfy` | `Postgres` | `pkg/postgres/unit_of_work.go`: the database as a class with staged transactions |
| `repository.dfy` | `Repository` | the repositories the service calls, as abstract stores |
| `finance.dfy` | `Finance` | `internal/services/finance.go` |
| `handler.dfy` | `Handler` | `handleValidationError` of `internal/handler/handler.go` |

Money is integer cents. The service builds its amounts with
`decimal.NewFromInt`, so request amounts are whole units and enter the model
as `CentsPerUnit * amount`. The margin `amount * 0.20 * tenor / 12` is
`amount * tenor / 60`. Rounding to the cent is half away from zero, as the
decimal library's `Round` and `DivRound` do. The library's 16-digit
intermediate quotient is treated as exact. Its exact value in cents has a
fractional part of a multiple of 1/60, so the 16-digit step cannot move it
across a half-cent.

The database is the class `Postgres.Database`:

- `tables` holds the committed rows.
- `txs` holds every transaction begun, each with its status and its log of staged writes.
- `nextFacilityId` is the id sequence of the facility table. A sequence is not rolled back.
- A context is `Background` or `TxCtx(i)`, naming `txs[i]`.
- `Commit` applies a transaction's log to `tables` in order. `Rollback` discards it.
- The users and the tenor catalog are constant. The service never writes them.
- Driver failures are injected per operation through the constant `faults`, as the mocks of the service test configure them.

Dates are `(year, month, day)` triples. `AddMonths` follows Go's normalisation:
a day past the end of the target month spills into the following month
(31 January plus one month is 3 March 2025).

### Behaviour worth knowing

Some of the service's behaviour is easy to misread:

- A requested tenor missing from the catalog is reported as NotFound (404), not as "tenor option not available": nothing produces `ErrTenorNotAvail` (`Finance.UnknownTenorNotFound`).
- The installments need not add up to the total payment within a cent. For 1.00 over 9 months, nine installments of 0.13 come to 1.17 against a payment of 1.15 (`Finance.InstallmentsOvershootPayment`).
- The remaining limit is written back as the whole-unit part of `limit - amount`, so the cents of a limit are lost. The new limit equals `limit - amount` only for a limit in whole units (`Finance.DebitedBounds`).
- A failed facility or detail insert is returned unclassified. It reaches the client as a 500 "unexpected system error", not as an Internal `AppError`.
- The listing of user limits silently skips a user whose limit lookup fails (`Finance.JoinLimitsSkips`).
- The error of the deferred rollback is discarded by `Submit`.

## Model

| member | source | states |
|---|---|---|
| Errorx.AsPgError | pkg/errorx/db_err.go:20-21 | `errors.As` finds a `*PgError` exactly when the `%w` chain holds one, and what it finds is the first on the chain |
| Errorx.AsAppError | pkg/errorx/map_err.go:33-35 | `errors.As` finds an `*AppError` exactly when the chain holds one, and what it finds is the first on the chain |
| Errorx.IsOnChain | pkg/errorx/db_err.go:16 | `errors.Is` holds exactly when the sentinel is on the `%w` chain |
| Errorx.ErrorText | pkg/errorx/error.go:23-25 | the text is the type, then ": ", then the message |
| Errorx.NewValidationError | pkg/errorx/error.go:27-33 | type Validation, message "invalid input parameters", the given field map, no wrapped error |
| Errorx.NewError | pkg/errorx/error.go:35-41 | keeps the type, the message and the wrapped error it is given, with no field map |
| Errorx.DeclaredTypesDistinct | pkg/errorx/error.go:7-14 | the six declared error types are pairwise distinct |
| Errorx.NotFoundText | internal/repository/limit_test.go:44 | the text of the missing-row error is "resource not found: resource not found in database" |
| Errorx.ErrorTextUnambiguous | pkg/errorx/error.go:23-25 | for declared types, `Error()` text determines both type and message |
| DbErr.DbError | pkg/errorx/db_err.go:11-31 | nil iff nil; always NotFound, Conflict or Internal, with no fields and the cause kept; NotFound iff no-rows (wrapped or not) or SQLSTATE 23503; Conflict iff not no-rows and 23505 |
| DbErr.Classify | pkg/errorx/db_err.go:11-31 | a classified non-nil driver error is an `AppError` of one of the three database kinds |
| DbErr.NoRowsIsNotFound | pkg/errorx/db_err.go:16-18 | a missing row, even wrapped, is NotFound "resource not found in database" with the original as cause |
| DbErr.DuplicateIsConflict | pkg/errorx/db_err.go:20-24 | a unique violation, wrapped to any depth, is Conflict "duplicate data: " + detail, caused by the `*PgError` itself |
| DbErr.ForeignKeyIsNotFound | pkg/errorx/db_err.go:20-26 | a foreign-key violation, wrapped to any depth, is NotFound "referenced resource not found (foreign key constraint)" caused by the `*PgError` itself |
| DbErr.OtherIsInternal | pkg/errorx/db_err.go:30 | any other error, other SQLSTATEs included, is Internal "internal database error" |
| DbErr.WrappingPreservesClass | pkg/errorx/db_err.go:16-21 | `%w` wrapping changes neither the type nor the message of the classification |
| MapErr.MapErrorToStatusCode | pkg/errorx/map_err.go:17-30 | the status is one of 400, 404, 409, 500; 404 iff NotFound, 409 iff Conflict, 400 iff Validation, InsufficientLimit or TenorNotAvail |
| MapErr.SendError | pkg/errorx/map_err.go:32-55 | an `AppError` on the chain gives its type's status and its fields, with its message shown except on a 500, whose message is always "internal server error, please try again later"; any other error is a 500 "unexpected system error" without fields |
| MapErr.ValidationErrorReply | pkg/errorx/error.go:27-33 | a validation error is a 400 "invalid input parameters" carrying the field map |
| MapErr.NewErrorHasNoFields | pkg/errorx/error.go:35-41 | an error made by `NewError` shows no field map |
| Money.RoundHalfAway | internal/services/finance.go:58-60 | the rounded quotient is within half a unit of the exact one, and a tie goes away from zero |
| Money.RoundHalfAwayUnique | internal/services/finance.go:58-60 | those two properties single out the rounded quotient |
| Calendar.AddMonths | internal/services/finance.go:195 | the result is a valid date; the day is kept and the month moved by n when the day exists there, else the day becomes its excess over the target month's length (at most 3) in the month after |
| Calendar.AddZeroMonths | internal/services/finance.go:195 | adding no months changes nothing |
| Calendar.AddMonthsIncreasing | internal/services/finance.go:194-195 | due dates strictly increase with the months added, spill-over included |
| Calendar.ShortDayMonthly | internal/services/finance.go:194-195 | for a start day up to 28 every due date keeps the day and consecutive due dates are one month apart |
| Calendar.MonthEndSpillsOver | internal/services/finance.go:195 | one month after 31 January 2025 is 3 March 2025 |
| Postgres.SetLimitAmount | internal/repository/limit.go:61-62 | the update sets the amount of exactly the rows with that id and changes nothing else |
| Postgres.InsertsKeepLimits | internal/services/finance.go:186-213 | the facility and detail inserts leave the limit rows as they are |
| Postgres.Database.Begin | pkg/postgres/unit_of_work.go:28-35 | success gives a context for a new open transaction; failure gives the classified error, no context and no change |
| Postgres.Database.Commit | pkg/postgres/unit_of_work.go:37-49 | no transaction: Internal "failed to fetch data"; an open one is closed, and its writes are published in order on success, none on a classified failure |
| Postgres.Database.Rollback | pkg/postgres/unit_of_work.go:51-64 | no transaction: the same Internal error; a closed one: nil and no change; an open one is closed with its writes discarded, and a driver failure other than tx-closed is returned classified |
| Postgres.Database.Execute | internal/repository/facility.go:25-32 | a write runs on the pool (committed at once) or is staged in the context's open transaction |
| Postgres.Database.NextFacilityId | internal/repository/facility.go:39-43 | the insert draws the next id of the sequence |
| Postgres.CommitThenRollback | pkg/postgres/unit_of_work.go:57-60 | after a commit the deferred rollback returns nil and changes nothing |
| Repository.UserGet | internal/repository/user.go:35-56 | the user found has the id; a missing user is a classified no-rows error |
| Repository.UserList | internal/repository/user.go:58-79 | every user in table order, or, exactly when the query or the scan fails, the classified error |
| Repository.LimitGet | internal/repository/limit.go:35-56 | the committed limit row found belongs to the user; a missing one is a classified no-rows error |
| Repository.TenorGet | internal/repository/tenor.go:35-56 | the catalog entry found has the value; a missing one is a classified no-rows error |
| Repository.TenorList | internal/repository/tenor.go:58-79 | the whole catalog in table order, or, exactly when the query or the scan fails, the classified error |
| Repository.AddFacility | internal/repository/facility.go:34-49 | inserts under the next id and returns it; a driver error is returned unchanged and nothing is written |
| Repository.AddDetails | internal/repository/detail.go:35-62 | copies the rows in; a driver error or count mismatch is returned unchanged and nothing is written |
| Repository.UpdateLimit | internal/repository/limit.go:58-71 | sets the limit row to the whole-unit amount; a driver error is classified; an update of no row is Internal |
| Finance.CalculateFinancials | internal/services/finance.go:53-63 | payment = amount + margin exactly; margin within half a cent of amount·0.20·tenor/12; monthly within half a cent of payment/tenor |
| Finance.CalculateFinancialsUnique | internal/services/finance.go:58-60 | those properties, with ties away from zero, determine all three results |
| Finance.FinancialsNonNegative | internal/services/finance.go:58-60 | for a non-negative amount and positive tenor, margin and monthly are non-negative and the payment covers the amount |
| Finance.TwelveMonthExample | internal/services/finance_test.go:224-237 | 10,000,000 over 12 months: margin 2,000,000, payment 12,000,000, monthly 1,000,000 |
| Finance.InstallmentsOvershootPayment | internal/services/finance.go:58-60 | 1.00 over 9 months: margin 0.15, payment 1.15, monthly 0.13, installments exceeding the payment by 2 cents |
| Finance.JoinLimitsSound | internal/services/finance.go:74-88 | every listed entry is a listed user joined with that user's own limit |
| Finance.JoinLimitsComplete | internal/services/finance.go:74-88 | when every lookup succeeds, one entry per user in user order |
| Finance.JoinLimitsSkips | internal/services/finance.go:75-79 | a user whose limit lookup fails adds nothing |
| Finance.JoinLimitsLength | internal/services/finance.go:74-88 | the listing has as many entries as there are users whose lookup succeeds |
| Finance.JoinLimitsRank | internal/services/finance.go:74-88 | with failures anywhere in the list, each user whose lookup succeeds has its entry, right after the entries of the successful users before it |
| Finance.ListUserLimit | internal/services/finance.go:65-91 | a failed user list is the classified error; otherwise the listing of all users, skipping failed lookups |
| Finance.TenorList | internal/services/finance.go:93-107 | the catalog's values in catalog order, or the classified list error |
| Finance.Installment | internal/services/finance.go:109-130 | one simulation per catalog tenor, in catalog order, each carrying the tenor and the calculator's three results for it, or the classified list error |
| Finance.BoundSimulation | internal/model/entity.go:47 | for an amount that passes binding and a positive tenor, a simulation is non-negative and its payment covers the amount |
| Finance.BuildSchedule | internal/services/finance.go:192-207 | builds the installment rows due 1..tenor months after the start, and a schedule with the same due dates and amounts in the same order |
| Finance.InstallmentsShape | internal/services/finance.go:194-201 | exactly tenor rows (none for a non-positive tenor), all with the facility id and the monthly amount, due dates strictly increasing |
| Finance.InstallmentsTotal | internal/services/finance.go:194-201 | the rows add up to tenor times the monthly installment |
| Finance.Precheck | internal/services/finance.go:133-164 | a malformed date is a Validation error carrying the parse error; a failed user, limit or tenor lookup, in that order, returns that lookup's own error unchanged; a pass means the user, the user's limit (covering the amount) and the tenor were found |
| Finance.PrecheckPasses | internal/services/finance.go:135-164 | the checks pass iff the date parses, the three lookups succeed and the amount is within the limit |
| Finance.OverLimitRefused | internal/services/finance.go:153-158 | an amount over the limit is InsufficientLimit "limit balance is not enough", a 400 |
| Finance.UnknownUserNotFound | internal/services/finance.go:141-145 | a user missing from the table is a NotFound error, a 404 |
| Finance.MissingLimitNotFound | internal/services/finance.go:147-151 | a user without a limit row is a NotFound error, a 404, whatever the amount |
| Finance.UnknownTenorNotFound | internal/services/finance.go:160-164 | a tenor missing from the catalog is a NotFound error, a 404 |
| Model.NotPast | cmd/main.go:120-133 | a date passes exactly when it is today or later |
| Model.BindsCalculate | internal/model/entity.go:47 | an amount binds exactly when it is positive |
| Model.BindsSubmit | internal/model/entity.go:57-63 | a bound submission has a positive amount, non-zero ids and tenor, and a start date that parses to today or later |
| Finance.BoundRequestDateAccepted | internal/model/entity.go:57-63 | after binding, a failed check is a database-kind error or an insufficient limit, never the date error |
| Finance.RequestLimitIdIgnored | internal/services/finance.go:147-151 | the request's facility limit id has no effect on the checks |
| Finance.IntPart | internal/services/finance.go:216 | the whole units of an amount, truncated toward zero |
| Finance.DebitedBounds | internal/services/finance.go:215-216 | the limit written back is between 0 and the exact balance, short of it by the limit's cents |
| Finance.StageWrites | internal/services/finance.go:186-220 | stages facility, rows and limit update in the open transaction, or stops at the first failing write; nothing is committed |
| Finance.Submit | internal/services/finance.go:132-240 | a failed check returns its error and changes nothing; otherwise the first transaction failure is returned and the committed rows are unchanged; on success the facility, its rows and the reduced limit are committed together and the response describes them; the transaction always ends closed |
| Finance.SubmitWritesEffect | internal/services/finance.go:186-220 | a committed submission appends one facility row and the installment rows of the plan, and sets only the limit row with the found limit's id |
| Handler.TagMessage | internal/handler/handler.go:131-144 | the fixed message of each of required, notpast, datetime and email; the generic "failed validation on tag" message, followed by the tag, for exactly the unknown tags |
| Handler.GreaterThanMessage | internal/handler/handler.go:134-135 | the `gt` message carries the bound |
| Handler.FieldMessagesKeys | internal/handler/handler.go:127-147 | the keys are exactly the failing fields |
| Handler.FieldMessagesLastWins | internal/handler/handler.go:127-147 | a field's message is the one for its last error |
| Handler.HandleValidationError | internal/handler/handler.go:119-150 | a non-validation failure gives only the "body" entry; field errors give the map of their messages |

## Left out

- Parsing and formatting of dates: `time.Parse` is the parameter `parse` (a `DateParser`), and the response carries dates, not formatted strings.
- The binding engine: the validator's list of field errors is an input to `Handler.HandleValidationError`, and the binding rules are the predicates `Model.BindsCalculate` and `Model.BindsSubmit`. The `notpast` rule takes today's date as a parameter instead of reading the clock.
- The HTTP glue of the handlers, and the JSON write of `SendError`. Its reply is a value.
- Logging, which has no effect on results.
- `CreatedAt` (the clock) and the serial ids of the installment rows.
- The facility and detail `Get` of the repositories, which the service never calls.
- Concurrency: the race between the limit check and the limit update of two submissions, and context cancellation. The model is sequential.
- The repositories' SQL and scanning. Reads see the committed rows, which is what the service's reads outside the transaction see.
- 64-bit integer overflow and the decimal library's internals. Amounts are unbounded integers.
- Faults are fixed per operation for a whole scenario: an injected fault fails every call of that operation. A detail copy-count mismatch is one such fault (a plain error).
- Model.NotPast: compares calendar dates. The validator compares a date parsed as UTC midnight with local midnight, so west of UTC it also refuses today's date; time zones are not modelled.
- Finance.Installment: requires a catalog without a zero tenor; the source divides by the tenor and would panic.
- Finance.Submit: requires a non-zero requested tenor, which binding guarantees; only a zero tenor in the catalog could reach the division. It also requires the date parser to yield real calendar dates, as `time.Parse` does.
- Finance.CalculateFinancials: the 16-digit intermediate quotient of the margin is taken as exact, as argued above.
