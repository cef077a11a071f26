# TimeTracker work sessions, in Dafny

This project models the core of TimeTracker, a NestJS/TypeORM time-tracking
service. Users register, confirm their email through a link whose token is
their id, log in, and then start and stop *work sessions*. The service reports
the hours worked per day, for one user or for all users.

The model has these parts:

- `Common`: `Option`, `Result`, and the exceptions the services throw
  (`NotFound`, `Conflict`, `InternalServerError`, and `QueryFailed` for a unique
  constraint that refuses a write).
- `Users`: the `User` row and `UsersService`, a class whose `users` field is the
  user table (a map from id to row). Its object invariant says that every row is
  stored under its own id and that no two rows share an email.
- `WorkStore`: the `Work` row, the Open/Closed state of a session (`endTime`
  is `None` while open), and the rule that each user has at most one open
  session (`AtMostOneOpen`). The lemmas here show how appending and closing a
  session affect that rule.
- `Aggregation`: the two reporting queries as pure functions. `Tally` groups
  closed sessions by the day their start time falls on and adds up hours into
  rows sorted by day. It is proved equal to independent reference definitions:
  `ClosedDays` (which days have a row) and `HoursOn` (the total for one day).
- `WorkServices`: `WorkService`, a class whose `works` field is the work table
  in row order. `StartWork` and `StopWork` change that table. The reads and the
  reports are functions of it.
- `WorkControllers`: `WorkController`, whose start handler checks that the user
  is not already working before it delegates. The handlers' catch blocks are
  modelled as functions over any outcome.
- `Auth`: `AuthService`, covering register, confirm email, login and validate
  user, over the same `UsersService` object.
- `Lifecycle`: client methods that run whole journeys. One is register, follow
  the link, then start work. The other is start, check, stop, check.

Timestamps are integers, in whole seconds. The current time (`now`), the ids the
database and `uuidv4()` generate (`workId`, `newId`) and the JWT signer (`sign`)
are all parameters. Calls are sequential and atomic.

Some behaviours of the code, and how the model treats them:

- **Where the one-open-session rule is enforced.** Only the controller's
  guard enforces it (`src/work/work.controller.ts:52-58`);
  `WorkService.startWork` appends a session without looking
  (`src/work/work.service.ts:15-34`). `WorkService.StartWork` therefore states
  exactly when it keeps the rule, and `WorkController.StartWork` states that it
  always keeps it.
- **Confirming twice.** `confirmEmail` succeeds on a user who is already
  confirmed, confirming it again (`src/auth/auth.service.ts:45-48`), while
  `confirmUser` refuses that user (`src/users/users.service.ts:48-50`). Both
  are modelled as written.
- **Finding the open session.** `stopWork` filters with `endTime: null`
  (`src/work/work.service.ts:45`). `getOngoingWork` filters with `IsNull()`
  (`:68`). Both are modelled as "the first open session of the user, in row
  order" (`FirstOpen`). Whether the ORM really applies a literal `null` filter
  is not modelled. Under the one-open-session rule the first open session is
  the only one (`FirstOpenIsOnly`).
- **Plaintext passwords.** `login` compares the stored password with the
  supplied one directly (`src/auth/auth.service.ts:54`). The model does the
  same.

## Model

| member | source | states |
|---|---|---|
| `Users.UsersService.FindByEmail` | src/users/users.service.ts:17-20 | returns a user exactly when some row has that email, and then it is the stored row with that email; reads only |
| `Users.UsersService.FindById` | src/users/users.service.ts:22-24 | returns a user exactly when the id is in the table, and then it is the row stored under that id; reads only |
| `Users.UsersService.CreateUser` | src/users/users.service.ts:26-44 | a taken email gives Conflict("User with this email already exists") and leaves the table unchanged; otherwise exactly one row, unconfirmed and holding the given id, email and password, is saved under the id and returned; no two users share an email afterwards |
| `Users.UsersService.ConfirmUser` | src/users/users.service.ts:46-56 | a missing or already-confirmed user gives NotFound("User not found or already confirmed") and no change; otherwise only that user's confirmed flag is set, and the updated row is returned |
| `Users.UsersService.SaveUser` | src/users/users.service.ts:58-60 | stores the record under its id and returns it; if another id already holds that email, the unique constraint refuses the write and nothing changes |
| `Users.WithConfirmed` | src/users/users.service.ts:52-53 | the target user becomes eligible with its other fields kept; every other row and the set of ids are unchanged |
| `Users.WithConfirmedIdempotent` | src/auth/auth.service.ts:45-48 | confirming an already-confirmed user leaves the table as it was after the first confirmation |
| `WorkStore.FirstOpen` | src/work/work.service.ts:42-47 | gives no row exactly when the user has no open session; otherwise gives an open session of that user with no earlier one in row order |
| `WorkStore.FirstOpenIsOnly` | src/work/work.service.ts:65-70 | when each user has at most one open session, the session found is that user's only open one |
| `WorkStore.Close` | src/work/work.service.ts:53-54 | the chosen row gets end time `now` and is closed; every other row is unchanged |
| `WorkStore.AppendOpenKeepsInvariantIff` | src/work/work.service.ts:21-27 | appending an open session keeps "at most one open session per user" exactly when the invariant held and the owner had no open session |
| `WorkStore.CloseKeepsInvariant` | src/work/work.service.ts:42-54 | closing an open session keeps the invariant, and the owner is left with no open session |
| `WorkStore.CloseKeepsIds` | src/work/work.service.ts:53-54 | closing a session keeps work ids unique |
| `WorkStore.AppendFreshKeepsIds` | src/work/work.service.ts:21-27 | appending a session with a new id keeps work ids unique |
| `Aggregation.OwnedBy` | src/work/work.service.ts:94 | keeps exactly the sessions of the given user, each as many times as it occurs in the table and no other session |
| `Aggregation.TotalFor` | src/work/work.service.ts:92 | a day with no row has total zero |
| `Aggregation.TotalForRow` | src/work/work.service.ts:96-97 | in rows sorted strictly by day, the total looked up for a row's own day is that row's total |
| `Aggregation.AddHours` | src/work/work.service.ts:96-97 | adding hours to a day keeps the rows strictly ascending by day, and the first row is the earlier of that day and the old first row |
| `Aggregation.AddHoursDates` | src/work/work.service.ts:96 | adding hours to a day gives that day a row and adds no other day |
| `Aggregation.AddHoursTotals` | src/work/work.service.ts:92 | adding hours to a day raises that day's total by exactly that amount and leaves every other day's total as it was |
| `Aggregation.Tally` | src/work/work.service.ts:88-98 | the grouped rows are strictly ascending by day |
| `Aggregation.TallyDates` | src/work/work.service.ts:95-96 | there is one row for each day on which a closed session started, and no other rows |
| `Aggregation.TallyTotals` | src/work/work.service.ts:92-96 | each day's total is the sum of (end − start)/3600 over the closed sessions that started that day |
| `Aggregation.TallyMeaning` | src/work/work.service.ts:88-98 | the rows are strictly ascending, one per day with a closed session, each holding that day's summed hours; the result is empty exactly when no session is closed |
| `Aggregation.OpenSessionsIgnored` | src/work/work.service.ts:95 | adding an open session does not change the report |
| `Aggregation.EightHourDay` | src/work/work.service.spec.ts:246 | two closed 4-hour sessions on 2023-01-01 plus one open session give the single row (that day, 8 hours) |
| `WorkServices.WorkService.StartWork` | src/work/work.service.ts:15-34 | an absent or unconfirmed user gives NotFound("User not found or not confirmed") and no change; otherwise exactly one open session (the user, the description, start = now, the new id) is appended, and the reply is success, "Started working on " + description, and the id; the at-most-one-open rule holds afterwards exactly when it held before and the user had no open session |
| `WorkServices.WorkService.StopWork` | src/work/work.service.ts:36-57 | an ineligible user gives NotFound("User not found or not confirmed"); an eligible user with no open session gives NotFound("No ongoing work found for the user"); neither changes anything; otherwise only the user's first open session is closed at `now`, the reply is "Stopped working", and under the invariant the user has no open session afterwards |
| `WorkServices.WorkService.GetOngoingWork` | src/work/work.service.ts:59-73 | fails with NotFound exactly when the user is ineligible; otherwise returns an open session of the user, or none exactly when the user has none; reads only |
| `WorkServices.WorkService.IsAlreadyWorking` | src/work/work.service.ts:75-78 | true exactly when the user has an open session; the NotFound for an ineligible user is passed on |
| `WorkServices.WorkService.TotalWorkingTimeByDay` | src/work/work.service.ts:80-101 | fails with NotFound exactly when the user is ineligible; otherwise covers only that user's closed sessions, with one row per start day, each day's summed hours, and days strictly ascending |
| `WorkServices.WorkService.TotalWorkingTimeForAllUsers` | src/work/work.service.ts:103-118 | the same grouping over all users' closed sessions, with no eligibility check; empty exactly when no session is closed |
| `WorkControllers.RethrowNotFound` | src/work/work.controller.ts:66-71 | the catch block of start and stop passes every outcome through unchanged |
| `WorkControllers.SwallowUnlessNotFound` | src/work/work.controller.ts:115-119 | a NotFound is rethrown, any other failure becomes an answer with no body, and a success is returned as it is |
| `WorkControllers.AsInternalError` | src/work/work.controller.ts:139-144 | a success passes unchanged; every failure becomes InternalServerError("Failed to retrieve total working time for all users") |
| `WorkControllers.WorkController.StartWork` | src/work/work.controller.ts:47-72 | an ineligible user gives NotFound; a user already working gives Conflict("User is already working on something else.") with no session created; otherwise the service's start result is returned unchanged; the at-most-one-open rule is always kept |
| `WorkControllers.WorkController.StopWork` | src/work/work.controller.ts:83-93 | the service's errors and result pass through unchanged: on success the user's first open session is closed at `now` and every other row is unchanged; the invariant is kept and the user is left with no open session |
| `WorkControllers.WorkController.GetTotalWorkingTimeByDay` | src/work/work.controller.ts:106-120 | NotFound exactly for an ineligible user; otherwise the service's rows |
| `WorkControllers.WorkController.GetTotalWorkingTimeForAllUsers` | src/work/work.controller.ts:134-145 | always succeeds, with the service's rows: ascending, one per closed day, summed hours |
| `Auth.TokenOf` | src/auth/auth.service.ts:34 | a link that yields a token is the confirmation prefix followed by that token |
| `Auth.TokenOfConfirmLink` | src/auth/auth.service.ts:32-35 | the token read back from a confirmation link is the user's id |
| `Auth.AuthService.Register` | src/auth/auth.service.ts:19-36 | a taken email gives Conflict and no change; otherwise one unconfirmed user is stored under the generated id, and the reply is the email and a link whose token is that id |
| `Auth.AuthService.ConfirmEmail` | src/auth/auth.service.ts:38-49 | an unknown token gives NotFound("Invalid token") and no change; otherwise the user with that id is confirmed (also when it already was), nothing else changes, and the reply is success |
| `Auth.AuthService.Login` | src/auth/auth.service.ts:51-60 | succeeds exactly when a user with that email exists, is confirmed and has that password; the token is signed over that user's id and email; any other case gives NotFound("Invalid email or password") |
| `Auth.AuthService.ValidateUserById` | src/auth/auth.service.ts:62-68 | returns the stored user, confirmed or not, or NotFound("User not found"); reads only |
| `Lifecycle.RegisterConfirmAndStart` | src/auth/auth.service.ts:19-48 | registering a new email and then confirming the token from the link makes the user eligible, and a start through the controller then succeeds and opens exactly one session |
| `Lifecycle.StartThenStop` | src/work/work.controller.ts:47-93 | for an eligible user who is not working, start through the controller makes them working and stop makes them not working, with the invariant kept throughout |

## Left out

- HTTP routing, decorators, guards, Swagger metadata, DTO validation and module wiring are not modelled. The auth controller only delegates.
- The clock, `uuidv4()` and the database's id generator are parameters. `WorkService.StartWork` requires that the work id is new, as the generator guarantees. `Register` takes any id: if the id already exists, the save overwrites that row, as TypeORM's save does for an existing primary key.
- JWT signing is a function parameter (`sign`) applied to the payload. The token format and expiry are not modelled.
- Days: `DayOf` is the UTC day number of a timestamp in seconds. Postgres's `DATE()` time-zone handling and the `'YYYY-MM-DD'` text of the date column are not modelled. Rows are ordered by day number, which orders the same as the date text for four-digit years.
- Hours are exact reals. The floating-point `EXTRACT(EPOCH …)` sum in Postgres, and its order-dependent rounding, are not modelled.
- `findOne` returns the first matching row in table order. The database gives no order. Under the one-open-session rule, at most one row matches.
- Database failures (lost connection, query errors) are never raised by the modelled service. The controller's handling of them is modelled as total functions over any outcome (`SwallowUnlessNotFound`, `AsInternalError`).
- `WorkControllers.WorkController.GetTotalWorkingTimeForAllUsers`: the description argument (`error.message`) of the InternalServerError is not modelled, and no failure can reach that branch in the model.
- Concurrency is not modelled. In particular, the race between the `isAlreadyWorking` check and `startWork` is left out; every call runs atomically.
- The clock is not assumed to move forward, so a closed session's end time is not proved to be at or after its start time (a negative duration is summed as it is, as the SQL sum would).
- Timestamps count whole seconds. `new Date()` has millisecond precision (`src/work/work.service.ts:24`, `:53`), so the sub-second part of each session's duration is not modelled.
- The rows `getRawMany()` returns are modelled as `DayTotal` values. The raw rows' key names (Postgres folds the unquoted alias `totalHours` to `totalhours`) and their value types (date and number as the driver delivers them) are not modelled.
- `console.log` calls and the health-check test are not modelled.
