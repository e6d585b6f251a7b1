# Task manager API: a verified model of its handlers

This project models the decision logic of a small Express task-manager
backend:

- the bearer-token guard that fronts the task routes and the profile route;
- the auth controller (register, login, profile) over a Users table;
- the task controller (list, get, create, update, delete, statistics) over a
  Tasks table.

The SQL Server tables become in-memory state:

- `AuthService.UserTable` holds a sequence of users. A user's id is its
  position plus one, which is the identity column.
- `TaskStore.TaskTable` holds a map from id to task and the next identity
  value.

The library calls are parameters of the operations that use them:

- `bcrypt.hash` and `bcrypt.compare` become `hash` and `compare`;
- `jwt.sign` and `jwt.verify` become `sign` and `verify`;
- the database clock `GETDATE()` becomes `now`.

Each handler is written in the form it has in the source:

- The operations that change a table are methods of the two table classes:
  `Register`, `CreateTask`, `UpdateTask` and `DeleteTask`.
- The two handlers that assemble their SQL statement one clause at a time
  are methods too: `GetTasks`, and `BuildUpdate` inside `UpdateTask`. They
  build the WHERE list and the SET list as data (`Condition`, `Assignment`).
- The single reads are pure functions over the table contents: the guard,
  login, profile, get-by-id and statistics.

JavaScript details the handlers depend on are modelled explicitly (module
`Js`):

- A body property can be `undefined`, `null` or a value
  (`Field = Absent | Null | Given`). This keeps the difference between
  `x !== undefined` and a truthiness test.
- A string is truthy when it is present and non-empty.
- `split(' ')` is modelled, and the join it inverts.
- `toUpperCase` is modelled on the characters that matter for the `ASC` test.

Modules:

- `Common`: Option and Result.
- `Js`: body properties, truthiness, split and join, upper-casing.
- `Jwt`: token claims and the outcome of verification.
- `AuthGuard`: the middleware.
- `AuthService`: the users table and the auth handlers.
- `TaskModel`: task rows, bodies, validation, the SET and WHERE lists.
- `TaskOrder`: the ORDER BY part of the list query.
- `TaskStore`: the tasks table and its handlers.
- `TaskStats`: the statistics aggregate.
- `Flows`: properties that span several handlers.

## Model

| member | source | states |
|---|---|---|
| Js.Split | src/middleware/auth.js:15 | `split(' ')` yields at least one piece and no piece contains a space; joining the pieces with single spaces gives back the header |
| Js.SplitJoin | src/middleware/auth.js:15 | splitting a space-joined list of space-free pieces gives back exactly those pieces |
| Js.SplitNoSpace | src/middleware/auth.js:15 | a string without spaces splits into the one-piece list of itself |
| Js.UpperIsAsc | src/controllers/taskController.js:26 | `order.toUpperCase() === 'ASC'` exactly for the three-letter case variants of `asc` (with the long s, which upper-cases to `S`) |
| AuthGuard.BearerToken | src/middleware/auth.js:15-23 | a header passes the two-part `Bearer` check exactly when it is `"Bearer "` followed by a space-free token; the token is the text after that prefix |
| AuthGuard.BearerShape | src/middleware/auth.js:15-17 | the split has two parts with `Bearer` first exactly when the header is `"Bearer " + t` with no space in `t`, and it is then `["Bearer", t]` |
| AuthGuard.FailureResponse | src/middleware/auth.js:39-55 | an invalid token and an expired token are answered 401; any other verification error is answered 500 |
| AuthGuard.Authenticate | src/middleware/auth.js:6-55 | a missing or empty header gives 401 "Token no proporcionado"; a header not of the form `Bearer <token>` gives 401 format error; the next handler runs exactly when the header is well formed and the token verifies, with identity {userId, username, email} copied from the claims; each verification failure maps to its own 401/401/500 response; every request gets exactly one outcome |
| AuthGuard.MalformedHeaders | src/middleware/auth.js:15-21 | `"Bearer"`, `"Bearer a b"`, `"bearer x"` and `"Bearer  x"` are all rejected with the 401 format error whatever verification would say |
| AuthService.CheckRegistration | src/controllers/authController.js:11-22 | 400 "all fields required" exactly when a field is falsy; 400 short password exactly when all are truthy and the password has fewer than 6 characters; no other error; accepted exactly when all three are truthy and the password has at least 6 characters, and then the three values pass unchanged |
| AuthService.FirstMatch | src/controllers/authController.js:27-33 | the first row of a `SELECT ... WHERE p`: a matching position with no match before it, or none when no row matches |
| AuthService.Clash | src/controllers/authController.js:27-37 | the duplicate check fires exactly when some user has that username or that email |
| AuthService.AppendKeepsWellFormed | src/controllers/authController.js:27-52 | inserting after a failed clash check keeps ids sequential and usernames and emails pairwise unique |
| AuthService.NewUser | src/controllers/authController.js:40-52 | the row registration inserts: the next identity value, the username and email as given, `hash(password)` in place of the password, and both timestamps `now` |
| AuthService.UserTable.constructor | src/config/database.js:91-98 | the Users table starts empty and well formed |
| AuthService.UserTable.Register | src/controllers/authController.js:6-68 | validation errors and the 409 clash leave the table unchanged; otherwise exactly one user is appended, with the next id, the hash of the password and both timestamps `now`, and the response is only {id, username, email, createdAt}; uniqueness of usernames and emails is preserved |
| AuthService.Login | src/controllers/authController.js:71-130 | 400 exactly when email or password is falsy; an unknown email gives 401 invalid credentials; no other error is possible; success means a user with that email whose hash compares equal, and the session returned is that user's signed claims {userId, username, email} and view {id, username, email} |
| AuthService.LoginDecidedByCompare | src/controllers/authController.js:85-105 | with unique emails, logging in as a registered email succeeds exactly when `compare` accepts the password, and otherwise fails with 401 invalid credentials |
| AuthService.UnknownEmailLooksLikeWrongPassword | src/controllers/authController.js:90-105 | an unknown email and a wrong password give the identical response |
| AuthService.GetProfile | src/controllers/authController.js:133-158 | 404 exactly when no user has the id; otherwise the public view of a user with that id |
| TaskModel.NewTask | src/controllers/taskController.js:69-108 | a falsy title gives 400; a status (default `pending`) or priority (default `medium`) outside its four values gives 400, a `null` one included; success exactly when all three checks pass; then the row is well formed, owned by the caller, with the given id, both timestamps `now`, the defaults applied, and a falsy description or absent due date stored as NULL |
| TaskModel.UpdateRejection | src/controllers/taskController.js:156-176 | an update body is rejected exactly when a truthy status or priority is outside its four values; the status check comes first |
| TaskModel.Patched | src/controllers/taskController.js:141-183 | id, owner and createdAt stay; updatedAt becomes `now`; title, status and priority change only when truthy; description and due date change whenever they are not `undefined`, `null` storing NULL; a well-formed row stays well formed |
| TaskModel.EmptyUpdateOnlyRefreshes | src/controllers/taskController.js:141 | an empty update body changes nothing but updatedAt |
| TaskModel.AllHoldSnoc | src/controllers/taskController.js:9-21 | appending one `AND` condition to the WHERE list restricts the matching rows by exactly that condition |
| TaskModel.Matches | src/controllers/taskController.js:9-21 | the WHERE clause of the list query: the row belongs to the caller, and its status and priority equal the filters that are truthy; a missing or empty filter adds no condition |
| TaskOrder.ParseSortField | src/controllers/taskController.js:24-25 | a whitelisted `sortBy` selects its column; a missing or unknown one falls back to `createdAt` |
| TaskOrder.ParseOrder | src/controllers/taskController.js:26 | ascending exactly when `order.toUpperCase()` is `ASC`, that is for the case variants of `asc`; anything else, and a missing order, is descending |
| TaskOrder.StrLeTotal | src/controllers/taskController.js:27 | any two column strings are comparable |
| TaskOrder.StrLeTransitive | src/controllers/taskController.js:27 | the string order is transitive |
| TaskOrder.BeforeTotal | src/controllers/taskController.js:27 | any two rows are comparable by any sort column in either direction |
| TaskOrder.BeforeTransitive | src/controllers/taskController.js:27 | the row order by any column and direction is transitive |
| TaskOrder.Insert | src/controllers/taskController.js:27-29 | inserting a row into a partial result adds exactly that row |
| TaskOrder.InsertSorted | src/controllers/taskController.js:27-29 | inserting into a sorted result keeps it sorted |
| TaskStore.GetTaskById | src/controllers/taskController.js:41-64 | success returns a stored row with that id and the caller as owner; not found exactly when no row has both that id and the caller's user id |
| TaskStore.ForeignTaskLooksMissing | src/controllers/taskController.js:46-56 | another user's task answers 404 exactly as a task that does not exist |
| TaskStore.Selected | src/controllers/taskController.js:9-29 | the rows the list query returns, as a set: every stored row that satisfies its WHERE clause |
| TaskStore.ScanStep | src/controllers/taskController.js:9-29 | one step of the key-order scan keeps the partial result sorted and equal, as a multiset, to the matching rows seen so far |
| TaskStore.SelectedMembers | src/controllers/taskController.js:9-21 | a result holding exactly the selected rows contains only the caller's rows that satisfy every truthy filter, and every such row |
| TaskStore.BuildUpdate | src/controllers/taskController.js:141-183 | the SET list is assembled one property at a time; its outcome is rejected exactly as the update body is (status checked before priority), and otherwise applying the list in order yields the patched row |
| TaskStore.TaskTable.constructor | src/config/database.js:106-117 | the Tasks table starts empty, with the identity at 1 |
| TaskStore.TaskTable.GetTasks | src/controllers/taskController.js:4-38 | the result is a permutation of the caller's rows that satisfy every truthy status or priority filter, ordered by the parsed sort column and direction; every returned row is such a row and every such row is returned; `count` is its length |
| TaskStore.TaskTable.CreateTask | src/controllers/taskController.js:67-117 | a rejected body leaves the table unchanged; otherwise exactly one row is added under the next identity value, and every earlier row is unchanged; the table invariant (every stored status and priority in its set) is kept |
| TaskStore.TaskTable.UpdateTask | src/controllers/taskController.js:120-194 | the ownership check comes first: a missing or foreign task gives 404 whatever the body; then an invalid status or priority gives 400 with no change; otherwise only that row changes, to the patched row; the table invariant is kept |
| TaskStore.TaskTable.DeleteTask | src/controllers/taskController.js:197-220 | exactly the row with that id and owner is removed; when none matched the answer is 404 and the table is unchanged |
| TaskStats.CountWhere | src/controllers/taskController.js:233-238 | each `SUM(CASE ...)` counter is at most the caller's row count |
| TaskStats.IsOverdue | src/controllers/taskController.js:238 | the overdue `CASE`: a due date strictly before `now` and a status other than `completed`; a NULL due date is never overdue, and a cancelled task can be |
| TaskStats.Stats | src/controllers/taskController.js:223-249 | every counter is at most `total`; `total` is 0 exactly when the caller owns no row |
| TaskStats.OwnedEmpty | src/controllers/taskController.js:232 | `COUNT(*)` is 0 exactly when the caller owns no row |
| TaskStats.StatusCountsAddUp | src/controllers/taskController.js:232-236 | when every stored status is one of the four values, pending + in_progress + completed + cancelled = total |
| TaskStats.StatsDependOnlyOnOwnRows | src/controllers/taskController.js:240 | tables that agree on the caller's rows give the same statistics |
| TaskStats.OtherUsersDoNotCount | src/controllers/taskController.js:240 | another user's insert, update or delete leaves the caller's statistics unchanged |
| TaskStats.CompletingClearsOverdue | src/controllers/taskController.js:238 | updating a task's status to `completed` lowers the overdue count by one if it was overdue, and leaves it unchanged otherwise |
| TaskStats.StatsAsWritten | src/controllers/taskController.js:231-241 | the aggregate row as the statement produces it: `total` is the caller's row count, and each `SUM` counter is NULL exactly when that count is 0, otherwise a count no larger than `total` |
| TaskStats.StatsAsWrittenNullWithoutTasks | src/controllers/taskController.js:231-241 | as written, the statement yields total 0 and NULL for every other counter when the caller has no tasks, where the intended counters are all 0 |
| TaskStats.StatsAsWrittenAgreesWithTasks | src/controllers/taskController.js:231-241 | as soon as the caller owns a task, the statement as written and the intended counters agree |
| Flows.LoginTokenPassesGuard | src/controllers/authController.js:108-126 | when verification returns the claims a token was signed with, the token from a successful login passes the guard as the identity of the returned user |
| Flows.RegisteredUserCanLogin | src/controllers/authController.js:40-52 | right after registration, logging in with the same email and password succeeds, as long as the stored hash compares equal |

## Left out

- I/O and plumbing. Connection pooling, SQL text, HTTP status writing,
  `next(error)` forwarding of store errors and async scheduling are not
  modelled. Each handler's outcome is a `Result`, and the error cases carry
  their own status code and message.
- Concurrency. Two concurrent registrations of the same username or email
  both pass the check before either inserts. In the source, the UNIQUE
  constraint then makes the loser fail. Here the table is updated in one
  step, so that race does not exist in the model.
- Database constraints and types:
  - NVARCHAR column widths are not modelled, and neither are the errors that
    overlong values would raise.
  - SQL Server's default case-insensitive collation is not modelled.
    Filters, the username and email clash check and the login lookup all
    compare strings exactly.
  - DATETIME values become integers. A due date that is a string the store
    cannot parse is not modelled, and neither is the empty string (which
    `dueDate || null` turns into NULL).
- Token internals. Expiry (`24h`), the signing secret and its fallback
  value, and the `iat`/`exp` claims are left to `sign` and `verify`.
- Hashing. The bcrypt cost factor and salt are folded into `hash`. The model
  does not relate `hash` and `compare` except where a lemma assumes it.
- JSON values of the wrong type. A number or an object in a string field is
  not modelled: body fields are strings, or integers for the due date.
  Lengths are counted in characters, not in UTF-16 code units.
- Js.ToUpper: maps only the ASCII letters and the long s. Other Unicode
  case mappings are not modelled. Some of them change the length of the
  string, but none of them can turn a value into `ASC`.
- TaskOrder.Before: the column order is fixed. NULL sorts first, which is
  SQL Server's order. Strings are compared by code point, not by the
  store's collation. The sortedness proofs use only that the order is total
  and transitive (`BeforeTotal`, `BeforeTransitive`).
- TaskStore.TaskTable.GetTasks: the order among rows with equal sort keys
  is left unspecified, as it is for `ORDER BY` itself.
- Query parameters. `status`, `priority`, `sortBy` and `order` are taken
  as single strings (`TaskQuery`). Express turns a repeated key such as
  `?order=asc&order=desc` into an array, and a bracketed key into an
  object. In the source, `order.toUpperCase()` then throws and the request
  is answered 500 through `next(error)`. The model cannot express such an
  input.
- Identity values. They are taken as consecutive: user ids are positions
  plus one, and `TaskTable.nextId` grows by one per insert. SQL Server's
  `IDENTITY(1,1)` can skip values, for example after a failed INSERT or after
  a restart. The model does not capture such gaps.
- Route parameters. The conversion of `:id` to an integer is not modelled.
  Ids are integers here.
- The route wiring is not part of this model: the guard runs before every
  task route and before the profile route. Deleting a user, and the
  cascade delete of that user's tasks, are not part of this model either.
  No handler in the core does either.
- `src/app.js` (bootstrap, health and table-listing endpoints) and the
  provisioning code in `src/config/database.js` are not part of this
  model. Three things from the latter are reflected. The
  `DEFAULT GETDATE()` of `createdAt` and `updatedAt` gives both timestamps
  of a new row the value `now`. The UNIQUE constraints on username and
  email become `WellFormedUsers`. The identity columns become the next-id
  rule. The default status `pending` and priority `medium` come from the
  create handler's own destructuring defaults. The INSERT always supplies
  both columns, so the table's defaults for them never apply.

## Findings

| source | as written | input that shows it | evidently intended | confidence | as-written member | corrected member |
|---|---|---|---|---|---|---|
| src/controllers/taskController.js:231-241 | the counters are `SUM(CASE WHEN ... THEN 1 ELSE 0 END)`, and over zero rows SQL Server's `SUM` is NULL, so a user without tasks gets `total: 0` with every other counter `null` | stats for a user who owns no task | every counter is a non-negative integer: all zeros for a user without tasks, and pending + in_progress + completed + cancelled = total | high for the NULL result of `SUM` over zero rows in SQL Server; not executed | TaskStats.StatsAsWrittenNullWithoutTasks | TaskStats.StatusCountsAddUp |
