# fastapi-template core, modelled in Dafny

This project models the core of a FastAPI application template:

- **Users.** `UserController` applies the business rules: 404 for an unknown user, 409 for a user name or e-mail already in use, and soft and hard delete. It sits in front of `UserModel`, which runs raw SQL against a `users` table. Here the table is a map from id to row. Each statement is modelled by its effect on that map, including the errors the database reports: a missing bind parameter, an unknown column, a NULL or ill-typed value, or a duplicate on a unique index.
- **Request context.** `ContextMiddleware.dispatch` sets seven request-scoped `ContextVar` cells and stamps `X-Request-ID` on the response. In its `finally` block it resets every cell with its token. The cells are a `ContextStore` object, and the request is a `Request` object.
- **Errors.** `AppHttpException` builds a `detail` of message, context, caller location and extras. The two exception handlers shape the JSON error report in development and in production. The traceback helpers name files relative to the project root.
- **Database.** `Database` keeps its settings and builds the connection URL. `execute_query` shapes a statement's value and reports its failures. `call_procedure` collects a stored procedure's result sets and maps its errors, including the MariaDB `SIGNAL` code 1644.

Modules:

- `Wrappers`: Option and Result.
- `Json`: Python values, and dicts as insertion-ordered association lists.
- `Text`: strip, split/join, decimal and hexadecimal renderings.
- `Paths`: `PurePosixPath` parsing, `relative_to` and `parts[-depth:]`.
- `DbUrl`: the connection URL and how a driver reads it back.
- `Context`: the `ContextVar` cells.
- `Middleware`: the dispatch bracket.
- `Exceptions`: `AppHttpException`.
- `Handlers`: the two exception handlers.
- `Db`: `Database`.
- `Users`: the table and `UserModel`.
- `Controllers`: `UserController`.

## Model

| member | source | states |
|---|---|---|
| Context.ContextStore.constructor | app/core/context.py:3-27 | every cell starts with no value (the declared default None) |
| Context.ContextStore.Set | app/core/context.py:25-27 | `set` stores the value and returns a token holding the cell's previous state, "never set" included |
| Context.ContextStore.Reset | app/core/context.py:25-27 | `reset(token)` puts back the state the token remembers |
| Context.SetAllEffect | app/middleware/ContextMiddleware.py:25-37 | after a run of sets on distinct cells, each cell holds its value, each token holds the cell's prior state, and no other cell changes |
| Context.ResetAllEffect | app/middleware/ContextMiddleware.py:50-58 | resetting with a run of tokens on distinct cells restores each token's prior state and touches no other cell |
| Context.BracketRestores | app/middleware/ContextMiddleware.py:25-58 | resetting with the tokens of a run of sets on distinct cells gives back exactly the cells before the sets |
| Middleware.Request.constructor | app/middleware/ContextMiddleware.py:18 | a request keeps its method, path, host name, client and headers, and has no request id in its state yet |
| Middleware.RequestId | app/middleware/ContextMiddleware.py:20 | `token_hex(8)` gives 16 hexadecimal digits that decode back to the 8 random bytes |
| Middleware.HeaderGet | app/middleware/ContextMiddleware.py:36 | a header lookup is case-insensitive: it finds a value exactly when some header has the lower-cased name, and that header holds the value |
| Middleware.SetHeaderEffect | app/middleware/ContextMiddleware.py:46 | after `headers["X-Request-ID"] = id`, the header has exactly the one value `id`, every other header is unchanged, and a lookup returns `id` |
| Middleware.ReplaceFirstEffect | app/middleware/ContextMiddleware.py:46 | replacing an existing header leaves one value under its name and changes no other header |
| Middleware.AppendEffect | app/middleware/ContextMiddleware.py:46 | adding a new header leaves one value under its name and changes no other header |
| Middleware.AssignmentsDistinct | app/middleware/ContextMiddleware.py:25-37 | dispatch sets seven different cells |
| Middleware.ActiveCells | app/middleware/ContextMiddleware.py:20-37 | while the request runs, the cells hold the id, the client address or "unknown", the method, the path, the client host or None, the host name and the user agent |
| Middleware.Enter | app/middleware/ContextMiddleware.py:25-37 | the seven sets, in order, with their tokens in the same order |
| Middleware.Leave | app/middleware/ContextMiddleware.py:50-58 | the seven resets, first token first |
| Middleware.Dispatch | app/middleware/ContextMiddleware.py:17-58 | the application sees the cells set and `request.state.request_id`; a response gets the `X-Request-ID` header and keeps its status; an exception passes through; either way the cells end exactly as they began |
| Middleware.Stamp | app/middleware/ContextMiddleware.py:42-48 | an answer stays an answer with the same status, and a failure passes through unchanged |
| Exceptions.CallerInfo | app/exceptions/AppHttpException.py:33-64 | the location names the creating frame, `inspect.stack()[2]`: its function, its line, its file relative to the root or else its last two components, and its first code line stripped (None without code context) |
| Exceptions.NewAppHttpException | app/exceptions/AppHttpException.py:11-31 | an omitted message or status takes "Error interno del servidor" or 500; context and extras are kept as given; the location is the caller's |
| Exceptions.LocJsonEntries | app/exceptions/AppHttpException.py:57-64 | the location dict has exactly the keys file, function, line and code, in that order, holding the location's fields |
| Exceptions.DetailEntries | app/exceptions/AppHttpException.py:23-31 | `detail` has exactly the keys msg, context, loc and extra, in that order, holding the message, the context, the location and the extras |
| Exceptions.ExtrasOnlyUnderExtra | app/exceptions/AppHttpException.py:16-31 | keyword extras affect only `detail["extra"]`: the status and every other key are the same |
| Paths.RelativeTo | app/exceptions/AppHttpException.py:46 | `relative_to` succeeds exactly when the root is a prefix of the path, and gives back the remaining components |
| Paths.RelativeFile | app/exceptions/HandlerExceptions.py:94-97 | a file under the root is named relative to it, with no backslash left |
| Paths.ParsePathStr | app/exceptions/HandlerExceptions.py:91 | a parsed path reads back from its string unchanged |
| Paths.TraceFileUnderRoot | app/exceptions/HandlerExceptions.py:94-97 | under the root, the traceback file name is the relative path, the same one the caller location uses |
| Paths.TraceFileOutsideRoot | app/exceptions/HandlerExceptions.py:98-101 | outside the root, or with no root, the traceback file name is the path's last component alone |
| Paths.TailFileOutsideRoot | app/exceptions/AppHttpException.py:48-55 | outside the root, or with no root, the caller file is its last `depth` components joined by "/" |
| Paths.TailFileOfTopLevelFile | app/exceptions/AppHttpException.py:50-51 | a file directly under "/" and outside the root is named "//" followed by its name |
| Handlers.FullTracebackInfo | app/exceptions/HandlerExceptions.py:80-122 | one entry per frame, in order; the origin is the last entry, or the unknown location when there are no frames |
| Handlers.FullTraceback | app/exceptions/HandlerExceptions.py:125-151 | the same entries as `full_trace`, one per frame, in order |
| Handlers.ExceptionInfo | app/exceptions/HandlerExceptions.py:154-198 | the unknown location without a traceback; otherwise the last frame of the `tb_next` chain, with its file shortened and its source line stripped |
| Handlers.FrameInfoOutsideRoot | app/exceptions/HandlerExceptions.py:178-183 | with the default depth, a frame outside the root is named by its directory and file |
| Handlers.AppExceptionHandler | app/exceptions/HandlerExceptions.py:26-50 | status is the exception's status code; msg and type are always present; context appears only in development and only when truthy; loc appears only in development; no other key appears |
| Handlers.ErrorContext | app/exceptions/HandlerExceptions.py:59-62 | the development context holds the exception's class name and text |
| Handlers.GenericExceptionHandler | app/exceptions/HandlerExceptions.py:53-77 | status 500 with the fixed message and type; in development, also the class and text of the exception and the origin of the traceback (its last frame, or the unknown location); no other key appears |
| DbUrl.ParseDatabaseUrl | app/core/database.py:29 | the URL reads back to its fields when no field holds a delimiter that would end it early |
| DbUrl.SafeUrlRoundTrip | app/core/database.py:29 | with user name and password percent-encoded, any user name and password reach the driver unchanged |
| DbUrl.RawUrlLosesPassword | app/core/database.py:29 | as written, a password holding `@` never reaches the driver as configured |
| DbUrl.UnquoteQuote | app/core/database.py:29 | percent-decoding inverts percent-encoding for every string |
| Db.Database.constructor | app/core/database.py:12-29 | the settings are kept as given; the URL is the corrected one with user name and password percent-encoded, and it is exactly the f-string when neither holds a reserved character |
| Db.QueryErrorContextLayout | app/core/database.py:98-118 | the error context holds error_type, query and params in that order (the exception's own params replacing the query's), then message and sql when the exception carries them |
| Db.Database.ExecuteQuery | app/core/database.py:75-118 | the statement is committed; the value is the first row, all rows or `lastrowid or rowcount` as `fetchone` asks; any failure rolls back and raises the 500 with the error context |
| Db.ZipDictColumns | app/core/database.py:129-143 | with distinct column names, each row dict maps every column to the value at its position |
| Db.KeptAppend | app/core/database.py:126-153 | result sets without columns are dropped one by one, independently of the others |
| Db.CollectResultSets | app/core/database.py:148-153 | `False`, the lone list or the list of lists loses no result set |
| Db.ProcedureContextLayout | app/core/database.py:159-180 | the procedure error context holds type, code and message always, then `sp` for a non-empty name and `params` for non-empty parameters |
| Db.ProcedureError | app/core/database.py:159-187 | a failure raises the 500, with the procedure's own message for SIGNAL code 1644 and the generic one otherwise; an exception without two arguments raises IndexError instead |
| Db.Database.CallProcedure | app/core/database.py:120-190 | the value is the collection of the result sets that have columns; a connect or call failure is reported as its mapped error |
| Db.ConnectFailureMaskedAsWritten | app/core/database.py:189-190 | as written, a refused connection leaves as UnboundLocalError, not as the mapped error |
| Users.ColumnNamed | app/models/user.py:1-92 | a column name resolves to the column with that name, and to nothing else |
| Users.Lookup | app/models/user_model.py:21-63 | `SELECT … WHERE col = :v` finds nothing exactly when no row matches; otherwise it returns the stored row, the only one that matches |
| Users.LookupId | app/models/user_model.py:21-33 | `find_by_id` returns the row stored under the id, or None |
| Users.WhereUnique | app/models/user_model.py:35-63 | on a column with a unique index, at most one row matches a value |
| Users.NewestFirst | app/models/user_model.py:65-82 | `ORDER BY created_at DESC` lists each selected row exactly once, the newest first |
| Users.Listing | app/models/user_model.py:65-82 | `find_all` returns stored rows that pass the `is_active` filter, all of them, newest first, without repeats |
| Users.Total | app/models/user_model.py:161-179 | `count` equals the number of rows `find_all` returns for the same filter |
| Users.NewUser | app/models/user_model.py:84-122 | the INSERT fails on a missing bind parameter and succeeds exactly when all seven are present and of the column's type; the row takes the id, the timestamps and the given values, `is_active` defaulting to true and `is_superuser` to false |
| Users.CreateRow | app/models/user_model.py:101-118 | the INSERT also fails on a user name or e-mail already stored, and otherwise gives the new row |
| Users.CreateKeepsValid | app/models/user_model.py:101-118 | a successful insert keeps the table keyed by id and user names and e-mails unique |
| Users.CreateAfterChecks | app/controllers/user_controller.py:80-116 | once the name and e-mail are known free, the insert is refused only for the row's own values |
| Users.AssignColumn | app/models/user_model.py:136-141 | assigning one column changes that column and no other |
| Users.AssignAllColumns | app/models/user_model.py:136-141 | after the SET list, each named column holds its parameter, and every other column is unchanged |
| Users.UpdateRow | app/models/user_model.py:124-144 | no data makes an empty SET clause, which is refused; otherwise only the row with the id changes, the table keeps its ids, and the count is 1 or 0 |
| Users.UpdateSetsColumns | app/models/user_model.py:136-141 | an accepted update keeps the id and sets exactly the given columns |
| Users.UpdateIgnoresIdKey | app/models/user_model.py:141 | an `id` key in the data is overwritten by the id argument |
| Users.UpdateKeepsValid | app/models/user_model.py:124-144 | an accepted update keeps the table valid |
| Users.Deactivate | app/controllers/user_controller.py:152-166 | the soft delete's update always succeeds and only clears `is_active` |
| Users.SetClauseTargets | app/models/user_model.py:136 | the SET clause names each data key exactly once, in order |
| Users.SetClauseEmpty | app/models/user_model.py:136 | the SET clause is empty exactly when there is no data |
| Users.DeleteKeepsValid | app/models/user_model.py:146-159 | removing a row keeps the table valid |
| Users.UserModel.constructor | app/models/user_model.py:17-19 | the model starts on a valid table |
| Users.UserModel.Create | app/models/user_model.py:84-122 | the row is inserted under the next id, and that id is returned; a refused insert changes nothing |
| Users.UserModel.Update | app/models/user_model.py:124-144 | the table becomes the updated table and the row count is returned; a refused update changes nothing |
| Users.UserModel.Delete | app/models/user_model.py:146-159 | the row is removed and 1 or 0 is returned |
| Controllers.OwnEmailAllowed | app/controllers/user_controller.py:137-139 | resending one's own e-mail is never a conflict |
| Controllers.UpdateAfterEmailCheck | app/controllers/user_controller.py:136-147 | once the e-mail check passes, the update is never refused for a duplicate e-mail |
| Controllers.UserController.constructor | app/controllers/user_controller.py:17-18 | the controller holds a model over the given valid table |
| Controllers.UserController.GetUser | app/controllers/user_controller.py:20-42 | the stored row for a known id, and otherwise a 404 whose context names the id |
| Controllers.UserController.GetUserByUsername | app/controllers/user_controller.py:44-66 | the row holding the name when one exists, and otherwise a 404 whose context names it |
| Controllers.UserController.ListUsers | app/controllers/user_controller.py:68-78 | the stored rows passing the filter, all of them, newest first |
| Controllers.UserController.CreateUser | app/controllers/user_controller.py:80-116 | KeyError without a user name; a 409 for a taken name, checked before the e-mail; then a 409 for a taken e-mail; otherwise the inserted row as stored; the table changes only on success |
| Controllers.UserController.UpdateUser | app/controllers/user_controller.py:118-150 | a 404 for an unknown id; a 409 when the new e-mail belongs to another user; otherwise the update, returning the row as stored |
| Controllers.UserController.DeleteUser | app/controllers/user_controller.py:152-166 | a 404 for an unknown id; otherwise the row stays, with only `is_active` cleared |
| Controllers.UserController.HardDeleteUser | app/controllers/user_controller.py:168-182 | a 404 for an unknown id; otherwise the row is removed, and looking it up afterwards gives the 404 |

## Left out

- I/O is not modelled. That covers the SQLAlchemy engine, its pool and sessions, the network, logging and the `LOGGER_EXCEPTIONS_ENABLED` log lines. What a statement or a procedure call returns is a parameter.
- The randomness of `secrets.token_hex`, the clock behind `created_at`, `inspect.stack()`, the traceback and `linecache.getline` are parameters.
- `dict_utils.sanitize` is not part of this model. It is a function parameter.
- `ContextVar` isolation between concurrent tasks is not modelled. One request runs at a time against one store.
- Context.ContextStore.Reset: the RuntimeError of `ContextVar.reset` for a token used twice or made by another variable is not modelled. The middleware resets each cell once, with the token its own `set` returned.
- `current_user_id` is kept in the store, but the middleware never sets it. The model only proves that dispatch leaves it alone.
- Db.Database.constructor: stores the corrected URL, with user name and password percent-encoded (see the database.py:29 row under Findings). The URL the source builds is DbUrl.DatabaseUrl. The constructor's contract equates the two only when neither field holds a reserved character.
- Users.NewUser: SQL type coercion is simplified. A value must already be of the column's JSON kind, and anything else is BadValue.
- Users.NewUser: only an explicit None takes the COALESCE default. A missing key is a bind error (MissingParameter), as the driver reports it.
- Users.CreateRow: a row that breaks both checks is reported as a duplicate user name. The engine's order among several violations is not specified.
- Users.UpdateRow: a data key that is not a column is modelled as UnknownColumn. The SQL that such a key would splice into the statement text is not modelled.
- Users.UpdateRow: `updated_at` is not changed, because the raw UPDATE does not set it. A database-side `ON UPDATE` is not part of this model.
- Users.NewestFirst: rows with the same `created_at` are ordered by larger id first. The database leaves that order open.
- Users.Total: the `else 0` branch of `count` is not modelled. `COUNT(*)` always returns a row.
- Users.UserModel.Create: statements change the table directly rather than going through `Database.execute_query`. The controller's StoreFailed stands for the 500 that `execute_query` would raise.
- Users.UserModel.Update: the same holds for updates.
- Users.UserModel.Delete: the same holds for deletes.
- Users.Lookup: `find_by_*` return the row record rather than a dict of its columns. Users.Column gives the column view.
- Controllers.UserController.UpdateUser: like the source, it does not check user names. A clash surfaces as StoreFailed(DuplicateEntry("username")).
- Controllers.UserController.DeleteUser: the update's result is not examined. Users.Deactivate proves that it cannot fail.
- Paths.TailFile: a file directly under "/" is named "//name", because `"/".join(("/", name))` keeps the root component. Paths.TailFileOfTopLevelFile records this.
- Windows paths are not modelled. Paths are POSIX paths; only the backslash replacement of the source is.
- A POSIX path with exactly two leading slashes (`//x`) keeps `//` as its anchor in `pathlib`; `Paths.Parse` reads it like `/x`.
- The Starlette request and response objects are not modelled. The model keeps only the fields the middleware reads or writes.
- The HTTP status of the `JSONResponse` is taken to be the exception's own status code.

## Findings

| source | as written | input that shows it | evidently intended | confidence | as-written member | corrected member |
|---|---|---|---|---|---|---|
| app/core/database.py:29 | user name and password go into the URL unescaped | password `p@ss`: the driver reads the password up to the first `@` | the credentials reach the driver as configured (percent-encode them); Db.Database.constructor stores this corrected URL | not executed; medium | DbUrl.RawUrlLosesPassword | DbUrl.SafeUrlRoundTrip |
| app/core/database.py:189-190 | the outer `finally` closes `conn`, which is unbound when `engine.begin()` fails | a refused connection (MariaDB error 2003) | the connection failure reaches the caller as the mapped AppHttpException | not executed; high | Db.ConnectFailureMaskedAsWritten | Db.Database.CallProcedure |
