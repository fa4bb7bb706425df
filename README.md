# Table-access layer of a CRUD service over poles and user accounts

This project models `DBService`, the class through which the service reads
and writes its PostgreSQL tables, together with the four errors it raises.
`DBService` holds a fixed registry of two tables (`user_account` and `pole`)
and their ordered columns. Every operation does the same three things:

- it validates the table name and the column names it is given against that registry;
- it builds the SQL text with one `%s` marker per value, and sends the text and its parameters through a cursor;
- it turns the engine's answer into a value, or into `InvalidTableError`, `InvalidColumnsError`, `EntryNotFoundError` or `DBError`.

Deletion deactivates the row on a table that has an `is_active` column and
removes it otherwise. Update and delete demand that exactly one row is
affected. Select without an id returns every matching row. Select with an id
returns the first matching row (as written it never does; see Findings), or
raises `EntryNotFoundError`.

The modules:

- `Values`: column values, rows, and keyword arguments as ordered pairs.
- `Collections`: the list-through-set difference and intersection.
- `Text`: joining, splitting, newline removal, counting `%s` markers, and integer printing and parsing.
- `Schema`: the registry and its three lookups.
- `Exceptions`: the error values and their messages.
- `Sql`: the statement texts.
- `Engine`: the database as an abstract state, with one function per kind of statement.
- `DbService`: each operation as a function giving its outcome from the state before the call, and the class `DBService`. The class's methods build the query step by step and are proved to produce exactly that outcome.
- `Properties`: what the operations promise, stated over those outcomes.

## Model

| member | source | states |
|---|---|---|
| Schema.IsValidTable | common/db_service.py:30-34 | a table is valid exactly when it is `user_account` or `pole` |
| Schema.GetValidColumns | common/db_service.py:19-27 | the registered columns of a valid table, `[]` for any other name; the `{table}_id` key comes first; the columns are distinct identifiers; only `user_account` has `is_active` |
| Schema.GetInvalidColumns | common/db_service.py:36-44 | a column is reported exactly when it was given and is not registered; none is reported twice; the result is empty iff every given column is registered; for an unknown table every given column is reported |
| Collections.Difference | common/db_service.py:41-43 | `list(set(xs) - set(ys))`: exactly the elements of xs that are not in ys, none repeated |
| Collections.Intersection | common/db_service.py:109-110 | `list(set(xs) & set(ys))`: exactly the common elements, none repeated; empty iff xs and ys share nothing |
| Exceptions.NewDBError | common/exceptions.py:36-41 | a DBError for the table; in debug mode the message is the engine's diagnostic with its line breaks removed (unchanged if it had none, and made only of its characters); otherwise the fixed generic text |
| Exceptions.InvalidColumnsMessageNamesColumns | common/exceptions.py:16-22 | the message names the table and lists exactly the given columns, in order; splitting it on `, ` gives the columns back |
| Exceptions.EntryNotFoundMessageNamesId | common/exceptions.py:51-56 | the message names the table, and parsing the printed id gives the id back |
| Exceptions.InvalidTableMessageNamesTable | common/exceptions.py:66-69 | the message gives the table name back |
| Text.SplitJoin | common/exceptions.py:20 | joining names that contain no comma with `, ` and splitting the result gives back the names |
| Text.ParseIntToString | common/exceptions.py:54 | printing an integer and parsing the text gives back that integer, negatives included |
| Text.RemoveNewlinesAppend | common/db_service.py:78 | removing line breaks distributes over concatenation |
| Sql.InsertQueryPlaceholders | common/db_service.py:58-78 | the INSERT text has no line break and exactly one `%s` per column |
| Sql.UpdateQueryPlaceholders | common/db_service.py:97-121 | the UPDATE text has one `%s` per column set plus one for the id |
| Sql.SelectQueryPlaceholders | common/db_service.py:184-229 | the SELECT text has no line break and exactly one `%s` per filter column |
| Engine.CountPositive | common/db_service.py:129-131 | the affected-row count is positive exactly when some row matches the statement's WHERE clause |
| Engine.CountAtMostOne | common/db_service.py:130 | while ids are unique, a statement scoped to one id affects at most one row |
| Engine.RemovedRows | common/db_service.py:148-151 | DELETE keeps exactly the rows without that id, and removes as many rows as it reports affected |
| Engine.DeactivatedRows | common/db_service.py:154-158 | each active row with the id has its `is_active` set to FALSE and keeps its other columns; every other row (an inactive one with the id included) is untouched; afterwards no row with the id is active |
| Engine.SelectedRows | common/db_service.py:230-233 | a row is fetched exactly when it is the selected columns of a stored row that meets every filter (and is active where the table has the flag) |
| DbService.SelectLeavesDatabase | common/db_service.py:176-242 | select never changes the database |
| DbService.InsertKeepsWellformed | common/db_service.py:53-87 | after any insert, the database still holds the registered tables, and each row has a unique non-null id |
| DbService.UpdateKeepsWellformed | common/db_service.py:90-136 | the same after any update |
| DbService.DeleteKeepsWellformed | common/db_service.py:139-174 | the same after any delete |
| DbService.DBService.InsertData | common/db_service.py:53-87 | returns, stores and sends exactly what `InsertOutcome` gives for the state before the call, and keeps the database well formed |
| DbService.DBService.UpdateData | common/db_service.py:90-136 | returns, stores and sends exactly what `UpdateOutcome` gives, and keeps the database well formed |
| DbService.DBService.DeleteData | common/db_service.py:139-174 | returns, stores and sends exactly what `DeleteOutcome` gives, and keeps the database well formed |
| DbService.DBService.SelectQueryText | common/db_service.py:184-229 | the text built step by step (template, filter condition, active-only condition, line breaks removed) equals `SelectQuery` |
| DbService.DBService.SelectData | common/db_service.py:176-242 | returns and sends exactly what `SelectOutcome` gives, with the id filter bound to the id asked for; the database is unchanged |
| Properties.UnknownTableRejected | common/db_service.py:65-66 | for an unknown table, all four operations raise InvalidTableError, send nothing and change nothing |
| Properties.InsertRejectsInvalidColumns | common/db_service.py:67-70 | an unregistered column makes insert raise InvalidColumnsError naming exactly the unregistered columns, before anything is sent |
| Properties.UpdateRejectsInvalidColumns | common/db_service.py:104-106 | the same for update |
| Properties.UpdateRejectsExcludedColumns | common/db_service.py:107-112 | setting an excluded column raises InvalidColumnsError naming exactly the columns both excluded and set; nothing is sent |
| Properties.FilterColumnsInvalid | common/db_service.py:203-211 | the unregistered columns among select's filters (the keyword filters plus, with an id, the key) are exactly the unregistered keyword filters |
| Properties.SelectRejectsInvalidFilters | common/db_service.py:209-214 | an unregistered filter column raises InvalidColumnsError naming exactly the unregistered filter columns, before anything is sent |
| Properties.InsertStatement | common/db_service.py:71-81 | a validated insert sends one line-break-free statement whose parameters are the values in column order, one per `%s` |
| Properties.UpdateStatement | common/db_service.py:116-128 | a validated update sends one statement whose parameters are the new values followed by the id, one per `%s` |
| Properties.SelectStatement | common/db_service.py:205-232 | a validated select sends one line-break-free statement whose parameters are the filter values, one per `%s` |
| Properties.InsertGeneratesId | common/db_service.py:79-87 | an insert without an explicit id returns the next sequence value; it appends the new row and advances the sequence |
| Properties.NewRowHolds | common/db_service.py:58-63 | the inserted row holds the generated id and every given value; on `user_account` it is active unless told otherwise |
| Properties.InsertThenSelectById | common/db_service.py:53-87 | round trip with the corrected select (`SelectOutcome`, see Findings): selecting by the id an insert returned answers that row on every valid column, holding the id and every inserted value; as written, select by id never answers a row (`Properties.SelectByIdAsWrittenNeverFinds`) |
| Properties.InsertSuccessStoresRow | common/db_service.py:79-87 | every validated insert that succeeds, with the key given or generated, appends the row built from the given values over the defaults, returns that row's id and leaves other tables untouched |
| Properties.InsertFailureIsDBError | common/db_service.py:79-86 | whenever a validated insert fails, the error is a DBError for the table (generic text outside debug mode), no row is stored and other tables are untouched; only the table's sequence may have moved |
| Properties.InsertRefusedChangesNothing | common/db_service.py:79-86 | an insert with no column or with an engine error fails and leaves the database exactly as it was |
| Properties.UpdateMissingEntry | common/db_service.py:128-133 | updating an id no row has raises EntryNotFoundError itself, not a DBError, and changes nothing, whichever columns are set (the key column included) |
| Properties.UpdateSetsRow | common/db_service.py:116-131 | updating an existing id sets the given columns on that row alone, whichever columns they are (the key column included) as long as the keys stay unique; other rows, the sequence and other tables are untouched |
| Properties.UpdateFailureIsDBError | common/db_service.py:134-136 | an engine failure or an empty SET reaches the caller as a DBError for the table (with the generic message outside debug mode), and nothing changes |
| Properties.SoftDeleteDeactivates | common/db_service.py:154-169 | deleting a `user_account` row clears its `is_active` flag; the row stays, every other row, the id sequence and the other table are untouched |
| Properties.HardDeleteRemoves | common/db_service.py:148-169 | deleting a `pole` row removes that row alone; the id sequence and the other table are untouched |
| Properties.DeleteFailureIsDBError | common/db_service.py:172-174 | an engine failure of delete reaches the caller as a DBError for the table (generic text outside debug mode), and nothing changes |
| Properties.DeleteMissingEntry | common/db_service.py:163-171 | deleting an id with no targeted row (on `user_account`, no active one) raises EntryNotFoundError and changes nothing |
| Properties.SoftDeleteTwice | common/db_service.py:154-169 | a second delete of the same `user_account` id raises EntryNotFoundError |
| Properties.SelectReturnsMatchingRows | common/db_service.py:205-242 | without an id, select returns the selected columns of exactly the stored rows that match every filter (and, on `user_account`, are active) |
| Properties.ChosenById | common/db_service.py:203-218 | with an id, select's condition holds for a row exactly when the row has that id (and is active where only active rows count) and meets every other keyword filter |
| Properties.SelectByIdFindsRow | common/db_service.py:237-239 | with an id and any keyword filters, select returns the selected columns of the row with that id when it meets the other filters (and is active on `user_account`) |
| Properties.SelectByIdMissing | common/db_service.py:237-241 | with an id and any keyword filters, when no row has that id and meets the other filters (on `user_account`, no active one), select raises EntryNotFoundError; with `SelectByIdFindsRow` this gives success exactly when such a row exists |
| Properties.SelectFailureIsDBError | common/db_service.py:230-236 | an engine failure of select reaches the caller as a DBError for the table (generic text outside debug mode), and nothing changes |
| Properties.SoftDeletedRowNotSelected | common/db_service.py:221-222 | after a soft delete, selecting the row by its id raises EntryNotFoundError |
| Properties.SelectByIdAsWrittenNeverFinds | common/db_service.py:202-204 | as written, a select with any truthy id never succeeds, because the id filter is bound to None |

## Left out

- The SQL engine is not modelled as SQL. `Engine` stands for it: an abstract state with one function per statement kind. Rows are kept in native order. The engine enforces the primary key. The input `fault` is a rejection the server reports with an SQLSTATE code that leaves nothing behind: for insert, an error raised before the row is built (a syntax error, a literal that cannot be cast to the column's type); for update, delete and select, any such error, since the statement is rolled back.
- Column defaults are assumed, because the table definitions are not part of this model: the key comes from a sequence, `is_active` defaults to TRUE, and everything else defaults to NULL. On insert, the sequence advances whenever it supplied the key, even when the row is then refused for a duplicate key.
- Properties.InsertRefusedChangesNothing: an insert that violates a constraint other than the primary key (NOT NULL, UNIQUE or CHECK on another column) is not modelled. PostgreSQL draws the key's `nextval` before it checks those constraints and does not roll the sequence back, so there the sequence would move although no row is stored.
- Values are compared and stored by tag (`Int`, `Text`, ...). The views hand the service strings from `request.args` and `request.form`, and psycopg2 sends them as quoted literals that PostgreSQL casts implicitly to the column's type. So `GET /poles?lat=5` matches a numeric 5 in PostgreSQL but not in the model, and a PUT that echoes `pole_id=5` stores the key as `Text("5")` in the model, after which a delete of id 5 raises EntryNotFoundError there. The select, update and delete lemmas hold for values compared by tag.
- The connection and cursor are left out: `execute`, `rowcount`, `fetchone`, `fetchall` and the commit/rollback of `with db_connection`. A refused statement leaves the state as it was, which is what the rollback gives. The statements sent are recorded in `executed`.
- Failures without an SQLSTATE code are left out. A client-side driver error, such as a lost connection, has `pgcode` None. An exception that is not from the driver, such as one raised by `fetchone()[0]`, has no `pgcode` at all. For both, `errorcodes.lookup(psycopg2_error.pgcode[:2])` in `DBError.__init__` itself raises, so the caller gets that error rather than a DBError. The model's DBError results stand only for errors that carry a code.
- Logging with `log_error` is left out. So are the `error_code` lookup through `pgcode` in `DBError` and the `status_code` fields of the errors. These are not part of this model.
- `FLASK_DEBUG` is read from the environment in the source. Here it is the boolean `flaskDebug`, fixed when the service is built. `os_environ.get('FLASK_DEBUG')` counts any non-empty value, "0" included, as debug on. `flaskDebug` is true exactly for such a value.
- Python lists a set in no fixed order. The model lists `set(...)` results in order of first occurrence, and the contracts promise only their elements and that none repeats.
- The engine's diagnostic is modelled as a string. The source passes the exception object to `DBError`, which formats it.
- Positional parameters are a sequence of values. The named `%(data_id)s` binding of delete is a map from `data_id` to the id.
- `DBService.SelectData` follows the corrected binding of the id filter (see Findings). `DbService.SelectOutcomeAsWritten` keeps the code as written.
- `DbService.DBService.SelectData` does not validate `exclude`. Neither does the source.
- `new_data.values() + [data_id]` in `update_data` works only under Python 2, where `values()` is a list. The model takes the Python 2 reading.
- The views, the Flask application, its configuration, the status codes and the debug application are not part of this model.
- `Fetch`, `RunSelect` and `SelectQueryText` are parts of `select_data` split out as methods of their own. The outcome they produce together is the one stated for `SelectData`.

## Findings

| source | as written | input that shows it | evidently intended | confidence | as-written member | corrected member |
|---|---|---|---|---|---|---|
| common/db_service.py:202-204 | with an id, `select_data` adds the filter `{table}_id = db_data`, and `db_data` is still None at that point, so the statement compares the key with NULL | `select_data('pole', data_id=1)` with a stored pole of id 1: no row matches, so it raises EntryNotFoundError | bind the id filter to `data_id` | not executed | DbService.SelectOutcomeAsWritten, Properties.SelectByIdAsWrittenNeverFinds | DbService.SelectOutcome, Properties.SelectByIdFindsRow |
