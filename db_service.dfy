/** The table-access layer: `DBService` validates a request against the
    schema registry, builds the statement text, sends it with its parameters,
    and turns the engine's answer into a result or one of the four errors.

    Each operation is specified by a function from the database state before
    the call to an `Outcome`: the result (a value or the error raised), the
    state afterwards, and the statements sent. The class's methods build
    their queries step by step as the source does and are proved to produce
    exactly that outcome. */
module DbService {

  import opened Values
  import opened Collections
  import opened Text
  import opened Schema
  import opened Exceptions
  import opened Sql
  import opened Engine

  /** What `select_data` returns: one row when asked by id, else every row fetched. */
  datatype Selection = One(row: Row) | Many(rows: seq<Row>)

  datatype Outcome<+T> = Outcome(result: Result<T, DbException>, db: Database, sent: seq<Statement>)

  /** The stored table, or an empty one for a name the database lacks. */
  function TableOf(db: Database, table: string): Table
  {
    if table in db then db[table] else Table([], 1)
  }

  /** `if data_id:` — an absent id and the id 0 both mean "no id". */
  predicate Truthy(dataId: Option<int>)
  {
    dataId.Some? && dataId.value != 0
  }

  /** A failed validation: the error, the state as it was, nothing sent. */
  function Refused<T>(db: Database, error: DbException): Outcome<T>
  {
    Outcome(Failure(error), db, [])
  }

  /** The end of the `with self.db_connection:` block of update and delete:
      a failure inside it is rolled back; a row count other than one raises
      EntryNotFoundError, which passes through unwrapped, and any other
      failure becomes a DBError. */
  function Commit(db: Database, table: string, dataId: int, run: Run<(Table, nat)>, sent: Statement,
                  flaskDebug: bool): Outcome<()>
  {
    match run
    case Rejected(diagnostic) => Outcome(Failure(NewDBError(table, diagnostic, flaskDebug)), db, [sent])
    case Completed((t, affected)) =>
      if affected != 1 then Outcome(Failure(EntryNotFoundError(table, dataId)), db, [sent])
      else Outcome(Success(()), db[table := t], [sent])
  }

  /** `insert_data(table, **kwargs)` */
  function InsertOutcome(db: Database, table: string, kwargs: Kwargs, fault: Option<string>,
                         flaskDebug: bool): Outcome<Value>
  {
    if !IsValidTable(table) then Refused(db, InvalidTableError(table))
    else if |GetInvalidColumns(table, Keys(kwargs))| > 0 then
      Refused(db, InvalidColumnsError(table, GetInvalidColumns(table, Keys(kwargs))))
    else
      var sent := Statement(InsertQuery(table, Keys(kwargs)), Positional(ValuesOf(kwargs)));
      var (t, run) := ExecInsert(TableOf(db, table), table, ToMap(kwargs), fault);
      match run
      case Rejected(diagnostic) => Outcome(Failure(NewDBError(table, diagnostic, flaskDebug)), db[table := t], [sent])
      case Completed(id) => Outcome(Success(id), db[table := t], [sent])
  }

  /** The columns both excluded and set, when anything is excluded. */
  function IllegalColumns(exclude: seq<string>, newData: Kwargs): seq<string>
  {
    if |exclude| > 0 then Intersection(exclude, Keys(newData)) else []
  }

  /** `update_data(table, data_id, new_data, exclude)` */
  function UpdateOutcome(db: Database, table: string, dataId: int, newData: Kwargs, exclude: seq<string>,
                         fault: Option<string>, flaskDebug: bool): Outcome<()>
  {
    if !IsValidTable(table) then Refused(db, InvalidTableError(table))
    else if |GetInvalidColumns(table, Keys(newData))| > 0 then
      Refused(db, InvalidColumnsError(table, GetInvalidColumns(table, Keys(newData))))
    else if |IllegalColumns(exclude, newData)| > 0 then
      Refused(db, InvalidColumnsError(table, IllegalColumns(exclude, newData)))
    else
      var sent := Statement(UpdateQuery(table, Keys(newData)), Positional(ValuesOf(newData) + [Int(dataId)]));
      Commit(db, table, dataId, ExecUpdate(TableOf(db, table), IdColumn(table), dataId, newData, fault), sent, flaskDebug)
  }

  /** `delete_data(table, data_id)`: deactivation where the table has the
      soft-delete flag, removal otherwise. */
  function DeleteOutcome(db: Database, table: string, dataId: int, fault: Option<string>,
                         flaskDebug: bool): Outcome<()>
  {
    if !IsValidTable(table) then Refused(db, InvalidTableError(table))
    else
      var softDelete := SoftDeleteColumn in GetValidColumns(table);
      var sent := Statement(DeleteQuery(table, softDelete), Named(map["data_id" := Int(dataId)]));
      var t := TableOf(db, table);
      var run := if softDelete then ExecDeactivate(t, IdColumn(table), dataId, fault)
                 else ExecDelete(t, IdColumn(table), dataId, fault);
      Commit(db, table, dataId, run, sent, flaskDebug)
  }

  /** The selected columns: the registered ones, less the excluded ones when any are given. */
  function Projection(table: string, exclude: seq<string>): seq<string>
  {
    if |exclude| > 0 then Difference(GetValidColumns(table), exclude) else GetValidColumns(table)
  }

  /** The filters `select_data` sends: the keyword filters, with the id
      column set to `idValue` when an id is asked for. */
  function Filters(table: string, dataId: Option<int>, filters: Kwargs, idValue: Value): Kwargs
  {
    if Truthy(dataId) then SetKey(filters, IdColumn(table), idValue) else filters
  }

  /** `select_data`, with the value bound to the id filter as a parameter. */
  function SelectWith(db: Database, table: string, dataId: Option<int>, exclude: seq<string>, filters: Kwargs,
                      fault: Option<string>, flaskDebug: bool, idValue: Value): Outcome<Selection>
  {
    if !IsValidTable(table) then Refused(db, InvalidTableError(table))
    else
      var kwargs := Filters(table, dataId, filters, idValue);
      var invalid := GetInvalidColumns(table, Keys(kwargs));
      if |invalid| > 0 then Refused(db, InvalidColumnsError(table, invalid))
      else
        var softDelete := SoftDeleteColumn in GetValidColumns(table);
        var projection := Projection(table, exclude);
        var sent := Statement(SelectQuery(table, projection, Keys(kwargs), softDelete), Positional(ValuesOf(kwargs)));
        Outcome(Answer(table, dataId, ExecSelect(TableOf(db, table), projection, kwargs, softDelete, fault), flaskDebug),
                db, [sent])
  }

  /** What `select_data` makes of the fetch: a DBError when it failed; with
      an id, the first row or EntryNotFoundError; otherwise every row. */
  function Answer(table: string, dataId: Option<int>, run: Run<seq<Row>>, flaskDebug: bool): Result<Selection, DbException>
  {
    match run
    case Rejected(diagnostic) => Failure(NewDBError(table, diagnostic, flaskDebug))
    case Completed(rows) =>
      if !Truthy(dataId) then Success(Many(rows))
      else if |rows| > 0 then Success(One(rows[0]))
      else Failure(EntryNotFoundError(table, dataId.value))
  }

  /** The value the id filter is evidently meant to carry: the id asked for. */
  function IdBinding(dataId: Option<int>): Value
  {
    match dataId
    case Some(id) => Int(id)
    case None => Null
  }

  /** `select_data` as evidently intended: the id filter is bound to the id asked for. */
  function SelectOutcome(db: Database, table: string, dataId: Option<int>, exclude: seq<string>, filters: Kwargs,
                         fault: Option<string>, flaskDebug: bool): Outcome<Selection>
  {
    SelectWith(db, table, dataId, exclude, filters, fault, flaskDebug, IdBinding(dataId))
  }

  /** `select_data` as written: the id filter is bound to `db_data`, which is still None. */
  function SelectOutcomeAsWritten(db: Database, table: string, dataId: Option<int>, exclude: seq<string>,
                                  filters: Kwargs, fault: Option<string>, flaskDebug: bool): Outcome<Selection>
  {
    SelectWith(db, table, dataId, exclude, filters, fault, flaskDebug, Null)
  }

  /** Selecting never changes the database, whatever the request and
      whichever value the id filter is bound to. */
  lemma SelectLeavesDatabase(db: Database, table: string, dataId: Option<int>, exclude: seq<string>, filters: Kwargs,
                             fault: Option<string>, flaskDebug: bool, idValue: Value)
    ensures SelectWith(db, table, dataId, exclude, filters, fault, flaskDebug, idValue).db == db
  {
  }

  /** A request that passes validation sends one SELECT and answers from what it fetched. */
  lemma SelectSends(db: Database, table: string, dataId: Option<int>, exclude: seq<string>, filters: Kwargs,
                    fault: Option<string>, flaskDebug: bool, idValue: Value)
    requires IsValidTable(table)
    requires |GetInvalidColumns(table, Keys(Filters(table, dataId, filters, idValue)))| == 0
    ensures SelectWith(db, table, dataId, exclude, filters, fault, flaskDebug, idValue).result
        == Answer(table, dataId,
                  ExecSelect(TableOf(db, table), Projection(table, exclude), Filters(table, dataId, filters, idValue),
                             SoftDeleteColumn in GetValidColumns(table), fault),
                  flaskDebug)
    ensures SelectWith(db, table, dataId, exclude, filters, fault, flaskDebug, idValue).sent
        == [Statement(SelectQuery(table, Projection(table, exclude), Keys(Filters(table, dataId, filters, idValue)),
                                  SoftDeleteColumn in GetValidColumns(table)),
                      Positional(ValuesOf(Filters(table, dataId, filters, idValue))))]
  {
  }

  // ---------------------------------------------------------------- invariant

  lemma IdIsNotFlag(table: string)
    requires IsValidTable(table)
    ensures IdColumn(table) != SoftDeleteColumn
  {
  }

  /** Insertion keeps the database well formed, whatever the request. */
  lemma InsertKeepsWellformed(db: Database, table: string, kwargs: Kwargs, fault: Option<string>, flaskDebug: bool)
    requires Wellformed(db)
    ensures Wellformed(InsertOutcome(db, table, kwargs, fault, flaskDebug).db)
  {
    if IsValidTable(table) {
      var t := ExecInsert(db[table], table, ToMap(kwargs), fault).0;
      assert KeysUnique(t.rows, IdColumn(table));
      var after := db[table := t];
      assert forall other :: other in after ==> KeysUnique(after[other].rows, IdColumn(other));
    }
  }

  /** A request that passes validation and that the engine accepts returns
      the engine's id and stores the engine's table. */
  lemma InsertStores(db: Database, table: string, kwargs: Kwargs, fault: Option<string>, flaskDebug: bool,
                     stored: Table, id: Value)
    requires IsValidTable(table) && |GetInvalidColumns(table, Keys(kwargs))| == 0
    requires ExecInsert(TableOf(db, table), table, ToMap(kwargs), fault) == (stored, Completed(id))
    ensures InsertOutcome(db, table, kwargs, fault, flaskDebug).result == Success(id)
    ensures InsertOutcome(db, table, kwargs, fault, flaskDebug).db == db[table := stored]
  {
  }

  /** A request that passes validation stores the table the engine leaves
      and answers the engine's id, or a DBError made from its diagnostic. */
  lemma InsertSettles(db: Database, table: string, kwargs: Kwargs, fault: Option<string>, flaskDebug: bool)
    requires IsValidTable(table) && |GetInvalidColumns(table, Keys(kwargs))| == 0
    ensures InsertOutcome(db, table, kwargs, fault, flaskDebug).db
        == db[table := ExecInsert(TableOf(db, table), table, ToMap(kwargs), fault).0]
    ensures ExecInsert(TableOf(db, table), table, ToMap(kwargs), fault).1.Rejected? ==>
      InsertOutcome(db, table, kwargs, fault, flaskDebug).result
        == Failure(NewDBError(table, ExecInsert(TableOf(db, table), table, ToMap(kwargs), fault).1.diagnostic, flaskDebug))
    ensures ExecInsert(TableOf(db, table), table, ToMap(kwargs), fault).1.Completed? ==>
      InsertOutcome(db, table, kwargs, fault, flaskDebug).result
        == Success(ExecInsert(TableOf(db, table), table, ToMap(kwargs), fault).1.value)
  {
  }

  /** A request that passes validation sends its UPDATE, and what the caller
      sees is decided by the engine's answer alone. */
  lemma UpdateCommits(db: Database, table: string, dataId: int, newData: Kwargs, exclude: seq<string>,
                      fault: Option<string>, flaskDebug: bool)
    requires IsValidTable(table) && |GetInvalidColumns(table, Keys(newData))| == 0
    requires forall c :: c in exclude ==> c !in Keys(newData)
    ensures var o := UpdateOutcome(db, table, dataId, newData, exclude, fault, flaskDebug);
      var sent := Statement(UpdateQuery(table, Keys(newData)), Positional(ValuesOf(newData) + [Int(dataId)]));
      o == Commit(db, table, dataId, ExecUpdate(TableOf(db, table), IdColumn(table), dataId, newData, fault), sent, flaskDebug)
  {
    assert |IllegalColumns(exclude, newData)| == 0;
  }

  /** Update keeps the database well formed, whatever the request. */
  lemma UpdateKeepsWellformed(db: Database, table: string, dataId: int, newData: Kwargs, exclude: seq<string>,
                              fault: Option<string>, flaskDebug: bool)
    requires Wellformed(db)
    ensures Wellformed(UpdateOutcome(db, table, dataId, newData, exclude, fault, flaskDebug).db)
  {
  }

  /** Delete keeps the database well formed, whatever the request. */
  lemma DeleteKeepsWellformed(db: Database, table: string, dataId: int, fault: Option<string>, flaskDebug: bool)
    requires Wellformed(db)
    ensures Wellformed(DeleteOutcome(db, table, dataId, fault, flaskDebug).db)
  {
    if IsValidTable(table) && fault.None? {
      var rows := db[table].rows;
      if SoftDeleteColumn in GetValidColumns(table) {
        IdIsNotFlag(table);
        DeactivatedKeepsKeys(rows, IdColumn(table), dataId);
      } else {
        RemovedKeepsKeys(rows, IdColumn(table), dataId);
      }
    }
  }

  // ---------------------------------------------------------------- the service

  class DBService {

    /** The debug flag read once from the environment. */
    const flaskDebug: bool
    /** The database behind the connection. */
    var tables: Database
    /** Every statement sent through the cursor, in order. */
    var executed: seq<Statement>

    ghost predicate Valid()
      reads this
    {
      Wellformed(tables)
    }

    constructor (db: Database, flaskDebug: bool)
      requires Wellformed(db)
      ensures Valid()
      ensures tables == db && executed == [] && this.flaskDebug == flaskDebug
    {
      this.flaskDebug := flaskDebug;
      tables := db;
      executed := [];
    }

    method InsertData(table: string, kwargs: Kwargs, fault: Option<string>) returns (r: Result<Value, DbException>)
      requires Valid()
      modifies this
      ensures Valid()
      ensures var o := InsertOutcome(old(tables), table, kwargs, fault, flaskDebug);
              r == o.result && tables == o.db && executed == old(executed) + o.sent
    {
      InsertKeepsWellformed(tables, table, kwargs, fault, flaskDebug);
      if !IsValidTable(table) {
        return Failure(InvalidTableError(table));
      }
      var columnsToInsert := Join(", ", Keys(kwargs));
      var invalidColumns := GetInvalidColumns(table, Keys(kwargs));
      if |invalidColumns| > 0 {
        return Failure(InvalidColumnsError(table, invalidColumns));
      }
      var valuesToInsert := ValuesOf(kwargs);
      var valuesPlaceholders := Join(", ", Markers(|valuesToInsert|));
      var insertQuery := InsertTemplate(table, columnsToInsert, valuesPlaceholders);
      insertQuery := RemoveNewlines(insertQuery);
      executed := executed + [Statement(insertQuery, Positional(valuesToInsert))];
      var (t, run) := ExecInsert(tables[table], table, ToMap(kwargs), fault);
      tables := tables[table := t];
      match run
      case Rejected(diagnostic) =>
        r := Failure(NewDBError(table, diagnostic, flaskDebug));
      case Completed(insertId) =>
        r := Success(insertId);
    }

    method UpdateData(table: string, dataId: int, newData: Kwargs, exclude: seq<string>, fault: Option<string>)
      returns (r: Result<(), DbException>)
      requires Valid()
      modifies this
      ensures Valid()
      ensures var o := UpdateOutcome(old(tables), table, dataId, newData, exclude, fault, flaskDebug);
              r == o.result && tables == o.db && executed == old(executed) + o.sent
    {
      UpdateKeepsWellformed(tables, table, dataId, newData, exclude, fault, flaskDebug);
      if !IsValidTable(table) {
        return Failure(InvalidTableError(table));
      }
      var invalidColumns := GetInvalidColumns(table, Keys(newData));
      if |invalidColumns| > 0 {
        return Failure(InvalidColumnsError(table, invalidColumns));
      }
      var illegalColumns: seq<string> := [];
      if |exclude| > 0 {
        illegalColumns := Intersection(exclude, Keys(newData));
      }
      if |illegalColumns| > 0 {
        return Failure(InvalidColumnsError(table, illegalColumns));
      }
      var columnValuePairsPlaceholders := Join(", ", Assignments(Keys(newData)));
      var updateQuery := UpdateTemplate(table, columnValuePairsPlaceholders);
      var queryParams := ValuesOf(newData) + [Int(dataId)];
      executed := executed + [Statement(updateQuery, Positional(queryParams))];
      var run := ExecUpdate(tables[table], IdColumn(table), dataId, newData, fault);
      match run
      case Rejected(diagnostic) =>
        r := Failure(NewDBError(table, diagnostic, flaskDebug));
      case Completed((t, affectedRows)) =>
        if affectedRows != 1 {
          r := Failure(EntryNotFoundError(table, dataId));
        } else {
          tables := tables[table := t];
          r := Success(());
        }
    }

    method DeleteData(table: string, dataId: int, fault: Option<string>) returns (r: Result<(), DbException>)
      requires Valid()
      modifies this
      ensures Valid()
      ensures var o := DeleteOutcome(old(tables), table, dataId, fault, flaskDebug);
              r == o.result && tables == o.db && executed == old(executed) + o.sent
    {
      DeleteKeepsWellformed(tables, table, dataId, fault, flaskDebug);
      if !IsValidTable(table) {
        return Failure(InvalidTableError(table));
      }
      var canDeactivate := SoftDeleteColumn in GetValidColumns(table);
      var queryToExecute := if canDeactivate then DeactivateTemplate(table) else DeleteTemplate(table);
      queryToExecute := RemoveNewlines(queryToExecute);
      executed := executed + [Statement(queryToExecute, Named(map["data_id" := Int(dataId)]))];
      var run;
      if canDeactivate {
        run := ExecDeactivate(tables[table], IdColumn(table), dataId, fault);
      } else {
        run := ExecDelete(tables[table], IdColumn(table), dataId, fault);
      }
      match run
      case Rejected(diagnostic) =>
        r := Failure(NewDBError(table, diagnostic, flaskDebug));
      case Completed((t, affectedRows)) =>
        if affectedRows != 1 {
          r := Failure(EntryNotFoundError(table, dataId));
        } else {
          tables := tables[table := t];
          r := Success(());
        }
    }

    /** The SELECT text of `select_data`, built as the source builds it:
        the template, then the filter condition, then the line breaks removed. */
    static method SelectQueryText(table: string, columnsToSelect: seq<string>, filterColumns: seq<string>,
                                  softDelete: bool) returns (selectQuery: string)
      ensures selectQuery == SelectQuery(table, columnsToSelect, filterColumns, softDelete)
    {
      var template := SelectTemplate(table, Join(", ", columnsToSelect));
      selectQuery := template;
      if |filterColumns| > 0 {
        var placeholders := Join(" AND ", Assignments(filterColumns));
        selectQuery := selectQuery + (" WHERE " + placeholders);
        if softDelete {
          selectQuery := selectQuery + " AND is_active=TRUE ";
          assert selectQuery == template + (" WHERE " + placeholders + " AND is_active=TRUE ");
        } else {
          assert selectQuery == template + (" WHERE " + placeholders + "");
        }
      } else if softDelete {
        selectQuery := selectQuery + " WHERE is_active=TRUE";
      } else {
        assert selectQuery == template + "";
      }
      selectQuery := RemoveNewlines(selectQuery);
    }

    /** The `try` block of `select_data` and what follows it: run the
        statement, wrap a failure in a DBError, and with an id answer the
        first row or EntryNotFoundError. */
    method Fetch(table: string, dataId: Option<int>, statement: Statement, projection: seq<string>,
                 kwargs: Kwargs, softDelete: bool, fault: Option<string>) returns (r: Result<Selection, DbException>)
      requires table in tables
      modifies this
      ensures tables == old(tables)
      ensures executed == old(executed) + [statement]
      ensures r == Answer(table, dataId, ExecSelect(tables[table], projection, kwargs, softDelete, fault), flaskDebug)
    {
      executed := executed + [statement];
      var run := ExecSelect(tables[table], projection, kwargs, softDelete, fault);
      match run
      case Rejected(diagnostic) =>
        return Failure(NewDBError(table, diagnostic, flaskDebug));
      case Completed(dbData) =>
        if Truthy(dataId) {
          if |dbData| > 0 {
            return Success(One(dbData[0]));
          }
          return Failure(EntryNotFoundError(table, dataId.value));
        }
        return Success(Many(dbData));
    }

    /** The part of `select_data` after validation: build the text, send it, answer. */
    method RunSelect(table: string, dataId: Option<int>, ghost exclude: seq<string>, ghost filters: Kwargs,
                     columnsToSelect: seq<string>, kwargs: Kwargs, softDelete: bool, fault: Option<string>)
      returns (r: Result<Selection, DbException>)
      requires Valid() && IsValidTable(table)
      requires columnsToSelect == Projection(table, exclude)
      requires kwargs == Filters(table, dataId, filters, IdBinding(dataId))
      requires |GetInvalidColumns(table, Keys(kwargs))| == 0
      requires softDelete == (SoftDeleteColumn in GetValidColumns(table))
      modifies this
      ensures Valid()
      ensures var o := SelectOutcome(old(tables), table, dataId, exclude, filters, fault, flaskDebug);
              r == o.result && tables == o.db && executed == old(executed) + o.sent
    {
      SelectLeavesDatabase(tables, table, dataId, exclude, filters, fault, flaskDebug, IdBinding(dataId));
      SelectSends(tables, table, dataId, exclude, filters, fault, flaskDebug, IdBinding(dataId));
      var selectQuery := SelectQueryText(table, columnsToSelect, Keys(kwargs), softDelete);
      r := Fetch(table, dataId, Statement(selectQuery, Positional(ValuesOf(kwargs))), columnsToSelect, kwargs, softDelete, fault);
    }

    /** Follows the corrected binding of the id filter (see `SelectOutcome`). */
    method SelectData(table: string, dataId: Option<int>, exclude: seq<string>, filters: Kwargs,
                      fault: Option<string>) returns (r: Result<Selection, DbException>)
      requires Valid()
      modifies this
      ensures Valid()
      ensures var o := SelectOutcome(old(tables), table, dataId, exclude, filters, fault, flaskDebug);
              r == o.result && tables == o.db && executed == old(executed) + o.sent
    {
      if !IsValidTable(table) {
        return Failure(InvalidTableError(table));
      }
      var validColumns := GetValidColumns(table);
      var columnsToSelect;
      if |exclude| > 0 {
        columnsToSelect := Difference(validColumns, exclude);
      } else {
        columnsToSelect := validColumns;
      }
      var kwargs := filters;
      if Truthy(dataId) {
        kwargs := SetKey(kwargs, IdColumn(table), IdBinding(dataId));
      }
      var filterColumns := Keys(kwargs);
      if |filterColumns| > 0 {
        var invalidFilterColumns := GetInvalidColumns(table, filterColumns);
        if |invalidFilterColumns| > 0 {
          return Failure(InvalidColumnsError(table, invalidFilterColumns));
        }
      }
      var softDelete := SoftDeleteColumn in validColumns;
      r := RunSelect(table, dataId, exclude, filters, columnsToSelect, kwargs, softDelete, fault);
    }
  }
}
