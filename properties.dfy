/** What the table-access layer promises, stated over the outcome of each
    operation: validation before anything is sent, statements whose markers
    match their parameters, the row-count rule of update and delete, the two
    kinds of delete, and what select returns. */
module Properties {

  import opened Values
  import opened Collections
  import opened Text
  import opened Schema
  import opened Exceptions
  import opened Sql
  import opened Engine
  import opened DbService

  lemma TableIsIdentifier(table: string)
    requires IsValidTable(table)
    ensures IsIdentifier(table)
  {
    assert IsIdentifier("user_account") && IsIdentifier("pole");
  }

  /** Columns that pass validation are registered, hence identifiers. */
  lemma ValidColumnsAreIdentifiers(table: string, columns: seq<string>)
    requires |GetInvalidColumns(table, columns)| == 0
    ensures AllIdentifiers(columns)
  {
    forall c | c in columns ensures IsIdentifier(c) {
      assert c in GetValidColumns(table);
    }
  }

  // ---------------------------------------------------------------- validation

  /** Every operation checks the table first: an unknown table raises
      InvalidTableError whatever else the call carries, sends nothing and
      changes nothing. */
  lemma UnknownTableRejected(db: Database, table: string, kwargs: Kwargs, dataId: int, exclude: seq<string>,
                             selectId: Option<int>, fault: Option<string>, flaskDebug: bool)
    requires !IsValidTable(table)
    ensures InsertOutcome(db, table, kwargs, fault, flaskDebug) == Refused(db, InvalidTableError(table))
    ensures UpdateOutcome(db, table, dataId, kwargs, exclude, fault, flaskDebug) == Refused(db, InvalidTableError(table))
    ensures DeleteOutcome(db, table, dataId, fault, flaskDebug) == Refused(db, InvalidTableError(table))
    ensures SelectOutcome(db, table, selectId, exclude, kwargs, fault, flaskDebug) == Refused(db, InvalidTableError(table))
  {
  }

  /** Insert then checks the columns: any unregistered column raises
      InvalidColumnsError naming exactly the unregistered ones, before
      anything is sent. */
  lemma InsertRejectsInvalidColumns(db: Database, table: string, kwargs: Kwargs, fault: Option<string>,
                                    flaskDebug: bool, column: string)
    requires IsValidTable(table)
    requires column in Keys(kwargs) && column !in GetValidColumns(table)
    ensures var o := InsertOutcome(db, table, kwargs, fault, flaskDebug);
      && o.result.Failure? && o.result.error.InvalidColumnsError? && o.result.error.table == table
      && (forall c :: c in o.result.error.columns <==> c in Keys(kwargs) && c !in GetValidColumns(table))
      && o.sent == [] && o.db == db
  {
    assert column in GetInvalidColumns(table, Keys(kwargs));
  }

  /** Update rejects an unregistered column the same way. */
  lemma UpdateRejectsInvalidColumns(db: Database, table: string, dataId: int, newData: Kwargs, exclude: seq<string>,
                                    fault: Option<string>, flaskDebug: bool, column: string)
    requires IsValidTable(table)
    requires column in Keys(newData) && column !in GetValidColumns(table)
    ensures var o := UpdateOutcome(db, table, dataId, newData, exclude, fault, flaskDebug);
      && o.result.Failure? && o.result.error.InvalidColumnsError? && o.result.error.table == table
      && (forall c :: c in o.result.error.columns <==> c in Keys(newData) && c !in GetValidColumns(table))
      && o.sent == [] && o.db == db
  {
    assert column in GetInvalidColumns(table, Keys(newData));
  }

  /** Update refuses to set an excluded column: InvalidColumnsError names
      exactly the columns both excluded and set, and nothing is sent. */
  lemma UpdateRejectsExcludedColumns(db: Database, table: string, dataId: int, newData: Kwargs, exclude: seq<string>,
                                     fault: Option<string>, flaskDebug: bool, column: string)
    requires IsValidTable(table) && |GetInvalidColumns(table, Keys(newData))| == 0
    requires column in exclude && column in Keys(newData)
    ensures var o := UpdateOutcome(db, table, dataId, newData, exclude, fault, flaskDebug);
      && o.result.Failure? && o.result.error.InvalidColumnsError? && o.result.error.table == table
      && (forall c :: c in o.result.error.columns <==> c in exclude && c in Keys(newData))
      && o.sent == [] && o.db == db
  {
    assert column in IllegalColumns(exclude, newData);
  }

  /** The filter columns select checks are the keyword filters' and, with
      an id, the registered key: the unregistered ones are those of the
      keyword filters. */
  lemma FilterColumnsInvalid(table: string, dataId: Option<int>, filters: Kwargs, idValue: Value)
    requires IsValidTable(table)
    ensures forall c :: c in GetInvalidColumns(table, Keys(Filters(table, dataId, filters, idValue)))
                    <==> c in Keys(filters) && c !in GetValidColumns(table)
    ensures |GetInvalidColumns(table, Keys(filters))| == 0 ==>
              |GetInvalidColumns(table, Keys(Filters(table, dataId, filters, idValue)))| == 0
  {
    assert GetValidColumns(table)[0] == IdColumn(table);
    var invalid := GetInvalidColumns(table, Keys(Filters(table, dataId, filters, idValue)));
    if |invalid| > 0 {
      assert invalid[0] in GetInvalidColumns(table, Keys(filters));
    }
  }

  /** Select rejects an unregistered filter column: InvalidColumnsError names
      exactly the unregistered filter columns, and nothing is sent. */
  lemma SelectRejectsInvalidFilters(db: Database, table: string, dataId: Option<int>, exclude: seq<string>,
                                    filters: Kwargs, fault: Option<string>, flaskDebug: bool, column: string)
    requires IsValidTable(table)
    requires column in Keys(filters) && column !in GetValidColumns(table)
    ensures var o := SelectOutcome(db, table, dataId, exclude, filters, fault, flaskDebug);
      && o.result.Failure? && o.result.error.InvalidColumnsError? && o.result.error.table == table
      && (forall c :: c in o.result.error.columns <==> c in Keys(filters) && c !in GetValidColumns(table))
      && o.sent == [] && o.db == db
  {
    FilterColumnsInvalid(table, dataId, filters, IdBinding(dataId));
    assert column in GetInvalidColumns(table, Keys(Filters(table, dataId, filters, IdBinding(dataId))));
  }

  // ---------------------------------------------------------------- statements

  /** A validated insert sends one statement, free of line breaks, with one
      `%s` per column and the values in column order as its parameters. */
  lemma InsertStatement(db: Database, table: string, kwargs: Kwargs, fault: Option<string>, flaskDebug: bool)
    requires IsValidTable(table) && |GetInvalidColumns(table, Keys(kwargs))| == 0
    ensures var o := InsertOutcome(db, table, kwargs, fault, flaskDebug);
      && |o.sent| == 1 && o.sent[0].params == Positional(ValuesOf(kwargs))
      && Placeholders(o.sent[0].text) == |kwargs|
      && '\n' !in o.sent[0].text
  {
    TableIsIdentifier(table);
    ValidColumnsAreIdentifiers(table, Keys(kwargs));
    InsertQueryPlaceholders(table, Keys(kwargs));
  }

  /** A validated update sends one statement whose parameters are the new
      values followed by the id, one per `%s` of its text. */
  lemma UpdateStatement(db: Database, table: string, dataId: int, newData: Kwargs, exclude: seq<string>,
                        fault: Option<string>, flaskDebug: bool)
    requires IsValidTable(table) && |GetInvalidColumns(table, Keys(newData))| == 0
    requires forall c :: c in exclude ==> c !in Keys(newData)
    ensures var o := UpdateOutcome(db, table, dataId, newData, exclude, fault, flaskDebug);
      && |o.sent| == 1 && o.sent[0].params == Positional(ValuesOf(newData) + [Int(dataId)])
      && Placeholders(o.sent[0].text) == |newData| + 1
  {
    TableIsIdentifier(table);
    ValidColumnsAreIdentifiers(table, Keys(newData));
    UpdateQueryPlaceholders(table, Keys(newData));
  }

  /** A validated select sends one statement, free of line breaks, whose
      parameters are the filter values, one per `%s` of its text. */
  lemma SelectStatement(db: Database, table: string, dataId: Option<int>, exclude: seq<string>, filters: Kwargs,
                        fault: Option<string>, flaskDebug: bool)
    requires IsValidTable(table)
    requires |GetInvalidColumns(table, Keys(Filters(table, dataId, filters, IdBinding(dataId))))| == 0
    ensures var o := SelectOutcome(db, table, dataId, exclude, filters, fault, flaskDebug);
      && |o.sent| == 1
      && o.sent[0].params == Positional(ValuesOf(Filters(table, dataId, filters, IdBinding(dataId))))
      && Placeholders(o.sent[0].text) == |o.sent[0].params.values|
      && '\n' !in o.sent[0].text
  {
    var kwargs := Filters(table, dataId, filters, IdBinding(dataId));
    TableIsIdentifier(table);
    ValidColumnsAreIdentifiers(table, Keys(kwargs));
    var projection := Projection(table, exclude);
    assert AllIdentifiers(projection) by {
      forall c | c in projection ensures IsIdentifier(c) {
        assert c in GetValidColumns(table);
      }
    }
    SelectQueryPlaceholders(table, projection, Keys(kwargs), SoftDeleteColumn in GetValidColumns(table));
  }

  // ---------------------------------------------------------------- insert

  /** No stored row carries the id `id`. */
  predicate IdUnused(rows: seq<Row>, idColumn: string, id: int)
  {
    forall i :: 0 <= i < |rows| ==> Get(rows[i], idColumn) != Int(id)
  }

  lemma NewRowId(table: string, serial: int, kwargs: Kwargs)
    requires IsValidTable(table) && IdColumn(table) !in Keys(kwargs)
    ensures Get(NewRow(table, serial, ToMap(kwargs)), IdColumn(table)) == Int(serial)
  {
    var valid := GetValidColumns(table);
    assert IdColumn(table) in valid by { assert valid[0] == IdColumn(table); }
    DefaultsHold(table, valid, serial, IdColumn(table));
  }

  lemma NewRowValues(table: string, serial: int, kwargs: Kwargs)
    ensures forall i :: 0 <= i < |kwargs| ==> Get(NewRow(table, serial, ToMap(kwargs)), kwargs[i].0) == kwargs[i].1
  {
  }

  lemma NewRowActive(table: string, serial: int, kwargs: Kwargs)
    requires IsValidTable(table) && SoftDeleteColumn in GetValidColumns(table) && SoftDeleteColumn !in Keys(kwargs)
    ensures IsActive(NewRow(table, serial, ToMap(kwargs)))
  {
    IdIsNotFlag(table);
    DefaultsHold(table, GetValidColumns(table), serial, SoftDeleteColumn);
  }

  /** The inserted row holds the generated id, every given value, and is
      active on a soft-delete table unless told otherwise. */
  lemma NewRowHolds(table: string, serial: int, kwargs: Kwargs)
    requires IsValidTable(table) && IdColumn(table) !in Keys(kwargs)
    ensures var row := NewRow(table, serial, ToMap(kwargs));
      && Get(row, IdColumn(table)) == Int(serial)
      && (forall i :: 0 <= i < |kwargs| ==> Get(row, kwargs[i].0) == kwargs[i].1)
      && (SoftDeleteColumn in GetValidColumns(table) && SoftDeleteColumn !in Keys(kwargs) ==> IsActive(row))
  {
    NewRowId(table, serial, kwargs);
    NewRowValues(table, serial, kwargs);
    if SoftDeleteColumn in GetValidColumns(table) && SoftDeleteColumn !in Keys(kwargs) {
      NewRowActive(table, serial, kwargs);
    }
  }

  /** The row an insert stores under a fresh sequence value keeps the key valid. */
  lemma NewRowKeepsKeys(t: Table, table: string, kwargs: Kwargs)
    requires IsValidTable(table) && KeysUnique(t.rows, IdColumn(table)) && IdColumn(table) !in Keys(kwargs)
    requires IdUnused(t.rows, IdColumn(table), t.serial)
    ensures KeysUnique(t.rows + [NewRow(table, t.serial, ToMap(kwargs))], IdColumn(table))
  {
    NewRowId(table, t.serial, kwargs);
    AppendKeepsKeys(t.rows, NewRow(table, t.serial, ToMap(kwargs)), IdColumn(table));
  }

  /** An insert without an explicit id takes the next sequence value, stores
      the new row after the existing ones and returns that id. */
  lemma InsertGeneratesId(db: Database, table: string, kwargs: Kwargs, flaskDebug: bool)
    requires IsValidTable(table) && table in db && KeysUnique(db[table].rows, IdColumn(table))
    requires |kwargs| > 0 && |GetInvalidColumns(table, Keys(kwargs))| == 0
    requires IdColumn(table) !in Keys(kwargs)
    requires IdUnused(db[table].rows, IdColumn(table), db[table].serial)
    ensures InsertOutcome(db, table, kwargs, None, flaskDebug).result == Success(Int(db[table].serial))
    ensures InsertOutcome(db, table, kwargs, None, flaskDebug).db
        == db[table := Table(db[table].rows + [NewRow(table, db[table].serial, ToMap(kwargs))], db[table].serial + 1)]
  {
    var stored := Table(db[table].rows + [NewRow(table, db[table].serial, ToMap(kwargs))], db[table].serial + 1);
    assert ExecInsert(TableOf(db, table), table, ToMap(kwargs), None) == (stored, Completed(Int(db[table].serial))) by {
      assert TableOf(db, table) == db[table];
      GeneratedIdInsert(db[table], table, kwargs);
    }
    InsertStores(db, table, kwargs, None, flaskDebug, stored, Int(db[table].serial));
  }

  /** The engine side of `InsertGeneratesId`. */
  lemma GeneratedIdInsert(t: Table, table: string, kwargs: Kwargs)
    requires IsValidTable(table) && KeysUnique(t.rows, IdColumn(table))
    requires |kwargs| > 0 && IdColumn(table) !in Keys(kwargs)
    requires IdUnused(t.rows, IdColumn(table), t.serial)
    ensures ExecInsert(t, table, ToMap(kwargs), None)
         == (Table(t.rows + [NewRow(table, t.serial, ToMap(kwargs))], t.serial + 1), Completed(Int(t.serial)))
  {
    var given := ToMap(kwargs);
    assert kwargs[0].0 in given;
    assert IdColumn(table) !in given;
    NewRowKeepsKeys(t, table, kwargs);
    NewRowId(table, t.serial, kwargs);
    ExecInsertGenerated(t, table, given);
  }

  /** Every insert that succeeds appends the row built from the given values
      over the defaults, returns that row's id, and touches no other table;
      the key may be given or left to the sequence. */
  lemma InsertSuccessStoresRow(db: Database, table: string, kwargs: Kwargs, fault: Option<string>, flaskDebug: bool)
    requires IsValidTable(table) && table in db && |GetInvalidColumns(table, Keys(kwargs))| == 0
    requires InsertOutcome(db, table, kwargs, fault, flaskDebug).result.Success?
    ensures table in InsertOutcome(db, table, kwargs, fault, flaskDebug).db
    ensures InsertOutcome(db, table, kwargs, fault, flaskDebug).db[table].rows
         == db[table].rows + [NewRow(table, db[table].serial, ToMap(kwargs))]
    ensures InsertOutcome(db, table, kwargs, fault, flaskDebug).result.value
         == Get(NewRow(table, db[table].serial, ToMap(kwargs)), IdColumn(table))
    ensures forall other :: other in db && other != table ==>
              other in InsertOutcome(db, table, kwargs, fault, flaskDebug).db
              && InsertOutcome(db, table, kwargs, fault, flaskDebug).db[other] == db[other]
  {
    InsertSettles(db, table, kwargs, fault, flaskDebug);
    StoreAccepts(db[table], NewRow(table, db[table].serial, ToMap(kwargs)), IdColumn(table),
                 if IdColumn(table) in ToMap(kwargs) then db[table].serial else db[table].serial + 1);
  }

  /** Round trip: a row inserted without an explicit id is what a select by
      the returned id answers, with every inserted value and the new id. */
  lemma InsertThenSelectById(db: Database, table: string, kwargs: Kwargs, flaskDebug: bool)
    requires Wellformed(db) && IsValidTable(table)
    requires |kwargs| > 0 && |GetInvalidColumns(table, Keys(kwargs))| == 0
    requires IdColumn(table) !in Keys(kwargs) && SoftDeleteColumn !in Keys(kwargs)
    requires IdUnused(db[table].rows, IdColumn(table), db[table].serial) && db[table].serial != 0
    ensures InsertOutcome(db, table, kwargs, None, flaskDebug).result == Success(Int(db[table].serial))
    ensures SelectOutcome(InsertOutcome(db, table, kwargs, None, flaskDebug).db, table, Some(db[table].serial),
                          [], [], None, flaskDebug).result
         == Success(One(Project(NewRow(table, db[table].serial, ToMap(kwargs)), GetValidColumns(table))))
    ensures Get(Project(NewRow(table, db[table].serial, ToMap(kwargs)), GetValidColumns(table)), IdColumn(table))
         == Int(db[table].serial)
    ensures forall i :: 0 <= i < |kwargs| ==>
              Get(Project(NewRow(table, db[table].serial, ToMap(kwargs)), GetValidColumns(table)), kwargs[i].0)
              == kwargs[i].1
  {
    InsertedRowLast(db, table, kwargs, flaskDebug);
    SelectFindsInserted(InsertOutcome(db, table, kwargs, None, flaskDebug).db, table, db[table].serial, kwargs,
                        flaskDebug, |db[table].rows|);
    ProjectedNewRowHolds(table, db[table].serial, kwargs);
  }

  /** The insert half of `InsertThenSelectById`: the new row sits after the
      old ones in a database that is still well formed. */
  lemma InsertedRowLast(db: Database, table: string, kwargs: Kwargs, flaskDebug: bool)
    requires Wellformed(db) && IsValidTable(table)
    requires |kwargs| > 0 && |GetInvalidColumns(table, Keys(kwargs))| == 0
    requires IdColumn(table) !in Keys(kwargs)
    requires IdUnused(db[table].rows, IdColumn(table), db[table].serial)
    ensures InsertOutcome(db, table, kwargs, None, flaskDebug).result == Success(Int(db[table].serial))
    ensures Wellformed(InsertOutcome(db, table, kwargs, None, flaskDebug).db)
    ensures table in InsertOutcome(db, table, kwargs, None, flaskDebug).db
    ensures |db[table].rows| < |InsertOutcome(db, table, kwargs, None, flaskDebug).db[table].rows|
    ensures InsertOutcome(db, table, kwargs, None, flaskDebug).db[table].rows[|db[table].rows|]
         == NewRow(table, db[table].serial, ToMap(kwargs))
  {
    InsertGeneratesId(db, table, kwargs, flaskDebug);
    InsertKeepsWellformed(db, table, kwargs, None, flaskDebug);
  }

  /** Projected on every valid column, the new row still holds its id and
      every given value. */
  lemma ProjectedNewRowHolds(table: string, id: int, kwargs: Kwargs)
    requires IsValidTable(table) && |GetInvalidColumns(table, Keys(kwargs))| == 0
    requires IdColumn(table) !in Keys(kwargs)
    ensures Get(Project(NewRow(table, id, ToMap(kwargs)), GetValidColumns(table)), IdColumn(table)) == Int(id)
    ensures forall i :: 0 <= i < |kwargs| ==>
              Get(Project(NewRow(table, id, ToMap(kwargs)), GetValidColumns(table)), kwargs[i].0) == kwargs[i].1
  {
    var row := NewRow(table, id, ToMap(kwargs));
    var valid := GetValidColumns(table);
    NewRowHolds(table, id, kwargs);
    forall i | 0 <= i < |kwargs| ensures Get(Project(row, valid), kwargs[i].0) == kwargs[i].1 {
      assert kwargs[i].0 in Keys(kwargs);
      assert kwargs[i].0 in valid;
    }
    assert IdColumn(table) in valid by { assert valid[0] == IdColumn(table); }
  }

  /** The select half of `InsertThenSelectById`: a row built by insert is
      found again by its id, with every valid column. */
  lemma SelectFindsInserted(db: Database, table: string, id: int, kwargs: Kwargs, flaskDebug: bool, k: nat)
    requires Wellformed(db) && IsValidTable(table) && id != 0
    requires IdColumn(table) !in Keys(kwargs) && SoftDeleteColumn !in Keys(kwargs)
    requires k < |db[table].rows| && db[table].rows[k] == NewRow(table, id, ToMap(kwargs))
    ensures SelectOutcome(db, table, Some(id), [], [], None, flaskDebug).result
         == Success(One(Project(NewRow(table, id, ToMap(kwargs)), GetValidColumns(table))))
  {
    var row := NewRow(table, id, ToMap(kwargs));
    NewRowHolds(table, id, kwargs);
    var noFilters: Kwargs := [];
    assert |GetInvalidColumns(table, Keys(noFilters))| == 0 by { assert Keys(noFilters) == []; }
    assert MatchesOthers(row, noFilters, IdColumn(table));
    SelectByIdFindsRow(db, table, id, [], noFilters, flaskDebug, k);
    assert Projection(table, []) == GetValidColumns(table);
  }

  // ---------------------------------------------------------------- update

  /** Update of an id no row has raises EntryNotFoundError itself, not a
      DBError, and the database is left as it was. */
  lemma UpdateMissingEntry(db: Database, table: string, dataId: int, newData: Kwargs, exclude: seq<string>,
                           flaskDebug: bool)
    requires Wellformed(db) && IsValidTable(table) && |GetInvalidColumns(table, Keys(newData))| == 0
    requires forall c :: c in exclude ==> c !in Keys(newData)
    requires |newData| > 0
    requires IdUnused(db[table].rows, IdColumn(table), dataId)
    ensures var o := UpdateOutcome(db, table, dataId, newData, exclude, None, flaskDebug);
      o.result == Failure(EntryNotFoundError(table, dataId)) && o.db == db
  {
    var rows := db[table].rows;
    CountPositive(rows, IdColumn(table), dataId, false);
    UpdateCommits(db, table, dataId, newData, exclude, None, flaskDebug);
    UpdatedUntargeted(rows, IdColumn(table), dataId, ToMap(newData));
  }

  /** Update of an existing id sets the given columns on that row alone. */
  lemma UpdateSetsRow(db: Database, table: string, dataId: int, newData: Kwargs, exclude: seq<string>,
                      flaskDebug: bool, k: nat)
    requires Wellformed(db) && IsValidTable(table) && |GetInvalidColumns(table, Keys(newData))| == 0
    requires forall c :: c in exclude ==> c !in Keys(newData)
    requires |newData| > 0
    requires k < |db[table].rows| && Get(db[table].rows[k], IdColumn(table)) == Int(dataId)
    requires KeysUnique(Updated(db[table].rows, IdColumn(table), dataId, ToMap(newData)), IdColumn(table))
    ensures var rows := db[table].rows;
      var o := UpdateOutcome(db, table, dataId, newData, exclude, None, flaskDebug);
      && o.result == Success(())
      && table in o.db && |o.db[table].rows| == |rows|
      && o.db[table].rows[k] == rows[k] + ToMap(newData)
      && (forall i :: 0 <= i < |rows| && i != k ==> o.db[table].rows[i] == rows[i])
      && o.db[table].serial == db[table].serial
      && (forall other :: other in db && other != table ==> other in o.db && o.db[other] == db[other])
  {
    var rows := db[table].rows;
    var idColumn := IdColumn(table);
    CountPositive(rows, idColumn, dataId, false);
    CountAtMostOne(rows, idColumn, dataId, false);
    UpdateCommits(db, table, dataId, newData, exclude, None, flaskDebug);
    UpdatedOnly(rows, idColumn, ToMap(newData), k);
  }

  /** Any failure of the UPDATE itself (an empty SET, an engine error) reaches
      the caller as a DBError for the table, and nothing changes. */
  lemma UpdateFailureIsDBError(db: Database, table: string, dataId: int, newData: Kwargs, exclude: seq<string>,
                               fault: Option<string>, flaskDebug: bool)
    requires IsValidTable(table) && |GetInvalidColumns(table, Keys(newData))| == 0
    requires forall c :: c in exclude ==> c !in Keys(newData)
    requires fault.Some? || |newData| == 0
    ensures var o := UpdateOutcome(db, table, dataId, newData, exclude, fault, flaskDebug);
      && o.result.Failure? && o.result.error.DBError? && o.result.error.table == table
      && (!flaskDebug ==> o.result.error.message == GenericDbErrorMessage)
      && o.db == db
  {
  }

  /** Any failure of the INSERT itself reaches the caller as a DBError for
      the table (with the generic text outside debug mode); no row is
      stored, and only the table's sequence may have moved. */
  lemma InsertFailureIsDBError(db: Database, table: string, kwargs: Kwargs, fault: Option<string>, flaskDebug: bool)
    requires IsValidTable(table) && table in db && |GetInvalidColumns(table, Keys(kwargs))| == 0
    requires InsertOutcome(db, table, kwargs, fault, flaskDebug).result.Failure?
    ensures InsertOutcome(db, table, kwargs, fault, flaskDebug).result.error.DBError?
    ensures InsertOutcome(db, table, kwargs, fault, flaskDebug).result.error.table == table
    ensures !flaskDebug ==> InsertOutcome(db, table, kwargs, fault, flaskDebug).result.error.message == GenericDbErrorMessage
    ensures table in InsertOutcome(db, table, kwargs, fault, flaskDebug).db
    ensures InsertOutcome(db, table, kwargs, fault, flaskDebug).db[table].rows == db[table].rows
    ensures forall other :: other in db && other != table ==>
              other in InsertOutcome(db, table, kwargs, fault, flaskDebug).db
              && InsertOutcome(db, table, kwargs, fault, flaskDebug).db[other] == db[other]
  {
    InsertSettles(db, table, kwargs, fault, flaskDebug);
    ExecInsertRejected(TableOf(db, table), table, ToMap(kwargs), fault);
  }

  /** With no column given or an engine error, insert fails and changes nothing. */
  lemma InsertRefusedChangesNothing(db: Database, table: string, kwargs: Kwargs, fault: Option<string>, flaskDebug: bool)
    requires IsValidTable(table) && table in db && |GetInvalidColumns(table, Keys(kwargs))| == 0
    requires fault.Some? || |kwargs| == 0
    ensures InsertOutcome(db, table, kwargs, fault, flaskDebug).result.Failure?
    ensures InsertOutcome(db, table, kwargs, fault, flaskDebug).db == db
  {
    if kwargs != [] {
      assert kwargs[0].0 in ToMap(kwargs);
    }
    InsertSettles(db, table, kwargs, fault, flaskDebug);
    ExecInsertRejected(TableOf(db, table), table, ToMap(kwargs), fault);
    assert db[table := db[table]] == db;
  }

  // ---------------------------------------------------------------- delete

  /** An engine failure of the DELETE (or the deactivating UPDATE) reaches the
      caller as a DBError for the table, and nothing changes. */
  lemma DeleteFailureIsDBError(db: Database, table: string, dataId: int, fault: Option<string>, flaskDebug: bool)
    requires IsValidTable(table) && table in db && fault.Some?
    ensures var o := DeleteOutcome(db, table, dataId, fault, flaskDebug);
      && o.result.Failure? && o.result.error.DBError? && o.result.error.table == table
      && (!flaskDebug ==> o.result.error.message == GenericDbErrorMessage)
      && o.db == db
  {
  }

  /** Deleting from user_account only clears the flag of the active row with
      that id: the row stays, every other row is untouched. */
  lemma SoftDeleteDeactivates(db: Database, dataId: int, flaskDebug: bool, k: nat)
    requires Wellformed(db)
    requires k < |db["user_account"].rows| && Targets(db["user_account"].rows[k], "user_account_id", dataId, true)
    ensures var rows := db["user_account"].rows;
      var o := DeleteOutcome(db, "user_account", dataId, None, flaskDebug);
      && o.result == Success(())
      && |o.db["user_account"].rows| == |rows|
      && o.db["user_account"].rows[k] == rows[k][SoftDeleteColumn := Bool(false)]
      && (forall i :: 0 <= i < |rows| && i != k ==> o.db["user_account"].rows[i] == rows[i])
      && o.db["user_account"].serial == db["user_account"].serial
      && (forall other :: other in db && other != "user_account" ==> other in o.db && o.db[other] == db[other])
  {
    var table := "user_account";
    var rows := db[table].rows;
    assert IdColumn(table) == "user_account_id";
    assert SoftDeleteColumn in GetValidColumns(table);
    CountPositive(rows, IdColumn(table), dataId, true);
    CountAtMostOne(rows, IdColumn(table), dataId, true);
    forall i | 0 <= i < |rows| && i != k ensures !Targets(rows[i], IdColumn(table), dataId, true) {
      if i < k { assert Get(rows[i], IdColumn(table)) != Get(rows[k], IdColumn(table)); }
      else { assert Get(rows[k], IdColumn(table)) != Get(rows[i], IdColumn(table)); }
    }
  }

  /** Deleting from pole removes the row with that id and keeps all others. */
  lemma HardDeleteRemoves(db: Database, dataId: int, flaskDebug: bool, k: nat)
    requires Wellformed(db)
    requires k < |db["pole"].rows| && Get(db["pole"].rows[k], "pole_id") == Int(dataId)
    ensures var rows := db["pole"].rows;
      var o := DeleteOutcome(db, "pole", dataId, None, flaskDebug);
      && o.result == Success(())
      && |o.db["pole"].rows| == |rows| - 1
      && (forall r :: r in o.db["pole"].rows <==> r in rows && Get(r, "pole_id") != Int(dataId))
      && o.db["pole"].serial == db["pole"].serial
      && (forall other :: other in db && other != "pole" ==> other in o.db && o.db[other] == db[other])
  {
    var table := "pole";
    var rows := db[table].rows;
    assert IdColumn(table) == "pole_id";
    assert SoftDeleteColumn !in GetValidColumns(table);
    CountPositive(rows, IdColumn(table), dataId, false);
    CountAtMostOne(rows, IdColumn(table), dataId, false);
    RemovedRows(rows, IdColumn(table), dataId);
  }

  /** Deleting an id no row is targeted by (on user_account: no active row)
      raises EntryNotFoundError and changes nothing. */
  lemma DeleteMissingEntry(db: Database, table: string, dataId: int, flaskDebug: bool)
    requires Wellformed(db) && IsValidTable(table)
    requires forall i :: 0 <= i < |db[table].rows| ==>
               !Targets(db[table].rows[i], IdColumn(table), dataId, SoftDeleteColumn in GetValidColumns(table))
    ensures var o := DeleteOutcome(db, table, dataId, None, flaskDebug);
      o.result == Failure(EntryNotFoundError(table, dataId)) && o.db == db
  {
    CountPositive(db[table].rows, IdColumn(table), dataId, SoftDeleteColumn in GetValidColumns(table));
  }

  /** A second delete of the same user_account id finds nothing: the first
      left the row inactive. */
  lemma SoftDeleteTwice(db: Database, dataId: int, flaskDebug: bool, k: nat)
    requires Wellformed(db)
    requires k < |db["user_account"].rows| && Targets(db["user_account"].rows[k], "user_account_id", dataId, true)
    ensures var o := DeleteOutcome(db, "user_account", dataId, None, flaskDebug);
      DeleteOutcome(o.db, "user_account", dataId, None, flaskDebug).result
        == Failure(EntryNotFoundError("user_account", dataId))
  {
    var table := "user_account";
    SoftDeleteDeactivates(db, dataId, flaskDebug, k);
    DeleteKeepsWellformed(db, table, dataId, None, flaskDebug);
    var o := DeleteOutcome(db, table, dataId, None, flaskDebug);
    var rows := db[table].rows;
    var after := o.db[table].rows;
    assert IdColumn(table) == "user_account_id";
    assert SoftDeleteColumn in GetValidColumns(table);
    forall i | 0 <= i < |after| ensures !Targets(after[i], IdColumn(table), dataId, true) {
      if i == k {
        assert !IsActive(after[k]);
      } else {
        assert after[i] == rows[i];
        if i < k { assert Get(rows[i], IdColumn(table)) != Get(rows[k], IdColumn(table)); }
        else { assert Get(rows[k], IdColumn(table)) != Get(rows[i], IdColumn(table)); }
      }
    }
    DeleteMissingEntry(o.db, table, dataId, flaskDebug);
  }

  // ---------------------------------------------------------------- select

  /** Without an id, select answers the selected columns of exactly the
      stored rows that match every filter and, on user_account, are active. */
  lemma SelectReturnsMatchingRows(db: Database, table: string, dataId: Option<int>, exclude: seq<string>,
                                  filters: Kwargs, flaskDebug: bool)
    requires Wellformed(db) && IsValidTable(table) && !Truthy(dataId)
    requires |GetInvalidColumns(table, Keys(filters))| == 0
    ensures var o := SelectOutcome(db, table, dataId, exclude, filters, None, flaskDebug);
      var stored := db[table].rows;
      var projection := Projection(table, exclude);
      && o.result.Success? && o.result.value.Many?
      && (forall r :: r in o.result.value.rows ==>
            exists s :: s in stored && MatchesAll(s, filters) && (table == "user_account" ==> IsActive(s))
                        && r == Project(s, projection))
      && (forall s :: s in stored && MatchesAll(s, filters) && (table == "user_account" ==> IsActive(s)) ==>
            Project(s, projection) in o.result.value.rows)
  {
    var softDelete := SoftDeleteColumn in GetValidColumns(table);
    SelectedRows(db[table].rows, Projection(table, exclude), filters, softDelete);
  }

  /** The row meets every keyword filter other than one on the key column:
      select by id replaces such a filter with the id. */
  predicate MatchesOthers(row: Row, filters: Kwargs, idColumn: string)
  {
    forall i :: 0 <= i < |filters| && filters[i].0 != idColumn ==>
      filters[i].1 != Null && Get(row, filters[i].0) == filters[i].1
  }

  lemma MatchesAllMap(row: Row, kwargs: Kwargs)
    ensures MatchesAll(row, kwargs)
        <==> forall c :: c in ToMap(kwargs) ==> ToMap(kwargs)[c] != Null && Get(row, c) == ToMap(kwargs)[c]
  {
    var m := ToMap(kwargs);
    if MatchesAll(row, kwargs) {
      forall c | c in m ensures m[c] != Null && Get(row, c) == m[c] {
        assert c in Keys(kwargs);
        var i :| 0 <= i < |kwargs| && Keys(kwargs)[i] == c;
        assert kwargs[i].0 == c;
      }
    }
    if forall c :: c in m ==> m[c] != Null && Get(row, c) == m[c] {
      forall i | 0 <= i < |kwargs| ensures kwargs[i].1 != Null && Get(row, kwargs[i].0) == kwargs[i].1 {
        assert kwargs[i].0 in m && m[kwargs[i].0] == kwargs[i].1;
      }
    }
  }

  lemma MatchesOthersMap(row: Row, filters: Kwargs, idColumn: string)
    ensures MatchesOthers(row, filters, idColumn)
        <==> forall c :: c in ToMap(filters) && c != idColumn ==>
               ToMap(filters)[c] != Null && Get(row, c) == ToMap(filters)[c]
  {
    var m := ToMap(filters);
    if MatchesOthers(row, filters, idColumn) {
      forall c | c in m && c != idColumn ensures m[c] != Null && Get(row, c) == m[c] {
        assert c in Keys(filters);
        var i :| 0 <= i < |filters| && Keys(filters)[i] == c;
        assert filters[i].0 == c;
      }
    }
    if forall c :: c in m && c != idColumn ==> m[c] != Null && Get(row, c) == m[c] {
      forall i | 0 <= i < |filters| && filters[i].0 != idColumn
        ensures filters[i].1 != Null && Get(row, filters[i].0) == filters[i].1
      {
        assert filters[i].0 in m && m[filters[i].0] == filters[i].1;
      }
    }
  }

  /** Select by id chooses a row exactly when it has the id (and, when only
      active rows count, is active) and meets the other keyword filters. */
  lemma ChosenById(row: Row, table: string, dataId: int, filters: Kwargs, activeOnly: bool)
    requires dataId != 0
    ensures Chosen(row, Filters(table, Some(dataId), filters, Int(dataId)), activeOnly)
        <==> Targets(row, IdColumn(table), dataId, activeOnly) && MatchesOthers(row, filters, IdColumn(table))
  {
    var key := IdColumn(table);
    var kwargs := Filters(table, Some(dataId), filters, Int(dataId));
    assert kwargs == SetKey(filters, key, Int(dataId));
    MatchesAllMap(row, kwargs);
    MatchesOthersMap(row, filters, key);
    SetKeyToMap(filters, key, Int(dataId));
    var m := ToMap(filters);
    var m' := ToMap(kwargs);
    assert m' == m[key := Int(dataId)];
    assert key in m' && m'[key] == Int(dataId);
    assert forall c :: c in m && c != key ==> c in m' && m'[c] == m[c];
  }

  /** Select by id answers the selected columns of the row with that id when
      it is there (and active on user_account) and meets the other keyword
      filters. */
  lemma SelectByIdFindsRow(db: Database, table: string, dataId: int, exclude: seq<string>, filters: Kwargs,
                           flaskDebug: bool, k: nat)
    requires Wellformed(db) && IsValidTable(table) && dataId != 0
    requires |GetInvalidColumns(table, Keys(filters))| == 0
    requires k < |db[table].rows|
    requires Targets(db[table].rows[k], IdColumn(table), dataId, table == "user_account")
    requires MatchesOthers(db[table].rows[k], filters, IdColumn(table))
    ensures SelectOutcome(db, table, Some(dataId), exclude, filters, None, flaskDebug).result
         == Success(One(Project(db[table].rows[k], Projection(table, exclude))))
  {
    var rows := db[table].rows;
    var idColumn := IdColumn(table);
    var softDelete := SoftDeleteColumn in GetValidColumns(table);
    var kwargs := Filters(table, Some(dataId), filters, IdBinding(Some(dataId)));
    FilterColumnsInvalid(table, Some(dataId), filters, IdBinding(Some(dataId)));
    ChosenById(rows[k], table, dataId, filters, softDelete);
    forall i | 0 <= i < |rows| && i != k ensures !Chosen(rows[i], kwargs, softDelete) {
      ChosenById(rows[i], table, dataId, filters, softDelete);
      if i < k { assert Get(rows[i], idColumn) != Get(rows[k], idColumn); }
      else { assert Get(rows[k], idColumn) != Get(rows[i], idColumn); }
    }
    SelectSends(db, table, Some(dataId), exclude, filters, None, flaskDebug, IdBinding(Some(dataId)));
    SelectedOnly(rows, k, Projection(table, exclude), kwargs, softDelete);
  }

  /** Select by id raises EntryNotFoundError when no row has that id (or,
      on user_account, none that is active) and meets the other keyword
      filters. */
  lemma SelectByIdMissing(db: Database, table: string, dataId: int, exclude: seq<string>, filters: Kwargs,
                          flaskDebug: bool)
    requires Wellformed(db) && IsValidTable(table) && dataId != 0
    requires |GetInvalidColumns(table, Keys(filters))| == 0
    requires forall i :: 0 <= i < |db[table].rows| ==>
               !(Targets(db[table].rows[i], IdColumn(table), dataId, table == "user_account")
                 && MatchesOthers(db[table].rows[i], filters, IdColumn(table)))
    ensures SelectOutcome(db, table, Some(dataId), exclude, filters, None, flaskDebug).result
         == Failure(EntryNotFoundError(table, dataId))
  {
    var rows := db[table].rows;
    var softDelete := SoftDeleteColumn in GetValidColumns(table);
    var kwargs := Filters(table, Some(dataId), filters, IdBinding(Some(dataId)));
    FilterColumnsInvalid(table, Some(dataId), filters, IdBinding(Some(dataId)));
    forall s | s in rows ensures !Chosen(s, kwargs, softDelete) {
      var i :| 0 <= i < |rows| && rows[i] == s;
      ChosenById(rows[i], table, dataId, filters, softDelete);
    }
    SelectSends(db, table, Some(dataId), exclude, filters, None, flaskDebug, IdBinding(Some(dataId)));
    SelectedNone(rows, Projection(table, exclude), kwargs, softDelete);
  }

  /** An engine failure of the SELECT reaches the caller as a DBError for the
      table, and nothing changes. */
  lemma SelectFailureIsDBError(db: Database, table: string, dataId: Option<int>, exclude: seq<string>,
                               filters: Kwargs, fault: Option<string>, flaskDebug: bool)
    requires IsValidTable(table) && |GetInvalidColumns(table, Keys(filters))| == 0 && fault.Some?
    ensures var o := SelectOutcome(db, table, dataId, exclude, filters, fault, flaskDebug);
      && o.result.Failure? && o.result.error.DBError? && o.result.error.table == table
      && (!flaskDebug ==> o.result.error.message == GenericDbErrorMessage)
      && o.db == db
  {
    FilterColumnsInvalid(table, dataId, filters, IdBinding(dataId));
    SelectSends(db, table, dataId, exclude, filters, fault, flaskDebug, IdBinding(dataId));
  }

  /** After a soft delete the row can no longer be selected by its id. */
  lemma SoftDeletedRowNotSelected(db: Database, dataId: int, exclude: seq<string>, flaskDebug: bool, k: nat)
    requires Wellformed(db) && dataId != 0
    requires k < |db["user_account"].rows| && Targets(db["user_account"].rows[k], "user_account_id", dataId, true)
    ensures var o := DeleteOutcome(db, "user_account", dataId, None, flaskDebug);
      SelectOutcome(o.db, "user_account", Some(dataId), exclude, [], None, flaskDebug).result
        == Failure(EntryNotFoundError("user_account", dataId))
  {
    var table := "user_account";
    SoftDeleteDeactivates(db, dataId, flaskDebug, k);
    DeleteKeepsWellformed(db, table, dataId, None, flaskDebug);
    var o := DeleteOutcome(db, table, dataId, None, flaskDebug);
    var rows := db[table].rows;
    var after := o.db[table].rows;
    assert IdColumn(table) == "user_account_id";
    forall i | 0 <= i < |after| ensures !Targets(after[i], IdColumn(table), dataId, true) {
      if i == k {
        assert !IsActive(after[k]);
      } else {
        assert after[i] == rows[i];
        if i < k { assert Get(rows[i], IdColumn(table)) != Get(rows[k], IdColumn(table)); }
        else { assert Get(rows[k], IdColumn(table)) != Get(rows[i], IdColumn(table)); }
      }
    }
    SelectByIdMissing(o.db, table, dataId, exclude, [], flaskDebug);
  }

  // ---------------------------------------------------------------- finding

  /** As written, `select_data` binds None to the id filter, and `col = NULL`
      holds for no row: asked for any id, it never answers a row. */
  lemma SelectByIdAsWrittenNeverFinds(db: Database, table: string, dataId: Option<int>, exclude: seq<string>,
                                      filters: Kwargs, fault: Option<string>, flaskDebug: bool)
    requires Truthy(dataId)
    ensures !SelectOutcomeAsWritten(db, table, dataId, exclude, filters, fault, flaskDebug).result.Success?
  {
    if IsValidTable(table) {
      var kwargs := Filters(table, dataId, filters, Null);
      var idColumn := IdColumn(table);
      SetKeyToMap(filters, idColumn, Null);
      assert idColumn in Keys(kwargs);
      var i :| 0 <= i < |kwargs| && kwargs[i].0 == idColumn;
      assert kwargs[i].1 == Null;
      var softDelete := SoftDeleteColumn in GetValidColumns(table);
      NullFilterSelectsNothing(TableOf(db, table).rows, Projection(table, exclude), kwargs, softDelete, i);
      if |GetInvalidColumns(table, Keys(kwargs))| == 0 {
        SelectSends(db, table, dataId, exclude, filters, fault, flaskDebug, Null);
      }
    }
  }
}
