/** The database the service talks to, as an abstract state: per table, its
    rows in native order and the next value of its id sequence. Each
    statement the service sends is one atomic step on that state. The engine
    enforces the primary key (present and unique); any other rejection it
    may make is an input, `fault`, standing for what the model does not see. */
module Engine {

  import opened Values
  import opened Schema

  datatype Table = Table(rows: seq<Row>, serial: int)

  type Database = map<string, Table>

  /** A statement either completes with a value or is rejected with the
      engine's diagnostic. */
  datatype Run<T> = Completed(value: T) | Rejected(diagnostic: string)

  /** What the engine reports for `SET` with nothing to set or an INSERT naming no column. */
  const SyntaxError := "syntax error"
  /** What the engine reports when a statement would leave a missing or duplicate id. */
  const KeyViolation := "primary key violation"

  /** Every row has an id and no two rows share one. */
  predicate KeysUnique(rows: seq<Row>, idColumn: string)
  {
    && (forall i :: 0 <= i < |rows| ==> Get(rows[i], idColumn) != Null)
    && (forall i, j :: 0 <= i < j < |rows| ==> Get(rows[i], idColumn) != Get(rows[j], idColumn))
  }

  /** The database holds exactly the registered tables, each with a valid key. */
  ghost predicate Wellformed(db: Database)
  {
    && (forall table :: table in db <==> IsValidTable(table))
    && (forall table :: table in db ==> KeysUnique(db[table].rows, IdColumn(table)))
  }

  predicate IsActive(row: Row)
  {
    Get(row, SoftDeleteColumn) == Bool(true)
  }

  /** The row a statement's `WHERE {table}_id=... [AND is_active=TRUE]` selects. */
  predicate Targets(row: Row, idColumn: string, id: int, activeOnly: bool)
  {
    Get(row, idColumn) == Int(id) && (activeOnly ==> IsActive(row))
  }

  /** The number of rows such a condition selects: the affected-row count. */
  function Count(rows: seq<Row>, idColumn: string, id: int, activeOnly: bool): nat
  {
    if rows == [] then 0
    else (if Targets(rows[0], idColumn, id, activeOnly) then 1 else 0) + Count(rows[1..], idColumn, id, activeOnly)
  }

  // ---------------------------------------------------------------- INSERT

  /** The value a registered column takes when the INSERT does not name it:
      the next sequence value for the key, TRUE for the soft-delete flag,
      NULL for the rest. */
  function Default(table: string, column: string, serial: int): Value
  {
    if column == IdColumn(table) then Int(serial)
    else if column == SoftDeleteColumn then Bool(true)
    else Null
  }

  /** Each of `columns` with its default. */
  function Defaults(table: string, columns: seq<string>, serial: int): Row
  {
    if columns == [] then map[]
    else Defaults(table, columns[1..], serial)[columns[0] := Default(table, columns[0], serial)]
  }

  lemma {:induction false} DefaultsHold(table: string, columns: seq<string>, serial: int, column: string)
    ensures column in Defaults(table, columns, serial) <==> column in columns
    ensures column in columns ==> Defaults(table, columns, serial)[column] == Default(table, column, serial)
  {
    if columns != [] {
      DefaultsHold(table, columns[1..], serial, column);
      assert column in columns <==> column == columns[0] || column in columns[1..];
    }
  }

  /** The row an INSERT stores: the given values over the defaults of every registered column. */
  function NewRow(table: string, serial: int, given: map<string, Value>): Row
  {
    Defaults(table, GetValidColumns(table), serial) + given
  }

  /** Appends `row` when the key stays valid; the sequence moves to `serial` either way. */
  function Store(t: Table, row: Row, idColumn: string, serial: int): (Table, Run<Value>)
  {
    if KeysUnique(t.rows + [row], idColumn) then (Table(t.rows + [row], serial), Completed(Get(row, idColumn)))
    else (Table(t.rows, serial), Rejected(KeyViolation))
  }

  /** `INSERT ... RETURNING {table}_id` with the given columns and values:
      the stored table afterwards (the sequence advances whenever it supplied
      the key, even if the key is then refused) and the returned id. */
  function ExecInsert(t: Table, table: string, given: map<string, Value>, fault: Option<string>): (Table, Run<Value>)
  {
    if given == map[] then (t, Rejected(SyntaxError))
    else if fault.Some? then (t, Rejected(fault.value))
    else
      Store(t, NewRow(table, t.serial, given), IdColumn(table),
            if IdColumn(table) in given then t.serial else t.serial + 1)
  }

  // ---------------------------------------------------------------- UPDATE

  function Updated(rows: seq<Row>, idColumn: string, id: int, changes: map<string, Value>): (r: seq<Row>)
    ensures |r| == |rows|
  {
    seq(|rows|, i requires 0 <= i < |rows| =>
      if Targets(rows[i], idColumn, id, false) then rows[i] + changes else rows[i])
  }

  /** `UPDATE {table} SET c=%s, ... WHERE {table}_id=%s`: the table afterwards and the affected-row count. */
  function ExecUpdate(t: Table, idColumn: string, id: int, kwargs: Kwargs, fault: Option<string>): Run<(Table, nat)>
  {
    if |kwargs| == 0 then Rejected(SyntaxError)
    else if fault.Some? then Rejected(fault.value)
    else
      var rows := Updated(t.rows, idColumn, id, ToMap(kwargs));
      if KeysUnique(rows, idColumn) then Completed((Table(rows, t.serial), Count(t.rows, idColumn, id, false)))
      else Rejected(KeyViolation)
  }

  // ---------------------------------------------------------------- DELETE

  function Deactivated(rows: seq<Row>, idColumn: string, id: int): (r: seq<Row>)
    ensures |r| == |rows|
  {
    seq(|rows|, i requires 0 <= i < |rows| =>
      if Targets(rows[i], idColumn, id, true) then rows[i][SoftDeleteColumn := Bool(false)] else rows[i])
  }

  /** `UPDATE {table} SET is_active=FALSE WHERE {table}_id=... AND is_active=TRUE` */
  function ExecDeactivate(t: Table, idColumn: string, id: int, fault: Option<string>): Run<(Table, nat)>
  {
    if fault.Some? then Rejected(fault.value)
    else Completed((Table(Deactivated(t.rows, idColumn, id), t.serial), Count(t.rows, idColumn, id, true)))
  }

  function Removed(rows: seq<Row>, idColumn: string, id: int): seq<Row>
  {
    if rows == [] then []
    else (if Targets(rows[0], idColumn, id, false) then [] else [rows[0]]) + Removed(rows[1..], idColumn, id)
  }

  /** `DELETE FROM {table} WHERE {table}_id=...` */
  function ExecDelete(t: Table, idColumn: string, id: int, fault: Option<string>): Run<(Table, nat)>
  {
    if fault.Some? then Rejected(fault.value)
    else Completed((Table(Removed(t.rows, idColumn, id), t.serial), Count(t.rows, idColumn, id, false)))
  }

  // ---------------------------------------------------------------- SELECT

  /** `c1=%s AND c2=%s ...` with the bound values; NULL equals nothing in SQL. */
  predicate MatchesAll(row: Row, filters: seq<(string, Value)>)
  {
    forall i :: 0 <= i < |filters| ==> filters[i].1 != Null && Get(row, filters[i].0) == filters[i].1
  }

  /** A fetched row: the selected columns of a stored row. */
  function Project(row: Row, columns: seq<string>): Row
  {
    map c | c in columns :: Get(row, c)
  }

  predicate Chosen(row: Row, filters: seq<(string, Value)>, activeOnly: bool)
  {
    MatchesAll(row, filters) && (activeOnly ==> IsActive(row))
  }

  function Selected(rows: seq<Row>, projection: seq<string>, filters: seq<(string, Value)>, activeOnly: bool): seq<Row>
  {
    if rows == [] then []
    else
      var head := if Chosen(rows[0], filters, activeOnly) then [Project(rows[0], projection)] else [];
      head + Selected(rows[1..], projection, filters, activeOnly)
  }

  /** `SELECT ... FROM {table} [WHERE ...]` followed by `fetchall()`. */
  function ExecSelect(t: Table, projection: seq<string>, filters: seq<(string, Value)>, activeOnly: bool,
                      fault: Option<string>): Run<seq<Row>>
  {
    if fault.Some? then Rejected(fault.value)
    else Completed(Selected(t.rows, projection, filters, activeOnly))
  }

  // ---------------------------------------------------------------- lemmas

  /** The affected-row count is positive exactly when some row is targeted. */
  lemma {:induction false} CountPositive(rows: seq<Row>, idColumn: string, id: int, activeOnly: bool)
    ensures Count(rows, idColumn, id, activeOnly) > 0
        <==> exists i :: 0 <= i < |rows| && Targets(rows[i], idColumn, id, activeOnly)
  {
    if rows != [] {
      CountPositive(rows[1..], idColumn, id, activeOnly);
      if exists i :: 0 <= i < |rows| && Targets(rows[i], idColumn, id, activeOnly) {
        var i :| 0 <= i < |rows| && Targets(rows[i], idColumn, id, activeOnly);
        if i > 0 { assert rows[1..][i - 1] == rows[i]; }
      }
      if exists i :: 0 <= i < |rows[1..]| && Targets(rows[1..][i], idColumn, id, activeOnly) {
        var i :| 0 <= i < |rows[1..]| && Targets(rows[1..][i], idColumn, id, activeOnly);
        assert rows[i + 1] == rows[1..][i];
      }
    }
  }

  /** With a valid key, an id-scoped statement affects at most one row. */
  lemma {:induction false} CountAtMostOne(rows: seq<Row>, idColumn: string, id: int, activeOnly: bool)
    requires KeysUnique(rows, idColumn)
    ensures Count(rows, idColumn, id, activeOnly) <= 1
  {
    if rows != [] {
      assert KeysUnique(rows[1..], idColumn) by {
        forall i, j | 0 <= i < j < |rows[1..]|
          ensures Get(rows[1..][i], idColumn) != Get(rows[1..][j], idColumn)
        {
          assert rows[1..][i] == rows[i + 1] && rows[1..][j] == rows[j + 1];
        }
      }
      CountAtMostOne(rows[1..], idColumn, id, activeOnly);
      if Targets(rows[0], idColumn, id, activeOnly) {
        forall i | 0 <= i < |rows[1..]| ensures !Targets(rows[1..][i], idColumn, id, activeOnly) {
          assert rows[1..][i] == rows[i + 1];
        }
        CountPositive(rows[1..], idColumn, id, activeOnly);
      }
    }
  }

  /** Appending a row with a fresh, non-null id keeps the key valid. */
  lemma AppendKeepsKeys(rows: seq<Row>, row: Row, idColumn: string)
    requires KeysUnique(rows, idColumn) && Get(row, idColumn) != Null
    requires forall i :: 0 <= i < |rows| ==> Get(rows[i], idColumn) != Get(row, idColumn)
    ensures KeysUnique(rows + [row], idColumn)
  {
    var all := rows + [row];
    forall i, j | 0 <= i < j < |all| ensures Get(all[i], idColumn) != Get(all[j], idColumn) {
      assert all[i] == rows[i];
      if j < |rows| { assert all[j] == rows[j]; }
    }
  }

  /** The key check accepts exactly the rows that keep the key valid. */
  lemma StoreAccepts(t: Table, row: Row, idColumn: string, serial: int)
    ensures Store(t, row, idColumn, serial).0.serial == serial
    ensures Store(t, row, idColumn, serial).1.Completed? <==> KeysUnique(t.rows + [row], idColumn)
    ensures KeysUnique(t.rows + [row], idColumn) ==>
      Store(t, row, idColumn, serial) == (Table(t.rows + [row], serial), Completed(Get(row, idColumn)))
    ensures !KeysUnique(t.rows + [row], idColumn) ==> Store(t, row, idColumn, serial).0.rows == t.rows
  {
  }

  /** An INSERT that leaves the key to the sequence and keeps the key valid
      stores the new row last, advances the sequence and returns the row's id. */
  lemma ExecInsertGenerated(t: Table, table: string, given: map<string, Value>)
    requires given != map[] && IdColumn(table) !in given
    requires KeysUnique(t.rows + [NewRow(table, t.serial, given)], IdColumn(table))
    ensures ExecInsert(t, table, given, None)
         == (Table(t.rows + [NewRow(table, t.serial, given)], t.serial + 1),
             Completed(Get(NewRow(table, t.serial, given), IdColumn(table))))
  {
    StoreAccepts(t, NewRow(table, t.serial, given), IdColumn(table), t.serial + 1);
  }

  /** A refused INSERT stores no row; with no column given or an engine
      error it leaves the table exactly as it was. */
  lemma ExecInsertRejected(t: Table, table: string, given: map<string, Value>, fault: Option<string>)
    ensures ExecInsert(t, table, given, fault).1.Rejected? ==> ExecInsert(t, table, given, fault).0.rows == t.rows
    ensures given == map[] || fault.Some? ==>
      ExecInsert(t, table, given, fault).1.Rejected? && ExecInsert(t, table, given, fault).0 == t
  {
    if given != map[] && fault.None? {
      StoreAccepts(t, NewRow(table, t.serial, given), IdColumn(table),
                   if IdColumn(table) in given then t.serial else t.serial + 1);
    }
  }

  /** Setting columns other than the id keeps the key valid. */
  lemma UpdatedKeepsKeys(rows: seq<Row>, idColumn: string, id: int, changes: map<string, Value>)
    requires KeysUnique(rows, idColumn) && idColumn !in changes
    ensures KeysUnique(Updated(rows, idColumn, id, changes), idColumn)
  {
    var r := Updated(rows, idColumn, id, changes);
    assert forall i :: 0 <= i < |rows| ==> Get(r[i], idColumn) == Get(rows[i], idColumn);
  }

  /** An UPDATE that sets columns other than the key, and meets no other
      rejection, applies the changes to the targeted rows and reports how many
      there were. */
  lemma ExecUpdateApplies(t: Table, idColumn: string, id: int, kwargs: Kwargs)
    requires |kwargs| > 0 && KeysUnique(t.rows, idColumn) && idColumn !in Keys(kwargs)
    ensures ExecUpdate(t, idColumn, id, kwargs, None)
        == Completed((Table(Updated(t.rows, idColumn, id, ToMap(kwargs)), t.serial), Count(t.rows, idColumn, id, false)))
  {
    UpdatedKeepsKeys(t.rows, idColumn, id, ToMap(kwargs));
  }

  /** Removal keeps exactly the rows without the id, in order. */
  lemma {:induction false} RemovedRows(rows: seq<Row>, idColumn: string, id: int)
    ensures forall r :: r in Removed(rows, idColumn, id) <==> r in rows && !Targets(r, idColumn, id, false)
    ensures |Removed(rows, idColumn, id)| + Count(rows, idColumn, id, false) == |rows|
  {
    if rows != [] {
      RemovedRows(rows[1..], idColumn, id);
      assert forall r :: r in rows <==> r == rows[0] || r in rows[1..];
    }
  }

  /** Removal keeps the key valid: what remains is a subsequence. */
  lemma {:induction false} RemovedKeepsKeys(rows: seq<Row>, idColumn: string, id: int)
    requires KeysUnique(rows, idColumn)
    ensures KeysUnique(Removed(rows, idColumn, id), idColumn)
  {
    if rows != [] {
      var tail := rows[1..];
      assert KeysUnique(tail, idColumn) by {
        forall i, j | 0 <= i < j < |tail| ensures Get(tail[i], idColumn) != Get(tail[j], idColumn) {
          assert tail[i] == rows[i + 1] && tail[j] == rows[j + 1];
        }
      }
      RemovedKeepsKeys(tail, idColumn, id);
      RemovedRows(tail, idColumn, id);
      var rest := Removed(tail, idColumn, id);
      forall k | 0 <= k < |rest| ensures Get(rest[k], idColumn) != Get(rows[0], idColumn) {
        assert rest[k] in tail;
        var j :| 0 <= j < |tail| && tail[j] == rest[k];
        assert tail[j] == rows[j + 1];
      }
      var r := Removed(rows, idColumn, id);
      if !Targets(rows[0], idColumn, id, false) {
        assert r == [rows[0]] + rest;
        forall i, j | 0 <= i < j < |r| ensures Get(r[i], idColumn) != Get(r[j], idColumn) {
          if i == 0 { assert r[j] == rest[j - 1]; } else { assert r[i] == rest[i - 1] && r[j] == rest[j - 1]; }
        }
      }
    }
  }

  /** Deactivation changes only the flag, so the key stays valid. */
  lemma DeactivatedKeepsKeys(rows: seq<Row>, idColumn: string, id: int)
    requires KeysUnique(rows, idColumn) && idColumn != SoftDeleteColumn
    ensures KeysUnique(Deactivated(rows, idColumn, id), idColumn)
  {
    var r := Deactivated(rows, idColumn, id);
    assert forall i :: 0 <= i < |rows| ==> Get(r[i], idColumn) == Get(rows[i], idColumn);
  }

  /** Deactivation sets the flag of each active row with the id to FALSE and
      keeps its other columns; every other row, an inactive one with the id
      included, is untouched. Afterwards no row with the id is still active,
      and every row keeps its id. */
  lemma DeactivatedRows(rows: seq<Row>, idColumn: string, id: int)
    requires idColumn != SoftDeleteColumn
    ensures forall i :: 0 <= i < |rows| && Targets(rows[i], idColumn, id, true) ==>
              Deactivated(rows, idColumn, id)[i] == rows[i][SoftDeleteColumn := Bool(false)]
    ensures forall i :: 0 <= i < |rows| && !Targets(rows[i], idColumn, id, true) ==>
              Deactivated(rows, idColumn, id)[i] == rows[i]
    ensures forall i :: 0 <= i < |rows| ==> !Targets(Deactivated(rows, idColumn, id)[i], idColumn, id, true)
    ensures forall i :: 0 <= i < |rows| ==> Get(Deactivated(rows, idColumn, id)[i], idColumn) == Get(rows[i], idColumn)
    ensures forall i :: 0 <= i < |rows| && Get(rows[i], idColumn) != Int(id) ==> Deactivated(rows, idColumn, id)[i] == rows[i]
  {
  }

  /** An UPDATE whose condition no row meets leaves the rows as they were. */
  lemma UpdatedUntargeted(rows: seq<Row>, idColumn: string, id: int, changes: map<string, Value>)
    requires forall i :: 0 <= i < |rows| ==> Get(rows[i], idColumn) != Int(id)
    ensures Updated(rows, idColumn, id, changes) == rows
  {
  }

  /** With a valid key, an UPDATE of the id row `k` holds changes that row
      alone and leaves every other row as it was. */
  lemma UpdatedOnly(rows: seq<Row>, idColumn: string, changes: map<string, Value>, k: nat)
    requires KeysUnique(rows, idColumn) && k < |rows| && Get(rows[k], idColumn).Int?
    ensures var r := Updated(rows, idColumn, Get(rows[k], idColumn).i, changes);
      && r[k] == rows[k] + changes
      && (forall i :: 0 <= i < |rows| && i != k ==> r[i] == rows[i])
  {
    forall i | 0 <= i < |rows| && i != k ensures Get(rows[i], idColumn) != Get(rows[k], idColumn) {
      if i < k { assert Get(rows[i], idColumn) != Get(rows[k], idColumn); }
      else { assert Get(rows[k], idColumn) != Get(rows[i], idColumn); }
    }
  }

  /** A selected row is a projection of a stored row the condition chooses,
      and every chosen stored row is selected. */
  lemma {:induction false} SelectedRows(rows: seq<Row>, projection: seq<string>, filters: seq<(string, Value)>, activeOnly: bool)
    ensures forall r :: r in Selected(rows, projection, filters, activeOnly) ==>
              exists s :: s in rows && Chosen(s, filters, activeOnly) && r == Project(s, projection)
    ensures forall s :: s in rows && Chosen(s, filters, activeOnly) ==>
              Project(s, projection) in Selected(rows, projection, filters, activeOnly)
  {
    if rows != [] {
      SelectedRows(rows[1..], projection, filters, activeOnly);
      assert forall s :: s in rows <==> s == rows[0] || s in rows[1..];
    }
  }

  /** A condition no stored row meets selects nothing. */
  lemma {:induction false} SelectedNone(rows: seq<Row>, projection: seq<string>, filters: seq<(string, Value)>, activeOnly: bool)
    requires forall s :: s in rows ==> !Chosen(s, filters, activeOnly)
    ensures Selected(rows, projection, filters, activeOnly) == []
  {
    if rows != [] {
      assert rows[0] in rows;
      SelectedNone(rows[1..], projection, filters, activeOnly);
    }
  }

  /** A condition with a NULL-bound filter selects nothing: `c = NULL` is never true. */
  lemma NullFilterSelectsNothing(rows: seq<Row>, projection: seq<string>, filters: seq<(string, Value)>,
                                 activeOnly: bool, i: nat)
    requires i < |filters| && filters[i].1 == Null
    ensures Selected(rows, projection, filters, activeOnly) == []
  {
    forall s | s in rows ensures !Chosen(s, filters, activeOnly) {
      assert !MatchesAll(s, filters) by { assert filters[i].1 == Null; }
    }
    SelectedNone(rows, projection, filters, activeOnly);
  }

  /** A condition met by exactly one stored row selects just that row. */
  lemma {:induction false} SelectedOnly(rows: seq<Row>, k: nat, projection: seq<string>, filters: seq<(string, Value)>, activeOnly: bool)
    requires k < |rows| && Chosen(rows[k], filters, activeOnly)
    requires forall i :: 0 <= i < |rows| && i != k ==> !Chosen(rows[i], filters, activeOnly)
    ensures Selected(rows, projection, filters, activeOnly) == [Project(rows[k], projection)]
  {
    if k == 0 {
      forall s | s in rows[1..] ensures !Chosen(s, filters, activeOnly) {
        var i :| 0 <= i < |rows[1..]| && rows[1..][i] == s;
        assert rows[i + 1] == s;
      }
      SelectedNone(rows[1..], projection, filters, activeOnly);
    } else {
      SelectedOnly(rows[1..], k - 1, projection, filters, activeOnly);
    }
  }
}
