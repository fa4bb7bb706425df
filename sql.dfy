/** The SQL text each operation sends and the parameters it binds, with the
    property the database driver relies on: one `%s` marker per positional
    parameter. Names spliced into the text are whitelisted identifiers. */
module Sql {

  import opened Values
  import opened Text
  import opened Schema

  /** Parameters bound to a statement: a list for `%s` markers, or a dict
      for `%(name)s` markers. */
  datatype Params = Positional(values: seq<Value>) | Named(bindings: map<string, Value>)

  /** One statement as handed to `cursor.execute`. */
  datatype Statement = Statement(text: string, params: Params)

  /** `'{c}=%s'.format(c=c)` for each column */
  function Assignments(columns: seq<string>): seq<string>
  {
    seq(|columns|, i requires 0 <= i < |columns| => columns[i] + "=%s")
  }

  /** `['%s'] * n` */
  function Markers(n: nat): seq<string>
  {
    seq(n, _ => "%s")
  }

  /** The INSERT template formatted with the table, the column list and the
      value placeholders, split where the placeholders go. */
  function InsertTemplate(table: string, columnsToInsert: string, valuesPlaceholders: string): string
  {
    InsertHead(table, columnsToInsert) + valuesPlaceholders + InsertTail(table)
  }

  function InsertHead(table: string, columnsToInsert: string): string
  {
    "\n            INSERT INTO " + table + " \n                (" + columnsToInsert
    + ")\n            VALUES \n                ("
  }

  function InsertTail(table: string): string
  {
    ")\n            RETURNING " + table + "_id\n        "
  }

  /** The INSERT text for the given columns, line breaks removed. */
  function InsertQuery(table: string, columns: seq<string>): string
  {
    RemoveNewlines(InsertTemplate(table, Join(", ", columns), Join(", ", Markers(|columns|))))
  }

  /** The UPDATE template formatted with the table and the column-value
      pairs, split where the pairs go; the tail holds the id's marker. */
  function UpdateTemplate(table: string, columnsPlaceholders: string): string
  {
    UpdateHead(table) + columnsPlaceholders + UpdateTail(table)
  }

  function UpdateHead(table: string): string
  {
    "\n            UPDATE " + table + " \n            SET "
  }

  function UpdateTail(table: string): string
  {
    "\n            WHERE " + table + "_id=" + "%s" + "\n        "
  }

  /** The UPDATE text setting the given columns; its line breaks are kept. */
  function UpdateQuery(table: string, columns: seq<string>): string
  {
    UpdateTemplate(table, Join(", ", Assignments(columns)))
  }

  function DeleteTemplate(table: string): string
  {
    "\n            DELETE FROM " + table + " \n            WHERE " + table + "_id=%(data_id)s\n        "
  }

  function DeactivateTemplate(table: string): string
  {
    "\n            UPDATE " + table + " \n            SET is_active=FALSE \n            WHERE "
    + table + "_id=%(data_id)s AND is_active=TRUE\n        "
  }

  /** The text delete sends: deactivation when the table has the soft-delete
      flag, removal otherwise; line breaks removed. */
  function DeleteQuery(table: string, softDelete: bool): string
  {
    RemoveNewlines(if softDelete then DeactivateTemplate(table) else DeleteTemplate(table))
  }

  function SelectTemplate(table: string, columnsToSelect: string): string
  {
    "\n        SELECT " + columnsToSelect + " FROM " + table + " \n        "
  }

  /** The condition appended to the SELECT: the ANDed filters, then the
      active-rows condition on a soft-delete table. */
  function SelectCondition(filterColumns: seq<string>, softDelete: bool): string
  {
    if |filterColumns| > 0 then
      " WHERE " + Join(" AND ", Assignments(filterColumns)) + (if softDelete then " AND is_active=TRUE " else "")
    else if softDelete then " WHERE is_active=TRUE"
    else ""
  }

  /** The SELECT text for a projection and filter columns, line breaks removed. */
  function SelectQuery(table: string, projection: seq<string>, filterColumns: seq<string>, softDelete: bool): string
  {
    RemoveNewlines(SelectTemplate(table, Join(", ", projection)) + SelectCondition(filterColumns, softDelete))
  }

  predicate AllIdentifiers(names: seq<string>)
  {
    forall n :: n in names ==> IsIdentifier(n)
  }

  lemma IdentifiersArePlain(names: seq<string>)
    requires AllIdentifiers(names)
    ensures forall n :: n in names ==> '%' !in n && '\n' !in n
  {
    forall n | n in names ensures '%' !in n && '\n' !in n {
      IdentifierIsPlain(n);
    }
  }

  /** Removing line breaks around a marker-bearing middle keeps its markers. */
  lemma PlaceholdersAfterRemovingNewlines(front: string, middle: string, back: string)
    requires '%' !in front && '%' !in back && '\n' !in middle && EndsSafely(middle)
    ensures Placeholders(RemoveNewlines(front + middle + back)) == Placeholders(middle)
  {
    RemoveNewlinesAppend(front + middle, back);
    RemoveNewlinesAppend(front, middle);
    RemoveNewlinesKeeps(front);
    RemoveNewlinesKeeps(middle);
    RemoveNewlinesKeeps(back);
    PlaceholdersBetween(RemoveNewlines(front), middle, RemoveNewlines(back));
  }

  lemma MarkerPlaceholders()
    ensures Placeholders("%s") == 1 && EndsSafely("%s") && '\n' !in "%s"
  {
    assert "%s"[2..] == [];
  }

  lemma MarkersPlaceholders(n: nat)
    ensures forall m :: m in Markers(n) ==> Placeholders(m) == 1 && EndsSafely(m) && '\n' !in m
  {
    MarkerPlaceholders();
    forall m | m in Markers(n)
      ensures Placeholders(m) == 1 && EndsSafely(m) && '\n' !in m
    {
      var i :| 0 <= i < n && m == Markers(n)[i];
    }
  }

  /** A column assignment `c=%s` holds exactly one marker. */
  lemma AssignmentsPlaceholders(columns: seq<string>)
    requires AllIdentifiers(columns)
    ensures forall a :: a in Assignments(columns) ==> Placeholders(a) == 1 && EndsSafely(a) && '\n' !in a
  {
    IdentifiersArePlain(columns);
    MarkerPlaceholders();
    forall a | a in Assignments(columns)
      ensures Placeholders(a) == 1 && EndsSafely(a) && '\n' !in a
    {
      var i :| 0 <= i < |columns| && a == Assignments(columns)[i];
      assert a == columns[i] + "=" + "%s";
      PlaceholdersBetween(columns[i] + "=", "%s", "");
      assert columns[i] + "=" + "%s" + "" == a;
    }
  }

  lemma InsertHeadLiteralsPlain()
    ensures '%' !in "\n            INSERT INTO " && '%' !in " \n                ("
  {
  }

  lemma InsertValuesLiteralPlain()
    ensures '%' !in ")\n            VALUES \n                ("
  {
  }

  lemma InsertTailLiteralsPlain()
    ensures '%' !in ")\n            RETURNING " && '%' !in "_id\n        "
  {
  }

  lemma InsertTemplateFixedParts(table: string, columnsToInsert: string)
    requires '%' !in table && '%' !in columnsToInsert
    ensures '%' !in InsertHead(table, columnsToInsert) && '%' !in InsertTail(table)
  {
    InsertHeadLiteralsPlain();
    InsertValuesLiteralPlain();
    InsertTailLiteralsPlain();
  }

  /** The INSERT text holds exactly one `%s` per inserted column, so the
      inserted values bind one to one. */
  lemma InsertQueryPlaceholders(table: string, columns: seq<string>)
    requires IsIdentifier(table) && AllIdentifiers(columns)
    ensures Placeholders(InsertQuery(table, columns)) == |columns|
    ensures '\n' !in InsertQuery(table, columns)
  {
    IdentifierIsPlain(table);
    IdentifiersArePlain(columns);
    MarkersPlaceholders(|columns|);
    var columnsToInsert := Join(", ", columns);
    var markers := Join(", ", Markers(|columns|));
    JoinExcludes(", ", columns, '%');
    JoinPlaceholders(", ", Markers(|columns|));
    JoinExcludes(", ", Markers(|columns|), '\n');
    InsertTemplateFixedParts(table, columnsToInsert);
    PlaceholdersAfterRemovingNewlines(InsertHead(table, columnsToInsert), markers, InsertTail(table));
  }

  /** The UPDATE text holds one `%s` per set column and one for the id. */
  lemma UpdateQueryPlaceholders(table: string, columns: seq<string>)
    requires IsIdentifier(table) && AllIdentifiers(columns)
    ensures Placeholders(UpdateQuery(table, columns)) == |columns| + 1
  {
    IdentifierIsPlain(table);
    AssignmentsPlaceholders(columns);
    MarkerPlaceholders();
    var pairs := Join(", ", Assignments(columns));
    JoinPlaceholders(", ", Assignments(columns));
    var head := UpdateHead(table);
    var before := "\n            WHERE " + table + "_id=";
    assert '%' !in head by {
      assert '%' !in "\n            UPDATE ";
      assert '%' !in " \n            SET ";
    }
    assert '%' !in before by {
      assert '%' !in "\n            WHERE ";
      assert '%' !in "_id=";
    }
    assert '%' !in "\n        ";
    PlaceholdersBetween(before, "%s", "\n        ");
    PlaceholdersBetween(head, pairs, []);
    assert head + pairs + [] == head + pairs;
    PlaceholdersAppend(head + pairs, UpdateTail(table));
  }

  lemma SelectTemplateFixedParts(table: string, columnsToSelect: string)
    requires '%' !in table && '%' !in columnsToSelect
    ensures '%' !in SelectTemplate(table, columnsToSelect)
  {
    assert '%' !in "\n        SELECT ";
    assert '%' !in " FROM ";
    assert '%' !in " \n        ";
  }

  /** The condition holds one `%s` per filter column and no line break. */
  lemma SelectConditionPlaceholders(filterColumns: seq<string>, softDelete: bool)
    requires AllIdentifiers(filterColumns)
    ensures Placeholders(SelectCondition(filterColumns, softDelete)) == |filterColumns|
    ensures '\n' !in SelectCondition(filterColumns, softDelete)
  {
    var active := if softDelete then " AND is_active=TRUE " else "";
    assert '%' !in active && '\n' !in active;
    if |filterColumns| > 0 {
      AssignmentsPlaceholders(filterColumns);
      var filters := Join(" AND ", Assignments(filterColumns));
      JoinPlaceholders(" AND ", Assignments(filterColumns));
      JoinExcludes(" AND ", Assignments(filterColumns), '\n');
      PlaceholdersBetween(" WHERE ", filters, active);
    } else {
      assert '%' !in " WHERE is_active=TRUE" && '\n' !in " WHERE is_active=TRUE";
      NoPercentNoPlaceholders(SelectCondition(filterColumns, softDelete));
    }
  }

  /** The SELECT text holds one `%s` per filter column and no other marker. */
  lemma SelectQueryPlaceholders(table: string, projection: seq<string>, filterColumns: seq<string>, softDelete: bool)
    requires IsIdentifier(table) && AllIdentifiers(projection) && AllIdentifiers(filterColumns)
    ensures Placeholders(SelectQuery(table, projection, filterColumns, softDelete)) == |filterColumns|
    ensures '\n' !in SelectQuery(table, projection, filterColumns, softDelete)
  {
    IdentifierIsPlain(table);
    IdentifiersArePlain(projection);
    JoinExcludes(", ", projection, '%');
    var front := SelectTemplate(table, Join(", ", projection));
    SelectTemplateFixedParts(table, Join(", ", projection));
    var condition := SelectCondition(filterColumns, softDelete);
    SelectConditionPlaceholders(filterColumns, softDelete);
    RemoveNewlinesAppend(front, condition);
    var plain := RemoveNewlines(front);
    RemoveNewlinesKeeps(front);
    RemoveNewlinesKeeps(condition);
    assert '%' !in plain;
    NoPercentNoPlaceholders(plain);
    assert EndsSafely(plain) by {
      if plain != [] { assert plain[|plain| - 1] in plain; }
    }
    PlaceholdersAppend(plain, condition);
  }
}
