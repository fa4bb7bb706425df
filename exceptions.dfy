/** The four error values the table-access layer raises, with the messages
    their constructors format. */
module Exceptions {

  import opened Values
  import opened Text

  datatype DbException =
      /** Column(s) not valid for `table`; `columns` is kept as given. */
    | InvalidColumnsError(table: string, columns: seq<string>)
      /** A statement failed in the database; `message` is what the constructor chose to show. */
    | DBError(table: string, message: string)
      /** No single row of `table` has id `entryId`. */
    | EntryNotFoundError(table: string, entryId: int)
      /** `table` is not a table of the database. */
    | InvalidTableError(table: string)

  const GenericDbErrorMessage := "Internal server db error. " + "Actual message has been logged on server"

  /** `DBError(table, error)`: with the debug flag set the engine's diagnostic
      is shown with its line breaks removed, otherwise a fixed text hides it. */
  function NewDBError(table: string, diagnostic: string, flaskDebug: bool): (e: DbException)
    ensures e.DBError? && e.table == table
    ensures '\n' !in e.message
    ensures flaskDebug && '\n' !in diagnostic ==> e.message == diagnostic
    ensures flaskDebug ==> forall c :: c in e.message ==> c in diagnostic
    ensures !flaskDebug ==> e.message == GenericDbErrorMessage
  {
    if flaskDebug then
      RemoveNewlinesKeeps(diagnostic);
      DBError(table, RemoveNewlines(diagnostic))
    else
      assert '\n' !in GenericDbErrorMessage by {
        assert '\n' !in "Internal server db error. ";
        assert '\n' !in "Actual message has been logged on server";
      }
      DBError(table, GenericDbErrorMessage)
  }

  const InvalidColumnsPrefix := "The table '"
  const InvalidColumnsInfix := "' has no column(s) "
  const EntryNotFoundPrefix := "The "
  const EntryNotFoundInfix := " with id "
  const EntryNotFoundSuffix := " was not found"
  const InvalidTablePrefix := "The table "
  const InvalidTableSuffix := " was not found in the database"

  /** The `message` each constructor stores. */
  function Message(e: DbException): string
  {
    match e
    case InvalidColumnsError(table, columns) =>
      InvalidColumnsPrefix + table + InvalidColumnsInfix + Join(", ", columns)
    case DBError(_, message) => message
    case EntryNotFoundError(table, entryId) =>
      EntryNotFoundPrefix + table + EntryNotFoundInfix + IntToString(entryId) + EntryNotFoundSuffix
    case InvalidTableError(table) =>
      InvalidTablePrefix + table + InvalidTableSuffix
  }

  /** Reads the column list back out of an InvalidColumnsError message for `table`. */
  function ColumnsInMessage(message: string, table: string): Option<seq<string>>
  {
    var head := InvalidColumnsPrefix + table + InvalidColumnsInfix;
    if |head| <= |message| && message[..|head|] == head then Some(SplitOnComma(message[|head|..]))
    else None
  }

  /** Reads the id back out of an EntryNotFoundError message for `table`. */
  function EntryIdInMessage(message: string, table: string): Option<int>
  {
    var head := EntryNotFoundPrefix + table + EntryNotFoundInfix;
    if |head| + |EntryNotFoundSuffix| <= |message| && message[..|head|] == head
    then ParseInt(message[|head|..|message| - |EntryNotFoundSuffix|])
    else None
  }

  /** Reads the table name back out of an InvalidTableError message. */
  function TableInMessage(message: string): Option<string>
  {
    if |InvalidTablePrefix| + |InvalidTableSuffix| <= |message| && message[..|InvalidTablePrefix|] == InvalidTablePrefix
    then Some(message[|InvalidTablePrefix|..|message| - |InvalidTableSuffix|])
    else None
  }

  /** An InvalidColumnsError message names exactly the columns it was given,
      in order, whenever none of them contains a comma. */
  lemma InvalidColumnsMessageNamesColumns(table: string, columns: seq<string>)
    requires |columns| >= 1
    requires forall c :: c in columns ==> ',' !in c
    ensures ColumnsInMessage(Message(InvalidColumnsError(table, columns)), table) == Some(columns)
  {
    var head := InvalidColumnsPrefix + table + InvalidColumnsInfix;
    var m := Message(InvalidColumnsError(table, columns));
    assert m == head + Join(", ", columns);
    assert m[..|head|] == head && m[|head|..] == Join(", ", columns);
    SplitJoin(columns);
  }

  /** An EntryNotFoundError message carries its id: it reads back as that id. */
  lemma EntryNotFoundMessageNamesId(table: string, entryId: int)
    ensures EntryIdInMessage(Message(EntryNotFoundError(table, entryId)), table) == Some(entryId)
  {
    var head := EntryNotFoundPrefix + table + EntryNotFoundInfix;
    var m := Message(EntryNotFoundError(table, entryId));
    assert m == head + IntToString(entryId) + EntryNotFoundSuffix;
    assert m[..|head|] == head;
    assert m[|head|..|m| - |EntryNotFoundSuffix|] == IntToString(entryId);
    ParseIntToString(entryId);
  }

  /** An InvalidTableError message carries the table name. */
  lemma InvalidTableMessageNamesTable(table: string)
    ensures TableInMessage(Message(InvalidTableError(table))) == Some(table)
  {
    var m := Message(InvalidTableError(table));
    assert m == InvalidTablePrefix + table + InvalidTableSuffix;
    assert m[..|InvalidTablePrefix|] == InvalidTablePrefix;
    assert m[|InvalidTablePrefix|..|m| - |InvalidTableSuffix|] == table;
  }
}
