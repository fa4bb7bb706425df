/** The fixed registry of tables and their ordered columns, and the three
    lookups the table-access layer validates its input with. */
module Schema {

  import opened Collections

  const UserAccountColumns: seq<string> := ["user_account_id", "email", "full_name", "uid", "is_active"]
  const PoleColumns: seq<string> := ["pole_id", "pole_number", "lat", "long"]

  /** `table_column_mappings` */
  const TableColumnMappings: map<string, seq<string>> := map[
    "user_account" := UserAccountColumns,
    "pole" := PoleColumns
  ]

  /** The column whose presence turns delete into deactivation. */
  const SoftDeleteColumn := "is_active"

  /** The primary-key column every statement names as `{table}_id`. */
  function IdColumn(table: string): string
  {
    table + "_id"
  }

  /** A name made of lower-case letters and underscores: safe to splice into SQL text. */
  predicate IsIdentifier(s: string)
  {
    |s| > 0 && forall c :: c in s ==> 'a' <= c <= 'z' || c == '_'
  }

  lemma IdentifierIsPlain(s: string)
    requires IsIdentifier(s)
    ensures '%' !in s && '\n' !in s && ',' !in s
  {
  }

  /** `is_valid_table`: the registered tables are exactly these two. */
  function IsValidTable(table: string): (valid: bool)
    ensures valid <==> table == "user_account" || table == "pole"
  {
    table in TableColumnMappings
  }

  /** `get_valid_columns`: the registered columns, or none for an unknown
      table. Every registered table lists its `{table}_id` key first, its
      columns are distinct identifiers, and only user_account has the
      soft-delete flag. */
  function GetValidColumns(table: string): (columns: seq<string>)
    ensures !IsValidTable(table) ==> columns == []
    ensures IsValidTable(table) ==> |columns| > 0 && columns[0] == IdColumn(table)
    ensures Distinct(columns)
    ensures forall c :: c in columns ==> IsIdentifier(c)
    ensures SoftDeleteColumn in columns <==> table == "user_account"
  {
    assert IsIdentifier("user_account_id") && IsIdentifier("email") && IsIdentifier("full_name")
        && IsIdentifier("uid") && IsIdentifier("is_active");
    assert IsIdentifier("pole_id") && IsIdentifier("pole_number") && IsIdentifier("lat") && IsIdentifier("long");
    if table in TableColumnMappings then TableColumnMappings[table] else []
  }

  /** `get_invalid_columns`: the distinct given columns the table does not
      have; for an unknown table, all of them. */
  function GetInvalidColumns(table: string, columns: seq<string>): (invalid: seq<string>)
    ensures forall c :: c in invalid <==> c in columns && c !in GetValidColumns(table)
    ensures Distinct(invalid)
    ensures invalid == [] <==> forall c :: c in columns ==> c in GetValidColumns(table)
    ensures !IsValidTable(table) ==> forall c :: c in invalid <==> c in columns
  {
    var invalid := Difference(columns, GetValidColumns(table));
    assert invalid != [] ==> invalid[0] in invalid;
    invalid
  }
}
