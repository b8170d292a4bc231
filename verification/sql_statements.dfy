/** The SQL text generators of `pandas_sql_interface.py`: a DataFrame enters only
    through its `dtypes`, an ordered list of (column label, dtype name) pairs. */
module SqlStatements {
  import opened Strings

  /** One entry of `DataFrame.dtypes`: a column label and the `str()` of its dtype. */
  datatype Column = Column(name: string, dtype: string)

  /** The columns of a DataFrame, in declaration order. */
  type Schema = seq<Column>

  /** The fixed pandas-dtype to SQL-type table. */
  const DtypeKeywords: map<string, string> := map[
    "int64" := "BIGINT",
    "int32" := "INT",
    "float64" := "DOUBLE",
    "float32" := "FLOAT",
    "object" := "TEXT",
    "bool" := "BOOLEAN",
    "datetime64[ns]" := "TIMESTAMP"
  ]

  /** The keyword any dtype outside the table falls back to. */
  const FallbackKeyword: string := "TEXT"

  /** Every keyword SqlType can produce. */
  const SqlKeywords: set<string> := {"BIGINT", "INT", "DOUBLE", "FLOAT", "TEXT", "BOOLEAN", "TIMESTAMP"}

  /** `pandas_to_sql_dtype_map.get(str(type), "TEXT")`. */
  function SqlType(dtype: string): (kw: string)
    ensures kw in SqlKeywords
    ensures ',' !in kw && EndsClean(kw)
  {
    if dtype in DtypeKeywords then DtypeKeywords[dtype] else FallbackKeyword
  }

  /** The type lookup as a table: seven known dtypes, everything else is TEXT. */
  lemma SqlTypeTable()
    ensures SqlType("int64") == "BIGINT"
    ensures SqlType("int32") == "INT"
    ensures SqlType("float64") == "DOUBLE"
    ensures SqlType("float32") == "FLOAT"
    ensures SqlType("object") == "TEXT"
    ensures SqlType("bool") == "BOOLEAN"
    ensures SqlType("datetime64[ns]") == "TIMESTAMP"
    ensures forall d :: d !in {"int64", "int32", "float64", "float32", "object", "bool", "datetime64[ns]"} ==>
                          SqlType(d) == "TEXT"
  {
  }

  /** One column definition, `name TYPE`. */
  function ColumnDef(c: Column): string {
    c.name + " " + SqlType(c.dtype)
  }

  function ColumnDefs(s: Schema): seq<string> {
    seq(|s|, i requires 0 <= i < |s| => ColumnDef(s[i]))
  }

  function Names(s: Schema): seq<string> {
    seq(|s|, i requires 0 <= i < |s| => s[i].name)
  }

  function Prefixed(names: seq<string>, prefix: string): seq<string> {
    seq(|names|, i requires 0 <= i < |names| => prefix + names[i])
  }

  /** No column name contains a comma. */
  predicate CommaFree(s: Schema) {
    forall i :: 0 <= i < |s| ==> ',' !in s[i].name
  }

  /** No column name contains the separator `", "`, and the last name is not
      swallowed by `rstrip(", ")`: the name lists then read back unambiguously. */
  predicate PlainNames(s: Schema) {
    (forall i :: 0 <= i < |s| ==> NoSep(s[i].name)) && (|s| > 0 ==> EndsClean(s[|s| - 1].name))
  }

  /** `CREATE_COLUMNLIST_statement`: the column definitions joined by `", "`. Because
      every SQL keyword ends in a letter, rstrip never eats into the last definition. */
  function CreateColumnList(s: Schema): (r: string)
    ensures s == [] ==> r == []
    ensures |s| > 0 ==> r == Join(ColumnDefs(s))
    ensures r == [] || r[|r| - 1] !in SepChars
  {
    if |s| > 0 then
      LastDefinitionEndsClean(s);
      ColumnList(ColumnDefs(s))
    else
      ColumnList(ColumnDefs(s))
  }

  /** The last column definition ends in the letter its SQL keyword ends in. */
  lemma LastDefinitionEndsClean(s: Schema)
    requires |s| > 0
    ensures EndsClean(ColumnDefs(s)[|s| - 1])
  {
    var def := ColumnDef(s[|s| - 1]);
    var kw := SqlType(s[|s| - 1].dtype);
    assert def[|def| - 1] == kw[|kw| - 1];
  }

  /** `JUST_COLUMNLIST_statement(df, prefix)`: every column name behind `prefix`,
      joined by `", "`, then `rstrip(", ")`. */
  function JustColumnList(s: Schema, prefix: string): (r: string)
    ensures r == RStrip(Join(Prefixed(Names(s), prefix)), SepChars)
    ensures s == [] ==> r == []
    ensures r == [] || r[|r| - 1] !in SepChars
    ensures r <= Join(Prefixed(Names(s), prefix))
    ensures |s| > 0 && EndsClean(s[|s| - 1].name) ==> r == Join(Prefixed(Names(s), prefix))
  {
    var items := Prefixed(Names(s), prefix);
    if |s| > 0 then
      var name := s[|s| - 1].name;
      assert |name| > 0 ==> items[|s| - 1][|items[|s| - 1]| - 1] == name[|name| - 1];
      ColumnList(items)
    else
      ColumnList(items)
  }

  /** `CREATE_TABLE_statement`. For every schema the definitions are their exact
      join and the UNIQUE clause is rstrip of the joined names. An empty schema
      leaves the definition list empty in front of `, UNIQUE ()`; when the last name
      survives rstrip, the UNIQUE clause is the exact join of the names. */
  function CreateTable(table: string, s: Schema): (r: string)
    ensures |s| > 0 ==>
              r == "CREATE TABLE " + table + " (" + Join(ColumnDefs(s)) + ", UNIQUE ("
                   + RStrip(Join(Names(s)), SepChars) + "));"
    ensures s == [] ==> r == "CREATE TABLE " + table + " (, UNIQUE ());"
    ensures |s| > 0 && EndsClean(s[|s| - 1].name) ==>
              r == "CREATE TABLE " + table + " (" + Join(ColumnDefs(s)) + ", UNIQUE (" + Join(Names(s)) + "));"
  {
    DefaultPrefixIsNames(s);
    "CREATE TABLE " + table + " (" + CreateColumnList(s) + ", UNIQUE (" + JustColumnList(s, "") + "));"
  }

  /** `INSERT_INTO_TABLE_statement`: named placeholders `:name` bind the record's
      fields. For every schema the column list and the conflict target are the same
      text, rstrip of the joined names, and VALUES is rstrip of the joined
      `:`-prefixed names. When the last name survives rstrip they are the exact
      joins; otherwise the two lists can differ in length (see
      `TrailingEmptyNameMisalignsPlaceholders`). */
  function InsertIntoTable(table: string, s: Schema): (r: string)
    ensures r == "INSERT INTO " + table + " (" + RStrip(Join(Names(s)), SepChars) + ") VALUES ("
                 + RStrip(Join(Prefixed(Names(s), ":")), SepChars)
                 + ") ON CONFLICT (" + RStrip(Join(Names(s)), SepChars) + ") DO NOTHING;"
    ensures s == [] ==> r == "INSERT INTO " + table + " () VALUES () ON CONFLICT () DO NOTHING;"
    ensures |s| > 0 && EndsClean(s[|s| - 1].name) ==>
              r == "INSERT INTO " + table + " (" + Join(Names(s)) + ") VALUES (" + Join(Prefixed(Names(s), ":"))
                   + ") ON CONFLICT (" + Join(Names(s)) + ") DO NOTHING;"
  {
    DefaultPrefixIsNames(s);
    var columns := JustColumnList(s, "");
    "INSERT INTO " + table + " (" + columns + ") VALUES (" + JustColumnList(s, ":")
      + ") ON CONFLICT (" + columns + ") DO NOTHING;"
  }

  const SelectAllPrefix: string := "SELECT * FROM "

  /** `GET_ALL_RECORDS_statement`: the table name sits verbatim between the fixed
      prefix and the closing `;`. */
  function GetAllRecords(table: string): (r: string)
    ensures |r| == |SelectAllPrefix| + |table| + 1
    ensures SelectAllPrefix <= r
    ensures r[|SelectAllPrefix|..|r| - 1] == table && r[|r| - 1] == ';'
  {
    SelectAllPrefix + table + ";"
  }

  /* ---------------------------------------------------------------------------
     properties of the generated text
     --------------------------------------------------------------------------- */

  /** With the default empty prefix the entries are the names themselves. */
  lemma DefaultPrefixIsNames(s: Schema)
    ensures Prefixed(Names(s), "") == Names(s)
  {
    var items := Prefixed(Names(s), "");
    forall i | 0 <= i < |s|
      ensures items[i] == Names(s)[i]
    {
      assert items[i] == "" + s[i].name;
    }
  }

  /** Reading the definition list back gives one `name TYPE` entry per column, in
      schema order. */
  lemma CreateColumnListEntries(s: Schema)
    requires |s| > 0 && CommaFree(s)
    ensures SplitList(CreateColumnList(s)) == ColumnDefs(s)
  {
    var defs := ColumnDefs(s);
    forall k | 0 <= k < |defs|
      ensures NoSep(defs[k])
    {
      assert ',' !in s[k].name;
      assert ',' !in SqlType(s[k].dtype);
      CommaFreeNoSep(defs[k]);
    }
    SplitJoin(defs);
  }

  /** Reading a name list back gives every column name behind the prefix, one per
      column, in schema order. */
  lemma JustColumnListEntries(s: Schema, prefix: string)
    requires |s| > 0 && PlainNames(s) && ',' !in prefix
    ensures SplitList(JustColumnList(s, prefix)) == Prefixed(Names(s), prefix)
  {
    var items := Prefixed(Names(s), prefix);
    forall k | 0 <= k < |items|
      ensures NoSep(items[k])
    {
      assert NoSep(s[k].name);
      PrefixedNoSep(prefix, s[k].name);
    }
    SplitJoin(items);
  }

  /** The UNIQUE clause, the INSERT column list and the conflict target (all the
      same text) read back as every column name, in declaration order: the same
      names, in the same order, that head the column definitions. */
  lemma UniqueListsEveryColumn(s: Schema)
    requires |s| > 0 && PlainNames(s)
    ensures SplitList(JustColumnList(s, "")) == Names(s)
  {
    JustColumnListEntries(s, "");
    DefaultPrefixIsNames(s);
  }

  /** The placeholder list reads back as `:` in front of every column name, in
      declaration order: the k-th placeholder binds the k-th entry of the column
      list and of the conflict target, which read back as the names themselves
      (UniqueListsEveryColumn). */
  lemma PlaceholdersMatchColumns(s: Schema)
    requires |s| > 0 && PlainNames(s)
    ensures SplitList(JustColumnList(s, ":")) == Prefixed(Names(s), ":")
  {
    JustColumnListEntries(s, ":");
  }

  /** rstrip strips a character set, not one separator: a trailing empty column
      name vanishes from the name list together with the separator before it. */
  lemma TrailingEmptyNameSwallowed()
    ensures JustColumnList([Column("a", "int64"), Column("", "object")], "") == "a"
  {
    var s := [Column("a", "int64"), Column("", "object")];
    var items := Prefixed(Names(s), "");
    assert items[0] == "a" && items[1] == "";
    assert items == ["a", ""];
    assert items[1..] == [""];
    assert Join(items) == "a, ";
    RStripUnique("a, ", SepChars, 1);
  }

  /** In the INSERT statement for the same schema the column list (and the
      conflict target) reads back as one column, but VALUES as two placeholders. */
  lemma TrailingEmptyNameMisalignsPlaceholders()
    ensures SplitList(JustColumnList([Column("a", "int64"), Column("", "object")], "")) == ["a"]
    ensures SplitList(JustColumnList([Column("a", "int64"), Column("", "object")], ":")) == [":a", ":"]
  {
    var s := [Column("a", "int64"), Column("", "object")];
    TrailingEmptyNameSwallowed();
    CommaFreeNoSep("a");
    SplitJoin(["a"]);
    var items := Prefixed(Names(s), ":");
    assert items[0] == ":a" && items[1] == ":";
    assert items == [":a", ":"];
    assert items[1..] == [":"];
    assert Join(items) == ":a, :";
    RStripUnique(":a, :", SepChars, 5);
    assert JustColumnList(s, ":") == ":a, :";
    CommaFreeNoSep(":a");
    CommaFreeNoSep(":");
    SplitJoin(items);
  }

  /** The definition list of the same schema still has an entry for the empty
      name, so the UNIQUE clause names fewer columns than are defined. */
  lemma TrailingEmptyNameStillDefined()
    ensures CreateColumnList([Column("a", "int64"), Column("", "object")]) == "a BIGINT,  TEXT"
  {
    var defs := ["a BIGINT", " TEXT"];
    ExampleDefinitions();
    assert defs[1..] == [" TEXT"];
    assert Join(defs) == "a BIGINT" + ", " + " TEXT";
  }

  lemma ExampleDefinitions()
    ensures ColumnDefs([Column("a", "int64"), Column("", "object")]) == ["a BIGINT", " TEXT"]
  {
    var s := [Column("a", "int64"), Column("", "object")];
    assert DtypeKeywords["int64"] == "BIGINT";
    assert "object" in DtypeKeywords && DtypeKeywords["object"] == "TEXT";
    assert ColumnDef(s[0]) == "a" + " " + "BIGINT";
    assert ColumnDef(s[1]) == "" + " " + "TEXT";
    var defs := ColumnDefs(s);
    assert |defs| == 2 && defs[0] == "a BIGINT" && defs[1] == " TEXT";
  }
}
