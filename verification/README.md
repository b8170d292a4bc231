# pd_sql_integrated — SQL text generation and CSV dump, in Dafny

This project models the pure core of `pandas_sql_interface.py`, a thin adapter that
mirrors pandas DataFrames into a relational store and dumps the store back to CSV
files. The model covers two parts.

- **SQL text generation** (`SqlStatements`, helpers in `Strings`). A DataFrame enters
  only through its `dtypes`: an ordered sequence of `Column(name, dtype)`. Each
  dtype name maps through a fixed table to an SQL keyword, and anything outside
  the table maps to `TEXT`. The column-definition list and the name list are
  built the way the source builds them. Every entry gets `", "` appended, then
  the whole string goes through `rstrip(", ")`. `RStrip` strips a *set* of
  characters, as Python does, not one separator. `CREATE TABLE … UNIQUE (…)`,
  `INSERT … VALUES (:…) ON CONFLICT (…) DO NOTHING` and `SELECT * FROM …` are
  assembled from these lists.
  - The partner of the list builders is `SplitList`, which splits at every `", "`.
    `Join(SplitList(s)) == s` holds for every string.
    `SplitList(Join(items)) == items` holds whenever the list is non-empty and no
    entry contains `", "`.
    The lemmas use this to read each generated list back: one entry per column,
    in schema order, with the placeholders lined up with the columns.
- **The folder guard of `dump_to_csv`** (`CsvDump`). The filesystem is the set of
  existing paths. The method becomes a plan of effects:
  - remove the tree;
  - make the directory;
  - list the tables;
  - export one `<folder>/<table>.csv` per table.

  `Step` says what each effect does to the set of paths, and `Apply` runs the
  effects in order. The table names come
  back from the catalogue query, so they are a parameter.

Two behaviours of the code worth knowing:
- For an empty DataFrame, `CREATE_TABLE_statement` emits `CREATE TABLE t (, UNIQUE ());`
  (see `CreateTable`).
- `get_table_into_datafame` does not use `GET_ALL_RECORDS_statement`. It builds its
  own multi-line `SELECT * FROM` query, and `GET_ALL_RECORDS_statement` is never
  called. Both are outside the dump model, which treats "materialise, then write
  the CSV" as one export effect.

## Model

| member | source | states |
|---|---|---|
| SqlStatements.SqlType | pandas_sql_interface.py:9-21 | the keyword for any dtype is one of the seven SQL keywords; it contains no comma and does not end in `,` or a space |
| SqlStatements.SqlTypeTable | pandas_sql_interface.py:9-21 | `int64`→BIGINT, `int32`→INT, `float64`→DOUBLE, `float32`→FLOAT, `object`→TEXT, `bool`→BOOLEAN, `datetime64[ns]`→TIMESTAMP; every other dtype name →TEXT |
| Strings.RStrip | pandas_sql_interface.py:23 | `rstrip(chars)` returns a prefix of its input that is empty or does not end in a character of the set; every character it dropped is in the set |
| Strings.RStripUnique | pandas_sql_interface.py:30 | those three properties determine the result of rstrip: any prefix having them is the result |
| Strings.RStripAppendStrippable | pandas_sql_interface.py:21-23 | appending only strippable characters (such as the final `", "`) does not change what rstrip returns |
| Strings.Terminated | pandas_sql_interface.py:19-21 | the loop of either list builder (lines 19-21 and 26-28) accumulates nothing for no entries and otherwise ends in the separator `", "`, which rstrip then removes |
| Strings.TerminatedIsJoin | pandas_sql_interface.py:19-21 | for one or more entries, the loop's accumulation (each entry followed by `", "`) equals the `", "`-join plus one trailing `", "` |
| Strings.JoinEnds | pandas_sql_interface.py:23 | a `", "`-join starts with its first entry and ends with its last, so its last character is the last entry's last character |
| Strings.JoinSnoc | pandas_sql_interface.py:20-21 | appending one more entry to the loop adds a separator and that entry to the join |
| Strings.ColumnList | pandas_sql_interface.py:19-30 | the accumulate-then-rstrip builder equals rstrip of the plain join; the result is a prefix of the join; it never ends in `,` or a space; it is empty for no entries; it is exactly the join when the last entry is non-empty and does not end in `,` or a space |
| Strings.SplitList | pandas_sql_interface.py:28-30 | splitting at every `", "` yields at least one entry, none of which contains `", "`, and joining them gives back the input |
| Strings.SplitJoin | pandas_sql_interface.py:28-30 | splitting a `", "`-join gives back the original entries when none of them contains `", "` |
| Strings.FindSepAfter | pandas_sql_interface.py:21 | in `x + ", " + y`, where x has no separator, the first separator is the one right after x |
| Strings.PrefixedNoSep | pandas_sql_interface.py:28 | putting a comma-free prefix in front of a name without `", "` does not create a separator |
| SqlStatements.CreateColumnList | pandas_sql_interface.py:19-23 | for a non-empty schema, the result is exactly the `", "`-join of the `name TYPE` definitions, because every keyword ends in a letter; an empty schema gives the empty string; the result never ends in `,` or a space |
| SqlStatements.LastDefinitionEndsClean | pandas_sql_interface.py:21-23 | the last `name TYPE` definition is non-empty and ends in a character rstrip keeps |
| SqlStatements.CreateColumnListEntries | pandas_sql_interface.py:19-23 | for comma-free names, reading the definition list back gives one `name TYPE` per column, in schema order |
| SqlStatements.JustColumnList | pandas_sql_interface.py:25-30 | the result is rstrip of the join of the prefixed names: empty for an empty schema, never ending in `,` or a space, a prefix of that join; it is exactly that join when the last name is non-empty and does not end in `,` or a space |
| SqlStatements.JustColumnListEntries | pandas_sql_interface.py:25-30 | when no name contains `", "`, the prefix has no comma and the last name survives rstrip, reading the list back gives `prefix + name` per column, in schema order |
| SqlStatements.DefaultPrefixIsNames | pandas_sql_interface.py:25 | with the default empty prefix the entries are the column names unchanged |
| SqlStatements.TrailingEmptyNameSwallowed | pandas_sql_interface.py:28-30 | rstrip strips past the last separator: names `a` and an empty name give the list `a` |
| SqlStatements.TrailingEmptyNameMisalignsPlaceholders | pandas_sql_interface.py:35-36 | for names `a` and an empty name, the INSERT column list (and conflict target) reads back as one entry, `a`, but VALUES as two, `:a` and `:`, so the counts differ |
| SqlStatements.TrailingEmptyNameStillDefined | pandas_sql_interface.py:21-23 | the definition list for that same schema is `a BIGINT,  TEXT`, so there the UNIQUE clause names fewer columns than are defined |
| SqlStatements.CreateTable | pandas_sql_interface.py:32-33 | for every non-empty schema the statement is `CREATE TABLE t (` + join of `name TYPE` definitions + `, UNIQUE (` + rstrip of the join of names + `));`, and the UNIQUE part is the exact join when the last name survives rstrip; an empty schema gives `CREATE TABLE t (, UNIQUE ());` |
| SqlStatements.UniqueListsEveryColumn | pandas_sql_interface.py:33-36 | when no name contains `", "` and the last name survives rstrip, the default-prefix name list reads back as every column name in declaration order. That list is the UNIQUE clause, the INSERT column list and the conflict target, and its names are the ones that head the column definitions |
| SqlStatements.InsertIntoTable | pandas_sql_interface.py:35-36 | for every schema, the column list and the conflict target are the same text, rstrip of the join of names, and VALUES is rstrip of the join of `:`-prefixed names; they are the exact joins when the last name survives rstrip; an empty schema gives `INSERT INTO t () VALUES () ON CONFLICT () DO NOTHING;` |
| SqlStatements.PlaceholdersMatchColumns | pandas_sql_interface.py:36 | when no name contains `", "` and the last name survives rstrip, the placeholder list reads back as `:` before every column name, in declaration order, so the k-th placeholder binds the k-th entry of the column list and of the conflict target |
| SqlStatements.GetAllRecords | pandas_sql_interface.py:43-44 | the statement is `SELECT * FROM ` followed by the table name, verbatim, and a closing `;` |
| CsvDump.CsvPath | pandas_sql_interface.py:95 | each table's file lies inside the dump folder |
| CsvDump.CsvPathInjective | pandas_sql_interface.py:95 | different table names are written to different files |
| CsvDump.FolderExistsMessage | pandas_sql_interface.py:84 | the ValueError message starts with `Folder ` followed by the folder name verbatim |
| CsvDump.FolderExistsMessageInjective | pandas_sql_interface.py:84 | different folders give different messages, so the message identifies the folder |
| CsvDump.Step | pandas_sql_interface.py:85-87 | rmtree removes the folder and everything under it and leaves every other path alone; mkdir adds the folder; listing tables changes nothing; an export adds its file |
| CsvDump.ApplyConcat | pandas_sql_interface.py:83-95 | `dump_to_csv` takes its steps one after another: running effects `a + b` is running `a`, then `b` on the result |
| CsvDump.ApplyGuard | pandas_sql_interface.py:83-87 | before the exports, a fresh folder is just added; an existing folder is cleared of its tree and made again |
| CsvDump.Exports | pandas_sql_interface.py:93-95 | one export per table, in catalogue order, each to `<folder>/<table>.csv` |
| CsvDump.CsvFiles | pandas_sql_interface.py:93-95 | the written files are exactly the tables' CSV paths: every table's file is among them and each of them is some table's file; all lie inside the folder, and there are no more files than tables |
| CsvDump.CsvFilesExclude | pandas_sql_interface.py:95 | a table not in the list has no file among the written files |
| CsvDump.CsvFilesCount | pandas_sql_interface.py:91-95 | distinct table names give exactly as many files as tables |
| CsvDump.ApplyExports | pandas_sql_interface.py:93-95 | running the exports adds exactly their files |
| CsvDump.ApplyPrefixThenExports | pandas_sql_interface.py:83-95 | running the guard's effects and then the exports adds the exports' files to the guard's outcome |
| CsvDump.DumpPlan | pandas_sql_interface.py:82-95 | fails, with the folder-exists message, exactly when the folder exists and overwrite is off; otherwise remove (only if it exists), then mkdir, then list tables, then one export per table |
| CsvDump.Dump | pandas_sql_interface.py:82-95 | `dump_to_csv` raises, with the folder-exists message, exactly when the folder exists and overwrite is off; otherwise the folder exists afterwards and holds every table's CSV file |
| CsvDump.DumpRefusesExistingFolder | pandas_sql_interface.py:83-84 | an existing folder without overwrite gives the error naming the folder, and no effect runs (nothing removed, created or queried) |
| CsvDump.DumpIntoNewFolder | pandas_sql_interface.py:83-95 | a missing folder is created and the CSV files are added; no other path changes |
| CsvDump.DumpNewFolderHoldsOnlyCsvFiles | pandas_sql_interface.py:83-95 | on a filesystem where every existing path's directories exist, a folder that does not exist held nothing, so after the dump it holds exactly the new CSV files |
| CsvDump.DumpReplacesExistingFolder | pandas_sql_interface.py:83-95 | with overwrite, an existing folder ends up holding exactly the new CSV files (old files are gone); paths outside it are untouched |
| CsvDump.DumpFileCount | pandas_sql_interface.py:83-95 | with distinct table names, whenever the dump succeeds (an existing folder with overwrite, or a missing folder on a filesystem where every existing path's directories exist) the folder ends up with exactly one file per table |

## Left out

- The `Database` handle, `connect`/`disconnect`, `execute` and `fetch_all` are left out. They are asynchronous calls into an external driver (lines 48-55, 59, 65, 72, 90).
- What SQL execution does is left out: table creation, conflict-skipping that keeps the row count, and round trips through the store. That depends on the database engine, not on this text.
- DataFrame construction, `to_dict`, `to_csv` (including its index column) and the dtype inference in `get_table_into_datafame` are left out. They are pandas internals. That method's inline query text and its `print` are left out too.
- `create_table` and `save_record_to_table` are reduced to the statements they build (lines 57-65). Their loop over rows only re-executes the same statement with different bound values.
- `GET_ALL_TABLES_statement` is a constant string. It appears only as the `ListTables` effect (lines 38-41).
- `initialize_db`, `dump_db_to_folder` and `helloworld` are orchestration glue. They call the undefined name `DbInterface`, so they cannot run as written (lines 97-122).
- Filesystem failures are not modelled:
  - `rmtree` on a plain file;
  - `mkdir` under a missing parent;
  - `to_csv` with a table name that contains `/`;
  - a failure part-way through a dump that leaves a partly written folder.

  `Apply` is total and every effect succeeds.
- Column labels are modelled as strings, which stands for Python's `str()` of a label. A dtype is modelled as its `str()` name.
- The nested double quotes in `f"{column_str.rstrip(", ")}"` need Python 3.12 or later. The model assumes the statement parses.
- CreateColumnListEntries: proved only for column names without commas, which is more than needed. A name containing `", "`, or ending in `,` (followed by the `" "` before the type), makes the definition list ambiguous to read back. The exact join itself (`CreateColumnList`) holds for every schema.
- JustColumnListEntries: proved only when no name contains `", "`, the prefix has no comma and the last name is non-empty and does not end in `,` or a space. A name containing `", "` makes the list ambiguous to read back, and a last name that rstrip eats into changes the list (see `TrailingEmptyNameSwallowed`). `JustColumnList` still states the result for every schema as rstrip of the join.
- UniqueListsEveryColumn: proved only under the same condition as `JustColumnListEntries`, for the same reasons. `CreateTable` and `InsertIntoTable` state the text for every schema.
- PlaceholdersMatchColumns: proved only under the same condition. When the last name is empty or ends in `,` or a space, the placeholders and the columns can differ in count (see `TrailingEmptyNameMisalignsPlaceholders`).
- Step: paths are compared as strings and assumed canonical: no trailing `/`, no `.` or `..` segments, no repeated `/`, no symbolic links. For a folder written as `a/`, `Under` does not see `a/x` as inside it, whereas `shutil.rmtree("a/")` removes it. Path normalisation is operating-system behaviour and is not modelled.
- DumpPlan: the existing paths may be any set of strings, and `os.path.exists(folder)` is modelled as `folder in fs`. A set holding `a/x` but not `a` therefore treats `a` as missing, which no real disk allows. `DumpPlan`, `Dump`, `DumpIntoNewFolder` and `DumpReplacesExistingFolder` hold for every such set. The lemmas that need a realistic disk (`DumpNewFolderHoldsOnlyCsvFiles`, and `DumpFileCount` for a missing folder) require `ParentClosed`: every directory of an existing path exists.
