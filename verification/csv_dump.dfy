/** The filesystem side of `dump_to_csv`, with the filesystem reduced to the set of
    paths that exist. The method's steps become a list of effects: the folder guard
    decides which effects run, Step says what each effect does to the paths, and
    Apply runs the effects in order. */
module CsvDump {
  import opened Wrappers

  type Path = string

  /** The paths that exist. */
  type FileSystem = set<Path>

  /** p lies inside the directory tree rooted at folder. */
  predicate Under(p: Path, folder: Path) {
    folder + "/" <= p
  }

  /** A set of paths a real filesystem can hold: every directory some existing
      path lies in exists too, so `os.path.exists(folder)` is false only when
      nothing lies inside folder. */
  ghost predicate ParentClosed(fs: FileSystem) {
    forall p, f :: p in fs && Under(p, f) ==> f in fs
  }

  /** `f"{folder}/{name}.csv"`. */
  function CsvPath(folder: Path, table: string): (p: Path)
    ensures Under(p, folder)
  {
    folder + "/" + table + ".csv"
  }

  /** The ValueError raised when the folder exists and overwrite is not set; it
      names the folder verbatim after `Folder `. */
  function FolderExistsMessage(folder: Path): (m: string)
    ensures "Folder " + folder <= m
  {
    "Folder " + folder + " already exists. Either set overwrite flag or create a new folder name"
  }

  /** One step of `dump_to_csv`, in the order the method takes them. */
  datatype Effect =
    | RemoveTree(root: Path)           // shutil.rmtree
    | MakeDir(dir: Path)               // os.mkdir
    | ListTables                       // the catalogue query
    | Export(table: string, file: Path) // materialise the table, then to_csv

  /** What one effect does to the set of existing paths. */
  function Step(fs: FileSystem, e: Effect): (fs': FileSystem)
    ensures e.RemoveTree? ==> e.root !in fs' && forall p :: p in fs' ==> !Under(p, e.root)
    ensures e.RemoveTree? ==> forall p :: p != e.root && !Under(p, e.root) ==> (p in fs' <==> p in fs)
    ensures e.MakeDir? ==> fs' == fs + {e.dir}
    ensures e.ListTables? ==> fs' == fs
    ensures e.Export? ==> fs' == fs + {e.file}
  {
    match e
    case RemoveTree(root) => set p | p in fs && p != root && !Under(p, root)
    case MakeDir(dir) => fs + {dir}
    case ListTables => fs
    case Export(_, file) => fs + {file}
  }

  /** Runs the effects from first to last. */
  function Apply(fs: FileSystem, effects: seq<Effect>): FileSystem
    decreases |effects|
  {
    if effects == [] then fs else Apply(Step(fs, effects[0]), effects[1..])
  }

  /** One Export per table, in catalogue order. */
  function Exports(folder: Path, tables: seq<string>): (es: seq<Effect>)
    ensures |es| == |tables|
    ensures forall i :: 0 <= i < |tables| ==> es[i] == Export(tables[i], CsvPath(folder, tables[i]))
  {
    if tables == [] then [] else [Export(tables[0], CsvPath(folder, tables[0]))] + Exports(folder, tables[1..])
  }

  /** p is the file some table of the list is written to. */
  predicate IsCsvFileOf(p: Path, folder: Path, tables: seq<string>) {
    exists i :: 0 <= i < |tables| && p == CsvPath(folder, tables[i])
  }

  /** The files the exports write. */
  function CsvFiles(folder: Path, tables: seq<string>): (files: set<Path>)
    ensures forall i :: 0 <= i < |tables| ==> CsvPath(folder, tables[i]) in files
    ensures forall p :: p in files ==> Under(p, folder)
    ensures forall p :: p in files ==> IsCsvFileOf(p, folder, tables)
    ensures |files| <= |tables|
  {
    if tables == [] then {} else {CsvPath(folder, tables[0])} + CsvFiles(folder, tables[1..])
  }

  /** `dump_to_csv(folder, overwrite)` given the existing paths and the table names
      the catalogue query returns: an error before any effect, or the effects in order. */
  function DumpPlan(fs: FileSystem, folder: Path, overwrite: bool, tables: seq<string>)
    : (r: Result<seq<Effect>, string>)
    ensures r.Failure? <==> folder in fs && !overwrite
    ensures r.Failure? ==> r.error == FolderExistsMessage(folder)
    ensures r.Success? && folder in fs ==>
              r.value == [RemoveTree(folder), MakeDir(folder), ListTables] + Exports(folder, tables)
    ensures r.Success? && folder !in fs ==>
              r.value == [MakeDir(folder), ListTables] + Exports(folder, tables)
  {
    if folder in fs then
      if !overwrite then Failure(FolderExistsMessage(folder))
      else Success([RemoveTree(folder)] + [MakeDir(folder), ListTables] + Exports(folder, tables))
    else
      Success([MakeDir(folder), ListTables] + Exports(folder, tables))
  }

  /** The existing paths after `dump_to_csv`, or its error: the error exactly when
      the folder exists and overwrite is off, and otherwise the folder exists
      afterwards and holds every table's CSV file. */
  function Dump(fs: FileSystem, folder: Path, overwrite: bool, tables: seq<string>)
    : (r: Result<FileSystem, string>)
    ensures r.Failure? <==> folder in fs && !overwrite
    ensures r.Failure? ==> r.error == FolderExistsMessage(folder)
    ensures r.Success? ==> folder in r.value && CsvFiles(folder, tables) <= r.value
  {
    match DumpPlan(fs, folder, overwrite, tables)
    case Failure(e) => Failure(e)
    case Success(effects) =>
      ApplyGuard(fs, folder);
      ApplyPrefixThenExports(fs, [MakeDir(folder), ListTables], folder, tables);
      ApplyPrefixThenExports(fs, [RemoveTree(folder), MakeDir(folder), ListTables], folder, tables);
      Success(Apply(fs, effects))
  }

  /* ---------------------------------------------------------------------------
     properties
     --------------------------------------------------------------------------- */

  /** Different folders give different error messages: the folder can be read
      back from the message. */
  lemma FolderExistsMessageInjective(a: Path, b: Path)
    requires FolderExistsMessage(a) == FolderExistsMessage(b)
    ensures a == b
  {
    var ma := FolderExistsMessage(a);
    var mb := FolderExistsMessage(b);
    assert |a| == |b|;
    assert ma[7..7 + |a|] == a;
    assert mb[7..7 + |b|] == b;
  }

  /** Different tables are written to different files. */
  lemma CsvPathInjective(folder: Path, a: string, b: string)
    requires CsvPath(folder, a) == CsvPath(folder, b)
    ensures a == b
  {
    var pa := CsvPath(folder, a);
    var pb := CsvPath(folder, b);
    assert |a| == |b|;
    assert pa[|folder| + 1..|folder| + 1 + |a|] == a;
    assert pb[|folder| + 1..|folder| + 1 + |b|] == b;
  }

  /** A table not in the list has no file among the list's files. */
  lemma {:induction false} CsvFilesExclude(folder: Path, tables: seq<string>, name: string)
    requires forall i :: 0 <= i < |tables| ==> tables[i] != name
    ensures CsvPath(folder, name) !in CsvFiles(folder, tables)
    decreases |tables|
  {
    if tables != [] {
      if CsvPath(folder, tables[0]) == CsvPath(folder, name) {
        CsvPathInjective(folder, tables[0], name);
      }
      CsvFilesExclude(folder, tables[1..], name);
    }
  }

  /** Distinct table names give exactly as many files as tables. */
  lemma {:induction false} CsvFilesCount(folder: Path, tables: seq<string>)
    requires forall i, j :: 0 <= i < j < |tables| ==> tables[i] != tables[j]
    ensures |CsvFiles(folder, tables)| == |tables|
    decreases |tables|
  {
    if tables != [] {
      var head := CsvPath(folder, tables[0]);
      var rest := CsvFiles(folder, tables[1..]);
      CsvFilesExclude(folder, tables[1..], tables[0]);
      CsvFilesCount(folder, tables[1..]);
      assert CsvFiles(folder, tables) == {head} + rest;
      assert |{head} + rest| == |rest| + 1;
    }
  }

  /** Effects run in order: running `a + b` is running a, then b on the result. */
  lemma {:induction false} ApplyConcat(fs: FileSystem, a: seq<Effect>, b: seq<Effect>)
    ensures Apply(fs, a + b) == Apply(Apply(fs, a), b)
    decreases |a|
  {
    if a == [] {
      assert a + b == b;
    } else {
      assert (a + b)[1..] == a[1..] + b;
      ApplyConcat(Step(fs, a[0]), a[1..], b);
    }
  }

  /** What the guard's effects leave before the exports: a fresh folder is added;
      an existing one is cleared and made again. */
  lemma ApplyGuard(fs: FileSystem, folder: Path)
    ensures Apply(fs, [MakeDir(folder), ListTables]) == fs + {folder}
    ensures Apply(fs, [RemoveTree(folder), MakeDir(folder), ListTables])
            == Step(fs, RemoveTree(folder)) + {folder}
  {
    var rest := [MakeDir(folder), ListTables];
    var cleared := Step(fs, RemoveTree(folder));
    assert rest[1..] == [ListTables];
    assert [ListTables][1..] == [];
    assert Apply(fs, rest) == Apply(fs + {folder}, [ListTables]);
    assert [RemoveTree(folder), MakeDir(folder), ListTables][1..] == rest;
    assert Apply(cleared, rest) == Apply(cleared + {folder}, [ListTables]);
  }

  /** Running the exports adds exactly their files. */
  lemma {:induction false} ApplyExports(fs: FileSystem, folder: Path, tables: seq<string>)
    ensures Apply(fs, Exports(folder, tables)) == fs + CsvFiles(folder, tables)
    decreases |tables|
  {
    if tables != [] {
      var es := Exports(folder, tables);
      assert es[1..] == Exports(folder, tables[1..]);
      ApplyExports(fs + {CsvPath(folder, tables[0])}, folder, tables[1..]);
    }
  }

  /** Running a fixed prefix of effects, then the exports. */
  lemma ApplyPrefixThenExports(fs: FileSystem, pre: seq<Effect>, folder: Path, tables: seq<string>)
    ensures Apply(fs, pre + Exports(folder, tables)) == Apply(fs, pre) + CsvFiles(folder, tables)
  {
    ApplyConcat(fs, pre, Exports(folder, tables));
    ApplyExports(Apply(fs, pre), folder, tables);
  }

  /** An existing folder without overwrite: the error names the folder and no
      effect runs, so nothing is removed, created or queried. */
  lemma DumpRefusesExistingFolder(fs: FileSystem, folder: Path, tables: seq<string>)
    requires folder in fs
    ensures Dump(fs, folder, false, tables) == Failure(FolderExistsMessage(folder))
  {
  }

  /** A fresh folder: it is created and the files are added; nothing else changes. */
  lemma DumpIntoNewFolder(fs: FileSystem, folder: Path, overwrite: bool, tables: seq<string>)
    requires folder !in fs
    ensures Dump(fs, folder, overwrite, tables) == Success(fs + {folder} + CsvFiles(folder, tables))
  {
    ApplyPrefixThenExports(fs, [MakeDir(folder), ListTables], folder, tables);
    ApplyGuard(fs, folder);
  }

  /** An existing folder with overwrite: the old tree is replaced entirely, so the
      folder holds exactly the new CSV files, and paths outside it are untouched. */
  lemma DumpReplacesExistingFolder(fs: FileSystem, folder: Path, tables: seq<string>)
    requires folder in fs
    ensures Dump(fs, folder, true, tables).Success?
    ensures var fs' := Dump(fs, folder, true, tables).value;
            && folder in fs'
            && (forall p :: Under(p, folder) ==> (p in fs' <==> p in CsvFiles(folder, tables)))
            && (forall p :: p != folder && !Under(p, folder) ==> (p in fs' <==> p in fs))
  {
    ApplyPrefixThenExports(fs, [RemoveTree(folder), MakeDir(folder), ListTables], folder, tables);
    ApplyGuard(fs, folder);
    assert !Under(folder, folder);
  }

  /** A fresh folder on a real filesystem: since nothing lay inside it before, it
      ends up holding exactly the new CSV files. */
  lemma DumpNewFolderHoldsOnlyCsvFiles(fs: FileSystem, folder: Path, overwrite: bool, tables: seq<string>)
    requires folder !in fs && ParentClosed(fs)
    ensures Dump(fs, folder, overwrite, tables).Success?
    ensures var fs' := Dump(fs, folder, overwrite, tables).value;
            forall p :: Under(p, folder) ==> (p in fs' <==> p in CsvFiles(folder, tables))
  {
    DumpIntoNewFolder(fs, folder, overwrite, tables);
    assert forall p :: Under(p, folder) ==> p !in fs;
    assert !Under(folder, folder);
  }

  /** Whenever the dump succeeds on a real filesystem and the table names are
      distinct, the folder ends up holding one file per table: after replacing an
      existing folder and after creating a fresh one. */
  lemma DumpFileCount(fs: FileSystem, folder: Path, overwrite: bool, tables: seq<string>)
    requires (folder in fs && overwrite) || (folder !in fs && ParentClosed(fs))
    requires forall i, j :: 0 <= i < j < |tables| ==> tables[i] != tables[j]
    ensures Dump(fs, folder, overwrite, tables).Success?
    ensures var fs' := Dump(fs, folder, overwrite, tables).value;
            |set p | p in fs' && Under(p, folder)| == |tables|
  {
    if folder in fs {
      DumpReplacesExistingFolder(fs, folder, tables);
    } else {
      DumpNewFolderHoldsOnlyCsvFiles(fs, folder, overwrite, tables);
    }
    var fs' := Dump(fs, folder, overwrite, tables).value;
    assert (set p | p in fs' && Under(p, folder)) == CsvFiles(folder, tables);
    CsvFilesCount(folder, tables);
  }
}
