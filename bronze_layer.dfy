/** The bronze layer: every project's SQLite store (tables `project` and
    `expenses`) and budget CSV are read, each frame is tagged with the
    project's code, and the frames are concatenated into three raw tables,
    with no cleaning, no deduplication and no row dropped.

    The stores are parameters: `db(path)` is what `SELECT * FROM project` and
    `SELECT * FROM expenses` return for the database at `path`, or `None`
    when the queries raise (a missing file is created empty by
    `sqlite3.connect`, so its queries fail); `csv(path)` is what
    `pd.read_csv(path)` returns, or `None` when it raises. */
module BronzeLayer {
  import opened Wrappers
  import opened Seqs

  type Path = string

  /** A cell of a column that silver later casts with `astype(int)`: whatever
      SQLite or the CSV reader produced. */
  datatype RawValue = IntValue(i: int) | FloatValue(x: real) | NaN | TextValue(text: string)

  datatype ProjectRow = ProjectRow(projectCode: string, country: string, name: string)

  datatype BronzeExpense = BronzeExpense(
    projectCode: string, year: RawValue, month: RawValue,
    department: string, category: string, currency: string, amountLocal: real)

  datatype BronzeBudget = BronzeBudget(
    projectCode: string, year: RawValue, month: RawValue,
    department: string, category: string, budgetEur: real)

  /** The two tables of one project database. */
  datatype DbExtract = DbExtract(projects: seq<ProjectRow>, expenses: seq<BronzeExpense>)

  datatype LoadError = DbUnreadable(dbPath: Path) | CsvUnreadable(csvPath: Path)

  datatype BronzeTables = BronzeTables(
    projects: seq<ProjectRow>, expenses: seq<BronzeExpense>, budgets: seq<BronzeBudget>)

  // ----- catalogs (paths are relative to the configured root directory) -----

  /** The project codes, in processing order. */
  const Projects: seq<string> := ["BE01", "BE55", "BF01", "BF02", "KE01", "KE02", "SN01", "SN02"]

  function DbPath(code: string): Path {
    code + ".db"
  }

  /** `db_paths`: one "<code>.db" entry per project code, in `Projects` order
      (a dict iterates in insertion order, so catalogs are ordered pairs). */
  function DbPaths(): (c: seq<(string, Path)>)
    ensures |c| == |Projects|
    ensures forall k :: 0 <= k < |c| ==> c[k] == (Projects[k], DbPath(Projects[k]))
  {
    seq(|Projects|, k requires 0 <= k < |Projects| => (Projects[k], DbPath(Projects[k])))
  }

  /** `csv_paths`, written out entry by entry; the KE02 entry names
      "KEO2_budget.csv" with the letter O. */
  const CsvPaths: seq<(string, Path)> := [
    ("BE01", "BE01_budget.csv"),
    ("BE55", "BE55_budget.csv"),
    ("BF01", "BF01_budget.csv"),
    ("BF02", "BF02_budget.csv"),
    ("KE01", "KE01_budget.csv"),
    ("KE02", "KEO2_budget.csv"),
    ("SN01", "SN01_budget.csv"),
    ("SN02", "SN02_budget.csv")
  ]

  function Keys<K, V>(c: seq<(K, V)>): (ks: seq<K>)
    ensures |ks| == |c| && forall k :: 0 <= k < |c| ==> ks[k] == c[k].0
  {
    seq(|c|, k requires 0 <= k < |c| => c[k].0)
  }

  /** Both catalogs are keyed by exactly the project codes, in the same order;
      every database is "<code>.db", and every CSV is "<code>_budget.csv"
      except KE02's. */
  lemma CatalogsCoverProjects()
    ensures Keys(DbPaths()) == Projects && Keys(CsvPaths) == Projects
    ensures Distinct(Projects)
    ensures forall k :: 0 <= k < |Projects| ==> DbPaths()[k].1 == Projects[k] + ".db"
    ensures forall k :: 0 <= k < |Projects| ==>
      (CsvPaths[k].1 == Projects[k] + "_budget.csv" <==> Projects[k] != "KE02")
    ensures CsvPaths[5] == ("KE02", "KEO2_budget.csv")
  {
    assert CsvPaths[5].1 != Projects[5] + "_budget.csv" by {
      assert CsvPaths[5].1[2] == 'O' && (Projects[5] + "_budget.csv")[2] == '0';
    }
  }

  // ----- missing-file report -----

  /** The catalog's paths that do not exist, in catalog order. */
  function MissingPaths(catalog: seq<(string, Path)>, onDisk: Path -> bool): seq<Path>
    decreases |catalog|
  {
    if catalog == [] then []
    else
      var last := catalog[|catalog| - 1];
      MissingPaths(catalog[..|catalog| - 1], onDisk) + (if onDisk(last.1) then [] else [last.1])
  }

  lemma {:induction false} MissingPathsSpec(catalog: seq<(string, Path)>, onDisk: Path -> bool)
    ensures forall p :: p in MissingPaths(catalog, onDisk) <==>
      (!onDisk(p) && exists k :: 0 <= k < |catalog| && catalog[k].1 == p)
    decreases |catalog|
  {
    if catalog != [] {
      var init := catalog[..|catalog| - 1];
      MissingPathsSpec(init, onDisk);
      forall p | !onDisk(p) && (exists k :: 0 <= k < |catalog| && catalog[k].1 == p)
        ensures p in MissingPaths(catalog, onDisk)
      {
        var k :| 0 <= k < |catalog| && catalog[k].1 == p;
        if k < |init| {
          assert init[k].1 == p;
        }
      }
    }
  }

  /** The two "Missing ... file" loops: they only produce the warning lines
      (here, the paths they name); no catalog entry is removed. */
  method ReportMissing(onDisk: Path -> bool) returns (missingDbs: seq<Path>, missingCsvs: seq<Path>)
    ensures missingDbs == MissingPaths(DbPaths(), onDisk)
    ensures missingCsvs == MissingPaths(CsvPaths, onDisk)
  {
    var dbs := DbPaths();
    missingDbs := [];
    var i := 0;
    while i < |dbs|
      invariant 0 <= i <= |dbs|
      invariant missingDbs == MissingPaths(dbs[..i], onDisk)
    {
      assert dbs[..i + 1][..i] == dbs[..i];
      if !onDisk(dbs[i].1) {
        missingDbs := missingDbs + [dbs[i].1];
      }
      i := i + 1;
    }
    assert dbs[..i] == dbs;
    missingCsvs := [];
    i := 0;
    while i < |CsvPaths|
      invariant 0 <= i <= |CsvPaths|
      invariant missingCsvs == MissingPaths(CsvPaths[..i], onDisk)
    {
      assert CsvPaths[..i + 1][..i] == CsvPaths[..i];
      if !onDisk(CsvPaths[i].1) {
        missingCsvs := missingCsvs + [CsvPaths[i].1];
      }
      i := i + 1;
    }
    assert CsvPaths[..i] == CsvPaths;
  }

  // ----- tagging -----

  /** `df["project_code"] = code` on a project frame: the code column is set on
      every row and no other column changes. */
  function TagProjects(code: string, rows: seq<ProjectRow>): (r: seq<ProjectRow>)
    ensures |r| == |rows|
    ensures forall k :: 0 <= k < |r| ==>
      r[k].projectCode == code && r[k].(projectCode := rows[k].projectCode) == rows[k]
  {
    seq(|rows|, k requires 0 <= k < |rows| => rows[k].(projectCode := code))
  }

  /** The same tagging on an expense frame; Dafny's datatypes share no field
      update across record types, so each row type has its own copy. */
  function TagExpenses(code: string, rows: seq<BronzeExpense>): (r: seq<BronzeExpense>)
    ensures |r| == |rows|
    ensures forall k :: 0 <= k < |r| ==>
      r[k].projectCode == code && r[k].(projectCode := rows[k].projectCode) == rows[k]
  {
    seq(|rows|, k requires 0 <= k < |rows| => rows[k].(projectCode := code))
  }

  /** The same tagging on a budget frame, with the catalog key as the code. */
  function TagBudgets(code: string, rows: seq<BronzeBudget>): (r: seq<BronzeBudget>)
    ensures |r| == |rows|
    ensures forall k :: 0 <= k < |r| ==>
      r[k].projectCode == code && r[k].(projectCode := rows[k].projectCode) == rows[k]
  {
    seq(|rows|, k requires 0 <= k < |rows| => rows[k].(projectCode := code))
  }

  /** `load_tables_from_db`: read both tables of one database and tag them. */
  function LoadTablesFromDb(code: string, path: Path, db: Path -> Option<DbExtract>)
    : Option<(seq<ProjectRow>, seq<BronzeExpense>)>
  {
    match db(path)
    case None => None
    case Some(x) => Some((TagProjects(code, x.projects), TagExpenses(code, x.expenses)))
  }

  // ----- the two loading loops, as specifications -----

  /** The project and expense frames collected for `codes`, in order, or the
      first database whose queries raise. */
  function DbFrames(codes: seq<string>, db: Path -> Option<DbExtract>)
    : Result<(seq<seq<ProjectRow>>, seq<seq<BronzeExpense>>), LoadError>
    decreases |codes|
  {
    if codes == [] then Success(([], []))
    else
      var prev :- DbFrames(codes[..|codes| - 1], db);
      var code := codes[|codes| - 1];
      match LoadTablesFromDb(code, DbPath(code), db)
      case None => Failure(DbUnreadable(DbPath(code)))
      case Some(t) => Success((prev.0 + [t.0], prev.1 + [t.1]))
  }

  /** The tagged budget frames collected for the catalog entries, in order, or
      the first CSV that cannot be read. */
  function CsvFrames(catalog: seq<(string, Path)>, csv: Path -> Option<seq<BronzeBudget>>)
    : Result<seq<seq<BronzeBudget>>, LoadError>
    decreases |catalog|
  {
    if catalog == [] then Success([])
    else
      var prev :- CsvFrames(catalog[..|catalog| - 1], csv);
      var entry := catalog[|catalog| - 1];
      match csv(entry.1)
      case None => Failure(CsvUnreadable(entry.1))
      case Some(rows) => Success(prev + [TagBudgets(entry.0, rows)])
  }

  /** The three bronze tables, or the read that aborts the run. */
  function Bronze(db: Path -> Option<DbExtract>, csv: Path -> Option<seq<BronzeBudget>>)
    : Result<BronzeTables, LoadError>
  {
    var frames :- DbFrames(Projects, db);
    var budgets :- CsvFrames(CsvPaths, csv);
    Success(BronzeTables(Flatten(frames.0), Flatten(frames.1), Flatten(budgets)))
  }

  lemma {:induction false} DbFramesFailurePersists(
    codes: seq<string>, more: seq<string>, db: Path -> Option<DbExtract>)
    requires DbFrames(codes, db).Failure?
    ensures DbFrames(codes + more, db) == DbFrames(codes, db)
    decreases |more|
  {
    if more == [] {
      assert codes + more == codes;
    } else {
      var m := more[..|more| - 1];
      assert (codes + more)[..|codes + more| - 1] == codes + m;
      DbFramesFailurePersists(codes, m, db);
    }
  }

  lemma {:induction false} CsvFramesFailurePersists(
    catalog: seq<(string, Path)>, more: seq<(string, Path)>, csv: Path -> Option<seq<BronzeBudget>>)
    requires CsvFrames(catalog, csv).Failure?
    ensures CsvFrames(catalog + more, csv) == CsvFrames(catalog, csv)
    decreases |more|
  {
    if more == [] {
      assert catalog + more == catalog;
    } else {
      var m := more[..|more| - 1];
      assert (catalog + more)[..|catalog + more| - 1] == catalog + m;
      CsvFramesFailurePersists(catalog, m, csv);
    }
  }

  /** bronze_layer.py as a program: the missing-file report, then the loop over
      `Projects` appending each database's tagged frames, then the loop over
      `CsvPaths` appending each tagged budget frame, then the concatenations.
      The report does not influence the result: the tables depend only on the
      stores. */
  method RunBronze(
    db: Path -> Option<DbExtract>, csv: Path -> Option<seq<BronzeBudget>>, onDisk: Path -> bool)
    returns (missingDbs: seq<Path>, missingCsvs: seq<Path>, r: Result<BronzeTables, LoadError>)
    ensures missingDbs == MissingPaths(DbPaths(), onDisk)
    ensures missingCsvs == MissingPaths(CsvPaths, onDisk)
    ensures r == Bronze(db, csv)
  {
    missingDbs, missingCsvs := ReportMissing(onDisk);

    var allProjects: seq<seq<ProjectRow>> := [];
    var allExpenses: seq<seq<BronzeExpense>> := [];
    var i := 0;
    while i < |Projects|
      invariant 0 <= i <= |Projects|
      invariant DbFrames(Projects[..i], db) == Success((allProjects, allExpenses))
    {
      var code := Projects[i];
      assert Projects[..i + 1][..i] == Projects[..i];
      var loaded := LoadTablesFromDb(code, DbPath(code), db);
      if loaded.None? {
        r := Failure(DbUnreadable(DbPath(code)));
        DbFramesFailurePersists(Projects[..i + 1], Projects[i + 1..], db);
        assert Projects[..i + 1] + Projects[i + 1..] == Projects;
        return;
      }
      allProjects := allProjects + [loaded.value.0];
      allExpenses := allExpenses + [loaded.value.1];
      i := i + 1;
    }
    assert Projects[..i] == Projects;

    var budgetFrames: seq<seq<BronzeBudget>> := [];
    var j := 0;
    while j < |CsvPaths|
      invariant 0 <= j <= |CsvPaths|
      invariant CsvFrames(CsvPaths[..j], csv) == Success(budgetFrames)
    {
      var entry := CsvPaths[j];
      assert CsvPaths[..j + 1][..j] == CsvPaths[..j];
      var rows := csv(entry.1);
      if rows.None? {
        r := Failure(CsvUnreadable(entry.1));
        CsvFramesFailurePersists(CsvPaths[..j + 1], CsvPaths[j + 1..], csv);
        assert CsvPaths[..j + 1] + CsvPaths[j + 1..] == CsvPaths;
        return;
      }
      budgetFrames := budgetFrames + [TagBudgets(entry.0, rows.value)];
      j := j + 1;
    }
    assert CsvPaths[..j] == CsvPaths;

    r := Success(BronzeTables(Flatten(allProjects), Flatten(allExpenses), Flatten(budgetFrames)));
  }

  // ----- properties of the loaded tables -----

  function ProjectRowCount(codes: seq<string>, db: Path -> Option<DbExtract>): nat
    decreases |codes|
  {
    if codes == [] then 0
    else
      var code := codes[|codes| - 1];
      ProjectRowCount(codes[..|codes| - 1], db) + |db(DbPath(code)).GetOr(DbExtract([], [])).projects|
  }

  function ExpenseRowCount(codes: seq<string>, db: Path -> Option<DbExtract>): nat
    decreases |codes|
  {
    if codes == [] then 0
    else
      var code := codes[|codes| - 1];
      ExpenseRowCount(codes[..|codes| - 1], db) + |db(DbPath(code)).GetOr(DbExtract([], [])).expenses|
  }

  function BudgetRowCount(catalog: seq<(string, Path)>, csv: Path -> Option<seq<BronzeBudget>>): nat
    decreases |catalog|
  {
    if catalog == [] then 0
    else BudgetRowCount(catalog[..|catalog| - 1], csv) + |csv(catalog[|catalog| - 1].1).GetOr([])|
  }

  /** The database loop succeeds exactly when every database can be read. */
  lemma {:induction false} DbFramesSucceed(codes: seq<string>, db: Path -> Option<DbExtract>)
    ensures DbFrames(codes, db).Success? <==> forall k :: 0 <= k < |codes| ==> db(DbPath(codes[k])).Some?
    decreases |codes|
  {
    if codes != [] {
      var init := codes[..|codes| - 1];
      DbFramesSucceed(init, db);
      assert forall k :: 0 <= k < |init| ==> init[k] == codes[k];
    }
  }

  /** The k-th frames of the database loop are the k-th database's tables
      tagged with the k-th code. */
  lemma {:induction false} DbFramesContents(codes: seq<string>, db: Path -> Option<DbExtract>)
    requires DbFrames(codes, db).Success?
    ensures var f := DbFrames(codes, db).value;
      && |f.0| == |codes| && |f.1| == |codes|
      && forall k :: 0 <= k < |codes| ==>
           && db(DbPath(codes[k])).Some?
           && f.0[k] == TagProjects(codes[k], db(DbPath(codes[k])).value.projects)
           && f.1[k] == TagExpenses(codes[k], db(DbPath(codes[k])).value.expenses)
    decreases |codes|
  {
    if codes != [] {
      var init := codes[..|codes| - 1];
      var code := codes[|codes| - 1];
      assert DbFrames(init, db).Success?;
      DbFramesContents(init, db);
      var g := DbFrames(init, db).value;
      var x := db(DbPath(code)).value;
      var f := DbFrames(codes, db).value;
      assert f == (g.0 + [TagProjects(code, x.projects)], g.1 + [TagExpenses(code, x.expenses)]);
      assert forall k :: 0 <= k < |init| ==> init[k] == codes[k];
    }
  }

  /** The frames of the database loop hold as many rows as the databases
      together. */
  lemma {:induction false} DbFramesRowCounts(codes: seq<string>, db: Path -> Option<DbExtract>)
    requires DbFrames(codes, db).Success?
    ensures TotalLength(DbFrames(codes, db).value.0) == ProjectRowCount(codes, db)
    ensures TotalLength(DbFrames(codes, db).value.1) == ExpenseRowCount(codes, db)
    decreases |codes|
  {
    if codes != [] {
      var init := codes[..|codes| - 1];
      var code := codes[|codes| - 1];
      assert DbFrames(init, db).Success?;
      DbFramesRowCounts(init, db);
      var g := DbFrames(init, db).value;
      var x := db(DbPath(code)).value;
      var p := TagProjects(code, x.projects);
      var e := TagExpenses(code, x.expenses);
      assert DbFrames(codes, db).value == (g.0 + [p], g.1 + [e]);
      assert (g.0 + [p])[..|g.0|] == g.0;
      assert (g.1 + [e])[..|g.1|] == g.1;
    }
  }

  /** The budget loop succeeds exactly when every CSV can be read. */
  lemma {:induction false} CsvFramesSucceed(catalog: seq<(string, Path)>, csv: Path -> Option<seq<BronzeBudget>>)
    ensures CsvFrames(catalog, csv).Success? <==> forall k :: 0 <= k < |catalog| ==> csv(catalog[k].1).Some?
    decreases |catalog|
  {
    if catalog != [] {
      var init := catalog[..|catalog| - 1];
      CsvFramesSucceed(init, csv);
      assert forall k :: 0 <= k < |init| ==> init[k] == catalog[k];
    }
  }

  /** The k-th frame of the budget loop is the k-th CSV tagged with the k-th
      catalog key. */
  lemma {:induction false} CsvFramesContents(catalog: seq<(string, Path)>, csv: Path -> Option<seq<BronzeBudget>>)
    requires CsvFrames(catalog, csv).Success?
    ensures var f := CsvFrames(catalog, csv).value;
      && |f| == |catalog|
      && forall k :: 0 <= k < |catalog| ==>
           csv(catalog[k].1).Some? && f[k] == TagBudgets(catalog[k].0, csv(catalog[k].1).value)
    decreases |catalog|
  {
    if catalog != [] {
      var init := catalog[..|catalog| - 1];
      var entry := catalog[|catalog| - 1];
      assert CsvFrames(init, csv).Success?;
      CsvFramesContents(init, csv);
      var g := CsvFrames(init, csv).value;
      assert CsvFrames(catalog, csv).value == g + [TagBudgets(entry.0, csv(entry.1).value)];
      assert forall k :: 0 <= k < |init| ==> init[k] == catalog[k];
    }
  }

  /** The budget frames hold as many rows as the files together. */
  lemma {:induction false} CsvFramesRowCount(catalog: seq<(string, Path)>, csv: Path -> Option<seq<BronzeBudget>>)
    requires CsvFrames(catalog, csv).Success?
    ensures TotalLength(CsvFrames(catalog, csv).value) == BudgetRowCount(catalog, csv)
    decreases |catalog|
  {
    if catalog != [] {
      var init := catalog[..|catalog| - 1];
      var entry := catalog[|catalog| - 1];
      assert CsvFrames(init, csv).Success?;
      CsvFramesRowCount(init, csv);
      var g := CsvFrames(init, csv).value;
      var last := TagBudgets(entry.0, csv(entry.1).value);
      assert CsvFrames(catalog, csv).value == g + [last];
      assert (g + [last])[..|g|] == g;
    }
  }

  /** Bronze row counts: each table has exactly as many rows as its sources
      together (no row dropped, none duplicated). */
  lemma BronzeRowCounts(db: Path -> Option<DbExtract>, csv: Path -> Option<seq<BronzeBudget>>)
    requires Bronze(db, csv).Success?
    ensures var t := Bronze(db, csv).value;
      && |t.projects| == ProjectRowCount(Projects, db)
      && |t.expenses| == ExpenseRowCount(Projects, db)
      && |t.budgets| == BudgetRowCount(CsvPaths, csv)
  {
    var f := DbFrames(Projects, db).value;
    var b := CsvFrames(CsvPaths, csv).value;
    DbFramesRowCounts(Projects, db);
    CsvFramesRowCount(CsvPaths, csv);
    FlattenLength(f.0);
    FlattenLength(f.1);
    FlattenLength(b);
  }

  /** Every bronze row carries the code of the project it was loaded for. */
  lemma BronzeRowCodes(db: Path -> Option<DbExtract>, csv: Path -> Option<seq<BronzeBudget>>)
    requires Bronze(db, csv).Success?
    ensures var t := Bronze(db, csv).value;
      && (forall r :: r in t.projects ==> r.projectCode in Projects)
      && (forall r :: r in t.expenses ==> r.projectCode in Projects)
      && (forall r :: r in t.budgets ==> r.projectCode in Projects)
  {
    var t := Bronze(db, csv).value;
    var f := DbFrames(Projects, db).value;
    var b := CsvFrames(CsvPaths, csv).value;
    DbFramesContents(Projects, db);
    CsvFramesContents(CsvPaths, csv);
    assert forall k :: 0 <= k < |CsvPaths| ==> CsvPaths[k].0 == Projects[k];
    FlattenField(f.0, (r: ProjectRow) => r.projectCode, Projects);
    FlattenField(f.1, (r: BronzeExpense) => r.projectCode, Projects);
    FlattenField(b, (r: BronzeBudget) => r.projectCode, Projects);
  }

  /** A source that cannot be read stops the run: the missing-file report
      does not exclude it, so its later read raises. */
  lemma UnreadableSourceAborts(db: Path -> Option<DbExtract>, csv: Path -> Option<seq<BronzeBudget>>, k: nat)
    requires k < |Projects|
    requires db(DbPath(Projects[k])).None? || csv(CsvPaths[k].1).None?
    ensures Bronze(db, csv).Failure?
  {
    DbFramesSucceed(Projects, db);
    CsvFramesSucceed(CsvPaths, csv);
  }
}
