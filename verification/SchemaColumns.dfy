/** The column half of the diff: what the table's columns are after each phase. */
module SchemaColumns {
  import opened Text
  import opened Ddl
  import opened TableModel
  import opened ColumnPhases
  import opened SchemaDiff

  /** The loaded rows and the shown rows of a column list over the columns `cm`. */
  ghost predicate Rows(cols: seq<Col>, cm: map<string, ColSpec>) {
    DistinctOrigs(cols) && DistinctNames(cols) && LoadedFrom(cols, cm)
  }

  predicate NewName(cols: seq<Col>, n: string) {
    exists c | c in cols :: IsNew(c) && c.cur.name == n
  }

  lemma {:induction false} AddedKeys(cols: seq<Col>, cm: map<string, ColSpec>, n: string)
    requires DistinctNames(cols) && AddsFit(cols, cm.Keys)
    ensures n in AddedCols(cols, cm) <==> n in cm || NewName(cols, n)
  {
    if n in AddedCols(cols, cm) { ColumnPhases.AddedContent(cols, cm, n, AddedCols(cols, cm)[n]); }
    if n in cm { ColumnPhases.AddedContent(cols, cm, n, cm[n]); }
    if c :| c in cols && IsNew(c) && c.cur.name == n { ColumnPhases.AddedContent(cols, cm, n, SpecOf(c.cur)); }
  }

  lemma {:induction false} AddedKeepsLoaded(cols: seq<Col>, cm: map<string, ColSpec>)
    requires Rows(cols, cm) && AddsFit(cols, cm.Keys)
    ensures LoadedFrom(cols, AddedCols(cols, cm))
  {
    forall c | c in cols && c.orig.Some?
      ensures HasCol(AddedCols(cols, cm), c.orig.value.name, SpecOf(c.orig.value))
    {
      ColumnPhases.AddedContent(cols, cm, c.orig.value.name, SpecOf(c.orig.value));
    }
  }

  lemma {:induction false} RenamedNotNew(cols: seq<Col>, i: nat)
    requires DistinctNames(cols) && i < |cols| && Renamed(cols[i])
    ensures !NewName(cols, cols[i].cur.name)
  {
    assert cols[i] in cols;
    forall c | c in cols && IsNew(c) ensures c.cur.name != cols[i].cur.name {
      var j :| 0 <= j < |cols| && cols[j] == c;
      assert i < j || j < i;
    }
  }

  /** New columns never stand in the way of a rename. */
  lemma {:induction false} RenamesFitAdded(cols: seq<Col>, cm: map<string, ColSpec>)
    requires Rows(cols, cm) && AddsFit(cols, cm.Keys)
    ensures RenamesFit(cols, AddedCols(cols, cm).Keys) <==> RenamesFit(cols, cm.Keys)
  {
    forall i | 0 <= i < |cols| && Renamed(cols[i])
      ensures cols[i].cur.name in AddedCols(cols, cm) <==> cols[i].cur.name in cm
    {
      AddedKeys(cols, cm, cols[i].cur.name);
      RenamedNotNew(cols, i);
    }
  }

  function AfterColumns(cols: seq<Col>, db: Table): Table {
    AlteredTable(cols, db.(cols := AddedCols(cols, db.cols)))
  }

  predicate ColsFit(e: Engine, cols: seq<Col>, db: Table) {
    AddsFit(cols, db.cols.Keys) && RenamesFit(cols, db.cols.Keys) && TypesKept(e, cols) && ChecksFree(e, cols, db.objs)
  }

  lemma {:induction false} ColumnsRun(e: Engine, parse: string -> seq<string>, cols: seq<Col>, db: Table)
    requires e != SQLite && Rows(cols, db.cols)
    ensures Run(e, parse, db.name, AddColumns(cols) + AlterColumns(e, cols), db) ==
            if ColsFit(e, cols, db) then Some(AfterColumns(cols, db)) else None
  {
    RunConcat(e, parse, db.name, AddColumns(cols), AlterColumns(e, cols), db);
    AddRun(e, parse, db.name, cols, db);
    if AddsFit(cols, db.cols.Keys) {
      AddedKeepsLoaded(cols, db.cols);
      RenamesFitAdded(cols, db.cols);
      AlterRun(e, parse, db.name, cols, db.(cols := AddedCols(cols, db.cols)));
    }
  }

  lemma {:induction false} ShownSplit(cols: seq<Col>, n: string, s: ColSpec)
    requires DistinctNames(cols)
    ensures ShownCol(cols, n, s) <==> ShownExisting(cols, n, s) || ShownNew(cols, n, s)
  {
  }

  /** After adding and altering, the table has the shown columns and the removed ones. */
  lemma {:induction false} AfterColumnsContent(cols: seq<Col>, db: Table, n: string, s: ColSpec)
    requires Rows(cols, db.cols) && AddsFit(cols, db.cols.Keys) && RenamesFit(cols, db.cols.Keys)
    ensures HasCol(AfterColumns(cols, db).cols, n, s) <==>
            ShownCol(cols, n, s) || (HasCol(db.cols, n, s) && !OrigName(cols, n))
  {
    AddedKeepsLoaded(cols, db.cols);
    RenamesFitAdded(cols, db.cols);
    AlteredContent(cols, AddedCols(cols, db.cols), n, s);
    ColumnPhases.AddedContent(cols, db.cols, n, s);
    ShownSplit(cols, n, s);
  }

  lemma {:induction false} AfterColumnsKeys(cols: seq<Col>, db: Table, n: string)
    requires Rows(cols, db.cols) && AddsFit(cols, db.cols.Keys) && RenamesFit(cols, db.cols.Keys)
    ensures n in AfterColumns(cols, db).cols <==> ShownName(cols, n) || (n in db.cols && !OrigName(cols, n))
  {
    var cm := AfterColumns(cols, db).cols;
    if n in cm { AfterColumnsContent(cols, db, n, cm[n]); }
    if n in db.cols { AfterColumnsContent(cols, db, n, db.cols[n]); }
    if c :| c in cols && LiveName(c.cur.name) && c.cur.name == n { AfterColumnsContent(cols, db, n, SpecOf(c.cur)); }
  }

  /** A removed column's name is not shown by another row. */
  lemma {:induction false} RemovedNotShown(cols: seq<Col>, cm: map<string, ColSpec>, n: string)
    requires Rows(cols, cm) && AddsFit(cols, cm.Keys) && RenamesFit(cols, cm.Keys)
    requires n in cm && !OrigName(cols, n)
    ensures !ShownName(cols, n)
  {
    forall c | c in cols && LiveName(c.cur.name) ensures c.cur.name != n {
      var i :| 0 <= i < |cols| && cols[i] == c;
      if Renamed(c) && c.cur.name in cm {
        assert VacatedBefore(cols, i);
        var j :| 0 <= j < i && cols[j].orig.Some? && cols[j].orig.value.name == cols[i].cur.name;
        assert cols[j] in cols;
      }
    }
  }

  lemma {:induction false} RemovedContent(names: seq<string>, cols: seq<Col>)
    requires NoDup(names)
    ensures NoDup(RemovedCols(names, cols))
    ensures forall n :: n in RemovedCols(names, cols) <==> n in names && !LiveCol(cols, n)
  {
    if names != [] {
      RemovedContent(names[1..], cols);
      assert forall n :: n in names <==> n == names[0] || n in names[1..];
    }
  }

  /** The column phases end at the shown columns. */
  lemma {:induction false} FinalColumns(cols: seq<Col>, db: Table, gone: set<string>, n: string, s: ColSpec)
    requires Rows(cols, db.cols) && AddsFit(cols, db.cols.Keys) && RenamesFit(cols, db.cols.Keys)
    requires forall x :: x in gone <==> x in db.cols && !OrigName(cols, x)
    ensures HasCol(AfterColumns(cols, db).cols - gone, n, s) <==> ShownCol(cols, n, s)
  {
    AfterColumnsContent(cols, db, n, s);
    if n in gone { RemovedNotShown(cols, db.cols, n); }
  }

  /** A loaded name that is still shown either kept its row or was handed to another. */
  lemma {:induction false} MovedShown(cols: seq<Col>, db: Table, x: string)
    requires Rows(cols, db.cols) && AddsFit(cols, db.cols.Keys) && RenamesFit(cols, db.cols.Keys)
    requires x in db.cols && ShownName(cols, x)
    ensures OrigName(cols, x) && ShownName(cols, Moved(cols, x))
  {
    if !OrigName(cols, x) { RemovedNotShown(cols, db.cols, x); }
    var c :| c in cols && c.orig.Some? && c.orig.value.name == x;
    MovedContent(cols, db.cols, x);
  }
}
