/** The modify script reaches the shown table exactly when the edit is Safe. */
module SchemaProof {
  import opened Text
  import opened Ddl
  import opened TableModel
  import opened ColumnPhases
  import opened OP = ObjectPhases
  import opened SchemaDiff
  import opened SchemaColumns
  import opened SchemaObjects

  /** The hypotheses of the theorem, for edits whose untouched constraints mention shown columns. */
  ghost predicate Setting(e: Engine, parse: string -> seq<string>, m: Model, db: Table) {
    e != SQLite && LegalTable(e, db) && Tracks(parse, m, db) && WellFormedEdit(e, parse, m) && KeptRefsShown(parse, m)
  }

  ghost predicate Fits(e: Engine, m: Model, db: Table) {
    ColsFit(e, m.cols, db)
  }

  function Gone(m: Model): set<string> {
    set n | n in RemovedCols(m.snapshot.colNames, m.cols)
  }

  lemma {:induction false} GoneContent(parse: string -> seq<string>, m: Model, db: Table)
    requires Tracks(parse, m, db) && "" !in db.cols
    ensures forall n :: n in Gone(m) <==> n in db.cols && !OrigName(m.cols, n)
    ensures NoDup(RemovedCols(m.snapshot.colNames, m.cols))
  {
    RemovedContent(m.snapshot.colNames, m.cols);
    assert forall n | n in db.cols :: LiveCol(m.cols, n) <==> OrigName(m.cols, n);
  }

  // ---- phase 3: drops ----

  function AfterDrops(m: Model, db: Table): Table {
    var t := AfterColumns(m.cols, db);
    t.(pk := if PkColsChanged(m) then None else t.pk, objs := t.objs - set k | k in DropList(m))
  }

  lemma {:induction false} SpacedAfter(e: Engine, m: Model, db: Table)
    requires LegalTable(e, db)
    ensures Spaced(e, AfterColumns(m.cols, db))
  {
    var t := AfterColumns(m.cols, db);
    assert forall k :: Holds(t, k) <==> Holds(db, k);
  }

  lemma {:induction false} DropPkRun(e: Engine, parse: string -> seq<string>, m: Model, t: Table)
    requires e != SQLite && m.snapshot.pkName == (if t.pk.None? then "" else t.pk.value.name)
    requires t.pk.Some? ==> t.pk.value.name != ""
    ensures Run(e, parse, t.name, DropPk(e, m), t) == Some(t.(pk := if PkColsChanged(m) then None else t.pk))
  {
    if DropPk(e, m) != [] {
      RunOne(e, parse, t.name, DropStmt(e, Key(PkKind, m.snapshot.pkName)), t);
    }
  }

  lemma {:induction false} DropListRun(e: Engine, parse: string -> seq<string>, m: Model, db: Table, t: Table)
    requires Setting(e, parse, m, db) && t.objs.Keys == db.objs.Keys && Spaced(e, t)
    ensures Run(e, parse, t.name, DropKeys(e, DropList(m)), t) == Some(t.(objs := t.objs - set k | k in DropList(m)))
  {
    DropListContent(parse, m, db.objs);
    forall i | 0 <= i < |DropList(m)| ensures DropList(m)[i] in t.objs && DropList(m)[i].kind != PkKind {
      assert DropList(m)[i] in DropList(m);
    }
    DropKeysRun(e, parse, t.name, DropList(m), t);
  }

  function WithoutChangedPk(m: Model, t: Table): Table {
    t.(pk := if PkColsChanged(m) then None else t.pk)
  }

  lemma {:induction false} LoadedPkRun(e: Engine, parse: string -> seq<string>, m: Model, db: Table)
    requires Setting(e, parse, m, db)
    ensures var t := AfterColumns(m.cols, db); Run(e, parse, db.name, DropPk(e, m), t) == Some(WithoutChangedPk(m, t))
  {
    DropPkRun(e, parse, m, AfterColumns(m.cols, db));
  }

  lemma {:induction false} LoadedDropsRun(e: Engine, parse: string -> seq<string>, m: Model, db: Table)
    requires Setting(e, parse, m, db)
    ensures Run(e, parse, db.name, DropKeys(e, DropList(m)), WithoutChangedPk(m, AfterColumns(m.cols, db))) == Some(AfterDrops(m, db))
  {
    SpacedAfter(e, m, db);
    SpacedWithoutPk(e, AfterColumns(m.cols, db));
    DropListRun(e, parse, m, db, WithoutChangedPk(m, AfterColumns(m.cols, db)));
  }

  lemma {:induction false} DropsRun(e: Engine, parse: string -> seq<string>, m: Model, db: Table)
    requires Setting(e, parse, m, db)
    ensures Run(e, parse, db.name, Drops(e, m), AfterColumns(m.cols, db)) == Some(AfterDrops(m, db))
  {
    DropsAsKeys(e, m);
    RunConcat(e, parse, db.name, DropPk(e, m), DropKeys(e, DropList(m)), AfterColumns(m.cols, db));
    LoadedPkRun(e, parse, m, db);
    LoadedDropsRun(e, parse, m, db);
  }

  lemma {:induction false} SpacedWithoutPk(e: Engine, t: Table)
    requires Spaced(e, t)
    ensures Spaced(e, t.(pk := None))
  {
    assert forall k | Holds(t.(pk := None), k) :: Holds(t, k);
  }

  /** Some row left alone was loaded as `k` and its definition now reads `d`. */
  ghost predicate LeftAs(parse: string -> seq<string>, m: Model, k: Key, d: Def) {
    exists x | x in ItemsOf(m, k.kind) :: KeptItem(x) && x.orig.value.name == k.name && MovedDef(m.cols, DefOf(parse, x.cur)) == d
  }

  lemma {:induction false} KeptIsLoaded(parse: string -> seq<string>, m: Model, db: Table, k: Kind, x: Item)
    requires Tracks(parse, m, db) && x in ItemsOf(m, k) && KeptItem(x)
    ensures Key(k, x.orig.value.name) in db.objs && db.objs[Key(k, x.orig.value.name)] == DefOf(parse, x.cur)
    ensures k != PkKind
  {
    assert k != PkKind;
    assert TracksSection(parse, k, NamesOf(m.snapshot, k), ItemsOf(m, k), db.objs);
    var i :| 0 <= i < |ItemsOf(m, k)| && ItemsOf(m, k)[i] == x;
    KeptFacts(parse, x);
  }

  lemma {:induction false} AfterDropsObjs(e: Engine, parse: string -> seq<string>, m: Model, db: Table, k: Key, d: Def)
    requires Setting(e, parse, m, db)
    ensures HasObj(AfterDrops(m, db).objs, k, d) <==> LeftAs(parse, m, k, d)
  {
    DropListContent(parse, m, db.objs);
    assert k in AfterDrops(m, db).objs <==> k in db.objs && KeptName(ItemsOf(m, k.kind), k.name);
    forall x | x in ItemsOf(m, k.kind) && KeptItem(x) && x.orig.value.name == k.name
      ensures k in db.objs && db.objs[k] == DefOf(parse, x.cur)
    {
      KeptIsLoaded(parse, m, db, k.kind, x);
      assert k == Key(k.kind, k.name);
    }
  }

  // ---- phase 4: column drops ----

  function AfterColumnDrops(e: Engine, m: Model, db: Table): Table {
    var t := AfterDrops(m, db);
    t.(cols := t.cols - Gone(m), pk := ShrunkPk(e, Gone(m), t.pk))
  }

  /** What is left alone refers to shown columns, wherever they moved. */
  lemma {:induction false} LeftRefsShown(e: Engine, parse: string -> seq<string>, m: Model, db: Table, k: Kind, x: Item, r: string)
    requires Setting(e, parse, m, db) && Fits(e, m, db)
    requires x in ItemsOf(m, k) && KeptItem(x) && r in DefOf(parse, x.cur).refs
    ensures r in db.cols && OrigName(m.cols, r) && ShownName(m.cols, Moved(m.cols, r)) && Moved(m.cols, r) !in Gone(m)
  {
    KeptIsLoaded(parse, m, db, k, x);
    KeptFacts(parse, x);
    var key := Key(k, x.orig.value.name);
    assert RefsExist(db.objs[key], db.cols);
    MovedShown(m.cols, db, r);
    GoneContent(parse, m, db);
    var y := Moved(m.cols, r);
    if y in db.cols && !OrigName(m.cols, y) { RemovedNotShown(m.cols, db.cols, y); }
  }

  lemma {:induction false} LeftAsAvoidsGone(e: Engine, parse: string -> seq<string>, m: Model, db: Table, k: Key, d: Def, n: string)
    requires Setting(e, parse, m, db) && Fits(e, m, db) && LeftAs(parse, m, k, d) && n in d.refs
    ensures n !in Gone(m)
  {
    var x :| x in ItemsOf(m, k.kind) && KeptItem(x) && x.orig.value.name == k.name && MovedDef(m.cols, DefOf(parse, x.cur)) == d;
    var i :| 0 <= i < |d.refs| && d.refs[i] == n;
    LeftRefsShown(e, parse, m, db, k.kind, x, DefOf(parse, x.cur).refs[i]);
  }

  lemma {:induction false} LeftAvoidsGone(e: Engine, parse: string -> seq<string>, m: Model, db: Table, k: Key, n: string)
    requires Setting(e, parse, m, db) && Fits(e, m, db)
    requires k in AfterDrops(m, db).objs && n in AfterDrops(m, db).objs[k].refs
    ensures n !in Gone(m)
  {
    var d := AfterDrops(m, db).objs[k];
    AfterDropsObjs(e, parse, m, db, k, d);
    LeftAsAvoidsGone(e, parse, m, db, k, d, n);
  }

  lemma {:induction false} ColumnDropsRun(e: Engine, parse: string -> seq<string>, m: Model, db: Table)
    requires Setting(e, parse, m, db) && Fits(e, m, db)
    ensures Run(e, parse, db.name, DropColumns(RemovedCols(m.snapshot.colNames, m.cols)), AfterDrops(m, db))
            == Some(AfterColumnDrops(e, m, db))
  {
    var t := AfterDrops(m, db);
    var names := RemovedCols(m.snapshot.colNames, m.cols);
    GoneContent(parse, m, db);
    forall i | 0 <= i < |names| ensures names[i] in t.cols {
      assert names[i] in Gone(m);
      AfterColumnsKeys(m.cols, db, names[i]);
    }
    forall k | k in t.objs ensures forall n | n in names :: n !in t.objs[k].refs {
      forall n | n in names ensures n !in t.objs[k].refs {
        assert n in Gone(m);
        if n in t.objs[k].refs { LeftAvoidsGone(e, parse, m, db, k, n); }
      }
    }
    if t.pk.Some? { MovedPkNonempty(m.cols, db); }
    DropColumnsRun(e, parse, db.name, names, t);
  }

  lemma {:induction false} MovedPkNonempty(cols: seq<Col>, db: Table)
    requires db.pk.Some? && db.pk.value.cols != {}
    ensures MovedPk(cols, db.pk).value.cols != {}
  {
    var x :| x in db.pk.value.cols;
    assert Moved(cols, x) in MovedPk(cols, db.pk).value.cols;
  }

  // ---- phases 5 to 7 ----

  function AfterAdds(e: Engine, parse: string -> seq<string>, m: Model, db: Table): Table {
    var t := AfterColumnDrops(e, m, db);
    t.(pk := if PkColsChanged(m) then ShownPk(e, m) else t.pk, objs := AddedObjs(parse, AddList(m), t.objs))
  }

  function Finished(m: Model, t: Table): Table {
    t.(comment := Trim(m.comment), name := if LiveName(m.name) then m.name else m.origName)
  }

  lemma {:induction false} StepAddsKey(parse: string -> seq<string>, n: string, cols: seq<string>, t: Table)
    ensures Step(MySQL, parse, AddPrimaryKey(cols), t) == AddPk(MySQL, "PRIMARY", cols, t)
    ensures Step(Postgres, parse, AddNamedPrimaryKey(n, cols), t) == AddPk(Postgres, n, cols, t)
  {
  }

  lemma {:induction false} NewPkIs(e: Engine, m: Model)
    requires e != SQLite && NewPk(e, m) != []
    ensures NewPk(e, m) == [if e == MySQL then AddPrimaryKey(PkNames(m.cols)) else AddNamedPrimaryKey(ShownPkName(e, m), PkNames(m.cols))]
  {
  }

  lemma {:induction false} NewPkStep(e: Engine, parse: string -> seq<string>, m: Model, t: Table)
    requires e != SQLite && NewPk(e, m) != []
    ensures Run(e, parse, t.name, NewPk(e, m), t) == AddPk(e, ShownPkName(e, m), PkNames(m.cols), t)
  {
    var n, cols := ShownPkName(e, m), PkNames(m.cols);
    NewPkIs(e, m);
    StepAddsKey(parse, n, cols, t);
    RunOne(e, parse, t.name, if e == MySQL then AddPrimaryKey(cols) else AddNamedPrimaryKey(n, cols), t);
  }

  lemma {:induction false} NewPkRun(e: Engine, parse: string -> seq<string>, m: Model, t: Table)
    requires e != SQLite && (PkColsChanged(m) ==> t.pk.None?)
    ensures var r := Run(e, parse, t.name, NewPk(e, m), t);
            r.Some? ==> r.value == t.(pk := if PkColsChanged(m) then ShownPk(e, m) else t.pk)
  {
    if NewPk(e, m) != [] { NewPkStep(e, parse, m, t); }
  }

  lemma {:induction false} AddsRun(e: Engine, parse: string -> seq<string>, m: Model, db: Table)
    requires e != SQLite
    ensures var t := AfterColumnDrops(e, m, db);
            var r := Run(e, parse, db.name, Adds(e, m), t);
            r.Some? ==> r.value == AfterAdds(e, parse, m, db) && forall o | o in AddList(m) :: KeyOf(o) !in t.objs
  {
    var t := AfterColumnDrops(e, m, db);
    var t' := t.(pk := if PkColsChanged(m) then ShownPk(e, m) else t.pk);
    AddsAsObjs(e, m);
    RunConcat(e, parse, db.name, NewPk(e, m), AddObjs(AddList(m)), t);
    NewPkRun(e, parse, m, t);
    AddObjsRun(e, parse, db.name, AddList(m), t');
  }

  lemma {:induction false} TailRun(e: Engine, parse: string -> seq<string>, m: Model, t: Table)
    requires e != SQLite && t.name == m.origName && t.comment == Trim(m.snapshot.comment)
    ensures Run(e, parse, t.name, CommentStmts(e, m) + RenameStmts(m), t) == Some(Finished(m, t))
  {
    var t' := t.(comment := Trim(m.comment));
    RunConcat(e, parse, t.name, CommentStmts(e, m), RenameStmts(m), t);
    if CommentStmts(e, m) != [] { RunOne(e, parse, t.name, SetComment(Trim(m.comment)), t); }
    assert Run(e, parse, t.name, CommentStmts(e, m), t) == Some(t');
    if RenameStmts(m) != [] { RunOne(e, parse, t.name, RenameTable(m.name), t'); }
  }

  lemma {:induction false} AssocTail(a: seq<Stmt>, c: seq<Stmt>, r: seq<Stmt>)
    ensures a + c + r == a + (c + r)
  {
  }

  /** Columns that do not fit stop the script, whatever else was edited. */
  lemma {:induction false} UnfitStops(e: Engine, parse: string -> seq<string>, m: Model, db: Table)
    requires e != SQLite && LegalTable(e, db) && Tracks(parse, m, db) && DistinctNames(m.cols) && !Fits(e, m, db)
    ensures Run(e, parse, db.name, Modify(e, m), db) == None
  {
    var a := AddColumns(m.cols) + AlterColumns(e, m.cols);
    var b := a + Drops(e, m);
    var c := b + DropColumns(RemovedCols(m.snapshot.colNames, m.cols));
    var d := c + Adds(e, m);
    ColumnsRun(e, parse, m.cols, db);
    RunConcat(e, parse, db.name, a, Drops(e, m), db);
    RunConcat(e, parse, db.name, b, DropColumns(RemovedCols(m.snapshot.colNames, m.cols)), db);
    RunConcat(e, parse, db.name, c, Adds(e, m), db);
    RunConcat(e, parse, db.name, d, CommentStmts(e, m), db);
    RunConcat(e, parse, db.name, d + CommentStmts(e, m), RenameStmts(m), db);
  }

  /** The first four phases stop exactly when the columns do not fit. */
  lemma {:induction false} FrontRun(e: Engine, parse: string -> seq<string>, m: Model, db: Table)
    requires Setting(e, parse, m, db)
    ensures Run(e, parse, db.name,
                AddColumns(m.cols) + AlterColumns(e, m.cols) + Drops(e, m) + DropColumns(RemovedCols(m.snapshot.colNames, m.cols)), db)
            == if Fits(e, m, db) then Some(AfterColumnDrops(e, m, db)) else None
  {
    var a := AddColumns(m.cols) + AlterColumns(e, m.cols);
    RunConcat(e, parse, db.name, a + Drops(e, m), DropColumns(RemovedCols(m.snapshot.colNames, m.cols)), db);
    RunConcat(e, parse, db.name, a, Drops(e, m), db);
    ColumnsRun(e, parse, m.cols, db);
    if Fits(e, m, db) {
      DropsRun(e, parse, m, db);
      ColumnDropsRun(e, parse, m, db);
    }
  }

  /** The whole script, in terms of its add phase. */
  lemma {:induction false} ModifyRun(e: Engine, parse: string -> seq<string>, m: Model, db: Table)
    requires Setting(e, parse, m, db)
    ensures Run(e, parse, db.name, Modify(e, m), db) ==
            if Fits(e, m, db) && Run(e, parse, db.name, Adds(e, m), AfterColumnDrops(e, m, db)).Some?
            then Some(Finished(m, AfterAdds(e, parse, m, db))) else None
  {
    var front := AddColumns(m.cols) + AlterColumns(e, m.cols) + Drops(e, m) + DropColumns(RemovedCols(m.snapshot.colNames, m.cols));
    AssocTail(front + Adds(e, m), CommentStmts(e, m), RenameStmts(m));
    RunConcat(e, parse, db.name, front + Adds(e, m), CommentStmts(e, m) + RenameStmts(m), db);
    RunConcat(e, parse, db.name, front, Adds(e, m), db);
    FrontRun(e, parse, m, db);
    AddsRun(e, parse, m, db);
    TailRun(e, parse, m, AfterAdds(e, parse, m, db));
  }
}
