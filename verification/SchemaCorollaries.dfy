/** Consequences of the main theorem: edits that are always compiled correctly,
    and the families of edits that never are. */
module SchemaCorollaries {
  import opened Text
  import opened Ddl
  import opened TableModel
  import opened ColumnPhases
  import opened SchemaDiff
  import opened SchemaKeys
  import opened SchemaTheorem
  import SchemaProof

  /** Added and renamed-to column names are new, existing types are not blanked, no UNIQUE is
      renamed alone, no blank row is rebuilt, no loaded key column is removed, untouched
      constraints and indexes mention shown columns, no column name holds a comma and, on MySQL, no
      loaded CHECK mentions a renamed column. */
  ghost predicate PlainEdit(e: Engine, parse: string -> seq<string>, m: Model, db: Table) {
    && (forall c | c in m.cols && (IsNew(c) || Renamed(c)) :: c.cur.name !in db.cols)
    && (forall c | c in m.cols && c.orig.Some? :: Trim(c.cur.typ) != "")
    && (forall u | u in m.uniques && KeptItem(u) :: u.cur.name == u.orig.value.name)
    && NoBlankRebuild(m) && KeptRefsShown(parse, m) && CommaFree(m) && ChecksFree(e, m.cols, db.objs)
    && (db.pk.Some? ==> forall n | n in db.pk.value.cols :: OrigName(m.cols, n))
  }

  /** With fresh names, a shown name that was loaded still belongs to its own row. */
  lemma {:induction false} ShownLoadedUnrenamed(m: Model, db: Table, c: Col)
    requires DistinctOrigs(m.cols) && LoadedFrom(m.cols, db.cols)
    requires forall x | x in m.cols && (IsNew(x) || Renamed(x)) :: x.cur.name !in db.cols
    requires c in m.cols && c.orig.Some? && ShownName(m.cols, c.orig.value.name)
    ensures !Renamed(c)
  {
    var x :| x in m.cols && LiveName(x.cur.name) && x.cur.name == c.orig.value.name;
    assert x.orig.Some? && !Renamed(x);
    var i :| 0 <= i < |m.cols| && m.cols[i] == x;
    var j :| 0 <= j < |m.cols| && m.cols[j] == c;
    assert !(i < j) && !(j < i);
  }

  lemma {:induction false} PlainPkKept(e: Engine, parse: string -> seq<string>, m: Model, db: Table)
    requires e != SQLite && LegalTable(e, db) && Tracks(parse, m, db) && WellFormedEdit(e, parse, m) && PlainEdit(e, parse, m, db)
    ensures PkKept(e, m, db)
  {
    if !PkColsChanged(m) {
      PlainColumnsSafe(e, parse, m, db);
      PkSets(e, parse, m, db);
      var s := Survivors(m.cols, db.pk);
      forall c | c in m.cols && c.orig.Some? && c.origPk ensures !Renamed(c) {
        assert c.orig.value.name in s;
        assert c.orig.value.name in PkNames(m.cols);
        PkNamesContent(m.cols, c.orig.value.name);
        ShownLoadedUnrenamed(m, db, c);
      }
      TicksKeptMeansUnrenamed(e, parse, m, db);
      RemovedIs(e, m, db);
      assert db.pk.Some? ==> s == db.pk.value.cols;
    }
  }

  lemma {:induction false} PlainReferencesKept(e: Engine, parse: string -> seq<string>, m: Model, db: Table)
    requires Tracks(parse, m, db) && WellFormedEdit(e, parse, m) && PlainEdit(e, parse, m, db)
    ensures ReferencesKept(parse, m)
  {
    forall k: Kind, x, c | x in ItemsOf(m, k) && KeptItem(x) && c in m.cols && Renamed(c)
      ensures c.orig.value.name !in DefOf(parse, x.cur).refs
    {
      if c.orig.value.name in DefOf(parse, x.cur).refs { ShownLoadedUnrenamed(m, db, c); }
    }
  }

  lemma {:induction false} PlainColumnsSafe(e: Engine, parse: string -> seq<string>, m: Model, db: Table)
    requires PlainEdit(e, parse, m, db)
    ensures ColumnsSafe(e, m, db)
  {
    assert forall i | 0 <= i < |m.cols| :: m.cols[i] in m.cols;
  }

  /** Every plain edit is compiled to a script that reaches the shown table. */
  lemma {:induction false} PlainEditsReachShownTable(e: Engine, parse: string -> seq<string>, m: Model, db: Table)
    requires e != SQLite && LegalTable(e, db) && Tracks(parse, m, db) && WellFormedEdit(e, parse, m) && PlainEdit(e, parse, m, db)
    ensures var r := Run(e, parse, m.origName, Modify(e, m), db); r.Some? && Shows(e, parse, m, r.value)
  {
    PlainReferencesKept(e, parse, m, db);
    PlainPkKept(e, parse, m, db);
    PlainColumnsSafe(e, parse, m, db);
    assert UniqueNamesKept(parse, m);
    ModifyReachesShownTable(e, parse, m, db);
  }

  /** Renaming a UNIQUE without touching its columns is lost, unless another untouched UNIQUE
      over the same columns was loaded under the new name. */
  lemma {:induction false} UniqueRenamedAloneIsLost(e: Engine, parse: string -> seq<string>, m: Model, db: Table, u: Item)
    requires e != SQLite && LegalTable(e, db) && Tracks(parse, m, db) && WellFormedEdit(e, parse, m)
    requires u in m.uniques && KeptItem(u)
    requires forall v | v in m.uniques && KeptItem(v) && v.orig.value.name == u.cur.name :: DefOf(parse, v.cur) != DefOf(parse, u.cur)
    ensures var r := Run(e, parse, m.origName, Modify(e, m), db); !(r.Some? && Shows(e, parse, m, r.value))
  {
    var n, d := u.cur.name, DefOf(parse, u.cur);
    assert ShownKept(parse, m.uniques, n, d) && !LoadedKept(parse, m.uniques, n, d);
    ModifyReachesShownTable(e, parse, m, db);
  }

  /** Reusing the name of a loaded column for a new one stops the script. */
  lemma {:induction false} ReusedColumnNameFails(e: Engine, parse: string -> seq<string>, m: Model, db: Table, c: Col)
    requires e != SQLite && LegalTable(e, db) && Tracks(parse, m, db) && WellFormedEdit(e, parse, m)
    requires c in m.cols && IsNew(c) && c.cur.name in db.cols
    ensures Run(e, parse, m.origName, Modify(e, m), db) == None
  {
    SchemaProof.UnfitStops(e, parse, m, db);
  }

  /** A column that an untouched constraint or index mentions cannot be renamed or removed: the
      engine renames, shrinks or drops the constraint, and the designer goes on showing it. */
  lemma {:induction false} MentionedColumnMustStay(e: Engine, parse: string -> seq<string>, m: Model, db: Table, k: Kind, x: Item, r: string)
    requires e != SQLite && LegalTable(e, db) && Tracks(parse, m, db) && WellFormedEdit(e, parse, m)
    requires x in ItemsOf(m, k) && KeptItem(x) && r in DefOf(parse, x.cur).refs
    requires !ShownName(m.cols, r) || exists c :: c in m.cols && Renamed(c) && c.orig.value.name == r
    ensures var out := Run(e, parse, m.origName, Modify(e, m), db); !(out.Some? && Shows(e, parse, m, out.value))
  {
    ModifyReachesShownTable(e, parse, m, db);
  }

  /** On MySQL a rename of a column that a loaded CHECK mentions stops the list at once, even if the
      same edit rewrites or removes that CHECK: renames run before drops. */
  lemma {:induction false} RenameUnderCheckStops(parse: string -> seq<string>, m: Model, db: Table, c: Col, k: Key)
    requires LegalTable(MySQL, db) && Tracks(parse, m, db) && WellFormedEdit(MySQL, parse, m)
    requires c in m.cols && Renamed(c) && k in db.objs && k.kind == ChkKind && c.orig.value.name in db.objs[k].refs
    ensures Run(MySQL, parse, m.origName, Modify(MySQL, m), db) == None
  {
    SchemaProof.UnfitStops(MySQL, parse, m, db);
  }

  /** On Postgres, removing one column of a loaded key while its other columns stay in the key
      loses the key. */
  lemma {:induction false} RemovedKeyColumnLosesKey(parse: string -> seq<string>, m: Model, db: Table, n: string)
    requires LegalTable(Postgres, db) && Tracks(parse, m, db) && WellFormedEdit(Postgres, parse, m)
    requires db.pk.Some? && n in db.pk.value.cols && !OrigName(m.cols, n)
    requires !PkColsChanged(m) && OrigPkNames(m.cols) != []
    ensures var r := Run(Postgres, parse, m.origName, Modify(Postgres, m), db); !(r.Some? && Shows(Postgres, parse, m, r.value))
  {
    assert !LiveCol(m.cols, n);
    ModifyReachesShownTable(Postgres, parse, m, db);
  }

  /** A change of ticks that the comparison does not see is lost. */
  lemma {:induction false} UnseenKeyChangeIsLost(e: Engine, parse: string -> seq<string>, m: Model, db: Table)
    requires e != SQLite && LegalTable(e, db) && Tracks(parse, m, db) && WellFormedEdit(e, parse, m)
    requires !PkColsChanged(m) && !TicksKept(m.cols)
    ensures var r := Run(e, parse, m.origName, Modify(e, m), db); !(r.Some? && Shows(e, parse, m, r.value))
  {
    ModifyReachesShownTable(e, parse, m, db);
  }
}
