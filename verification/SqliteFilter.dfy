/** What the designer leaves out for SQLite, and whether it warns about it. */
module SqliteFilter {
  import opened Text
  import opened Ddl
  import opened TableModel

  /** The statements SQLite can run. */
  predicate Supported(s: Stmt) {
    s.AddColumn? || s.RenameColumn? || s.DropColumn? || s.DropIndex? || s.CreateIndex? || s.RenameTable?
  }

  function Filter(script: seq<Stmt>): seq<Stmt> {
    if script == [] then [] else (if Supported(script[0]) then [script[0]] else []) + Filter(script[1..])
  }

  lemma {:induction false} FilterConcat(a: seq<Stmt>, b: seq<Stmt>)
    ensures Filter(a + b) == Filter(a) + Filter(b)
  {
    if a == [] {
      assert a + b == b;
    } else {
      assert (a + b)[1..] == a[1..] + b;
      FilterConcat(a[1..], b);
    }
  }

  lemma {:induction false} FilterSame(script: seq<Stmt>)
    ensures Filter(script) == script <==> forall s | s in script :: Supported(s)
    ensures |Filter(script)| <= |script|
  {
    if script != [] {
      FilterSame(script[1..]);
      assert forall s | s in script :: s == script[0] || s in script[1..];
      assert script[0] in script && forall s | s in script[1..] :: s in script;
      if Supported(script[0]) {
        assert Filter(script)[1..] == Filter(script[1..]);
      }
    }
  }

  lemma {:induction false} FilterNone(script: seq<Stmt>)
    requires forall s | s in script :: !Supported(s)
    ensures Filter(script) == []
  {
    if script != [] {
      assert script[0] in script;
      FilterNone(script[1..]);
    }
  }

  // ---- each phase, filtered ----

  lemma {:induction false} AddColumnsSupported(cols: seq<Col>)
    ensures forall s | s in AddColumns(cols) :: s.AddColumn?
  {
    if cols != [] { AddColumnsSupported(cols[1..]); }
  }

  lemma {:induction false} FilterThree(a: seq<Stmt>, b: seq<Stmt>, c: seq<Stmt>)
    requires Filter(a) == [] && Filter(b) == [] && Filter(c) == []
    ensures Filter(a + b + c) == []
  {
    FilterConcat(a + b, c);
    FilterConcat(a, b);
  }

  lemma {:induction false} RedefineUnsupported(c: ColText, o: ColText)
    ensures Filter(RedefineStmts(Postgres, c, o)) == []
  {
    var s1, s2, s3 := TypeStmts(c.name, c, o), NotNullStmts(c.name, c, o), DefaultStmts(c.name, c, o);
    FilterNone(s1);
    FilterNone(s2);
    FilterNone(s3);
    FilterThree(s1, s2, s3);
  }

  lemma {:induction false} FilterAlterOne(c: Col)
    requires c.orig.Some?
    ensures Filter(AlterOne(Postgres, c)) == AlterOne(SQLite, c)
  {
    var rename := if c.cur.name != c.orig.value.name then [RenameColumn(c.orig.value.name, c.cur.name)] else [];
    FilterConcat(rename, RedefineStmts(Postgres, c.cur, c.orig.value));
    RedefineUnsupported(c.cur, c.orig.value);
    FilterSame(rename);
  }

  lemma {:induction false} FilterAlterColumns(cols: seq<Col>)
    ensures Filter(AlterColumns(Postgres, cols)) == AlterColumns(SQLite, cols)
  {
    if cols != [] {
      FilterAlterColumns(cols[1..]);
      if cols[0].orig.Some? {
        FilterAlterOne(cols[0]);
        FilterConcat(AlterOne(Postgres, cols[0]), AlterColumns(Postgres, cols[1..]));
      } else {
        assert AlterColumns(Postgres, cols) == AlterColumns(Postgres, cols[1..]);
      }
    }
  }

  lemma {:induction false} DropAllKind(e: Engine, kind: Kind, names: seq<string>)
    ensures forall s | s in DropAll(Postgres, kind, names) :: if kind == IdxKind then s.DropIndex? else s.DropConstraint?
    ensures kind == IdxKind ==> DropAll(Postgres, kind, names) == DropAll(SQLite, kind, names)
  {
    if names != [] { DropAllKind(e, kind, names[1..]); }
  }

  lemma {:induction false} FilterDropSection(kind: Kind, names: seq<string>, items: seq<Item>)
    requires kind != PkKind
    ensures Filter(DropSection(Postgres, kind, names, items)) == DropSection(SQLite, kind, names, items)
  {
    var a, b := DropAll(Postgres, kind, RemovedNames(names, items)), DropAll(Postgres, kind, ChangedNames(items));
    DropAllKind(SQLite, kind, RemovedNames(names, items));
    DropAllKind(SQLite, kind, ChangedNames(items));
    if kind == IdxKind {
      FilterSame(a + b);
    } else {
      FilterNone(a + b);
    }
  }

  lemma {:induction false} FilterAddSection(items: seq<Item>)
    ensures Filter(AddSection(Postgres, items)) == AddSection(SQLite, items)
  {
    if items != [] {
      FilterAddSection(items[1..]);
      var first := if ToAdd(items[0]) then [AddStmt(items[0].cur)] else [];
      assert AddSection(Postgres, items) == first + AddSection(Postgres, items[1..]);
      FilterConcat(first, AddSection(Postgres, items[1..]));
      if items[0].cur.Idx? { FilterSame(first); } else { FilterNone(first); }
    }
  }

  lemma {:induction false} DropColumnsSupported(names: seq<string>)
    ensures forall s | s in DropColumns(names) :: s.DropColumn?
  {
    if names != [] { DropColumnsSupported(names[1..]); }
  }

  lemma {:induction false} FilterFive(p: seq<Stmt>, a: seq<Stmt>, b: seq<Stmt>, c: seq<Stmt>, d: seq<Stmt>)
    ensures Filter(p + a + b + c + d) == Filter(p) + Filter(a) + Filter(b) + Filter(c) + Filter(d)
  {
    FilterConcat(p + a + b + c, d);
    FilterConcat(p + a + b, c);
    FilterConcat(p + a, b);
    FilterConcat(p, a);
  }

  lemma {:induction false} FilterDrops(m: Model)
    ensures Filter(Drops(Postgres, m)) == Drops(SQLite, m)
  {
    var s := m.snapshot;
    FilterDropSection(UniqKind, s.uniqueNames, m.uniques);
    FilterDropSection(FkKind, s.fkNames, m.fks);
    FilterDropSection(ChkKind, s.checkNames, m.checks);
    FilterDropSection(IdxKind, s.indexNames, m.indexes);
    var p := DropPk(Postgres, m);
    FilterNone(p);
    var u, f := DropSection(Postgres, UniqKind, s.uniqueNames, m.uniques), DropSection(Postgres, FkKind, s.fkNames, m.fks);
    var c, i := DropSection(Postgres, ChkKind, s.checkNames, m.checks), DropSection(Postgres, IdxKind, s.indexNames, m.indexes);
    FilterFive(p, u, f, c, i);
    assert Drops(Postgres, m) == p + u + f + c + i;
    assert Drops(SQLite, m) == [] + Filter(u) + Filter(f) + Filter(c) + Filter(i);
  }

  lemma {:induction false} FilterAdds(m: Model)
    ensures Filter(Adds(Postgres, m)) == Adds(SQLite, m)
  {
    FilterAddSection(m.uniques);
    FilterAddSection(m.fks);
    FilterAddSection(m.checks);
    FilterAddSection(m.indexes);
    FilterNone(NewPk(Postgres, m));
    FilterFive(NewPk(Postgres, m), AddSection(Postgres, m.uniques), AddSection(Postgres, m.fks),
               AddSection(Postgres, m.checks), AddSection(Postgres, m.indexes));
  }

  lemma {:induction false} FilterColumnsAndTail(m: Model)
    ensures Filter(AddColumns(m.cols)) == AddColumns(m.cols)
    ensures var d := DropColumns(RemovedCols(m.snapshot.colNames, m.cols)); Filter(d) == d
    ensures Filter(CommentStmts(Postgres, m)) == CommentStmts(SQLite, m) == []
    ensures Filter(RenameStmts(m)) == RenameStmts(m)
  {
    AddColumnsSupported(m.cols);
    FilterSame(AddColumns(m.cols));
    DropColumnsSupported(RemovedCols(m.snapshot.colNames, m.cols));
    FilterSame(DropColumns(RemovedCols(m.snapshot.colNames, m.cols)));
    FilterNone(CommentStmts(Postgres, m));
    FilterSame(RenameStmts(m));
  }

  /** For every model the SQLite script is the Postgres script without the statements SQLite
      cannot run, in the same order. */
  lemma {:induction false} SqliteIsFilteredPostgres(m: Model)
    ensures Modify(SQLite, m) == Filter(Modify(Postgres, m))
  {
    var a, b, c := AddColumns(m.cols), AlterColumns(Postgres, m.cols), Drops(Postgres, m);
    var d, e := DropColumns(RemovedCols(m.snapshot.colNames, m.cols)), Adds(Postgres, m);
    var f, g := CommentStmts(Postgres, m), RenameStmts(m);
    FilterConcat(a + b + c + d + e + f, g);
    FilterConcat(a + b + c + d + e, f);
    FilterFive(a, b, c, d, e);
    FilterColumnsAndTail(m);
    FilterAlterColumns(m.cols);
    FilterDrops(m);
    FilterAdds(m);
  }

  // ---- the warning list ----

  datatype Warning =
    | ChangeType(name: string) | ChangeNotNull(name: string, on: bool) | ChangeDefault(name: string)
    | ChangePk | ChangeUnique | ChangeForeignKey | ChangeCheck | ChangeComment

  function ColumnWarnings(c: Col): seq<Warning>
    requires c.orig.Some?
  {
    var o := c.orig.value;
    (if Trim(c.cur.typ) != Trim(o.typ) then [ChangeType(o.name)] else [])
    + (if c.cur.notNull != o.notNull then [ChangeNotNull(o.name, c.cur.notNull)] else [])
    + (if Trim(c.cur.def) != Trim(o.def) then [ChangeDefault(o.name)] else [])
  }

  function ColumnsWarnings(cols: seq<Col>): seq<Warning> {
    if cols == [] then []
    else (if cols[0].orig.Some? then ColumnWarnings(cols[0]) else []) + ColumnsWarnings(cols[1..])
  }

  /** Some loaded name is carried by no row (here even an empty name counts as carried). */
  predicate SomeRemoved(names: seq<string>, items: seq<Item>) {
    exists n | n in names :: !exists x | x in items :: x.orig.Some? && x.orig.value.name == n
  }

  /** A UNIQUE row counts when it is new, even blank; the others only when they would be added. */
  predicate UniqueWarned(m: Model) {
    SomeRemoved(m.snapshot.uniqueNames, m.uniques) || exists u: Item | u in m.uniques :: u.orig.None? || Changed(u)
  }

  predicate SectionWarned(names: seq<string>, items: seq<Item>) {
    SomeRemoved(names, items) || exists x | x in items :: ToAdd(x)
  }

  function When(b: bool, w: Warning): seq<Warning> { if b then [w] else [] }

  function TableWarnings(m: Model): seq<Warning> {
    When(PkColsChanged(m), ChangePk)
    + When(UniqueWarned(m), ChangeUnique)
    + When(SectionWarned(m.snapshot.fkNames, m.fks), ChangeForeignKey)
    + When(SectionWarned(m.snapshot.checkNames, m.checks), ChangeCheck)
    + When(Trim(m.comment) != Trim(m.snapshot.comment), ChangeComment)
  }

  function Unsupported(m: Model): seq<Warning> {
    ColumnsWarnings(m.cols) + TableWarnings(m)
  }

  method PushColumnWarnings(c: Col) returns (out: seq<Warning>)
    requires c.orig.Some?
    ensures out == ColumnWarnings(c)
  {
    var o := c.orig.value;
    out := [];
    if Trim(c.cur.typ) != Trim(o.typ) { out := out + [ChangeType(o.name)]; }
    if c.cur.notNull != o.notNull { out := out + [ChangeNotNull(o.name, c.cur.notNull)]; }
    if Trim(c.cur.def) != Trim(o.def) { out := out + [ChangeDefault(o.name)]; }
  }

  lemma {:induction false} AssocWarnings(a: seq<Warning>, b: seq<Warning>, c: seq<Warning>)
    ensures a + b + c == a + (b + c)
  {
  }

  method Push(b: bool, w: Warning, out: seq<Warning>) returns (more: seq<Warning>)
    ensures more == out + When(b, w)
  {
    more := out;
    if b { more := more + [w]; }
  }

  method PushTableWarnings(m: Model) returns (out: seq<Warning>)
    ensures out == TableWarnings(m)
  {
    out := [];
    out := Push(PkColsChanged(m), ChangePk, out);
    out := Push(UniqueWarned(m), ChangeUnique, out);
    out := Push(SectionWarned(m.snapshot.fkNames, m.fks), ChangeForeignKey, out);
    out := Push(SectionWarned(m.snapshot.checkNames, m.checks), ChangeCheck, out);
    out := Push(Trim(m.comment) != Trim(m.snapshot.comment), ChangeComment, out);
  }

  lemma {:induction false} WarningsOnward(cols: seq<Col>, i: nat)
    requires i < |cols|
    ensures ColumnsWarnings(cols[i..]) == (if cols[i].orig.Some? then ColumnWarnings(cols[i]) else []) + ColumnsWarnings(cols[i + 1..])
  {
    assert cols[i..][1..] == cols[i + 1..];
  }

  method PushColumnsWarnings(cols: seq<Col>) returns (out: seq<Warning>)
    ensures out == ColumnsWarnings(cols)
  {
    out := [];
    for i := 0 to |cols|
      invariant ColumnsWarnings(cols) == out + ColumnsWarnings(cols[i..])
    {
      WarningsOnward(cols, i);
      if cols[i].orig.Some? {
        var own := PushColumnWarnings(cols[i]);
        AssocWarnings(out, own, ColumnsWarnings(cols[i + 1..]));
        out := out + own;
      }
    }
  }

  /** The warning banner's list, pushed column by column and then for the table. */
  method SqliteUnsupported(m: Model) returns (out: seq<Warning>)
    ensures out == Unsupported(m)
  {
    out := PushColumnsWarnings(m.cols);
    var rest := PushTableWarnings(m);
    out := out + rest;
  }

  // ---- when nothing is left out ----

  predicate FacetsSame(c: Col) {
    c.orig.Some? ==>
      Trim(c.cur.typ) == Trim(c.orig.value.typ) && c.cur.notNull == c.orig.value.notNull && Trim(c.cur.def) == Trim(c.orig.value.def)
  }

  lemma {:induction false} ColumnsWarningsEmpty(cols: seq<Col>)
    ensures ColumnsWarnings(cols) == [] <==> forall c | c in cols :: FacetsSame(c)
  {
    if cols != [] {
      ColumnsWarningsEmpty(cols[1..]);
      assert forall c | c in cols :: c == cols[0] || c in cols[1..];
      assert cols[0] in cols && forall c | c in cols[1..] :: c in cols;
    }
  }

  lemma {:induction false} RedefineMembers(c: ColText, o: ColText)
    ensures (Trim(c.typ) == Trim(o.typ) && c.notNull == o.notNull && Trim(c.def) == Trim(o.def)) <==> RedefineStmts(Postgres, c, o) == []
  {
  }

  lemma {:induction false} AlterMembers(cols: seq<Col>)
    ensures (forall s | s in AlterColumns(Postgres, cols) :: Supported(s)) <==> forall c | c in cols :: FacetsSame(c)
  {
    if cols != [] {
      AlterMembers(cols[1..]);
      assert forall c | c in cols :: c == cols[0] || c in cols[1..];
      assert cols[0] in cols && forall c | c in cols[1..] :: c in cols;
      if cols[0].orig.Some? {
        var redefine := RedefineStmts(Postgres, cols[0].cur, cols[0].orig.value);
        RedefineMembers(cols[0].cur, cols[0].orig.value);
        RedefineUnsupported(cols[0].cur, cols[0].orig.value);
        FilterSame(redefine);
        assert redefine != [] ==> exists s | s in redefine :: !Supported(s);
        assert forall s | s in redefine :: s in AlterColumns(Postgres, cols);
      }
    }
  }

  /** No statement about constraints of this section. */
  predicate SectionQuiet(names: seq<string>, items: seq<Item>) {
    && (forall n | n in names :: LiveOrig(items, n))
    && (forall x | x in items :: !Changed(x) && !ToAdd(x))
  }

  lemma {:induction false} NoRemoved(names: seq<string>, items: seq<Item>)
    ensures RemovedNames(names, items) == [] <==> forall n | n in names :: LiveOrig(items, n)
  {
    if names != [] {
      NoRemoved(names[1..], items);
      assert forall n | n in names :: n == names[0] || n in names[1..];
      assert names[0] in names && forall n | n in names[1..] :: n in names;
    }
  }

  lemma {:induction false} NoChangedOrAdded(items: seq<Item>)
    ensures ChangedNames(items) == [] <==> forall x | x in items :: !Changed(x)
    ensures AddSection(Postgres, items) == [] <==> forall x | x in items :: !ToAdd(x)
  {
    if items != [] {
      NoChangedOrAdded(items[1..]);
      assert forall x | x in items :: x == items[0] || x in items[1..];
      assert items[0] in items && forall x | x in items[1..] :: x in items;
    }
  }

  lemma {:induction false} QuietSection(kind: Kind, names: seq<string>, items: seq<Item>)
    requires kind != PkKind && kind != IdxKind
    ensures DropSection(Postgres, kind, names, items) == [] && AddSection(Postgres, items) == [] <==> SectionQuiet(names, items)
  {
    NoRemoved(names, items);
    NoChangedOrAdded(items);
    assert forall ns :: DropAll(Postgres, kind, ns) == [] <==> ns == [];
  }

  /** A row whose definition was blanked, or a loaded constraint without a name, is dropped on
      Postgres, left alone on SQLite, and not warned about. */
  predicate SilentlySkipped(names: seq<string>, items: seq<Item>) {
    "" in names || exists x | x in items :: Changed(x) && Blank(x.cur)
  }

  lemma {:induction false} QuietWhenNotWarned(names: seq<string>, items: seq<Item>)
    requires !SectionWarned(names, items)
    ensures SectionQuiet(names, items) <==> !SilentlySkipped(names, items)
  {
  }

  lemma {:induction false} QuietUnique(m: Model)
    requires !UniqueWarned(m)
    ensures SectionQuiet(m.snapshot.uniqueNames, m.uniques) <==> "" !in m.snapshot.uniqueNames
  {
  }

  predicate AllSupported(script: seq<Stmt>) {
    forall s | s in script :: Supported(s)
  }

  lemma {:induction false} AllSupportedConcat(a: seq<Stmt>, b: seq<Stmt>)
    ensures AllSupported(a + b) <==> AllSupported(a) && AllSupported(b)
  {
    assert (forall s | s in a :: s in a + b) && forall s | s in b :: s in a + b;
  }

  lemma {:induction false} AllSupportedFive(p: seq<Stmt>, a: seq<Stmt>, b: seq<Stmt>, c: seq<Stmt>, d: seq<Stmt>)
    ensures AllSupported(p + a + b + c + d) <==>
            AllSupported(p) && AllSupported(a) && AllSupported(b) && AllSupported(c) && AllSupported(d)
  {
    AllSupportedConcat(p + a + b + c, d);
    AllSupportedConcat(p + a + b, c);
    AllSupportedConcat(p + a, b);
    AllSupportedConcat(p, a);
  }

  /** Nothing but column adds, renames and drops, and index changes. */
  predicate OnlySupportedEdits(m: Model) {
    && (forall c | c in m.cols :: FacetsSame(c))
    && DropPk(Postgres, m) == [] && NewPk(Postgres, m) == []
    && SectionQuiet(m.snapshot.uniqueNames, m.uniques)
    && SectionQuiet(m.snapshot.fkNames, m.fks)
    && SectionQuiet(m.snapshot.checkNames, m.checks)
    && Trim(m.comment) == Trim(m.snapshot.comment)
  }

  lemma {:induction false} ConstraintSectionSupported(kind: Kind, names: seq<string>, items: seq<Item>)
    requires kind != PkKind && kind != IdxKind && forall i | 0 <= i < |items| :: KindOf(items[i].cur) == kind
    ensures AllSupported(DropSection(Postgres, kind, names, items)) && AllSupported(AddSection(Postgres, items))
            <==> SectionQuiet(names, items)
  {
    DropAllKind(SQLite, kind, RemovedNames(names, items));
    DropAllKind(SQLite, kind, ChangedNames(items));
    var drops := DropSection(Postgres, kind, names, items);
    if drops != [] { assert drops[0] in drops; }
    AddsUnsupported(items);
    var adds := AddSection(Postgres, items);
    if adds != [] { assert adds[0] in adds; }
    QuietSection(kind, names, items);
  }

  lemma {:induction false} AddsUnsupported(items: seq<Item>)
    requires forall i | 0 <= i < |items| :: !items[i].cur.Idx?
    ensures forall s | s in AddSection(Postgres, items) :: !Supported(s)
  {
    if items != [] { AddsUnsupported(items[1..]); }
  }

  lemma {:induction false} IndexAddsSupported(items: seq<Item>)
    requires forall i | 0 <= i < |items| :: items[i].cur.Idx?
    ensures AllSupported(AddSection(Postgres, items))
  {
    if items != [] { IndexAddsSupported(items[1..]); }
  }

  lemma {:induction false} DropsAndAddsSupported(m: Model)
    ensures AllSupported(Drops(Postgres, m)) && AllSupported(Adds(Postgres, m)) <==>
            DropPk(Postgres, m) == [] && NewPk(Postgres, m) == []
            && SectionQuiet(m.snapshot.uniqueNames, m.uniques)
            && SectionQuiet(m.snapshot.fkNames, m.fks)
            && SectionQuiet(m.snapshot.checkNames, m.checks)
  {
    var s := m.snapshot;
    ConstraintSectionSupported(UniqKind, s.uniqueNames, m.uniques);
    ConstraintSectionSupported(FkKind, s.fkNames, m.fks);
    ConstraintSectionSupported(ChkKind, s.checkNames, m.checks);
    IndexAddsSupported(m.indexes);
    DropAllKind(SQLite, IdxKind, RemovedNames(s.indexNames, m.indexes));
    DropAllKind(SQLite, IdxKind, ChangedNames(m.indexes));
    AllSupportedFive(DropPk(Postgres, m), DropSection(Postgres, UniqKind, s.uniqueNames, m.uniques),
               DropSection(Postgres, FkKind, s.fkNames, m.fks), DropSection(Postgres, ChkKind, s.checkNames, m.checks),
               DropSection(Postgres, IdxKind, s.indexNames, m.indexes));
    AllSupportedFive(NewPk(Postgres, m), AddSection(Postgres, m.uniques), AddSection(Postgres, m.fks),
               AddSection(Postgres, m.checks), AddSection(Postgres, m.indexes));
    PkStmtsUnsupported(m);
  }

  lemma {:induction false} PkStmtsUnsupported(m: Model)
    ensures AllSupported(DropPk(Postgres, m)) <==> DropPk(Postgres, m) == []
    ensures AllSupported(NewPk(Postgres, m)) <==> NewPk(Postgres, m) == []
  {
    var a, b := DropPk(Postgres, m), NewPk(Postgres, m);
    if a != [] { assert a[0] in a; }
    if b != [] { assert b[0] in b; }
  }

  /** SQLite gets the whole script exactly for these edits. */
  lemma {:induction false} SqliteGetsEverything(m: Model)
    ensures Modify(SQLite, m) == Modify(Postgres, m) <==> OnlySupportedEdits(m)
  {
    SqliteIsFilteredPostgres(m);
    FilterSame(Modify(Postgres, m));
    var a, b, c := AddColumns(m.cols), AlterColumns(Postgres, m.cols), Drops(Postgres, m);
    var d, e := DropColumns(RemovedCols(m.snapshot.colNames, m.cols)), Adds(Postgres, m);
    var f, g := CommentStmts(Postgres, m), RenameStmts(m);
    AllSupportedConcat(a + b + c + d + e + f, g);
    AllSupportedConcat(a + b + c + d + e, f);
    AllSupportedFive(a, b, c, d, e);
    AddColumnsSupported(m.cols);
    AlterMembers(m.cols);
    DropsAndAddsSupported(m);
    DropColumnsSupported(RemovedCols(m.snapshot.colNames, m.cols));
    if f != [] { assert f[0] in f; }
  }

  lemma {:induction false} TableWarningsEmpty(m: Model)
    ensures TableWarnings(m) == [] <==>
            !PkColsChanged(m) && !UniqueWarned(m) && !SectionWarned(m.snapshot.fkNames, m.fks)
            && !SectionWarned(m.snapshot.checkNames, m.checks) && Trim(m.comment) == Trim(m.snapshot.comment)
  {
  }

  /** When the banner is empty, the SQLite script is complete if and only if no foreign key or
      check row was blanked out and no loaded constraint is nameless. */
  lemma {:induction false} SilenceMeansComplete(m: Model)
    requires Unsupported(m) == []
    ensures Modify(SQLite, m) == Modify(Postgres, m) <==>
            "" !in m.snapshot.uniqueNames
            && !SilentlySkipped(m.snapshot.fkNames, m.fks) && !SilentlySkipped(m.snapshot.checkNames, m.checks)
  {
    SqliteGetsEverything(m);
    ColumnsWarningsEmpty(m.cols);
    TableWarningsEmpty(m);
    QuietUnique(m);
    QuietWhenNotWarned(m.snapshot.fkNames, m.fks);
    QuietWhenNotWarned(m.snapshot.checkNames, m.checks);
  }

  lemma {:induction false} CompleteUniques(m: Model)
    requires SectionQuiet(m.snapshot.uniqueNames, m.uniques)
    ensures UniqueWarned(m) <==> exists u: Item | u in m.uniques :: u.orig.None?
  {
  }

  lemma {:induction false} QuietNotWarned(names: seq<string>, items: seq<Item>)
    requires SectionQuiet(names, items)
    ensures !SectionWarned(names, items)
  {
  }

  lemma {:induction false} WarningsLeft(m: Model)
    requires Trim(m.comment) == Trim(m.snapshot.comment)
    requires !SectionWarned(m.snapshot.fkNames, m.fks) && !SectionWarned(m.snapshot.checkNames, m.checks)
    ensures TableWarnings(m) == (if PkColsChanged(m) then [ChangePk] else []) + (if UniqueWarned(m) then [ChangeUnique] else [])
  {
  }

  /** When the script is complete, the banner can only be wrong about a primary key that is
      neither dropped nor added, or about a UNIQUE row that is still blank. */
  lemma {:induction false} CompleteMeansSilent(m: Model)
    requires Modify(SQLite, m) == Modify(Postgres, m)
    ensures Unsupported(m) ==
            (if PkColsChanged(m) then [ChangePk] else [])
            + (if exists u: Item | u in m.uniques :: u.orig.None? then [ChangeUnique] else [])
  {
    SqliteGetsEverything(m);
    ColumnsWarningsEmpty(m.cols);
    CompleteUniques(m);
    QuietNotWarned(m.snapshot.fkNames, m.fks);
    QuietNotWarned(m.snapshot.checkNames, m.checks);
    WarningsLeft(m);
    assert ColumnsWarnings(m.cols) + TableWarnings(m) == TableWarnings(m);
  }
}
