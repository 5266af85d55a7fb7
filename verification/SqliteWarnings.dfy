/** Which warnings the designer gives on SQLite, in terms of the rows alone. */
module SqliteWarnings {
  import opened Text
  import opened TableModel
  import opened ShownTable
  import opened EmptyScript
  import opened SqliteFilter

  /** Some loaded object has no row any more. */
  predicate Lost(names: seq<string>, items: seq<Item>) {
    exists n :: n in names && forall x | x in items && x.orig.Some? :: x.orig.value.name != n
  }

  /** The row is new or its texts differ, by more than outer blanks, from the loaded ones. */
  predicate Differs(x: Item) { x.orig.None? || !SameTexts(x.orig.value, x.cur) }

  predicate Warns(m: Model, w: Warning) {
    match w
    case ChangeType(n) => exists c :: c in m.cols && c.orig.Some? && c.orig.value.name == n && Trim(c.cur.typ) != Trim(c.orig.value.typ)
    case ChangeNotNull(n, on) =>
      exists c :: c in m.cols && c.orig.Some? && c.orig.value.name == n && c.cur.notNull == on && c.orig.value.notNull != on
    case ChangeDefault(n) => exists c :: c in m.cols && c.orig.Some? && c.orig.value.name == n && Trim(c.cur.def) != Trim(c.orig.value.def)
    case ChangePk => PkColsChanged(m)
    case ChangeUnique => Lost(m.snapshot.uniqueNames, m.uniques) || exists x :: x in m.uniques && Differs(x)
    case ChangeForeignKey => Lost(m.snapshot.fkNames, m.fks) || exists x :: x in m.fks && Differs(x) && !Empty(x.cur)
    case ChangeCheck => Lost(m.snapshot.checkNames, m.checks) || exists x :: x in m.checks && Differs(x) && !Empty(x.cur)
    case ChangeComment => Trim(m.comment) != Trim(m.snapshot.comment)
  }

  lemma {:induction false} ColumnWarned(c: Col, w: Warning)
    requires c.orig.Some?
    ensures w in ColumnWarnings(c) <==>
            || (w == ChangeType(c.orig.value.name) && Trim(c.cur.typ) != Trim(c.orig.value.typ))
            || (w == ChangeNotNull(c.orig.value.name, c.cur.notNull) && c.cur.notNull != c.orig.value.notNull)
            || (w == ChangeDefault(c.orig.value.name) && Trim(c.cur.def) != Trim(c.orig.value.def))
  {
  }

  lemma {:induction false} ColumnsWarned(cols: seq<Col>, w: Warning)
    ensures w in ColumnsWarnings(cols) <==> exists c :: c in cols && c.orig.Some? && w in ColumnWarnings(c)
  {
    if cols != [] {
      ColumnsWarned(cols[1..], w);
      assert forall c | c in cols :: c == cols[0] || c in cols[1..];
      assert cols[0] in cols && forall c | c in cols[1..] :: c in cols;
    }
  }

  lemma {:induction false} RowsDiffer(items: seq<Item>)
    ensures forall x | x in items :: (Differs(x) <==> x.orig.None? || Changed(x)) && (Empty(x.cur) <==> Blank(x.cur))
  {
    forall x | x in items ensures (Differs(x) <==> x.orig.None? || Changed(x)) && (Empty(x.cur) <==> Blank(x.cur)) {
      if x.orig.Some? { SameTextsUnchanged(x); }
      EmptyIsBlank(_ => [], x.cur);
    }
  }

  lemma {:induction false} LostIsRemoved(names: seq<string>, items: seq<Item>)
    ensures Lost(names, items) <==> SomeRemoved(names, items)
  {
    if SomeRemoved(names, items) {
      var n :| n in names && !exists x | x in items :: x.orig.Some? && x.orig.value.name == n;
      assert forall x | x in items && x.orig.Some? :: x.orig.value.name != n;
    }
  }

  lemma {:induction false} TableWarned(m: Model, w: Warning)
    ensures w in TableWarnings(m) <==> (w.ChangePk? || w.ChangeUnique? || w.ChangeForeignKey? || w.ChangeCheck? || w.ChangeComment?) && Warns(m, w)
  {
    UniquesWarned(m);
    SectionIsWarned(m.snapshot.fkNames, m.fks);
    SectionIsWarned(m.snapshot.checkNames, m.checks);
    InTableWarnings(m, w);
  }

  lemma {:induction false} UniquesWarned(m: Model)
    ensures UniqueWarned(m) <==> Lost(m.snapshot.uniqueNames, m.uniques) || exists x :: x in m.uniques && Differs(x)
  {
    RowsDiffer(m.uniques);
    LostIsRemoved(m.snapshot.uniqueNames, m.uniques);
  }

  lemma {:induction false} SectionIsWarned(names: seq<string>, items: seq<Item>)
    ensures SectionWarned(names, items) <==> Lost(names, items) || exists x :: x in items && Differs(x) && !Empty(x.cur)
  {
    RowsDiffer(items);
    LostIsRemoved(names, items);
  }

  lemma {:induction false} InTableWarnings(m: Model, w: Warning)
    ensures w in TableWarnings(m) <==>
            || (w == ChangePk && PkColsChanged(m)) || (w == ChangeUnique && UniqueWarned(m))
            || (w == ChangeForeignKey && SectionWarned(m.snapshot.fkNames, m.fks))
            || (w == ChangeCheck && SectionWarned(m.snapshot.checkNames, m.checks))
            || (w == ChangeComment && Trim(m.comment) != Trim(m.snapshot.comment))
  {
  }

  /** A warning is given exactly when there is the change it names: of a column, under the name it was
      loaded with, of the key, of a kind of constraint, or of the comment. */
  lemma {:induction false} WarnsExactly(m: Model, w: Warning)
    ensures w in Unsupported(m) <==> Warns(m, w)
  {
    ColumnsWarned(m.cols, w);
    forall c | c in m.cols && c.orig.Some? ensures w in ColumnWarnings(c) ==> Warns(m, w) { ColumnWarned(c, w); }
    TableWarned(m, w);
    if Warns(m, w) && (w.ChangeType? || w.ChangeNotNull? || w.ChangeDefault?) {
      SomeColumnWarns(m, w);
    }
  }

  lemma {:induction false} SomeColumnWarns(m: Model, w: Warning)
    requires Warns(m, w) && (w.ChangeType? || w.ChangeNotNull? || w.ChangeDefault?)
    ensures exists c :: c in m.cols && c.orig.Some? && w in ColumnWarnings(c)
  {
    forall c | c in m.cols && c.orig.Some?
      ensures w in ColumnWarnings(c) <==>
              || (w == ChangeType(c.orig.value.name) && Trim(c.cur.typ) != Trim(c.orig.value.typ))
              || (w == ChangeNotNull(c.orig.value.name, c.cur.notNull) && c.cur.notNull != c.orig.value.notNull)
              || (w == ChangeDefault(c.orig.value.name) && Trim(c.cur.def) != Trim(c.orig.value.def))
    {
      ColumnWarned(c, w);
    }
  }
}
