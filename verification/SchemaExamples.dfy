/** A table and an edit that meet the hypotheses and the condition of the schema theorem. */
module SchemaExamples {
  import opened Text
  import opened Ddl
  import opened TableModel
  import opened ColumnPhases
  import opened SchemaDiff
  import opened SchemaKeys
  import opened SchemaTheorem
  import opened SchemaCorollaries
  import opened SchemaFailures

  // ---- a column renamed, another one added and made the key ----

  function OneColumn(a: string): Table {
    Table("t", "", map[a := INT_COL], None, map[])
  }

  function PlainExample(a: string, b: string, c: string): Model {
    Model("t", "", [Row(b, a, false), Col(ColText(c, "int", true, ""), true, false, None)],
          [], [], [], [], "t", Snapshot("", "", [a], [], [], [], []))
  }

  ghost predicate PlainNames(a: string, b: string, c: string) {
    LiveName(a) && LiveName(b) && LiveName(c) && a != b && a != c && b != c && ',' !in a && ',' !in b && ',' !in c
  }

  /** A loaded row and a new one. */
  lemma {:induction false} TwoRows(x: Col, y: Col, cm: map<string, ColSpec>)
    requires x.orig.Some? && y.orig.None? && LiveName(x.cur.name) && x.cur.name != y.cur.name
    requires x.orig.value.name in cm && cm[x.orig.value.name] == SpecOf(x.orig.value) && Trim(x.orig.value.typ) != ""
    ensures DistinctNames([x, y]) && DistinctOrigs([x, y]) && LoadedFrom([x, y], cm)
  {
  }

  lemma {:induction false} PlainExampleColumns(a: string, b: string, c: string)
    requires PlainNames(a, b, c)
    ensures var cols := PlainExample(a, b, c).cols; DistinctNames(cols) && DistinctOrigs(cols) && LoadedFrom(cols, OneColumn(a).cols)
  {
    NoNames();
    TwoRows(Row(b, a, false), Col(ColText(c, "int", true, ""), true, false, None), OneColumn(a).cols);
  }

  lemma {:induction false} PlainExampleTracks(parse: string -> seq<string>, a: string, b: string, c: string)
    requires PlainNames(a, b, c)
    ensures Tracks(parse, PlainExample(a, b, c), OneColumn(a))
  {
    PlainExampleColumns(a, b, c);
    NoRowsTrack(parse, PlainExample(a, b, c), OneColumn(a));
  }

  lemma {:induction false} NoRowsPlain(e: Engine, parse: string -> seq<string>, m: Model, db: Table)
    requires NoRows(m) && db.objs == map[] && db.pk.None? && CommaFree(m)
    requires forall c | c in m.cols && (IsNew(c) || Renamed(c)) :: c.cur.name !in db.cols
    requires forall c | c in m.cols && c.orig.Some? :: Trim(c.cur.typ) != ""
    ensures PlainEdit(e, parse, m, db)
  {
    assert m.uniques == ItemsOf(m, UniqKind);
  }

  lemma {:induction false} PlainExampleRows(a: string, b: string, c: string)
    requires PlainNames(a, b, c)
    ensures var cols := PlainExample(a, b, c).cols;
            forall i | 0 <= i < |cols| :: Trim(cols[i].cur.typ) != "" && ',' !in cols[i].cur.name && cols[i].cur.name != a
  {
    NoNames();
  }

  lemma {:induction false} PlainExampleIsPlain(e: Engine, parse: string -> seq<string>, a: string, b: string, c: string)
    requires PlainNames(a, b, c)
    ensures PlainEdit(e, parse, PlainExample(a, b, c), OneColumn(a))
  {
    PlainExampleRows(a, b, c);
    NoRowsPlain(e, parse, PlainExample(a, b, c), OneColumn(a));
  }

  lemma {:induction false} OneColumnLegal(e: Engine, a: string)
    requires a != ""
    ensures LegalTable(e, OneColumn(a))
  {
  }

  lemma {:induction false} PlainExampleWellFormed(e: Engine, parse: string -> seq<string>, a: string, b: string, c: string)
    requires PlainNames(a, b, c)
    ensures WellFormedEdit(e, parse, PlainExample(a, b, c))
  {
    PlainExampleColumns(a, b, c);
    NoRowsWellFormed(e, parse, PlainExample(a, b, c));
  }

  lemma {:induction false} PlainExampleIsInstance(e: Engine, parse: string -> seq<string>, a: string, b: string, c: string)
    requires PlainNames(a, b, c)
    ensures Hypotheses(e, parse, PlainExample(a, b, c), OneColumn(a))
  {
    NoNames();
    OneColumnLegal(e, a);
    PlainExampleTracks(parse, a, b, c);
    PlainExampleWellFormed(e, parse, a, b, c);
  }

  /** The hypotheses and the condition hold together: rename a column, add another, give the
      table a key. */
  lemma {:induction false} PlainExampleArrives(e: Engine, parse: string -> seq<string>, a: string, b: string, c: string)
    requires e != SQLite && PlainNames(a, b, c)
    ensures var m, db := PlainExample(a, b, c), OneColumn(a);
            Hypotheses(e, parse, m, db) && Safe(e, parse, m, db) && Arrives(e, parse, m, db)
  {
    var m, db := PlainExample(a, b, c), OneColumn(a);
    PlainExampleIsInstance(e, parse, a, b, c);
    PlainExampleIsPlain(e, parse, a, b, c);
    PlainEditsReachShownTable(e, parse, m, db);
    ModifyReachesShownTable(e, parse, m, db);
  }
}
