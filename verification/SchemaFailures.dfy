/** For each way an edit can fail to be Safe, a family of edits that meets every hypothesis of the
    schema theorem and does not arrive. Names are arbitrary. */
module SchemaFailures {
  import opened Text
  import opened Ddl
  import opened TableModel
  import opened ColumnPhases
  import opened SchemaDiff
  import opened SchemaTheorem
  import opened SchemaCorollaries
  import SqliteFilter
  import D = DescribeTable

  const INT_COL := ColSpec("int", false, "")

  /** An int column, loaded as `was` and now called `now`. */
  function Row(now: string, was: string, key: bool): Col {
    Col(ColText(now, "int", false, ""), key, key, Some(ColText(was, "int", false, "")))
  }

  lemma {:induction false} NameFacts(n: string)
    requires D.Printable(n)
    ensures IdList(n) == [n] && LiveName(n) && n != ""
  {
    D.IdListOne(n, "");
    assert "" + n == n;
  }

  lemma {:induction false} NoNames()
    ensures IdList("") == [] && Trim("") == "" && Trim("int") == "int"
  {
    assert Split("", ',') == [""];
    assert [""][1..] == [] && Kept([]) == [];
    assert Kept([""]) == [];
  }

  // ---- assembling the hypotheses ----

  lemma {:induction false} NoneOfKind(parse: string -> seq<string>, k: Kind, objs: map<Key, Def>)
    requires forall key | key in objs :: key.kind != k
    ensures TracksSection(parse, k, [], [], objs)
  {
  }

  lemma {:induction false} OneOfKind(parse: string -> seq<string>, x: Item)
    requires x.orig.Some?
    ensures var o := x.orig.value;
            TracksSection(parse, KindOf(o), [o.name], [x], map[KeyOf(o) := DefOf(parse, o)])
  {
  }

  /** The columns of a model of a table without a key. */
  ghost predicate Columns(m: Model, db: Table) {
    && db.pk == None && "" !in db.cols && (forall n | n in db.cols :: db.cols[n].typ != "")
    && NoDup(m.snapshot.colNames) && (forall n: string :: n in m.snapshot.colNames <==> n in db.cols)
    && DistinctNames(m.cols) && DistinctOrigs(m.cols) && LoadedFrom(m.cols, db.cols)
    && (forall c | c in m.cols :: !c.pk && !c.origPk)
  }

  /** One object in the table and one row in the model. */
  ghost predicate OneRow(parse: string -> seq<string>, m: Model, db: Table, x: Item) {
    && x.orig.Some? && x.orig.value.name != "" && x.cur.name != "" && KindOf(x.cur) == KindOf(x.orig.value)
    && db.objs == map[KeyOf(x.orig.value) := DefOf(parse, x.orig.value)]
    && RefsExist(DefOf(parse, x.orig.value), db.cols)
    && m.origName == db.name && db.comment == "" && m.snapshot.comment == "" && m.snapshot.pkName == ""
    && (forall k: Kind :: ItemsOf(m, k) == if k == KindOf(x.cur) then [x] else [])
    && (forall k: Kind :: NamesOf(m.snapshot, k) == if k == KindOf(x.cur) then [x.orig.value.name] else [])
  }

  ghost predicate OneObject(parse: string -> seq<string>, m: Model, db: Table, x: Item) {
    Columns(m, db) && OneRow(parse, m, db, x)
  }

  lemma {:induction false} OneObjectLegal(e: Engine, parse: string -> seq<string>, m: Model, db: Table, x: Item)
    requires OneObject(parse, m, db, x)
    ensures LegalTable(e, db)
  {
    assert KindOf(x.orig.value) != PkKind;
  }

  lemma {:induction false} OneObjectTracks(parse: string -> seq<string>, m: Model, db: Table, x: Item)
    requires OneObject(parse, m, db, x)
    ensures Tracks(parse, m, db)
  {
    NoNames();
    forall k: Kind | k != PkKind ensures TracksSection(parse, k, NamesOf(m.snapshot, k), ItemsOf(m, k), db.objs) {
      if k == KindOf(x.cur) { OneOfKind(parse, x); } else { NoneOfKind(parse, k, db.objs); }
    }
  }

  lemma {:induction false} NoTicks(cols: seq<Col>)
    requires forall c | c in cols :: !c.pk
    ensures PkNames(cols) == []
  {
    if cols != [] {
      assert cols[0] in cols && forall c | c in cols[1..] :: c in cols;
      NoTicks(cols[1..]);
    }
  }

  /** If the row is to be added, it mentions shown columns. */
  ghost predicate AddedWell(parse: string -> seq<string>, m: Model, x: Item) {
    ToAdd(x) ==> Complete(DefOf(parse, x.cur)) && forall r | r in DefOf(parse, x.cur).refs :: ShownName(m.cols, r)
  }

  lemma {:induction false} OneObjectWellFormed(e: Engine, parse: string -> seq<string>, m: Model, db: Table, x: Item)
    requires OneObject(parse, m, db, x) && AddedWell(parse, m, x)
    ensures WellFormedEdit(e, parse, m)
  {
    NoTicks(m.cols);
    forall k: Kind, y | y in ItemsOf(m, k) ensures y == x && k == KindOf(x.cur) {}
  }

  /** All hypotheses of the theorem. */
  ghost predicate Hypotheses(e: Engine, parse: string -> seq<string>, m: Model, db: Table) {
    LegalTable(e, db) && Tracks(parse, m, db) && WellFormedEdit(e, parse, m)
  }

  ghost predicate Arrives(e: Engine, parse: string -> seq<string>, m: Model, db: Table) {
    var out := Run(e, parse, m.origName, Modify(e, m), db); out.Some? && Shows(e, parse, m, out.value)
  }

  lemma {:induction false} OneObjectIsInstance(e: Engine, parse: string -> seq<string>, m: Model, db: Table, x: Item)
    requires OneObject(parse, m, db, x) && AddedWell(parse, m, x)
    ensures Hypotheses(e, parse, m, db)
  {
    OneObjectLegal(e, parse, m, db, x);
    OneObjectTracks(parse, m, db, x);
    OneObjectWellFormed(e, parse, m, db, x);
  }

  lemma {:induction false} OneObjectLost(e: Engine, parse: string -> seq<string>, m: Model, db: Table, x: Item, r: string)
    requires e != SQLite && OneObject(parse, m, db, x) && KeptItem(x) && r in DefOf(parse, x.cur).refs
    requires !ShownName(m.cols, r) || exists c :: c in m.cols && Renamed(c) && c.orig.value.name == r
    ensures Hypotheses(e, parse, m, db) && !Arrives(e, parse, m, db)
  {
    OneObjectIsInstance(e, parse, m, db, x);
    assert x in ItemsOf(m, KindOf(x.cur));
    MentionedColumnMustStay(e, parse, m, db, KindOf(x.cur), x, r);
  }

  // ---- a UNIQUE renamed alone ----

  function NewName(a: string, u: string, v: string): Tracked<UniqText> { Tracked(Uniq(v, a), Some(Uniq(u, a))) }

  function NewNameEdit(a: string, u: string, v: string): Model {
    Model("t", "", [Row(a, a, false)], [NewName(a, u, v)], [], [], [], "t", Snapshot("", "", [a], [u], [], [], []))
  }

  lemma {:induction false} NewNameColumns(a: string, u: string, v: string)
    requires LiveName(a) && a != ""
    ensures Columns(NewNameEdit(a, u, v), RenameDb(a, u))
  {
    NoNames();
  }

  lemma {:induction false} NewNameRow(parse: string -> seq<string>, a: string, u: string, v: string)
    requires D.Printable(a) && u != "" && v != ""
    ensures OneRow(parse, NewNameEdit(a, u, v), RenameDb(a, u), NewName(a, u, v))
  {
    NameFacts(a);
  }

  /** Rename UNIQUE u to v: only the name differs, and only the columns are compared. */
  lemma {:induction false} RenamedUniqueIsLost(e: Engine, parse: string -> seq<string>, a: string, u: string, v: string)
    requires e != SQLite && D.Printable(a) && u != "" && v != "" && u != v
    ensures Hypotheses(e, parse, NewNameEdit(a, u, v), RenameDb(a, u)) && !Arrives(e, parse, NewNameEdit(a, u, v), RenameDb(a, u))
  {
    var m, db := NewNameEdit(a, u, v), RenameDb(a, u);
    var x: Item := NewName(a, u, v);
    NameFacts(a);
    NewNameColumns(a, u, v);
    NewNameRow(parse, a, u, v);
    OneObjectIsInstance(e, parse, m, db, x);
    assert x in m.uniques && KeptItem(x);
    UniqueRenamedAloneIsLost(e, parse, m, db, x);
  }

  // ---- a column renamed under an untouched constraint ----

  /** A UNIQUE over `a`, left alone. */
  function UniqueOver(a: string, u: string): Tracked<UniqText> { Tracked(Uniq(u, a), Some(Uniq(u, a))) }

  lemma {:induction false} UniqueFacts(parse: string -> seq<string>, a: string, u: string)
    requires D.Printable(a)
    ensures var x: Item := UniqueOver(a, u); KeptItem(x) && DefOf(parse, x.cur) == UniqueDef([a]) == DefOf(parse, x.orig.value)
  {
    NameFacts(a);
  }

  lemma {:induction false} UniqueRow(parse: string -> seq<string>, m: Model, db: Table, a: string, u: string)
    requires D.Printable(a) && u != "" && a in db.cols
    requires db.objs == map[Key(UniqKind, u) := UniqueDef([a])] && db.comment == "" && m.origName == db.name
    requires m.uniques == [UniqueOver(a, u)] && m.fks == [] && m.checks == [] && m.indexes == []
    requires m.snapshot == Snapshot("", "", m.snapshot.colNames, [u], [], [], [])
    ensures OneRow(parse, m, db, UniqueOver(a, u))
  {
    UniqueFacts(parse, a, u);
  }

  function RenameEdit(a: string, b: string, u: string): Model {
    Model("t", "", [Row(b, a, false)], [UniqueOver(a, u)], [], [], [], "t", Snapshot("", "", [a], [u], [], [], []))
  }

  function RenameDb(a: string, u: string): Table {
    Table("t", "", map[a := INT_COL], None, map[Key(UniqKind, u) := UniqueDef([a])])
  }

  lemma {:induction false} RenameColumns(a: string, b: string, u: string)
    requires LiveName(a) && LiveName(b) && a != ""
    ensures Columns(RenameEdit(a, b, u), RenameDb(a, u))
  {
    NoNames();
  }

  /** Rename `a` to `b` under UNIQUE(a). */
  lemma {:induction false} RenamedUnderUniqueIsLost(e: Engine, parse: string -> seq<string>, a: string, b: string, u: string)
    requires e != SQLite && D.Printable(a) && D.Printable(b) && a != b && u != ""
    ensures Hypotheses(e, parse, RenameEdit(a, b, u), RenameDb(a, u)) && !Arrives(e, parse, RenameEdit(a, b, u), RenameDb(a, u))
  {
    var m, db := RenameEdit(a, b, u), RenameDb(a, u);
    NameFacts(a);
    NameFacts(b);
    RenameColumns(a, b, u);
    UniqueRow(parse, m, db, a, u);
    UniqueFacts(parse, a, u);
    OneObjectLost(e, parse, m, db, UniqueOver(a, u), a);
  }

  // ---- the same, with the name taken over by another column ----

  function ChainEdit(a: string, b: string, c: string, u: string): Model {
    Model("t", "", [Row(b, a, false), Row(a, c, false)], [UniqueOver(a, u)], [], [], [],
          "t", Snapshot("", "", [a, c], [u], [], [], []))
  }

  function ChainDb(a: string, c: string, u: string): Table {
    Table("t", "", map[a := INT_COL, c := INT_COL], None, map[Key(UniqKind, u) := UniqueDef([a])])
  }

  lemma {:induction false} ChainRows(a: string, b: string, c: string)
    requires LiveName(a) && LiveName(b) && LiveName(c) && a != b && a != c && b != c
    ensures var cols := [Row(b, a, false), Row(a, c, false)];
            DistinctNames(cols) && DistinctOrigs(cols) && LoadedFrom(cols, map[a := INT_COL, c := INT_COL])
  {
    NoNames();
  }

  lemma {:induction false} ChainColumns(a: string, b: string, c: string, u: string)
    requires LiveName(a) && LiveName(b) && LiveName(c) && a != b && a != c && b != c && a != "" && c != ""
    ensures Columns(ChainEdit(a, b, c, u), ChainDb(a, c, u))
  {
    ChainRows(a, b, c);
  }

  lemma {:induction false} ChainShows(a: string, b: string, c: string, u: string)
    requires LiveName(a) && a != b
    ensures var cols := ChainEdit(a, b, c, u).cols;
            ShownName(cols, a) && exists d :: d in cols && Renamed(d) && d.orig.value.name == a
  {
    var cols := ChainEdit(a, b, c, u).cols;
    assert cols[1] in cols && cols[0] in cols && Renamed(cols[0]);
  }

  /** Rename `a` to `b` and `c` to `a` under UNIQUE(a): all that the designer shows exists, but
      the constraint is on the wrong column. */
  lemma {:induction false} RenameChainIsLost(e: Engine, parse: string -> seq<string>, a: string, b: string, c: string, u: string)
    requires e != SQLite && D.Printable(a) && D.Printable(b) && D.Printable(c) && a != b && a != c && b != c && u != ""
    ensures Hypotheses(e, parse, ChainEdit(a, b, c, u), ChainDb(a, c, u)) && ShownName(ChainEdit(a, b, c, u).cols, a)
    ensures !Arrives(e, parse, ChainEdit(a, b, c, u), ChainDb(a, c, u))
  {
    var m, db := ChainEdit(a, b, c, u), ChainDb(a, c, u);
    NameFacts(a);
    NameFacts(b);
    NameFacts(c);
    ChainColumns(a, b, c, u);
    UniqueRow(parse, m, db, a, u);
    UniqueFacts(parse, a, u);
    ChainShows(a, b, c, u);
    OneObjectLost(e, parse, m, db, UniqueOver(a, u), a);
  }

  // ---- a foreign key whose definition could not be read ----

  function UnreadFk(a: string, f: string, g: string): Tracked<FkText> { Tracked(Fk(g, a, "", "", ""), Some(Fk(f, a, "", "", ""))) }

  function UnreadEdit(a: string, f: string, g: string): Model {
    Model("t", "", [Row(a, a, false)], [], [UnreadFk(a, f, g)], [], [], "t", Snapshot("", "", [a], [], [f], [], []))
  }

  function UnreadDb(a: string, f: string): Table {
    Table("t", "", map[a := INT_COL], None, map[Key(FkKind, f) := ForeignDef([a], "", [], "")])
  }

  lemma {:induction false} UnreadFacts(parse: string -> seq<string>, a: string, f: string, g: string)
    requires D.Printable(a) && f != g
    ensures var x: Item := UnreadFk(a, f, g);
            && DefOf(parse, x.orig.value) == ForeignDef([a], "", [], "")
            && Changed(x) && Blank(x.cur) && Blank(x.orig.value) && !ToAdd(x)
  {
    NoNames();
    NameFacts(a);
  }

  lemma {:induction false} UnreadRow(parse: string -> seq<string>, a: string, f: string, g: string)
    requires D.Printable(a) && f != "" && g != "" && f != g
    ensures OneRow(parse, UnreadEdit(a, f, g), UnreadDb(a, f), UnreadFk(a, f, g))
  {
    UnreadFacts(parse, a, f, g);
  }

  lemma {:induction false} UnreadColumns(a: string, f: string, g: string)
    requires LiveName(a) && a != ""
    ensures Columns(UnreadEdit(a, f, g), UnreadDb(a, f))
  {
    NoNames();
  }

  /** Rename a foreign key that was loaded without its definition: it is dropped and not added. */
  lemma {:induction false} RenamedUnreadFkIsLost(e: Engine, parse: string -> seq<string>, a: string, f: string, g: string)
    requires e != SQLite && D.Printable(a) && f != "" && g != "" && f != g
    ensures Hypotheses(e, parse, UnreadEdit(a, f, g), UnreadDb(a, f)) && !Arrives(e, parse, UnreadEdit(a, f, g), UnreadDb(a, f))
  {
    var m, db := UnreadEdit(a, f, g), UnreadDb(a, f);
    var x: Item := UnreadFk(a, f, g);
    NameFacts(a);
    UnreadColumns(a, f, g);
    UnreadRow(parse, a, f, g);
    UnreadFacts(parse, a, f, g);
    OneObjectIsInstance(e, parse, m, db, x);
    assert x in ItemsOf(m, FkKind);
    ModifyReachesShownTable(e, parse, m, db);
  }

  // ---- a column renamed together with its CHECK ----

  function NewCheck(k: string, was: string, now: string): Tracked<ChkText> { Tracked(Chk(k, now), Some(Chk(k, was))) }

  function CheckEdit(a: string, b: string, k: string, was: string, now: string): Model {
    Model("t", "", [Row(b, a, false)], [], [], [NewCheck(k, was, now)], [], "t", Snapshot("", "", [a], [], [], [k], []))
  }

  function CheckDb(parse: string -> seq<string>, a: string, k: string, was: string): Table {
    Table("t", "", map[a := INT_COL], None, map[Key(ChkKind, k) := CheckDef(parse(Trim(was)), Trim(was))])
  }

  /** Two texts, one about `a` and one about `b`. */
  ghost predicate CheckTexts(parse: string -> seq<string>, a: string, b: string, was: string, now: string) {
    Trim(was) != "" && Trim(now) != "" && Trim(was) != Trim(now) && parse(Trim(was)) == [a] && parse(Trim(now)) == [b]
  }

  lemma {:induction false} CheckColumns(parse: string -> seq<string>, a: string, b: string, k: string, was: string, now: string)
    requires LiveName(a) && LiveName(b) && a != ""
    ensures Columns(CheckEdit(a, b, k, was, now), CheckDb(parse, a, k, was))
  {
    NoNames();
  }

  lemma {:induction false} CheckRow(parse: string -> seq<string>, a: string, b: string, k: string, was: string, now: string)
    requires CheckTexts(parse, a, b, was, now) && k != ""
    ensures OneRow(parse, CheckEdit(a, b, k, was, now), CheckDb(parse, a, k, was), NewCheck(k, was, now))
  {
  }

  lemma {:induction false} CheckIsInstance(e: Engine, parse: string -> seq<string>, a: string, b: string, k: string, was: string, now: string)
    requires D.Printable(a) && D.Printable(b) && k != "" && CheckTexts(parse, a, b, was, now)
    ensures Hypotheses(e, parse, CheckEdit(a, b, k, was, now), CheckDb(parse, a, k, was))
  {
    var m, db := CheckEdit(a, b, k, was, now), CheckDb(parse, a, k, was);
    NameFacts(a);
    NameFacts(b);
    CheckColumns(parse, a, b, k, was, now);
    CheckRow(parse, a, b, k, was, now);
    assert m.cols[0] in m.cols && ShownName(m.cols, b);
    OneObjectIsInstance(e, parse, m, db, NewCheck(k, was, now));
  }

  /** Rename `a` to `b` and rewrite the CHECK on it: MySQL refuses the rename, which comes first. */
  lemma {:induction false} RenamedWithCheckIsRefused(parse: string -> seq<string>, a: string, b: string, k: string, was: string, now: string)
    requires D.Printable(a) && D.Printable(b) && a != b && k != "" && CheckTexts(parse, a, b, was, now)
    ensures var m, db := CheckEdit(a, b, k, was, now), CheckDb(parse, a, k, was);
            Hypotheses(MySQL, parse, m, db) && Run(MySQL, parse, "t", Modify(MySQL, m), db) == None
  {
    var m, db := CheckEdit(a, b, k, was, now), CheckDb(parse, a, k, was);
    CheckIsInstance(MySQL, parse, a, b, k, was, now);
    var c := m.cols[0];
    assert c in m.cols && Renamed(c);
    assert a in db.objs[Key(ChkKind, k)].refs;
    RenameUnderCheckStops(parse, m, db, c, Key(ChkKind, k));
  }

  lemma {:induction false} CheckEditIsSafe(parse: string -> seq<string>, a: string, b: string, k: string, was: string, now: string)
    requires a != b && CheckTexts(parse, a, b, was, now)
    ensures var m, db := CheckEdit(a, b, k, was, now), CheckDb(parse, a, k, was);
            ColumnsSafe(Postgres, m, db) && NoBlankRebuild(m) && UniqueNamesKept(parse, m) && ReferencesKept(parse, m)
  {
    var m := CheckEdit(a, b, k, was, now);
    var x: Item := NewCheck(k, was, now);
    NoNames();
    forall kind: Kind, y | y in ItemsOf(m, kind) ensures y == x && Changed(x) && !Blank(x.cur) {}
  }

  lemma {:induction false} NoKeyKept(e: Engine, m: Model, db: Table)
    requires db.pk == None && forall c | c in m.cols :: !c.pk && !c.origPk
    ensures PkKept(e, m, db)
  {
    NoTicks(m.cols);
  }

  /** On Postgres the same edit arrives. */
  lemma {:induction false} RenamedWithCheckArrives(parse: string -> seq<string>, a: string, b: string, k: string, was: string, now: string)
    requires D.Printable(a) && D.Printable(b) && a != b && k != "" && CheckTexts(parse, a, b, was, now)
    ensures Arrives(Postgres, parse, CheckEdit(a, b, k, was, now), CheckDb(parse, a, k, was))
  {
    var m, db := CheckEdit(a, b, k, was, now), CheckDb(parse, a, k, was);
    CheckIsInstance(Postgres, parse, a, b, k, was, now);
    CheckEditIsSafe(parse, a, b, k, was, now);
    NoKeyKept(Postgres, m, db);
    ModifyReachesShownTable(Postgres, parse, m, db);
  }

  // ---- one column of a key removed ----

  function KeyEdit(a: string, b: string): Model {
    Model("t", "", [Row(b, b, true)], [], [], [], [], "t", Snapshot("t_pkey", "", [a, b], [], [], [], []))
  }

  function KeyDb(a: string, b: string): Table {
    Table("t", "", map[a := INT_COL, b := INT_COL], Some(Pk("t_pkey", {a, b})), map[])
  }

  lemma {:induction false} KeyEditNames(a: string, b: string)
    requires LiveName(b)
    ensures PkNames(KeyEdit(a, b).cols) == [b] && OrigPkNames(KeyEdit(a, b).cols) == [b] && !PkColsChanged(KeyEdit(a, b))
  {
    var r := Row(b, b, true);
    assert KeyEdit(a, b).cols == [r] && [r][1..] == [];
    assert PkNames([]) == [] && OrigPkNames([]) == [];
  }

  lemma {:induction false} KeyEditColumns(a: string, b: string)
    requires LiveName(a) && LiveName(b) && a != b
    ensures var cols, db := KeyEdit(a, b).cols, KeyDb(a, b);
            && DistinctNames(cols) && DistinctOrigs(cols) && LoadedFrom(cols, db.cols)
            && (forall c | c in cols :: c.origPk <==> c.orig.value.name in db.pk.value.cols)
  {
    NoNames();
  }

  lemma {:induction false} KeyDbLegal(a: string, b: string)
    requires a != "" && b != ""
    ensures LegalTable(Postgres, KeyDb(a, b))
  {
    assert {a, b} != {} by { assert a in {a, b}; }
  }

  lemma {:induction false} KeyEditTracks(parse: string -> seq<string>, a: string, b: string)
    requires LiveName(a) && LiveName(b) && a != b
    ensures Tracks(parse, KeyEdit(a, b), KeyDb(a, b))
  {
    var m, db := KeyEdit(a, b), KeyDb(a, b);
    KeyEditColumns(a, b);
    NoRowsTrack(parse, m, db);
  }

  ghost predicate NoRows(m: Model) {
    && (forall k: Kind :: ItemsOf(m, k) == [])
    && (forall k: Kind :: NamesOf(m.snapshot, k) == [])
  }

  lemma {:induction false} NoRowsWellFormed(e: Engine, parse: string -> seq<string>, m: Model)
    requires DistinctNames(m.cols) && NoRows(m)
    ensures WellFormedEdit(e, parse, m)
  {
  }

  lemma {:induction false} NoRowsTrack(parse: string -> seq<string>, m: Model, db: Table)
    requires NoRows(m) && db.objs == map[] && m.origName == db.name && m.snapshot.comment == "" && db.comment == ""
    requires NoDup(m.snapshot.colNames) && (forall n: string :: n in m.snapshot.colNames <==> n in db.cols)
    requires DistinctOrigs(m.cols) && LoadedFrom(m.cols, db.cols)
    requires forall c | c in m.cols && c.orig.Some? :: c.origPk <==> db.pk.Some? && c.orig.value.name in db.pk.value.cols
    requires m.snapshot.pkName == (if db.pk.None? then "" else db.pk.value.name)
    ensures Tracks(parse, m, db)
  {
    NoNames();
    forall k: Kind | k != PkKind ensures TracksSection(parse, k, NamesOf(m.snapshot, k), ItemsOf(m, k), db.objs) {
      NoneOfKind(parse, k, map[]);
    }
  }

  lemma {:induction false} KeyEditIsInstance(parse: string -> seq<string>, a: string, b: string)
    requires LiveName(a) && LiveName(b) && a != b
    ensures Hypotheses(Postgres, parse, KeyEdit(a, b), KeyDb(a, b))
  {
    assert Trim("") == "";
    KeyDbLegal(a, b);
    KeyEditTracks(parse, a, b);
    KeyEditColumns(a, b);
    NoRowsWellFormed(Postgres, parse, KeyEdit(a, b));
  }

  /** Key (a, b), column `a` removed, `b` still ticked: on Postgres the key goes with `a`. */
  lemma {:induction false} RemovedKeyColumnExample(parse: string -> seq<string>, a: string, b: string)
    requires LiveName(a) && LiveName(b) && a != b
    ensures Hypotheses(Postgres, parse, KeyEdit(a, b), KeyDb(a, b)) && !Arrives(Postgres, parse, KeyEdit(a, b), KeyDb(a, b))
  {
    KeyEditIsInstance(parse, a, b);
    KeyEditNames(a, b);
    assert !OrigName(KeyEdit(a, b).cols, a);
    RemovedKeyColumnLosesKey(parse, KeyEdit(a, b), KeyDb(a, b), a);
  }

  // ---- a key moved behind a comma ----

  /** The key is taken from column "x,y" and given to columns x and y. */
  function CommaEdit(x: string, y: string): Model {
    Model("t", "", CommaRows(x, y), [], [], [], [], "t", Snapshot("t_pkey", "", [x, y, x + "," + y], [], [], [], []))
  }

  function CommaRows(x: string, y: string): seq<Col> {
    [Row(x, x, false).(pk := true), Row(y, y, false).(pk := true), Row(x + "," + y, x + "," + y, true).(pk := false)]
  }

  function CommaDb(x: string, y: string): Table {
    Table("t", "", map[x := INT_COL, y := INT_COL, x + "," + y := INT_COL], Some(Pk("t_pkey", {x + "," + y})), map[])
  }

  ghost predicate CommaNames(x: string, y: string) {
    LiveName(x) && LiveName(y) && LiveName(x + "," + y) && x != y && LessEq(x, y)
  }

  lemma {:induction false} ThreeNames(x: string, y: string)
    requires CommaNames(x, y)
    ensures var z := x + "," + y; x != z && y != z && x != "" && y != "" && z != ""
  {
    assert |x + "," + y| == |x| + 1 + |y|;
  }

  lemma {:induction false} CommaTicks(x: string, y: string)
    requires LiveName(x) && LiveName(y)
    ensures PkNames(CommaRows(x, y)) == [x, y] && OrigPkNames(CommaRows(x, y)) == [x + "," + y]
  {
    var rows := CommaRows(x, y);
    assert rows[1..][1..] == [rows[2]] && [rows[2]][1..] == [];
    assert PkNames([]) == [] && OrigPkNames([]) == [];
    assert PkNames([rows[2]]) == [] && OrigPkNames([rows[2]]) == [x + "," + y];
    assert rows[1..][0] == rows[1];
    assert PkNames(rows[1..]) == [y] && OrigPkNames(rows[1..]) == [x + "," + y];
  }

  lemma {:induction false} Joined(x: string, y: string)
    ensures Join([x, y], ",") == x + "," + y == Join([x + "," + y], ",")
  {
    assert [x, y][1..] == [y];
    assert Join([y], ",") == y;
  }

  /** Names are compared sorted and joined with commas, so a comma in a name can hide the change. */
  lemma {:induction false} CommaHidesKeyChange(x: string, y: string)
    requires CommaNames(x, y)
    ensures !PkColsChanged(CommaEdit(x, y)) && !TicksKept(CommaEdit(x, y).cols)
  {
    CommaTicks(x, y);
    ThreeNames(x, y);
    var z := x + "," + y;
    assert [x, y][1..] == [y] && [y][1..] == [] && [z][1..] == [] && Sort([]) == [];
    assert Sort([y]) == [y] && Sort([z]) == [z];
    assert Sort([x, y]) == [x, y];
    Joined(x, y);
    assert x in PkNames(CommaEdit(x, y).cols) && !WasKey(CommaEdit(x, y).cols, x);
  }

  /** Rows that were only ticked and unticked. */
  lemma {:induction false} UntouchedRows(cols: seq<Col>, cm: map<string, ColSpec>)
    requires forall i | 0 <= i < |cols| ::
               && cols[i].orig == Some(cols[i].cur) && LiveName(cols[i].cur.name) && Trim(cols[i].cur.typ) != ""
               && cols[i].cur.name in cm && cm[cols[i].cur.name] == SpecOf(cols[i].cur)
    requires forall i, j | 0 <= i < j < |cols| :: cols[i].cur.name != cols[j].cur.name
    ensures DistinctNames(cols) && DistinctOrigs(cols) && LoadedFrom(cols, cm)
  {
  }

  lemma {:induction false} CommaRowFacts(x: string, y: string, i: nat)
    requires CommaNames(x, y) && i < 3
    ensures var c, cm := CommaRows(x, y)[i], CommaDb(x, y).cols;
            && c.orig == Some(c.cur) && LiveName(c.cur.name) && Trim(c.cur.typ) != ""
            && c.cur.name in cm && cm[c.cur.name] == SpecOf(c.cur)
            && c.cur.name == [x, y, x + "," + y][i] && (c.origPk <==> i == 2)
  {
    NoNames();
  }

  lemma {:induction false} CommaColumns(x: string, y: string)
    requires CommaNames(x, y)
    ensures DistinctNames(CommaRows(x, y)) && DistinctOrigs(CommaRows(x, y)) && LoadedFrom(CommaRows(x, y), CommaDb(x, y).cols)
    ensures forall c | c in CommaRows(x, y) :: c.orig.Some? && (c.origPk <==> c.orig.value.name == x + "," + y)
  {
    ThreeNames(x, y);
    var cols := CommaRows(x, y);
    CommaRowFacts(x, y, 0);
    CommaRowFacts(x, y, 1);
    CommaRowFacts(x, y, 2);
    forall i, j | 0 <= i < j < 3 ensures cols[i].cur.name != cols[j].cur.name {}
    UntouchedRows(cols, CommaDb(x, y).cols);
  }

  lemma {:induction false} CommaTracks(parse: string -> seq<string>, x: string, y: string)
    requires CommaNames(x, y)
    ensures Tracks(parse, CommaEdit(x, y), CommaDb(x, y))
  {
    var m, db, z := CommaEdit(x, y), CommaDb(x, y), x + "," + y;
    ThreeNames(x, y);
    CommaColumns(x, y);
    assert NoDup([x, y, z]);
    NoRowsTrack(parse, m, db);
  }

  lemma {:induction false} CommaIsInstance(parse: string -> seq<string>, x: string, y: string)
    requires CommaNames(x, y)
    ensures Hypotheses(Postgres, parse, CommaEdit(x, y), CommaDb(x, y))
  {
    ThreeNames(x, y);
    CommaColumns(x, y);
    CommaTracks(parse, x, y);
    NoRowsWellFormed(Postgres, parse, CommaEdit(x, y));
    CommaLegal(x, y, x + "," + y);
  }

  lemma {:induction false} CommaLegal(x: string, y: string, z: string)
    requires x != "" && y != "" && z != ""
    ensures LegalTable(Postgres, Table("t", "", map[x := INT_COL, y := INT_COL, z := INT_COL], Some(Pk("t_pkey", {z})), map[]))
  {
  }

  /** The hidden change never arrives. */
  lemma {:induction false} CommaEditIsLost(parse: string -> seq<string>, x: string, y: string)
    requires CommaNames(x, y)
    ensures Hypotheses(Postgres, parse, CommaEdit(x, y), CommaDb(x, y)) && !Arrives(Postgres, parse, CommaEdit(x, y), CommaDb(x, y))
  {
    CommaIsInstance(parse, x, y);
    CommaHidesKeyChange(x, y);
    UnseenKeyChangeIsLost(Postgres, parse, CommaEdit(x, y), CommaDb(x, y));
  }

  /** Such names exist. */
  lemma {:induction false} CommaNamesExist()
    ensures CommaNames("a", "b")
  {
    var z := "a" + "," + "b";
    assert Trim("a") == "a" && Trim("b") == "b" && Trim(z) == z;
    assert LessEq("a", "b");
  }

  // ---- a blanked CHECK on SQLite ----

  function BlankedEdit(a: string, c: string, expr: string): Model {
    Model("t", "", [Row(a, a, false)], [], [], [Tracked(Chk(c, ""), Some(Chk(c, expr)))], [],
          "t", Snapshot("", "", [a], [], [], [c], []))
  }

  lemma {:induction false} BlankedIsSilent(a: string, c: string, expr: string)
    ensures SqliteFilter.Unsupported(BlankedEdit(a, c, expr)) == []
  {
    var m := BlankedEdit(a, c, expr);
    NoNames();
    SqliteFilter.ColumnsWarningsEmpty(m.cols);
    SqliteFilter.TableWarningsEmpty(m);
    var r := Row(a, a, false);
    assert m.cols == [r] && [r][1..] == [];
    assert PkNames(m.cols) == [] && OrigPkNames(m.cols) == [];
    var x: Item := m.checks[0];
    assert x in m.checks && x.orig.Some? && x.orig.value.name == c;
  }

  /** Blank out a CHECK: no warning is shown, and SQLite is not sent the drop. */
  lemma {:induction false} BlankedCheckIsSkipped(a: string, c: string, expr: string)
    requires Trim(expr) != ""
    ensures var m := BlankedEdit(a, c, expr);
            SqliteFilter.Unsupported(m) == [] && Modify(SQLite, m) != Modify(Postgres, m)
  {
    var m := BlankedEdit(a, c, expr);
    BlankedIsSilent(a, c, expr);
    SqliteFilter.SilenceMeansComplete(m);
    NoNames();
    var x: Item := m.checks[0];
    assert x in m.checks && Changed(x) && Blank(x.cur);
    assert SqliteFilter.SilentlySkipped(m.snapshot.checkNames, m.checks);
  }
}
