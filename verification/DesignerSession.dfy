/** Whole designer sessions: load a described table, edit it in any way, apply the script. */
module DesignerSession {
  import opened Text
  import opened Ddl
  import opened TableModel
  import opened ColumnPhases
  import opened SchemaDiff
  import opened LoadModel
  import opened DescribeTable
  import SchemaObjects
  import SchemaTheorem

  /** What the designer can do to a list: change a row's texts, add a row, delete one. */
  datatype RowEdit<T> = Change(i: nat, cur: T) | Append(cur: T) | Delete(i: nat)

  datatype ColEdit = ChangeCol(i: nat, cur: ColText, pk: bool) | AppendCol(cur: ColText) | DeleteCol(i: nat) | MoveDown(i: nat)

  datatype Edit =
    | SetName(name: string) | SetComment(comment: string) | EditCols(col: ColEdit)
    | EditUniques(uniq: RowEdit<UniqText>) | EditFks(fk: RowEdit<FkText>)
    | EditChecks(chk: RowEdit<ChkText>) | EditIndexes(idx: RowEdit<IdxText>)

  function EditRows<T>(rows: seq<Tracked<T>>, e: RowEdit<T>): seq<Tracked<T>> {
    match e
    case Change(i, cur) => if i < |rows| then rows[i := rows[i].(cur := cur)] else rows
    case Append(cur) => rows + [Tracked(cur, None)]
    case Delete(i) => if i < |rows| then rows[..i] + rows[i + 1..] else rows
  }

  function EditColumns(cols: seq<Col>, e: ColEdit): seq<Col> {
    match e
    case ChangeCol(i, cur, pk) => if i < |cols| then cols[i := cols[i].(cur := cur, pk := pk)] else cols
    case AppendCol(cur) => cols + [Col(cur, false, false, None)]
    case DeleteCol(i) => if i < |cols| then cols[..i] + cols[i + 1..] else cols
    case MoveDown(i) => if i + 1 < |cols| then cols[i := cols[i + 1]][i + 1 := cols[i]] else cols
  }

  function Apply(m: Model, e: Edit): Model {
    match e
    case SetName(n) => m.(name := n)
    case SetComment(c) => m.(comment := c)
    case EditCols(c) => m.(cols := EditColumns(m.cols, c))
    case EditUniques(u) => m.(uniques := EditRows(m.uniques, u))
    case EditFks(f) => m.(fks := EditRows(m.fks, f))
    case EditChecks(c) => m.(checks := EditRows(m.checks, c))
    case EditIndexes(i) => m.(indexes := EditRows(m.indexes, i))
  }

  function ApplyAll(m: Model, es: seq<Edit>): Model
    decreases es
  {
    if es == [] then m else ApplyAll(Apply(m, es[0]), es[1..])
  }

  // ---- edits never touch what was loaded ----

  /** Each row of `b` carries the loaded value of a row of `a`, different rows of different rows. */
  ghost predicate Origins<T>(a: seq<Tracked<T>>, b: seq<Tracked<T>>) {
    exists from: seq<int> :: OriginMap(a, b, from)
  }

  ghost predicate OriginMap<T>(a: seq<Tracked<T>>, b: seq<Tracked<T>>, from: seq<int>) {
    && |from| == |b|
    && (forall i | 0 <= i < |b| && b[i].orig.Some? :: 0 <= from[i] < |a| && a[from[i]].orig == b[i].orig)
    && (forall i, j | 0 <= i < j < |b| && b[i].orig.Some? && b[j].orig.Some? :: from[i] != from[j])
  }

  lemma {:induction false} RowEditOrigins<T>(rows: seq<Tracked<T>>, e: RowEdit<T>)
    ensures Origins(rows, EditRows(rows, e))
  {
    var b := EditRows(rows, e);
    var from := seq(|b|, i => if e.Delete? && e.i < |rows| && i >= e.i then i + 1 else i);
    assert OriginMap(rows, b, from);
  }

  lemma {:induction false} SectionKept(parse: string -> seq<string>, k: Kind, names: seq<string>, a: seq<Item>, b: seq<Item>, objs: map<Key, Def>)
    requires TracksSection(parse, k, names, a, objs) && Origins(a, b)
    ensures TracksSection(parse, k, names, b, objs)
  {
    var from :| OriginMap(a, b, from);
    forall i, j | 0 <= i < j < |b| && b[i].orig.Some? && b[j].orig.Some? ensures b[i].orig.value.name != b[j].orig.value.name {
      var p, q := from[i], from[j];
      assert p < q || q < p;
    }
  }

  /** The column list keeps what TracksColumns needs of a table's columns and key. */
  ghost predicate TracksColumns(cols: seq<Col>, db: Table) {
    && DistinctOrigs(cols) && LoadedFrom(cols, db.cols)
    && (forall c | c in cols && c.orig.Some? :: c.origPk <==> db.pk.Some? && c.orig.value.name in db.pk.value.cols)
  }

  ghost predicate ColumnOrigins(a: seq<Col>, b: seq<Col>, from: seq<int>) {
    && |from| == |b|
    && (forall i | 0 <= i < |b| && b[i].orig.Some? :: 0 <= from[i] < |a| && a[from[i]].orig == b[i].orig && a[from[i]].origPk == b[i].origPk)
    && (forall i, j | 0 <= i < j < |b| && b[i].orig.Some? && b[j].orig.Some? :: from[i] != from[j])
  }

  lemma {:induction false} ColumnsKept(a: seq<Col>, b: seq<Col>, from: seq<int>, db: Table)
    requires TracksColumns(a, db) && ColumnOrigins(a, b, from)
    ensures TracksColumns(b, db)
  {
    forall i, j | 0 <= i < j < |b| && b[i].orig.Some? && b[j].orig.Some? ensures b[i].orig.value.name != b[j].orig.value.name {
      var p, q := from[i], from[j];
      assert p < q || q < p;
    }
    forall c | c in b && c.orig.Some?
      ensures exists d | d in a :: d.orig == c.orig && d.origPk == c.origPk
    {
      var i :| 0 <= i < |b| && b[i] == c;
      assert a[from[i]] in a;
    }
  }

  lemma {:induction false} DeletedOrigins(cols: seq<Col>, k: nat, from: seq<int>)
    requires k < |cols| && |from| == |cols| - 1
    requires forall i | 0 <= i < |from| :: from[i] == if i < k then i else i + 1
    ensures ColumnOrigins(cols, cols[..k] + cols[k + 1..], from)
  {
    var b := cols[..k] + cols[k + 1..];
    forall i | 0 <= i < |b| ensures b[i] == cols[from[i]] {}
  }

  lemma {:induction false} SwappedOrigins(cols: seq<Col>, k: nat, from: seq<int>)
    requires k + 1 < |cols| && |from| == |cols|
    requires forall i | 0 <= i < |from| :: from[i] == if i == k then k + 1 else if i == k + 1 then k else i
    ensures ColumnOrigins(cols, cols[k := cols[k + 1]][k + 1 := cols[k]], from)
  {
    var b := cols[k := cols[k + 1]][k + 1 := cols[k]];
    forall i | 0 <= i < |b| ensures b[i] == cols[from[i]] {}
  }

  lemma {:induction false} ColumnEditOrigins(cols: seq<Col>, e: ColEdit) returns (from: seq<int>)
    ensures ColumnOrigins(cols, EditColumns(cols, e), from)
  {
    from := seq(|EditColumns(cols, e)|, i => i);
    if e.DeleteCol? && e.i < |cols| {
      from := seq(|cols| - 1, i => if i < e.i then i else i + 1);
      DeletedOrigins(cols, e.i, from);
    } else if e.MoveDown? && e.i + 1 < |cols| {
      from := seq(|cols|, i => if i == e.i then e.i + 1 else if i == e.i + 1 then e.i else i);
      SwappedOrigins(cols, e.i, from);
    }
  }

  lemma {:induction false} ColumnEditKept(cols: seq<Col>, e: ColEdit, db: Table)
    requires TracksColumns(cols, db)
    ensures TracksColumns(EditColumns(cols, e), db)
  {
    var from := ColumnEditOrigins(cols, e);
    ColumnsKept(cols, EditColumns(cols, e), from, db);
  }

  /** Tracks, as facts about the columns, the sections and the rest. */
  ghost predicate TracksRest(m: Model, db: Table) {
    && m.origName == db.name
    && Trim(m.snapshot.comment) == db.comment
    && NoDup(m.snapshot.colNames) && (forall n: string :: n in m.snapshot.colNames <==> n in db.cols)
    && m.snapshot.pkName == (if db.pk.None? then "" else db.pk.value.name)
  }

  lemma {:induction false} TracksParts(parse: string -> seq<string>, m: Model, db: Table)
    ensures Tracks(parse, m, db) <==>
            TracksRest(m, db) && TracksColumns(m.cols, db)
            && forall k: Kind | k != PkKind :: TracksSection(parse, k, NamesOf(m.snapshot, k), ItemsOf(m, k), db.objs)
  {
  }

  lemma {:induction false} EditKeepsSection(parse: string -> seq<string>, m: Model, e: Edit, db: Table, k: Kind)
    requires k != PkKind && TracksSection(parse, k, NamesOf(m.snapshot, k), ItemsOf(m, k), db.objs)
    ensures TracksSection(parse, k, NamesOf(m.snapshot, k), ItemsOf(Apply(m, e), k), db.objs)
  {
    var b := ItemsOf(Apply(m, e), k);
    if e.EditUniques? && k == UniqKind { RowEditOrigins<ObjText>(m.uniques, e.uniq); }
    if e.EditFks? && k == FkKind { RowEditOrigins<ObjText>(m.fks, e.fk); }
    if e.EditChecks? && k == ChkKind { RowEditOrigins<ObjText>(m.checks, e.chk); }
    if e.EditIndexes? && k == IdxKind { RowEditOrigins<ObjText>(m.indexes, e.idx); }
    if b != ItemsOf(m, k) {
      SectionKept(parse, k, NamesOf(m.snapshot, k), ItemsOf(m, k), b, db.objs);
    }
  }

  lemma {:induction false} EditKeepsTracking(parse: string -> seq<string>, m: Model, e: Edit, db: Table)
    requires Tracks(parse, m, db)
    ensures Tracks(parse, Apply(m, e), db)
  {
    TracksParts(parse, m, db);
    TracksParts(parse, Apply(m, e), db);
    if e.EditCols? { ColumnEditKept(m.cols, e.col, db); }
    forall k: Kind | k != PkKind
      ensures TracksSection(parse, k, NamesOf(m.snapshot, k), ItemsOf(Apply(m, e), k), db.objs)
    {
      EditKeepsSection(parse, m, e, db, k);
    }
  }

  lemma {:induction false} EditsKeepTracking(parse: string -> seq<string>, m: Model, es: seq<Edit>, db: Table)
    requires Tracks(parse, m, db)
    ensures Tracks(parse, ApplyAll(m, es), db) && ApplyAll(m, es).origName == m.origName
    decreases es
  {
    if es != [] {
      EditKeepsTracking(parse, m, es[0], db);
      EditsKeepTracking(parse, Apply(m, es[0]), es[1..], db);
    }
  }

  // ---- a loaded model tracks the described table ----

  /** An index entry that backs no key. */
  predicate Standalone(doc: Doc, i: DocIdx) {
    !i.primary && !HasKeyOf(doc.keys, PrimaryKey, i.name) && !HasKeyOf(doc.keys, UniqueKey, i.name)
  }

  predicate KeysOnce(keys: seq<DocKey>) {
    forall i, j | 0 <= i < j < |keys| && keys[i].typ == keys[j].typ && keys[i].typ in {UniqueKey, ForeignKey, CheckKey} ::
      keys[i].name != keys[j].name
  }

  predicate ColumnsOnce(cs: seq<DocCol>) {
    forall i, j | 0 <= i < j < |cs| :: cs[i].name != cs[j].name
  }

  predicate IndexesOnce(doc: Doc, indexes: seq<DocIdx>) {
    forall i, j | 0 <= i < j < |indexes| && Standalone(doc, indexes[i]) && Standalone(doc, indexes[j]) :: indexes[i].name != indexes[j].name
  }

  /** Nothing is described twice. */
  predicate DescribedOnce(doc: Doc) {
    ColumnsOnce(doc.columns) && KeysOnce(doc.keys) && IndexesOnce(doc, doc.indexes)
  }

  lemma {:induction false} ColNamesOnce(cs: seq<DocCol>)
    requires ColumnsOnce(cs)
    ensures NoDup(ColNames(cs))
  {
    if cs != [] {
      ColNamesOnce(cs[1..]);
      ColNamesAre(cs[1..], cs[0].name);
    }
  }

  lemma {:induction false} NamesCons(x: Item, rest: seq<Item>)
    requires NoDup(CurNames(rest)) && forall y | y in rest :: y.cur.name != x.cur.name
    ensures NoDup(CurNames([x] + rest))
  {
    var names := CurNames(rest);
    assert ([x] + rest)[1..] == rest;
    CurNamesContent(rest);
    forall i | 0 <= i < |names| ensures names[i] != x.cur.name { assert rest[i] in rest; }
    FreshHead(x.cur.name, names);
  }

  lemma {:induction false} FreshHead(n: string, names: seq<string>)
    requires NoDup(names) && forall i | 0 <= i < |names| :: names[i] != n
    ensures NoDup([n] + names)
  {
  }

  lemma {:induction false} UniquesOnce(keys: seq<DocKey>)
    requires KeysOnce(keys)
    ensures NoDup(CurNames(LoadUniques(keys)))
  {
    if keys != [] {
      var x, rest := Loaded(Uniq(keys[0].name, keys[0].cols)), keys[1..];
      UniquesOnce(rest);
      if keys[0].typ == UniqueKey {
        forall y | y in LoadUniques(rest) ensures y.cur.name != x.cur.name { LoadUniquesContent(rest, y); }
        NamesCons(x, LoadUniques(rest));
      } else {
        assert LoadUniques(keys) == LoadUniques(rest);
      }
    }
  }

  lemma {:induction false} FksOnce(r: Readers, keys: seq<DocKey>)
    requires KeysOnce(keys)
    ensures NoDup(CurNames(LoadFks(r, keys)))
  {
    if keys != [] {
      var x, rest := Loaded(LoadedFk(r, keys[0])), keys[1..];
      FksOnce(r, rest);
      if keys[0].typ == ForeignKey {
        forall y | y in LoadFks(r, rest) ensures y.cur.name != x.cur.name { LoadFksContent(r, rest, y); }
        NamesCons(x, LoadFks(r, rest));
      } else {
        assert LoadFks(r, keys) == LoadFks(r, rest);
      }
    }
  }

  lemma {:induction false} ChecksOnce(r: Readers, keys: seq<DocKey>)
    requires KeysOnce(keys)
    ensures NoDup(CurNames(LoadChecks(r, keys)))
  {
    if keys != [] {
      var x, rest := Loaded(Chk(keys[0].name, r.check(keys[0].def))), keys[1..];
      ChecksOnce(r, rest);
      if keys[0].typ == CheckKey {
        forall y | y in LoadChecks(r, rest) ensures y.cur.name != x.cur.name { LoadChecksContent(r, rest, y); }
        NamesCons(x, LoadChecks(r, rest));
      } else {
        assert LoadChecks(r, keys) == LoadChecks(r, rest);
      }
    }
  }

  lemma {:induction false} LoadedIndexesOnce(doc: Doc, indexes: seq<DocIdx>)
    requires IndexesOnce(doc, indexes)
    requires forall i | i in indexes && !i.primary && !Backed(doc.keys, i.name) :: Standalone(doc, i)
    ensures NoDup(CurNames(LoadIndexes(doc.keys, indexes)))
  {
    if indexes != [] {
      var i, rest := indexes[0], indexes[1..];
      var x := Loaded(Idx(i.name, i.cols, i.unique));
      LoadedIndexesOnce(doc, rest);
      if !i.primary && !Backed(doc.keys, i.name) {
        forall y | y in LoadIndexes(doc.keys, rest) ensures y.cur.name != x.cur.name {
          LoadIndexesContent(doc.keys, rest, y);
          assert i in indexes && forall z | z in rest :: z in indexes;
        }
        NamesCons(x, LoadIndexes(doc.keys, rest));
      } else {
        assert LoadIndexes(doc.keys, indexes) == LoadIndexes(doc.keys, rest);
      }
    }
  }

  lemma {:induction false} SectionFromRows(parse: string -> seq<string>, k: Kind, items: seq<Item>, objs: map<Key, Def>)
    requires AsLoaded(items) && NoDup(CurNames(items))
    requires forall i | 0 <= i < |items| ::
               var o := items[i].cur; KindOf(o) == k && KeyOf(o) in objs && objs[KeyOf(o)] == DefOf(parse, o)
    requires forall n | Key(k, n) in objs :: exists x | x in items :: x.cur.name == n
    ensures TracksSection(parse, k, CurNames(items), items, objs)
  {
    CurNamesContent(items);
    forall n: string ensures n in CurNames(items) <==> Key(k, n) in objs {
      if Key(k, n) in objs {
        var x :| x in items && x.cur.name == n;
        var i :| 0 <= i < |items| && items[i] == x;
        assert CurNames(items)[i] == n;
      }
    }
    forall i, j | 0 <= i < j < |items| ensures items[i].cur.name != items[j].cur.name {
      assert CurNames(items)[i] != CurNames(items)[j];
    }
  }

  lemma {:induction false} LoadedSection(e: Engine, parse: string -> seq<string>, r: Readers, doc: Doc, t: Table, k: Kind)
    requires LegalTable(e, t) && Describes(r, doc, t) && TableAsWritten(parse, t) && DescribedOnce(doc) && k != PkKind
    ensures TracksSection(parse, k, NamesOf(Load(r, doc).snapshot, k), ItemsOf(Load(r, doc), k), t.objs)
  {
    LoadedRowsAre(e, r, doc, t, k);
    LoadedRowsMean(e, parse, r, doc, t, k);
    SectionFromMeaning(parse, Load(r, doc), t, k);
  }

  lemma {:induction false} SectionFromMeaning(parse: string -> seq<string>, m: Model, t: Table, k: Kind)
    requires AsLoaded(ItemsOf(m, k)) && NamesOf(m.snapshot, k) == CurNames(ItemsOf(m, k)) && NoDup(CurNames(ItemsOf(m, k)))
    requires forall x | x in ItemsOf(m, k) :: KindOf(x.cur) == k && RowMeans(parse, x, t)
    requires forall n | Key(k, n) in t.objs :: exists x | x in ItemsOf(m, k) :: x.cur.name == n
    ensures TracksSection(parse, k, NamesOf(m.snapshot, k), ItemsOf(m, k), t.objs)
  {
    SectionFromRows(parse, k, ItemsOf(m, k), t.objs);
  }

  lemma {:induction false} LoadedRowsMean(e: Engine, parse: string -> seq<string>, r: Readers, doc: Doc, t: Table, k: Kind)
    requires LegalTable(e, t) && Describes(r, doc, t) && TableAsWritten(parse, t) && k != PkKind
    ensures forall x | x in ItemsOf(Load(r, doc), k) :: KindOf(x.cur) == k && RowMeans(parse, x, t)
    ensures forall n | Key(k, n) in t.objs :: exists x | x in ItemsOf(Load(r, doc), k) :: x.cur.name == n
  {
    var m := Load(r, doc);
    forall x | x in ItemsOf(m, k) ensures KindOf(x.cur) == k && RowMeans(parse, x, t) {
      RowsMean(e, parse, r, doc, t, k, x);
      SchemaObjects.ItemKinds(m, k, x);
    }
    forall n | Key(k, n) in t.objs ensures exists x | x in ItemsOf(m, k) :: x.cur.name == n {
      ObjectIsLoaded(e, parse, r, doc, t, Key(k, n));
    }
  }

  lemma {:induction false} LoadedRowsAre(e: Engine, r: Readers, doc: Doc, t: Table, k: Kind)
    requires LegalTable(e, t) && Describes(r, doc, t) && DescribedOnce(doc)
    ensures var m := Load(r, doc);
            AsLoaded(ItemsOf(m, k)) && NamesOf(m.snapshot, k) == CurNames(ItemsOf(m, k)) && NoDup(CurNames(ItemsOf(m, k)))
  {
    LoadedAsLoaded(r, doc.keys, doc.indexes);
    IndexesAsLoaded(doc.keys, doc.indexes);
    UniquesOnce(doc.keys);
    FksOnce(r, doc.keys);
    ChecksOnce(r, doc.keys);
    if k == IdxKind {
      forall i | i in doc.indexes && !i.primary && !Backed(doc.keys, i.name) ensures Standalone(doc, i) {
        KeysNamed(e, r, doc, t, i.name);
      }
      LoadedIndexesOnce(doc, doc.indexes);
    }
  }

  lemma {:induction false} ColumnsTrack(cs: seq<DocCol>, pkSet: set<string>, t: Table)
    requires NoDup(ColNames(cs)) && (forall c | c in cs :: Trim(DocColText(c).typ) != "")
    requires forall c | c in cs :: c.name in t.cols && SpecOf(DocColText(c)) == t.cols[c.name]
    requires pkSet == if t.pk.None? then {} else t.pk.value.cols
    ensures TracksColumns(LoadCols(cs, pkSet), t)
  {
    var cols := LoadCols(cs, pkSet);
    ColsContent(cs, pkSet);
    forall i, j | 0 <= i < j < |cols| ensures cols[i].orig.value.name != cols[j].orig.value.name {
      assert ColNames(cs)[i] != ColNames(cs)[j];
    }
    forall c | c in cols ensures exists d | d in cs :: c == LoadCol(d, pkSet) && c.orig == Some(DocColText(d)) {
      LoadedColsAre(cs, pkSet, c);
    }
  }

  lemma {:induction false} ColNamesAre(cs: seq<DocCol>, n: string)
    ensures n in ColNames(cs) <==> exists c | c in cs :: c.name == n
  {
    if cs != [] {
      ColNamesAre(cs[1..], n);
      assert forall c | c in cs :: c == cs[0] || c in cs[1..];
      assert cs[0] in cs && forall c | c in cs[1..] :: c in cs;
    }
  }

  lemma {:induction false} LoadedColumnsTrack(e: Engine, parse: string -> seq<string>, r: Readers, doc: Doc, t: Table)
    requires LegalTable(e, t) && Describes(r, doc, t) && DescribedOnce(doc)
    requires forall c | c in doc.columns :: Trim(DocColText(c).typ) != ""
    ensures TracksColumns(Load(r, doc).cols, t) && TracksRest(Load(r, doc), t)
  {
    PkSetRead(doc, t);
    PkNameRead(doc, t);
    ColNamesOnce(doc.columns);
    ColumnsTrack(doc.columns, PkSet(doc.keys), t);
    forall n: string ensures n in ColNames(doc.columns) <==> n in t.cols {
      ColNamesAre(doc.columns, n);
    }
  }

  lemma {:induction false} LoadTracks(e: Engine, parse: string -> seq<string>, r: Readers, doc: Doc, t: Table)
    requires LegalTable(e, t) && Describes(r, doc, t) && TableAsWritten(parse, t) && DescribedOnce(doc)
    requires forall c | c in doc.columns :: Trim(DocColText(c).typ) != ""
    ensures Tracks(parse, Load(r, doc), t)
  {
    LoadedColumnsTrack(e, parse, r, doc, t);
    forall k: Kind | k != PkKind ensures TracksSection(parse, k, NamesOf(Load(r, doc).snapshot, k), ItemsOf(Load(r, doc), k), t.objs) {
      LoadedSection(e, parse, r, doc, t, k);
    }
    TracksParts(parse, Load(r, doc), t);
  }

  /** End to end: load a described table, make any edits; if what is shown is well formed, the
      generated script turns the table into it if and only if the edit is Safe. */
  lemma {:induction false} SessionReachesShownTable(e: Engine, parse: string -> seq<string>, r: Readers, doc: Doc, t: Table, es: seq<Edit>)
    requires e != SQLite && LegalTable(e, t) && Describes(r, doc, t) && TableAsWritten(parse, t) && DescribedOnce(doc)
    requires forall c | c in doc.columns :: Trim(DocColText(c).typ) != ""
    requires WellFormedEdit(e, parse, ApplyAll(Load(r, doc), es))
    ensures var m := ApplyAll(Load(r, doc), es);
            var out := Run(e, parse, t.name, Modify(e, m), t);
            (out.Some? && Shows(e, parse, m, out.value)) <==> Safe(e, parse, m, t)
  {
    LoadTracks(e, parse, r, doc, t);
    EditsKeepTracking(parse, Load(r, doc), es, t);
    SchemaTheorem.ModifyReachesShownTable(e, parse, ApplyAll(Load(r, doc), es), t);
  }
}
