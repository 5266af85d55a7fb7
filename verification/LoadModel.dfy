/** Loading a described table into the designer. */
module LoadModel {
  import opened Text
  import opened Ddl
  import opened TableModel
  import SF = SqliteFilter

  datatype DocCol = DocCol(name: string, typeText: string, typ: string, notNull: bool, def: string)
  datatype KeyType = PrimaryKey | ForeignKey | UniqueKey | CheckKey | OtherKey
  datatype DocKey = DocKey(name: string, typ: KeyType, def: string, cols: string)
  datatype DocIdx = DocIdx(name: string, unique: bool, primary: bool, cols: string)
  datatype Doc = Doc(table: string, columns: seq<DocCol>, keys: seq<DocKey>, indexes: seq<DocIdx>, comment: string)

  /** What the definition text of a foreign key says, and the reader of such texts. */
  datatype FkRef = FkRef(table: string, cols: string, onDelete: string)
  datatype Readers = Readers(fk: string -> FkRef, check: string -> string)

  function FirstPrimary(keys: seq<DocKey>): Option<DocKey> {
    if keys == [] then None else if keys[0].typ == PrimaryKey then Some(keys[0]) else FirstPrimary(keys[1..])
  }

  function PkSet(keys: seq<DocKey>): set<string> {
    var pk := FirstPrimary(keys);
    if pk.None? then {} else set n | n in IdList(pk.value.cols)
  }

  function LoadCol(c: DocCol, pkSet: set<string>): Col {
    var t := ColText(c.name, if c.typeText != "" then c.typeText else c.typ, c.notNull, c.def);
    Col(t, c.name in pkSet, c.name in pkSet, Some(t))
  }

  function LoadCols(cs: seq<DocCol>, pkSet: set<string>): seq<Col> {
    if cs == [] then [] else [LoadCol(cs[0], pkSet)] + LoadCols(cs[1..], pkSet)
  }

  function Loaded<T>(o: T): Tracked<T> { Tracked(o, Some(o)) }

  function LoadUniques(keys: seq<DocKey>): seq<Tracked<UniqText>> {
    if keys == [] then []
    else (if keys[0].typ == UniqueKey then [Loaded(Uniq(keys[0].name, keys[0].cols))] else []) + LoadUniques(keys[1..])
  }

  function LoadFks(r: Readers, keys: seq<DocKey>): seq<Tracked<FkText>> {
    if keys == [] then []
    else
      var ref := r.fk(keys[0].def);
      (if keys[0].typ == ForeignKey then [Loaded(Fk(keys[0].name, keys[0].cols, ref.table, ref.cols, ref.onDelete))] else [])
      + LoadFks(r, keys[1..])
  }

  function LoadChecks(r: Readers, keys: seq<DocKey>): seq<Tracked<ChkText>> {
    if keys == [] then []
    else (if keys[0].typ == CheckKey then [Loaded(Chk(keys[0].name, r.check(keys[0].def)))] else []) + LoadChecks(r, keys[1..])
  }

  /** Indexes that merely back the primary key or a unique constraint are managed there. */
  predicate Backed(keys: seq<DocKey>, n: string) {
    n != "" && ((FirstPrimary(keys).Some? && FirstPrimary(keys).value.name == n)
                || exists k | k in keys :: k.typ == UniqueKey && k.name == n)
  }

  function LoadIndexes(keys: seq<DocKey>, indexes: seq<DocIdx>): seq<Tracked<IdxText>> {
    if indexes == [] then []
    else
      var i := indexes[0];
      (if !i.primary && !Backed(keys, i.name) then [Loaded(Idx(i.name, i.cols, i.unique))] else []) + LoadIndexes(keys, indexes[1..])
  }

  function CurNames(items: seq<Item>): seq<string> {
    if items == [] then [] else [items[0].cur.name] + CurNames(items[1..])
  }

  function ColNames(cs: seq<DocCol>): seq<string> {
    if cs == [] then [] else [cs[0].name] + ColNames(cs[1..])
  }

  function Load(r: Readers, doc: Doc): Model {
    var pk := FirstPrimary(doc.keys);
    var u, f := LoadUniques(doc.keys), LoadFks(r, doc.keys);
    var c, i := LoadChecks(r, doc.keys), LoadIndexes(doc.keys, doc.indexes);
    Model(doc.table, doc.comment, LoadCols(doc.columns, PkSet(doc.keys)), u, f, c, i, doc.table,
          Snapshot(if pk.None? then "" else pk.value.name, doc.comment, ColNames(doc.columns),
                   CurNames(u), CurNames(f), CurNames(c), CurNames(i)))
  }

  // ---- loading and not editing ----

  predicate AsLoaded(items: seq<Item>) {
    forall i | 0 <= i < |items| :: items[i].orig == Some(items[i].cur)
  }

  lemma {:induction false} LoadedAsLoaded(r: Readers, keys: seq<DocKey>, indexes: seq<DocIdx>)
    ensures AsLoaded(LoadUniques(keys)) && AsLoaded(LoadFks(r, keys)) && AsLoaded(LoadChecks(r, keys))
  {
    if keys != [] { LoadedAsLoaded(r, keys[1..], indexes); }
  }

  lemma {:induction false} IndexesAsLoaded(keys: seq<DocKey>, indexes: seq<DocIdx>)
    ensures AsLoaded(LoadIndexes(keys, indexes))
  {
    if indexes != [] { IndexesAsLoaded(keys, indexes[1..]); }
  }

  lemma {:induction false} CurNamesContent(items: seq<Item>)
    ensures |CurNames(items)| == |items| && forall i | 0 <= i < |items| :: CurNames(items)[i] == items[i].cur.name
  {
    if items != [] { CurNamesContent(items[1..]); }
  }

  lemma {:induction false} UneditedChanges(e: Engine, items: seq<Item>)
    requires AsLoaded(items)
    ensures ChangedNames(items) == [] && AddSection(e, items) == []
  {
    if items != [] { UneditedChanges(e, items[1..]); }
  }

  /** An unedited section asks for nothing unless one of its objects has no name. */
  lemma {:induction false} UneditedSection(e: Engine, k: Kind, items: seq<Item>)
    requires AsLoaded(items)
    ensures DropSection(e, k, CurNames(items), items) == [] <==> (e == SQLite && k != IdxKind) || "" !in CurNames(items)
  {
    CurNamesContent(items);
    UneditedChanges(e, items);
    SF.NoRemoved(CurNames(items), items);
    forall n | n in CurNames(items) ensures LiveOrig(items, n) <==> n != "" {
      var i :| 0 <= i < |items| && CurNames(items)[i] == n;
      assert items[i] in items && items[i].orig.Some? && items[i].orig.value.name == n;
    }
  }

  lemma {:induction false} TrimEndIdem(s: string)
    ensures TrimEnd(TrimEnd(s)) == TrimEnd(s)
    ensures s != "" && !IsSpace(s[0]) ==> TrimEnd(s) != "" && TrimEnd(s)[0] == s[0]
  {
    if s != "" && IsSpace(s[|s| - 1]) { TrimEndIdem(s[..|s| - 1]); }
  }

  lemma {:induction false} TrimStartHead(s: string)
    ensures TrimStart(s) == "" || !IsSpace(TrimStart(s)[0])
  {
    if s != "" && IsSpace(s[0]) { TrimStartHead(s[1..]); }
  }

  lemma {:induction false} TrimIdem(s: string)
    ensures Trim(Trim(s)) == Trim(s)
  {
    TrimStartHead(s);
    TrimEndIdem(TrimStart(s));
  }

  lemma {:induction false} KeptAreLive(parts: seq<string>)
    ensures forall n | n in Kept(parts) :: LiveName(n)
  {
    if parts != [] {
      KeptAreLive(parts[1..]);
      TrimIdem(parts[0]);
    }
  }

  lemma {:induction false} UneditedColumns(e: Engine, cs: seq<DocCol>, pkSet: set<string>)
    requires forall n | n in pkSet :: LiveName(n)
    ensures var cols := LoadCols(cs, pkSet);
            AddColumns(cols) == [] && AlterColumns(e, cols) == [] && PkNames(cols) == OrigPkNames(cols)
  {
    if cs != [] {
      UneditedColumns(e, cs[1..], pkSet);
      var cols := LoadCols(cs, pkSet);
      assert cols[1..] == LoadCols(cs[1..], pkSet);
      assert AlterOne(e, cols[0]) == [];
    }
  }

  lemma {:induction false} ColsContent(cs: seq<DocCol>, pkSet: set<string>)
    ensures |LoadCols(cs, pkSet)| == |cs| == |ColNames(cs)|
    ensures forall i | 0 <= i < |cs| :: LoadCols(cs, pkSet)[i] == LoadCol(cs[i], pkSet) && ColNames(cs)[i] == cs[i].name
  {
    if cs != [] { ColsContent(cs[1..], pkSet); }
  }

  lemma {:induction false} UneditedColumnDrops(names: seq<string>, cols: seq<Col>)
    ensures RemovedCols(names, cols) == [] <==> forall n | n in names :: LiveCol(cols, n)
  {
    if names != [] {
      UneditedColumnDrops(names[1..], cols);
      assert forall n | n in names :: n == names[0] || n in names[1..];
      assert names[0] in names && forall n | n in names[1..] :: n in names;
    }
  }

  lemma {:induction false} LoadedColumnsLive(doc: Doc)
    ensures var cols := LoadCols(doc.columns, PkSet(doc.keys));
            (forall n | n in ColNames(doc.columns) :: LiveCol(cols, n)) <==> "" !in ColNames(doc.columns)
  {
    var cols := LoadCols(doc.columns, PkSet(doc.keys));
    ColsContent(doc.columns, PkSet(doc.keys));
    forall n | n in ColNames(doc.columns) ensures LiveCol(cols, n) <==> n != "" {
      var i :| 0 <= i < |doc.columns| && ColNames(doc.columns)[i] == n;
      assert cols[i] in cols;
    }
  }

  /** Every object of the table has a name (constraints matter only where they can be dropped). */
  predicate AllNamed(e: Engine, m: Model) {
    && "" !in m.snapshot.colNames && "" !in m.snapshot.indexNames
    && (e != SQLite ==> "" !in m.snapshot.uniqueNames && "" !in m.snapshot.fkNames && "" !in m.snapshot.checkNames)
  }

  lemma {:induction false} UneditedDrops(e: Engine, r: Readers, doc: Doc)
    ensures var m := Load(r, doc);
            var s := m.snapshot;
            Drops(e, m) == [] <==> "" !in s.indexNames && (e != SQLite ==> "" !in s.uniqueNames && "" !in s.fkNames && "" !in s.checkNames)
    ensures !PkColsChanged(Load(r, doc))
  {
    var m := Load(r, doc);
    var s := m.snapshot;
    UneditedPk(e, r, doc);
    LoadedAsLoaded(r, doc.keys, doc.indexes);
    IndexesAsLoaded(doc.keys, doc.indexes);
    UneditedSection(e, UniqKind, m.uniques);
    UneditedSection(e, FkKind, m.fks);
    UneditedSection(e, ChkKind, m.checks);
    UneditedSection(e, IdxKind, m.indexes);
    var u, f := DropSection(e, UniqKind, s.uniqueNames, m.uniques), DropSection(e, FkKind, s.fkNames, m.fks);
    var c, i := DropSection(e, ChkKind, s.checkNames, m.checks), DropSection(e, IdxKind, s.indexNames, m.indexes);
    assert |Drops(e, m)| == |u| + |f| + |c| + |i|;
  }

  lemma {:induction false} UneditedPk(e: Engine, r: Readers, doc: Doc)
    ensures !PkColsChanged(Load(r, doc))
  {
    var pk := FirstPrimary(doc.keys);
    if pk.Some? { KeptAreLive(Split(pk.value.cols, ',')); }
    UneditedColumns(e, doc.columns, PkSet(doc.keys));
  }

  lemma {:induction false} UneditedAdds(e: Engine, r: Readers, doc: Doc)
    ensures Adds(e, Load(r, doc)) == []
  {
    var m := Load(r, doc);
    UneditedPk(e, r, doc);
    LoadedAsLoaded(r, doc.keys, doc.indexes);
    IndexesAsLoaded(doc.keys, doc.indexes);
    UneditedChanges(e, m.uniques);
    UneditedChanges(e, m.fks);
    UneditedChanges(e, m.checks);
    UneditedChanges(e, m.indexes);
  }

  /** Loading a table and editing nothing gives an empty script, on every engine, exactly when
      everything the engine could drop has a name. */
  lemma {:induction false} UneditedModelIsClean(e: Engine, r: Readers, doc: Doc)
    ensures Modify(e, Load(r, doc)) == [] <==> AllNamed(e, Load(r, doc))
  {
    var m := Load(r, doc);
    var pk := FirstPrimary(doc.keys);
    if pk.Some? { KeptAreLive(Split(pk.value.cols, ',')); }
    UneditedColumns(e, doc.columns, PkSet(doc.keys));
    UneditedDrops(e, r, doc);
    UneditedAdds(e, r, doc);
    UneditedColumnDrops(m.snapshot.colNames, m.cols);
    LoadedColumnsLive(doc);
    var gone := DropColumns(RemovedCols(m.snapshot.colNames, m.cols));
    assert |Modify(e, m)| == |Drops(e, m)| + |gone|;
  }
}
