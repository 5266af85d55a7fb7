/** Describing a table and loading the description shows the same table. */
module DescribeTable {
  import opened Text
  import opened Ddl
  import opened TableModel
  import opened ColumnPhases
  import opened SchemaDiff
  import opened LoadModel
  import opened CreateTable
  import OP = ObjectPhases
  import SchemaObjects
  import SchemaKeys

  /** A name that survives being written into a comma-separated list. */
  predicate Printable(n: string) {
    n != "" && ',' !in n && Trim(n) == n
  }

  predicate AllPrintable(names: seq<string>) {
    forall n | n in names :: Printable(n)
  }

  lemma {:induction false} IdListOne(n: string, c: string)
    requires Printable(n) && (c == "" || c == " ")
    ensures Kept(Split(c + n, ',')) == [n]
  {
    SplitWhole(c + n, ',');
    if c == " " { TrimPadded(n, ' '); } else { assert c + n == n; }
    assert [c + n][1..] == [];
  }

  lemma {:induction false} Respaced(c: string, n: string, more: string)
    ensures c + (n + ", " + more) == (c + n) + [','] + (" " + more)
  {
  }

  lemma {:induction false} IdListCons(n: string, c: string, more: string)
    requires Printable(n) && (c == "" || c == " ")
    ensures IdList(c + (n + ", " + more)) == [n] + IdList(" " + more)
  {
    Respaced(c, n, more);
    SplitAtSeparator(c + n, ',', " " + more);
    KeptConcat(Split(c + n, ','), Split(" " + more, ','));
    IdListOne(n, c);
  }

  lemma {:induction false} IdListJoinedFrom(names: seq<string>, c: string)
    requires names != [] && AllPrintable(names) && (c == "" || c == " ")
    ensures IdList(c + Join(names, ", ")) == names
  {
    var n, rest := names[0], names[1..];
    assert n in names && forall x | x in rest :: x in names;
    if rest == [] {
      IdListOne(n, c);
      assert names == [n];
    } else {
      IdListCons(n, c, Join(rest, ", "));
      IdListJoinedFrom(rest, " ");
      assert names == [n] + rest;
    }
  }

  /** The designer reads back every printed list of printable names. */
  lemma {:induction false} IdListJoined(names: seq<string>)
    requires AllPrintable(names)
    ensures IdList(Join(names, ", ")) == names
  {
    if names == [] {
      assert Split("", ',') == [""];
      assert Kept([""]) == [];
    } else {
      IdListJoinedFrom(names, "");
      assert "" + Join(names, ", ") == Join(names, ", ");
    }
  }

  // ---- a description of a table ----

  function DocColText(c: DocCol): ColText {
    ColText(c.name, if c.typeText != "" then c.typeText else c.typ, c.notNull, c.def)
  }

  predicate DescribesKey(r: Readers, k: DocKey, t: Table) {
    match k.typ
    case PrimaryKey => true
    case OtherKey => true
    case UniqueKey =>
      var key := Key(UniqKind, k.name);
      key in t.objs && t.objs[key].UniqueDef? && k.cols == Join(t.objs[key].refs, ", ")
    case ForeignKey =>
      var key := Key(FkKind, k.name);
      key in t.objs && t.objs[key].ForeignDef? && k.cols == Join(t.objs[key].refs, ", ")
      && r.fk(k.def) == FkRef(t.objs[key].refTable, Join(t.objs[key].refCols, ", "), t.objs[key].onDelete)
    case CheckKey =>
      var key := Key(ChkKind, k.name);
      key in t.objs && t.objs[key].CheckDef? && r.check(k.def) == t.objs[key].text
  }

  predicate HasKeyOf(keys: seq<DocKey>, typ: KeyType, n: string) {
    exists k | k in keys :: k.typ == typ && k.name == n
  }

  predicate HasIndexOf(indexes: seq<DocIdx>, n: string) {
    exists i | i in indexes :: !i.primary && i.name == n
  }

  /** An index entry backs the primary key, backs a unique constraint, or is an index of the table. */
  predicate DescribesIndex(doc: Doc, i: DocIdx, t: Table) {
    || i.primary
    || HasKeyOf(doc.keys, PrimaryKey, i.name) || HasKeyOf(doc.keys, UniqueKey, i.name)
    || (Key(IdxKind, i.name) in t.objs && t.objs[Key(IdxKind, i.name)].IndexDef?
        && i.cols == t.objs[Key(IdxKind, i.name)].text && i.unique == t.objs[Key(IdxKind, i.name)].unique)
  }

  ghost predicate Prints(text: string, cols: set<string>) {
    exists order: seq<string> :: (set n | n in order) == cols && AllPrintable(order) && text == Join(order, ", ")
  }

  /** A primary key entry is there exactly if the table has a key, and carries its name and columns. */
  ghost predicate DescribesPk(doc: Doc, t: Table) {
    && (t.pk.Some? <==> exists k :: k in doc.keys && k.typ == PrimaryKey)
    && (forall k | k in doc.keys && k.typ == PrimaryKey :: t.pk.Some? && k.name == t.pk.value.name && Prints(k.cols, t.pk.value.cols))
  }

  lemma {:induction false} FirstPrimaryIs(keys: seq<DocKey>)
    ensures FirstPrimary(keys).Some? <==> exists k :: k in keys && k.typ == PrimaryKey
    ensures FirstPrimary(keys).Some? ==> FirstPrimary(keys).value in keys && FirstPrimary(keys).value.typ == PrimaryKey
  {
    if keys != [] {
      FirstPrimaryIs(keys[1..]);
      assert forall k | k in keys :: k == keys[0] || k in keys[1..];
      assert keys[0] in keys && forall k | k in keys[1..] :: k in keys;
    }
  }

  /** `doc` describes `t` completely, printing column lists with ", ". */
  ghost predicate Describes(r: Readers, doc: Doc, t: Table) {
    && doc.table == t.name && Trim(doc.comment) == t.comment
    && (forall c | c in doc.columns :: c.name in t.cols && SpecOf(DocColText(c)) == t.cols[c.name])
    && (forall n | n in t.cols :: exists c | c in doc.columns :: c.name == n)
    && DescribesPk(doc, t)
    && (forall k | k in doc.keys :: DescribesKey(r, k, t))
    && (forall i | i in doc.indexes :: DescribesIndex(doc, i, t))
    && (forall k | k in t.objs ::
          match k.kind
          case PkKind => true
          case UniqKind => HasKeyOf(doc.keys, UniqueKey, k.name)
          case FkKind => HasKeyOf(doc.keys, ForeignKey, k.name)
          case ChkKind => HasKeyOf(doc.keys, CheckKey, k.name)
          case IdxKind => HasIndexOf(doc.indexes, k.name))
  }

  /** Texts are stored as written: trimmed, bound to the columns they mention, over printable names. */
  predicate AsWritten(parse: string -> seq<string>, k: Key, d: Def) {
    match d
    case UniqueDef(refs) => k.kind == UniqKind && AllPrintable(refs) && refs != []
    case ForeignDef(refs, refTable, refCols, _) =>
      k.kind == FkKind && AllPrintable(refs) && refs != [] && AllPrintable(refCols) && Trim(refTable) == refTable && refTable != ""
    case CheckDef(refs, text) => k.kind == ChkKind && Trim(text) == text && refs == parse(text) && text != ""
    case IndexDef(refs, text, _) => k.kind == IdxKind && Trim(text) == text && refs == parse(text) && text != ""
  }

  ghost predicate TableAsWritten(parse: string -> seq<string>, t: Table) {
    && (forall k | k in t.objs :: AsWritten(parse, k, t.objs[k]))
    && (forall n | n in t.cols :: LiveName(n))
  }

  // ---- what is loaded ----

  lemma {:induction false} LoadUniquesContent(keys: seq<DocKey>, x: Item)
    ensures x in LoadUniques(keys) <==> exists k | k in keys :: k.typ == UniqueKey && x == Loaded(Uniq(k.name, k.cols))
  {
    if keys != [] {
      LoadUniquesContent(keys[1..], x);
      assert forall k | k in keys :: k == keys[0] || k in keys[1..];
      assert keys[0] in keys && forall k | k in keys[1..] :: k in keys;
    }
  }

  function LoadedFk(r: Readers, k: DocKey): ObjText {
    Fk(k.name, k.cols, r.fk(k.def).table, r.fk(k.def).cols, r.fk(k.def).onDelete)
  }

  lemma {:induction false} LoadFksContent(r: Readers, keys: seq<DocKey>, x: Item)
    ensures x in LoadFks(r, keys) <==> exists k | k in keys :: k.typ == ForeignKey && x == Loaded(LoadedFk(r, k))
  {
    if keys != [] {
      LoadFksContent(r, keys[1..], x);
      assert forall k | k in keys :: k == keys[0] || k in keys[1..];
      assert keys[0] in keys && forall k | k in keys[1..] :: k in keys;
    }
  }

  lemma {:induction false} LoadChecksContent(r: Readers, keys: seq<DocKey>, x: Item)
    ensures x in LoadChecks(r, keys) <==> exists k | k in keys :: k.typ == CheckKey && x == Loaded(Chk(k.name, r.check(k.def)))
  {
    if keys != [] {
      LoadChecksContent(r, keys[1..], x);
      assert forall k | k in keys :: k == keys[0] || k in keys[1..];
      assert keys[0] in keys && forall k | k in keys[1..] :: k in keys;
    }
  }

  lemma {:induction false} LoadIndexesContent(keys: seq<DocKey>, indexes: seq<DocIdx>, x: Item)
    ensures x in LoadIndexes(keys, indexes) <==>
            exists i | i in indexes :: !i.primary && !Backed(keys, i.name) && x == Loaded(Idx(i.name, i.cols, i.unique))
  {
    if indexes != [] {
      LoadIndexesContent(keys, indexes[1..], x);
      assert forall i | i in indexes :: i == indexes[0] || i in indexes[1..];
      assert indexes[0] in indexes && forall i | i in indexes[1..] :: i in indexes;
    }
  }

  /** A loaded row means the object it was described from. */
  predicate RowMeans(parse: string -> seq<string>, x: Item, t: Table) {
    Denoted(x) && KeyOf(x.cur) in t.objs && t.objs[KeyOf(x.cur)] == DefOf(parse, x.cur)
  }

  lemma {:induction false} JoinedLive(names: seq<string>)
    requires names != [] && AllPrintable(names)
    ensures Trim(Join(names, ", ")) != ""
  {
    var s := Join(names, ", ");
    IdListJoined(names);
    IdListJoined([]);
    if Trim(s) == Trim("") { IdListTrimmed(s, ""); }
  }

  lemma {:induction false} UniqueMeans(parse: string -> seq<string>, r: Readers, k: DocKey, t: Table)
    requires k.typ == UniqueKey && DescribesKey(r, k, t) && TableAsWritten(parse, t)
    ensures RowMeans(parse, Loaded(Uniq(k.name, k.cols)), t)
  {
    var d := t.objs[Key(UniqKind, k.name)];
    assert AsWritten(parse, Key(UniqKind, k.name), d);
    IdListJoined(d.refs);
    JoinedLive(d.refs);
  }

  lemma {:induction false} ForeignMeans(parse: string -> seq<string>, r: Readers, k: DocKey, t: Table)
    requires k.typ == ForeignKey && DescribesKey(r, k, t) && TableAsWritten(parse, t)
    ensures RowMeans(parse, Loaded(LoadedFk(r, k)), t)
  {
    var d := t.objs[Key(FkKind, k.name)];
    assert AsWritten(parse, Key(FkKind, k.name), d);
    IdListJoined(d.refs);
    IdListJoined(d.refCols);
    JoinedLive(d.refs);
  }

  lemma {:induction false} CheckMeans(parse: string -> seq<string>, r: Readers, k: DocKey, t: Table)
    requires k.typ == CheckKey && DescribesKey(r, k, t) && TableAsWritten(parse, t)
    ensures RowMeans(parse, Loaded(Chk(k.name, r.check(k.def))), t)
  {
    assert AsWritten(parse, Key(ChkKind, k.name), t.objs[Key(ChkKind, k.name)]);
  }

  lemma {:induction false} IndexMeans(parse: string -> seq<string>, doc: Doc, i: DocIdx, t: Table)
    requires DescribesIndex(doc, i, t) && TableAsWritten(parse, t) && !i.primary && !Backed(doc.keys, i.name)
    requires !HasKeyOf(doc.keys, PrimaryKey, i.name) && !HasKeyOf(doc.keys, UniqueKey, i.name)
    ensures RowMeans(parse, Loaded(Idx(i.name, i.cols, i.unique)), t)
  {
    assert AsWritten(parse, Key(IdxKind, i.name), t.objs[Key(IdxKind, i.name)]);
  }

  /** Every loaded row means an object of the table. */
  lemma {:induction false} RowsMean(e: Engine, parse: string -> seq<string>, r: Readers, doc: Doc, t: Table, k: Kind, x: Item)
    requires LegalTable(e, t) && Describes(r, doc, t) && TableAsWritten(parse, t) && x in ItemsOf(Load(r, doc), k)
    ensures RowMeans(parse, x, t)
  {
    match k
    case PkKind =>
    case UniqKind =>
      LoadUniquesContent(doc.keys, x);
      var d :| d in doc.keys && d.typ == UniqueKey && x == Loaded(Uniq(d.name, d.cols));
      UniqueMeans(parse, r, d, t);
    case FkKind =>
      LoadFksContent(r, doc.keys, x);
      var d :| d in doc.keys && d.typ == ForeignKey && x == Loaded(LoadedFk(r, d));
      ForeignMeans(parse, r, d, t);
    case ChkKind =>
      LoadChecksContent(r, doc.keys, x);
      var d :| d in doc.keys && d.typ == CheckKey && x == Loaded(Chk(d.name, r.check(d.def)));
      CheckMeans(parse, r, d, t);
    case IdxKind =>
      LoadIndexesContent(doc.keys, doc.indexes, x);
      var i :| i in doc.indexes && !i.primary && !Backed(doc.keys, i.name) && x == Loaded(Idx(i.name, i.cols, i.unique));
      KeysNamed(e, r, doc, t, i.name);
      IndexMeans(parse, doc, i, t);
  }

  lemma {:induction false} KeysNamed(e: Engine, r: Readers, doc: Doc, t: Table, n: string)
    requires LegalTable(e, t) && Describes(r, doc, t) && !Backed(doc.keys, n)
    ensures !HasKeyOf(doc.keys, PrimaryKey, n) && !HasKeyOf(doc.keys, UniqueKey, n)
  {
    FirstPrimaryIs(doc.keys);
    forall k | k in doc.keys && k.typ == UniqueKey ensures k.name != "" {
      assert DescribesKey(r, k, t);
    }
  }

  /** Every object of the table is loaded into some row. */
  lemma {:induction false} ObjectIsLoaded(e: Engine, parse: string -> seq<string>, r: Readers, doc: Doc, t: Table, key: Key)
    requires LegalTable(e, t) && Describes(r, doc, t) && key in t.objs
    ensures exists x | x in ItemsOf(Load(r, doc), key.kind) :: x.cur.name == key.name
  {
    match key.kind
    case PkKind =>
    case UniqKind =>
      var k :| k in doc.keys && k.typ == UniqueKey && k.name == key.name;
      LoadUniquesContent(doc.keys, Loaded(Uniq(k.name, k.cols)));
    case FkKind =>
      var k :| k in doc.keys && k.typ == ForeignKey && k.name == key.name;
      LoadFksContent(r, doc.keys, Loaded(LoadedFk(r, k)));
    case ChkKind =>
      var k :| k in doc.keys && k.typ == CheckKey && k.name == key.name;
      LoadChecksContent(r, doc.keys, Loaded(Chk(k.name, r.check(k.def))));
    case IdxKind =>
      var i :| i in doc.indexes && !i.primary && i.name == key.name;
      IndexNotBacked(e, r, doc, t, key);
      LoadIndexesContent(doc.keys, doc.indexes, Loaded(Idx(i.name, i.cols, i.unique)));
  }

  /** The name of a standalone index belongs to no key. */
  lemma {:induction false} IndexNotBacked(e: Engine, r: Readers, doc: Doc, t: Table, key: Key)
    requires LegalTable(e, t) && Describes(r, doc, t) && key in t.objs && key.kind == IdxKind
    ensures !Backed(doc.keys, key.name)
  {
    FirstPrimaryIs(doc.keys);
    assert Holds(t, Key(IdxKind, key.name));
    assert !Holds(t, Key(PkKind, key.name)) && !Holds(t, Key(UniqKind, key.name));
    forall k | k in doc.keys && k.typ == UniqueKey ensures k.name != key.name {
      assert DescribesKey(r, k, t);
    }
  }

  lemma {:induction false} ObjectsLoaded(e: Engine, parse: string -> seq<string>, r: Readers, doc: Doc, t: Table, key: Key, d: Def)
    requires LegalTable(e, t) && Describes(r, doc, t) && TableAsWritten(parse, t)
    ensures OP.HasObj(t.objs, key, d) <==> ShownObj(parse, Load(r, doc), key, d)
  {
    var m := Load(r, doc);
    forall x | x in ItemsOf(m, key.kind) ensures RowMeans(parse, x, t) && KindOf(x.cur) == key.kind {
      RowsMean(e, parse, r, doc, t, key.kind, x);
      SchemaObjects.ItemKinds(m, key.kind, x);
    }
    if key in t.objs {
      ObjectIsLoaded(e, parse, r, doc, t, key);
      var x :| x in ItemsOf(m, key.kind) && x.cur.name == key.name;
      assert KeyOf(x.cur) == key;
    }
  }

  lemma {:induction false} LoadedColsAre(cs: seq<DocCol>, pkSet: set<string>, c: Col)
    ensures c in LoadCols(cs, pkSet) <==> exists d | d in cs :: c == LoadCol(d, pkSet)
  {
    if cs != [] {
      LoadedColsAre(cs[1..], pkSet, c);
      assert forall d | d in cs :: d == cs[0] || d in cs[1..];
      assert cs[0] in cs && forall d | d in cs[1..] :: d in cs;
    }
  }

  ghost predicate DescribesColumns(cs: seq<DocCol>, cm: map<string, ColSpec>) {
    && (forall c | c in cs :: c.name in cm && SpecOf(DocColText(c)) == cm[c.name])
    && (forall n | n in cm :: LiveName(n) && exists c | c in cs :: c.name == n)
  }

  lemma {:induction false} ColumnsLoaded(cs: seq<DocCol>, pkSet: set<string>, cm: map<string, ColSpec>, n: string, s: ColSpec)
    requires DescribesColumns(cs, cm)
    ensures HasCol(cm, n, s) <==> ShownCol(LoadCols(cs, pkSet), n, s)
  {
    var cols := LoadCols(cs, pkSet);
    if c :| c in cols && LiveName(c.cur.name) && c.cur.name == n && SpecOf(c.cur) == s {
      LoadedColsAre(cs, pkSet, c);
    }
    if HasCol(cm, n, s) {
      var d :| d in cs && d.name == n;
      LoadedColsAre(cs, pkSet, LoadCol(d, pkSet));
      assert LoadCol(d, pkSet).cur == DocColText(d);
    }
  }

  lemma {:induction false} PkColsLoaded(cs: seq<DocCol>, pkSet: set<string>, cm: map<string, ColSpec>, n: string)
    requires DescribesColumns(cs, cm) && pkSet <= cm.Keys
    ensures n in PkNames(LoadCols(cs, pkSet)) <==> n in pkSet
  {
    var cols := LoadCols(cs, pkSet);
    SchemaKeys.PkNamesContent(cols, n);
    if c :| c in cols && c.pk && LiveName(c.cur.name) && c.cur.name == n { LoadedColsAre(cs, pkSet, c); }
    if n in pkSet {
      var d :| d in cs && d.name == n;
      LoadedColsAre(cs, pkSet, LoadCol(d, pkSet));
      assert LoadCol(d, pkSet).pk && LiveName(n);
    }
  }

  lemma {:induction false} PkNamesLoaded(cs: seq<DocCol>, pkSet: set<string>, cm: map<string, ColSpec>)
    requires DescribesColumns(cs, cm) && pkSet <= cm.Keys
    ensures var names := PkNames(LoadCols(cs, pkSet)); (set n | n in names) == pkSet && (names == [] <==> pkSet == {})
  {
    var names := PkNames(LoadCols(cs, pkSet));
    forall n ensures n in names <==> n in pkSet {
      PkColsLoaded(cs, pkSet, cm, n);
    }
    if names != [] { assert names[0] in pkSet; }
  }

  lemma {:induction false} PkLoaded(e: Engine, r: Readers, doc: Doc, t: Table)
    requires DescribesColumns(doc.columns, t.cols) && DescribesPk(doc, t)
    requires t.pk.Some? ==> t.pk.value.name != "" && t.pk.value.cols != {} && t.pk.value.cols <= t.cols.Keys
    requires e == MySQL && t.pk.Some? ==> t.pk.value.name == "PRIMARY"
    ensures t.pk == ShownPk(e, Load(r, doc))
  {
    PkSetRead(doc, t);
    PkNameRead(doc, t);
    PkNamesLoaded(doc.columns, PkSet(doc.keys), t.cols);
  }

  lemma {:induction false} PkNameRead(doc: Doc, t: Table)
    requires DescribesPk(doc, t)
    ensures FirstPrimary(doc.keys).Some? <==> t.pk.Some?
    ensures t.pk.Some? ==> FirstPrimary(doc.keys).value.name == t.pk.value.name
  {
    FirstPrimaryIs(doc.keys);
  }

  lemma {:induction false} PkSetRead(doc: Doc, t: Table)
    requires DescribesPk(doc, t)
    ensures PkSet(doc.keys) == if t.pk.None? then {} else t.pk.value.cols
  {
    PkNameRead(doc, t);
    FirstPrimaryIs(doc.keys);
    var pk := FirstPrimary(doc.keys);
    if pk.Some? {
      var order: seq<string> :| (set n | n in order) == t.pk.value.cols && AllPrintable(order) && pk.value.cols == Join(order, ", ");
      IdListJoined(order);
    }
  }

  /** Loading a complete description shows exactly the described table. */
  lemma {:induction false} DescriptionLoadsBack(e: Engine, parse: string -> seq<string>, r: Readers, doc: Doc, t: Table)
    requires LegalTable(e, t) && Describes(r, doc, t) && TableAsWritten(parse, t)
    ensures Shows(e, parse, Load(r, doc), t)
  {
    PkLoaded(e, r, doc, t);
    forall n: string, s: ColSpec ensures HasCol(t.cols, n, s) <==> ShownCol(Load(r, doc).cols, n, s) {
      ColumnsLoaded(doc.columns, PkSet(doc.keys), t.cols, n, s);
    }
    forall k: Key, d: Def ensures OP.HasObj(t.objs, k, d) <==> ShownObj(parse, Load(r, doc), k, d) {
      ObjectsLoaded(e, parse, r, doc, t, k, d);
    }
  }

  // ---- create, describe, load ----

  /** A new table's texts are stored as they were written. */
  ghost predicate PrintableModel(parse: string -> seq<string>, m: Model) {
    forall k: Kind, x | x in ItemsOf(m, k) && ToAdd(x) ::
      match x.cur
      case Uniq(_, cols) => AllPrintable(IdList(cols))
      case Fk(_, cols, _, refCols, _) => AllPrintable(IdList(cols)) && AllPrintable(IdList(refCols))
      case Chk(_, _) => true
      case Idx(_, _, _) => true
  }

  lemma {:induction false} WrittenOne(e: Engine, parse: string -> seq<string>, m: Model, k: Key, d: Def)
    requires WellFormedEdit(e, parse, m) && IsFresh(m) && PrintableModel(parse, m) && ShownObj(parse, m, k, d)
    ensures AsWritten(parse, k, d)
  {
    var x :| x in ItemsOf(m, k.kind) && Denoted(x) && x.cur.name == k.name && DefOf(parse, x.cur) == d;
    SchemaObjects.ItemKinds(m, k.kind, x);
    assert ToAdd(x) && !Blank(x.cur) && Complete(d);
    match x.cur
    case Uniq(_, cols) =>
    case Fk(_, _, refTable, _, _) => TrimIdem(refTable);
    case Chk(_, expr) => TrimIdem(expr);
    case Idx(_, cols, _) => TrimIdem(cols);
  }

  lemma {:induction false} CreatedIsWritten(e: Engine, parse: string -> seq<string>, m: Model, t: Table)
    requires WellFormedEdit(e, parse, m) && IsFresh(m) && PrintableModel(parse, m) && Shows(e, parse, m, t)
    ensures TableAsWritten(parse, t)
  {
    forall k | k in t.objs ensures AsWritten(parse, k, t.objs[k]) {
      assert OP.HasObj(t.objs, k, t.objs[k]);
      WrittenOne(e, parse, m, k, t.objs[k]);
    }
    forall n | n in t.cols ensures LiveName(n) {
      assert HasCol(t.cols, n, t.cols[n]);
    }
  }

  lemma {:induction false} CreatedIsLegal(e: Engine, parse: string -> seq<string>, m: Model, t: Table)
    requires e != SQLite && WellFormedEdit(e, parse, m) && IsFresh(m) && Shows(e, parse, m, t)
    ensures LegalTable(e, t)
  {
    forall n | n in t.cols ensures n != "" && t.cols[n].typ != "" {
      assert HasCol(t.cols, n, t.cols[n]);
    }
    forall k | k in t.objs ensures k.kind != PkKind && k.name != "" && RefsExist(t.objs[k], t.cols) {
      ShownIsLegal(e, parse, m, t, k);
    }
    if t.pk.Some? { CreatedPkLegal(e, parse, m, t); }
    forall a: Kind, b: Kind, n: string | a != b && SameSpace(e, a, b) && Holds(t, Key(a, n)) ensures !Holds(t, Key(b, n)) {
      NamesApart(e, parse, m, t, a, b, n);
    }
  }

  lemma {:induction false} ShownIsLegal(e: Engine, parse: string -> seq<string>, m: Model, t: Table, k: Key)
    requires WellFormedEdit(e, parse, m) && IsFresh(m) && Shows(e, parse, m, t) && k in t.objs
    ensures k.kind != PkKind && k.name != "" && RefsExist(t.objs[k], t.cols)
  {
    assert OP.HasObj(t.objs, k, t.objs[k]);
    var x :| x in ItemsOf(m, k.kind) && Denoted(x) && x.cur.name == k.name && DefOf(parse, x.cur) == t.objs[k];
    assert ToAdd(x);
    forall r | r in t.objs[k].refs ensures r in t.cols {
      var c :| c in m.cols && LiveName(c.cur.name) && c.cur.name == r;
      assert HasCol(t.cols, r, SpecOf(c.cur));
    }
  }

  lemma {:induction false} CreatedPkLegal(e: Engine, parse: string -> seq<string>, m: Model, t: Table)
    requires e != SQLite && WellFormedEdit(e, parse, m) && IsFresh(m) && Shows(e, parse, m, t) && t.pk.Some?
    ensures t.pk.value.name == ShownPkName(e, m) != "" && t.pk.value.cols != {} && t.pk.value.cols <= t.cols.Keys
  {
    assert PkNames(m.cols)[0] in t.pk.value.cols;
    forall n | n in t.pk.value.cols ensures n in t.cols {
      SchemaKeys.PkNamesContent(m.cols, n);
      var c :| c in m.cols && c.pk && LiveName(c.cur.name) && c.cur.name == n;
      assert HasCol(t.cols, n, SpecOf(c.cur));
    }
  }

  predicate ShownHolder(e: Engine, m: Model, k: Kind, n: string) {
    if k == PkKind then PkNames(m.cols) != [] && ShownPkName(e, m) == n
    else exists x | x in ItemsOf(m, k) :: Denoted(x) && x.cur.name == n
  }

  lemma {:induction false} HolderShown(e: Engine, parse: string -> seq<string>, m: Model, t: Table, k: Kind, n: string)
    requires Shows(e, parse, m, t) && Holds(t, Key(k, n))
    ensures ShownHolder(e, m, k, n)
  {
    if k != PkKind { assert OP.HasObj(t.objs, Key(k, n), t.objs[Key(k, n)]); }
  }

  lemma {:induction false} NamesApart(e: Engine, parse: string -> seq<string>, m: Model, t: Table, a: Kind, b: Kind, n: string)
    requires WellFormedEdit(e, parse, m) && Shows(e, parse, m, t) && a != b && SameSpace(e, a, b) && Holds(t, Key(a, n))
    ensures !Holds(t, Key(b, n))
  {
    HolderShown(e, parse, m, t, a, n);
    if Holds(t, Key(b, n)) {
      HolderShown(e, parse, m, t, b, n);
      assert SameSpace(e, b, a);
      ShownApart(e, parse, m, a, b, n);
    }
  }

  lemma {:induction false} ShownApart(e: Engine, parse: string -> seq<string>, m: Model, a: Kind, b: Kind, n: string)
    requires WellFormedEdit(e, parse, m) && a != b && SameSpace(e, a, b) && SameSpace(e, b, a) && ShownHolder(e, m, a, n)
    ensures !ShownHolder(e, m, b, n)
  {
  }

  /** On Postgres and MySQL: create a well-formed table with printable names, describe it, load the
      description. The loaded model and the original one show the same table. */
  lemma {:induction false} CreateDescribeLoad(e: Engine, parse: string -> seq<string>, r: Readers, m: Model, doc: Doc)
    requires e != SQLite && WellFormedEdit(e, parse, m) && IsFresh(m) && PrintableModel(parse, m)
    requires var t := RunCreate(e, parse, Create(e, m)); t.Some? ==> Describes(r, doc, t.value)
    ensures var t := RunCreate(e, parse, Create(e, m));
            t.Some? && Shows(e, parse, m, t.value) && Shows(e, parse, Load(r, doc), t.value)
  {
    CreateBuildsShownTable(e, parse, m);
    var t := RunCreate(e, parse, Create(e, m)).value;
    CreatedIsWritten(e, parse, m, t);
    CreatedIsLegal(e, parse, m, t);
    DescriptionLoadsBack(e, parse, r, doc, t);
  }
}
