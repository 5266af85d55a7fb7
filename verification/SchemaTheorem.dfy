/** The main result about the modify generator, and the edits it gets wrong. */
module SchemaTheorem {
  import opened Ddl
  import opened TableModel
  import opened ColumnPhases
  import opened OP = ObjectPhases
  import opened SchemaDiff
  import opened SchemaColumns
  import opened SchemaObjects
  import opened SchemaKeys
  import opened SchemaProof

  // ---- which row shows an object ----

  predicate ShownPending(parse: string -> seq<string>, m: Model, k: Key, d: Def) {
    exists x | x in ItemsOf(m, k.kind) :: ToAdd(x) && x.cur.name == k.name && DefOf(parse, x.cur) == d
  }

  lemma {:induction false} SameNameSameRow(e: Engine, parse: string -> seq<string>, m: Model, k: Kind, x: Item, y: Item)
    requires WellFormedEdit(e, parse, m) && x in ItemsOf(m, k) && y in ItemsOf(m, k)
    requires Denoted(x) && Denoted(y) && x.cur.name == y.cur.name
    ensures x == y
  {
    var i :| 0 <= i < |ItemsOf(m, k)| && ItemsOf(m, k)[i] == x;
    var j :| 0 <= j < |ItemsOf(m, k)| && ItemsOf(m, k)[j] == y;
    assert !(i < j) && !(j < i);
  }

  lemma {:induction false} AddedIsPending(parse: string -> seq<string>, m: Model, k: Key, d: Def)
    ensures IsAdded(parse, AddList(m), k, d) <==> ShownPending(parse, m, k, d)
  {
    if o :| o in AddList(m) && KeyOf(o) == k && DefOf(parse, o) == d {
      AddListContent(m, o);
      var x :| x in ItemsOf(m, KindOf(o)) && ToAdd(x) && x.cur == o;
    }
    if x :| x in ItemsOf(m, k.kind) && ToAdd(x) && x.cur.name == k.name && DefOf(parse, x.cur) == d {
      ItemKinds(m, k.kind, x);
      assert IsPending(m, KindOf(x.cur), x.cur);
      AddListContent(m, x.cur);
      assert KeyOf(x.cur) == k;
    }
  }

  /** Unless a blank row is rebuilt, a shown object is left alone or added. */
  lemma {:induction false} ShownSplits(parse: string -> seq<string>, m: Model, k: Key, d: Def)
    requires NoBlankRebuild(m)
    ensures ShownObj(parse, m, k, d) <==> ShownKept(parse, ItemsOf(m, k.kind), k.name, d) || ShownPending(parse, m, k, d)
  {
    forall x | x in ItemsOf(m, k.kind) ensures Denoted(x) <==> KeptItem(x) || ToAdd(x) {
      if KeptItem(x) { KeptFacts(parse, x); }
    }
  }

  // ---- names to be added are distinct ----

  lemma {:induction false} CompatibleConcat(e: Engine, a: seq<ObjText>, b: seq<ObjText>)
    requires Compatible(e, a) && Compatible(e, b)
    requires forall x, y | x in a && y in b :: SameSpace(e, KindOf(x), KindOf(y)) ==> x.name != y.name
    ensures Compatible(e, a + b)
  {
    forall i, j | 0 <= i < j < |a + b| && SameSpace(e, KindOf((a + b)[i]), KindOf((a + b)[j]))
      ensures (a + b)[i].name != (a + b)[j].name
    {
      if i < |a| && |a| <= j {
        assert (a + b)[i] == a[i] && (a + b)[j] == b[j - |a|] && a[i] in a && b[j - |a|] in b;
      } else if j < |a| {
        assert (a + b)[i] == a[i] && (a + b)[j] == a[j];
      } else {
        assert (a + b)[i] == b[i - |a|] && (a + b)[j] == b[j - |a|];
      }
    }
  }

  predicate DistinctDenoted(items: seq<Item>) {
    forall i, j | 0 <= i < j < |items| && Denoted(items[i]) && Denoted(items[j]) :: items[i].cur.name != items[j].cur.name
  }

  lemma {:induction false} PendingCompatible(e: Engine, items: seq<Item>)
    requires DistinctDenoted(items)
    ensures Compatible(e, Pending(items))
  {
    if items != [] {
      var rest := items[1..];
      PendingCompatible(e, rest);
      if ToAdd(items[0]) {
        forall y | y in Pending(rest) ensures y.name != items[0].cur.name {
          PendingContent(rest, y);
          var x :| x in rest && ToAdd(x) && x.cur == y;
          var j :| 0 <= j < |rest| && rest[j] == x;
          assert items[j + 1] == x && Denoted(items[0]);
        }
        CompatibleConcat(e, [items[0].cur], Pending(rest));
      }
    }
  }

  lemma {:induction false} PendingRow(m: Model, k: Kind, o: ObjText) returns (x: Item)
    requires o in Pending(ItemsOf(m, k))
    ensures x in ItemsOf(m, k) && Denoted(x) && x.cur == o && KindOf(o) == k
  {
    PendingContent(ItemsOf(m, k), o);
    x :| x in ItemsOf(m, k) && ToAdd(x) && x.cur == o;
    ItemKinds(m, k, x);
  }

  lemma {:induction false} PendingApart(e: Engine, parse: string -> seq<string>, m: Model, a: Kind, b: Kind)
    requires WellFormedEdit(e, parse, m) && a != b
    ensures forall x, y | x in Pending(ItemsOf(m, a)) && y in Pending(ItemsOf(m, b)) ::
              SameSpace(e, KindOf(x), KindOf(y)) ==> x.name != y.name
  {
    forall x, y | x in Pending(ItemsOf(m, a)) && y in Pending(ItemsOf(m, b)) && SameSpace(e, KindOf(x), KindOf(y))
      ensures x.name != y.name
    {
      var p := PendingRow(m, a, x);
      var q := PendingRow(m, b, y);
    }
  }

  lemma {:induction false} AddListCompatible(e: Engine, parse: string -> seq<string>, m: Model)
    requires WellFormedEdit(e, parse, m)
    ensures Compatible(e, AddList(m))
  {
    forall k: Kind ensures Compatible(e, Pending(ItemsOf(m, k))) {
      assert DistinctDenoted(ItemsOf(m, k));
      PendingCompatible(e, ItemsOf(m, k));
    }
    var u, f, c, i := Pending(ItemsOf(m, UniqKind)), Pending(ItemsOf(m, FkKind)), Pending(ItemsOf(m, ChkKind)), Pending(ItemsOf(m, IdxKind));
    PendingApart(e, parse, m, UniqKind, FkKind);
    CompatibleConcat(e, u, f);
    PendingApart(e, parse, m, UniqKind, ChkKind);
    PendingApart(e, parse, m, FkKind, ChkKind);
    CompatibleConcat(e, u + f, c);
    PendingApart(e, parse, m, UniqKind, IdxKind);
    PendingApart(e, parse, m, FkKind, IdxKind);
    PendingApart(e, parse, m, ChkKind, IdxKind);
    CompatibleConcat(e, u + f + c, i);
    assert AddList(m) == u + f + c + i;
  }

  lemma {:induction false} AddListKeys(e: Engine, parse: string -> seq<string>, m: Model)
    requires WellFormedEdit(e, parse, m)
    ensures forall i, j | 0 <= i < j < |AddList(m)| :: KeyOf(AddList(m)[i]) != KeyOf(AddList(m)[j])
  {
    AddListCompatible(e, parse, m);
  }

  // ---- the pieces of Shows ----

  lemma {:induction false} ColumnsEndShown(e: Engine, parse: string -> seq<string>, m: Model, db: Table, n: string, s: ColSpec)
    requires Setting(e, parse, m, db) && Fits(e, m, db)
    ensures HasCol(AfterColumnDrops(e, m, db).cols, n, s) <==> ShownCol(m.cols, n, s)
  {
    GoneContent(parse, m, db);
    FinalColumns(m.cols, db, Gone(m), n, s);
  }

  lemma {:induction false} ColumnNamesEndShown(e: Engine, parse: string -> seq<string>, m: Model, db: Table, n: string)
    requires Setting(e, parse, m, db) && Fits(e, m, db) && ShownName(m.cols, n)
    ensures n in AfterColumnDrops(e, m, db).cols
  {
    var c :| c in m.cols && LiveName(c.cur.name) && c.cur.name == n;
    ColumnsEndShown(e, parse, m, db, n, SpecOf(c.cur));
  }

  lemma {:induction false} PkEndsShown(e: Engine, parse: string -> seq<string>, m: Model, db: Table)
    requires Setting(e, parse, m, db) && Fits(e, m, db)
    ensures AfterAdds(e, parse, m, db).pk == ShownPk(e, m) <==> PkKept(e, m, db)
  {
    if !PkColsChanged(m) {
      GoneContent(parse, m, db);
      PkExact(e, parse, m, db, Gone(m));
      assert AfterColumnDrops(e, m, db).pk == LeftPk(e, m, db, Gone(m));
    }
  }

  ghost predicate ObjsShown(parse: string -> seq<string>, m: Model, objs: map<Key, Def>) {
    forall k: Key, d: Def :: HasObj(objs, k, d) <==> ShownObj(parse, m, k, d)
  }

  ghost predicate ColsShown(m: Model, cm: map<string, ColSpec>) {
    forall n: string, s: ColSpec :: HasCol(cm, n, s) <==> ShownCol(m.cols, n, s)
  }

  lemma {:induction false} ShowsParts(e: Engine, parse: string -> seq<string>, m: Model, t: Table)
    ensures Shows(e, parse, m, Finished(m, t)) <==>
            ColsShown(m, t.cols) && t.pk == ShownPk(e, m) && ObjsShown(parse, m, t.objs)
  {
  }

  lemma {:induction false} ShowsIs(e: Engine, parse: string -> seq<string>, m: Model, db: Table)
    requires Setting(e, parse, m, db) && Fits(e, m, db)
    ensures Shows(e, parse, m, Finished(m, AfterAdds(e, parse, m, db))) <==>
            PkKept(e, m, db) && ObjsShown(parse, m, AfterAdds(e, parse, m, db).objs)
  {
    var t := AfterAdds(e, parse, m, db);
    ShowsParts(e, parse, m, t);
    PkEndsShown(e, parse, m, db);
    AllColumnsEndShown(e, parse, m, db);
  }

  lemma {:induction false} AllColumnsEndShown(e: Engine, parse: string -> seq<string>, m: Model, db: Table)
    requires Setting(e, parse, m, db) && Fits(e, m, db)
    ensures ColsShown(m, AfterColumnDrops(e, m, db).cols)
  {
    forall n: string, s: ColSpec ensures HasCol(AfterColumnDrops(e, m, db).cols, n, s) <==> ShownCol(m.cols, n, s) {
      ColumnsEndShown(e, parse, m, db, n, s);
    }
  }

  // ---- if the edit is safe ----

  lemma {:induction false} RefStays(e: Engine, parse: string -> seq<string>, m: Model, db: Table, k: Kind, x: Item, r: string)
    requires Setting(e, parse, m, db) && Fits(e, m, db) && ReferencesKept(parse, m)
    requires x in ItemsOf(m, k) && KeptItem(x) && r in DefOf(parse, x.cur).refs
    ensures Moved(m.cols, r) == r
  {
    LeftRefsShown(e, parse, m, db, k, x, r);
    MovedContent(m.cols, db.cols, r);
    var c :| c in m.cols && c.orig.Some? && c.orig.value.name == r;
    assert !Renamed(c);
  }

  lemma {:induction false} DefStays(e: Engine, parse: string -> seq<string>, m: Model, db: Table, k: Kind, x: Item)
    requires Setting(e, parse, m, db) && Fits(e, m, db) && ReferencesKept(parse, m)
    requires x in ItemsOf(m, k) && KeptItem(x)
    ensures MovedDef(m.cols, DefOf(parse, x.cur)) == DefOf(parse, x.cur)
  {
    var d := DefOf(parse, x.cur);
    forall i | 0 <= i < |d.refs| ensures Moved(m.cols, d.refs[i]) == d.refs[i] {
      RefStays(e, parse, m, db, k, x, d.refs[i]);
    }
    MovedSame(m.cols, d);
  }

  lemma {:induction false} MovedSame(cols: seq<Col>, d: Def)
    requires forall i | 0 <= i < |d.refs| :: Moved(cols, d.refs[i]) == d.refs[i]
    ensures MovedDef(cols, d) == d
  {
    assert MovedDef(cols, d).refs == d.refs;
  }

  lemma {:induction false} LeftIsLoaded(e: Engine, parse: string -> seq<string>, m: Model, db: Table, k: Key, d: Def)
    requires Setting(e, parse, m, db) && Fits(e, m, db) && ReferencesKept(parse, m)
    ensures LeftAs(parse, m, k, d) <==> LoadedKept(parse, ItemsOf(m, k.kind), k.name, d)
  {
    forall x | x in ItemsOf(m, k.kind) && KeptItem(x) ensures MovedDef(m.cols, DefOf(parse, x.cur)) == DefOf(parse, x.cur) {
      DefStays(e, parse, m, db, k.kind, x);
    }
  }

  lemma {:induction false} LoadedIsShown(parse: string -> seq<string>, m: Model, k: Key, d: Def)
    requires UniqueNamesKept(parse, m)
    ensures LoadedKept(parse, ItemsOf(m, k.kind), k.name, d) <==> ShownKept(parse, ItemsOf(m, k.kind), k.name, d)
  {
    if k.kind != UniqKind {
      forall x | x in ItemsOf(m, k.kind) && KeptItem(x) ensures x.cur.name == x.orig.value.name {
        ItemKinds(m, k.kind, x);
        KeptFacts(parse, x);
      }
    }
  }

  lemma {:induction false} LeftIsShown(e: Engine, parse: string -> seq<string>, m: Model, db: Table, k: Key, d: Def)
    requires Setting(e, parse, m, db) && Fits(e, m, db) && ReferencesKept(parse, m) && UniqueNamesKept(parse, m)
    ensures HasObj(AfterColumnDrops(e, m, db).objs, k, d) <==> ShownKept(parse, ItemsOf(m, k.kind), k.name, d)
  {
    AfterDropsObjs(e, parse, m, db, k, d);
    LeftIsLoaded(e, parse, m, db, k, d);
    LoadedIsShown(parse, m, k, d);
  }

  /** No object that stays holds the name of a shown row that is to be added. */
  lemma {:induction false} NamesAreFree(e: Engine, parse: string -> seq<string>, m: Model, db: Table, k: Kind, x: Item, kind: Kind)
    requires Setting(e, parse, m, db) && Fits(e, m, db) && ReferencesKept(parse, m) && UniqueNamesKept(parse, m)
    requires x in ItemsOf(m, k) && ToAdd(x) && SameSpace(e, k, kind) && kind != PkKind
    ensures Key(kind, x.cur.name) !in AfterColumnDrops(e, m, db).objs
  {
    var key := Key(kind, x.cur.name);
    var objs := AfterColumnDrops(e, m, db).objs;
    if key in objs {
      LeftIsShown(e, parse, m, db, key, objs[key]);
      var y :| y in ItemsOf(m, kind) && KeptItem(y) && y.cur.name == x.cur.name && DefOf(parse, y.cur) == objs[key];
      KeptFacts(parse, y);
      assert Denoted(x) && Denoted(y);
      if kind == k { SameNameSameRow(e, parse, m, k, x, y); }
    }
  }

  lemma {:induction false} PkNameIsFree(e: Engine, parse: string -> seq<string>, m: Model, db: Table, kind: Kind)
    requires Setting(e, parse, m, db) && Fits(e, m, db) && ReferencesKept(parse, m) && UniqueNamesKept(parse, m)
    requires PkNames(m.cols) != [] && SameSpace(e, PkKind, kind) && kind != PkKind
    ensures Key(kind, ShownPkName(e, m)) !in AfterColumnDrops(e, m, db).objs
  {
    var key := Key(kind, ShownPkName(e, m));
    var objs := AfterColumnDrops(e, m, db).objs;
    if key in objs {
      LeftIsShown(e, parse, m, db, key, objs[key]);
      var y :| y in ItemsOf(m, kind) && KeptItem(y) && y.cur.name == key.name && DefOf(parse, y.cur) == objs[key];
      KeptFacts(parse, y);
    }
  }

  lemma {:induction false} PendingNameFree(e: Engine, parse: string -> seq<string>, m: Model, db: Table, k: Kind, x: Item)
    requires Setting(e, parse, m, db) && Fits(e, m, db) && ReferencesKept(parse, m) && UniqueNamesKept(parse, m)
    requires x in ItemsOf(m, k) && ToAdd(x)
    ensures NameFree(e, AfterColumnDrops(e, m, db).(pk := ShownPk(e, m)), Key(k, x.cur.name))
  {
    var t := AfterColumnDrops(e, m, db).(pk := ShownPk(e, m));
    assert Denoted(x);
    forall kind: Kind | SameSpace(e, k, kind) ensures !Holds(t, Key(kind, x.cur.name)) {
      if kind == PkKind {
        assert SameSpace(e, PkKind, k);
      } else {
        NamesAreFree(e, parse, m, db, k, x, kind);
      }
    }
  }

  lemma {:induction false} PendingRefsExist(e: Engine, parse: string -> seq<string>, m: Model, db: Table, k: Kind, x: Item)
    requires Setting(e, parse, m, db) && Fits(e, m, db) && x in ItemsOf(m, k) && ToAdd(x)
    ensures RefsExist(DefOf(parse, x.cur), AfterColumnDrops(e, m, db).cols)
    ensures x.cur.name != "" && Complete(DefOf(parse, x.cur))
  {
    assert Denoted(x);
    forall r | r in DefOf(parse, x.cur).refs ensures r in AfterColumnDrops(e, m, db).cols {
      ColumnNamesEndShown(e, parse, m, db, r);
    }
  }

  lemma {:induction false} PendingIsAddable(e: Engine, parse: string -> seq<string>, m: Model, db: Table, o: ObjText)
    requires Setting(e, parse, m, db) && Fits(e, m, db) && ReferencesKept(parse, m) && UniqueNamesKept(parse, m)
    requires o in AddList(m)
    ensures Addable(e, parse, o, AfterColumnDrops(e, m, db).(pk := ShownPk(e, m)))
  {
    AddListContent(m, o);
    var x :| x in ItemsOf(m, KindOf(o)) && ToAdd(x) && x.cur == o;
    PendingNameFree(e, parse, m, db, KindOf(o), x);
    PendingRefsExist(e, parse, m, db, KindOf(o), x);
  }

  lemma {:induction false} NewPkSucceeds(e: Engine, parse: string -> seq<string>, m: Model, db: Table)
    requires Setting(e, parse, m, db) && Fits(e, m, db) && ReferencesKept(parse, m) && UniqueNamesKept(parse, m)
    ensures Run(e, parse, db.name, NewPk(e, m), AfterColumnDrops(e, m, db)).Some?
  {
    if NewPk(e, m) != [] {
      NewPkStep(e, parse, m, AfterColumnDrops(e, m, db));
      NewPkNameFree(e, parse, m, db);
      NewPkColumnsExist(e, parse, m, db);
      NewPkHasRoom(e, parse, m, db);
      AddPkSucceeds(e, ShownPkName(e, m), PkNames(m.cols), AfterColumnDrops(e, m, db));
    }
  }

  lemma {:induction false} AddPkSucceeds(e: Engine, n: string, cols: seq<string>, t: Table)
    requires n != "" && cols != [] && t.pk.None? && NameFree(e, t, Key(PkKind, n)) && forall c | c in cols :: c in t.cols
    ensures AddPk(e, n, cols, t).Some?
  {
  }

  lemma {:induction false} NewPkHasRoom(e: Engine, parse: string -> seq<string>, m: Model, db: Table)
    requires Setting(e, parse, m, db) && NewPk(e, m) != []
    ensures ShownPkName(e, m) != "" && PkNames(m.cols) != [] && AfterColumnDrops(e, m, db).pk.None?
  {
  }

  lemma {:induction false} NewPkNameFree(e: Engine, parse: string -> seq<string>, m: Model, db: Table)
    requires Setting(e, parse, m, db) && Fits(e, m, db) && ReferencesKept(parse, m) && UniqueNamesKept(parse, m)
    requires NewPk(e, m) != []
    ensures NameFree(e, AfterColumnDrops(e, m, db), Key(PkKind, ShownPkName(e, m)))
  {
    var t, n := AfterColumnDrops(e, m, db), ShownPkName(e, m);
    forall kind: Kind | SameSpace(e, PkKind, kind) ensures !Holds(t, Key(kind, n)) {
      if kind != PkKind { PkNameIsFree(e, parse, m, db, kind); }
    }
  }

  lemma {:induction false} NewPkColumnsExist(e: Engine, parse: string -> seq<string>, m: Model, db: Table)
    requires Setting(e, parse, m, db) && Fits(e, m, db)
    ensures forall c | c in PkNames(m.cols) :: c in AfterColumnDrops(e, m, db).cols
  {
    forall c | c in PkNames(m.cols) ensures c in AfterColumnDrops(e, m, db).cols {
      PkNamesContent(m.cols, c);
      ColumnNamesEndShown(e, parse, m, db, c);
    }
  }

  lemma {:induction false} SafeAddsSucceed(e: Engine, parse: string -> seq<string>, m: Model, db: Table)
    requires Setting(e, parse, m, db) && Fits(e, m, db) && ReferencesKept(parse, m) && UniqueNamesKept(parse, m) && PkKept(e, m, db)
    ensures Run(e, parse, db.name, Adds(e, m), AfterColumnDrops(e, m, db)).Some?
  {
    var t := AfterColumnDrops(e, m, db);
    var t' := t.(pk := ShownPk(e, m));
    PkEndsShown(e, parse, m, db);
    NewPkSucceeds(e, parse, m, db);
    NewPkRun(e, parse, m, t);
    AddListCompatible(e, parse, m);
    forall i | 0 <= i < |AddList(m)| ensures Addable(e, parse, AddList(m)[i], t') {
      PendingIsAddable(e, parse, m, db, AddList(m)[i]);
    }
    AddObjsSucceeds(e, parse, db.name, AddList(m), t');
    AddsAsObjs(e, m);
    RunConcat(e, parse, db.name, NewPk(e, m), AddObjs(AddList(m)), t);
  }

  lemma {:induction false} SafeObjsShown(e: Engine, parse: string -> seq<string>, m: Model, db: Table)
    requires Setting(e, parse, m, db) && Fits(e, m, db)
    requires ReferencesKept(parse, m) && UniqueNamesKept(parse, m) && NoBlankRebuild(m)
    requires forall o | o in AddList(m) :: KeyOf(o) !in AfterColumnDrops(e, m, db).objs
    ensures ObjsShown(parse, m, AfterAdds(e, parse, m, db).objs)
  {
    AddListKeys(e, parse, m);
    forall k: Key, d: Def ensures HasObj(AfterAdds(e, parse, m, db).objs, k, d) <==> ShownObj(parse, m, k, d) {
      OP.AddedContent(parse, AddList(m), AfterColumnDrops(e, m, db).objs, k, d);
      AddedIsPending(parse, m, k, d);
      LeftIsShown(e, parse, m, db, k, d);
      ShownSplits(parse, m, k, d);
    }
  }

  // ---- if the script gets there ----

  ghost predicate AddsWereFree(e: Engine, m: Model, db: Table) {
    forall o | o in AddList(m) :: KeyOf(o) !in AfterColumnDrops(e, m, db).objs
  }

  /** A shown row's object was left alone or added. */
  lemma {:induction false} ShownComesFrom(e: Engine, parse: string -> seq<string>, m: Model, db: Table, k: Kind, x: Item)
    requires Setting(e, parse, m, db) && Fits(e, m, db) && AddsWereFree(e, m, db)
    requires ObjsShown(parse, m, AfterAdds(e, parse, m, db).objs)
    requires x in ItemsOf(m, k) && Denoted(x)
    ensures ToAdd(x) || LeftAs(parse, m, Key(k, x.cur.name), DefOf(parse, x.cur))
  {
    var key, d := Key(k, x.cur.name), DefOf(parse, x.cur);
    assert ShownObj(parse, m, key, d);
    assert HasObj(AfterAdds(e, parse, m, db).objs, key, d);
    AddListKeys(e, parse, m);
    OP.AddedContent(parse, AddList(m), AfterColumnDrops(e, m, db).objs, key, d);
    AddedIsPending(parse, m, key, d);
    AfterDropsObjs(e, parse, m, db, key, d);
    if ShownPending(parse, m, key, d) {
      var y :| y in ItemsOf(m, k) && ToAdd(y) && y.cur.name == key.name && DefOf(parse, y.cur) == d;
      SameNameSameRow(e, parse, m, k, x, y);
    }
  }

  lemma {:induction false} ChangedNotLeft(e: Engine, parse: string -> seq<string>, m: Model, k: Kind, x: Item, d: Def)
    requires WellFormedEdit(e, parse, m) && x in ItemsOf(m, k) && Changed(x) && Denoted(x) && k != UniqKind
    ensures !LeftAs(parse, m, Key(k, x.cur.name), d)
  {
    forall v | v in ItemsOf(m, k) && KeptItem(v) ensures v.orig.value.name != x.cur.name {
      ItemKinds(m, k, v);
      KeptFacts(parse, v);
      if v.cur.name == x.cur.name { SameNameSameRow(e, parse, m, k, v, x); }
    }
  }

  lemma {:induction false} ReachedNoBlank(e: Engine, parse: string -> seq<string>, m: Model, db: Table)
    requires Setting(e, parse, m, db) && Fits(e, m, db) && AddsWereFree(e, m, db)
    requires ObjsShown(parse, m, AfterAdds(e, parse, m, db).objs)
    ensures NoBlankRebuild(m)
  {
    forall k: Kind, x | x in ItemsOf(m, k) && Changed(x) && Blank(x.cur) ensures !Blank(x.orig.value) {
      ItemKinds(m, k, x);
      if k != UniqKind && Denoted(x) {
        ChangedNotLeft(e, parse, m, k, x, DefOf(parse, x.cur));
        ShownComesFrom(e, parse, m, db, k, x);
      }
    }
  }

  /** A row left alone shows what another row left alone was loaded as. */
  lemma {:induction false} KeptComesFrom(e: Engine, parse: string -> seq<string>, m: Model, db: Table, k: Kind, x: Item)
    requires Setting(e, parse, m, db) && Fits(e, m, db) && AddsWereFree(e, m, db)
    requires ObjsShown(parse, m, AfterAdds(e, parse, m, db).objs)
    requires x in ItemsOf(m, k) && KeptItem(x)
    ensures LeftAs(parse, m, Key(k, x.cur.name), DefOf(parse, x.cur))
  {
    KeptFacts(parse, x);
    ShownComesFrom(e, parse, m, db, k, x);
  }

  ghost predicate Mentioned(parse: string -> seq<string>, m: Model, r: string) {
    exists k: Kind, x | x in ItemsOf(m, k) :: KeptItem(x) && r in DefOf(parse, x.cur).refs
  }

  /** Where a mentioned column moved to comes from a mentioned column. */
  lemma {:induction false} MovedMention(e: Engine, parse: string -> seq<string>, m: Model, db: Table, k: Kind, v: Item, y: string)
    requires Setting(e, parse, m, db) && Fits(e, m, db)
    requires v in ItemsOf(m, k) && KeptItem(v) && y in DefOf(parse, v.cur).refs
    ensures ComesFrom(m.cols, (z: string) => Mentioned(parse, m, z), Moved(m.cols, y))
  {
    LeftRefsShown(e, parse, m, db, k, v, y);
    MovedContent(m.cols, db.cols, y);
    assert Mentioned(parse, m, y);
  }

  lemma {:induction false} LeftMention(e: Engine, parse: string -> seq<string>, m: Model, db: Table, k: Key, d: Def, r: string)
    requires Setting(e, parse, m, db) && Fits(e, m, db) && LeftAs(parse, m, k, d) && r in d.refs
    ensures ComesFrom(m.cols, (z: string) => Mentioned(parse, m, z), r)
  {
    var v :| v in ItemsOf(m, k.kind) && KeptItem(v) && v.orig.value.name == k.name && MovedDef(m.cols, DefOf(parse, v.cur)) == d;
    var i :| 0 <= i < |d.refs| && d.refs[i] == r;
    MovedMention(e, parse, m, db, k.kind, v, DefOf(parse, v.cur).refs[i]);
  }

  lemma {:induction false} MentionComesFrom(e: Engine, parse: string -> seq<string>, m: Model, db: Table, r: string)
    requires Setting(e, parse, m, db) && Fits(e, m, db) && AddsWereFree(e, m, db)
    requires ObjsShown(parse, m, AfterAdds(e, parse, m, db).objs)
    requires Mentioned(parse, m, r)
    ensures ComesFrom(m.cols, (z: string) => Mentioned(parse, m, z), r)
  {
    var k: Kind, x :| x in ItemsOf(m, k) && KeptItem(x) && r in DefOf(parse, x.cur).refs;
    KeptComesFrom(e, parse, m, db, k, x);
    LeftMention(e, parse, m, db, Key(k, x.cur.name), DefOf(parse, x.cur), r);
  }

  lemma {:induction false} MentionedNotRenamed(e: Engine, parse: string -> seq<string>, m: Model, db: Table, c: Col)
    requires Setting(e, parse, m, db) && Fits(e, m, db) && AddsWereFree(e, m, db)
    requires ObjsShown(parse, m, AfterAdds(e, parse, m, db).objs)
    requires c in m.cols && c.orig.Some? && Mentioned(parse, m, c.orig.value.name)
    ensures !Renamed(c)
  {
    var P := (z: string) => Mentioned(parse, m, z);
    assert ClosedUnderMoves(m.cols, P) by {
      forall r | P(r) ensures ComesFrom(m.cols, P, r) {
        MentionComesFrom(e, parse, m, db, r);
      }
    }
    var i :| 0 <= i < |m.cols| && m.cols[i] == c;
    NoCycle(m.cols, db.cols.Keys, P, i);
  }

  lemma {:induction false} ReachedReferences(e: Engine, parse: string -> seq<string>, m: Model, db: Table)
    requires Setting(e, parse, m, db) && Fits(e, m, db) && AddsWereFree(e, m, db)
    requires ObjsShown(parse, m, AfterAdds(e, parse, m, db).objs)
    ensures ReferencesKept(parse, m)
  {
    forall c | c in m.cols && c.orig.Some? && Mentioned(parse, m, c.orig.value.name) ensures !Renamed(c) {
      MentionedNotRenamed(e, parse, m, db, c);
    }
  }

  lemma {:induction false} ReachedUniques(e: Engine, parse: string -> seq<string>, m: Model, db: Table)
    requires Setting(e, parse, m, db) && Fits(e, m, db) && AddsWereFree(e, m, db)
    requires ObjsShown(parse, m, AfterAdds(e, parse, m, db).objs)
    requires NoBlankRebuild(m) && ReferencesKept(parse, m)
    ensures UniqueNamesKept(parse, m)
  {
    forall n: string, d: Def ensures LoadedKept(parse, m.uniques, n, d) <==> ShownKept(parse, m.uniques, n, d) {
      var key := Key(UniqKind, n);
      LeftIsLoaded(e, parse, m, db, key, d);
      if x :| x in m.uniques && KeptItem(x) && x.cur.name == n && DefOf(parse, x.cur) == d {
        KeptComesFrom(e, parse, m, db, UniqKind, x);
      }
      if LeftAs(parse, m, key, d) { LoadedShows(e, parse, m, db, key, d); }
    }
  }

  lemma {:induction false} LoadedShows(e: Engine, parse: string -> seq<string>, m: Model, db: Table, k: Key, d: Def)
    requires Setting(e, parse, m, db) && Fits(e, m, db) && AddsWereFree(e, m, db) && NoBlankRebuild(m)
    requires ObjsShown(parse, m, AfterAdds(e, parse, m, db).objs) && LeftAs(parse, m, k, d)
    ensures ShownKept(parse, ItemsOf(m, k.kind), k.name, d)
  {
    var objs := AfterColumnDrops(e, m, db).objs;
    AfterDropsObjs(e, parse, m, db, k, d);
    AddListKeys(e, parse, m);
    OP.AddedContent(parse, AddList(m), objs, k, d);
    assert HasObj(AfterAdds(e, parse, m, db).objs, k, d);
    ShownSplits(parse, m, k, d);
    AddedIsPending(parse, m, k, d);
  }

  // ---- the theorem ----

  /** A table whose constraints are bound to its columns shows only constraints over shown columns. */
  lemma {:induction false} BoundShowsRefs(e: Engine, parse: string -> seq<string>, m: Model, t: Table)
    requires Bound(t) && Shows(e, parse, m, t)
    ensures KeptRefsShown(parse, m)
  {
    forall k: Kind, x, r | x in ItemsOf(m, k) && KeptItem(x) && r in DefOf(parse, x.cur).refs ensures ShownName(m.cols, r) {
      KeptFacts(parse, x);
      var key, d := Key(k, x.cur.name), DefOf(parse, x.cur);
      assert ShownObj(parse, m, key, d);
      assert HasObj(t.objs, key, d);
      assert RefsExist(d, t.cols);
      assert HasCol(t.cols, r, t.cols[r]);
      var c :| c in m.cols && LiveName(c.cur.name) && c.cur.name == r && SpecOf(c.cur) == t.cols[r];
    }
  }

  /** Running the generated script on the loaded table ends at the shown table if and only if
      the edit is Safe. */
  lemma {:induction false} ModifyReachesShownTable(e: Engine, parse: string -> seq<string>, m: Model, db: Table)
    requires e != SQLite && LegalTable(e, db) && Tracks(parse, m, db) && WellFormedEdit(e, parse, m)
    ensures var r := Run(e, parse, m.origName, Modify(e, m), db);
            (r.Some? && Shows(e, parse, m, r.value)) <==> Safe(e, parse, m, db)
  {
    if KeptRefsShown(parse, m) {
      BoundEditReaches(e, parse, m, db);
    } else {
      var r := Run(e, parse, m.origName, Modify(e, m), db);
      RunKeepsBound(e, parse, m.origName, Modify(e, m), db);
      if r.Some? && Shows(e, parse, m, r.value) { BoundShowsRefs(e, parse, m, r.value); }
    }
  }

  lemma {:induction false} BoundEditReaches(e: Engine, parse: string -> seq<string>, m: Model, db: Table)
    requires Setting(e, parse, m, db)
    ensures var r := Run(e, parse, m.origName, Modify(e, m), db);
            (r.Some? && Shows(e, parse, m, r.value)) <==> Safe(e, parse, m, db)
  {
    ModifyRun(e, parse, m, db);
    if Fits(e, m, db) {
      ShowsIs(e, parse, m, db);
      AddsRun(e, parse, m, db);
      if Safe(e, parse, m, db) {
        SafeAddsSucceed(e, parse, m, db);
        SafeObjsShown(e, parse, m, db);
      }
      if Run(e, parse, db.name, Adds(e, m), AfterColumnDrops(e, m, db)).Some? && ObjsShown(parse, m, AfterAdds(e, parse, m, db).objs) {
        ReachedNoBlank(e, parse, m, db);
        ReachedReferences(e, parse, m, db);
        ReachedUniques(e, parse, m, db);
      }
    }
  }

  /** The shown table is unique: a model shows at most one table. */
  lemma {:induction false} ShownTableIsUnique(e: Engine, parse: string -> seq<string>, m: Model, t: Table, u: Table)
    requires Shows(e, parse, m, t) && Shows(e, parse, m, u)
    ensures t == u
  {
    forall n ensures (n in t.cols <==> n in u.cols) && (n in t.cols ==> t.cols[n] == u.cols[n]) {
      if n in t.cols { assert HasCol(t.cols, n, t.cols[n]); assert HasCol(u.cols, n, t.cols[n]); }
      if n in u.cols { assert HasCol(u.cols, n, u.cols[n]); assert HasCol(t.cols, n, u.cols[n]); }
    }
    assert t.cols == u.cols;
    forall k ensures (k in t.objs <==> k in u.objs) && (k in t.objs ==> t.objs[k] == u.objs[k]) {
      if k in t.objs { assert HasObj(t.objs, k, t.objs[k]); assert HasObj(u.objs, k, t.objs[k]); }
      if k in u.objs { assert HasObj(u.objs, k, u.objs[k]); assert HasObj(t.objs, k, u.objs[k]); }
    }
    assert t.objs == u.objs;
  }
}
