/** The constraint and index half of the diff: what is dropped, what stays, what is added. */
module SchemaObjects {
  import opened Text
  import opened Ddl
  import opened TableModel
  import opened OP = ObjectPhases
  import opened SchemaDiff

  lemma {:induction false} ItemKinds(m: Model, k: Kind, x: Item)
    requires x in ItemsOf(m, k)
    ensures KindOf(x.cur) == k && (x.orig.Some? ==> KindOf(x.orig.value) == k)
  {
  }

  /** A row left alone means what was loaded; only a UNIQUE can have a new name. */
  lemma {:induction false} KeptFacts(parse: string -> seq<string>, x: Item)
    requires KeptItem(x)
    ensures DefOf(parse, x.cur) == DefOf(parse, x.orig.value)
    ensures Blank(x.cur) == Blank(x.orig.value) && Denoted(x)
    ensures !x.cur.Uniq? ==> x.cur.name == x.orig.value.name
    ensures KindOf(x.cur) == KindOf(x.orig.value)
  {
    match (x.orig.value, x.cur)
    case (Uniq(_, oc), Uniq(_, c)) => IdListTrimmed(oc, c);
    case (Fk(_, oc, _, orc, _), Fk(_, c, _, rc, _)) =>
      IdListTrimmed(oc, c);
      IdListTrimmed(orc, rc);
    case _ =>
  }

  lemma {:induction false} NoDupConcat<T>(a: seq<T>, b: seq<T>)
    requires NoDup(a) && NoDup(b) && forall x | x in a :: x !in b
    ensures NoDup(a + b)
  {
    forall i, j | 0 <= i < j < |a + b| ensures (a + b)[i] != (a + b)[j] {
      if i < |a| && |a| <= j {
        assert (a + b)[i] == a[i] && (a + b)[j] == b[j - |a|];
        assert a[i] in a && b[j - |a|] in b;
      }
    }
  }

  // ---- what is dropped ----

  function SectionKeys(k: Kind, names: seq<string>, items: seq<Item>): seq<Key> {
    Keyed(k, RemovedNames(names, items)) + Keyed(k, ChangedNames(items))
  }

  function KeysOf(m: Model, k: Kind): seq<Key> {
    SectionKeys(k, NamesOf(m.snapshot, k), ItemsOf(m, k))
  }

  function DropList(m: Model): seq<Key> {
    KeysOf(m, UniqKind) + KeysOf(m, FkKind) + KeysOf(m, ChkKind) + KeysOf(m, IdxKind)
  }

  lemma {:induction false} SectionAsKeys(e: Engine, k: Kind, names: seq<string>, items: seq<Item>)
    requires e != SQLite
    ensures DropSection(e, k, names, items) == DropKeys(e, SectionKeys(k, names, items))
  {
    DropAllKeyed(e, k, RemovedNames(names, items));
    DropAllKeyed(e, k, ChangedNames(items));
    DropKeysConcat(e, Keyed(k, RemovedNames(names, items)), Keyed(k, ChangedNames(items)));
  }

  lemma {:induction false} AssocFive(p: seq<Stmt>, a: seq<Stmt>, b: seq<Stmt>, c: seq<Stmt>, d: seq<Stmt>)
    ensures p + a + b + c + d == p + (a + b + c + d)
  {
    Assoc(p, a, b);
    Assoc(p, a + b, c);
    Assoc(p, a + b + c, d);
  }

  lemma {:induction false} FourKeyLists(e: Engine, u: seq<Key>, f: seq<Key>, c: seq<Key>, i: seq<Key>)
    ensures DropKeys(e, u + f + c + i) == DropKeys(e, u) + DropKeys(e, f) + DropKeys(e, c) + DropKeys(e, i)
  {
    DropKeysConcat(e, u, f);
    DropKeysConcat(e, u + f, c);
    DropKeysConcat(e, u + f + c, i);
  }

  lemma {:induction false} KeysOfSection(e: Engine, m: Model, k: Kind)
    requires e != SQLite
    ensures DropSection(e, k, NamesOf(m.snapshot, k), ItemsOf(m, k)) == DropKeys(e, KeysOf(m, k))
  {
    SectionAsKeys(e, k, NamesOf(m.snapshot, k), ItemsOf(m, k));
  }

  lemma {:induction false} DropsAsKeys(e: Engine, m: Model)
    requires e != SQLite
    ensures Drops(e, m) == DropPk(e, m) + DropKeys(e, DropList(m))
  {
    KeysOfSection(e, m, UniqKind);
    KeysOfSection(e, m, FkKind);
    KeysOfSection(e, m, ChkKind);
    KeysOfSection(e, m, IdxKind);
    var u, f, c, i := KeysOf(m, UniqKind), KeysOf(m, FkKind), KeysOf(m, ChkKind), KeysOf(m, IdxKind);
    FourKeyLists(e, u, f, c, i);
    AssocFive(DropPk(e, m), DropKeys(e, u), DropKeys(e, f), DropKeys(e, c), DropKeys(e, i));
    assert Drops(e, m) == DropPk(e, m) + DropKeys(e, u) + DropKeys(e, f) + DropKeys(e, c) + DropKeys(e, i);
  }

  /** Some row left alone was loaded under this name. */
  predicate KeptName(items: seq<Item>, n: string) {
    exists x | x in items :: KeptItem(x) && x.orig.value.name == n
  }

  predicate ChangedName(items: seq<Item>, n: string) {
    exists x | x in items :: Changed(x) && x.orig.value.name == n
  }

  predicate DistinctItemOrigs(items: seq<Item>) {
    forall i, j | 0 <= i < j < |items| && items[i].orig.Some? && items[j].orig.Some? ::
      items[i].orig.value.name != items[j].orig.value.name
  }

  lemma {:induction false} ChangedContent(items: seq<Item>)
    requires DistinctItemOrigs(items)
    ensures NoDup(ChangedNames(items))
    ensures forall n :: n in ChangedNames(items) <==> ChangedName(items, n)
  {
    if items != [] {
      var x, rest := items[0], items[1..];
      ChangedContent(rest);
      assert x in items && forall y | y in rest :: y in items;
      assert forall y | y in items :: y == x || y in rest;
      assert forall n :: ChangedName(items, n) <==> (Changed(x) && x.orig.value.name == n) || ChangedName(rest, n);
      if Changed(x) {
        forall y | y in rest && Changed(y) ensures y.orig.value.name != x.orig.value.name {
          var i :| 0 <= i < |rest| && rest[i] == y;
          assert items[i + 1] == y && items[0] == x;
        }
        NoDupConcat([x.orig.value.name], ChangedNames(rest));
      }
    }
  }

  lemma {:induction false} RemovedNamesContent(names: seq<string>, items: seq<Item>)
    requires NoDup(names)
    ensures NoDup(RemovedNames(names, items))
    ensures forall n :: n in RemovedNames(names, items) <==> n in names && !LiveOrig(items, n)
  {
    if names != [] {
      RemovedNamesContent(names[1..], items);
      assert forall n :: n in names <==> n == names[0] || n in names[1..];
    }
  }

  lemma {:induction false} KeyedNoDup(k: Kind, names: seq<string>)
    requires NoDup(names)
    ensures NoDup(Keyed(k, names))
    ensures forall key :: key in Keyed(k, names) <==> key.kind == k && key.name in names
  {
    KeyedContent(k, names);
    forall key: Key | key.kind == k && key.name in names ensures key in Keyed(k, names) {
      var i :| 0 <= i < |names| && names[i] == key.name;
      assert Keyed(k, names)[i] == key;
    }
  }

  lemma {:induction false} SectionContent(parse: string -> seq<string>, k: Kind, names: seq<string>, items: seq<Item>, objs: map<Key, Def>)
    requires TracksSection(parse, k, names, items, objs) && Key(k, "") !in objs
    ensures NoDup(SectionKeys(k, names, items))
    ensures forall key :: key in SectionKeys(k, names, items) <==> key.kind == k && key in objs && !KeptName(items, key.name)
  {
    RemovedNamesContent(names, items);
    ChangedContent(items);
    KeyedNoDup(k, RemovedNames(names, items));
    KeyedNoDup(k, ChangedNames(items));
    forall n | n in ChangedNames(items) ensures n in names && LiveOrig(items, n) && !KeptName(items, n) {
      var x :| x in items && Changed(x) && x.orig.value.name == n;
      var i :| 0 <= i < |items| && items[i] == x;
      assert Key(k, n) in objs;
      forall y | y in items && KeptItem(y) ensures y.orig.value.name != n {
        var j :| 0 <= j < |items| && items[j] == y;
        assert i < j || j < i;
      }
    }
    forall n | n in names && LiveOrig(items, n) ensures KeptName(items, n) || n in ChangedNames(items) {
      var x :| x in items && x.orig.Some? && x.orig.value.name == n;
      assert Changed(x) || KeptItem(x);
    }
    forall n | KeptName(items, n) ensures n in names && LiveOrig(items, n) {
      var x :| x in items && KeptItem(x) && x.orig.value.name == n;
      var i :| 0 <= i < |items| && items[i] == x;
      assert Key(k, n) in objs;
    }
    NoDupConcat(Keyed(k, RemovedNames(names, items)), Keyed(k, ChangedNames(items)));
    forall key: Key ensures key in SectionKeys(k, names, items) <==> key.kind == k && key in objs && !KeptName(items, key.name) {
      assert key == Key(key.kind, key.name);
    }
  }

  lemma {:induction false} FourKinds(u: seq<Key>, f: seq<Key>, c: seq<Key>, i: seq<Key>)
    requires NoDup(u) && NoDup(f) && NoDup(c) && NoDup(i)
    requires (forall k | k in u :: k.kind == UniqKind) && (forall k | k in f :: k.kind == FkKind)
    requires (forall k | k in c :: k.kind == ChkKind) && (forall k | k in i :: k.kind == IdxKind)
    ensures NoDup(u + f + c + i)
    ensures forall k :: k in u + f + c + i <==> k in (match k.kind case UniqKind => u case FkKind => f case ChkKind => c case IdxKind => i case PkKind => [])
  {
    NoDupConcat(u, f);
    NoDupConcat(u + f, c);
    NoDupConcat(u + f + c, i);
  }

  /** Exactly the loaded objects that no row leaves alone are dropped, each once. */
  lemma {:induction false} DropListContent(parse: string -> seq<string>, m: Model, objs: map<Key, Def>)
    requires forall k: Kind | k != PkKind :: TracksSection(parse, k, NamesOf(m.snapshot, k), ItemsOf(m, k), objs)
    requires forall key | key in objs :: key.kind != PkKind && key.name != ""
    ensures NoDup(DropList(m))
    ensures forall key :: key in DropList(m) <==> key in objs && !KeptName(ItemsOf(m, key.kind), key.name)
  {
    KeysOfContent(parse, m, objs, UniqKind);
    KeysOfContent(parse, m, objs, FkKind);
    KeysOfContent(parse, m, objs, ChkKind);
    KeysOfContent(parse, m, objs, IdxKind);
    FourKinds(KeysOf(m, UniqKind), KeysOf(m, FkKind), KeysOf(m, ChkKind), KeysOf(m, IdxKind));
  }

  lemma {:induction false} KeysOfContent(parse: string -> seq<string>, m: Model, objs: map<Key, Def>, k: Kind)
    requires k != PkKind && TracksSection(parse, k, NamesOf(m.snapshot, k), ItemsOf(m, k), objs)
    requires forall key | key in objs :: key.kind != PkKind && key.name != ""
    ensures NoDup(KeysOf(m, k))
    ensures forall key :: key in KeysOf(m, k) <==> key.kind == k && key in objs && !KeptName(ItemsOf(m, k), key.name)
  {
    assert Key(k, "") !in objs;
    SectionContent(parse, k, NamesOf(m.snapshot, k), ItemsOf(m, k), objs);
  }

  // ---- what is added ----

  function AddList(m: Model): seq<ObjText> {
    Pending(m.uniques) + Pending(m.fks) + Pending(m.checks) + Pending(m.indexes)
  }

  lemma {:induction false} AddsAsObjs(e: Engine, m: Model)
    requires e != SQLite
    ensures Adds(e, m) == NewPk(e, m) + AddObjs(AddList(m))
  {
    AddSectionPending(e, m.uniques);
    AddSectionPending(e, m.fks);
    AddSectionPending(e, m.checks);
    AddSectionPending(e, m.indexes);
    var u, f, c, i := Pending(m.uniques), Pending(m.fks), Pending(m.checks), Pending(m.indexes);
    AddObjsConcat(u, f);
    AddObjsConcat(u + f, c);
    AddObjsConcat(u + f + c, i);
    var p := NewPk(e, m);
    Assoc(p, AddObjs(u), AddObjs(f));
    Assoc(p, AddObjs(u) + AddObjs(f), AddObjs(c));
    Assoc(p, AddObjs(u) + AddObjs(f) + AddObjs(c), AddObjs(i));
  }

  lemma {:induction false} PendingContent(items: seq<Item>, o: ObjText)
    ensures o in Pending(items) <==> exists x | x in items :: ToAdd(x) && x.cur == o
  {
    if items != [] {
      PendingContent(items[1..], o);
      assert forall x | x in items :: x == items[0] || x in items[1..];
      assert items[0] in items && forall x | x in items[1..] :: x in items;
    }
  }

  predicate IsPending(m: Model, k: Kind, o: ObjText) {
    exists x | x in ItemsOf(m, k) :: ToAdd(x) && x.cur == o
  }

  lemma {:induction false} AddListContent(m: Model, o: ObjText)
    ensures o in AddList(m) <==> IsPending(m, KindOf(o), o)
  {
    PendingContent(m.uniques, o);
    PendingContent(m.fks, o);
    PendingContent(m.checks, o);
    PendingContent(m.indexes, o);
    assert o in AddList(m) <==> o in Pending(m.uniques) || o in Pending(m.fks) || o in Pending(m.checks) || o in Pending(m.indexes);
    forall k: Kind | IsPending(m, k, o) ensures k == KindOf(o) {
      var x :| x in ItemsOf(m, k) && ToAdd(x) && x.cur == o;
      ItemKinds(m, k, x);
    }
    assert o in Pending(m.uniques) <==> IsPending(m, UniqKind, o);
    assert o in Pending(m.fks) <==> IsPending(m, FkKind, o);
    assert o in Pending(m.checks) <==> IsPending(m, ChkKind, o);
    assert o in Pending(m.indexes) <==> IsPending(m, IdxKind, o);
    assert !IsPending(m, PkKind, o);
  }
}
