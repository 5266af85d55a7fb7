/** What the constraint, index and column-drop statements do. */
module ObjectPhases {
  import opened Text
  import opened Ddl
  import opened TableModel

  /** No two objects compete for one name. */
  ghost predicate Spaced(e: Engine, t: Table) {
    forall a: Kind, b: Kind, n: string | a != b && SameSpace(e, a, b) && Holds(t, Key(a, n)) :: !Holds(t, Key(b, n))
  }

  predicate HasObj(objs: map<Key, Def>, k: Key, d: Def) {
    k in objs && objs[k] == d
  }

  // ---- dropping constraints and indexes ----

  function Keyed(kind: Kind, names: seq<string>): seq<Key> {
    if names == [] then [] else [Key(kind, names[0])] + Keyed(kind, names[1..])
  }

  function DropKeys(e: Engine, ks: seq<Key>): seq<Stmt> {
    if ks == [] then [] else [DropStmt(e, ks[0])] + DropKeys(e, ks[1..])
  }

  lemma {:induction false} DropKeysConcat(e: Engine, a: seq<Key>, b: seq<Key>)
    ensures DropKeys(e, a + b) == DropKeys(e, a) + DropKeys(e, b)
  {
    if a == [] {
      assert a + b == b;
    } else {
      assert (a + b)[1..] == a[1..] + b;
      DropKeysConcat(e, a[1..], b);
    }
  }

  lemma {:induction false} DropAllKeyed(e: Engine, kind: Kind, names: seq<string>)
    ensures DropAll(e, kind, names) == DropKeys(e, Keyed(kind, names))
  {
    if names != [] {
      DropAllKeyed(e, kind, names[1..]);
      assert Keyed(kind, names)[1..] == Keyed(kind, names[1..]);
    }
  }

  lemma {:induction false} KeyedContent(kind: Kind, names: seq<string>)
    ensures |Keyed(kind, names)| == |names|
    ensures forall i | 0 <= i < |names| :: Keyed(kind, names)[i] == Key(kind, names[i])
  {
    if names != [] { KeyedContent(kind, names[1..]); }
  }

  /** A drop statement removes exactly the object it was written for. */
  lemma {:induction false} DropOne(e: Engine, parse: string -> seq<string>, k: Key, t: Table)
    requires e != SQLite && Spaced(e, t) && k in t.objs && k.kind != PkKind
    ensures Step(e, parse, DropStmt(e, k), t) == Some(t.(objs := t.objs - {k}))
  {
    assert k == Key(k.kind, k.name) && Holds(t, k);
    forall b: Kind | b != k.kind && SameSpace(e, k.kind, b) ensures !Holds(t, Key(b, k.name)) {
    }
  }

  lemma {:induction false} SpacedShrinks(e: Engine, t: Table, gone: set<Key>)
    requires Spaced(e, t)
    ensures Spaced(e, t.(objs := t.objs - gone))
  {
    var t' := t.(objs := t.objs - gone);
    assert forall k | Holds(t', k) :: Holds(t, k);
  }

  lemma {:induction false} DropKeysRun(e: Engine, parse: string -> seq<string>, on: string, ks: seq<Key>, t: Table)
    requires e != SQLite && t.name == on && Spaced(e, t)
    requires forall i | 0 <= i < |ks| :: ks[i] in t.objs && ks[i].kind != PkKind
    requires forall i, j | 0 <= i < j < |ks| :: ks[i] != ks[j]
    ensures Run(e, parse, on, DropKeys(e, ks), t) == Some(t.(objs := t.objs - set k | k in ks))
  {
    if ks == [] {
      assert t.objs - (set k | k in ks) == t.objs;
    } else {
      var t' := t.(objs := t.objs - {ks[0]});
      DropOne(e, parse, ks[0], t);
      RunOne(e, parse, on, DropStmt(e, ks[0]), t);
      RunConcat(e, parse, on, [DropStmt(e, ks[0])], DropKeys(e, ks[1..]), t);
      SpacedShrinks(e, t, {ks[0]});
      DropKeysRun(e, parse, on, ks[1..], t');
      assert forall k | k in ks :: k == ks[0] || k in ks[1..];
      assert t'.objs - (set k | k in ks[1..]) == t.objs - (set k | k in ks);
    }
  }

  // ---- dropping columns ----

  /** What is left of the primary key: Postgres drops it with any of its columns,
      MySQL keeps the rest of it. */
  function ShrunkPk(e: Engine, gone: set<string>, pk: Option<Pk>): Option<Pk> {
    if pk.None? || pk.value.cols !! gone then pk
    else if e == MySQL && !(pk.value.cols <= gone) then Some(pk.value.(cols := pk.value.cols - gone))
    else None
  }

  lemma {:induction false} WithoutAbsent(refs: seq<string>, c: string)
    requires c !in refs
    ensures Without(refs, c) == refs
  {
    if refs != [] { WithoutAbsent(refs[1..], c); }
  }

  lemma {:induction false} DropColumnUnused(e: Engine, t: Table, c: string)
    requires e != SQLite && c in t.cols && forall k | k in t.objs :: c !in t.objs[k].refs
    ensures DropFromTable(e, t, c) == Some(t.(cols := t.cols - {c}, pk := ShrunkPk(e, {c}, t.pk)))
  {
    var users := set k | k in t.objs && c in t.objs[k].refs;
    var gone := set k | k in t.objs && Without(t.objs[k].refs, c) == [] && c in t.objs[k].refs;
    assert users == {} && gone == {};
    if e == Postgres {
      assert t.objs - users == t.objs;
    } else {
      var objs := map k | k in t.objs && k !in gone :: t.objs[k].(refs := Without(t.objs[k].refs, c));
      forall k | k in t.objs ensures objs[k] == t.objs[k] {
        WithoutAbsent(t.objs[k].refs, c);
      }
      assert objs == t.objs;
      assert t.pk.Some? && c in t.pk.value.cols ==> (t.pk.value.cols <= {c} <==> t.pk.value.cols == {c});
    }
  }

  lemma {:induction false} DropColumnsRun(e: Engine, parse: string -> seq<string>, on: string, names: seq<string>, t: Table)
    requires e != SQLite && t.name == on
    requires t.pk.Some? ==> t.pk.value.cols != {}
    requires forall i | 0 <= i < |names| :: names[i] in t.cols
    requires forall i, j | 0 <= i < j < |names| :: names[i] != names[j]
    requires forall k | k in t.objs :: forall n | n in names :: n !in t.objs[k].refs
    ensures var gone := set n | n in names;
            Run(e, parse, on, DropColumns(names), t) == Some(t.(cols := t.cols - gone, pk := ShrunkPk(e, gone, t.pk)))
  {
    var gone := set n | n in names;
    if names == [] {
      assert t.cols - gone == t.cols;
    } else {
      var c := names[0];
      var t' := t.(cols := t.cols - {c}, pk := ShrunkPk(e, {c}, t.pk));
      assert c in names && forall n | n in names[1..] :: n in names;
      DropColumnUnused(e, t, c);
      RunOne(e, parse, on, DropColumn(c), t);
      RunConcat(e, parse, on, [DropColumn(c)], DropColumns(names[1..]), t);
      DropColumnsRun(e, parse, on, names[1..], t');
      var later := set n | n in names[1..];
      assert gone == {c} + later;
      assert t'.cols - later == t.cols - gone;
      ShrunkTwice(e, {c}, later, t.pk);
    }
  }

  lemma {:induction false} ShrunkTwice(e: Engine, a: set<string>, b: set<string>, pk: Option<Pk>)
    requires pk.Some? ==> pk.value.cols != {}
    ensures ShrunkPk(e, b, ShrunkPk(e, a, pk)) == ShrunkPk(e, a + b, pk)
  {
    if pk.Some? {
      assert pk.value.cols - a - b == pk.value.cols - (a + b);
      assert pk.value.cols !! a ==> pk.value.cols - (a + b) == pk.value.cols - b;
      assert pk.value.cols - a !! b ==> pk.value.cols - (a + b) == pk.value.cols - a;
    }
  }

  // ---- adding constraints and indexes ----

  function Pending(items: seq<Item>): seq<ObjText> {
    if items == [] then [] else (if ToAdd(items[0]) then [items[0].cur] else []) + Pending(items[1..])
  }

  function AddObjs(os: seq<ObjText>): seq<Stmt> {
    if os == [] then [] else [AddStmt(os[0])] + AddObjs(os[1..])
  }

  lemma {:induction false} AddObjsConcat(a: seq<ObjText>, b: seq<ObjText>)
    ensures AddObjs(a + b) == AddObjs(a) + AddObjs(b)
  {
    if a == [] {
      assert a + b == b;
    } else {
      assert (a + b)[1..] == a[1..] + b;
      AddObjsConcat(a[1..], b);
    }
  }

  lemma {:induction false} AddSectionPending(e: Engine, items: seq<Item>)
    requires e != SQLite
    ensures AddSection(e, items) == AddObjs(Pending(items))
  {
    if items != [] {
      AddSectionPending(e, items[1..]);
      if ToAdd(items[0]) {
        assert Pending(items)[1..] == Pending(items[1..]);
      } else {
        assert Pending(items) == Pending(items[1..]) && AddSection(e, items) == AddSection(e, items[1..]);
      }
    }
  }

  function AddedObjs(parse: string -> seq<string>, os: seq<ObjText>, objs: map<Key, Def>): map<Key, Def> {
    if os == [] then objs else AddedObjs(parse, os[1..], objs[KeyOf(os[0]) := DefOf(parse, os[0])])
  }

  predicate Addable(e: Engine, parse: string -> seq<string>, o: ObjText, t: Table) {
    o.name != "" && NameFree(e, t, KeyOf(o)) && Complete(DefOf(parse, o)) && RefsExist(DefOf(parse, o), t.cols)
  }

  lemma {:induction false} UniqueStep(e: Engine, parse: string -> seq<string>, n: string, cols: seq<string>, t: Table)
    requires e != SQLite
    ensures Step(e, parse, AddUnique(n, cols), t) == AddDef(e, Key(UniqKind, n), UniqueDef(cols), t)
  {
  }

  lemma {:induction false} ForeignStep(e: Engine, parse: string -> seq<string>, n: string, cols: seq<string>, table: string, refCols: seq<string>, onDelete: string, t: Table)
    requires e != SQLite
    ensures Step(e, parse, AddForeignKey(n, cols, table, refCols, onDelete), t) == AddDef(e, Key(FkKind, n), ForeignDef(cols, table, refCols, onDelete), t)
  {
  }

  lemma {:induction false} CheckStep(e: Engine, parse: string -> seq<string>, n: string, text: string, t: Table)
    requires e != SQLite
    ensures Step(e, parse, AddCheck(n, text), t) == AddDef(e, Key(ChkKind, n), CheckDef(parse(text), text), t)
  {
  }

  lemma {:induction false} IndexStep(e: Engine, parse: string -> seq<string>, n: string, text: string, unique: bool, t: Table)
    ensures Step(e, parse, CreateIndex(n, text, unique), t) == AddDef(e, Key(IdxKind, n), IndexDef(parse(text), text, unique), t)
  {
  }

  /** What an add statement does, by the key and the definition it adds. */
  lemma {:induction false} AddStep(e: Engine, parse: string -> seq<string>, o: ObjText, t: Table)
    requires e != SQLite
    ensures Step(e, parse, AddStmt(o), t) == AddDef(e, KeyOf(o), DefOf(parse, o), t)
  {
    match o
    case Uniq(n, cols) => UniqueStep(e, parse, n, IdList(cols), t);
    case Fk(n, cols, table, refCols, onDelete) => ForeignStep(e, parse, n, IdList(cols), Trim(table), IdList(refCols), onDelete, t);
    case Chk(n, expr) => CheckStep(e, parse, n, Trim(expr), t);
    case Idx(n, cols, unique) => IndexStep(e, parse, n, Trim(cols), unique, t);
  }

  lemma {:induction false} AddOne(e: Engine, parse: string -> seq<string>, o: ObjText, t: Table)
    requires e != SQLite
    ensures Step(e, parse, AddStmt(o), t) ==
            if Addable(e, parse, o, t) then Some(t.(objs := t.objs[KeyOf(o) := DefOf(parse, o)])) else None
  {
    AddStep(e, parse, o, t);
  }

  /** Adding can only add: a successful run holds what it held and the new objects. */
  lemma {:induction false} AddObjsRun(e: Engine, parse: string -> seq<string>, on: string, os: seq<ObjText>, t: Table)
    requires e != SQLite && t.name == on
    ensures var r := Run(e, parse, on, AddObjs(os), t);
            r.Some? ==> r.value == t.(objs := AddedObjs(parse, os, t.objs)) && forall o | o in os :: KeyOf(o) !in t.objs
  {
    if os != [] {
      AddOne(e, parse, os[0], t);
      RunOne(e, parse, on, AddStmt(os[0]), t);
      RunConcat(e, parse, on, [AddStmt(os[0])], AddObjs(os[1..]), t);
      if Addable(e, parse, os[0], t) {
        assert !Holds(t, KeyOf(os[0])) && KeyOf(os[0]).kind != PkKind;
        AddObjsRun(e, parse, on, os[1..], t.(objs := t.objs[KeyOf(os[0]) := DefOf(parse, os[0])]));
        assert forall o | o in os :: o == os[0] || o in os[1..];
      }
    }
  }

  /** The names to be added compete with none of each other. */
  predicate Compatible(e: Engine, os: seq<ObjText>) {
    forall i, j | 0 <= i < j < |os| :: SameSpace(e, KindOf(os[i]), KindOf(os[j])) ==> os[i].name != os[j].name
  }

  lemma {:induction false} StaysAddable(e: Engine, parse: string -> seq<string>, o: ObjText, p: ObjText, t: Table)
    requires Addable(e, parse, p, t) && (SameSpace(e, KindOf(o), KindOf(p)) ==> o.name != p.name)
    ensures Addable(e, parse, p, t.(objs := t.objs[KeyOf(o) := DefOf(parse, o)]))
  {
    var t' := t.(objs := t.objs[KeyOf(o) := DefOf(parse, o)]);
    forall kind: Kind | SameSpace(e, KeyOf(p).kind, kind) ensures !Holds(t', Key(kind, p.name)) {
      assert !Holds(t, Key(kind, p.name));
      assert SameSpace(e, kind, KindOf(p));
    }
  }

  lemma {:induction false} AddObjsSucceeds(e: Engine, parse: string -> seq<string>, on: string, os: seq<ObjText>, t: Table)
    requires e != SQLite && t.name == on && Compatible(e, os)
    requires forall i | 0 <= i < |os| :: Addable(e, parse, os[i], t)
    ensures Run(e, parse, on, AddObjs(os), t).Some?
  {
    if os != [] {
      var t' := t.(objs := t.objs[KeyOf(os[0]) := DefOf(parse, os[0])]);
      AddOne(e, parse, os[0], t);
      RunOne(e, parse, on, AddStmt(os[0]), t);
      RunConcat(e, parse, on, [AddStmt(os[0])], AddObjs(os[1..]), t);
      forall i | 0 <= i < |os[1..]| ensures Addable(e, parse, os[1..][i], t') {
        assert os[1..][i] == os[i + 1];
        StaysAddable(e, parse, os[0], os[i + 1], t);
      }
      AddObjsSucceeds(e, parse, on, os[1..], t');
    }
  }

  predicate IsAdded(parse: string -> seq<string>, os: seq<ObjText>, k: Key, d: Def) {
    exists o | o in os :: KeyOf(o) == k && DefOf(parse, o) == d
  }

  lemma {:induction false} AddedContent(parse: string -> seq<string>, os: seq<ObjText>, objs: map<Key, Def>, k: Key, d: Def)
    requires forall i, j | 0 <= i < j < |os| :: KeyOf(os[i]) != KeyOf(os[j])
    requires forall o | o in os :: KeyOf(o) !in objs
    ensures HasObj(AddedObjs(parse, os, objs), k, d) <==> HasObj(objs, k, d) || IsAdded(parse, os, k, d)
  {
    if os != [] {
      var o, rest := os[0], os[1..];
      assert o in os && forall x | x in rest :: x in os;
      assert forall x | x in os :: x == o || x in rest;
      var objs' := objs[KeyOf(o) := DefOf(parse, o)];
      forall x | x in rest ensures KeyOf(x) !in objs' {
        var i :| 0 <= i < |rest| && rest[i] == x;
        assert os[i + 1] == x;
      }
      AddedContent(parse, rest, objs', k, d);
      assert IsAdded(parse, os, k, d) <==> (KeyOf(o) == k && DefOf(parse, o) == d) || IsAdded(parse, rest, k, d);
    }
  }
}
