/** What the column statements do: adding, renaming and redefining, dropping. */
module ColumnPhases {
  import opened Text
  import opened Ddl
  import opened TableModel

  predicate Renamed(c: Col) {
    c.orig.Some? && c.cur.name != c.orig.value.name
  }

  predicate IsNew(c: Col) {
    c.orig.None? && LiveName(c.cur.name)
  }

  /** No two rows were loaded from one column. */
  predicate DistinctOrigs(cols: seq<Col>) {
    forall i, j | 0 <= i < j < |cols| && cols[i].orig.Some? && cols[j].orig.Some? ::
      cols[i].orig.value.name != cols[j].orig.value.name
  }

  /** Existing rows keep a name, and no two live rows share one. */
  predicate DistinctNames(cols: seq<Col>) {
    && (forall c | c in cols && c.orig.Some? :: LiveName(c.cur.name))
    && (forall i, j | 0 <= i < j < |cols| && LiveName(cols[i].cur.name) && LiveName(cols[j].cur.name) ::
          cols[i].cur.name != cols[j].cur.name)
  }

  /** The rows were loaded from these columns. */
  predicate LoadedFrom(cols: seq<Col>, cm: map<string, ColSpec>) {
    forall c | c in cols && c.orig.Some? ::
      c.orig.value.name in cm && cm[c.orig.value.name] == SpecOf(c.orig.value) && Trim(c.orig.value.typ) != ""
  }

  /** A name taken over by a rename must be free by then: it is not a loaded name,
      or an earlier row of the list gave it up. */
  predicate RenamesFit(cols: seq<Col>, names: set<string>) {
    forall i | 0 <= i < |cols| && Renamed(cols[i]) && cols[i].cur.name in names :: VacatedBefore(cols, i)
  }

  predicate VacatedBefore(cols: seq<Col>, i: nat)
    requires i < |cols|
  {
    exists j | 0 <= j < i :: cols[j].orig.Some? && cols[j].orig.value.name == cols[i].cur.name
  }

  /** Postgres emits a blanked type as it is. */
  predicate TypesKept(e: Engine, cols: seq<Col>) {
    e == Postgres ==> forall c | c in cols && c.orig.Some? :: Trim(c.cur.typ) != ""
  }

  /** On MySQL a renamed column must not be mentioned by any loaded CHECK. */
  predicate ChecksFree(e: Engine, cols: seq<Col>, objs: map<Key, Def>) {
    forall c | c in cols && Renamed(c) :: Unchecked(e, objs, c.orig.value.name)
  }

  predicate AddsFit(cols: seq<Col>, names: set<string>) {
    forall c | c in cols && IsNew(c) :: c.cur.name !in names
  }

  // ---- where columns and references end up ----

  function AlteredCols(cols: seq<Col>, cm: map<string, ColSpec>): map<string, ColSpec> {
    if cols == [] then cm
    else if cols[0].orig.None? then AlteredCols(cols[1..], cm)
    else AlteredCols(cols[1..], (cm - {cols[0].orig.value.name})[cols[0].cur.name := SpecOf(cols[0].cur)])
  }

  /** The name a reference to `x` shows after all renames of the list ran in order. */
  function Moved(cols: seq<Col>, x: string): string {
    if cols == [] then x
    else Moved(cols[1..], if cols[0].orig.Some? && cols[0].orig.value.name == x then cols[0].cur.name else x)
  }

  function MovedDef(cols: seq<Col>, d: Def): Def {
    d.(refs := seq(|d.refs|, i requires 0 <= i < |d.refs| => Moved(cols, d.refs[i])))
  }

  function MovedPk(cols: seq<Col>, pk: Option<Pk>): Option<Pk> {
    if pk.None? then None else Some(pk.value.(cols := set x | x in pk.value.cols :: Moved(cols, x)))
  }

  function MovedObjs(cols: seq<Col>, objs: map<Key, Def>): map<Key, Def> {
    map k | k in objs :: MovedDef(cols, objs[k])
  }

  function AlteredTable(cols: seq<Col>, t: Table): Table {
    t.(cols := AlteredCols(cols, t.cols), pk := MovedPk(cols, t.pk), objs := MovedObjs(cols, t.objs))
  }

  function AddedCols(cols: seq<Col>, cm: map<string, ColSpec>): map<string, ColSpec> {
    if cols == [] then cm
    else AddedCols(cols[1..], if IsNew(cols[0]) then cm[cols[0].cur.name := SpecOf(cols[0].cur)] else cm)
  }

  // ---- phase 1: add ----

  lemma {:induction false} AddRun(e: Engine, parse: string -> seq<string>, on: string, cols: seq<Col>, t: Table)
    requires t.name == on && DistinctNames(cols)
    ensures Run(e, parse, on, AddColumns(cols), t) ==
            if AddsFit(cols, t.cols.Keys) then Some(t.(cols := AddedCols(cols, t.cols))) else None
  {
    if cols == [] { return; }
    var c := cols[0];
    assert DistinctNames(cols[1..]);
    assert forall x | x in cols :: x == c || x in cols[1..];
    if IsNew(c) {
      var s := AddColumn(c.cur.name, SpecOf(c.cur));
      RunConcat(e, parse, on, [s], AddColumns(cols[1..]), t);
      RunOne(e, parse, on, s, t);
      if c.cur.name in t.cols {
        assert c in cols;
      } else {
        var t' := t.(cols := t.cols[c.cur.name := SpecOf(c.cur)]);
        AddRun(e, parse, on, cols[1..], t');
        assert t'.cols.Keys == t.cols.Keys + {c.cur.name};
        assert forall x | x in cols[1..] && IsNew(x) :: x.cur.name != c.cur.name;
      }
    } else {
      assert AddColumns(cols) == AddColumns(cols[1..]);
      AddRun(e, parse, on, cols[1..], t);
    }
  }

  // ---- phase 2: rename, then redefine ----

  function RenamedTo(c: Col, t: Table): Table
    requires c.orig.Some? && c.orig.value.name in t.cols
  {
    var r := RenameInTable(t, c.orig.value.name, c.cur.name);
    r.(cols := r.cols[c.cur.name := SpecOf(c.cur)])
  }

  lemma {:induction false} RenameToSelf(t: Table, n: string)
    requires n in t.cols
    ensures RenameInTable(t, n, n) == t
  {
    var r := RenameInTable(t, n, n);
    assert r.cols == t.cols;
    if t.pk.Some? { assert r.pk.value.cols == t.pk.value.cols; }
    forall k | k in t.objs ensures r.objs[k] == t.objs[k] {
      assert r.objs[k].refs == t.objs[k].refs;
    }
    assert r.objs == t.objs;
  }

  lemma {:induction false} TypeRun(parse: string -> seq<string>, on: string, c: ColText, o: ColText, t: Table)
    requires t.name == on && c.name in t.cols && t.cols[c.name].typ == Trim(o.typ) != ""
    ensures Run(Postgres, parse, on, TypeStmts(c.name, c, o), t) ==
            if Trim(c.typ) == "" then None else Some(t.(cols := t.cols[c.name := t.cols[c.name].(typ := Trim(c.typ))]))
  {
    if TypeStmts(c.name, c, o) == [] {
      assert t.cols[c.name := t.cols[c.name].(typ := Trim(c.typ))] == t.cols;
    } else {
      RunOne(Postgres, parse, on, AlterType(c.name, Trim(c.typ)), t);
    }
  }

  lemma {:induction false} NotNullRun(parse: string -> seq<string>, on: string, c: ColText, o: ColText, t: Table)
    requires t.name == on && c.name in t.cols && t.cols[c.name].notNull == o.notNull && t.cols[c.name].typ != ""
    ensures Run(Postgres, parse, on, NotNullStmts(c.name, c, o), t) ==
            Some(t.(cols := t.cols[c.name := t.cols[c.name].(notNull := c.notNull)]))
  {
    if NotNullStmts(c.name, c, o) == [] {
      assert t.cols[c.name := t.cols[c.name].(notNull := c.notNull)] == t.cols;
    } else {
      RunOne(Postgres, parse, on, AlterNotNull(c.name, c.notNull), t);
    }
  }

  lemma {:induction false} DefaultRun(parse: string -> seq<string>, on: string, c: ColText, o: ColText, t: Table)
    requires t.name == on && c.name in t.cols && t.cols[c.name].def == Trim(o.def) && t.cols[c.name].typ != ""
    ensures Run(Postgres, parse, on, DefaultStmts(c.name, c, o), t) ==
            Some(t.(cols := t.cols[c.name := t.cols[c.name].(def := Trim(c.def))]))
  {
    if DefaultStmts(c.name, c, o) == [] {
      assert t.cols[c.name := t.cols[c.name].(def := Trim(c.def))] == t.cols;
    } else {
      RunOne(Postgres, parse, on, AlterDefault(c.name, Trim(c.def)), t);
    }
  }

  /** Redefining a column that is already under its new name. */
  lemma {:induction false} RedefineRun(e: Engine, parse: string -> seq<string>, on: string, c: ColText, o: ColText, t: Table)
    requires e != SQLite && t.name == on && c.name in t.cols && t.cols[c.name] == SpecOf(o) && Trim(o.typ) != ""
    ensures Run(e, parse, on, RedefineStmts(e, c, o), t) ==
            if e == Postgres && Trim(c.typ) == "" then None
            else Some(t.(cols := t.cols[c.name := SpecOf(c)]))
  {
    var n := c.name;
    if e == MySQL {
      if RedefineStmts(e, c, o) == [] {
        assert t.cols[n := SpecOf(c)] == t.cols;
      } else {
        RunOne(e, parse, on, ModifyColumn(n, SpecOf(c)), t);
      }
    } else {
      RedefinePostgres(parse, on, c, o, t);
    }
  }

  lemma {:induction false} RedefinePostgres(parse: string -> seq<string>, on: string, c: ColText, o: ColText, t: Table)
    requires t.name == on && c.name in t.cols && t.cols[c.name] == SpecOf(o) && Trim(o.typ) != ""
    ensures Run(Postgres, parse, on, RedefineStmts(Postgres, c, o), t) ==
            if Trim(c.typ) == "" then None else Some(t.(cols := t.cols[c.name := SpecOf(c)]))
  {
    var n := c.name;
    var s1, s2, s3 := TypeStmts(n, c, o), NotNullStmts(n, c, o), DefaultStmts(n, c, o);
    TypeRun(parse, on, c, o, t);
    if Trim(c.typ) == "" {
      RunConcat(Postgres, parse, on, s1 + s2, s3, t);
      RunConcat(Postgres, parse, on, s1, s2, t);
    } else {
      var t1 := t.(cols := t.cols[n := t.cols[n].(typ := Trim(c.typ))]);
      NotNullRun(parse, on, c, o, t1);
      var t2 := t1.(cols := t1.cols[n := t1.cols[n].(notNull := c.notNull)]);
      RunThree(parse, on, s1, s2, s3, t, t1, t2);
      DefaultRun(parse, on, c, o, t2);
      assert t2.cols[n := t2.cols[n].(def := Trim(c.def))] == t.cols[n := SpecOf(c)];
    }
  }

  lemma {:induction false} RunThree(parse: string -> seq<string>, on: string, s1: seq<Stmt>, s2: seq<Stmt>, s3: seq<Stmt>, t: Table, t1: Table, t2: Table)
    requires Run(Postgres, parse, on, s1, t) == Some(t1) && Run(Postgres, parse, on, s2, t1) == Some(t2)
    ensures Run(Postgres, parse, on, s1 + s2 + s3, t) == Run(Postgres, parse, on, s3, t2)
  {
    RunConcat(Postgres, parse, on, s1 + s2, s3, t);
    RunConcat(Postgres, parse, on, s1, s2, t);
  }

  lemma {:induction false} AlterOneRun(e: Engine, parse: string -> seq<string>, on: string, c: Col, t: Table)
    requires e != SQLite && t.name == on && c.orig.Some? && LoadedFrom([c], t.cols) && LiveName(c.cur.name)
    ensures c.orig.value.name in t.cols
    ensures Run(e, parse, on, AlterOne(e, c), t) ==
            if FirstFits(e, c, t) then Some(RenamedTo(c, t)) else None
  {
    var o := c.orig.value;
    assert c in [c];
    if Renamed(c) {
      var s := RenameColumn(o.name, c.cur.name);
      RunConcat(e, parse, on, [s], RedefineStmts(e, c.cur, o), t);
      RunOne(e, parse, on, s, t);
      if c.cur.name !in t.cols && Unchecked(e, t.objs, o.name) {
        RedefineRun(e, parse, on, c.cur, o, RenameInTable(t, o.name, c.cur.name));
      }
    } else {
      RenameToSelf(t, o.name);
      assert AlterOne(e, c) == RedefineStmts(e, c.cur, o);
      RedefineRun(e, parse, on, c.cur, o, t);
    }
  }

  /** Whether the first rename fits decides how the rest is judged. */
  lemma {:induction false} RenamesFitStep(cols: seq<Col>, names: set<string>)
    requires cols != [] && cols[0].orig.Some? && DistinctOrigs(cols) && DistinctNames(cols)
    ensures RenamesFit(cols, names) <==>
            (Renamed(cols[0]) ==> cols[0].cur.name !in names) &&
            RenamesFit(cols[1..], names - {cols[0].orig.value.name} + {cols[0].cur.name})
  {
    var c, rest := cols[0], cols[1..];
    var names' := names - {c.orig.value.name} + {c.cur.name};
    if RenamesFit(cols, names) {
      assert !VacatedBefore(cols, 0);
      forall i | 0 <= i < |rest| && Renamed(rest[i]) && rest[i].cur.name in names' ensures VacatedBefore(rest, i) {
        assert rest[i] == cols[i + 1] && rest[i] in cols && c in cols;
        assert VacatedBefore(cols, i + 1);
        var j :| 0 <= j < i + 1 && cols[j].orig.Some? && cols[j].orig.value.name == cols[i + 1].cur.name;
        assert cols[j] == rest[j - 1];
      }
    }
    if (Renamed(c) ==> c.cur.name !in names) && RenamesFit(rest, names') {
      forall i | 0 <= i < |cols| && Renamed(cols[i]) && cols[i].cur.name in names ensures VacatedBefore(cols, i) {
        assert cols[i] == rest[i - 1];
        if cols[i].cur.name != c.orig.value.name {
          assert VacatedBefore(rest, i - 1);
          var j :| 0 <= j < i - 1 && rest[j].orig.Some? && rest[j].orig.value.name == rest[i - 1].cur.name;
          assert cols[j + 1] == rest[j];
        }
      }
    }
  }

  lemma {:induction false} MovedTailDef(cols: seq<Col>, d: Def)
    requires cols != [] && cols[0].orig.Some?
    ensures MovedDef(cols[1..], RenameRefs(cols[0].orig.value.name, cols[0].cur.name, d)) == MovedDef(cols, d)
  {
    assert MovedDef(cols[1..], RenameRefs(cols[0].orig.value.name, cols[0].cur.name, d)).refs == MovedDef(cols, d).refs;
  }

  lemma {:induction false} MovedTailPk(cols: seq<Col>, t: Table)
    requires cols != [] && cols[0].orig.Some? && cols[0].orig.value.name in t.cols
    ensures MovedPk(cols[1..], RenamedTo(cols[0], t).pk) == MovedPk(cols, t.pk)
  {
    var a, b := cols[0].orig.value.name, cols[0].cur.name;
    if t.pk.Some? {
      assert forall x | x in t.pk.value.cols :: Moved(cols, x) == Moved(cols[1..], RenameRef(a, b, x));
      assert MovedPk(cols[1..], RenamedTo(cols[0], t).pk).value.cols == MovedPk(cols, t.pk).value.cols;
    }
  }

  lemma {:induction false} MovedTail(cols: seq<Col>, t: Table)
    requires cols != [] && cols[0].orig.Some? && cols[0].orig.value.name in t.cols
    ensures AlteredTable(cols[1..], RenamedTo(cols[0], t)) == AlteredTable(cols, t)
  {
    var c := cols[0];
    var r := RenamedTo(c, t);
    MovedTailPk(cols, t);
    forall k | k in t.objs ensures MovedObjs(cols[1..], r.objs)[k] == MovedObjs(cols, t.objs)[k] {
      MovedTailDef(cols, t.objs[k]);
    }
    assert MovedObjs(cols[1..], r.objs) == MovedObjs(cols, t.objs);
    assert r.cols == (t.cols - {c.orig.value.name})[c.cur.name := SpecOf(c.cur)];
  }

  lemma {:induction false} AlterNothing(cols: seq<Col>, t: Table)
    requires forall x :: Moved(cols, x) == x
    ensures MovedPk(cols, t.pk) == t.pk && MovedObjs(cols, t.objs) == t.objs
  {
    forall k | k in t.objs ensures MovedDef(cols, t.objs[k]) == t.objs[k] {
      assert MovedDef(cols, t.objs[k]).refs == t.objs[k].refs;
    }
    if t.pk.Some? { assert MovedPk(cols, t.pk).value.cols == t.pk.value.cols; }
  }

  lemma {:induction false} FirstRowNew(cols: seq<Col>, names: set<string>)
    requires cols != [] && cols[0].orig.None?
    ensures RenamesFit(cols, names) <==> RenamesFit(cols[1..], names)
  {
    var rest := cols[1..];
    if RenamesFit(cols, names) {
      forall i | 0 <= i < |rest| && Renamed(rest[i]) && rest[i].cur.name in names ensures VacatedBefore(rest, i) {
        assert rest[i] == cols[i + 1];
        assert VacatedBefore(cols, i + 1);
        var j :| 0 <= j < i + 1 && cols[j].orig.Some? && cols[j].orig.value.name == cols[i + 1].cur.name;
        assert cols[j] == rest[j - 1];
      }
    }
    if RenamesFit(rest, names) {
      forall i | 0 <= i < |cols| && Renamed(cols[i]) && cols[i].cur.name in names ensures VacatedBefore(cols, i) {
        assert cols[i] == rest[i - 1];
        assert VacatedBefore(rest, i - 1);
        var j :| 0 <= j < i - 1 && rest[j].orig.Some? && rest[j].orig.value.name == rest[i - 1].cur.name;
        assert cols[j + 1] == rest[j];
      }
    }
  }

  lemma {:induction false} AlteredSkip(cols: seq<Col>, t: Table)
    requires cols != [] && cols[0].orig.None?
    ensures AlteredTable(cols, t) == AlteredTable(cols[1..], t)
  {
    var rest := cols[1..];
    forall k | k in t.objs ensures MovedDef(cols, t.objs[k]) == MovedDef(rest, t.objs[k]) {
      assert MovedDef(cols, t.objs[k]).refs == MovedDef(rest, t.objs[k]).refs;
    }
    assert MovedObjs(cols, t.objs) == MovedObjs(rest, t.objs);
    if t.pk.Some? { assert MovedPk(cols, t.pk).value.cols == MovedPk(rest, t.pk).value.cols; }
  }

  lemma {:induction false} LoadedRest(cols: seq<Col>, t: Table)
    requires LoadedFrom(cols, t.cols) && DistinctOrigs(cols) && DistinctNames(cols)
    requires cols != [] && cols[0].orig.Some? && (Renamed(cols[0]) ==> cols[0].cur.name !in t.cols)
    ensures cols[0].orig.value.name in t.cols && LoadedFrom(cols[1..], RenamedTo(cols[0], t).cols)
  {
    var c, rest := cols[0], cols[1..];
    assert c in cols;
    var r := RenamedTo(c, t);
    forall x | x in rest && x.orig.Some?
      ensures x.orig.value.name in r.cols && r.cols[x.orig.value.name] == SpecOf(x.orig.value) && Trim(x.orig.value.typ) != ""
    {
      var i :| 0 <= i < |rest| && rest[i] == x;
      assert cols[i + 1] == x && x in cols;
    }
  }

  predicate FirstFits(e: Engine, c: Col, t: Table) {
    && (Renamed(c) ==> c.cur.name !in t.cols && Unchecked(e, t.objs, c.orig.value.name))
    && (e == Postgres ==> Trim(c.cur.typ) != "")
  }

  /** A rename that MySQL accepts leaves every CHECK as it was. */
  lemma {:induction false} UncheckedStays(e: Engine, objs: map<Key, Def>, a: string, b: string, n: string)
    requires Unchecked(e, objs, a) || a == b
    ensures Unchecked(e, map k | k in objs :: RenameRefs(a, b, objs[k]), n) == Unchecked(e, objs, n)
  {
    var objs' := map k | k in objs :: RenameRefs(a, b, objs[k]);
    forall k | k in objs && k.kind == ChkKind && (a !in objs[k].refs || a == b) ensures objs'[k].refs == objs[k].refs {
      forall i | 0 <= i < |objs[k].refs| ensures RenameRef(a, b, objs[k].refs[i]) == objs[k].refs[i] {
        assert objs[k].refs[i] in objs[k].refs;
      }
    }
  }

  lemma {:induction false} ChecksFreeStep(e: Engine, cols: seq<Col>, t: Table)
    requires cols != [] && cols[0].orig.Some? && cols[0].orig.value.name in t.cols
    ensures ChecksFree(e, cols, t.objs) <==>
            (Renamed(cols[0]) ==> Unchecked(e, t.objs, cols[0].orig.value.name)) && ChecksFree(e, cols[1..], t.objs)
    ensures (Renamed(cols[0]) ==> Unchecked(e, t.objs, cols[0].orig.value.name)) ==>
              (ChecksFree(e, cols[1..], RenamedTo(cols[0], t).objs) <==> ChecksFree(e, cols[1..], t.objs))
  {
    var c, rest := cols[0], cols[1..];
    assert c in cols && forall x | x in rest :: x in cols;
    assert forall x | x in cols :: x == c || x in rest;
    if Renamed(c) ==> Unchecked(e, t.objs, c.orig.value.name) {
      forall n ensures Unchecked(e, RenamedTo(c, t).objs, n) == Unchecked(e, t.objs, n) {
        UncheckedStays(e, t.objs, c.orig.value.name, c.cur.name, n);
      }
    }
  }

  lemma {:induction false} ChecksFreeNew(e: Engine, cols: seq<Col>, objs: map<Key, Def>)
    requires cols != [] && cols[0].orig.None?
    ensures ChecksFree(e, cols, objs) <==> ChecksFree(e, cols[1..], objs)
  {
    assert forall x | x in cols[1..] :: x in cols;
    assert forall x | x in cols :: x == cols[0] || x in cols[1..];
  }

  lemma {:induction false} AlterFirstRun(e: Engine, parse: string -> seq<string>, on: string, cols: seq<Col>, t: Table)
    requires e != SQLite && t.name == on && cols != [] && cols[0].orig.Some?
    requires LoadedFrom(cols, t.cols) && LiveName(cols[0].cur.name)
    ensures cols[0].orig.value.name in t.cols
    ensures Run(e, parse, on, AlterColumns(e, cols), t) ==
            if FirstFits(e, cols[0], t) then Run(e, parse, on, AlterColumns(e, cols[1..]), RenamedTo(cols[0], t)) else None
  {
    var c := cols[0];
    assert c in cols;
    AlterOneRun(e, parse, on, c, t);
    RunConcat(e, parse, on, AlterOne(e, c), AlterColumns(e, cols[1..]), t);
  }

  lemma {:induction false} TypesKeptStep(e: Engine, cols: seq<Col>)
    requires cols != []
    ensures TypesKept(e, cols) <==>
            (e == Postgres && cols[0].orig.Some? ==> Trim(cols[0].cur.typ) != "") && TypesKept(e, cols[1..])
  {
    assert cols[0] in cols && forall x | x in cols[1..] :: x in cols;
    assert forall x | x in cols :: x == cols[0] || x in cols[1..];
  }

  lemma {:induction false} RestDistinct(cols: seq<Col>, cm: map<string, ColSpec>)
    requires cols != [] && LoadedFrom(cols, cm) && DistinctOrigs(cols) && DistinctNames(cols)
    ensures LoadedFrom(cols[1..], cm) && DistinctOrigs(cols[1..]) && DistinctNames(cols[1..])
    ensures cols[0].orig.Some? ==> LiveName(cols[0].cur.name)
  {
    assert cols[0] in cols && forall x | x in cols[1..] :: x in cols;
  }

  /** The alter phase succeeds exactly when every rename fits, no type is blanked and, on MySQL, no
      CHECK mentions a renamed column. */
  ghost predicate AlterOutcome(e: Engine, parse: string -> seq<string>, on: string, cols: seq<Col>, t: Table) {
    Run(e, parse, on, AlterColumns(e, cols), t) ==
    if RenamesFit(cols, t.cols.Keys) && TypesKept(e, cols) && ChecksFree(e, cols, t.objs) then Some(AlteredTable(cols, t)) else None
  }

  lemma {:induction false} OutcomeAfterNew(e: Engine, parse: string -> seq<string>, on: string, cols: seq<Col>, t: Table)
    requires cols != [] && cols[0].orig.None? && AlterOutcome(e, parse, on, cols[1..], t)
    ensures AlterOutcome(e, parse, on, cols, t)
  {
    assert AlterColumns(e, cols) == AlterColumns(e, cols[1..]);
    TypesKeptStep(e, cols);
    FirstRowNew(cols, t.cols.Keys);
    ChecksFreeNew(e, cols, t.objs);
    AlteredSkip(cols, t);
  }

  lemma {:induction false} OutcomeAfterExisting(e: Engine, parse: string -> seq<string>, on: string, cols: seq<Col>, t: Table)
    requires e != SQLite && t.name == on && cols != [] && cols[0].orig.Some?
    requires LoadedFrom(cols, t.cols) && DistinctOrigs(cols) && DistinctNames(cols)
    requires cols[0].orig.value.name in t.cols
    requires FirstFits(e, cols[0], t) ==> AlterOutcome(e, parse, on, cols[1..], RenamedTo(cols[0], t))
    ensures AlterOutcome(e, parse, on, cols, t)
  {
    RestDistinct(cols, t.cols);
    AlterFirstRun(e, parse, on, cols, t);
    TypesKeptStep(e, cols);
    RenamesFitStep(cols, t.cols.Keys);
    ChecksFreeStep(e, cols, t);
    MovedTail(cols, t);
    assert RenamedTo(cols[0], t).cols.Keys == t.cols.Keys - {cols[0].orig.value.name} + {cols[0].cur.name};
  }

  lemma {:induction false} AlterRun(e: Engine, parse: string -> seq<string>, on: string, cols: seq<Col>, t: Table)
    requires e != SQLite && t.name == on && LoadedFrom(cols, t.cols) && DistinctOrigs(cols) && DistinctNames(cols)
    ensures AlterOutcome(e, parse, on, cols, t)
  {
    if cols == [] {
      AlterNothing(cols, t);
      return;
    }
    RestDistinct(cols, t.cols);
    if cols[0].orig.None? {
      AlterRun(e, parse, on, cols[1..], t);
      OutcomeAfterNew(e, parse, on, cols, t);
    } else {
      assert cols[0] in cols;
      if FirstFits(e, cols[0], t) {
        LoadedRest(cols, t);
        AlterRun(e, parse, on, cols[1..], RenamedTo(cols[0], t));
      }
      OutcomeAfterExisting(e, parse, on, cols, t);
    }
  }

  // ---- what the phases leave behind ----

  predicate HasCol(cm: map<string, ColSpec>, n: string, s: ColSpec) {
    n in cm && cm[n] == s
  }

  predicate OrigName(cols: seq<Col>, n: string) {
    exists c | c in cols :: c.orig.Some? && c.orig.value.name == n
  }

  /** Some existing row now shows the column `n` as `s`. */
  predicate ShownExisting(cols: seq<Col>, n: string, s: ColSpec) {
    exists c | c in cols :: c.orig.Some? && c.cur.name == n && SpecOf(c.cur) == s
  }

  predicate ShownNew(cols: seq<Col>, n: string, s: ColSpec) {
    exists c | c in cols :: IsNew(c) && c.cur.name == n && SpecOf(c.cur) == s
  }

  lemma {:induction false} AddedContent(cols: seq<Col>, cm: map<string, ColSpec>, n: string, s: ColSpec)
    requires DistinctNames(cols) && AddsFit(cols, cm.Keys)
    ensures HasCol(AddedCols(cols, cm), n, s) <==> HasCol(cm, n, s) || ShownNew(cols, n, s)
  {
    if cols == [] { return; }
    var c, rest := cols[0], cols[1..];
    assert c in cols && forall x | x in rest :: x in cols;
    assert forall x | x in cols :: x == c || x in rest;
    var cm' := if IsNew(c) then cm[c.cur.name := SpecOf(c.cur)] else cm;
    assert AddsFit(rest, cm'.Keys) by {
      forall x | x in rest && IsNew(x) ensures x.cur.name !in cm' {
        var i :| 0 <= i < |rest| && rest[i] == x;
        assert cols[i + 1] == x;
      }
    }
    AddedContent(rest, cm', n, s);
    assert ShownNew(cols, n, s) <==> (IsNew(c) && c.cur.name == n && SpecOf(c.cur) == s) || ShownNew(rest, n, s);
  }

  lemma {:induction false} OrigsLater(cols: seq<Col>, n: string)
    requires cols != [] && cols[0].orig.Some? && DistinctOrigs(cols)
    ensures !OrigName(cols[1..], cols[0].orig.value.name)
    ensures OrigName(cols, n) <==> n == cols[0].orig.value.name || OrigName(cols[1..], n)
  {
    var c, rest := cols[0], cols[1..];
    assert c in cols && forall x | x in rest :: x in cols;
    assert forall x | x in cols :: x == c || x in rest;
  }

  lemma {:induction false} ShownStep(cols: seq<Col>, n: string, s: ColSpec)
    requires cols != [] && cols[0].orig.Some? && DistinctNames(cols)
    ensures ShownExisting(cols, n, s) <==> (n == cols[0].cur.name && s == SpecOf(cols[0].cur)) || ShownExisting(cols[1..], n, s)
    ensures n == cols[0].cur.name ==> !ShownExisting(cols[1..], n, s)
  {
    var c, rest := cols[0], cols[1..];
    assert c in cols && forall x | x in rest :: x in cols;
    assert forall x | x in cols :: x == c || x in rest;
  }

  lemma {:induction false} AlteredContent(cols: seq<Col>, cm: map<string, ColSpec>, n: string, s: ColSpec)
    requires DistinctOrigs(cols) && DistinctNames(cols) && LoadedFrom(cols, cm) && RenamesFit(cols, cm.Keys)
    ensures HasCol(AlteredCols(cols, cm), n, s) <==> ShownExisting(cols, n, s) || (HasCol(cm, n, s) && !OrigName(cols, n))
  {
    if cols == [] { return; }
    RestDistinct(cols, cm);
    if cols[0].orig.None? {
      FirstRowNew(cols, cm.Keys);
      AlteredContent(cols[1..], cm, n, s);
      assert forall x | x in cols :: x == cols[0] || x in cols[1..];
      assert forall x | x in cols[1..] :: x in cols;
    } else {
      AlteredContentStep(cols, cm, n, s);
      AlteredContent(cols[1..], (cm - {cols[0].orig.value.name})[cols[0].cur.name := SpecOf(cols[0].cur)], n, s);
    }
  }

  lemma {:induction false} AlteredContentStep(cols: seq<Col>, cm: map<string, ColSpec>, n: string, s: ColSpec)
    requires DistinctOrigs(cols) && DistinctNames(cols) && LoadedFrom(cols, cm) && RenamesFit(cols, cm.Keys)
    requires cols != [] && cols[0].orig.Some?
    ensures var cm' := (cm - {cols[0].orig.value.name})[cols[0].cur.name := SpecOf(cols[0].cur)];
            && LoadedFrom(cols[1..], cm') && RenamesFit(cols[1..], cm'.Keys)
            && ((ShownExisting(cols[1..], n, s) || (HasCol(cm', n, s) && !OrigName(cols[1..], n))) <==>
                (ShownExisting(cols, n, s) || (HasCol(cm, n, s) && !OrigName(cols, n))))
  {
    var c := cols[0];
    var cm' := (cm - {c.orig.value.name})[c.cur.name := SpecOf(c.cur)];
    assert c in cols;
    assert cm'.Keys == cm.Keys - {c.orig.value.name} + {c.cur.name};
    RenamesFitStep(cols, cm.Keys);
    var t := Table("", "", cm, None, map[]);
    LoadedRest(cols, t);
    assert RenamedTo(c, t).cols == cm';
    OrigsLater(cols, n);
    ShownStep(cols, n, s);
    TakenNamesFresh(cols, cm.Keys);
  }

  /** The name the first row moves to is not the loaded name of a later row. */
  lemma {:induction false} TakenNamesFresh(cols: seq<Col>, names: set<string>)
    requires cols != [] && cols[0].orig.Some? && DistinctOrigs(cols)
    requires Renamed(cols[0]) ==> cols[0].cur.name !in names
    requires forall c | c in cols && c.orig.Some? :: c.orig.value.name in names
    ensures !OrigName(cols[1..], cols[0].cur.name)
  {
    OrigsLater(cols, cols[0].cur.name);
    assert forall x | x in cols[1..] :: x in cols;
  }

  /** A reference follows its own column and nothing else. */
  lemma {:induction false} MovedContent(cols: seq<Col>, cm: map<string, ColSpec>, x: string)
    requires DistinctOrigs(cols) && DistinctNames(cols) && LoadedFrom(cols, cm) && RenamesFit(cols, cm.Keys)
    ensures !OrigName(cols, x) ==> Moved(cols, x) == x
    ensures forall c | c in cols && c.orig.Some? && c.orig.value.name == x :: Moved(cols, x) == c.cur.name
  {
    if cols == [] { return; }
    var c, rest := cols[0], cols[1..];
    RestDistinct(cols, cm);
    assert c in cols && forall y | y in rest :: y in cols;
    assert forall y | y in cols :: y == c || y in rest;
    if c.orig.None? {
      FirstRowNew(cols, cm.Keys);
      MovedContent(rest, cm, x);
    } else {
      AlteredContentStep(cols, cm, x, SpecOf(c.cur));
      OrigsLater(cols, x);
      RenamesFitStep(cols, cm.Keys);
      TakenNamesFresh(cols, cm.Keys);
      var cm' := (cm - {c.orig.value.name})[c.cur.name := SpecOf(c.cur)];
      MovedContent(rest, cm', if x == c.orig.value.name then c.cur.name else x);
    }
  }
}
