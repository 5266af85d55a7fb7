/** Creating a table, describing it back and loading it again. */
module CreateTable {
  import opened Text
  import opened Ddl
  import opened TableModel
  import opened ColumnPhases
  import opened OP = ObjectPhases
  import opened SchemaDiff
  import SchemaObjects
  import SchemaTheorem
  import SchemaKeys

  /** CREATE TABLE with its column list and inline clauses, and the statements after it. */
  datatype CreateScript = CreateScript(table: string, cols: seq<(string, ColSpec)>, clauses: seq<Stmt>, after: seq<Stmt>)

  function LiveCols(cols: seq<Col>): seq<(string, ColSpec)> {
    if cols == [] then []
    else (if LiveName(cols[0].cur.name) then [(cols[0].cur.name, SpecOf(cols[0].cur))] else []) + LiveCols(cols[1..])
  }

  function Clauses(items: seq<Item>): seq<Stmt> {
    if items == [] then [] else (if !Blank(items[0].cur) then [AddStmt(items[0].cur)] else []) + Clauses(items[1..])
  }

  function PkClause(e: Engine, m: Model): seq<Stmt> {
    var cols := PkNames(m.cols);
    if cols == [] then [] else if e == MySQL then [AddPrimaryKey(cols)] else [AddNamedPrimaryKey(PkName(m), cols)]
  }

  function Create(e: Engine, m: Model): CreateScript {
    CreateScript(
      if m.name != "" then m.name else "table_name",
      LiveCols(m.cols),
      PkClause(e, m) + Clauses(m.uniques) + Clauses(m.fks) + Clauses(m.checks),
      Clauses(m.indexes) + if Trim(m.comment) != "" && e != SQLite then [SetComment(Trim(m.comment))] else [])
  }

  method PushClauses(items: seq<Item>) returns (out: seq<Stmt>)
    ensures out == Clauses(items)
  {
    out := [];
    for i := 0 to |items|
      invariant Clauses(items) == out + Clauses(items[i..])
    {
      ghost var rest := Clauses(items[i + 1..]);
      assert items[i..][1..] == items[i + 1..];
      if !Blank(items[i].cur) {
        Assoc(out, [AddStmt(items[i].cur)], rest);
        out := out + [AddStmt(items[i].cur)];
      } else {
        assert Clauses(items[i..]) == rest;
      }
    }
  }

  method GenerateCreate(m: Model, e: Engine) returns (out: CreateScript)
    ensures out == Create(e, m)
  {
    var inner := PkClause(e, m);
    var part := PushClauses(m.uniques);
    inner := inner + part;
    part := PushClauses(m.fks);
    inner := inner + part;
    part := PushClauses(m.checks);
    inner := inner + part;
    var after := PushClauses(m.indexes);
    after := after + if Trim(m.comment) != "" && e != SQLite then [SetComment(Trim(m.comment))] else [];
    out := CreateScript(if m.name != "" then m.name else "table_name", LiveCols(m.cols), inner, after);
  }

  function WithoutComments(script: seq<Stmt>): seq<Stmt> {
    if script == [] then []
    else (if script[0].SetComment? then [] else [script[0]]) + WithoutComments(script[1..])
  }

  lemma {:induction false} ClausesHaveNoComment(items: seq<Item>, tail: seq<Stmt>)
    ensures WithoutComments(Clauses(items) + tail) == Clauses(items) + WithoutComments(tail)
  {
    if items == [] {
      assert Clauses(items) + tail == tail;
    } else {
      ClausesHaveNoComment(items[1..], tail);
      if !Blank(items[0].cur) {
        var rest := Clauses(items[1..]);
        assert Clauses(items) + tail == [AddStmt(items[0].cur)] + (rest + tail);
        assert (Clauses(items) + tail)[1..] == rest + tail;
        Assoc([AddStmt(items[0].cur)], rest, WithoutComments(tail));
      } else {
        assert Clauses(items) == Clauses(items[1..]);
      }
    }
  }

  /** SQLite is sent what Postgres is sent, without the comment; and an unnamed table gets a name. */
  lemma {:induction false} SqliteCreateIsPostgres(e: Engine, m: Model)
    ensures Create(SQLite, m) == Create(Postgres, m).(after := WithoutComments(Create(Postgres, m).after))
    ensures Create(e, m).table == if m.name == "" then "table_name" else m.name
  {
    var tail := if Trim(m.comment) != "" then [SetComment(Trim(m.comment))] else [];
    ClausesHaveNoComment(m.indexes, tail);
    assert WithoutComments(tail) == [] by { assert tail != [] ==> tail[1..] == []; }
    assert Clauses(m.indexes) + [] == Clauses(m.indexes);
  }

  // ---- running it ----

  function ColumnMap(cols: seq<(string, ColSpec)>): map<string, ColSpec> {
    if cols == [] then map[] else ColumnMap(cols[1..])[cols[0].0 := cols[0].1]
  }

  predicate DistinctColumns(cols: seq<(string, ColSpec)>) {
    && (forall i | 0 <= i < |cols| :: cols[i].0 != "" && cols[i].1.typ != "")
    && (forall i, j | 0 <= i < j < |cols| :: cols[i].0 != cols[j].0)
  }

  function RunCreate(e: Engine, parse: string -> seq<string>, s: CreateScript): Option<Table> {
    if !DistinctColumns(s.cols) then None
    else Run(e, parse, s.table, s.clauses + s.after, Table(s.table, "", ColumnMap(s.cols), None, map[]))
  }

  /** A model built from scratch: nothing was loaded. */
  predicate IsFresh(m: Model) {
    && m.snapshot.pkName == "" && LiveName(m.name)
    && (forall c | c in m.cols :: c.orig.None?)
    && (forall k: Kind, x | x in ItemsOf(m, k) :: x.orig.None?)
  }

  lemma {:induction false} LiveColsContent(cols: seq<Col>, n: string, s: ColSpec)
    ensures (n, s) in LiveCols(cols) <==> ShownCol(cols, n, s)
  {
    if cols != [] {
      LiveColsContent(cols[1..], n, s);
      assert forall c | c in cols :: c == cols[0] || c in cols[1..];
      assert cols[0] in cols && forall c | c in cols[1..] :: c in cols;
    }
  }

  lemma {:induction false} FirstNotLater(cols: seq<Col>, i: nat)
    requires DistinctNames(cols) && cols != [] && LiveName(cols[0].cur.name) && i < |LiveCols(cols[1..])|
    ensures LiveCols(cols[1..])[i].0 != cols[0].cur.name
  {
    var rest := cols[1..];
    var p := LiveCols(rest)[i];
    LiveColsContent(rest, p.0, p.1);
    var x :| x in rest && LiveName(x.cur.name) && x.cur.name == p.0 && SpecOf(x.cur) == p.1;
    var j :| 0 <= j < |rest| && rest[j] == x;
    assert cols[j + 1] == x;
  }

  lemma {:induction false} LiveColsDistinct(cols: seq<Col>)
    requires DistinctNames(cols)
    ensures DistinctColumns(LiveCols(cols))
  {
    if cols != [] {
      var rest := cols[1..];
      assert DistinctNames(rest) by { assert forall x | x in rest :: x in cols; }
      LiveColsDistinct(rest);
      if LiveName(cols[0].cur.name) {
        forall i | 0 <= i < |LiveCols(rest)| ensures LiveCols(rest)[i].0 != cols[0].cur.name {
          FirstNotLater(cols, i);
        }
      }
    }
  }

  lemma {:induction false} ColumnMapContent(cols: seq<(string, ColSpec)>, n: string, s: ColSpec)
    requires DistinctColumns(cols)
    ensures HasCol(ColumnMap(cols), n, s) <==> (n, s) in cols
  {
    if cols != [] {
      ColumnMapContent(cols[1..], n, s);
      assert forall p | p in cols :: p == cols[0] || p in cols[1..];
      if n == cols[0].0 {
        assert forall i | 0 <= i < |cols[1..]| :: cols[1..][i] == cols[i + 1];
      }
    }
  }

  lemma {:induction false} FreshClauses(items: seq<Item>)
    requires forall i | 0 <= i < |items| :: items[i].orig.None?
    ensures Clauses(items) == AddObjs(Pending(items))
  {
    if items != [] {
      FreshClauses(items[1..]);
      if ToAdd(items[0]) {
        assert Pending(items)[1..] == Pending(items[1..]);
      } else {
        assert Pending(items) == Pending(items[1..]) && Clauses(items) == Clauses(items[1..]);
      }
    }
  }

  lemma {:induction false} FreshScript(e: Engine, m: Model)
    requires IsFresh(m) && e != SQLite
    ensures var s := Create(e, m);
            s.clauses + s.after == PkClause(e, m) + AddObjs(SchemaObjects.AddList(m))
                                   + (if Trim(m.comment) != "" then [SetComment(Trim(m.comment))] else [])
  {
    FreshLists(m);
    var p, u, f, c, i := PkClause(e, m), Clauses(m.uniques), Clauses(m.fks), Clauses(m.checks), Clauses(m.indexes);
    var tail := if Trim(m.comment) != "" then [SetComment(Trim(m.comment))] else [];
    SchemaObjects.AssocFive(p, u, f, c, i);
    Assoc(p + u + f + c, i, tail);
  }

  lemma {:induction false} FreshKind(m: Model, k: Kind)
    requires IsFresh(m)
    ensures Clauses(ItemsOf(m, k)) == AddObjs(Pending(ItemsOf(m, k)))
  {
    assert forall i | 0 <= i < |ItemsOf(m, k)| :: ItemsOf(m, k)[i] in ItemsOf(m, k);
    FreshClauses(ItemsOf(m, k));
  }

  lemma {:induction false} FourObjLists(u: seq<ObjText>, f: seq<ObjText>, c: seq<ObjText>, i: seq<ObjText>)
    ensures AddObjs(u + f + c + i) == AddObjs(u) + AddObjs(f) + AddObjs(c) + AddObjs(i)
  {
    AddObjsConcat(u, f);
    AddObjsConcat(u + f, c);
    AddObjsConcat(u + f + c, i);
  }

  lemma {:induction false} FreshLists(m: Model)
    requires IsFresh(m)
    ensures AddObjs(SchemaObjects.AddList(m)) == Clauses(m.uniques) + Clauses(m.fks) + Clauses(m.checks) + Clauses(m.indexes)
  {
    FreshKind(m, UniqKind);
    FreshKind(m, FkKind);
    FreshKind(m, ChkKind);
    FreshKind(m, IdxKind);
    FourObjLists(Pending(m.uniques), Pending(m.fks), Pending(m.checks), Pending(m.indexes));
  }

  // ---- what it builds ----

  function Bare(m: Model): Table {
    Table(m.name, "", ColumnMap(LiveCols(m.cols)), None, map[])
  }

  lemma {:induction false} BareColumns(m: Model, n: string, s: ColSpec)
    requires DistinctNames(m.cols)
    ensures HasCol(Bare(m).cols, n, s) <==> ShownCol(m.cols, n, s)
  {
    LiveColsDistinct(m.cols);
    ColumnMapContent(LiveCols(m.cols), n, s);
    LiveColsContent(m.cols, n, s);
  }

  lemma {:induction false} BareNames(m: Model, n: string)
    requires DistinctNames(m.cols) && ShownName(m.cols, n)
    ensures n in Bare(m).cols
  {
    var c :| c in m.cols && LiveName(c.cur.name) && c.cur.name == n;
    BareColumns(m, n, SpecOf(c.cur));
  }

  lemma {:induction false} PkClauseStep(e: Engine, parse: string -> seq<string>, m: Model, t: Table)
    requires e != SQLite && PkNames(m.cols) != []
    ensures Run(e, parse, t.name, PkClause(e, m), t) == AddPk(e, ShownPkName(e, m), PkNames(m.cols), t)
  {
    var cols := PkNames(m.cols);
    if e == MySQL {
      assert PkClause(e, m) == [AddPrimaryKey(cols)];
      RunOne(e, parse, t.name, AddPrimaryKey(cols), t);
    } else {
      assert PkClause(e, m) == [AddNamedPrimaryKey(PkName(m), cols)];
      RunOne(e, parse, t.name, AddNamedPrimaryKey(PkName(m), cols), t);
    }
  }

  lemma {:induction false} PkClauseRun(e: Engine, parse: string -> seq<string>, m: Model)
    requires e != SQLite && DistinctNames(m.cols)
    ensures Run(e, parse, m.name, PkClause(e, m), Bare(m)) == Some(Bare(m).(pk := ShownPk(e, m)))
  {
    forall n | n in PkNames(m.cols) ensures n in Bare(m).cols {
      SchemaKeys.PkNamesContent(m.cols, n);
      BareNames(m, n);
    }
    if PkNames(m.cols) != [] { PkClauseStep(e, parse, m, Bare(m)); }
  }

  lemma {:induction false} FreshAddable(e: Engine, parse: string -> seq<string>, m: Model, o: ObjText)
    requires e != SQLite && WellFormedEdit(e, parse, m) && o in SchemaObjects.AddList(m)
    ensures Addable(e, parse, o, Bare(m).(pk := ShownPk(e, m)))
  {
    SchemaObjects.AddListContent(m, o);
    var x :| x in ItemsOf(m, KindOf(o)) && ToAdd(x) && x.cur == o;
    assert Denoted(x);
    assert SameSpace(e, KindOf(o), PkKind) ==> SameSpace(e, PkKind, KindOf(o));
    forall r | r in DefOf(parse, o).refs ensures r in Bare(m).cols {
      BareNames(m, r);
    }
  }

  lemma {:induction false} FreshObjectsRun(e: Engine, parse: string -> seq<string>, m: Model)
    requires e != SQLite && WellFormedEdit(e, parse, m)
    ensures var t := Bare(m).(pk := ShownPk(e, m));
            Run(e, parse, m.name, AddObjs(SchemaObjects.AddList(m)), t) == Some(t.(objs := AddedObjs(parse, SchemaObjects.AddList(m), map[])))
  {
    var t := Bare(m).(pk := ShownPk(e, m));
    var os := SchemaObjects.AddList(m);
    SchemaTheorem.AddListCompatible(e, parse, m);
    forall i | 0 <= i < |os| ensures Addable(e, parse, os[i], t) {
      FreshAddable(e, parse, m, os[i]);
    }
    AddObjsSucceeds(e, parse, m.name, os, t);
    AddObjsRun(e, parse, m.name, os, t);
  }

  lemma {:induction false} FreshObjectsShown(e: Engine, parse: string -> seq<string>, m: Model, k: Key, d: Def)
    requires WellFormedEdit(e, parse, m) && IsFresh(m)
    ensures HasObj(AddedObjs(parse, SchemaObjects.AddList(m), map[]), k, d) <==> ShownObj(parse, m, k, d)
  {
    SchemaTheorem.AddListKeys(e, parse, m);
    OP.AddedContent(parse, SchemaObjects.AddList(m), map[], k, d);
    SchemaTheorem.AddedIsPending(parse, m, k, d);
    assert forall x | x in ItemsOf(m, k.kind) :: Denoted(x) <==> ToAdd(x);
  }

  function Built(e: Engine, parse: string -> seq<string>, m: Model): Table {
    Table(m.name, Trim(m.comment), Bare(m).cols, ShownPk(e, m), AddedObjs(parse, SchemaObjects.AddList(m), map[]))
  }

  lemma {:induction false} CreateFrontRun(e: Engine, parse: string -> seq<string>, m: Model)
    requires e != SQLite && WellFormedEdit(e, parse, m)
    ensures Run(e, parse, m.name, PkClause(e, m) + AddObjs(SchemaObjects.AddList(m)), Bare(m)) == Some(Built(e, parse, m).(comment := ""))
  {
    RunConcat(e, parse, m.name, PkClause(e, m), AddObjs(SchemaObjects.AddList(m)), Bare(m));
    PkClauseRun(e, parse, m);
    FreshObjectsRun(e, parse, m);
  }

  lemma {:induction false} CreateTailRun(e: Engine, parse: string -> seq<string>, m: Model)
    requires e != SQLite
    ensures Run(e, parse, m.name, if Trim(m.comment) != "" then [SetComment(Trim(m.comment))] else [], Built(e, parse, m).(comment := ""))
            == Some(Built(e, parse, m))
  {
    if Trim(m.comment) != "" { RunOne(e, parse, m.name, SetComment(Trim(m.comment)), Built(e, parse, m).(comment := "")); }
  }

  lemma {:induction false} CreateRun(e: Engine, parse: string -> seq<string>, m: Model)
    requires e != SQLite && WellFormedEdit(e, parse, m) && IsFresh(m)
    ensures RunCreate(e, parse, Create(e, m)) == Some(Built(e, parse, m))
  {
    FreshScript(e, m);
    LiveColsDistinct(m.cols);
    RunConcat(e, parse, m.name, PkClause(e, m) + AddObjs(SchemaObjects.AddList(m)),
              if Trim(m.comment) != "" then [SetComment(Trim(m.comment))] else [], Bare(m));
    CreateFrontRun(e, parse, m);
    CreateTailRun(e, parse, m);
  }

  /** A well-formed new table is created exactly as shown. */
  lemma {:induction false} CreateBuildsShownTable(e: Engine, parse: string -> seq<string>, m: Model)
    requires e != SQLite && WellFormedEdit(e, parse, m) && IsFresh(m)
    ensures var r := RunCreate(e, parse, Create(e, m)); r.Some? && Shows(e, parse, m, r.value)
  {
    CreateRun(e, parse, m);
    forall n: string, s: ColSpec ensures HasCol(Built(e, parse, m).cols, n, s) <==> ShownCol(m.cols, n, s) {
      BareColumns(m, n, s);
    }
    forall k: Key, d: Def ensures HasObj(Built(e, parse, m).objs, k, d) <==> ShownObj(parse, m, k, d) {
      FreshObjectsShown(e, parse, m, k, d);
    }
  }
}
