/** The designer's table model and its statement generator. */
module TableModel {
  import opened Text
  import opened Ddl

  /** A designer entry together with what was loaded for it, if anything. */
  datatype Tracked<+T> = Tracked(cur: T, orig: Option<T>)

  datatype ColText = ColText(name: string, typ: string, notNull: bool, def: string)

  /** A column row: `pk` and `origPk` say whether it is, and was at load, in the primary key. */
  datatype Col = Col(cur: ColText, pk: bool, origPk: bool, orig: Option<ColText>)

  /** Constraint and index rows as typed by the user. */
  datatype ObjText =
    | Uniq(name: string, cols: string)
    | Fk(name: string, cols: string, refTable: string, refCols: string, onDelete: string)
    | Chk(name: string, expr: string)
    | Idx(name: string, cols: string, unique: bool)

  type UniqText = o: ObjText | o.Uniq? witness Uniq("", "")
  type FkText = o: ObjText | o.Fk? witness Fk("", "", "", "", "")
  type ChkText = o: ObjText | o.Chk? witness Chk("", "")
  type IdxText = o: ObjText | o.Idx? witness Idx("", "", false)
  type Item = Tracked<ObjText>

  /** `pkName` is empty when no primary key was loaded. */
  datatype Snapshot = Snapshot(
    pkName: string, comment: string, colNames: seq<string>,
    uniqueNames: seq<string>, fkNames: seq<string>, checkNames: seq<string>, indexNames: seq<string>)

  datatype Model = Model(
    name: string, comment: string, cols: seq<Col>,
    uniques: seq<Tracked<UniqText>>, fks: seq<Tracked<FkText>>,
    checks: seq<Tracked<ChkText>>, indexes: seq<Tracked<IdxText>>,
    origName: string, snapshot: Snapshot)

  // ---- what a row says ----

  predicate LiveName(n: string) { Trim(n) != "" }

  function SpecOf(c: ColText): ColSpec {
    ColSpec(if Trim(c.typ) == "" then "text" else Trim(c.typ), c.notNull, Trim(c.def))
  }

  function KindOf(o: ObjText): Kind {
    match o
    case Uniq(_, _) => UniqKind
    case Fk(_, _, _, _, _) => FkKind
    case Chk(_, _) => ChkKind
    case Idx(_, _, _) => IdxKind
  }

  predicate Blank(o: ObjText) {
    match o
    case Uniq(_, cols) => Trim(cols) == ""
    case Fk(_, cols, refTable, _, _) => Trim(cols) == "" || Trim(refTable) == ""
    case Chk(_, expr) => Trim(expr) == ""
    case Idx(_, cols, _) => Trim(cols) == ""
  }

  function DefOf(parse: string -> seq<string>, o: ObjText): Def {
    match o
    case Uniq(_, cols) => UniqueDef(IdList(cols))
    case Fk(_, cols, refTable, refCols, onDelete) => ForeignDef(IdList(cols), Trim(refTable), IdList(refCols), onDelete)
    case Chk(_, expr) => CheckDef(parse(Trim(expr)), Trim(expr))
    case Idx(_, cols, unique) => IndexDef(parse(Trim(cols)), Trim(cols), unique)
  }

  function KeyOf(o: ObjText): Key { Key(KindOf(o), o.name) }

  /** The four "changed" tests. A unique constraint compares its columns only. */
  predicate Changed(x: Item) {
    x.orig.Some? &&
    match (x.orig.value, x.cur)
    case (Uniq(_, ocols), Uniq(_, cols)) => Trim(ocols) != Trim(cols)
    case (Fk(on, oc, ort, orc, od), Fk(n, c, rt, rc, d)) =>
      on != n || Trim(oc) != Trim(c) || Trim(ort) != Trim(rt) || Trim(orc) != Trim(rc) || od != d
    case (Chk(on, oe), Chk(n, e)) => on != n || Trim(oe) != Trim(e)
    case (Idx(on, oc, ou), Idx(n, c, u)) => on != n || Trim(oc) != Trim(c) || ou != u
    case _ => true
  }

  // ---- the primary-key test: sorted names joined with commas ----

  predicate LessEq(a: string, b: string) {
    a == "" || (b != "" && (a[0] < b[0] || (a[0] == b[0] && LessEq(a[1..], b[1..]))))
  }

  function Insert(x: string, s: seq<string>): seq<string> {
    if s == [] then [x] else if LessEq(x, s[0]) then [x] + s else [s[0]] + Insert(x, s[1..])
  }

  function Sort(s: seq<string>): seq<string> {
    if s == [] then [] else Insert(s[0], Sort(s[1..]))
  }

  /** Names of the columns now marked as primary key. */
  function PkNames(cols: seq<Col>): seq<string> {
    if cols == [] then []
    else (if cols[0].pk && LiveName(cols[0].cur.name) then [cols[0].cur.name] else []) + PkNames(cols[1..])
  }

  /** Loaded names of the surviving columns that were primary key. */
  function OrigPkNames(cols: seq<Col>): seq<string> {
    if cols == [] then []
    else (if cols[0].orig.Some? && cols[0].origPk then [cols[0].orig.value.name] else []) + OrigPkNames(cols[1..])
  }

  predicate PkColsChanged(m: Model) {
    Join(Sort(PkNames(m.cols)), ",") != Join(Sort(OrigPkNames(m.cols)), ",")
  }

  function PkName(m: Model): string {
    if m.snapshot.pkName != "" then m.snapshot.pkName else m.name + "_pkey"
  }

  // ---- the statements, phase by phase ----

  function AddColumns(cols: seq<Col>): seq<Stmt> {
    if cols == [] then []
    else
      var c := cols[0];
      (if c.orig.None? && LiveName(c.cur.name) then [AddColumn(c.cur.name, SpecOf(c.cur))] else []) + AddColumns(cols[1..])
  }

  function TypeStmts(n: string, c: ColText, o: ColText): seq<Stmt> {
    if Trim(c.typ) != Trim(o.typ) then [AlterType(n, Trim(c.typ))] else []
  }

  function NotNullStmts(n: string, c: ColText, o: ColText): seq<Stmt> {
    if c.notNull != o.notNull then [AlterNotNull(n, c.notNull)] else []
  }

  function DefaultStmts(n: string, c: ColText, o: ColText): seq<Stmt> {
    if Trim(c.def) != Trim(o.def) then [AlterDefault(n, Trim(c.def))] else []
  }

  /** MySQL redefines the whole column; Postgres alters each facet; SQLite can do neither. */
  function RedefineStmts(e: Engine, c: ColText, o: ColText): seq<Stmt> {
    match e
    case MySQL =>
      if Trim(c.typ) != Trim(o.typ) || c.notNull != o.notNull || Trim(c.def) != Trim(o.def)
      then [ModifyColumn(c.name, SpecOf(c))] else []
    case Postgres => TypeStmts(c.name, c, o) + NotNullStmts(c.name, c, o) + DefaultStmts(c.name, c, o)
    case SQLite => []
  }

  /** Rename first, then redefine under the new name. */
  function AlterOne(e: Engine, c: Col): seq<Stmt>
    requires c.orig.Some?
  {
    (if c.cur.name != c.orig.value.name then [RenameColumn(c.orig.value.name, c.cur.name)] else [])
    + RedefineStmts(e, c.cur, c.orig.value)
  }

  function AlterColumns(e: Engine, cols: seq<Col>): seq<Stmt> {
    if cols == [] then []
    else (if cols[0].orig.Some? then AlterOne(e, cols[0]) else []) + AlterColumns(e, cols[1..])
  }

  /** Is the loaded name `n` still carried by some row? Empty names never are. */
  predicate LiveOrig(items: seq<Item>, n: string) {
    n != "" && exists x | x in items :: x.orig.Some? && x.orig.value.name == n
  }

  function RemovedNames(names: seq<string>, items: seq<Item>): seq<string> {
    if names == [] then []
    else (if LiveOrig(items, names[0]) then [] else [names[0]]) + RemovedNames(names[1..], items)
  }

  function ChangedNames(items: seq<Item>): seq<string> {
    if items == [] then []
    else (if Changed(items[0]) then [items[0].orig.value.name] else []) + ChangedNames(items[1..])
  }

  function DropStmt(e: Engine, k: Key): Stmt {
    match k.kind
    case PkKind => if e == MySQL then DropPrimaryKey else DropConstraint(k.name)
    case UniqKind => if e == MySQL then DropIndex(k.name) else DropConstraint(k.name)
    case FkKind => if e == MySQL then DropForeignKey(k.name) else DropConstraint(k.name)
    case ChkKind => if e == MySQL then DropCheck(k.name) else DropConstraint(k.name)
    case IdxKind => DropIndex(k.name)
  }

  function DropAll(e: Engine, kind: Kind, names: seq<string>): seq<Stmt> {
    if names == [] then [] else [DropStmt(e, Key(kind, names[0]))] + DropAll(e, kind, names[1..])
  }

  function DropPk(e: Engine, m: Model): seq<Stmt> {
    if e != SQLite && PkColsChanged(m) && m.snapshot.pkName != "" then [DropStmt(e, Key(PkKind, m.snapshot.pkName))] else []
  }

  /** SQLite fixes constraints at creation, so only its indexes are dropped. */
  function DropSection(e: Engine, kind: Kind, names: seq<string>, items: seq<Item>): seq<Stmt> {
    if e == SQLite && kind != IdxKind then []
    else DropAll(e, kind, RemovedNames(names, items)) + DropAll(e, kind, ChangedNames(items))
  }

  predicate LiveCol(cols: seq<Col>, n: string) {
    n != "" && exists c | c in cols :: c.orig.Some? && c.orig.value.name == n
  }

  function RemovedCols(names: seq<string>, cols: seq<Col>): seq<string> {
    if names == [] then []
    else (if LiveCol(cols, names[0]) then [] else [names[0]]) + RemovedCols(names[1..], cols)
  }

  function DropColumns(names: seq<string>): seq<Stmt> {
    if names == [] then [] else [DropColumn(names[0])] + DropColumns(names[1..])
  }

  function NewPk(e: Engine, m: Model): seq<Stmt> {
    var cols := PkNames(m.cols);
    if e == SQLite || !PkColsChanged(m) || cols == [] then []
    else if e == MySQL then [AddPrimaryKey(cols)]
    else [AddNamedPrimaryKey(PkName(m), cols)]
  }

  function AddStmt(o: ObjText): Stmt {
    match o
    case Uniq(n, cols) => AddUnique(n, IdList(cols))
    case Fk(n, cols, refTable, refCols, onDelete) => AddForeignKey(n, IdList(cols), Trim(refTable), IdList(refCols), onDelete)
    case Chk(n, expr) => AddCheck(n, Trim(expr))
    case Idx(n, cols, unique) => CreateIndex(n, Trim(cols), unique)
  }

  predicate ToAdd(x: Item) {
    !Blank(x.cur) && (x.orig.None? || Changed(x))
  }

  function AddSection(e: Engine, items: seq<Item>): seq<Stmt> {
    if items == [] then []
    else
      (if ToAdd(items[0]) && (e != SQLite || items[0].cur.Idx?) then [AddStmt(items[0].cur)] else [])
      + AddSection(e, items[1..])
  }

  function CommentStmts(e: Engine, m: Model): seq<Stmt> {
    if e != SQLite && Trim(m.comment) != Trim(m.snapshot.comment) then [SetComment(Trim(m.comment))] else []
  }

  function RenameStmts(m: Model): seq<Stmt> {
    if LiveName(m.name) && m.name != m.origName then [RenameTable(m.name)] else []
  }

  function Drops(e: Engine, m: Model): seq<Stmt> {
    var s := m.snapshot;
    DropPk(e, m)
    + DropSection(e, UniqKind, s.uniqueNames, m.uniques) + DropSection(e, FkKind, s.fkNames, m.fks)
    + DropSection(e, ChkKind, s.checkNames, m.checks) + DropSection(e, IdxKind, s.indexNames, m.indexes)
  }

  function Adds(e: Engine, m: Model): seq<Stmt> {
    NewPk(e, m)
    + AddSection(e, m.uniques) + AddSection(e, m.fks) + AddSection(e, m.checks) + AddSection(e, m.indexes)
  }

  /** The whole modify script, in the order in which it runs. */
  function Modify(e: Engine, m: Model): seq<Stmt> {
    AddColumns(m.cols) + AlterColumns(e, m.cols) + Drops(e, m)
    + DropColumns(RemovedCols(m.snapshot.colNames, m.cols))
    + Adds(e, m) + CommentStmts(e, m) + RenameStmts(m)
  }

  // ---- the generator itself ----

  lemma {:induction false} Assoc(a: seq<Stmt>, b: seq<Stmt>, c: seq<Stmt>)
    ensures a + b + c == a + (b + c)
  {
  }

  method PushRemoved(e: Engine, kind: Kind, names: seq<string>, items: seq<Item>) returns (out: seq<Stmt>)
    ensures out == DropAll(e, kind, RemovedNames(names, items))
  {
    out := [];
    for i := 0 to |names|
      invariant DropAll(e, kind, RemovedNames(names, items)) == out + DropAll(e, kind, RemovedNames(names[i..], items))
    {
      ghost var rest := RemovedNames(names[i + 1..], items);
      assert names[i..][1..] == names[i + 1..];
      if !LiveOrig(items, names[i]) {
        assert ([names[i]] + rest)[1..] == rest;
        Assoc(out, [DropStmt(e, Key(kind, names[i]))], DropAll(e, kind, rest));
        out := out + [DropStmt(e, Key(kind, names[i]))];
      } else {
        assert RemovedNames(names[i..], items) == rest;
      }
    }
  }

  method PushChanged(e: Engine, kind: Kind, items: seq<Item>) returns (out: seq<Stmt>)
    ensures out == DropAll(e, kind, ChangedNames(items))
  {
    out := [];
    for i := 0 to |items|
      invariant DropAll(e, kind, ChangedNames(items)) == out + DropAll(e, kind, ChangedNames(items[i..]))
    {
      ghost var rest := ChangedNames(items[i + 1..]);
      assert items[i..][1..] == items[i + 1..];
      if Changed(items[i]) {
        var n := items[i].orig.value.name;
        assert ([n] + rest)[1..] == rest;
        Assoc(out, [DropStmt(e, Key(kind, n))], DropAll(e, kind, rest));
        out := out + [DropStmt(e, Key(kind, n))];
      } else {
        assert ChangedNames(items[i..]) == rest;
      }
    }
  }

  method PushAdds(e: Engine, items: seq<Item>) returns (out: seq<Stmt>)
    requires e != SQLite || forall i | 0 <= i < |items| :: items[i].cur.Idx?
    ensures out == AddSection(e, items)
  {
    out := [];
    for i := 0 to |items|
      invariant AddSection(e, items) == out + AddSection(e, items[i..])
    {
      ghost var rest := AddSection(e, items[i + 1..]);
      assert items[i..][1..] == items[i + 1..];
      if !Blank(items[i].cur) && (items[i].orig.None? || Changed(items[i])) {
        Assoc(out, [AddStmt(items[i].cur)], rest);
        out := out + [AddStmt(items[i].cur)];
      } else {
        assert AddSection(e, items[i..]) == rest;
      }
    }
  }

  method PushNewColumns(cols: seq<Col>) returns (out: seq<Stmt>)
    ensures out == AddColumns(cols)
  {
    out := [];
    for i := 0 to |cols|
      invariant AddColumns(cols) == out + AddColumns(cols[i..])
    {
      ghost var rest := AddColumns(cols[i + 1..]);
      assert cols[i..][1..] == cols[i + 1..];
      var c := cols[i];
      if c.orig.None? && LiveName(c.cur.name) {
        Assoc(out, [AddColumn(c.cur.name, SpecOf(c.cur))], rest);
        out := out + [AddColumn(c.cur.name, SpecOf(c.cur))];
      } else {
        assert AddColumns(cols[i..]) == rest;
      }
    }
  }

  method PushOneColumn(e: Engine, c: Col) returns (out: seq<Stmt>)
    requires c.orig.Some?
    ensures out == AlterOne(e, c)
  {
    var o := c.orig.value;
    out := if c.cur.name != o.name then [RenameColumn(o.name, c.cur.name)] else [];
    if e == MySQL {
      if Trim(c.cur.typ) != Trim(o.typ) || c.cur.notNull != o.notNull || Trim(c.cur.def) != Trim(o.def) {
        out := out + [ModifyColumn(c.cur.name, SpecOf(c.cur))];
      }
    } else if e != SQLite {
      var own := [];
      if Trim(c.cur.typ) != Trim(o.typ) { own := own + [AlterType(c.cur.name, Trim(c.cur.typ))]; }
      if c.cur.notNull != o.notNull { own := own + [AlterNotNull(c.cur.name, c.cur.notNull)]; }
      if Trim(c.cur.def) != Trim(o.def) { own := own + [AlterDefault(c.cur.name, Trim(c.cur.def))]; }
      out := out + own;
    }
  }

  method PushAlteredColumns(e: Engine, cols: seq<Col>) returns (out: seq<Stmt>)
    ensures out == AlterColumns(e, cols)
  {
    out := [];
    for i := 0 to |cols|
      invariant AlterColumns(e, cols) == out + AlterColumns(e, cols[i..])
    {
      ghost var rest := AlterColumns(e, cols[i + 1..]);
      assert cols[i..][1..] == cols[i + 1..];
      if cols[i].orig.Some? {
        var own := PushOneColumn(e, cols[i]);
        Assoc(out, own, rest);
        out := out + own;
      } else {
        assert AlterColumns(e, cols[i..]) == rest;
      }
    }
  }

  method PushColumnDrops(names: seq<string>, cols: seq<Col>) returns (out: seq<Stmt>)
    ensures out == DropColumns(RemovedCols(names, cols))
  {
    out := [];
    for i := 0 to |names|
      invariant DropColumns(RemovedCols(names, cols)) == out + DropColumns(RemovedCols(names[i..], cols))
    {
      ghost var rest := RemovedCols(names[i + 1..], cols);
      assert names[i..][1..] == names[i + 1..];
      if !LiveCol(cols, names[i]) {
        assert ([names[i]] + rest)[1..] == rest;
        Assoc(out, [DropColumn(names[i])], DropColumns(rest));
        out := out + [DropColumn(names[i])];
      } else {
        assert RemovedCols(names[i..], cols) == rest;
      }
    }
  }

  method PushSectionDrops(e: Engine, kind: Kind, names: seq<string>, items: seq<Item>) returns (out: seq<Stmt>)
    ensures out == DropSection(e, kind, names, items)
  {
    out := [];
    if e != SQLite || kind == IdxKind {
      out := PushRemoved(e, kind, names, items);
      var changed := PushChanged(e, kind, items);
      out := out + changed;
    }
  }

  method PushAllDrops(e: Engine, m: Model) returns (out: seq<Stmt>)
    ensures out == Drops(e, m)
  {
    var s := m.snapshot;
    out := if e != SQLite && PkColsChanged(m) && s.pkName != "" then [DropStmt(e, Key(PkKind, s.pkName))] else [];
    var part := PushSectionDrops(e, UniqKind, s.uniqueNames, m.uniques);
    out := out + part;
    part := PushSectionDrops(e, FkKind, s.fkNames, m.fks);
    out := out + part;
    part := PushSectionDrops(e, ChkKind, s.checkNames, m.checks);
    out := out + part;
    part := PushSectionDrops(e, IdxKind, s.indexNames, m.indexes);
    out := out + part;
  }

  method PushAllAdds(e: Engine, m: Model) returns (out: seq<Stmt>)
    ensures out == Adds(e, m)
  {
    out := [];
    if e != SQLite {
      var pkCols := PkNames(m.cols);
      if PkColsChanged(m) && pkCols != [] {
        out := [if e == MySQL then AddPrimaryKey(pkCols) else AddNamedPrimaryKey(PkName(m), pkCols)];
      }
      var part := PushAdds(e, m.uniques);
      out := out + part;
      part := PushAdds(e, m.fks);
      out := out + part;
      part := PushAdds(e, m.checks);
      out := out + part;
    } else {
      NothingToAdd(m.uniques);
      NothingToAdd(m.fks);
      NothingToAdd(m.checks);
    }
    var part := PushAdds(e, m.indexes);
    out := out + part;
  }

  lemma {:induction false} NothingToAdd(items: seq<Item>)
    requires forall i | 0 <= i < |items| :: !items[i].cur.Idx?
    ensures AddSection(SQLite, items) == []
  {
    if items != [] { NothingToAdd(items[1..]); }
  }

  /** The modify generator: each phase pushes its statements, in source order. */
  method GenerateModify(m: Model, e: Engine) returns (out: seq<Stmt>)
    ensures out == Modify(e, m)
  {
    out := PushNewColumns(m.cols);
    var part := PushAlteredColumns(e, m.cols);
    out := out + part;
    part := PushAllDrops(e, m);
    out := out + part;
    part := PushColumnDrops(m.snapshot.colNames, m.cols);
    out := out + part;
    part := PushAllAdds(e, m);
    out := out + part;
    out := out + (if Trim(m.comment) != Trim(m.snapshot.comment) && e != SQLite then [SetComment(Trim(m.comment))] else []);
    out := out + (if LiveName(m.name) && m.name != m.origName then [RenameTable(m.name)] else []);
  }
}
