/** The statements the table designer emits and the database they run against.
    A database is one table; a statement that the engine would refuse is None. */
module Ddl {
  import opened Text

  datatype Engine = Postgres | MySQL | SQLite

  datatype ColSpec = ColSpec(typ: string, notNull: bool, def: string)

  datatype Kind = PkKind | UniqKind | FkKind | ChkKind | IdxKind

  datatype Key = Key(kind: Kind, name: string)

  /** What a constraint or index is. `refs` are the current names of the columns it
      is bound to; for checks and indexes `text` is the definition as written. */
  datatype Def =
    | UniqueDef(refs: seq<string>)
    | ForeignDef(refs: seq<string>, refTable: string, refCols: seq<string>, onDelete: string)
    | CheckDef(refs: seq<string>, text: string)
    | IndexDef(refs: seq<string>, text: string, unique: bool)

  datatype Pk = Pk(name: string, cols: set<string>)

  datatype Table = Table(
    name: string, comment: string, cols: map<string, ColSpec>,
    pk: Option<Pk>, objs: map<Key, Def>)

  datatype Stmt =
    | AddColumn(name: string, spec: ColSpec)
    | RenameColumn(name: string, to: string)
    | ModifyColumn(name: string, spec: ColSpec)
    | AlterType(name: string, typ: string)
    | AlterNotNull(name: string, notNull: bool)
    | AlterDefault(name: string, def: string)
    | DropColumn(name: string)
    | DropPrimaryKey
    | DropConstraint(name: string)
    | DropForeignKey(name: string)
    | DropCheck(name: string)
    | DropIndex(name: string)
    | AddPrimaryKey(cols: seq<string>)
    | AddNamedPrimaryKey(name: string, cols: seq<string>)
    | AddUnique(name: string, cols: seq<string>)
    | AddForeignKey(name: string, cols: seq<string>, refTable: string, refCols: seq<string>, onDelete: string)
    | AddCheck(name: string, text: string)
    | CreateIndex(name: string, text: string, unique: bool)
    | SetComment(text: string)
    | RenameTable(to: string)

  /** Which kinds of object compete for one name. Postgres: the constraints of a table,
      and the relations behind indexes and keys; MySQL: keys and indexes, foreign keys, checks. */
  predicate SameSpace(e: Engine, a: Kind, b: Kind) {
    || a == b
    || (e == Postgres && a != IdxKind && b != IdxKind)
    || (a in {PkKind, UniqKind, IdxKind} && b in {PkKind, UniqKind, IdxKind})
  }

  predicate Holds(t: Table, k: Key) {
    if k.kind == PkKind then t.pk.Some? && t.pk.value.name == k.name else k in t.objs
  }

  predicate NameFree(e: Engine, t: Table, k: Key) {
    forall kind: Kind | SameSpace(e, k.kind, kind) :: !Holds(t, Key(kind, k.name))
  }

  /** A unique or foreign key lists columns, and a foreign key lists referenced ones. */
  predicate Complete(d: Def) {
    && (d.UniqueDef? || d.ForeignDef? ==> d.refs != [])
    && (d.ForeignDef? ==> d.refCols != [])
  }

  predicate RefsExist(d: Def, cols: map<string, ColSpec>) {
    forall r | r in d.refs :: r in cols
  }

  // ---- one statement ----

  function RenameRef(a: string, b: string, x: string): string {
    if x == a then b else x
  }

  function RenameRefs(a: string, b: string, d: Def): Def {
    d.(refs := seq(|d.refs|, i requires 0 <= i < |d.refs| => RenameRef(a, b, d.refs[i])))
  }

  /** Engines bind constraints to columns, so a rename shows in every constraint. */
  function RenameInTable(t: Table, a: string, b: string): Table
    requires a in t.cols
  {
    t.(cols := (t.cols - {a})[b := t.cols[a]],
       pk := if t.pk.Some? then Some(t.pk.value.(cols := set x | x in t.pk.value.cols :: RenameRef(a, b, x))) else None,
       objs := map k | k in t.objs :: RenameRefs(a, b, t.objs[k]))
  }

  /** MySQL neither drops nor renames a column that a CHECK uses. */
  predicate Unchecked(e: Engine, objs: map<Key, Def>, c: string) {
    e == MySQL ==> forall k | k in objs && k.kind == ChkKind :: c !in objs[k].refs
  }

  function Without(refs: seq<string>, c: string): seq<string> {
    if refs == [] then [] else (if refs[0] == c then [] else [refs[0]]) + Without(refs[1..], c)
  }

  /** Dropping a column: Postgres drops what involves it, MySQL shrinks keys and indexes and
      refuses when a foreign key or check needs it, SQLite refuses whenever it is used. */
  function DropFromTable(e: Engine, t: Table, c: string): Option<Table>
    requires c in t.cols
  {
    var inPk := t.pk.Some? && c in t.pk.value.cols;
    var users := set k | k in t.objs && c in t.objs[k].refs;
    match e
    case Postgres =>
      Some(t.(cols := t.cols - {c}, pk := if inPk then None else t.pk, objs := t.objs - users))
    case MySQL =>
      if exists k | k in users :: k.kind == FkKind || k.kind == ChkKind then None
      else
        var gone := set k | k in t.objs && Without(t.objs[k].refs, c) == [] && c in t.objs[k].refs;
        Some(t.(cols := t.cols - {c},
                pk := if !inPk then t.pk
                      else if t.pk.value.cols == {c} then None
                      else Some(t.pk.value.(cols := t.pk.value.cols - {c})),
                objs := map k | k in t.objs && k !in gone :: t.objs[k].(refs := Without(t.objs[k].refs, c))))
    case SQLite =>
      if inPk || users != {} then None else Some(t.(cols := t.cols - {c}))
  }

  /** Drops the object called `n` of the first of three kinds that has one. */
  function DropNamed(t: Table, n: string, a: Kind, b: Kind, c: Kind): Option<Table> {
    if Key(a, n) in t.objs then Some(t.(objs := t.objs - {Key(a, n)}))
    else if Key(b, n) in t.objs then Some(t.(objs := t.objs - {Key(b, n)}))
    else if Key(c, n) in t.objs then Some(t.(objs := t.objs - {Key(c, n)}))
    else None
  }

  function AddPk(e: Engine, n: string, cols: seq<string>, t: Table): Option<Table> {
    if n == "" || cols == [] || t.pk.Some? || !NameFree(e, t, Key(PkKind, n)) || exists c | c in cols :: c !in t.cols then None
    else Some(t.(pk := Some(Pk(n, set c | c in cols))))
  }

  function AddDef(e: Engine, k: Key, d: Def, t: Table): Option<Table> {
    if k.name == "" || !NameFree(e, t, k) || !Complete(d) || !RefsExist(d, t.cols) then None
    else Some(t.(objs := t.objs[k := d]))
  }

  function AlterColumn(t: Table, n: string, spec: ColSpec -> ColSpec): Option<Table> {
    if n !in t.cols || spec(t.cols[n]).typ == "" then None
    else Some(t.(cols := t.cols[n := spec(t.cols[n])]))
  }

  /** One statement. `parse` gives the columns a check or index text mentions. */
  function Step(e: Engine, parse: string -> seq<string>, s: Stmt, t: Table): Option<Table> {
    match s
    case AddColumn(n, spec) =>
      if n == "" || n in t.cols || spec.typ == "" then None else Some(t.(cols := t.cols[n := spec]))
    case RenameColumn(a, b) =>
      if b == "" || a !in t.cols || b in t.cols || !Unchecked(e, t.objs, a) then None else Some(RenameInTable(t, a, b))
    case ModifyColumn(n, spec) =>
      if e != MySQL then None else AlterColumn(t, n, _ => spec)
    case AlterType(n, typ) =>
      if e != Postgres then None else AlterColumn(t, n, (was: ColSpec) => was.(typ := typ))
    case AlterNotNull(n, notNull) =>
      if e != Postgres then None else AlterColumn(t, n, (was: ColSpec) => was.(notNull := notNull))
    case AlterDefault(n, def) =>
      if e != Postgres then None else AlterColumn(t, n, (was: ColSpec) => was.(def := def))
    case DropColumn(n) =>
      if n !in t.cols then None else DropFromTable(e, t, n)
    case DropPrimaryKey =>
      if e != MySQL || t.pk.None? then None else Some(t.(pk := None))
    case DropConstraint(n) =>
      if e != Postgres then None else if Holds(t, Key(PkKind, n)) then Some(t.(pk := None)) else DropNamed(t, n, UniqKind, FkKind, ChkKind)
    case DropForeignKey(n) =>
      if e != MySQL then None else DropNamed(t, n, FkKind, FkKind, FkKind)
    case DropCheck(n) =>
      if e != MySQL then None else DropNamed(t, n, ChkKind, ChkKind, ChkKind)
    case DropIndex(n) =>
      if e == MySQL then DropNamed(t, n, UniqKind, IdxKind, IdxKind) else DropNamed(t, n, IdxKind, IdxKind, IdxKind)
    case AddPrimaryKey(cols) =>
      if e != MySQL then None else AddPk(e, "PRIMARY", cols, t)
    case AddNamedPrimaryKey(n, cols) =>
      if e != Postgres then None else AddPk(e, n, cols, t)
    case AddUnique(n, cols) =>
      if e == SQLite then None else AddDef(e, Key(UniqKind, n), UniqueDef(cols), t)
    case AddForeignKey(n, cols, refTable, refCols, onDelete) =>
      if e == SQLite then None else AddDef(e, Key(FkKind, n), ForeignDef(cols, refTable, refCols, onDelete), t)
    case AddCheck(n, text) =>
      if e == SQLite then None else AddDef(e, Key(ChkKind, n), CheckDef(parse(text), text), t)
    case CreateIndex(n, text, unique) =>
      AddDef(e, Key(IdxKind, n), IndexDef(parse(text), text, unique), t)
    case SetComment(text) =>
      if e == SQLite then None else Some(t.(comment := text))
    case RenameTable(to) =>
      if to == "" then None else Some(t.(name := to))
  }

  /** A script whose every statement addresses the table by the name `on`. */
  function Run(e: Engine, parse: string -> seq<string>, on: string, script: seq<Stmt>, t: Table): Option<Table> {
    if script == [] then Some(t)
    else if t.name != on then None
    else
      var next := Step(e, parse, script[0], t);
      if next.None? then None else Run(e, parse, on, script[1..], next.value)
  }

  lemma {:induction false} RunConcat(e: Engine, parse: string -> seq<string>, on: string, a: seq<Stmt>, b: seq<Stmt>, t: Table)
    ensures Run(e, parse, on, a + b, t) ==
            var mid := Run(e, parse, on, a, t);
            if mid.None? then None else Run(e, parse, on, b, mid.value)
  {
    if a == [] {
      assert a + b == b;
    } else {
      assert (a + b)[1..] == a[1..] + b;
      if t.name == on {
        var next := Step(e, parse, a[0], t);
        if next.Some? { RunConcat(e, parse, on, a[1..], b, next.value); }
      }
    }
  }

  lemma {:induction false} RunOne(e: Engine, parse: string -> seq<string>, on: string, s: Stmt, t: Table)
    requires t.name == on
    ensures Run(e, parse, on, [s], t) == Step(e, parse, s, t)
  {
    assert [s][1..] == [];
    var next := Step(e, parse, s, t);
    if next.Some? { assert Run(e, parse, on, [], next.value) == next; }
  }

  // ---- every constraint stays bound to columns that exist ----

  ghost predicate Bound(t: Table) {
    forall k | k in t.objs :: RefsExist(t.objs[k], t.cols)
  }

  lemma {:induction false} WithoutContent(refs: seq<string>, c: string, r: string)
    ensures r in Without(refs, c) <==> r in refs && r != c
  {
    if refs != [] { WithoutContent(refs[1..], c, r); }
  }

  lemma {:induction false} RenameKeepsBound(t: Table, a: string, b: string)
    requires Bound(t) && a in t.cols
    ensures Bound(RenameInTable(t, a, b))
  {
    var t' := RenameInTable(t, a, b);
    forall k | k in t'.objs ensures RefsExist(t'.objs[k], t'.cols) {
      assert RefsExist(t.objs[k], t.cols);
      forall i | 0 <= i < |t'.objs[k].refs| ensures t'.objs[k].refs[i] in t'.cols {
        assert t.objs[k].refs[i] in t.objs[k].refs;
      }
    }
  }

  lemma {:induction false} DropKeepsBound(e: Engine, t: Table, c: string)
    requires Bound(t) && c in t.cols
    ensures DropFromTable(e, t, c).Some? ==> Bound(DropFromTable(e, t, c).value)
  {
    if DropFromTable(e, t, c).Some? {
      var t' := DropFromTable(e, t, c).value;
      var users := set k | k in t.objs && c in t.objs[k].refs;
      forall k, r | k in t'.objs && r in t'.objs[k].refs ensures r in t'.cols {
        WithoutContent(t.objs[k].refs, c, r);
        assert RefsExist(t.objs[k], t.cols);
        assert e != MySQL ==> k !in users;
      }
    }
  }

  lemma {:induction false} StepKeepsBound(e: Engine, parse: string -> seq<string>, s: Stmt, t: Table)
    requires Bound(t)
    ensures Step(e, parse, s, t).Some? ==> Bound(Step(e, parse, s, t).value)
  {
    match s
    case RenameColumn(a, b) => if a in t.cols { RenameKeepsBound(t, a, b); }
    case DropColumn(n) => if n in t.cols { DropKeepsBound(e, t, n); }
    case _ => OtherStepsKeepBound(e, parse, s, t);
  }

  /** No other statement takes a column away, and what is added is bound. */
  lemma {:induction false} OtherStepsKeepBound(e: Engine, parse: string -> seq<string>, s: Stmt, t: Table)
    requires Bound(t) && !s.RenameColumn? && !s.DropColumn?
    ensures Step(e, parse, s, t).Some? ==> Bound(Step(e, parse, s, t).value)
  {
    var r := Step(e, parse, s, t);
    if r.Some? {
      assert t.cols.Keys <= r.value.cols.Keys;
      forall k | k in r.value.objs ensures (k in t.objs && r.value.objs[k] == t.objs[k]) || RefsExist(r.value.objs[k], t.cols) {}
      StaysBound(t, r.value);
    }
  }

  lemma {:induction false} StaysBound(t: Table, u: Table)
    requires Bound(t) && t.cols.Keys <= u.cols.Keys
    requires forall k | k in u.objs :: (k in t.objs && u.objs[k] == t.objs[k]) || RefsExist(u.objs[k], t.cols)
    ensures Bound(u)
  {
    forall k | k in u.objs ensures RefsExist(u.objs[k], t.cols) {}
  }

  /** Whatever script runs, on whatever engine. */
  lemma {:induction false} RunKeepsBound(e: Engine, parse: string -> seq<string>, on: string, script: seq<Stmt>, t: Table)
    requires Bound(t)
    ensures Run(e, parse, on, script, t).Some? ==> Bound(Run(e, parse, on, script, t).value)
    decreases |script|
  {
    if script != [] && t.name == on {
      StepKeepsBound(e, parse, script[0], t);
      var next := Step(e, parse, script[0], t);
      if next.Some? { RunKeepsBound(e, parse, on, script[1..], next.value); }
    }
  }

  /** A table an engine can hold: named columns, no two objects competing for a name,
      every constraint bound to columns that exist. */
  ghost predicate LegalTable(e: Engine, t: Table) {
    && "" !in t.cols
    && (forall n | n in t.cols :: t.cols[n].typ != "")
    && (forall k | k in t.objs :: k.kind != PkKind && k.name != "" && RefsExist(t.objs[k], t.cols))
    && (t.pk.Some? ==> t.pk.value.name != "" && t.pk.value.cols != {} && t.pk.value.cols <= t.cols.Keys)
    && (e == MySQL && t.pk.Some? ==> t.pk.value.name == "PRIMARY")
    && (forall a: Kind, b: Kind, n: string | a != b && SameSpace(e, a, b) && Holds(t, Key(a, n)) :: !Holds(t, Key(b, n)))
  }
}
