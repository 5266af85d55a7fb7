/** What a modify script is for: starting from the loaded table, end at the table
    the designer shows. */
module SchemaDiff {
  import opened Text
  import opened Ddl
  import opened TableModel
  import opened ColumnPhases
  import OP = ObjectPhases

  function ItemsOf(m: Model, k: Kind): seq<Item> {
    match k
    case PkKind => []
    case UniqKind => m.uniques
    case FkKind => m.fks
    case ChkKind => m.checks
    case IdxKind => m.indexes
  }

  function NamesOf(s: Snapshot, k: Kind): seq<string> {
    match k
    case PkKind => []
    case UniqKind => s.uniqueNames
    case FkKind => s.fkNames
    case ChkKind => s.checkNames
    case IdxKind => s.indexNames
  }

  /** A row left blank denotes nothing, unless it was already loaded blank
      (an object whose definition the designer cannot show). */
  predicate Denoted(x: Item) {
    !Blank(x.cur) || (x.orig.Some? && Blank(x.orig.value))
  }

  predicate KeptItem(x: Item) {
    x.orig.Some? && !Changed(x)
  }

  // ---- the loaded table ----

  ghost predicate TracksSection(parse: string -> seq<string>, k: Kind, names: seq<string>, items: seq<Item>, objs: map<Key, Def>) {
    && NoDup(names)
    && (forall n: string :: n in names <==> Key(k, n) in objs)
    && (forall i | 0 <= i < |items| && items[i].orig.Some? ::
          var o := items[i].orig.value; Key(k, o.name) in objs && objs[Key(k, o.name)] == DefOf(parse, o) && KindOf(o) == k)
    && (forall i, j | 0 <= i < j < |items| && items[i].orig.Some? && items[j].orig.Some? ::
          items[i].orig.value.name != items[j].orig.value.name)
  }

  /** The model's snapshot and loaded values describe the table `db`. */
  ghost predicate Tracks(parse: string -> seq<string>, m: Model, db: Table) {
    && m.origName == db.name
    && Trim(m.snapshot.comment) == db.comment
    && NoDup(m.snapshot.colNames) && (forall n: string :: n in m.snapshot.colNames <==> n in db.cols)
    && DistinctOrigs(m.cols) && LoadedFrom(m.cols, db.cols)
    && (forall c | c in m.cols && c.orig.Some? :: c.origPk <==> db.pk.Some? && c.orig.value.name in db.pk.value.cols)
    && m.snapshot.pkName == (if db.pk.None? then "" else db.pk.value.name)
    && (forall k: Kind | k != PkKind :: TracksSection(parse, k, NamesOf(m.snapshot, k), ItemsOf(m, k), db.objs))
  }

  // ---- the table shown ----

  predicate ShownCol(cols: seq<Col>, n: string, s: ColSpec) {
    exists c | c in cols :: LiveName(c.cur.name) && c.cur.name == n && SpecOf(c.cur) == s
  }

  predicate ShownName(cols: seq<Col>, n: string) {
    exists c | c in cols :: LiveName(c.cur.name) && c.cur.name == n
  }

  function ShownPkName(e: Engine, m: Model): string {
    if e == MySQL then "PRIMARY" else PkName(m)
  }

  function ShownPk(e: Engine, m: Model): Option<Pk> {
    if PkNames(m.cols) == [] then None else Some(Pk(ShownPkName(e, m), set n | n in PkNames(m.cols)))
  }

  predicate ShownObj(parse: string -> seq<string>, m: Model, k: Key, d: Def) {
    exists x | x in ItemsOf(m, k.kind) :: Denoted(x) && x.cur.name == k.name && DefOf(parse, x.cur) == d
  }

  /** `t` is the table the designer shows. */
  ghost predicate Shows(e: Engine, parse: string -> seq<string>, m: Model, t: Table) {
    && t.name == (if LiveName(m.name) then m.name else m.origName)
    && t.comment == Trim(m.comment)
    && (forall n: string, s: ColSpec :: HasCol(t.cols, n, s) <==> ShownCol(m.cols, n, s))
    && t.pk == ShownPk(e, m)
    && (forall k: Key, d: Def :: OP.HasObj(t.objs, k, d) <==> ShownObj(parse, m, k, d))
  }

  /** The edit is one the engine could be asked for: shown names do not compete, and what is to
      be added is complete and mentions shown columns only. */
  ghost predicate WellFormedEdit(e: Engine, parse: string -> seq<string>, m: Model) {
    && DistinctNames(m.cols)
    && (forall k: Kind, x | x in ItemsOf(m, k) && Denoted(x) :: x.cur.name != "")
    && (forall k: Kind, x | x in ItemsOf(m, k) && ToAdd(x) ::
          Complete(DefOf(parse, x.cur)) && forall r | r in DefOf(parse, x.cur).refs :: ShownName(m.cols, r))
    && (forall k: Kind, i, j | 0 <= i < j < |ItemsOf(m, k)| && Denoted(ItemsOf(m, k)[i]) && Denoted(ItemsOf(m, k)[j]) ::
          ItemsOf(m, k)[i].cur.name != ItemsOf(m, k)[j].cur.name)
    && (forall a: Kind, b: Kind, x, y | a != b && SameSpace(e, a, b) && x in ItemsOf(m, a) && y in ItemsOf(m, b) && Denoted(x) && Denoted(y) ::
          x.cur.name != y.cur.name)
    && (PkNames(m.cols) != [] ==>
          forall k: Kind, x | SameSpace(e, PkKind, k) && x in ItemsOf(m, k) && Denoted(x) :: x.cur.name != ShownPkName(e, m))
  }

  // ---- when the script gets there ----

  predicate LoadedKept(parse: string -> seq<string>, items: seq<Item>, n: string, d: Def) {
    exists x | x in items :: KeptItem(x) && x.orig.value.name == n && DefOf(parse, x.cur) == d
  }

  predicate ShownKept(parse: string -> seq<string>, items: seq<Item>, n: string, d: Def) {
    exists x | x in items :: KeptItem(x) && x.cur.name == n && DefOf(parse, x.cur) == d
  }

  /** The UNIQUE constraints whose columns were left alone carry, as a whole, the names they
      were loaded with. Renaming one alone breaks this. */
  ghost predicate UniqueNamesKept(parse: string -> seq<string>, m: Model) {
    forall n: string, d: Def :: LoadedKept(parse, m.uniques, n, d) <==> ShownKept(parse, m.uniques, n, d)
  }

  ghost predicate KeptRefsShown(parse: string -> seq<string>, m: Model) {
    forall k: Kind, x | x in ItemsOf(m, k) && KeptItem(x) ::
      forall r | r in DefOf(parse, x.cur).refs :: ShownName(m.cols, r)
  }

  /** Constraints and indexes left alone mention only columns that are shown and not renamed. */
  ghost predicate ReferencesKept(parse: string -> seq<string>, m: Model) {
    && KeptRefsShown(parse, m)
    && (forall k: Kind, x, c | x in ItemsOf(m, k) && KeptItem(x) && c in m.cols && Renamed(c) ::
          c.orig.value.name !in DefOf(parse, x.cur).refs)
  }

  /** No row loaded blank is edited while it stays blank. */
  ghost predicate NoBlankRebuild(m: Model) {
    forall k: Kind, x | x in ItemsOf(m, k) && Changed(x) && Blank(x.cur) :: !Blank(x.orig.value)
  }

  predicate WasKey(cols: seq<Col>, n: string) {
    exists c | c in cols :: c.orig.Some? && c.origPk && c.cur.name == n
  }

  /** The columns ticked are the columns loaded as the key, under their current names. */
  ghost predicate TicksKept(cols: seq<Col>) {
    forall n: string :: n in PkNames(cols) <==> WasKey(cols, n)
  }

  /** A primary key in which the generator sees no change must have none: the same columns are
      ticked and, on Postgres, none was removed while others stay. */
  ghost predicate PkKept(e: Engine, m: Model, db: Table) {
    || PkColsChanged(m)
    || (TicksKept(m.cols)
        && (e == Postgres && db.pk.Some? && (exists n | n in db.pk.value.cols :: !LiveCol(m.cols, n)) ==> OrigPkNames(m.cols) == []))
  }

  ghost predicate ColumnsSafe(e: Engine, m: Model, db: Table) {
    && AddsFit(m.cols, db.cols.Keys) && RenamesFit(m.cols, db.cols.Keys) && TypesKept(e, m.cols)
    && ChecksFree(e, m.cols, db.objs)
  }

  /** The edits the generator compiles correctly. */
  ghost predicate Safe(e: Engine, parse: string -> seq<string>, m: Model, db: Table) {
    && ColumnsSafe(e, m, db)
    && NoBlankRebuild(m) && UniqueNamesKept(parse, m) && ReferencesKept(parse, m)
    && PkKept(e, m, db)
  }
}
