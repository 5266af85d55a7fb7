/** What the table shown by the designer is, row by row: types, key, constraints and indexes. */
module ShownTable {
  import opened Text
  import opened Ddl
  import opened TableModel
  import opened ColumnPhases
  import opened SchemaDiff
  import SchemaKeys
  import OP = ObjectPhases

  /** The text is not all blanks. */
  predicate Filled(s: string) { exists i | 0 <= i < |s| :: !IsSpace(s[i]) }

  lemma {:induction false} FilledIsLive(s: string)
    ensures Filled(s) <==> Trim(s) != ""
  {
    TrimCuts(s);
    var a, b := TrimmedOff(s).0, TrimmedOff(s).1;
    if Trim(s) != "" { assert s[|a|] == Trim(s)[0]; }
  }

  /** Each named row is a column of the table, with its trimmed type (`text` if it has none), its NOT
      NULL mark and its trimmed default; and the table has no other column. */
  lemma {:induction false} ShownColumns(e: Engine, parse: string -> seq<string>, m: Model, t: Table)
    requires Shows(e, parse, m, t)
    ensures forall c | c in m.cols && Filled(c.cur.name) ::
              && c.cur.name in t.cols
              && t.cols[c.cur.name].notNull == c.cur.notNull && t.cols[c.cur.name].def == Trim(c.cur.def)
              && t.cols[c.cur.name].typ == if Filled(c.cur.typ) then Trim(c.cur.typ) else "text"
    ensures forall n | n in t.cols :: exists c :: c in m.cols && Filled(c.cur.name) && c.cur.name == n
  {
    forall c | c in m.cols && Filled(c.cur.name)
      ensures HasCol(t.cols, c.cur.name, SpecOf(c.cur)) && (Filled(c.cur.typ) <==> Trim(c.cur.typ) != "")
    {
      FilledIsLive(c.cur.name);
      FilledIsLive(c.cur.typ);
      assert ShownCol(m.cols, c.cur.name, SpecOf(c.cur));
    }
    forall n | n in t.cols ensures exists c :: c in m.cols && Filled(c.cur.name) && c.cur.name == n {
      assert HasCol(t.cols, n, t.cols[n]);
      var c :| c in m.cols && LiveName(c.cur.name) && c.cur.name == n && SpecOf(c.cur) == t.cols[n];
      FilledIsLive(c.cur.name);
    }
  }

  predicate Ticked(cols: seq<Col>, n: string) {
    exists c | c in cols :: c.pk && Filled(c.cur.name) && c.cur.name == n
  }

  lemma {:induction false} TickedNames(cols: seq<Col>, n: string)
    ensures n in PkNames(cols) <==> Ticked(cols, n)
  {
    SchemaKeys.PkNamesContent(cols, n);
    forall c | c in cols ensures Filled(c.cur.name) <==> LiveName(c.cur.name) { FilledIsLive(c.cur.name); }
  }

  /** The key has exactly the ticked columns. Its name is the loaded one, or the table's with `_pkey`
      if none was loaded; MySQL calls every key PRIMARY. */
  lemma {:induction false} ShownKey(e: Engine, parse: string -> seq<string>, m: Model, t: Table)
    requires Shows(e, parse, m, t)
    ensures t.pk.Some? <==> exists n :: Ticked(m.cols, n)
    ensures t.pk.Some? ==> forall n :: n in t.pk.value.cols <==> Ticked(m.cols, n)
    ensures t.pk.Some? ==>
              t.pk.value.name == if e == MySQL then "PRIMARY" else if m.snapshot.pkName != "" then m.snapshot.pkName else m.name + "_pkey"
  {
    forall n ensures n in PkNames(m.cols) <==> Ticked(m.cols, n) { TickedNames(m.cols, n); }
    if PkNames(m.cols) != [] { assert PkNames(m.cols)[0] in PkNames(m.cols); }
  }

  /** What a filled row asks for, in terms of its texts. */
  predicate Asked(parse: string -> seq<string>, o: ObjText, d: Def) {
    match o
    case Uniq(_, cols) => Filled(cols) && d == UniqueDef(IdList(cols))
    case Fk(_, cols, refTable, refCols, onDelete) =>
      Filled(cols) && Filled(refTable) && d == ForeignDef(IdList(cols), Trim(refTable), IdList(refCols), onDelete)
    case Chk(_, expr) => Filled(expr) && d == CheckDef(parse(Trim(expr)), Trim(expr))
    case Idx(_, cols, unique) => Filled(cols) && d == IndexDef(parse(Trim(cols)), Trim(cols), unique)
  }

  predicate Empty(o: ObjText) {
    match o
    case Uniq(_, cols) => !Filled(cols)
    case Fk(_, cols, refTable, _, _) => !Filled(cols) || !Filled(refTable)
    case Chk(_, expr) => !Filled(expr)
    case Idx(_, cols, _) => !Filled(cols)
  }

  lemma {:induction false} EmptyIsBlank(parse: string -> seq<string>, o: ObjText)
    ensures Empty(o) <==> Blank(o)
    ensures !Empty(o) ==> Asked(parse, o, DefOf(parse, o))
  {
    match o
    case Uniq(_, cols) => FilledIsLive(cols);
    case Fk(_, cols, refTable, _, _) =>
      FilledIsLive(cols);
      FilledIsLive(refTable);
    case Chk(_, expr) => FilledIsLive(expr);
    case Idx(_, cols, _) => FilledIsLive(cols);
  }

  /** Each filled row is an object of the table, as its texts say; and every object of the table has a
      row, filled or loaded empty. */
  lemma {:induction false} ShownObjects(e: Engine, parse: string -> seq<string>, m: Model, t: Table, k: Kind)
    requires Shows(e, parse, m, t)
    ensures forall x | x in ItemsOf(m, k) && !Empty(x.cur) ::
              Key(k, x.cur.name) in t.objs && Asked(parse, x.cur, t.objs[Key(k, x.cur.name)])
    ensures forall n | Key(k, n) in t.objs ::
              exists x :: x in ItemsOf(m, k) && x.cur.name == n && (!Empty(x.cur) || (x.orig.Some? && Empty(x.orig.value)))
  {
    forall x | x in ItemsOf(m, k) && !Empty(x.cur)
      ensures Key(k, x.cur.name) in t.objs && Asked(parse, x.cur, t.objs[Key(k, x.cur.name)])
    {
      EmptyIsBlank(parse, x.cur);
      assert ShownObj(parse, m, Key(k, x.cur.name), DefOf(parse, x.cur));
      assert OP.HasObj(t.objs, Key(k, x.cur.name), DefOf(parse, x.cur));
    }
    forall n | Key(k, n) in t.objs
      ensures exists x :: x in ItemsOf(m, k) && x.cur.name == n && (!Empty(x.cur) || (x.orig.Some? && Empty(x.orig.value)))
    {
      assert OP.HasObj(t.objs, Key(k, n), t.objs[Key(k, n)]);
      var x :| x in ItemsOf(m, k) && Denoted(x) && x.cur.name == n && DefOf(parse, x.cur) == t.objs[Key(k, n)];
      EmptyIsBlank(parse, x.cur);
      if x.orig.Some? { EmptyIsBlank(parse, x.orig.value); }
    }
  }
}
