/** When the generator sends nothing, and what its comparison of keys sees. */
module EmptyScript {
  import opened Text
  import opened Ddl
  import opened TableModel
  import opened ColumnPhases
  import opened SchemaDiff
  import opened ShownTable
  import SchemaKeys
  import SF = SqliteFilter

  // ---- the order of columns does not matter to the key ----

  lemma {:induction false} LessEqOrders(a: string, b: string)
    ensures LessEq(a, b) || LessEq(b, a)
    ensures LessEq(a, b) && LessEq(b, a) ==> a == b
  {
    if a != "" && b != "" && a[0] == b[0] {
      LessEqOrders(a[1..], b[1..]);
      HeadTail(a);
      HeadTail(b);
    }
  }

  lemma {:induction false} LessEqTrans(a: string, b: string, c: string)
    requires LessEq(a, b) && LessEq(b, c)
    ensures LessEq(a, c)
  {
    if a != "" && a[0] == b[0] == c[0] { LessEqTrans(a[1..], b[1..], c[1..]); }
  }

  predicate Sorted(s: seq<string>) { forall i, j | 0 <= i < j < |s| :: LessEq(s[i], s[j]) }

  lemma {:induction false} InsertSorts(x: string, s: seq<string>)
    requires Sorted(s)
    ensures Sorted(Insert(x, s))
  {
    if s != [] {
      if LessEq(x, s[0]) {
        forall i | 0 <= i < |s| ensures LessEq(x, s[i]) { if i > 0 { LessEqTrans(x, s[0], s[i]); } }
      } else {
        LessEqOrders(x, s[0]);
        var rest := Insert(x, s[1..]);
        InsertSorts(x, s[1..]);
        SchemaKeys.InsertKeeps(x, s[1..]);
        forall i | 0 <= i < |rest| ensures LessEq(s[0], rest[i]) {
          assert rest[i] in multiset(rest);
          if rest[i] != x { assert rest[i] in s[1..]; }
        }
      }
    }
  }

  lemma {:induction false} SortSorts(s: seq<string>)
    ensures Sorted(Sort(s))
  {
    if s != [] {
      SortSorts(s[1..]);
      InsertSorts(s[0], Sort(s[1..]));
    }
  }

  lemma {:induction false} LeastFirst(a: seq<string>, x: string)
    requires Sorted(a) && x in a
    ensures LessEq(a[0], x)
  {
    LessEqOrders(x, x);
    var i :| 0 <= i < |a| && a[i] == x;
  }

  lemma {:induction false} WithoutFirst(a: seq<string>)
    requires a != [] && Sorted(a)
    ensures multiset(a[1..]) == multiset(a) - multiset{a[0]} && Sorted(a[1..])
  {
    assert a == [a[0]] + a[1..];
  }

  lemma {:induction false} HeadAndTail(a: seq<string>, b: seq<string>)
    requires a != [] && b != [] && a[0] == b[0] && a[1..] == b[1..]
    ensures a == b
  {
    assert a == [a[0]] + a[1..] && b == [b[0]] + b[1..];
  }

  lemma {:induction false} SortedAgree(a: seq<string>, b: seq<string>)
    requires Sorted(a) && Sorted(b) && multiset(a) == multiset(b)
    ensures a == b
  {
    if a == [] || b == [] {
      assert |a| == |multiset(a)| == |multiset(b)| == |b|;
    } else {
      assert a[0] in multiset(b) && b[0] in multiset(a);
      LeastFirst(a, b[0]);
      LeastFirst(b, a[0]);
      LessEqOrders(a[0], b[0]);
      WithoutFirst(a);
      WithoutFirst(b);
      SortedAgree(a[1..], b[1..]);
      HeadAndTail(a, b);
    }
  }

  lemma {:induction false} SameNames(a: seq<string>, b: seq<string>)
    requires NoDup(a) && NoDup(b) && forall n :: n in a <==> n in b
    ensures multiset(a) == multiset(b)
  {
    forall n ensures multiset(a)[n] == multiset(b)[n] {
      OnceOrNever(a, n);
      OnceOrNever(b, n);
    }
  }

  lemma {:induction false} OnceOrNever(a: seq<string>, n: string)
    requires NoDup(a)
    ensures multiset(a)[n] == if n in a then 1 else 0
  {
    if a != [] {
      OnceOrNever(a[1..], n);
      assert a == [a[0]] + a[1..];
    }
  }

  lemma {:induction false} PkNamesOnce(cols: seq<Col>)
    requires DistinctNames(cols)
    ensures NoDup(PkNames(cols))
  {
    if cols != [] {
      assert DistinctNames(cols[1..]) by { assert forall c | c in cols[1..] :: c in cols; }
      PkNamesOnce(cols[1..]);
      SchemaKeys.PkNamesContent(cols[1..], cols[0].cur.name);
    }
  }

  lemma {:induction false} OrigPkNamesOnce(cols: seq<Col>)
    requires DistinctOrigs(cols)
    ensures NoDup(OrigPkNames(cols))
  {
    if cols != [] {
      OrigPkNamesOnce(cols[1..]);
      if cols[0].orig.Some? { SchemaKeys.PkNamesContent(cols[1..], cols[0].orig.value.name); }
    }
  }

  /** A row that is still there was loaded as a key column of that name. */
  predicate WasTicked(cols: seq<Col>, n: string) {
    exists c | c in cols :: c.orig.Some? && c.origPk && c.orig.value.name == n
  }

  /** Without commas in names, the comparison sees a change exactly when a name is ticked that was not
      a key column, or was one and is not ticked: the order of the rows does not matter. */
  lemma {:induction false} KeyChangeIsSeen(m: Model)
    requires DistinctNames(m.cols) && DistinctOrigs(m.cols) && SchemaKeys.CommaFree(m)
    requires forall c | c in m.cols && c.orig.Some? :: c.orig.value.name != ""
    ensures PkColsChanged(m) <==> exists n :: Ticked(m.cols, n) != WasTicked(m.cols, n)
  {
    var a, b := PkNames(m.cols), OrigPkNames(m.cols);
    forall n ensures (n in a <==> Ticked(m.cols, n)) && (n in b <==> WasTicked(m.cols, n)) {
      TickedNames(m.cols, n);
      SchemaKeys.PkNamesContent(m.cols, n);
    }
    if forall n :: Ticked(m.cols, n) == WasTicked(m.cols, n) {
      PkNamesOnce(m.cols);
      OrigPkNamesOnce(m.cols);
      SameNames(a, b);
      SchemaKeys.SortKeeps(a);
      SchemaKeys.SortKeeps(b);
      SortSorts(a);
      SortSorts(b);
      SortedAgree(Sort(a), Sort(b));
    } else if !PkColsChanged(m) {
      forall n | n in a + b ensures n != "" && ',' !in n {
        assert Ticked(m.cols, n) || WasTicked(m.cols, n);
      }
      SchemaKeys.SameJoinedNames(a, b);
    }
  }

  // ---- nothing to send ----

  /** Name, NOT NULL mark and, up to outer blanks, type and default as loaded. */
  predicate ColumnAsLoaded(c: Col) {
    c.orig.Some? ==>
      var o := c.orig.value;
      c.cur.name == o.name && c.cur.notNull == o.notNull && Trim(c.cur.typ) == Trim(o.typ) && Trim(c.cur.def) == Trim(o.def)
  }

  /** Up to outer blanks. A UNIQUE may be called anything. */
  predicate SameTexts(o: ObjText, c: ObjText) {
    match (o, c)
    case (Uniq(_, oc), Uniq(_, cc)) => Trim(oc) == Trim(cc)
    case (Fk(on, oc, ot, orc, od), Fk(cn, cc, ct, crc, cd)) =>
      on == cn && Trim(oc) == Trim(cc) && Trim(ot) == Trim(ct) && Trim(orc) == Trim(crc) && od == cd
    case (Chk(on, oe), Chk(cn, ce)) => on == cn && Trim(oe) == Trim(ce)
    case (Idx(on, oc, ou), Idx(cn, cc, cu)) => on == cn && Trim(oc) == Trim(cc) && ou == cu
    case _ => false
  }

  predicate RowAsLoaded(x: Item) {
    if x.orig.None? then Empty(x.cur) else SameTexts(x.orig.value, x.cur)
  }

  predicate StillThere(names: seq<string>, items: seq<Item>) {
    forall n | n in names :: n != "" && exists x :: x in items && x.orig.Some? && x.orig.value.name == n
  }

  predicate SectionAsLoaded(m: Model, k: Kind) {
    StillThere(NamesOf(m.snapshot, k), ItemsOf(m, k)) && forall x | x in ItemsOf(m, k) :: RowAsLoaded(x)
  }

  predicate ColumnsAsLoaded(m: Model) {
    && (forall c | c in m.cols :: ColumnAsLoaded(c) && (c.orig.None? ==> !Filled(c.cur.name)))
    && (forall n | n in m.snapshot.colNames :: n != "" && exists c :: c in m.cols && c.orig.Some? && c.orig.value.name == n)
  }

  lemma {:induction false} NoAddedColumns(cols: seq<Col>)
    ensures AddColumns(cols) == [] <==> forall c | c in cols && c.orig.None? :: !Filled(c.cur.name)
  {
    if cols != [] {
      NoAddedColumns(cols[1..]);
      FilledIsLive(cols[0].cur.name);
      assert forall c | c in cols :: c == cols[0] || c in cols[1..];
      assert cols[0] in cols && forall c | c in cols[1..] :: c in cols;
    }
  }

  lemma {:induction false} NoAlteredColumns(e: Engine, cols: seq<Col>)
    requires e != SQLite
    ensures AlterColumns(e, cols) == [] <==> forall c | c in cols :: ColumnAsLoaded(c)
  {
    if cols != [] {
      NoAlteredColumns(e, cols[1..]);
      assert forall c | c in cols :: c == cols[0] || c in cols[1..];
      assert cols[0] in cols && forall c | c in cols[1..] :: c in cols;
      if cols[0].orig.Some? { NoAlteredColumn(e, cols[0]); }
      assert AlterColumns(e, cols) == [] <==> (cols[0].orig.Some? ==> AlterOne(e, cols[0]) == []) && AlterColumns(e, cols[1..]) == [];
    }
  }

  lemma {:induction false} NoAlteredColumn(e: Engine, c: Col)
    requires e != SQLite && c.orig.Some?
    ensures AlterOne(e, c) == [] <==> ColumnAsLoaded(c)
  {
    if e == Postgres { SF.RedefineMembers(c.cur, c.orig.value); }
  }

  lemma {:induction false} NoDroppedColumns(names: seq<string>, cols: seq<Col>)
    ensures DropColumns(RemovedCols(names, cols)) == [] <==>
            forall n | n in names :: n != "" && exists c :: c in cols && c.orig.Some? && c.orig.value.name == n
  {
    if names != [] {
      NoDroppedColumns(names[1..], cols);
      assert forall n | n in names :: n == names[0] || n in names[1..];
      assert names[0] in names && forall n | n in names[1..] :: n in names;
    }
  }

  lemma {:induction false} SameTextsUnchanged(x: Item)
    requires x.orig.Some?
    ensures SameTexts(x.orig.value, x.cur) <==> !Changed(x)
  {
  }

  lemma {:induction false} NoRowsSent(e: Engine, items: seq<Item>)
    requires e != SQLite
    ensures ChangedNames(items) == [] && AddSection(e, items) == [] <==> forall x | x in items :: RowAsLoaded(x)
  {
    if items != [] {
      NoRowsSent(e, items[1..]);
      EmptyIsBlank(_ => [], items[0].cur);
      if items[0].orig.Some? { SameTextsUnchanged(items[0]); }
      assert forall x | x in items :: x == items[0] || x in items[1..];
      assert items[0] in items && forall x | x in items[1..] :: x in items;
    }
  }

  lemma {:induction false} NothingDropped(e: Engine, k: Kind, names: seq<string>)
    ensures DropAll(e, k, names) == [] <==> names == []
  {
  }

  lemma {:induction false} NoSectionSent(e: Engine, m: Model, k: Kind)
    requires e != SQLite
    ensures NoDrops(e, m, k) && NoAdds(e, m, k) <==> SectionAsLoaded(m, k)
  {
    var names, items := NamesOf(m.snapshot, k), ItemsOf(m, k);
    SF.NoRemoved(names, items);
    assert StillThere(names, items) <==> forall n | n in names :: LiveOrig(items, n);
    NoRowsSent(e, items);
    NothingDropped(e, k, RemovedNames(names, items));
    NothingDropped(e, k, ChangedNames(items));
  }

  lemma {:induction false} NoKeySent(e: Engine, m: Model)
    requires e != SQLite
    ensures DropPk(e, m) == [] && NewPk(e, m) == [] <==>
            !PkColsChanged(m) || (m.snapshot.pkName == "" && forall n :: !Ticked(m.cols, n))
  {
    forall n ensures n in PkNames(m.cols) <==> Ticked(m.cols, n) { TickedNames(m.cols, n); }
    if PkNames(m.cols) != [] { assert PkNames(m.cols)[0] in PkNames(m.cols); }
  }

  lemma {:induction false} FiveEmpty(all: seq<Stmt>, a: seq<Stmt>, b: seq<Stmt>, c: seq<Stmt>, d: seq<Stmt>, f: seq<Stmt>)
    requires all == a + b + c + d + f
    ensures all == [] <==> a == [] && b == [] && c == [] && d == [] && f == []
  {
    assert |all| == |a| + |b| + |c| + |d| + |f|;
  }

  lemma {:induction false} ModifyEmpty(e: Engine, m: Model)
    ensures Modify(e, m) == [] <==>
            && AddColumns(m.cols) == [] && AlterColumns(e, m.cols) == [] && Drops(e, m) == []
            && DropColumns(RemovedCols(m.snapshot.colNames, m.cols)) == []
            && Adds(e, m) == [] && CommentStmts(e, m) == [] && RenameStmts(m) == []
  {
    var a, b, c := AddColumns(m.cols), AlterColumns(e, m.cols), Drops(e, m);
    var d, f := DropColumns(RemovedCols(m.snapshot.colNames, m.cols)), Adds(e, m);
    var front := a + b + c + d + f;
    FiveEmpty(front, a, b, c, d, f);
    assert |Modify(e, m)| == |front| + |CommentStmts(e, m)| + |RenameStmts(m)|;
  }

  predicate NoDrops(e: Engine, m: Model, k: Kind) { DropSection(e, k, NamesOf(m.snapshot, k), ItemsOf(m, k)) == [] }

  predicate NoAdds(e: Engine, m: Model, k: Kind) { AddSection(e, ItemsOf(m, k)) == [] }

  lemma {:induction false} NoDropsAre(e: Engine, m: Model)
    ensures NoDrops(e, m, UniqKind) <==> DropSection(e, UniqKind, m.snapshot.uniqueNames, m.uniques) == []
    ensures NoDrops(e, m, FkKind) <==> DropSection(e, FkKind, m.snapshot.fkNames, m.fks) == []
    ensures NoDrops(e, m, ChkKind) <==> DropSection(e, ChkKind, m.snapshot.checkNames, m.checks) == []
    ensures NoDrops(e, m, IdxKind) <==> DropSection(e, IdxKind, m.snapshot.indexNames, m.indexes) == []
  {
    assert ItemsOf(m, UniqKind) == m.uniques && ItemsOf(m, FkKind) == m.fks;
    assert ItemsOf(m, ChkKind) == m.checks && ItemsOf(m, IdxKind) == m.indexes;
  }

  lemma {:induction false} NoAddsAre(e: Engine, m: Model)
    ensures NoAdds(e, m, UniqKind) <==> AddSection(e, m.uniques) == []
    ensures NoAdds(e, m, FkKind) <==> AddSection(e, m.fks) == []
    ensures NoAdds(e, m, ChkKind) <==> AddSection(e, m.checks) == []
    ensures NoAdds(e, m, IdxKind) <==> AddSection(e, m.indexes) == []
  {
    assert ItemsOf(m, UniqKind) == m.uniques && ItemsOf(m, FkKind) == m.fks;
    assert ItemsOf(m, ChkKind) == m.checks && ItemsOf(m, IdxKind) == m.indexes;
  }

  lemma {:induction false} DropsEmpty(e: Engine, m: Model)
    ensures Drops(e, m) == [] <==>
            DropPk(e, m) == [] && NoDrops(e, m, UniqKind) && NoDrops(e, m, FkKind) && NoDrops(e, m, ChkKind) && NoDrops(e, m, IdxKind)
  {
    var s := m.snapshot;
    var u, f := DropSection(e, UniqKind, s.uniqueNames, m.uniques), DropSection(e, FkKind, s.fkNames, m.fks);
    var c, i := DropSection(e, ChkKind, s.checkNames, m.checks), DropSection(e, IdxKind, s.indexNames, m.indexes);
    NoDropsAre(e, m);
    FiveEmpty(Drops(e, m), DropPk(e, m), u, f, c, i);
  }

  lemma {:induction false} AddsEmpty(e: Engine, m: Model)
    ensures Adds(e, m) == [] <==>
            NewPk(e, m) == [] && NoAdds(e, m, UniqKind) && NoAdds(e, m, FkKind) && NoAdds(e, m, ChkKind) && NoAdds(e, m, IdxKind)
  {
    var u, f, c, i := AddSection(e, m.uniques), AddSection(e, m.fks), AddSection(e, m.checks), AddSection(e, m.indexes);
    NoAddsAre(e, m);
    FiveEmpty(Adds(e, m), NewPk(e, m), u, f, c, i);
  }

  lemma {:induction false} ObjectsEmpty(e: Engine, m: Model)
    requires e != SQLite
    ensures Drops(e, m) == [] && Adds(e, m) == [] <==>
            && (!PkColsChanged(m) || (m.snapshot.pkName == "" && forall n :: !Ticked(m.cols, n)))
            && SectionAsLoaded(m, UniqKind) && SectionAsLoaded(m, FkKind) && SectionAsLoaded(m, ChkKind) && SectionAsLoaded(m, IdxKind)
  {
    DropsEmpty(e, m);
    AddsEmpty(e, m);
    NoKeySent(e, m);
    NoSectionSent(e, m, UniqKind);
    NoSectionSent(e, m, FkKind);
    NoSectionSent(e, m, ChkKind);
    NoSectionSent(e, m, IdxKind);
  }

  /** On Postgres and MySQL the script is empty exactly when, up to outer blanks, every row is as it was
      loaded, none was added or taken away, the key is not seen to change, and so are comment and name. */
  lemma {:induction false} NothingSentExactly(e: Engine, m: Model)
    requires e != SQLite
    ensures Modify(e, m) == [] <==>
            && ColumnsAsLoaded(m)
            && SectionAsLoaded(m, UniqKind) && SectionAsLoaded(m, FkKind) && SectionAsLoaded(m, ChkKind) && SectionAsLoaded(m, IdxKind)
            && (!PkColsChanged(m) || (m.snapshot.pkName == "" && forall n :: !Ticked(m.cols, n)))
            && Trim(m.comment) == Trim(m.snapshot.comment)
            && (Filled(m.name) ==> m.name == m.origName)
  {
    ModifyEmpty(e, m);
    NoAddedColumns(m.cols);
    NoAlteredColumns(e, m.cols);
    NoDroppedColumns(m.snapshot.colNames, m.cols);
    ObjectsEmpty(e, m);
    FilledIsLive(m.name);
  }
}
