/** Committing the grid's queue: the statements it is compiled to, run on a keyed table. */
module GridCommit {
  import opened Text
  import opened GridQueue

  datatype Cell = Null | Val(text: string)
  type Row = seq<Cell>

  /** Rows are shown as text; NULL shows as this glyph. */
  const NULL_GLYPH := "\U{2205}"

  function Show(c: Cell): string { if c.Null? then NULL_GLYPH else c.text }

  function ShowRow(row: Row): seq<string> {
    seq(|row|, i requires 0 <= i < |row| => Show(row[i]))
  }

  /** A cleared cell, or one holding the glyph, is written back as NULL. */
  function CellLit(v: string): Cell { if v == "" || v == NULL_GLYPH then Null else Val(v) }

  datatype Cond = IsNull(col: nat) | Equals(col: nat, text: string)

  datatype Stmt = Update(sets: map<nat, Cell>, where: seq<Cond>) | Delete(where: seq<Cond>) | Insert(vals: map<nat, Cell>)

  // ---- the generated statements ----

  predicate Below(s: seq<nat>, n: nat) {
    forall i | 0 <= i < |s| :: s[i] < n
  }

  /** The row is identified by its primary key as shown (by all columns when there is none). */
  function RowWhere(key: seq<nat>, shown: seq<string>): seq<Cond>
    requires Below(key, |shown|)
  {
    seq(|key|, i requires 0 <= i < |key| =>
      if shown[key[i]] == NULL_GLYPH then IsNull(key[i]) else Equals(key[i], shown[key[i]]))
  }

  function AllColumns(n: nat): seq<nat> { seq(n, i requires 0 <= i < n => i) }

  /** Rows with a surviving edit, in ascending order. */
  function EditedRows(q: Queue, n: nat): seq<nat> {
    if n == 0 then []
    else EditedRows(q, n - 1) + IfEdited(q, n - 1)
  }

  function IfEdited(q: Queue, r: nat): seq<nat> {
    if r in q.edits && r !in q.deletes && q.edits[r] != map[] then [r] else []
  }

  function SetsOf(e: Draft): map<nat, Cell> { map c | c in e :: CellLit(e[c]) }

  function ValsOf(d: Draft): map<nat, Cell> { map c | c in d :: Val(d[c]) }

  /** An UPDATE writes every edited cell: NULL for an empty text or the glyph, any other text as it is. */
  predicate Stores(sets: map<nat, Cell>, e: Draft) {
    && sets.Keys == e.Keys
    && forall c | c in e :: (e[c] in {"", "\U{2205}"} ==> sets[c] == Null) && (e[c] !in {"", "\U{2205}"} ==> sets[c] == Val(e[c]))
  }

  /** An INSERT gives the texts of the draft as they are. */
  predicate Carries(vals: map<nat, Cell>, d: Draft) {
    vals.Keys == d.Keys && forall c | c in d :: vals[c] == Val(d[c])
  }

  /** The queue talks about rows and columns of the page. */
  ghost predicate OnPage(q: Queue, rows: seq<seq<string>>, n: nat) {
    && (forall r | 0 <= r < |rows| :: |rows[r]| == n)
    && NoDup(q.deletes) && Below(q.deletes, |rows|)
    && (forall r | r in q.edits :: r < |rows| && forall c | c in q.edits[r] :: c < n)
  }

  /** These rows of the page exist and have the key columns. */
  predicate PageRows(key: seq<nat>, rows: seq<seq<string>>, rs: seq<nat>) {
    forall i | 0 <= i < |rs| :: rs[i] < |rows| && Below(key, |rows[rs[i]]|)
  }

  function Updates(key: seq<nat>, q: Queue, rows: seq<seq<string>>, rs: seq<nat>): seq<Stmt>
    requires PageRows(key, rows, rs) && forall i | 0 <= i < |rs| :: rs[i] in q.edits
  {
    if rs == [] then [] else [Update(SetsOf(q.edits[rs[0]]), RowWhere(key, rows[rs[0]]))] + Updates(key, q, rows, rs[1..])
  }

  function Deletes(key: seq<nat>, rows: seq<seq<string>>, rs: seq<nat>): seq<Stmt>
    requires PageRows(key, rows, rs)
  {
    if rs == [] then [] else [Delete(RowWhere(key, rows[rs[0]]))] + Deletes(key, rows, rs[1..])
  }

  function Inserts(ds: seq<Draft>): seq<Stmt> {
    if ds == [] then [] else [Insert(ValsOf(ds[0]))] + Inserts(ds[1..])
  }

  lemma {:induction false} EditedRowsContent(q: Queue, n: nat)
    ensures NoDup(EditedRows(q, n)) && forall i, j | 0 <= i < j < |EditedRows(q, n)| :: EditedRows(q, n)[i] < EditedRows(q, n)[j]
    ensures Below(EditedRows(q, n), n) && forall i | 0 <= i < |EditedRows(q, n)| :: EditedRows(q, n)[i] in q.edits
    ensures forall r :: r in EditedRows(q, n) <==> r < n && r in q.edits && r !in q.deletes && q.edits[r] != map[]
  {
    if n > 0 { EditedRowsContent(q, n - 1); }
  }

  lemma {:induction false} QueueRows(key: seq<nat>, q: Queue, rows: seq<seq<string>>, n: nat)
    requires OnPage(q, rows, n) && Below(key, n)
    ensures PageRows(key, rows, EditedRows(q, |rows|)) && PageRows(key, rows, q.deletes)
    ensures forall i | 0 <= i < |EditedRows(q, |rows|)| :: EditedRows(q, |rows|)[i] in q.edits
  {
    EditedRowsContent(q, |rows|);
  }

  ghost function TxStatements(key: seq<nat>, q: Queue, rows: seq<seq<string>>, n: nat): seq<Stmt>
    requires OnPage(q, rows, n) && Below(key, n)
  {
    QueueRows(key, q, rows, n);
    Updates(key, q, rows, EditedRows(q, |rows|)) + Deletes(key, rows, q.deletes) + Inserts(q.inserts)
  }

  method PushUpdates(key: seq<nat>, q: Queue, rows: seq<seq<string>>, rs: seq<nat>) returns (out: seq<Stmt>)
    requires PageRows(key, rows, rs) && forall i | 0 <= i < |rs| :: rs[i] in q.edits
    ensures out == Updates(key, q, rows, rs)
  {
    out := [];
    for i := 0 to |rs|
      invariant Updates(key, q, rows, rs) == out + Updates(key, q, rows, rs[i..])
    {
      assert rs[i..][1..] == rs[i + 1..];
      var s := Update(SetsOf(q.edits[rs[i]]), RowWhere(key, rows[rs[i]]));
      Assoc(out, [s], Updates(key, q, rows, rs[i + 1..]));
      out := out + [s];
    }
  }

  method PushDeletes(key: seq<nat>, rows: seq<seq<string>>, rs: seq<nat>) returns (out: seq<Stmt>)
    requires PageRows(key, rows, rs)
    ensures out == Deletes(key, rows, rs)
  {
    out := [];
    for i := 0 to |rs|
      invariant Deletes(key, rows, rs) == out + Deletes(key, rows, rs[i..])
    {
      assert rs[i..][1..] == rs[i + 1..];
      var s := Delete(RowWhere(key, rows[rs[i]]));
      Assoc(out, [s], Deletes(key, rows, rs[i + 1..]));
      out := out + [s];
    }
  }

  method PushInserts(ds: seq<Draft>) returns (out: seq<Stmt>)
    ensures out == Inserts(ds)
  {
    out := [];
    for i := 0 to |ds|
      invariant Inserts(ds) == out + Inserts(ds[i..])
    {
      assert ds[i..][1..] == ds[i + 1..];
      Assoc(out, [Insert(ValsOf(ds[i]))], Inserts(ds[i + 1..]));
      out := out + [Insert(ValsOf(ds[i]))];
    }
  }

  /** The statement builder: per-row updates, then deletes, then inserts. */
  method BuildStatements(pk: seq<nat>, q: Queue, rows: seq<seq<string>>, n: nat) returns (out: seq<Stmt>)
    requires OnPage(q, rows, n) && Below(pk, n)
    ensures out == TxStatements(if pk != [] then pk else AllColumns(n), q, rows, n)
  {
    var key := if pk != [] then pk else AllColumns(n);
    QueueRows(key, q, rows, n);
    out := PushUpdates(key, q, rows, EditedRows(q, |rows|));
    var part := PushDeletes(key, rows, q.deletes);
    out := out + part;
    part := PushInserts(q.inserts);
    out := out + part;
  }

  predicate StoresAll(u: seq<Stmt>, q: Queue, rs: seq<nat>) {
    |u| == |rs| && forall i | 0 <= i < |rs| :: rs[i] in q.edits && u[i].Update? && Stores(u[i].sets, q.edits[rs[i]])
  }

  predicate DeletesAll(d: seq<Stmt>, q: Queue) {
    |d| == |q.deletes| && forall i | 0 <= i < |d| :: d[i].Delete?
  }

  predicate CarriesAll(ins: seq<Stmt>, q: Queue) {
    |ins| == |q.inserts| && forall i | 0 <= i < |ins| :: ins[i].Insert? && Carries(ins[i].vals, q.inserts[i])
  }

  /** An UPDATE for each row with a surviving edit, in ascending order, that stores its edits; a DELETE
      for each queued row; an INSERT for each draft, with its texts as they are. */
  lemma {:induction false} StatementsSay(key: seq<nat>, q: Queue, rows: seq<seq<string>>, n: nat)
    requires OnPage(q, rows, n) && Below(key, n)
    ensures var sts, rs := TxStatements(key, q, rows, n), EditedRows(q, |rows|);
            exists u, d, ins :: sts == u + d + ins && StoresAll(u, q, rs) && DeletesAll(d, q) && CarriesAll(ins, q)
  {
    QueueRows(key, q, rows, n);
    var rs := EditedRows(q, |rows|);
    UpdatesSay(key, q, rows, rs);
    DeletesSay(key, rows, q.deletes);
    InsertsSay(q.inserts);
    assert TxStatements(key, q, rows, n) == Updates(key, q, rows, rs) + Deletes(key, rows, q.deletes) + Inserts(q.inserts);
    assert StoresAll(Updates(key, q, rows, rs), q, rs) && DeletesAll(Deletes(key, rows, q.deletes), q) && CarriesAll(Inserts(q.inserts), q);
  }

  lemma {:induction false} UpdatesSay(key: seq<nat>, q: Queue, rows: seq<seq<string>>, rs: seq<nat>)
    requires PageRows(key, rows, rs) && forall i | 0 <= i < |rs| :: rs[i] in q.edits
    ensures |Updates(key, q, rows, rs)| == |rs|
    ensures forall i | 0 <= i < |rs| :: var st := Updates(key, q, rows, rs)[i]; st.Update? && Stores(st.sets, q.edits[rs[i]])
  {
    if rs != [] { UpdatesSay(key, q, rows, rs[1..]); }
  }

  lemma {:induction false} DeletesSay(key: seq<nat>, rows: seq<seq<string>>, rs: seq<nat>)
    requires PageRows(key, rows, rs)
    ensures |Deletes(key, rows, rs)| == |rs| && forall i | 0 <= i < |rs| :: Deletes(key, rows, rs)[i].Delete?
  {
    if rs != [] { DeletesSay(key, rows, rs[1..]); }
  }

  lemma {:induction false} InsertsSay(ds: seq<Draft>)
    ensures |Inserts(ds)| == |ds|
    ensures forall i | 0 <= i < |ds| :: Inserts(ds)[i].Insert? && Carries(Inserts(ds)[i].vals, ds[i])
  {
    if ds != [] { InsertsSay(ds[1..]); }
  }

  lemma {:induction false} Assoc(a: seq<Stmt>, b: seq<Stmt>, c: seq<Stmt>)
    ensures a + b + c == a + (b + c)
  {
  }

  // ---- the table ----

  /** Rows under hidden row identities; a new row gets the identity `next`. */
  datatype Db = Db(rows: map<nat, Row>, next: nat)

  /** The shape of the table: column count, primary key columns, column defaults. */
  datatype Shape = Shape(n: nat, pk: seq<nat>, defaults: Row)

  ghost predicate GoodShape(s: Shape) {
    |s.defaults| == s.n && s.pk != [] && Below(s.pk, s.n)
  }

  function KeyOf(pk: seq<nat>, row: Row): seq<Cell>
    requires Below(pk, |row|)
  {
    seq(|pk|, i requires 0 <= i < |pk| => row[pk[i]])
  }

  predicate Fits(s: Shape, row: Row) {
    |row| == s.n && forall i | 0 <= i < |s.pk| :: s.pk[i] < |row| && row[s.pk[i]].Val?
  }

  /** Every row has its columns and a key without NULL, and no two rows share a key. */
  ghost predicate Keyed(s: Shape, rows: map<nat, Row>) {
    && (forall id | id in rows :: Fits(s, rows[id]))
    && (forall a, b | a in rows && b in rows && KeyOf(s.pk, rows[a]) == KeyOf(s.pk, rows[b]) :: a == b)
  }

  predicate CondHolds(cond: Cond, row: Row) {
    match cond
    case IsNull(c) => c < |row| && row[c].Null?
    case Equals(c, text) => c < |row| && row[c] == Val(text)
  }

  predicate Matches(where: seq<Cond>, row: Row) {
    forall i | 0 <= i < |where| :: CondHolds(where[i], row)
  }

  function SetCells(sets: map<nat, Cell>, row: Row): Row {
    seq(|row|, i requires 0 <= i < |row| => if i in sets then sets[i] else row[i])
  }

  function NewRow(s: Shape, vals: map<nat, Cell>): Row { SetCells(vals, s.defaults) }

  ghost function Effect(s: Shape, st: Stmt, db: Db): Db {
    match st
    case Update(sets, where) =>
      db.(rows := map id | id in db.rows :: if Matches(where, db.rows[id]) then SetCells(sets, db.rows[id]) else db.rows[id])
    case Delete(where) =>
      db.(rows := map id | id in db.rows && !Matches(where, db.rows[id]) :: db.rows[id])
    case Insert(vals) =>
      Db(db.rows[db.next := NewRow(s, vals)], db.next + 1)
  }

  /** One statement: refused when it would break the primary key. */
  ghost function ExecOne(s: Shape, st: Stmt, db: Db): Option<Db> {
    if Keyed(s, Effect(s, st, db).rows) then Some(Effect(s, st, db)) else None
  }

  /** The batch is one transaction: any refusal rolls everything back. */
  ghost function Exec(s: Shape, sts: seq<Stmt>, db: Db): Option<Db> {
    if sts == [] then Some(db)
    else
      var next := ExecOne(s, sts[0], db);
      if next.None? then None else Exec(s, sts[1..], next.value)
  }

  lemma {:induction false} ExecConcat(s: Shape, a: seq<Stmt>, b: seq<Stmt>, db: Db)
    ensures Exec(s, a + b, db) == var mid := Exec(s, a, db); if mid.None? then None else Exec(s, b, mid.value)
  {
    if a == [] {
      assert a + b == b;
    } else {
      assert (a + b)[1..] == a[1..] + b;
      var next := ExecOne(s, a[0], db);
      if next.Some? { ExecConcat(s, a[1..], b, next.value); }
    }
  }

  // ---- a statement written for a row hits that row only ----

  /** No key cell stores the text that NULL shows as. */
  predicate NoGlyphKey(pk: seq<nat>, row: Row)
    requires Below(pk, |row|)
  {
    forall i | 0 <= i < |pk| :: row[pk[i]] != Val(NULL_GLYPH)
  }

  lemma {:induction false} DifferentAt(a: seq<Cell>, b: seq<Cell>, i: nat)
    requires i < |a| == |b| && a[i] != b[i]
    ensures a != b
  {
  }

  /** The generated condition selects exactly the rows with the same key, as long as no key cell
      stores the glyph; otherwise it does not even select its own row. */
  lemma {:induction false} WhereMatchesKey(s: Shape, row: Row, other: Row)
    requires Fits(s, row) && Fits(s, other)
    ensures NoGlyphKey(s.pk, row) ==>
              (Matches(RowWhere(s.pk, ShowRow(row)), other) <==> KeyOf(s.pk, other) == KeyOf(s.pk, row))
    ensures !NoGlyphKey(s.pk, row) ==> !Matches(RowWhere(s.pk, ShowRow(row)), other)
  {
    var where := RowWhere(s.pk, ShowRow(row));
    forall i | 0 <= i < |s.pk|
      ensures where[i] == if row[s.pk[i]] == Val(NULL_GLYPH) then IsNull(s.pk[i]) else Equals(s.pk[i], row[s.pk[i]].text)
      ensures KeyOf(s.pk, row)[i] == row[s.pk[i]] && KeyOf(s.pk, other)[i] == other[s.pk[i]]
    {
    }
    if !NoGlyphKey(s.pk, row) {
      var i :| 0 <= i < |s.pk| && row[s.pk[i]] == Val(NULL_GLYPH);
      assert where[i] == IsNull(s.pk[i]);
    } else if Matches(where, other) {
      forall i | 0 <= i < |s.pk| ensures KeyOf(s.pk, other)[i] == KeyOf(s.pk, row)[i] {
        assert where[i] == Equals(s.pk[i], row[s.pk[i]].text);
      }
    } else {
      var i :| 0 <= i < |where| && !CondHolds(where[i], other);
      DifferentAt(KeyOf(s.pk, other), KeyOf(s.pk, row), i);
    }
  }

  /** Without a primary key the condition names every column, and selects exactly the rows that are
      equal to the one shown, as long as no cell stores the glyph. */
  lemma {:induction false} WholeRowCondition(row: Row, other: Row)
    requires |row| == |other| && forall i | 0 <= i < |row| :: row[i] != Val(NULL_GLYPH)
    ensures Matches(RowWhere(AllColumns(|row|), ShowRow(row)), other) <==> other == row
  {
    var where := RowWhere(AllColumns(|row|), ShowRow(row));
    forall i | 0 <= i < |row| ensures CondHolds(where[i], other) <==> other[i] == row[i] {
    }
    if Matches(where, other) {
      forall i | 0 <= i < |row| ensures other[i] == row[i] { assert CondHolds(where[i], other); }
    }
  }

  lemma {:induction false} OnlyThatRow(s: Shape, db: Db, id: nat)
    requires Keyed(s, db.rows) && id in db.rows && NoGlyphKey(s.pk, db.rows[id])
    ensures forall other | other in db.rows ::
              Matches(RowWhere(s.pk, ShowRow(db.rows[id])), db.rows[other]) <==> other == id
  {
    forall other | other in db.rows
      ensures Matches(RowWhere(s.pk, ShowRow(db.rows[id])), db.rows[other]) <==> other == id
    {
      WhereMatchesKey(s, db.rows[id], db.rows[other]);
    }
  }

  // ---- the overlay: what the grid shows will be committed ----

  /** Where row identity `id` is on the page. */
  function PageIndex(page: seq<nat>, id: nat): Option<nat> {
    if page == [] then None else if page[|page| - 1] == id then Some(|page| - 1) else PageIndex(page[..|page| - 1], id)
  }

  lemma {:induction false} PageIndexIs(page: seq<nat>, id: nat)
    requires NoDup(page)
    ensures PageIndex(page, id).None? <==> id !in page
    ensures forall r | 0 <= r < |page| && page[r] == id :: PageIndex(page, id) == Some(r)
    ensures PageIndex(page, id).Some? ==> PageIndex(page, id).value < |page| && page[PageIndex(page, id).value] == id
  {
    if page != [] {
      var init := page[..|page| - 1];
      PageIndexIs(init, id);
      assert page == init + [page[|page| - 1]];
      assert id in page <==> id in init || id == page[|page| - 1];
    }
  }

  predicate IsDeleted(q: Queue, page: seq<nat>, id: nat) {
    var r := PageIndex(page, id); r.Some? && r.value in q.deletes
  }

  /** The row shown for `id`: its edited cells replaced. */
  function ShownRow(q: Queue, page: seq<nat>, id: nat, row: Row): Row {
    var r := PageIndex(page, id);
    if r.Some? && r.value in q.edits && r.value !in q.deletes then SetCells(SetsOf(q.edits[r.value]), row) else row
  }

  /** Edited cells replaced, queued rows removed, drafts added, all other rows untouched. */
  function Overlay(s: Shape, q: Queue, page: seq<nat>, db: Db): Db {
    AddDrafts(s, q.inserts, db.(rows := PageOverlay(q, page, db.rows)))
  }

  function PageOverlay(q: Queue, page: seq<nat>, rows: map<nat, Row>): map<nat, Row> {
    map id | id in rows && !IsDeleted(q, page, id) :: ShownRow(q, page, id, rows[id])
  }

  function AddDrafts(s: Shape, ds: seq<Draft>, db: Db): Db
    decreases ds
  {
    if ds == [] then db else AddDrafts(s, ds[1..], Db(db.rows[db.next := NewRow(s, ValsOf(ds[0]))], db.next + 1))
  }

  /** The page shows rows of the table, and the queue talks about the page. */
  ghost predicate Showing(s: Shape, q: Queue, page: seq<nat>, db: Db, rows: seq<seq<string>>) {
    && GoodShape(s) && Keyed(s, db.rows) && (forall id | id in db.rows :: id < db.next)
    && NoDup(page) && |rows| == |page|
    && (forall r | 0 <= r < |page| :: page[r] in db.rows && rows[r] == ShowRow(db.rows[page[r]]))
    && OnPage(q, rows, s.n)
  }

  /** Every row the queue addresses has a key that can be told from NULL. */
  ghost predicate KeysReadable(s: Shape, q: Queue, page: seq<nat>, db: Db)
    requires GoodShape(s) && Keyed(s, db.rows) && forall r | 0 <= r < |page| :: page[r] in db.rows
  {
    forall r | 0 <= r < |page| && (r in q.edits || r in q.deletes) :: NoGlyphKey(s.pk, db.rows[page[r]])
  }

  // ---- updates ----

  function Updated(q: Queue, page: seq<nat>, rs: seq<nat>, rows: map<nat, Row>): map<nat, Row>
    decreases rs
  {
    if rs == [] then rows
    else
      var r := rs[0];
      Updated(q, page, rs[1..],
        if r < |page| && r in q.edits && page[r] in rows then rows[page[r] := SetCells(SetsOf(q.edits[r]), rows[page[r]])] else rows)
  }

  /** The rows still to be addressed are as they were when the page was loaded. */
  ghost predicate Untouched(page: seq<nat>, rs: seq<nat>, db: Db, cur: Db) {
    forall i | 0 <= i < |rs| && rs[i] < |page| ::
      page[rs[i]] in cur.rows && page[rs[i]] in db.rows && cur.rows[page[rs[i]]] == db.rows[page[rs[i]]]
  }

  lemma {:induction false} UpdateEffect(s: Shape, sets: map<nat, Cell>, db: Db, id: nat)
    requires Keyed(s, db.rows) && id in db.rows && NoGlyphKey(s.pk, db.rows[id])
    ensures Effect(s, Update(sets, RowWhere(s.pk, ShowRow(db.rows[id]))), db) == db.(rows := db.rows[id := SetCells(sets, db.rows[id])])
  {
    OnlyThatRow(s, db, id);
    UpdateOneRow(s, sets, RowWhere(s.pk, ShowRow(db.rows[id])), db, id);
  }

  lemma {:induction false} UpdateOneRow(s: Shape, sets: map<nat, Cell>, where: seq<Cond>, db: Db, id: nat)
    requires id in db.rows && forall other | other in db.rows :: Matches(where, db.rows[other]) <==> other == id
    ensures Effect(s, Update(sets, where), db) == db.(rows := db.rows[id := SetCells(sets, db.rows[id])])
  {
    assert Effect(s, Update(sets, where), db).rows == db.rows[id := SetCells(sets, db.rows[id])];
  }

  lemma {:induction false} DeleteOneRow(s: Shape, where: seq<Cond>, db: Db, id: nat)
    requires forall other | other in db.rows :: Matches(where, db.rows[other]) <==> other == id
    ensures Effect(s, Delete(where), db) == db.(rows := db.rows - {id})
  {
    assert Effect(s, Delete(where), db).rows == db.rows - {id};
  }

  lemma {:induction false} DeleteEffect(s: Shape, db: Db, id: nat)
    requires Keyed(s, db.rows) && id in db.rows && NoGlyphKey(s.pk, db.rows[id])
    ensures Effect(s, Delete(RowWhere(s.pk, ShowRow(db.rows[id]))), db) == db.(rows := db.rows - {id})
  {
    OnlyThatRow(s, db, id);
    DeleteOneRow(s, RowWhere(s.pk, ShowRow(db.rows[id])), db, id);
  }

  lemma {:induction false} KeyedSubset(s: Shape, rows: map<nat, Row>, gone: set<nat>)
    requires Keyed(s, rows)
    ensures Keyed(s, rows - gone)
  {
  }

  /** What the rest of a list of distinct page rows still addresses is untouched by the first. */
  lemma {:induction false} RestUntouched(page: seq<nat>, rs: seq<nat>, db: Db, cur: Db, after: map<nat, Row>)
    requires NoDup(page) && NoDup(rs) && rs != [] && Below(rs, |page|) && Untouched(page, rs, db, cur)
    requires forall id | id in cur.rows && id != page[rs[0]] :: id in after && after[id] == cur.rows[id]
    ensures Untouched(page, rs[1..], db, cur.(rows := after))
  {
    forall i | 0 <= i < |rs[1..]|
      ensures page[rs[1..][i]] in after && page[rs[1..][i]] in db.rows && after[page[rs[1..][i]]] == db.rows[page[rs[1..][i]]]
    {
      var a, b := rs[0], rs[i + 1];
      assert rs[1..][i] == b && a != b;
      assert page[a] != page[b] by { if a < b { assert page[a] != page[b]; } else { assert page[b] != page[a]; } }
    }
  }

  lemma {:induction false} ExecFirst(s: Shape, st: Stmt, rest: seq<Stmt>, cur: Db)
    ensures Exec(s, [st] + rest, cur) ==
            var next := ExecOne(s, st, cur); if next.None? then None else Exec(s, rest, next.value)
  {
    assert ([st] + rest)[0] == st && ([st] + rest)[1..] == rest;
  }

  lemma {:induction false} AddressableRest(s: Shape, page: seq<nat>, db: Db, rows: seq<seq<string>>, rs: seq<nat>)
    requires Addressable(s, page, db, rows, rs) && rs != []
    ensures Addressable(s, page, db, rows, rs[1..])
  {
  }

  lemma {:induction false} AddressableRows(s: Shape, page: seq<nat>, db: Db, rows: seq<seq<string>>, rs: seq<nat>)
    requires Addressable(s, page, db, rows, rs)
    ensures PageRows(s.pk, rows, rs)
  {
  }

  ghost predicate Addressable(s: Shape, page: seq<nat>, db: Db, rows: seq<seq<string>>, rs: seq<nat>) {
    && GoodShape(s) && NoDup(page) && |rows| == |page| && NoDup(rs) && Below(rs, |page|)
    && (forall i | 0 <= i < |rs| ::
          page[rs[i]] in db.rows && Fits(s, db.rows[page[rs[i]]]) && NoGlyphKey(s.pk, db.rows[page[rs[i]]])
          && rows[rs[i]] == ShowRow(db.rows[page[rs[i]]]))
  }

  lemma {:induction false} UpdatesExec(s: Shape, q: Queue, page: seq<nat>, db: Db, rows: seq<seq<string>>, rs: seq<nat>, cur: Db)
    requires Addressable(s, page, db, rows, rs) && (forall i | 0 <= i < |rs| :: rs[i] in q.edits)
    requires Keyed(s, cur.rows) && Untouched(page, rs, db, cur)
    ensures PageRows(s.pk, rows, rs)
    ensures var r := Exec(s, Updates(s.pk, q, rows, rs), cur);
            r.Some? ==> r.value == cur.(rows := Updated(q, page, rs, cur.rows)) && Keyed(s, r.value.rows)
    decreases rs
  {
    AddressableRows(s, page, db, rows, rs);
    if rs != [] {
      var id := page[rs[0]];
      var st := Update(SetsOf(q.edits[rs[0]]), RowWhere(s.pk, rows[rs[0]]));
      UpdateEffect(s, SetsOf(q.edits[rs[0]]), cur, id);
      var next := cur.(rows := cur.rows[id := SetCells(SetsOf(q.edits[rs[0]]), cur.rows[id])]);
      RestUntouched(page, rs, db, cur, next.rows);
      AddressableRest(s, page, db, rows, rs);
      AddressableRows(s, page, db, rows, rs[1..]);
      ExecFirst(s, st, Updates(s.pk, q, rows, rs[1..]), cur);
      if Keyed(s, next.rows) {
        UpdatesExec(s, q, page, db, rows, rs[1..], next);
      }
    }
  }

  function Removed(page: seq<nat>, rs: seq<nat>, rows: map<nat, Row>): map<nat, Row>
    decreases rs
  {
    if rs == [] then rows else Removed(page, rs[1..], if rs[0] < |page| then rows - {page[rs[0]]} else rows)
  }

  lemma {:induction false} DeletesExec(s: Shape, page: seq<nat>, db: Db, rows: seq<seq<string>>, rs: seq<nat>, cur: Db)
    requires Addressable(s, page, db, rows, rs) && Keyed(s, cur.rows) && Untouched(page, rs, db, cur)
    ensures PageRows(s.pk, rows, rs)
    ensures Exec(s, Deletes(s.pk, rows, rs), cur) == Some(cur.(rows := Removed(page, rs, cur.rows)))
    ensures Keyed(s, Removed(page, rs, cur.rows))
    decreases rs
  {
    AddressableRows(s, page, db, rows, rs);
    if rs != [] {
      var id := page[rs[0]];
      DeleteEffect(s, cur, id);
      var next := cur.(rows := cur.rows - {id});
      KeyedSubset(s, cur.rows, {id});
      RestUntouched(page, rs, db, cur, next.rows);
      AddressableRest(s, page, db, rows, rs);
      AddressableRows(s, page, db, rows, rs[1..]);
      ExecFirst(s, Delete(RowWhere(s.pk, rows[rs[0]])), Deletes(s.pk, rows, rs[1..]), cur);
      DeletesExec(s, page, db, rows, rs[1..], next);
    }
  }

  lemma {:induction false} InsertsExec(s: Shape, ds: seq<Draft>, cur: Db)
    ensures var r := Exec(s, Inserts(ds), cur);
            r.Some? ==> r.value == AddDrafts(s, ds, cur) && (Keyed(s, cur.rows) ==> Keyed(s, r.value.rows))
    decreases ds
  {
    if ds != [] {
      var next := Db(cur.rows[cur.next := NewRow(s, ValsOf(ds[0]))], cur.next + 1);
      assert Inserts(ds)[1..] == Inserts(ds[1..]);
      if Keyed(s, next.rows) { InsertsExec(s, ds[1..], next); }
    }
  }

  // ---- the batch as a whole ----

  lemma {:induction false} UpdatedContent(q: Queue, page: seq<nat>, rs: seq<nat>, rows: map<nat, Row>, id: nat)
    requires NoDup(page) && NoDup(rs)
    requires forall i | 0 <= i < |rs| :: rs[i] < |page| && rs[i] in q.edits && page[rs[i]] in rows
    ensures id in Updated(q, page, rs, rows) <==> id in rows
    ensures id in rows && (forall i | 0 <= i < |rs| :: page[rs[i]] != id) ==> Updated(q, page, rs, rows)[id] == rows[id]
    ensures forall i | 0 <= i < |rs| && page[rs[i]] == id ::
              Updated(q, page, rs, rows)[id] == SetCells(SetsOf(q.edits[rs[i]]), rows[id])
    decreases rs
  {
    if rs != [] {
      var first := page[rs[0]];
      var rows' := rows[first := SetCells(SetsOf(q.edits[rs[0]]), rows[first])];
      forall i | 0 <= i < |rs[1..]| ensures rs[1..][i] == rs[i + 1] && page[rs[i + 1]] != first {
        var a, b := rs[0], rs[i + 1];
        assert a != b;
        if a < b { assert page[a] != page[b]; } else { assert page[b] != page[a]; }
      }
      UpdatedContent(q, page, rs[1..], rows', id);
      forall i | 0 <= i < |rs| && page[rs[i]] == id
        ensures Updated(q, page, rs, rows)[id] == SetCells(SetsOf(q.edits[rs[i]]), rows[id])
      {
        if i > 0 { assert rs[1..][i - 1] == rs[i]; }
      }
    }
  }

  lemma {:induction false} RemovedContent(page: seq<nat>, rs: seq<nat>, rows: map<nat, Row>, id: nat)
    requires Below(rs, |page|)
    ensures id in Removed(page, rs, rows) <==> id in rows && forall i | 0 <= i < |rs| :: page[rs[i]] != id
    ensures id in Removed(page, rs, rows) ==> Removed(page, rs, rows)[id] == rows[id]
    decreases rs
  {
    if rs != [] {
      RemovedContent(page, rs[1..], rows - {page[rs[0]]}, id);
      forall i | 0 <= i < |rs| && i > 0 ensures rs[i] == rs[1..][i - 1] {
      }
      forall i | 0 <= i < |rs[1..]| ensures rs[1..][i] == rs[i + 1] {
      }
    }
  }

  function AfterUpdates(q: Queue, page: seq<nat>, rows: map<nat, Row>): map<nat, Row> {
    Updated(q, page, EditedRows(q, |page|), rows)
  }

  lemma {:induction false} NoSets(row: Row)
    ensures SetCells(SetsOf(map[]), row) == row
  {
  }

  /** What the updates leave of a row that is not deleted. */
  lemma {:induction false} UpdatedRow(s: Shape, q: Queue, page: seq<nat>, db: Db, rows: seq<seq<string>>, id: nat)
    requires Showing(s, q, page, db, rows)
    ensures var out := AfterUpdates(q, page, db.rows);
            && (id in out <==> id in db.rows)
            && (id in out && !IsDeleted(q, page, id) ==> out[id] == ShownRow(q, page, id, db.rows[id]))
  {
    var rs := EditedRows(q, |page|);
    EditedRowsContent(q, |page|);
    PageIndexIs(page, id);
    UpdatedContent(q, page, rs, db.rows, id);
    var r := PageIndex(page, id);
    forall i | 0 <= i < |rs|
      ensures rs[i] in q.edits && rs[i] !in q.deletes && q.edits[rs[i]] != map[] && (page[rs[i]] == id ==> r == Some(rs[i]))
    {
      assert rs[i] in rs;
    }
    if r.Some? && r.value in q.edits && r.value !in q.deletes && id in db.rows {
      if q.edits[r.value] == map[] {
        NoSets(db.rows[id]);
      } else {
        assert r.value in rs;
        var i :| 0 <= i < |rs| && rs[i] == r.value;
      }
    }
  }

  lemma {:induction false} DeletedRows(q: Queue, page: seq<nat>, id: nat)
    requires NoDup(page) && Below(q.deletes, |page|)
    ensures IsDeleted(q, page, id) <==> exists i :: 0 <= i < |q.deletes| && page[q.deletes[i]] == id
  {
    PageIndexIs(page, id);
    if IsDeleted(q, page, id) {
      var i :| 0 <= i < |q.deletes| && q.deletes[i] == PageIndex(page, id).value;
    }
    if i :| 0 <= i < |q.deletes| && page[q.deletes[i]] == id {
      assert q.deletes[i] in q.deletes;
    }
  }

  /** Row by row, updates followed by deletes give the overlay. */
  lemma {:induction false} OverlayRow(s: Shape, q: Queue, page: seq<nat>, db: Db, rows: seq<seq<string>>, id: nat)
    requires Showing(s, q, page, db, rows)
    ensures var out := Removed(page, q.deletes, AfterUpdates(q, page, db.rows));
            && (id in out <==> id in db.rows && !IsDeleted(q, page, id))
            && (id in out ==> out[id] == ShownRow(q, page, id, db.rows[id]))
  {
    UpdatedRow(s, q, page, db, rows, id);
    DeletedRows(q, page, id);
    RemovedContent(page, q.deletes, AfterUpdates(q, page, db.rows), id);
  }

  lemma {:induction false} SameRows(a: map<nat, Row>, b: map<nat, Row>)
    requires forall id: nat :: (id in a <==> id in b) && (id in a ==> a[id] == b[id])
    ensures a == b
  {
  }

  lemma {:induction false} OverlayRows(s: Shape, q: Queue, page: seq<nat>, db: Db, rows: seq<seq<string>>)
    requires Showing(s, q, page, db, rows)
    ensures Removed(page, q.deletes, AfterUpdates(q, page, db.rows)) == PageOverlay(q, page, db.rows)
  {
    var a, b := Removed(page, q.deletes, AfterUpdates(q, page, db.rows)), PageOverlay(q, page, db.rows);
    forall id: nat ensures (id in a <==> id in b) && (id in a ==> a[id] == b[id]) {
      OverlayRow(s, q, page, db, rows, id);
    }
    SameRows(a, b);
  }

  lemma {:induction false} QueueAddressable(s: Shape, q: Queue, page: seq<nat>, db: Db, rows: seq<seq<string>>, rs: seq<nat>)
    requires Showing(s, q, page, db, rows) && KeysReadable(s, q, page, db) && NoDup(rs) && Below(rs, |page|)
    requires forall i | 0 <= i < |rs| :: rs[i] in q.edits || rs[i] in q.deletes
    ensures Addressable(s, page, db, rows, rs)
  {
  }

  lemma {:induction false} PageApart(page: seq<nat>, a: nat, b: nat)
    requires NoDup(page) && a < |page| && b < |page| && a != b
    ensures page[a] != page[b]
  {
    if a < b { assert page[a] != page[b]; } else { assert page[b] != page[a]; }
  }

  lemma {:induction false} UpdatesUntouchOne(s: Shape, q: Queue, page: seq<nat>, db: Db, rows: seq<seq<string>>, d: nat)
    requires Showing(s, q, page, db, rows) && d in q.deletes && d < |page|
    ensures page[d] in AfterUpdates(q, page, db.rows) && AfterUpdates(q, page, db.rows)[page[d]] == db.rows[page[d]]
  {
    var rs := EditedRows(q, |page|);
    EditedRowsContent(q, |page|);
    UpdatedContent(q, page, rs, db.rows, page[d]);
    forall j | 0 <= j < |rs| ensures page[rs[j]] != page[d] {
      assert rs[j] in rs;
      PageApart(page, rs[j], d);
    }
  }

  lemma {:induction false} UpdatesUntouchDeletes(s: Shape, q: Queue, page: seq<nat>, db: Db, rows: seq<seq<string>>)
    requires Showing(s, q, page, db, rows)
    ensures Untouched(page, q.deletes, db, db.(rows := AfterUpdates(q, page, db.rows)))
  {
    forall i | 0 <= i < |q.deletes|
      ensures var id := page[q.deletes[i]];
              id in AfterUpdates(q, page, db.rows) && AfterUpdates(q, page, db.rows)[id] == db.rows[id]
    {
      UpdatesUntouchOne(s, q, page, db, rows, q.deletes[i]);
    }
  }

  ghost predicate RowsReady(s: Shape, q: Queue, page: seq<nat>, rows: seq<seq<string>>) {
    var rs := EditedRows(q, |page|);
    PageRows(s.pk, rows, rs) && PageRows(s.pk, rows, q.deletes) && forall i | 0 <= i < |rs| :: rs[i] in q.edits
  }

  lemma {:induction false} EditsAddressable(s: Shape, q: Queue, page: seq<nat>, db: Db, rows: seq<seq<string>>)
    requires Showing(s, q, page, db, rows) && KeysReadable(s, q, page, db)
    ensures var rs := EditedRows(q, |page|);
            Addressable(s, page, db, rows, rs) && Untouched(page, rs, db, db) && forall i | 0 <= i < |rs| :: rs[i] in q.edits
  {
    EditedRowsContent(q, |page|);
    QueueAddressable(s, q, page, db, rows, EditedRows(q, |page|));
  }

  lemma {:induction false} QueueReady(s: Shape, q: Queue, page: seq<nat>, db: Db, rows: seq<seq<string>>)
    requires Showing(s, q, page, db, rows)
    ensures RowsReady(s, q, page, rows)
  {
    EditedRowsContent(q, |page|);
  }

  lemma {:induction false} UpdatePhase(s: Shape, q: Queue, page: seq<nat>, db: Db, rows: seq<seq<string>>)
    requires Showing(s, q, page, db, rows) && KeysReadable(s, q, page, db)
    ensures RowsReady(s, q, page, rows)
    ensures var r := Exec(s, Updates(s.pk, q, rows, EditedRows(q, |page|)), db);
            r.Some? ==> r.value == db.(rows := AfterUpdates(q, page, db.rows)) && Keyed(s, r.value.rows)
    ensures NoKeyEdits(s, q) ==> Exec(s, Updates(s.pk, q, rows, EditedRows(q, |page|)), db).Some?
  {
    QueueReady(s, q, page, db, rows);
    EditsAddressable(s, q, page, db, rows);
    UpdatesExec(s, q, page, db, rows, EditedRows(q, |page|), db);
    if NoKeyEdits(s, q) { UpdatesSucceed(s, q, page, db, rows, EditedRows(q, |page|), db); }
  }

  lemma {:induction false} DeletePhase(s: Shape, q: Queue, page: seq<nat>, db: Db, rows: seq<seq<string>>)
    requires Showing(s, q, page, db, rows) && KeysReadable(s, q, page, db) && RowsReady(s, q, page, rows)
    requires Keyed(s, AfterUpdates(q, page, db.rows))
    ensures Exec(s, Deletes(s.pk, rows, q.deletes), db.(rows := AfterUpdates(q, page, db.rows))) == Some(db.(rows := PageOverlay(q, page, db.rows)))
    ensures Keyed(s, PageOverlay(q, page, db.rows))
  {
    QueueAddressable(s, q, page, db, rows, q.deletes);
    UpdatesUntouchDeletes(s, q, page, db, rows);
    DeletesExec(s, page, db, rows, q.deletes, db.(rows := AfterUpdates(q, page, db.rows)));
    OverlayRows(s, q, page, db, rows);
  }

  /** The updates, if they go through, and then the deletes. */
  lemma {:induction false} RowStatements(s: Shape, q: Queue, page: seq<nat>, db: Db, rows: seq<seq<string>>)
    requires Showing(s, q, page, db, rows) && KeysReadable(s, q, page, db)
    ensures RowsReady(s, q, page, rows)
    ensures var updates := Updates(s.pk, q, rows, EditedRows(q, |page|));
            Exec(s, updates + Deletes(s.pk, rows, q.deletes), db) ==
              if Exec(s, updates, db).Some? then Some(db.(rows := PageOverlay(q, page, db.rows))) else None
    ensures Exec(s, Updates(s.pk, q, rows, EditedRows(q, |page|)), db).Some? ==> Keyed(s, PageOverlay(q, page, db.rows))
  {
    UpdatePhase(s, q, page, db, rows);
    ExecConcat(s, Updates(s.pk, q, rows, EditedRows(q, |page|)), Deletes(s.pk, rows, q.deletes), db);
    if Exec(s, Updates(s.pk, q, rows, EditedRows(q, |page|)), db).Some? { DeletePhase(s, q, page, db, rows); }
  }

  /** Whenever a batch over readable keys commits, even when key cells were edited, it leaves exactly
      the table the overlay describes. */
  lemma {:induction false} ReadableCommitIsOverlay(s: Shape, q: Queue, page: seq<nat>, db: Db, rows: seq<seq<string>>)
    requires Showing(s, q, page, db, rows) && KeysReadable(s, q, page, db)
    ensures var r := Exec(s, TxStatements(s.pk, q, rows, s.n), db);
            r.Some? ==> r.value == Overlay(s, q, page, db) && Keyed(s, r.value.rows)
  {
    RowStatements(s, q, page, db, rows);
    var updates := Updates(s.pk, q, rows, EditedRows(q, |page|));
    ExecConcat(s, updates + Deletes(s.pk, rows, q.deletes), Inserts(q.inserts), db);
    if Exec(s, updates, db).Some? { InsertsExec(s, q.inserts, db.(rows := PageOverlay(q, page, db.rows))); }
  }

  // ---- when the batch commits ----

  ghost predicate NoKeyEdits(s: Shape, q: Queue) {
    forall r, c | r in q.edits && c in q.edits[r] :: c !in s.pk
  }

  lemma {:induction false} SameKey(s: Shape, row: Row, sets: map<nat, Cell>)
    requires Fits(s, row) && forall c | c in sets :: c !in s.pk
    ensures Fits(s, SetCells(sets, row)) && KeyOf(s.pk, SetCells(sets, row)) == KeyOf(s.pk, row)
  {
    forall i | 0 <= i < |s.pk| ensures SetCells(sets, row)[s.pk[i]] == row[s.pk[i]] {
      assert s.pk[i] in s.pk;
    }
  }

  lemma {:induction false} KeyedUpdate(s: Shape, rows: map<nat, Row>, id: nat, sets: map<nat, Cell>)
    requires Keyed(s, rows) && id in rows && forall c | c in sets :: c !in s.pk
    ensures Keyed(s, rows[id := SetCells(sets, rows[id])])
  {
    SameKey(s, rows[id], sets);
  }

  lemma {:induction false} UpdatesSucceed(s: Shape, q: Queue, page: seq<nat>, db: Db, rows: seq<seq<string>>, rs: seq<nat>, cur: Db)
    requires Addressable(s, page, db, rows, rs) && (forall i | 0 <= i < |rs| :: rs[i] in q.edits) && NoKeyEdits(s, q)
    requires Keyed(s, cur.rows) && Untouched(page, rs, db, cur)
    ensures PageRows(s.pk, rows, rs) && Exec(s, Updates(s.pk, q, rows, rs), cur).Some?
    decreases rs
  {
    AddressableRows(s, page, db, rows, rs);
    if rs != [] {
      var id := page[rs[0]];
      var sets := SetsOf(q.edits[rs[0]]);
      UpdateEffect(s, sets, cur, id);
      KeyedUpdate(s, cur.rows, id, sets);
      var next := cur.(rows := cur.rows[id := SetCells(sets, cur.rows[id])]);
      RestUntouched(page, rs, db, cur, next.rows);
      AddressableRest(s, page, db, rows, rs);
      AddressableRows(s, page, db, rows, rs[1..]);
      ExecFirst(s, Update(sets, RowWhere(s.pk, rows[rs[0]])), Updates(s.pk, q, rows, rs[1..]), cur);
      UpdatesSucceed(s, q, page, db, rows, rs[1..], next);
    }
  }

  lemma {:induction false} DraftsKeepRows(s: Shape, ds: seq<Draft>, cur: Db)
    requires forall id | id in cur.rows :: id < cur.next
    ensures forall id | id in cur.rows :: id in AddDrafts(s, ds, cur).rows && AddDrafts(s, ds, cur).rows[id] == cur.rows[id]
    decreases ds
  {
    if ds != [] {
      var next := Db(cur.rows[cur.next := NewRow(s, ValsOf(ds[0]))], cur.next + 1);
      DraftsKeepRows(s, ds[1..], next);
      forall id | id in cur.rows ensures next.rows[id] == cur.rows[id] {
      }
    }
  }

  lemma {:induction false} InsertsSucceed(s: Shape, ds: seq<Draft>, cur: Db)
    requires (forall id | id in cur.rows :: id < cur.next) && Keyed(s, AddDrafts(s, ds, cur).rows)
    ensures Exec(s, Inserts(ds), cur).Some?
    decreases ds
  {
    if ds != [] {
      var next := Db(cur.rows[cur.next := NewRow(s, ValsOf(ds[0]))], cur.next + 1);
      assert Inserts(ds)[1..] == Inserts(ds[1..]);
      DraftsKeepRows(s, ds[1..], next);
      InsertsSucceed(s, ds[1..], next);
    }
  }

  /** The table keeps unique keys after every one of the updates, taken in row order. */
  ghost predicate StaysKeyed(s: Shape, q: Queue, page: seq<nat>, rs: seq<nat>, rows: map<nat, Row>) {
    forall k | 0 <= k <= |rs| :: Keyed(s, Updated(q, page, rs[..k], rows))
  }

  lemma {:induction false} StaysKeyedStep(s: Shape, q: Queue, page: seq<nat>, rs: seq<nat>, rows: map<nat, Row>, next: map<nat, Row>)
    requires rs != [] && rs[0] < |page| && rs[0] in q.edits && page[rs[0]] in rows
    requires next == rows[page[rs[0]] := SetCells(SetsOf(q.edits[rs[0]]), rows[page[rs[0]]])]
    ensures StaysKeyed(s, q, page, rs, rows) <==> Keyed(s, rows) && StaysKeyed(s, q, page, rs[1..], next)
  {
    assert rs[..0] == [];
    forall k | 0 <= k < |rs| ensures Updated(q, page, rs[..k + 1], rows) == Updated(q, page, rs[1..][..k], next) {
      assert rs[..k + 1][0] == rs[0] && rs[..k + 1][1..] == rs[1..][..k];
    }
    if StaysKeyed(s, q, page, rs, rows) {
      forall k | 0 <= k <= |rs[1..]| ensures Keyed(s, Updated(q, page, rs[1..][..k], next)) {
        assert Keyed(s, Updated(q, page, rs[..k + 1], rows));
      }
      assert Keyed(s, Updated(q, page, rs[..0], rows));
    }
    if Keyed(s, rows) && StaysKeyed(s, q, page, rs[1..], next) {
      forall k | 0 <= k <= |rs| ensures Keyed(s, Updated(q, page, rs[..k], rows)) {
        if k > 0 { assert Keyed(s, Updated(q, page, rs[1..][..k - 1], next)); }
      }
    }
  }

  lemma {:induction false} UpdatesSucceedExactly(s: Shape, q: Queue, page: seq<nat>, db: Db, rows: seq<seq<string>>, rs: seq<nat>, cur: Db)
    requires Addressable(s, page, db, rows, rs) && (forall i | 0 <= i < |rs| :: rs[i] in q.edits)
    requires Keyed(s, cur.rows) && Untouched(page, rs, db, cur)
    ensures PageRows(s.pk, rows, rs)
    ensures Exec(s, Updates(s.pk, q, rows, rs), cur).Some? <==> StaysKeyed(s, q, page, rs, cur.rows)
    decreases rs
  {
    AddressableRows(s, page, db, rows, rs);
    if rs == [] {
      assert rs[..0] == [];
    } else {
      var id := page[rs[0]];
      var sets := SetsOf(q.edits[rs[0]]);
      UpdateEffect(s, sets, cur, id);
      var next := cur.(rows := cur.rows[id := SetCells(sets, cur.rows[id])]);
      RestUntouched(page, rs, db, cur, next.rows);
      AddressableRest(s, page, db, rows, rs);
      AddressableRows(s, page, db, rows, rs[1..]);
      ExecFirst(s, Update(sets, RowWhere(s.pk, rows[rs[0]])), Updates(s.pk, q, rows, rs[1..]), cur);
      StaysKeyedStep(s, q, page, rs, cur.rows, next.rows);
      if Keyed(s, next.rows) {
        UpdatesSucceedExactly(s, q, page, db, rows, rs[1..], next);
      } else {
        assert rs[1..][..0] == [];
        assert !Keyed(s, Updated(q, page, rs[1..][..0], next.rows));
      }
    }
  }

  /** Key edits included, a batch over readable keys commits exactly when the table stays keyed after
      each update in row order and the overlay is a keyed table. */
  lemma {:induction false} ReadableCommitsExactly(s: Shape, q: Queue, page: seq<nat>, db: Db, rows: seq<seq<string>>)
    requires Showing(s, q, page, db, rows) && KeysReadable(s, q, page, db)
    ensures Exec(s, TxStatements(s.pk, q, rows, s.n), db) ==
            if StaysKeyed(s, q, page, EditedRows(q, |page|), db.rows) && Keyed(s, Overlay(s, q, page, db).rows)
            then Some(Overlay(s, q, page, db)) else None
  {
    ReadableCommitIsOverlay(s, q, page, db, rows);
    RowStatements(s, q, page, db, rows);
    EditsAddressable(s, q, page, db, rows);
    UpdatesSucceedExactly(s, q, page, db, rows, EditedRows(q, |page|), db);
    var updates := Updates(s.pk, q, rows, EditedRows(q, |page|));
    ExecConcat(s, updates + Deletes(s.pk, rows, q.deletes), Inserts(q.inserts), db);
    if Keyed(s, Overlay(s, q, page, db).rows) {
      InsertsSucceed(s, q.inserts, db.(rows := PageOverlay(q, page, db.rows)));
    }
  }

  // ---- the overlay and the rows that were there before ----

  lemma {:induction false} OverlayKeepsIds(s: Shape, q: Queue, page: seq<nat>, db: Db, id: nat)
    requires id < db.next && forall x | x in db.rows :: x < db.next
    ensures id in Overlay(s, q, page, db).rows <==> id in PageOverlay(q, page, db.rows)
    ensures id in PageOverlay(q, page, db.rows) ==> Overlay(s, q, page, db).rows[id] == PageOverlay(q, page, db.rows)[id]
  {
    DraftIds(s, q.inserts, db.(rows := PageOverlay(q, page, db.rows)), id);
  }

  lemma {:induction false} DraftIds(s: Shape, ds: seq<Draft>, cur: Db, id: nat)
    requires id < cur.next
    ensures id in AddDrafts(s, ds, cur).rows <==> id in cur.rows
    ensures id in cur.rows ==> AddDrafts(s, ds, cur).rows[id] == cur.rows[id]
    decreases ds
  {
    if ds != [] { DraftIds(s, ds[1..], Db(cur.rows[cur.next := NewRow(s, ValsOf(ds[0]))], cur.next + 1), id); }
  }
}
