/** What a commit of the grid's queue does, rows with an unreadable key included. */
module GridOutcome {
  import opened Text
  import opened GridQueue
  import opened GridCommit

  // ---- rows the generated conditions cannot reach ----

  /** Page rows with a key cell that stores the text NULL shows as. */
  function Unreadable(s: Shape, page: seq<nat>, db: Db): set<nat> {
    set r | 0 <= r < |page| && page[r] in db.rows && Below(s.pk, |db.rows[page[r]]|) && !NoGlyphKey(s.pk, db.rows[page[r]])
  }

  function Minus(rs: seq<nat>, u: set<nat>): seq<nat> {
    if rs == [] then [] else (if rs[0] in u then [] else [rs[0]]) + Minus(rs[1..], u)
  }

  /** The queue without what it holds for the rows of `u`. */
  function Spare(q: Queue, u: set<nat>): Queue {
    Queue(q.edits - u, Minus(q.deletes, u), q.inserts)
  }

  lemma {:induction false} MinusConcat(a: seq<nat>, b: seq<nat>, u: set<nat>)
    ensures Minus(a + b, u) == Minus(a, u) + Minus(b, u)
  {
    if a == [] {
      assert a + b == b;
    } else {
      assert (a + b)[1..] == a[1..] + b;
      MinusConcat(a[1..], b, u);
    }
  }

  lemma {:induction false} MinusContent(rs: seq<nat>, u: set<nat>, r: nat)
    ensures r in Minus(rs, u) <==> r in rs && r !in u
  {
    if rs != [] { MinusContent(rs[1..], u, r); }
  }

  lemma {:induction false} MinusNoDup(rs: seq<nat>, u: set<nat>)
    requires NoDup(rs)
    ensures NoDup(Minus(rs, u))
  {
    if rs != [] {
      MinusNoDup(rs[1..], u);
      MinusContent(rs[1..], u, rs[0]);
    }
  }

  lemma {:induction false} IfEditedMinus(q: Queue, u: set<nat>, r: nat)
    ensures IfEdited(Spare(q, u), r) == Minus(IfEdited(q, r), u)
  {
    MinusContent(q.deletes, u, r);
    assert [r][1..] == [];
  }

  lemma {:induction false} EditedMinus(q: Queue, u: set<nat>, n: nat)
    ensures EditedRows(Spare(q, u), n) == Minus(EditedRows(q, n), u)
  {
    if n > 0 {
      EditedMinus(q, u, n - 1);
      IfEditedMinus(q, u, n - 1);
      MinusConcat(EditedRows(q, n - 1), IfEdited(q, n - 1), u);
    }
  }

  // ---- their statements do nothing ----

  /** `rs` are rows of the page, those in `u` with an unreadable key. */
  ghost predicate Reach(s: Shape, page: seq<nat>, db: Db, rows: seq<seq<string>>, rs: seq<nat>, u: set<nat>) {
    && GoodShape(s) && |rows| == |page|
    && (forall i | 0 <= i < |rs| ::
          rs[i] < |page| && page[rs[i]] in db.rows && Fits(s, db.rows[page[rs[i]]]) && rows[rs[i]] == ShowRow(db.rows[page[rs[i]]])
          && (rs[i] in u ==> !NoGlyphKey(s.pk, db.rows[page[rs[i]]])))
  }

  lemma {:induction false} ReachRows(s: Shape, page: seq<nat>, db: Db, rows: seq<seq<string>>, rs: seq<nat>, u: set<nat>)
    requires Reach(s, page, db, rows, rs, u)
    ensures PageRows(s.pk, rows, rs) && PageRows(s.pk, rows, Minus(rs, u))
    ensures rs != [] ==> Reach(s, page, db, rows, rs[1..], u)
  {
    forall i | 0 <= i < |Minus(rs, u)| ensures Minus(rs, u)[i] < |rows| && Below(s.pk, |rows[Minus(rs, u)[i]]|) {
      MinusContent(rs, u, Minus(rs, u)[i]);
    }
  }

  lemma {:induction false} NoEffect(s: Shape, st: Stmt, row: Row, cur: Db)
    requires Keyed(s, cur.rows) && Fits(s, row) && !NoGlyphKey(s.pk, row)
    requires st == Delete(RowWhere(s.pk, ShowRow(row))) || (st.Update? && st.where == RowWhere(s.pk, ShowRow(row)))
    ensures ExecOne(s, st, cur) == Some(cur)
  {
    forall id | id in cur.rows ensures !Matches(RowWhere(s.pk, ShowRow(row)), cur.rows[id]) {
      WhereMatchesKey(s, row, cur.rows[id]);
    }
    assert Effect(s, st, cur).rows == cur.rows;
  }

  lemma {:induction false} MinusEdits(q: Queue, rs: seq<nat>, u: set<nat>)
    requires forall i | 0 <= i < |rs| :: rs[i] in q.edits
    ensures forall i | 0 <= i < |Minus(rs, u)| :: Minus(rs, u)[i] in Spare(q, u).edits
  {
    forall i | 0 <= i < |Minus(rs, u)| ensures Minus(rs, u)[i] in Spare(q, u).edits { MinusContent(rs, u, Minus(rs, u)[i]); }
  }

  lemma {:induction false} UpdatesSpare(s: Shape, q: Queue, page: seq<nat>, db: Db, rows: seq<seq<string>>, rs: seq<nat>, u: set<nat>, cur: Db)
    requires Reach(s, page, db, rows, rs, u) && Keyed(s, cur.rows) && forall i | 0 <= i < |rs| :: rs[i] in q.edits
    ensures PageRows(s.pk, rows, rs) && PageRows(s.pk, rows, Minus(rs, u))
    ensures forall i | 0 <= i < |Minus(rs, u)| :: Minus(rs, u)[i] in Spare(q, u).edits
    ensures Exec(s, Updates(s.pk, q, rows, rs), cur) == Exec(s, Updates(s.pk, Spare(q, u), rows, Minus(rs, u)), cur)
    decreases |rs|
  {
    ReachRows(s, page, db, rows, rs, u);
    MinusEdits(q, rs, u);
    if rs != [] {
      var rest := rs[1..];
      MinusEdits(q, rest, u);
      ReachRows(s, page, db, rows, rest, u);
      var st := Update(SetsOf(q.edits[rs[0]]), RowWhere(s.pk, rows[rs[0]]));
      ExecFirst(s, st, Updates(s.pk, q, rows, rest), cur);
      if rs[0] in u {
        NoEffect(s, st, db.rows[page[rs[0]]], cur);
        assert [] + Minus(rest, u) == Minus(rest, u);
        UpdatesSpare(s, q, page, db, rows, rest, u, cur);
      } else {
        UpdatesKeep(s, q, rows, rs, u, cur);
        var next := ExecOne(s, st, cur);
        if next.Some? { UpdatesSpare(s, q, page, db, rows, rest, u, next.value); }
      }
    }
  }

  lemma {:induction false} UpdatesKeep(s: Shape, q: Queue, rows: seq<seq<string>>, rs: seq<nat>, u: set<nat>, cur: Db)
    requires rs != [] && rs[0] !in u && rs[0] in q.edits
    requires PageRows(s.pk, rows, rs) && PageRows(s.pk, rows, Minus(rs, u)) && PageRows(s.pk, rows, Minus(rs[1..], u))
    requires forall i | 0 <= i < |Minus(rs, u)| :: Minus(rs, u)[i] in Spare(q, u).edits
    requires forall i | 0 <= i < |Minus(rs[1..], u)| :: Minus(rs[1..], u)[i] in Spare(q, u).edits
    ensures Exec(s, Updates(s.pk, Spare(q, u), rows, Minus(rs, u)), cur) ==
            var next := ExecOne(s, Update(SetsOf(q.edits[rs[0]]), RowWhere(s.pk, rows[rs[0]])), cur);
            if next.None? then None else Exec(s, Updates(s.pk, Spare(q, u), rows, Minus(rs[1..], u)), next.value)
  {
    assert Minus(rs, u)[1..] == Minus(rs[1..], u);
    ExecFirst(s, Update(SetsOf(q.edits[rs[0]]), RowWhere(s.pk, rows[rs[0]])), Updates(s.pk, Spare(q, u), rows, Minus(rs[1..], u)), cur);
  }

  lemma {:induction false} DeletesSpare(s: Shape, page: seq<nat>, db: Db, rows: seq<seq<string>>, rs: seq<nat>, u: set<nat>, cur: Db)
    requires Reach(s, page, db, rows, rs, u) && Keyed(s, cur.rows)
    ensures PageRows(s.pk, rows, rs) && PageRows(s.pk, rows, Minus(rs, u))
    ensures Exec(s, Deletes(s.pk, rows, rs), cur) == Exec(s, Deletes(s.pk, rows, Minus(rs, u)), cur)
    decreases |rs|
  {
    ReachRows(s, page, db, rows, rs, u);
    if rs != [] {
      var rest := rs[1..];
      ReachRows(s, page, db, rows, rest, u);
      var st := Delete(RowWhere(s.pk, rows[rs[0]]));
      ExecFirst(s, st, Deletes(s.pk, rows, rest), cur);
      if rs[0] in u {
        NoEffect(s, st, db.rows[page[rs[0]]], cur);
        assert [] + Minus(rest, u) == Minus(rest, u);
        DeletesSpare(s, page, db, rows, rest, u, cur);
      } else {
        assert Minus(rs, u)[1..] == Minus(rest, u);
        ExecFirst(s, st, Deletes(s.pk, rows, Minus(rest, u)), cur);
        var next := ExecOne(s, st, cur);
        if next.Some? { DeletesSpare(s, page, db, rows, rest, u, next.value); }
      }
    }
  }

  // ---- the whole batch ----

  /** What of the queue reaches the table. */
  function Reaching(s: Shape, q: Queue, page: seq<nat>, db: Db): Queue { Spare(q, Unreadable(s, page, db)) }

  lemma {:induction false} ReachingShows(s: Shape, q: Queue, page: seq<nat>, db: Db, rows: seq<seq<string>>)
    requires Showing(s, q, page, db, rows)
    ensures Showing(s, Reaching(s, q, page, db), page, db, rows) && KeysReadable(s, Reaching(s, q, page, db), page, db)
  {
    var u := Unreadable(s, page, db);
    MinusNoDup(q.deletes, u);
    forall r ensures r in Minus(q.deletes, u) <==> r in q.deletes && r !in u { MinusContent(q.deletes, u, r); }
    forall i | 0 <= i < |Minus(q.deletes, u)| ensures Minus(q.deletes, u)[i] < |rows| {
      assert Minus(q.deletes, u)[i] in q.deletes;
    }
  }

  lemma {:induction false} QueueReach(s: Shape, q: Queue, page: seq<nat>, db: Db, rows: seq<seq<string>>)
    requires Showing(s, q, page, db, rows)
    ensures var u := Unreadable(s, page, db);
            && Reach(s, page, db, rows, EditedRows(q, |page|), u) && Reach(s, page, db, rows, q.deletes, u)
            && forall i | 0 <= i < |EditedRows(q, |page|)| :: EditedRows(q, |page|)[i] in q.edits
  {
    EditedRowsContent(q, |page|);
  }

  lemma {:induction false} ExecKeyed(s: Shape, sts: seq<Stmt>, db: Db)
    requires Keyed(s, db.rows)
    ensures Exec(s, sts, db).Some? ==> Keyed(s, Exec(s, sts, db).value.rows)
    decreases |sts|
  {
    if sts != [] {
      var next := ExecOne(s, sts[0], db);
      if next.Some? { ExecKeyed(s, sts[1..], next.value); }
    }
  }

  /** Replacing two parts of a batch by parts that do the same. */
  lemma {:induction false} SameBatch(s: Shape, a: seq<Stmt>, b: seq<Stmt>, a': seq<Stmt>, b': seq<Stmt>, c: seq<Stmt>, db: Db)
    requires Exec(s, a, db) == Exec(s, a', db)
    requires Exec(s, a, db).Some? ==> Exec(s, b, Exec(s, a, db).value) == Exec(s, b', Exec(s, a, db).value)
    ensures Exec(s, a + b + c, db) == Exec(s, a' + b' + c, db)
  {
    ExecConcat(s, a + b, c, db);
    ExecConcat(s, a, b, db);
    ExecConcat(s, a' + b', c, db);
    ExecConcat(s, a', b', db);
  }

  /** The batch does exactly what the batch of the reaching part would do. */
  lemma {:induction false} OnlyReachingCounts(s: Shape, q: Queue, page: seq<nat>, db: Db, rows: seq<seq<string>>)
    requires Showing(s, q, page, db, rows)
    ensures Showing(s, Reaching(s, q, page, db), page, db, rows)
    ensures Exec(s, TxStatements(s.pk, q, rows, s.n), db) == Exec(s, TxStatements(s.pk, Reaching(s, q, page, db), rows, s.n), db)
  {
    var u, q' := Unreadable(s, page, db), Reaching(s, q, page, db);
    ReachingShows(s, q, page, db, rows);
    QueueReach(s, q, page, db, rows);
    QueueRows(s.pk, q, rows, s.n);
    QueueRows(s.pk, q', rows, s.n);
    EditedMinus(q, u, |page|);
    var rs := EditedRows(q, |page|);
    UpdatesSpare(s, q, page, db, rows, rs, u, db);
    var a, b := Updates(s.pk, q, rows, rs), Deletes(s.pk, rows, q.deletes);
    ExecKeyed(s, a, db);
    if Exec(s, a, db).Some? { DeletesSpare(s, page, db, rows, q.deletes, u, Exec(s, a, db).value); }
    SameBatch(s, a, b, Updates(s.pk, q', rows, Minus(rs, u)), Deletes(s.pk, rows, q'.deletes), Inserts(q.inserts), db);
  }

  /** Whenever the batch commits, key edits included, it leaves the overlay of the reaching part:
      changes of rows with an unreadable key are lost without an error. */
  lemma {:induction false} CommitIsOverlay(s: Shape, q: Queue, page: seq<nat>, db: Db, rows: seq<seq<string>>)
    requires Showing(s, q, page, db, rows)
    ensures var r := Exec(s, TxStatements(s.pk, q, rows, s.n), db);
            r.Some? ==> r.value == Overlay(s, Reaching(s, q, page, db), page, db) && Keyed(s, r.value.rows)
  {
    ReachingShows(s, q, page, db, rows);
    OnlyReachingCounts(s, q, page, db, rows);
    ReadableCommitIsOverlay(s, Reaching(s, q, page, db), page, db, rows);
  }

  /** The batch commits exactly when the table stays keyed after each update that reaches it, in row
      order, and the overlay of the reaching part is a keyed table. */
  lemma {:induction false} CommitsExactly(s: Shape, q: Queue, page: seq<nat>, db: Db, rows: seq<seq<string>>)
    requires Showing(s, q, page, db, rows)
    ensures var q' := Reaching(s, q, page, db);
            Exec(s, TxStatements(s.pk, q, rows, s.n), db) ==
            if StaysKeyed(s, q', page, EditedRows(q', |page|), db.rows) && Keyed(s, Overlay(s, q', page, db).rows)
            then Some(Overlay(s, q', page, db)) else None
  {
    ReachingShows(s, q, page, db, rows);
    OnlyReachingCounts(s, q, page, db, rows);
    ReadableCommitsExactly(s, Reaching(s, q, page, db), page, db, rows);
  }

  /** When no key cell was edited, it commits exactly when that overlay is a keyed table. */
  lemma {:induction false} CommitsWhenKeyed(s: Shape, q: Queue, page: seq<nat>, db: Db, rows: seq<seq<string>>)
    requires Showing(s, q, page, db, rows) && NoKeyEdits(s, q)
    ensures var after := Overlay(s, Reaching(s, q, page, db), page, db);
            Exec(s, TxStatements(s.pk, q, rows, s.n), db) == if Keyed(s, after.rows) then Some(after) else None
  {
    var q' := Reaching(s, q, page, db);
    ReachingShows(s, q, page, db, rows);
    CommitsExactly(s, q, page, db, rows);
    EditsAddressable(s, q', page, db, rows);
    UpdatesSucceed(s, q', page, db, rows, EditedRows(q', |page|), db);
    UpdatesSucceedExactly(s, q', page, db, rows, EditedRows(q', |page|), db);
  }

  // ---- when the table ends as the grid shows it ----

  /** No row with an unreadable key is deleted, and the edits of each leave it as it was. */
  ghost predicate NothingLost(s: Shape, q: Queue, page: seq<nat>, db: Db) {
    forall r | r in Unreadable(s, page, db) ::
      RowKept(q, page, db, r)
  }

  lemma {:induction false} OverlayOfRow(s: Shape, q: Queue, page: seq<nat>, db: Db, rows: seq<seq<string>>, id: nat)
    requires Showing(s, q, page, db, rows) && id in db.rows
    ensures var q' := Reaching(s, q, page, db);
            var r := PageIndex(page, id);
            && (id in PageOverlay(q', page, db.rows) <==> r.None? || r.value !in q.deletes || r.value in Unreadable(s, page, db))
            && (id in PageOverlay(q', page, db.rows) ==>
                  PageOverlay(q', page, db.rows)[id] ==
                    if r.Some? && r.value in Unreadable(s, page, db) then db.rows[id] else ShownRow(q, page, id, db.rows[id]))
  {
    PageIndexIs(page, id);
    var r := PageIndex(page, id);
    if r.Some? { MinusContent(q.deletes, Unreadable(s, page, db), r.value); }
  }

  predicate Agree(a: map<nat, Row>, b: map<nat, Row>, id: nat) {
    (id in a <==> id in b) && (id in a ==> a[id] == b[id])
  }

  lemma {:induction false} AgreeMeansEqual(a: map<nat, Row>, b: map<nat, Row>)
    ensures a == b <==> forall id: nat :: Agree(a, b, id)
  {
    if forall id: nat :: Agree(a, b, id) {
      forall id: nat ensures (id in a <==> id in b) && (id in a ==> a[id] == b[id]) { assert Agree(a, b, id); }
      SameRows(a, b);
    }
  }

  lemma {:induction false} AgreeExactly(s: Shape, q: Queue, page: seq<nat>, db: Db, rows: seq<seq<string>>, id: nat)
    requires Showing(s, q, page, db, rows)
    ensures Agree(PageOverlay(Reaching(s, q, page, db), page, db.rows), PageOverlay(q, page, db.rows), id) <==>
            (id in db.rows && PageIndex(page, id).Some? && PageIndex(page, id).value in Unreadable(s, page, db)
             ==> RowKept(q, page, db, PageIndex(page, id).value))
  {
    if id in db.rows {
      OverlayOfRow(s, q, page, db, rows, id);
      PageIndexIs(page, id);
    }
  }

  lemma {:induction false} SameRowsExactly(s: Shape, q: Queue, page: seq<nat>, db: Db, rows: seq<seq<string>>)
    requires Showing(s, q, page, db, rows)
    ensures PageOverlay(Reaching(s, q, page, db), page, db.rows) == PageOverlay(q, page, db.rows) <==> NothingLost(s, q, page, db)
  {
    var a, b := PageOverlay(Reaching(s, q, page, db), page, db.rows), PageOverlay(q, page, db.rows);
    AgreeMeansEqual(a, b);
    if NothingLost(s, q, page, db) {
      forall id: nat ensures Agree(a, b, id) { AgreeExactly(s, q, page, db, rows, id); }
    }
    if forall id: nat :: Agree(a, b, id) {
      forall r | r in Unreadable(s, page, db) ensures RowKept(q, page, db, r) {
        AgreeExactly(s, q, page, db, rows, page[r]);
        PageIndexIs(page, page[r]);
      }
    }
  }

  predicate RowKept(q: Queue, page: seq<nat>, db: Db, r: nat)
    requires r < |page| && page[r] in db.rows
  {
    r !in q.deletes && (r in q.edits ==> SetCells(SetsOf(q.edits[r]), db.rows[page[r]]) == db.rows[page[r]])
  }

  /** A committed batch leaves what the grid shows, if and only if no row with an unreadable key is
      deleted and the edits of each such row leave it as it was. */
  lemma {:induction false} ShowsWhatItCommitsExactly(s: Shape, q: Queue, page: seq<nat>, db: Db, rows: seq<seq<string>>)
    requires Showing(s, q, page, db, rows) && Exec(s, TxStatements(s.pk, q, rows, s.n), db).Some?
    ensures Exec(s, TxStatements(s.pk, q, rows, s.n), db).value == Overlay(s, q, page, db) <==> NothingLost(s, q, page, db)
  {
    CommitIsOverlay(s, q, page, db, rows);
    SameRowsExactly(s, q, page, db, rows);
    var q' := Reaching(s, q, page, db);
    var a, b := PageOverlay(q', page, db.rows), PageOverlay(q, page, db.rows);
    if Overlay(s, q', page, db) == Overlay(s, q, page, db) {
      forall id: nat ensures Agree(a, b, id) {
        if id in db.rows {
          OverlayKeepsIds(s, q', page, db, id);
          OverlayKeepsIds(s, q, page, db, id);
        }
      }
      AgreeMeansEqual(a, b);
    }
  }

  // ---- from the user's actions to the table ----

  /** What a committed session did to page row `r`. A row with an unreadable key is as it was. Any
      other row is gone if it was ever deleted; otherwise each cell holds the last text committed
      for it when that differs from what was shown, and is unchanged when it does not. */
  lemma {:induction false} CommittedSession(s: Shape, ops: seq<Op>, page: seq<nat>, db: Db, rows: seq<seq<string>>, r: nat, c: nat)
    requires Showing(s, After(rows, ops), page, db, rows) && r < |page| && c < s.n
    requires Exec(s, TxStatements(s.pk, After(rows, ops), rows, s.n), db).Some?
    ensures var out := Exec(s, TxStatements(s.pk, After(rows, ops), rows, s.n), db).value.rows;
            if r in Unreadable(s, page, db) then page[r] in out && out[page[r]] == db.rows[page[r]]
            else
              && (page[r] in out <==> !EverDeleted(ops, r))
              && (!EverDeleted(ops, r) ==>
                    var last := LastCommitted(ops, r, c);
                    && |out[page[r]]| == s.n
                    && (last.None? || last.value == rows[r][c] ==> out[page[r]][c] == db.rows[page[r]][c])
                    && (last.Some? && last.value != rows[r][c] && last.value !in {"", "\U{2205}"} ==> out[page[r]][c] == Val(last.value))
                    && (last.Some? && last.value != rows[r][c] && last.value in {"", "\U{2205}"} ==> out[page[r]][c] == Null))
  {
    var q := After(rows, ops);
    CommitIsOverlay(s, q, page, db, rows);
    OverlayKeepsIds(s, Reaching(s, q, page, db), page, db, page[r]);
    OverlayOfRow(s, q, page, db, rows, page[r]);
    PageIndexIs(page, page[r]);
    if r !in Unreadable(s, page, db) { ShownCell(s, ops, page, db, rows, r, c); }
  }

  /** Loaded again, an edited cell shows the text last committed for it, or the glyph if it was cleared. */
  lemma {:induction false} ReloadShowsSession(s: Shape, ops: seq<Op>, page: seq<nat>, db: Db, rows: seq<seq<string>>, r: nat, c: nat)
    requires Showing(s, After(rows, ops), page, db, rows) && r < |page| && c < s.n
    requires Exec(s, TxStatements(s.pk, After(rows, ops), rows, s.n), db).Some?
    requires r !in Unreadable(s, page, db) && !EverDeleted(ops, r) && LastCommitted(ops, r, c).Some?
    ensures var out := Exec(s, TxStatements(s.pk, After(rows, ops), rows, s.n), db).value.rows;
            var last := LastCommitted(ops, r, c).value;
            && page[r] in out && |ShowRow(out[page[r]])| == s.n
            && ShowRow(out[page[r]])[c] == if last == "" && rows[r][c] != "" then "\U{2205}" else last
  {
    CommittedSession(s, ops, page, db, rows, r, c);
    assert rows[r][c] == Show(db.rows[page[r]][c]);
  }

  /** The drafts become the rows after the last identity, in the order in which they were submitted:
      a cell that was filled in holds its text, any other its column's default. */
  lemma {:induction false} CommittedDrafts(s: Shape, q: Queue, page: seq<nat>, db: Db, rows: seq<seq<string>>)
    requires Showing(s, q, page, db, rows) && Exec(s, TxStatements(s.pk, q, rows, s.n), db).Some?
    ensures var out := Exec(s, TxStatements(s.pk, q, rows, s.n), db).value;
            && out.next == db.next + |q.inserts|
            && forall i | 0 <= i < |q.inserts| :: IsDraft(s, q.inserts[i], out.rows, db.next + i)
  {
    CommitIsOverlay(s, q, page, db, rows);
    OverlayDrafts(s, Reaching(s, q, page, db), page, db);
  }

  lemma {:induction false} OverlayDrafts(s: Shape, q: Queue, page: seq<nat>, db: Db)
    requires |s.defaults| == s.n
    ensures var out := Overlay(s, q, page, db);
            out.next == db.next + |q.inserts| && forall i | 0 <= i < |q.inserts| :: IsDraft(s, q.inserts[i], out.rows, db.next + i)
  {
    DraftRows(s, q.inserts, db.(rows := PageOverlay(q, page, db.rows)));
  }

  predicate IsDraft(s: Shape, d: Draft, rows: map<nat, Row>, id: nat)
    requires |s.defaults| == s.n
  {
    && id in rows && |rows[id]| == s.n
    && forall c | 0 <= c < s.n :: rows[id][c] == if c in d then Val(d[c]) else s.defaults[c]
  }

  lemma {:induction false} DraftRows(s: Shape, ds: seq<Draft>, cur: Db)
    requires |s.defaults| == s.n
    ensures var out := AddDrafts(s, ds, cur);
            && out.next == cur.next + |ds|
            && forall i | 0 <= i < |ds| :: IsDraft(s, ds[i], out.rows, cur.next + i)
    decreases ds
  {
    if ds != [] {
      var row := NewRow(s, ValsOf(ds[0]));
      var next := Db(cur.rows[cur.next := row], cur.next + 1);
      DraftRows(s, ds[1..], next);
      DraftIds(s, ds[1..], next, cur.next);
      var out := AddDrafts(s, ds, cur);
      forall i | 0 <= i < |ds| ensures IsDraft(s, ds[i], out.rows, cur.next + i) {
        if i > 0 { assert IsDraft(s, ds[1..][i - 1], out.rows, next.next + (i - 1)); }
      }
    }
  }

  lemma {:induction false} ShownCell(s: Shape, ops: seq<Op>, page: seq<nat>, db: Db, rows: seq<seq<string>>, r: nat, c: nat)
    requires Showing(s, After(rows, ops), page, db, rows) && r < |page| && c < s.n
    ensures r in After(rows, ops).deletes <==> EverDeleted(ops, r)
    ensures !EverDeleted(ops, r) ==>
              var last := LastCommitted(ops, r, c);
              var shown := ShownRow(After(rows, ops), page, page[r], db.rows[page[r]]);
              |shown| == s.n && shown[c] == if last.Some? && last.value != rows[r][c] then CellLit(last.value) else db.rows[page[r]][c]
  {
    var q := After(rows, ops);
    PageIndexIs(page, page[r]);
    QueueAfter(rows, ops);
    assert Original(rows, r, c) == rows[r][c];
    var last := LastCommitted(ops, r, c);
    if last.Some? { EffectiveEdits(rows, ops, r, c, last.value); }
    if r in q.edits && c in q.edits[r] { EffectiveEdits(rows, ops, r, c, q.edits[r][c]); }
  }

  /** Rows of the table that are not on the page are never touched. */
  lemma {:induction false} OffPageUntouched(s: Shape, q: Queue, page: seq<nat>, db: Db, rows: seq<seq<string>>, id: nat)
    requires Showing(s, q, page, db, rows) && id in db.rows && id !in page
    requires Exec(s, TxStatements(s.pk, q, rows, s.n), db).Some?
    ensures var out := Exec(s, TxStatements(s.pk, q, rows, s.n), db).value.rows; id in out && out[id] == db.rows[id]
  {
    CommitIsOverlay(s, q, page, db, rows);
    OverlayKeepsIds(s, Reaching(s, q, page, db), page, db, id);
    PageIndexIs(page, id);
  }

  // ---- an edit that is lost ----

  /** One row, its key cell storing the glyph, and one edit of its other cell. */
  function GlyphDb(x: string): Db { Db(map[0 := [Val(NULL_GLYPH), Val(x)]], 1) }

  function GlyphEdit(y: string): Queue { Queue(map[0 := map[1 := y]], [], []) }

  const TWO_COLUMNS := Shape(2, [0], [Val(""), Null])

  lemma {:induction false} GlyphShowing(x: string, y: string)
    ensures Showing(TWO_COLUMNS, GlyphEdit(y), [0], GlyphDb(x), [[NULL_GLYPH, x]])
    ensures 0 in Unreadable(TWO_COLUMNS, [0], GlyphDb(x))
  {
    var row: Row := [Val(NULL_GLYPH), Val(x)];
    assert GlyphDb(x).rows[0] == row;
    assert ShowRow(row) == [NULL_GLYPH, x];
    assert row[TWO_COLUMNS.pk[0]] == Val(NULL_GLYPH);
  }

  /** The batch commits, nothing is reported, and the table is as it was. */
  lemma {:induction false} GlyphKeyLosesEdit(x: string, y: string)
    requires y != x || y in {"", "\U{2205}"}
    ensures Showing(TWO_COLUMNS, GlyphEdit(y), [0], GlyphDb(x), [[NULL_GLYPH, x]])
    ensures Exec(TWO_COLUMNS, TxStatements([0], GlyphEdit(y), [[NULL_GLYPH, x]], 2), GlyphDb(x)) == Some(GlyphDb(x))
    ensures Overlay(TWO_COLUMNS, GlyphEdit(y), [0], GlyphDb(x)) != GlyphDb(x)
  {
    var s, q, db, rows := TWO_COLUMNS, GlyphEdit(y), GlyphDb(x), [[NULL_GLYPH, x]];
    GlyphShowing(x, y);
    GlyphReaching(x, y);
    GlyphIsLost(x, y);
    CommitsWhenKeyed(s, q, [0], db, rows);
    ShowsWhatItCommitsExactly(s, q, [0], db, rows);
  }

  lemma {:induction false} GlyphReaching(x: string, y: string)
    ensures var db := GlyphDb(x); Overlay(TWO_COLUMNS, Reaching(TWO_COLUMNS, GlyphEdit(y), [0], db), [0], db) == db
  {
    var s, q, db := TWO_COLUMNS, GlyphEdit(y), GlyphDb(x);
    GlyphShowing(x, y);
    NoEditsNoChange(s, Reaching(s, q, [0], db), [0], db);
  }

  lemma {:induction false} NoEditsNoChange(s: Shape, q: Queue, page: seq<nat>, db: Db)
    requires q.edits == map[] && q.deletes == [] && q.inserts == []
    ensures Overlay(s, q, page, db) == db
  {
    assert PageOverlay(q, page, db.rows) == db.rows;
  }

  lemma {:induction false} GlyphIsLost(x: string, y: string)
    requires CellLit(y) != Val(x)
    ensures !NothingLost(TWO_COLUMNS, GlyphEdit(y), [0], GlyphDb(x)) && NoKeyEdits(TWO_COLUMNS, GlyphEdit(y))
  {
    var q, db := GlyphEdit(y), GlyphDb(x);
    GlyphShowing(x, y);
    assert SetCells(SetsOf(q.edits[0]), db.rows[0])[1] == CellLit(y);
    assert !RowKept(q, [0], db, 0);
  }
}
