/** Any history of Postgres calls on a pool of connections, against calls that know nothing of each other. */
module SessionHistory {
  import opened Text
  import opened Sessions

  /** One call: the connection it is given, what it asks for, and what the server accepts. */
  datatype Call<W> = Call(conn: nat, readOnly: bool, schema: string, text: seq<Piece<W>>, luck: Luck)

  datatype World<DB> = World(db: DB, sessions: map<nat, Session>)

  function PathFor(schema: string): SearchPath { if schema == "" then Default else Scoped(schema) }

  /** `p` before and `r` after a call: what `SqlConn.Query` promises of it. */
  ghost predicate Answers<DB, W>(does: (DB, SearchPath, W) -> Option<DB>, c: Call<W>, p: Point<DB>, r: Done<DB>) {
    var l := c.luck;
    if l.timeout && l.path && l.mode && !(|c.text| > 1 && c.readOnly) then
      r == RunText(does, Point(Session(PathFor(c.schema), c.readOnly, true), p.db), c.text)
    else
      && !r.ok && r.at.db == p.db
      && r.at.session.timed == (l.timeout || p.session.timed)
      && r.at.session.path == (if l.timeout && l.path then PathFor(c.schema) else p.session.path)
      && r.at.session.readOnly == if l.timeout && l.path && l.mode then c.readOnly else p.session.readOnly
  }

  /** A call on its connection of the pool. */
  method CallOn<DB(==), W>(does: (DB, SearchPath, W) -> Option<DB>, w: World<DB>, c: Call<W>) returns (w': World<DB>, ok: bool)
    requires c.conn in w.sessions
    ensures w'.sessions.Keys == w.sessions.Keys
    ensures Answers(does, c, Point(w.sessions[c.conn], w.db), Done(Point(w'.sessions[c.conn], w'.db), ok))
    ensures forall n | n in w.sessions && n != c.conn :: w'.sessions[n] == w.sessions[n]
  {
    var conn := new SqlConn(w.sessions[c.conn]);
    var started, after;
    started, after, ok := conn.Query(does, w.db, c.text, c.readOnly, c.schema, c.luck);
    w' := World(after, w.sessions[c.conn := conn.session]);
  }

  ghost predicate Becomes<DB, W>(does: (DB, SearchPath, W) -> Option<DB>, w: World<DB>, c: Call<W>, w': World<DB>) {
    && c.conn in w.sessions && w'.sessions.Keys == w.sessions.Keys
    && (exists ok :: Answers(does, c, Point(w.sessions[c.conn], w.db), Done(Point(w'.sessions[c.conn], w'.db), ok)))
    && (forall n | n in w.sessions && n != c.conn :: w'.sessions[n] == w.sessions[n])
  }

  /** `ws` are the worlds between the calls of a history. */
  ghost predicate History<DB, W>(does: (DB, SearchPath, W) -> Option<DB>, ws: seq<World<DB>>, calls: seq<Call<W>>) {
    |ws| == |calls| + 1 && forall i | 0 <= i < |calls| :: Becomes(does, ws[i], calls[i], ws[i + 1])
  }

  // ---- a read-only call changes nothing ----

  lemma {:induction false} OneKeepsData<DB, W>(does: (DB, SearchPath, W) -> Option<DB>, p: Point<DB>, piece: Piece<W>)
    requires p.session.readOnly
    ensures RunText(does, p, [piece]).at.db == p.db
  {
    assert [piece][1..] == [];
    match piece
    case Setting(c) => assert RunText(does, p, [piece]) == RunFrom(does, p.(session := Serve(p.session, c)), true, p, []);
    case Commit => assert RunText(does, p, [piece]) == RunFrom(does, p, true, p, []);
    case Work(work) =>
      if does(p.db, p.session.path, work) == Some(p.db) { assert RunText(does, p, [piece]) == RunFrom(does, p, true, p, []); }
  }

  /** Whatever the connection was left in: the data stay as they are, and work that would change
      them is refused. */
  lemma {:induction false} ReadOnlyCallKeepsData<DB, W>(does: (DB, SearchPath, W) -> Option<DB>, c: Call<W>, p: Point<DB>, r: Done<DB>)
    requires c.readOnly && Answers(does, c, p, r)
    ensures r.at.db == p.db
    ensures forall work :: c.text == [Work(work)] && does(p.db, PathFor(c.schema), work) != Some(p.db) ==> !r.ok
  {
    if |c.text| == 1 {
      assert c.text == [c.text[0]];
      OneKeepsData(does, Point(Session(PathFor(c.schema), true, true), p.db), c.text[0]);
    }
  }

  /** Why a text of several statements is refused there: it could turn its session read-write. */
  lemma {:induction false} SeveralStatementsWouldWrite<DB, W>(does: (DB, SearchPath, W) -> Option<DB>, p: Point<DB>, work: W)
    requires does(p.db, p.session.path, work).Some?
    ensures var text := [Setting(SetReadOnly(false)), Commit, Work(work)];
            var r := RunText(does, p, text);
            r.ok && Some(r.at.db) == does(p.db, p.session.path, work)
  {
    var text := [Setting(SetReadOnly(false)), Commit, Work(work)];
    var q := p.(session := p.session.(readOnly := false));
    assert text[1..] == [Commit, Work(work)] && text[1..][1..] == [Work(work)] && text[1..][1..][1..] == [];
    var end := q.(db := does(p.db, p.session.path, work).value);
    assert RunFrom(does, end, false, q, []) == Done(end, true);
    assert RunFrom(does, q, false, q, [Work(work)]) == Done(end, true);
    assert RunFrom(does, q, p.session.readOnly, p, [Commit, Work(work)]) == Done(end, true);
  }

  /** Why the mode is set by every call: a session left read-only refuses the next write. */
  lemma {:induction false} LeftReadOnlyRefuses<DB, W>(does: (DB, SearchPath, W) -> Option<DB>, p: Point<DB>, work: W)
    requires p.session.readOnly && does(p.db, p.session.path, work) != Some(p.db)
    ensures RunText(does, p, [Work(work)]) == Done(p, false)
  {
  }

  // ---- a write call writes ----

  /** The work of a text under one search path, all of it or none. */
  function DoAll<DB, W>(does: (DB, SearchPath, W) -> Option<DB>, path: SearchPath, db: DB, text: seq<Piece<W>>): Option<DB>
    requires forall i | 0 <= i < |text| :: text[i].Work?
    decreases |text|
  {
    if text == [] then Some(db)
    else
      var next :- does(db, path, text[0].work);
      DoAll(does, path, next, text[1..])
  }

  lemma {:induction false} WorkRuns<DB, W>(does: (DB, SearchPath, W) -> Option<DB>, p: Point<DB>, saved: Point<DB>, text: seq<Piece<W>>)
    requires forall i | 0 <= i < |text| :: text[i].Work?
    ensures var all := DoAll(does, p.session.path, p.db, text);
            RunFrom(does, p, false, saved, text) == if all.Some? then Done(p.(db := all.value), true) else Done(saved, false)
    decreases |text|
  {
    if text != [] && does(p.db, p.session.path, text[0].work).Some? {
      WorkRuns(does, p.(db := does(p.db, p.session.path, text[0].work).value), saved, text[1..]);
    }
  }

  /** Whatever mode and schema earlier calls left behind, an accepted write call runs all of its
      statements in its own schema, unless one fails by itself, and then none has an effect. */
  lemma {:induction false} WriteCallWrites<DB, W>(does: (DB, SearchPath, W) -> Option<DB>, c: Call<W>, p: Point<DB>, r: Done<DB>)
    requires !c.readOnly && Answers(does, c, p, r) && c.luck == Luck(true, true, true)
    requires forall i | 0 <= i < |c.text| :: c.text[i].Work?
    ensures var all := DoAll(does, PathFor(c.schema), p.db, c.text);
            r.ok == all.Some? && r.at.db == if all.Some? then all.value else p.db
  {
    var start := Point(Session(PathFor(c.schema), false, true), p.db);
    WorkRuns(does, start, start, c.text);
  }

  // ---- whole histories ----

  /** The data after calls that each get a connection nobody used before, the read-only ones left out. */
  function Fresh<DB(==), W>(does: (DB, SearchPath, W) -> Option<DB>, db: DB, calls: seq<Call<W>>): DB
    decreases |calls|
  {
    if calls == [] then db
    else
      var c := calls[0];
      Fresh(does,
        if c.readOnly || c.luck != Luck(true, true, true) then db
        else RunText(does, Point(Session(PathFor(c.schema), false, true), db), c.text).at.db,
        calls[1..])
  }

  /** Over any history, on any connections in any state, the data are what the write calls alone
      would have made of them on connections of their own: no setting one call leaves behind is seen
      by another, and no read-only call leaves a trace. */
  lemma {:induction false} PooledRefinesFresh<DB, W>(does: (DB, SearchPath, W) -> Option<DB>, ws: seq<World<DB>>, calls: seq<Call<W>>)
    requires History(does, ws, calls)
    ensures ws[|calls|].db == Fresh(does, ws[0].db, calls)
    decreases |calls|
  {
    if calls != [] {
      var c := calls[0];
      assert Becomes(does, ws[0], c, ws[1]);
      var p := Point(ws[0].sessions[c.conn], ws[0].db);
      var ok :| Answers(does, c, p, Done(Point(ws[1].sessions[c.conn], ws[1].db), ok));
      if c.readOnly { ReadOnlyCallKeepsData(does, c, p, Done(Point(ws[1].sessions[c.conn], ws[1].db), ok)); }
      forall i | 0 <= i < |calls| - 1 ensures Becomes(does, ws[1..][i], calls[1..][i], ws[1..][i + 1]) {
        assert Becomes(does, ws[i + 1], calls[i + 1], ws[i + 2]);
      }
      PooledRefinesFresh(does, ws[1..], calls[1..]);
    }
  }
}
