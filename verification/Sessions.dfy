/** Session state on pooled connections: which mode a statement starts in, and what a script leaves. */
module Sessions {
  import opened Text

  // ---- the server's side of a Postgres connection ----

  datatype SearchPath = Default | Scoped(schema: string)

  /** The session's search_path and default_transaction_read_only, and whether its
      statement_timeout is the tool's. */
  datatype Session = Session(path: SearchPath, readOnly: bool, timed: bool)

  /** The session settings, as SET commands. */
  datatype Command = SetTimeout(tool: bool) | SetPath(path: SearchPath) | SetReadOnly(on: bool)

  function Serve(s: Session, c: Command): Session {
    match c
    case SetTimeout(tool) => s.(timed := tool)
    case SetPath(path) => s.(path := path)
    case SetReadOnly(on) => s.(readOnly := on)
  }

  /** One statement of a text: a setting, a COMMIT, or work on the data. */
  datatype Piece<W> = Setting(command: Command) | Commit | Work(work: W)

  /** A session together with the data, and whether a text ran to its end. */
  datatype Point<DB> = Point(session: Session, db: DB)
  datatype Done<DB> = Done(at: Point<DB>, ok: bool)

  /** The rest of a text, in a transaction whose mode `ro` is the one its session had when it began.
      `does` is what work does under a search path (None if it fails by itself). Work that would
      change the data in a read-only transaction is refused; a failure undoes what is not committed. */
  function RunFrom<DB(==), W>(does: (DB, SearchPath, W) -> Option<DB>, p: Point<DB>, ro: bool, saved: Point<DB>, text: seq<Piece<W>>): Done<DB>
    decreases |text|
  {
    if text == [] then Done(p, true)
    else
      match text[0]
      case Setting(c) => RunFrom(does, p.(session := Serve(p.session, c)), ro, saved, text[1..])
      case Commit => RunFrom(does, p, p.session.readOnly, p, text[1..])
      case Work(work) =>
        var next := does(p.db, p.session.path, work);
        if next.None? || (ro && next.value != p.db) then Done(saved, false)
        else RunFrom(does, p.(db := next.value), ro, saved, text[1..])
  }

  function RunText<DB(==), W>(does: (DB, SearchPath, W) -> Option<DB>, p: Point<DB>, text: seq<Piece<W>>): Done<DB> {
    RunFrom(does, p, p.session.readOnly, p, text)
  }

  // ---- one call on one connection, in whatever state earlier calls left it ----

  /** Which commands of a call the server accepts. */
  datatype Luck = Luck(timeout: bool, path: bool, mode: bool)

  /** A connection of a pool. `Query` is Postgres's; `ExecScript` is every engine's, of which Postgres
      alone sends commands of its own first. */
  class SqlConn {
    var session: Session

    constructor (session: Session)
      ensures this.session == session
    {
      this.session := session;
    }

    method Send(c: Command, accepted: bool) returns (ok: bool)
      modifies this
      ensures ok == accepted && session == if accepted then Serve(old(session), c) else old(session)
    {
      ok := accepted;
      if accepted { session := Serve(session, c); }
    }

    /** `started` is the session in which the text started, if it did. A text of several statements is
        refused at parse time by the first protocol tried; it then starts in the same session through
        the second one, unless the call is read-only. */
    method Query<DB(==), W>(does: (DB, SearchPath, W) -> Option<DB>, db: DB, text: seq<Piece<W>>, readOnly: bool, schema: string, luck: Luck)
      returns (started: Option<Session>, after: DB, ok: bool)
      modifies this
      ensures started.Some? <==> luck.timeout && luck.path && luck.mode && !(|text| > 1 && readOnly)
      ensures started.Some? ==>
                && started.value.readOnly == readOnly && started.value.timed
                && started.value.path == (if schema == "" then Default else Scoped(schema))
                && Done(Point(session, after), ok) == RunText(does, Point(started.value, db), text)
      ensures started.None? ==>
                && !ok && after == db
                && session.timed == (luck.timeout || old(session.timed))
                && session.path == (if !luck.timeout || !luck.path then old(session.path) else if schema == "" then Default else Scoped(schema))
                && session.readOnly == if luck.timeout && luck.path && luck.mode then readOnly else old(session.readOnly)
    {
      after, ok := db, false;
      var sent := Send(SetTimeout(true), luck.timeout);
      if !sent { return None, after, ok; }
      if schema != "" {
        sent := Send(SetPath(Scoped(schema)), luck.path);
        if !sent { return None, after, ok; }
      } else {
        sent := Send(SetPath(Default), luck.path);
        if !sent { return None, after, ok; }
      }
      if readOnly {
        sent := Send(SetReadOnly(true), luck.mode);
        if !sent { return None, after, ok; }
      } else {
        sent := Send(SetReadOnly(false), luck.mode);
        if !sent { return None, after, ok; }
      }
      if |text| > 1 && readOnly { return None, after, ok; }
      started := Some(session);
      var r := RunText(does, Point(session, db), text);
      session, after, ok := r.at.session, r.at.db, r.ok;
    }

    /** The statements of a script, as one transaction. `modes` records, for each statement that
        started, whether its transaction was read-only. On an error an engine with transactional
        DDL rolls everything back; another keeps what ran. */
    method ExecScript<DB, S>(db: DB, stmts: seq<S>, blank: S -> bool, exec: (DB, S) -> Option<DB>, setsUp: bool, atomic: bool, begun: bool, luck: Luck, committed: bool)
      returns (after: DB, ok: bool, modes: seq<bool>)
      ensures setsUp ==> true !in modes
      ensures !setsUp ==> !session.readOnly !in modes
      ensures ok <==> begun && (setsUp ==> luck.mode && luck.timeout) && RunAll(db, stmts, blank, exec).Some? && committed
      ensures ok ==> after == RunAll(db, stmts, blank, exec).value && |modes| == Started(stmts, blank)
      ensures !ok && atomic ==> after == db
      ensures !ok && !atomic ==>
                after == if begun && (setsUp ==> luck.mode && luck.timeout) then Reached(db, stmts, blank, exec) else db
    {
      after, modes := db, [];
      if !begun { return db, false, modes; }
      var txReadOnly := session.readOnly;
      if setsUp {
        if !luck.mode { return db, false, modes; }
        txReadOnly := false;
        if !luck.timeout { return db, false, modes; }
      }
      for i := 0 to |stmts|
        invariant RunAll(db, stmts, blank, exec) == RunAll(after, stmts[i..], blank, exec)
        invariant Reached(db, stmts, blank, exec) == Reached(after, stmts[i..], blank, exec)
        invariant txReadOnly == (if setsUp then false else session.readOnly) && !txReadOnly !in modes
        invariant Started(stmts, blank) == |modes| + Started(stmts[i..], blank)
      {
        assert stmts[i..][1..] == stmts[i + 1..];
        if blank(stmts[i]) { continue; }
        modes := modes + [txReadOnly];
        var next := exec(after, stmts[i]);
        if next.None? {
          return if atomic then db else after, false, modes;
        }
        after := next.value;
      }
      if !committed { return if atomic then db else after, false, modes; }
      return after, true, modes;
    }
  }

  /** All statements in order, blank ones skipped; none if one fails. */
  function RunAll<DB, S>(db: DB, stmts: seq<S>, blank: S -> bool, exec: (DB, S) -> Option<DB>): Option<DB>
    decreases |stmts|
  {
    if stmts == [] then Some(db)
    else if blank(stmts[0]) then RunAll(db, stmts[1..], blank, exec)
    else
      var next :- exec(db, stmts[0]);
      RunAll(next, stmts[1..], blank, exec)
  }

  /** Where execution stands at the end or at the first failure. */
  function Reached<DB, S>(db: DB, stmts: seq<S>, blank: S -> bool, exec: (DB, S) -> Option<DB>): DB
    decreases |stmts|
  {
    if stmts == [] then db
    else if blank(stmts[0]) then Reached(db, stmts[1..], blank, exec)
    else if exec(db, stmts[0]).None? then db
    else Reached(exec(db, stmts[0]).value, stmts[1..], blank, exec)
  }

  function Started<S>(stmts: seq<S>, blank: S -> bool): nat {
    if stmts == [] then 0 else (if blank(stmts[0]) then 0 else 1) + Started(stmts[1..], blank)
  }

  /** A blank statement, wherever it stands, changes nothing. */
  lemma {:induction false} BlanksAreSkipped<DB, S>(db: DB, a: seq<S>, s: S, b: seq<S>, blank: S -> bool, exec: (DB, S) -> Option<DB>)
    requires blank(s)
    ensures RunAll(db, a + [s] + b, blank, exec) == RunAll(db, a + b, blank, exec)
    ensures Reached(db, a + [s] + b, blank, exec) == Reached(db, a + b, blank, exec)
    ensures Started(a + [s] + b, blank) == Started(a + b, blank)
    decreases |a|
  {
    if a == [] {
      assert ([s] + b)[0] == s && ([s] + b)[1..] == b && a + [s] + b == [s] + b && a + b == b;
    } else {
      assert (a + [s] + b)[1..] == a[1..] + [s] + b && (a + b)[1..] == a[1..] + b;
      BlanksAreSkipped(db, a[1..], s, b, blank, exec);
      if !blank(a[0]) && exec(db, a[0]).Some? { BlanksAreSkipped(exec(db, a[0]).value, a[1..], s, b, blank, exec); }
    }
  }

  /** `k` statements, none of them blank, ran one after the other and led from `db` to `end`. */
  ghost predicate Chain<DB, S>(db: DB, stmts: seq<S>, exec: (DB, S) -> Option<DB>, k: nat, end: DB)
    decreases k
  {
    k <= |stmts| &&
    if k == 0 then db == end else exec(db, stmts[0]).Some? && Chain(exec(db, stmts[0]).value, stmts[1..], exec, k - 1, end)
  }

  /** A script without blanks stands where the statements before the first failure lead, and has run
      exactly when there is none. */
  lemma {:induction false} ScriptRunsInOrder<DB, S>(db: DB, stmts: seq<S>, blank: S -> bool, exec: (DB, S) -> Option<DB>)
    requires forall i | 0 <= i < |stmts| :: !blank(stmts[i])
    ensures exists k: nat ::
              && Chain(db, stmts, exec, k, Reached(db, stmts, blank, exec))
              && (k < |stmts| ==> exec(Reached(db, stmts, blank, exec), stmts[k]).None? && RunAll(db, stmts, blank, exec).None?)
              && (k == |stmts| ==> RunAll(db, stmts, blank, exec) == Some(Reached(db, stmts, blank, exec)))
    ensures Started(stmts, blank) == |stmts|
    decreases |stmts|
  {
    var end := Reached(db, stmts, blank, exec);
    if stmts == [] {
      assert Chain(db, stmts, exec, 0, end);
    } else {
      assert forall i | 0 <= i < |stmts[1..]| :: stmts[1..][i] == stmts[i + 1];
      ScriptRunsInOrder(db, stmts[1..], blank, exec);
      if exec(db, stmts[0]).None? {
        assert Chain(db, stmts, exec, 0, end);
      } else {
        var next := exec(db, stmts[0]).value;
        ScriptRunsInOrder(next, stmts[1..], blank, exec);
        var k: nat :|
          && Chain(next, stmts[1..], exec, k, end)
          && (k < |stmts[1..]| ==> exec(end, stmts[1..][k]).None? && RunAll(next, stmts[1..], blank, exec).None?)
          && (k == |stmts[1..]| ==> RunAll(next, stmts[1..], blank, exec) == Some(end));
        assert Chain(db, stmts, exec, k + 1, end);
      }
    }
  }

  // ---- SQLite: query_only on a pool of connections, every interleaving ----

  datatype Stage = Taken | Guarded | Ran | Cleaned

  /** Idle in the pool, or held by one call. */
  datatype Use = Idle | Held(readOnly: bool, stage: Stage)

  datatype Conn = Conn(queryOnly: bool, use: Use)

  type Pool = map<nat, Conn>

  datatype Step =
    | Take(c: nat, readOnly: bool)
    | Guard(c: nat, ok: bool, applied: bool) // PRAGMA query_only=ON; it may apply and still report an error
    | Start(c: nat)                          // the caller's statement
    | Reset(c: nat, ok: bool)                // PRAGMA query_only=OFF
    | Release(c: nat)

  predicate Enabled(p: Pool, st: Step) {
    && st.c in p
    && var u := p[st.c].use;
       match st
       case Take(_, _) => u.Idle?
       case Guard(_, _, _) => u == Held(true, Taken)
       case Start(_) => u == Held(true, Guarded) || u == Held(false, Taken)
       case Reset(_, _) => u == Held(true, Ran)
       case Release(_) => u == Held(true, Cleaned) || u == Held(false, Ran)
  }

  function Next(p: Pool, st: Step): Pool
    requires Enabled(p, st)
  {
    var x := p[st.c];
    p[st.c := match st
              case Take(_, ro) => Conn(x.queryOnly, Held(ro, Taken))
              case Guard(_, ok, applied) => Conn(ok || applied || x.queryOnly, Held(true, if ok then Guarded else Ran))
              case Start(_) => Conn(x.queryOnly, Held(x.use.readOnly, Ran))
              case Reset(_, ok) => Conn(!ok && x.queryOnly, Held(true, Cleaned))
              case Release(_) => Conn(x.queryOnly, Idle)]
  }

  ghost predicate Possible(p: Pool, steps: seq<Step>)
    decreases |steps|
  {
    steps == [] || (Enabled(p, steps[0]) && Possible(Next(p, steps[0]), steps[1..]))
  }

  ghost function After(p: Pool, steps: seq<Step>): Pool
    requires Possible(p, steps)
    decreases |steps|
  {
    if steps == [] then p else After(Next(p, steps[0]), steps[1..])
  }

  /** On while a guarded call runs; off in the pool, in a write call, and after the reset. */
  predicate ConnOk(x: Conn) {
    match x.use
    case Idle => !x.queryOnly
    case Held(ro, stage) =>
      if !ro then !x.queryOnly
      else if stage == Guarded then x.queryOnly
      else if stage == Ran then true
      else !x.queryOnly
  }

  ghost predicate PoolOk(p: Pool) { forall c | c in p :: ConnOk(p[c]) }

  /** Exactly one step can leave a connection in the wrong mode: a reset that fails while the flag
      is on. */
  lemma {:induction false} OnlyAFailedResetSticks(p: Pool, st: Step)
    requires PoolOk(p) && Enabled(p, st)
    ensures PoolOk(Next(p, st)) <==> !(st.Reset? && !st.ok && p[st.c].queryOnly)
  {
    var q := Next(p, st);
    assert q[st.c] == Next(p, st)[st.c];
    if st.Reset? && !st.ok && p[st.c].queryOnly {
      assert !ConnOk(q[st.c]);
    } else {
      forall c | c in q ensures ConnOk(q[c]) { assert c in p && ConnOk(p[c]); }
    }
  }

  ghost predicate ResetsSucceed(steps: seq<Step>) {
    forall i | 0 <= i < |steps| :: steps[i].Reset? ==> steps[i].ok
  }

  lemma {:induction false} RunKeepsPoolOk(p: Pool, steps: seq<Step>)
    requires PoolOk(p) && Possible(p, steps) && ResetsSucceed(steps)
    ensures PoolOk(After(p, steps))
    decreases |steps|
  {
    if steps != [] {
      OnlyAFailedResetSticks(p, steps[0]);
      forall i | 0 <= i < |steps| - 1 ensures steps[1..][i].Reset? ==> steps[1..][i].ok {
        assert steps[1..][i] == steps[i + 1];
      }
      RunKeepsPoolOk(Next(p, steps[0]), steps[1..]);
    }
  }

  ghost predicate AllIdle(p: Pool) { forall c | c in p :: p[c] == Conn(false, Idle) }

  /** After any interleaving of calls, failed ones included, idle connections have query_only off,
      and a statement that starts next starts in the mode its call asked for. */
  lemma {:induction false} StatementsStartInTheirMode(p: Pool, steps: seq<Step>, c: nat)
    requires AllIdle(p) && Possible(p, steps) && ResetsSucceed(steps) && c in After(p, steps)
    ensures var x := After(p, steps)[c];
            && (x.use.Idle? ==> !x.queryOnly)
            && (Enabled(After(p, steps), Start(c)) ==> x.queryOnly == x.use.readOnly)
  {
    RunKeepsPoolOk(p, steps);
    assert ConnOk(After(p, steps)[c]);
  }

  /** A reset that fails is not noticed: the next write on that connection starts read-only. */
  lemma {:induction false} FailedResetBlocksWrites(c: nat)
    ensures var p: Pool := map[c := Conn(false, Idle)];
            var steps := [Take(c, true), Guard(c, true, true), Start(c), Reset(c, false), Release(c), Take(c, false)];
            Possible(p, steps) && Enabled(After(p, steps), Start(c)) && After(p, steps)[c].queryOnly
  {
    var p0: Pool := map[c := Conn(false, Idle)];
    var p1 := Next(p0, Take(c, true));
    var p2 := Next(p1, Guard(c, true, true));
    var p3 := Next(p2, Start(c));
    var p4 := Next(p3, Reset(c, false));
    var p5 := Next(p4, Release(c));
    var p6 := Next(p5, Take(c, false));
    ThenStep(p6, [], p5, Take(c, false));
    ThenStep(p5, [Take(c, false)], p4, Release(c));
    ThenStep(p4, [Release(c), Take(c, false)], p3, Reset(c, false));
    ThenStep(p3, [Reset(c, false), Release(c), Take(c, false)], p2, Start(c));
    ThenStep(p2, [Start(c), Reset(c, false), Release(c), Take(c, false)], p1, Guard(c, true, true));
    ThenStep(p1, [Guard(c, true, true), Start(c), Reset(c, false), Release(c), Take(c, false)], p0, Take(c, true));
  }

  lemma {:induction false} ThenStep(mid: Pool, rest: seq<Step>, p: Pool, st: Step)
    requires Enabled(p, st) && Next(p, st) == mid && Possible(mid, rest)
    ensures Possible(p, [st] + rest) && After(p, [st] + rest) == After(mid, rest)
  {
    assert ([st] + rest)[0] == st && ([st] + rest)[1..] == rest;
  }
}
