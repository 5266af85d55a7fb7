/** Applying a designer edit: the generated list handed to the engine's script runner. */
module DesignerApply {
  import opened Text
  import opened Ddl
  import opened TableModel
  import opened SchemaDiff
  import SchemaTheorem
  import Sessions

  /** Whether the engine rolls a failed DDL batch back. */
  function AtomicDDL(e: Engine): bool { !e.MySQL? }

  function Exec(e: Engine, parse: string -> seq<string>, on: string): (Table, Stmt) -> Option<Table> {
    (t: Table, s: Stmt) => if t.name != on then None else Step(e, parse, s, t)
  }

  function NeverBlank(): Stmt -> bool { (s: Stmt) => false }

  lemma {:induction false} ScriptIsRun(e: Engine, parse: string -> seq<string>, on: string, script: seq<Stmt>, t: Table)
    ensures Sessions.RunAll(t, script, NeverBlank(), Exec(e, parse, on)) == Run(e, parse, on, script, t)
    decreases |script|
  {
    if script != [] && t.name == on && Step(e, parse, script[0], t).Some? {
      ScriptIsRun(e, parse, on, script[1..], Step(e, parse, script[0], t).value);
    }
  }

  /** A safe edit, once committed, leaves the table the designer shows; with transactional DDL an
      edit that fails anywhere leaves the table as it was. */
  method ApplyModify(conn: Sessions.SqlConn, e: Engine, parse: string -> seq<string>, m: Model, db: Table, begun: bool, luck: Sessions.Luck, committed: bool)
    returns (after: Table, ok: bool)
    requires e != SQLite && LegalTable(e, db) && Tracks(parse, m, db) && WellFormedEdit(e, parse, m)
    ensures Safe(e, parse, m, db) && begun && (e.Postgres? ==> luck.mode && luck.timeout) && committed ==> ok
    ensures ok ==> (Shows(e, parse, m, after) <==> Safe(e, parse, m, db))
    ensures !ok && e == Postgres ==> after == db
  {
    var script := GenerateModify(m, e);
    var modes;
    after, ok, modes := conn.ExecScript(db, script, NeverBlank(), Exec(e, parse, m.origName), e.Postgres?, AtomicDDL(e), begun, luck, committed);
    ScriptIsRun(e, parse, m.origName, script, db);
    SchemaTheorem.ModifyReachesShownTable(e, parse, m, db);
  }
}
