/** The text of the grid's statements, and a parser that reads it back. */
module GridText {
  import opened Text
  import opened Ddl
  import opened Scanning
  import opened Quoting
  import GridQueue
  import G = GridCommit

  datatype Assign = Assign(col: string, val: G.Cell)
  datatype Test = TestNull(col: string) | TestEqual(col: string, text: string)

  /** A statement by column names. An INSERT without columns takes every default. */
  datatype Sql = Update(sets: seq<Assign>, where: seq<Test>) | Delete(where: seq<Test>) | Insert(cols: seq<string>, vals: seq<string>)

  datatype Request = Request(schema: string, table: string, sql: Sql)

  // ---- printing ----

  function ShowIdent(e: Engine): string -> string { (s: string) => QuoteIdent(e, s) }

  function ShowLiteral(e: Engine): string -> string { (s: string) => QuoteLiteral(e, s) }

  function PrintCell(e: Engine, c: G.Cell): string {
    if c.Null? then "NULL" else QuoteLiteral(e, c.text)
  }

  function ShowAssign(e: Engine): Assign -> string {
    (a: Assign) => QuoteIdent(e, a.col) + (" = " + PrintCell(e, a.val))
  }

  function ShowTest(e: Engine): Test -> string {
    (t: Test) => QuoteIdent(e, t.col) + if t.TestNull? then " IS NULL" else " = " + QuoteLiteral(e, t.text)
  }

  function PrintWhere(e: Engine, where: seq<Test>): string {
    "\nWHERE " + (PrintList(ShowTest(e), "\n  AND ", where) + ";")
  }

  function AllDefaults(e: Engine): string {
    if e.MySQL? then " () VALUES ();" else " DEFAULT VALUES;"
  }

  function PrintBody(e: Engine, sql: Sql): string {
    match sql
    case Update(sets, where) => "\nSET " + (PrintList(ShowAssign(e), ", ", sets) + PrintWhere(e, where))
    case Delete(where) => PrintWhere(e, where)
    case Insert(cols, vals) =>
      if cols == [] then AllDefaults(e)
      else " (" + (PrintList(ShowIdent(e), ", ", cols) + (") VALUES (" + (PrintList(ShowLiteral(e), ", ", vals) + ");")))
  }

  function Verb(sql: Sql): string {
    match sql
    case Update(_, _) => "UPDATE "
    case Delete(_) => "DELETE FROM "
    case Insert(_, _) => "INSERT INTO "
  }

  function Print(e: Engine, r: Request): string {
    Verb(r.sql) + (QuoteIdent(e, r.schema) + "." + QuoteIdent(e, r.table) + PrintBody(e, r.sql))
  }

  // ---- parsing ----

  function IdentItem(e: Engine): string -> Option<Parsed<string>> { (s: string) => ScanIdent(e, s) }

  function LiteralItem(e: Engine): string -> Option<Parsed<string>> { (s: string) => ScanLiteral(e, s) }

  function ScanCell(e: Engine, s: string): Option<Parsed<G.Cell>> {
    match Expect(s, "NULL")
    case Some(rest) => Some(Parsed(G.Null, rest))
    case None =>
      var x :- ScanLiteral(e, s);
      Some(Parsed(G.Val(x.value), x.rest))
  }

  function AssignItem(e: Engine): string -> Option<Parsed<Assign>> {
    (s: string) =>
      var x :- ScanIdent(e, s);
      var r :- Expect(x.rest, " = ");
      var c :- ScanCell(e, r);
      Some(Parsed(Assign(x.value, c.value), c.rest))
  }

  function TestItem(e: Engine): string -> Option<Parsed<Test>> {
    (s: string) =>
      var x :- ScanIdent(e, s);
      match Expect(x.rest, " IS NULL")
      case Some(rest) => Some(Parsed(TestNull(x.value), rest))
      case None =>
        var r :- Expect(x.rest, " = ");
        var y :- ScanLiteral(e, r);
        Some(Parsed(TestEqual(x.value, y.value), y.rest))
  }

  function ScanWhere(e: Engine, s: string): Option<seq<Test>> {
    var r :- Expect(s, "\nWHERE ");
    var ts :- ScanList(TestItem(e), "\n  AND ", r);
    if ts.rest == ";" then Some(ts.value) else None
  }

  function ScanUpdate(e: Engine, s: string): Option<Sql> {
    var r :- Expect(s, "\nSET ");
    var sets :- ScanList(AssignItem(e), ", ", r);
    var where :- ScanWhere(e, sets.rest);
    Some(Update(sets.value, where))
  }

  function ScanInsert(e: Engine, s: string): Option<Sql> {
    if s == (match e case MySQL => " () VALUES ();" case Postgres => " DEFAULT VALUES;" case SQLite => " DEFAULT VALUES;") then Some(Insert([], []))
    else
      var r :- Expect(s, " (");
      var cols :- ScanList(IdentItem(e), ", ", r);
      var r' :- Expect(cols.rest, ") VALUES (");
      var vals :- ScanList(LiteralItem(e), ", ", r');
      if vals.rest == ");" then Some(Insert(cols.value, vals.value)) else None
  }

  function ScanTarget(e: Engine, s: string): Option<Parsed<Name>> {
    var n :- ScanName(e, s);
    if n.value.schema.None? then None else Some(n)
  }

  function Parse(e: Engine, s: string): Option<Request> {
    if Expect(s, "UPDATE ").Some? then
      var n :- ScanTarget(e, Expect(s, "UPDATE ").value);
      var sql :- ScanUpdate(e, n.rest);
      Some(Request(n.value.schema.Extract(), n.value.table, sql))
    else if Expect(s, "DELETE FROM ").Some? then
      var n :- ScanTarget(e, Expect(s, "DELETE FROM ").value);
      var where :- ScanWhere(e, n.rest);
      Some(Request(n.value.schema.Extract(), n.value.table, Delete(where)))
    else
      var r :- Expect(s, "INSERT INTO ");
      var n :- ScanTarget(e, r);
      var sql :- ScanInsert(e, n.rest);
      Some(Request(n.value.schema.Extract(), n.value.table, sql))
  }

  // ---- parsing undoes printing ----

  /** No quoted token continues into `rest`. */
  predicate Plain(rest: string) {
    Ends('"', rest) && Ends('`', rest) && Ends('\'', rest)
  }

  lemma {:induction false} PlainSeparator(sep: string)
    requires sep != "" && Plain(sep)
    ensures forall more :: Plain(sep + more)
  {
    forall more ensures Plain(sep + more) {
      assert (sep + more)[0] == sep[0];
    }
  }

  lemma {:induction false} IdentUndoes(e: Engine, xs: seq<string>)
    ensures Undoes(IdentItem(e), ShowIdent(e), Plain, xs)
  {
    forall i, rest | 0 <= i < |xs| && Plain(rest) ensures IdentItem(e)(ShowIdent(e)(xs[i]) + rest) == Some(Parsed(xs[i], rest)) {
      IdentRoundTrip(e, xs[i], rest);
    }
  }

  lemma {:induction false} LiteralUndoes(e: Engine, xs: seq<string>)
    ensures Undoes(LiteralItem(e), ShowLiteral(e), Plain, xs)
  {
    forall i, rest | 0 <= i < |xs| && Plain(rest) ensures LiteralItem(e)(ShowLiteral(e)(xs[i]) + rest) == Some(Parsed(xs[i], rest)) {
      LiteralRoundTrip(e, xs[i], rest);
    }
  }

  lemma {:induction false} CellRoundTrip(e: Engine, c: G.Cell, rest: string)
    requires Plain(rest)
    ensures ScanCell(e, PrintCell(e, c) + rest) == Some(Parsed(c, rest))
  {
    if c.Null? {
      ExpectCat("NULL", rest);
    } else {
      LiteralRoundTrip(e, c.text, rest);
      ExpectDiffers(QuoteLiteral(e, c.text) + rest, "NULL", 0);
    }
  }

  lemma {:induction false} AssignRoundTrip(e: Engine, a: Assign, rest: string)
    requires Plain(rest)
    ensures AssignItem(e)(ShowAssign(e)(a) + rest) == Some(Parsed(a, rest))
  {
    var val := PrintCell(e, a.val);
    var tail := " = " + (val + rest);
    Cat(QuoteIdent(e, a.col), " = " + val, rest);
    Cat(" = ", val, rest);
    assert tail[0] == ' ';
    IdentRoundTrip(e, a.col, tail);
    ExpectCat(" = ", val + rest);
    CellRoundTrip(e, a.val, rest);
  }

  lemma {:induction false} AssignUndoes(e: Engine, xs: seq<Assign>)
    ensures Undoes(AssignItem(e), ShowAssign(e), Plain, xs)
  {
    forall i, rest | 0 <= i < |xs| && Plain(rest) ensures AssignItem(e)(ShowAssign(e)(xs[i]) + rest) == Some(Parsed(xs[i], rest)) {
      AssignRoundTrip(e, xs[i], rest);
    }
  }

  lemma {:induction false} TestRoundTrip(e: Engine, t: Test, rest: string)
    requires Plain(rest)
    ensures TestItem(e)(ShowTest(e)(t) + rest) == Some(Parsed(t, rest))
  {
    var id := QuoteIdent(e, t.col);
    if t.TestNull? {
      var tail := " IS NULL" + rest;
      Cat(id, " IS NULL", rest);
      assert tail[0] == ' ';
      IdentRoundTrip(e, t.col, tail);
      ExpectCat(" IS NULL", rest);
    } else {
      var l := QuoteLiteral(e, t.text);
      var tail := " = " + (l + rest);
      Cat(id, " = " + l, rest);
      Cat(" = ", l, rest);
      assert tail[0] == ' ' && tail[1] == '=';
      IdentRoundTrip(e, t.col, tail);
      ExpectDiffers(tail, " IS NULL", 1);
      ExpectCat(" = ", l + rest);
      LiteralRoundTrip(e, t.text, rest);
    }
  }

  lemma {:induction false} TestUndoes(e: Engine, xs: seq<Test>)
    ensures Undoes(TestItem(e), ShowTest(e), Plain, xs)
  {
    forall i, rest | 0 <= i < |xs| && Plain(rest) ensures TestItem(e)(ShowTest(e)(xs[i]) + rest) == Some(Parsed(xs[i], rest)) {
      TestRoundTrip(e, xs[i], rest);
    }
  }

  lemma {:induction false} WhereRoundTrip(e: Engine, where: seq<Test>)
    requires where != []
    ensures ScanWhere(e, PrintWhere(e, where)) == Some(where)
  {
    ExpectCat("\nWHERE ", PrintList(ShowTest(e), "\n  AND ", where) + ";");
    TestUndoes(e, where);
    ExpectDiffers(";", "\n  AND ", 0);
    PlainSeparator("\n  AND ");
    ListRoundTrip(TestItem(e), ShowTest(e), Plain, "\n  AND ", where, ";");
  }

  lemma {:induction false} UpdateRoundTrip(e: Engine, sets: seq<Assign>, where: seq<Test>)
    requires sets != [] && where != []
    ensures ScanUpdate(e, PrintBody(e, Update(sets, where))) == Some(Update(sets, where))
  {
    var w := PrintWhere(e, where);
    assert w[0] == '\n';
    ExpectCat("\nSET ", PrintList(ShowAssign(e), ", ", sets) + w);
    AssignUndoes(e, sets);
    ExpectDiffers(w, ", ", 0);
    PlainSeparator(", ");
    ListRoundTrip(AssignItem(e), ShowAssign(e), Plain, ", ", sets, w);
    WhereRoundTrip(e, where);
  }

  lemma {:induction false} ValuesRoundTrip(e: Engine, vals: seq<string>)
    requires vals != []
    ensures ScanList(LiteralItem(e), ", ", PrintList(ShowLiteral(e), ", ", vals) + ");") == Some(Parsed(vals, ");"))
  {
    LiteralUndoes(e, vals);
    ExpectDiffers(");", ", ", 0);
    PlainSeparator(", ");
    ListRoundTrip(LiteralItem(e), ShowLiteral(e), Plain, ", ", vals, ");");
  }

  lemma {:induction false} ColumnsRoundTrip(e: Engine, cols: seq<string>, rest: string)
    requires cols != [] && rest != "" && rest[0] == ')'
    ensures ScanList(IdentItem(e), ", ", PrintList(ShowIdent(e), ", ", cols) + rest) == Some(Parsed(cols, rest))
  {
    IdentUndoes(e, cols);
    ExpectDiffers(rest, ", ", 0);
    PlainSeparator(", ");
    ListRoundTrip(IdentItem(e), ShowIdent(e), Plain, ", ", cols, rest);
  }

  lemma {:induction false} NotAllDefaults(e: Engine, cols: seq<string>, rest: string)
    requires cols != []
    ensures " (" + (PrintList(ShowIdent(e), ", ", cols) + rest) != AllDefaults(e)
  {
    FirstIsQuote(e, cols, rest);
    assert (" (" + (PrintList(ShowIdent(e), ", ", cols) + rest))[2] == NameQuote(e);
    assert AllDefaults(e)[2] != NameQuote(e);
  }

  lemma {:induction false} InsertRoundTrip(e: Engine, cols: seq<string>, vals: seq<string>)
    requires cols == [] <==> vals == []
    ensures ScanInsert(e, PrintBody(e, Insert(cols, vals))) == Some(Insert(cols, vals))
  {
    if cols != [] {
      var v := PrintList(ShowLiteral(e), ", ", vals) + ");";
      var mid := ") VALUES (" + v;
      NotAllDefaults(e, cols, mid);
      ExpectCat(" (", PrintList(ShowIdent(e), ", ", cols) + mid);
      ColumnsRoundTrip(e, cols, mid);
      ExpectCat(") VALUES (", v);
      ValuesRoundTrip(e, vals);
    }
  }

  lemma {:induction false} FirstIsQuote(e: Engine, cols: seq<string>, rest: string)
    requires cols != []
    ensures var s := PrintList(ShowIdent(e), ", ", cols) + rest; |s| > 0 && s[0] == NameQuote(e)
  {
    assert QuoteIdent(e, cols[0])[0] == NameQuote(e);
  }

  predicate WellFormed(sql: Sql) {
    match sql
    case Update(sets, where) => sets != [] && where != []
    case Delete(where) => where != []
    case Insert(cols, vals) => |cols| == |vals|
  }

  lemma {:induction false} TargetRoundTrip(e: Engine, schema: string, table: string, body: string)
    requires Ends(NameQuote(e), body)
    ensures ScanTarget(e, QuoteIdent(e, schema) + "." + QuoteIdent(e, table) + body) == Some(Parsed(Name(Some(schema), table), body))
  {
    TwoPartRoundTrip(e, schema, table, body);
  }

  lemma {:induction false} BodyIsPlain(e: Engine, sql: Sql)
    ensures Ends(NameQuote(e), PrintBody(e, sql))
  {
    assert PrintBody(e, sql)[0] == '\n' || PrintBody(e, sql)[0] == ' ';
  }

  /** For every table, column and cell text whatever, the printed statement reads back as the
      statement meant: nothing typed into a cell or a name changes its structure. */
  lemma {:induction false} StatementRoundTrip(e: Engine, r: Request)
    requires WellFormed(r.sql)
    ensures Parse(e, Print(e, r)) == Some(r)
  {
    var body := PrintBody(e, r.sql);
    var target := QuoteIdent(e, r.schema) + "." + QuoteIdent(e, r.table) + body;
    BodyIsPlain(e, r.sql);
    TargetRoundTrip(e, r.schema, r.table, body);
    ExpectCat(Verb(r.sql), target);
    var s := Print(e, r);
    assert s[0] == Verb(r.sql)[0];
    match r.sql
    case Update(sets, where) => UpdateRoundTrip(e, sets, where);
    case Delete(where) =>
      ExpectDiffers(s, "UPDATE ", 0);
      WhereRoundTrip(e, where);
    case Insert(cols, vals) =>
      ExpectDiffers(s, "UPDATE ", 0);
      ExpectDiffers(s, "DELETE FROM ", 0);
      InsertRoundTrip(e, cols, vals);
  }

  // ---- the queue's statements as text ----

  /** Column names for the statement's column indices, sets and values in ascending order. */
  function SetsText(cols: seq<string>, sets: map<nat, G.Cell>, n: nat): seq<Assign>
    requires n <= |cols|
  {
    if n == 0 then []
    else if n - 1 in sets then SetsText(cols, sets, n - 1) + [Assign(cols[n - 1], sets[n - 1])]
    else SetsText(cols, sets, n - 1)
  }

  function ValCols(cols: seq<string>, vals: map<nat, G.Cell>, n: nat): seq<string>
    requires n <= |cols|
  {
    if n == 0 then []
    else if n - 1 in vals && vals[n - 1].Val? then ValCols(cols, vals, n - 1) + [cols[n - 1]]
    else ValCols(cols, vals, n - 1)
  }

  function ValTexts(vals: map<nat, G.Cell>, n: nat): seq<string> {
    if n == 0 then []
    else if n - 1 in vals && vals[n - 1].Val? then ValTexts(vals, n - 1) + [vals[n - 1].text]
    else ValTexts(vals, n - 1)
  }

  function WhereText(cols: seq<string>, where: seq<G.Cond>): seq<Test>
    requires forall i | 0 <= i < |where| :: where[i].col < |cols|
  {
    seq(|where|, i requires 0 <= i < |where| =>
      if where[i].IsNull? then TestNull(cols[where[i].col]) else TestEqual(cols[where[i].col], where[i].text))
  }

  /** The statement names columns of the page, changes something and picks rows. */
  ghost predicate Fits(st: G.Stmt, n: nat) {
    match st
    case Update(sets, where) =>
      sets != map[] && (forall c | c in sets :: c < n) && where != [] && forall i | 0 <= i < |where| :: where[i].col < n
    case Delete(where) => where != [] && forall i | 0 <= i < |where| :: where[i].col < n
    case Insert(vals) => forall c | c in vals :: c < n && vals[c].Val?
  }

  ghost function ToSql(cols: seq<string>, st: G.Stmt): Sql
    requires Fits(st, |cols|)
  {
    match st
    case Update(sets, where) => Update(SetsText(cols, sets, |cols|), WhereText(cols, where))
    case Delete(where) => Delete(WhereText(cols, where))
    case Insert(vals) => Insert(ValCols(cols, vals, |cols|), ValTexts(vals, |cols|))
  }

  // ---- resolving names against the page's columns ----

  function IndexOf(cols: seq<string>, name: string): nat {
    if cols == [] || cols[0] == name then 0 else 1 + IndexOf(cols[1..], name)
  }

  function ResolveSets(cols: seq<string>, sets: seq<Assign>): map<nat, G.Cell> {
    if sets == [] then map[]
    else var n := |sets| - 1; ResolveSets(cols, sets[..n])[IndexOf(cols, sets[n].col) := sets[n].val]
  }

  function ResolveVals(cols: seq<string>, names: seq<string>, texts: seq<string>): map<nat, G.Cell>
    requires |names| == |texts|
  {
    if names == [] then map[]
    else var n := |names| - 1; ResolveVals(cols, names[..n], texts[..n])[IndexOf(cols, names[n]) := G.Val(texts[n])]
  }

  function ResolveWhere(cols: seq<string>, where: seq<Test>): seq<G.Cond> {
    seq(|where|, i requires 0 <= i < |where| =>
      if where[i].TestNull? then G.IsNull(IndexOf(cols, where[i].col)) else G.Equals(IndexOf(cols, where[i].col), where[i].text))
  }

  function Resolve(cols: seq<string>, sql: Sql): Option<G.Stmt> {
    match sql
    case Update(sets, where) => Some(G.Update(ResolveSets(cols, sets), ResolveWhere(cols, where)))
    case Delete(where) => Some(G.Delete(ResolveWhere(cols, where)))
    case Insert(names, texts) => if |names| == |texts| then Some(G.Insert(ResolveVals(cols, names, texts))) else None
  }

  lemma {:induction false} IndexOfFound(cols: seq<string>, i: nat)
    requires NoDup(cols) && i < |cols|
    ensures IndexOf(cols, cols[i]) == i
  {
    if i > 0 {
      assert NoDup(cols[1..]) && cols[1..][i - 1] == cols[i];
      IndexOfFound(cols[1..], i - 1);
    }
  }

  function Upto(m: map<nat, G.Cell>, n: nat): map<nat, G.Cell> {
    map c | c in m && c < n :: m[c]
  }

  lemma {:induction false} UptoNext(m: map<nat, G.Cell>, n: nat)
    ensures Upto(m, n + 1) == if n in m then Upto(m, n)[n := m[n]] else Upto(m, n)
  {
  }

  lemma {:induction false} ResolveSetsSnoc(cols: seq<string>, sets: seq<Assign>, a: Assign)
    ensures ResolveSets(cols, sets + [a]) == ResolveSets(cols, sets)[IndexOf(cols, a.col) := a.val]
  {
    assert (sets + [a])[..|sets|] == sets;
  }

  lemma {:induction false} SetsResolve(cols: seq<string>, sets: map<nat, G.Cell>, n: nat)
    requires NoDup(cols) && n <= |cols|
    ensures ResolveSets(cols, SetsText(cols, sets, n)) == Upto(sets, n)
  {
    if n > 0 {
      SetsResolve(cols, sets, n - 1);
      UptoNext(sets, n - 1);
      var before := SetsText(cols, sets, n - 1);
      if n - 1 in sets {
        IndexOfFound(cols, n - 1);
        ResolveSetsSnoc(cols, before, Assign(cols[n - 1], sets[n - 1]));
      }
    }
  }

  lemma {:induction false} ResolveValsSnoc(cols: seq<string>, names: seq<string>, texts: seq<string>, name: string, text: string)
    requires |names| == |texts|
    ensures ResolveVals(cols, names + [name], texts + [text]) == ResolveVals(cols, names, texts)[IndexOf(cols, name) := G.Val(text)]
  {
    assert (names + [name])[..|names|] == names && (texts + [text])[..|texts|] == texts;
  }

  lemma {:induction false} ValsResolve(cols: seq<string>, vals: map<nat, G.Cell>, n: nat)
    requires NoDup(cols) && n <= |cols| && forall c | c in vals :: vals[c].Val?
    ensures |ValCols(cols, vals, n)| == |ValTexts(vals, n)|
    ensures ResolveVals(cols, ValCols(cols, vals, n), ValTexts(vals, n)) == Upto(vals, n)
  {
    if n > 0 {
      ValsResolve(cols, vals, n - 1);
      UptoNext(vals, n - 1);
      var names, texts := ValCols(cols, vals, n - 1), ValTexts(vals, n - 1);
      if n - 1 in vals {
        IndexOfFound(cols, n - 1);
        ResolveValsSnoc(cols, names, texts, cols[n - 1], vals[n - 1].text);
      }
    }
  }

  lemma {:induction false} WhereResolve(cols: seq<string>, where: seq<G.Cond>)
    requires NoDup(cols) && forall i | 0 <= i < |where| :: where[i].col < |cols|
    ensures ResolveWhere(cols, WhereText(cols, where)) == where
  {
    forall i | 0 <= i < |where| ensures ResolveWhere(cols, WhereText(cols, where))[i] == where[i] {
      IndexOfFound(cols, where[i].col);
    }
  }

  lemma {:induction false} ResolveRoundTrip(cols: seq<string>, st: G.Stmt)
    requires NoDup(cols) && Fits(st, |cols|)
    ensures WellFormed(ToSql(cols, st)) && Resolve(cols, ToSql(cols, st)) == Some(st)
  {
    match st
    case Update(sets, where) =>
      SetsResolve(cols, sets, |cols|);
      WhereResolve(cols, where);
      assert Upto(sets, |cols|) == sets;
    case Delete(where) => WhereResolve(cols, where);
    case Insert(vals) =>
      ValsResolve(cols, vals, |cols|);
      assert Upto(vals, |cols|) == vals;
  }

  lemma {:induction false} WhereFits(key: seq<nat>, shown: seq<string>, n: nat)
    requires G.Below(key, |shown|) && |shown| == n && key != []
    ensures var w := G.RowWhere(key, shown); w != [] && forall i | 0 <= i < |w| :: w[i].col < n
  {
  }

  lemma {:induction false} UpdatesFit(key: seq<nat>, q: GridQueue.Queue, rows: seq<seq<string>>, rs: seq<nat>, n: nat)
    requires G.PageRows(key, rows, rs) && key != [] && forall i | 0 <= i < |rows| :: |rows[i]| == n
    requires forall i | 0 <= i < |rs| :: rs[i] in q.edits && q.edits[rs[i]] != map[] && forall c | c in q.edits[rs[i]] :: c < n
    ensures forall i | 0 <= i < |G.Updates(key, q, rows, rs)| :: Fits(G.Updates(key, q, rows, rs)[i], n)
  {
    if rs != [] {
      UpdatesFit(key, q, rows, rs[1..], n);
      WhereFits(key, rows[rs[0]], n);
      var c :| c in q.edits[rs[0]];
      assert c in G.SetsOf(q.edits[rs[0]]);
    }
  }

  lemma {:induction false} DeletesFit(key: seq<nat>, rows: seq<seq<string>>, rs: seq<nat>, n: nat)
    requires G.PageRows(key, rows, rs) && key != [] && forall i | 0 <= i < |rows| :: |rows[i]| == n
    ensures forall i | 0 <= i < |G.Deletes(key, rows, rs)| :: Fits(G.Deletes(key, rows, rs)[i], n)
  {
    if rs != [] {
      DeletesFit(key, rows, rs[1..], n);
      WhereFits(key, rows[rs[0]], n);
    }
  }

  lemma {:induction false} InsertsFit(ds: seq<map<nat, string>>, n: nat)
    requires forall i | 0 <= i < |ds| :: forall c | c in ds[i] :: c < n
    ensures forall i | 0 <= i < |G.Inserts(ds)| :: Fits(G.Inserts(ds)[i], n)
  {
    if ds != [] {
      assert forall c | c in ds[0] :: c < n;
      InsertsFit(ds[1..], n);
    }
  }

  /** Every statement of a commit, sent as text, reads back as the statement the queue means:
      same table, same columns, same values, same rows. */
  lemma {:induction false} CommitTextMeansCommit(e: Engine, schema: string, table: string, cols: seq<string>, key: seq<nat>, q: GridQueue.Queue, rows: seq<seq<string>>)
    requires G.OnPage(q, rows, |cols|) && G.Below(key, |cols|) && key != [] && NoDup(cols)
    requires forall i | 0 <= i < |q.inserts| :: forall c | c in q.inserts[i] :: c < |cols|
    ensures var sts := G.TxStatements(key, q, rows, |cols|);
            forall i | 0 <= i < |sts| ::
              && Fits(sts[i], |cols|)
              && var sent := Print(e, Request(schema, table, ToSql(cols, sts[i])));
                 && Parse(e, sent) == Some(Request(schema, table, ToSql(cols, sts[i])))
                 && Resolve(cols, Parse(e, sent).value.sql) == Some(sts[i])
  {
    var n := |cols|;
    G.QueueRows(key, q, rows, n);
    G.EditedRowsContent(q, |rows|);
    var rs := G.EditedRows(q, |rows|);
    forall i | 0 <= i < |rs| ensures rs[i] in q.edits && q.edits[rs[i]] != map[] && forall c | c in q.edits[rs[i]] :: c < n {
      assert rs[i] in rs;
    }
    UpdatesFit(key, q, rows, rs, n);
    DeletesFit(key, rows, q.deletes, n);
    InsertsFit(q.inserts, n);
    var sts := G.TxStatements(key, q, rows, n);
    forall i | 0 <= i < |sts| ensures Fits(sts[i], n) {}
    forall i | 0 <= i < |sts|
      ensures Parse(e, Print(e, Request(schema, table, ToSql(cols, sts[i])))) == Some(Request(schema, table, ToSql(cols, sts[i])))
      ensures Resolve(cols, ToSql(cols, sts[i])) == Some(sts[i])
    {
      ResolveRoundTrip(cols, sts[i]);
      StatementRoundTrip(e, Request(schema, table, ToSql(cols, sts[i])));
    }
  }
}
