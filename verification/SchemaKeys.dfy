/** The primary-key half of the diff. */
module SchemaKeys {
  import opened Text
  import opened Ddl
  import opened TableModel
  import opened ColumnPhases
  import opened ObjectPhases
  import opened SchemaDiff
  import opened SchemaColumns

  // ---- what the sorted, comma-joined comparison tells ----

  lemma {:induction false} InsertKeeps(x: string, s: seq<string>)
    ensures multiset(Insert(x, s)) == multiset{x} + multiset(s)
  {
    if s != [] && !LessEq(x, s[0]) {
      InsertKeeps(x, s[1..]);
      assert s == [s[0]] + s[1..];
    }
  }

  lemma {:induction false} SortKeeps(s: seq<string>)
    ensures multiset(Sort(s)) == multiset(s)
  {
    if s != [] {
      SortKeeps(s[1..]);
      InsertKeeps(s[0], Sort(s[1..]));
      assert s == [s[0]] + s[1..];
    }
  }

  lemma {:induction false} SortElements(s: seq<string>)
    ensures |Sort(s)| == |s| && forall n :: n in Sort(s) <==> n in s
  {
    SortKeeps(s);
    assert |multiset(Sort(s))| == |multiset(s)|;
    assert forall n :: n in Sort(s) <==> n in multiset(Sort(s));
    assert forall n :: n in s <==> n in multiset(s);
  }

  lemma {:induction false} JoinedNonempty(s: seq<string>)
    requires s != [] && s[0] != ""
    ensures Join(s, ",") != ""
  {
  }

  /** For comma-free names the comparison sees exactly the set of names. */
  lemma {:induction false} SameJoinedNames(a: seq<string>, b: seq<string>)
    requires Join(Sort(a), ",") == Join(Sort(b), ",")
    requires forall n | n in a + b :: n != "" && ',' !in n
    ensures forall n :: n in a <==> n in b
  {
    SortElements(a);
    SortElements(b);
    var sa, sb := Sort(a), Sort(b);
    assert forall n | n in sa || n in sb :: n in a + b;
    if sa != [] {
      assert sa[0] in sa;
      JoinedNonempty(sa);
      SplitJoined(sa, ',');
    }
    if sb != [] {
      assert sb[0] in sb;
      JoinedNonempty(sb);
      SplitJoined(sb, ',');
    }
    assert sa == sb;
  }

  lemma {:induction false} PkNamesContent(cols: seq<Col>, n: string)
    ensures n in PkNames(cols) <==> exists c | c in cols :: c.pk && LiveName(c.cur.name) && c.cur.name == n
    ensures n in OrigPkNames(cols) <==> exists c | c in cols :: c.orig.Some? && c.origPk && c.orig.value.name == n
  {
    if cols != [] {
      PkNamesContent(cols[1..], n);
      assert forall c | c in cols :: c == cols[0] || c in cols[1..];
      assert cols[0] in cols && forall c | c in cols[1..] :: c in cols;
    }
  }

  // ---- renames that chain never close a cycle ----

  /** The row that takes over the loaded name of a renamed row comes later and is renamed too. */
  lemma {:induction false} TakerIsLater(cols: seq<Col>, names: set<string>, i: nat, j: nat)
    requires DistinctOrigs(cols) && RenamesFit(cols, names) && i < |cols| && j < |cols|
    requires cols[i].orig.Some? && cols[j].orig.Some? && cols[i].orig.value.name in names
    requires Renamed(cols[i]) && cols[j].cur.name == cols[i].orig.value.name
    ensures i < j && Renamed(cols[j])
  {
    assert i != j;
    assert Renamed(cols[j]);
    assert VacatedBefore(cols, j);
  }

  ghost predicate ComesFrom(cols: seq<Col>, P: string -> bool, x: string) {
    exists c | c in cols :: c.orig.Some? && P(c.orig.value.name) && c.cur.name == x
  }

  ghost predicate ClosedUnderMoves(cols: seq<Col>, P: string -> bool) {
    forall x {:trigger ComesFrom(cols, P, x)} | P(x) :: ComesFrom(cols, P, x)
  }

  /** If every name in P is where some name in P moved to, no column named in P is renamed. */
  lemma {:induction false} NoCycle(cols: seq<Col>, names: set<string>, P: string -> bool, i: nat)
    requires DistinctOrigs(cols) && RenamesFit(cols, names)
    requires forall c | c in cols && c.orig.Some? :: c.orig.value.name in names
    requires ClosedUnderMoves(cols, P)
    requires i < |cols| && cols[i].orig.Some? && P(cols[i].orig.value.name)
    ensures !Renamed(cols[i])
    decreases |cols| - i
  {
    if Renamed(cols[i]) {
      var x := cols[i].orig.value.name;
      assert ComesFrom(cols, P, x);
      var c :| c in cols && c.orig.Some? && P(c.orig.value.name) && c.cur.name == x;
      var j :| 0 <= j < |cols| && cols[j] == c;
      assert cols[i] in cols;
      TakerIsLater(cols, names, i, j);
      NoCycle(cols, names, P, j);
    }
  }

  function MovedSet(cols: seq<Col>, s: set<string>): set<string> {
    set x | x in s :: Moved(cols, x)
  }

  lemma {:induction false} MovedFrom(cols: seq<Col>, cm: map<string, ColSpec>, s: set<string>, x: string)
    requires Rows(cols, cm) && RenamesFit(cols, cm.Keys) && forall y | y in s :: OrigName(cols, y)
    requires x in MovedSet(cols, s)
    ensures ComesFrom(cols, (y: string) => y in s, x)
  {
    var y :| y in s && Moved(cols, y) == x;
    MovedContent(cols, cm, y);
    var c :| c in cols && c.orig.Some? && c.orig.value.name == y;
    assert c.cur.name == x;
  }

  lemma {:induction false} MovedOnto(cols: seq<Col>, cm: map<string, ColSpec>, s: set<string>)
    requires Rows(cols, cm) && RenamesFit(cols, cm.Keys) && forall x | x in s :: OrigName(cols, x)
    requires MovedSet(cols, s) == s
    ensures forall c | c in cols && c.orig.Some? && c.orig.value.name in s :: !Renamed(c)
  {
    var P := (x: string) => x in s;
    assert ClosedUnderMoves(cols, P) by {
      forall x | P(x) ensures ComesFrom(cols, P, x) {
        MovedFrom(cols, cm, s, x);
      }
    }
    forall c | c in cols && c.orig.Some? && c.orig.value.name in s ensures !Renamed(c) {
      var i :| 0 <= i < |cols| && cols[i] == c;
      NoCycle(cols, cm.Keys, P, i);
    }
  }

  lemma {:induction false} UnrenamedStays(cols: seq<Col>, cm: map<string, ColSpec>, s: set<string>)
    requires Rows(cols, cm) && RenamesFit(cols, cm.Keys) && forall x | x in s :: OrigName(cols, x)
    requires forall c | c in cols && c.orig.Some? && c.orig.value.name in s :: !Renamed(c)
    ensures forall x | x in s :: Moved(cols, x) == x
  {
    forall x | x in s ensures Moved(cols, x) == x {
      MovedContent(cols, cm, x);
      var c :| c in cols && c.orig.Some? && c.orig.value.name == x;
    }
  }

  /** A set of loaded names moves onto itself exactly when none of them is renamed. */
  lemma {:induction false} MovedFixed(cols: seq<Col>, cm: map<string, ColSpec>, s: set<string>)
    requires Rows(cols, cm) && RenamesFit(cols, cm.Keys) && forall x | x in s :: OrigName(cols, x)
    ensures MovedSet(cols, s) == s <==>
            forall c | c in cols && c.orig.Some? && c.orig.value.name in s :: !Renamed(c)
  {
    if MovedSet(cols, s) == s { MovedOnto(cols, cm, s); }
    if forall c | c in cols && c.orig.Some? && c.orig.value.name in s :: !Renamed(c) {
      UnrenamedStays(cols, cm, s);
    }
  }

  // ---- the key after the drop phases ----

  /** The surviving columns of the loaded key. */
  function Survivors(cols: seq<Col>, pk: Option<Pk>): set<string> {
    if pk.None? then {} else set n | n in pk.value.cols && OrigName(cols, n)
  }

  /** The key that is left when the generator sees no change to it. */
  function LeftPk(e: Engine, m: Model, db: Table, gone: set<string>): Option<Pk> {
    ShrunkPk(e, gone, MovedPk(m.cols, db.pk))
  }

  lemma {:induction false} SurvivorsMove(m: Model, db: Table, gone: set<string>)
    requires Rows(m.cols, db.cols)
    requires AddsFit(m.cols, db.cols.Keys) && RenamesFit(m.cols, db.cols.Keys)
    requires db.pk.Some? && db.pk.value.cols <= db.cols.Keys
    requires forall x :: x in gone <==> x in db.cols && !OrigName(m.cols, x)
    ensures var s := Survivors(m.cols, db.pk);
            && (forall x | x in s :: Moved(m.cols, x) !in gone)
            && (forall x | x in db.pk.value.cols && x !in s :: Moved(m.cols, x) == x && x in gone)
  {
    var s := Survivors(m.cols, db.pk);
    forall x | x in s ensures Moved(m.cols, x) !in gone {
      MovedContent(m.cols, db.cols, x);
      var c :| c in m.cols && c.orig.Some? && c.orig.value.name == x;
      assert ShownName(m.cols, Moved(m.cols, x));
      if Moved(m.cols, x) in db.cols && !OrigName(m.cols, Moved(m.cols, x)) {
        RemovedNotShown(m.cols, db.cols, Moved(m.cols, x));
      }
    }
    forall x | x in db.pk.value.cols && x !in s ensures Moved(m.cols, x) == x && x in gone {
      MovedContent(m.cols, db.cols, x);
    }
  }

  lemma {:induction false} LeftPkIs(e: Engine, m: Model, db: Table, gone: set<string>)
    requires e != SQLite && Rows(m.cols, db.cols)
    requires AddsFit(m.cols, db.cols.Keys) && RenamesFit(m.cols, db.cols.Keys)
    requires db.pk.Some? && db.pk.value.cols <= db.cols.Keys
    requires forall x :: x in gone <==> x in db.cols && !OrigName(m.cols, x)
    ensures var s := Survivors(m.cols, db.pk);
            LeftPk(e, m, db, gone) ==
              if s == db.pk.value.cols || (e == MySQL && s != {})
              then Some(db.pk.value.(cols := MovedSet(m.cols, s))) else None
  {
    SurvivorsMove(m, db, gone);
    SplitImage(m.cols, db.pk.value.cols, Survivors(m.cols, db.pk), gone);
  }

  lemma {:induction false} SplitImage(cols: seq<Col>, p: set<string>, s: set<string>, gone: set<string>)
    requires s <= p
    requires forall x | x in s :: Moved(cols, x) !in gone
    requires forall x | x in p && x !in s :: Moved(cols, x) == x && x in gone
    ensures MovedSet(cols, p) - gone == MovedSet(cols, s)
    ensures MovedSet(cols, p) !! gone <==> s == p
    ensures MovedSet(cols, p) <= gone <==> s == {}
  {
    forall x | x in p ensures Moved(cols, x) in MovedSet(cols, p) {
    }
    if s != p {
      var x :| x in p && x !in s;
      assert Moved(cols, x) == x;
      assert x in MovedSet(cols, p) && x in gone;
    }
    if x :| x in s {
      assert Moved(cols, x) in MovedSet(cols, p);
    }
    assert s == p ==> MovedSet(cols, p) - gone == MovedSet(cols, p);
  }

  /** The surviving key columns move to the current names of the rows loaded as the key. */
  lemma {:induction false} SurvivorsAreKey(parse: string -> seq<string>, m: Model, db: Table, n: string)
    requires Tracks(parse, m, db) && Rows(m.cols, db.cols) && RenamesFit(m.cols, db.cols.Keys)
    ensures n in MovedSet(m.cols, Survivors(m.cols, db.pk)) <==> WasKey(m.cols, n)
  {
    var s := Survivors(m.cols, db.pk);
    if n in MovedSet(m.cols, s) {
      var x :| x in s && Moved(m.cols, x) == n;
      MovedContent(m.cols, db.cols, x);
      var c :| c in m.cols && c.orig.Some? && c.orig.value.name == x;
      assert c.origPk && c.cur.name == n;
    }
    if WasKey(m.cols, n) {
      var c :| c in m.cols && c.orig.Some? && c.origPk && c.cur.name == n;
      MovedContent(m.cols, db.cols, c.orig.value.name);
      assert c.orig.value.name in s;
    }
  }

  lemma {:induction false} TicksAreMoved(parse: string -> seq<string>, m: Model, db: Table)
    requires Tracks(parse, m, db) && Rows(m.cols, db.cols) && RenamesFit(m.cols, db.cols.Keys)
    ensures TicksKept(m.cols) <==> (set n | n in PkNames(m.cols)) == MovedSet(m.cols, Survivors(m.cols, db.pk))
  {
    var ticks, moved := (set n | n in PkNames(m.cols)), MovedSet(m.cols, Survivors(m.cols, db.pk));
    forall n ensures n in moved <==> WasKey(m.cols, n) { SurvivorsAreKey(parse, m, db, n); }
    forall n ensures n in ticks <==> n in PkNames(m.cols) {}
    if TicksKept(m.cols) { assert ticks == moved; }
  }

  lemma {:induction false} NoneSurvive(parse: string -> seq<string>, m: Model, db: Table)
    requires Tracks(parse, m, db)
    ensures OrigPkNames(m.cols) == [] <==> Survivors(m.cols, db.pk) == {}
  {
    var orig, s := OrigPkNames(m.cols), Survivors(m.cols, db.pk);
    forall n ensures n in orig <==> n in s {
      PkNamesContent(m.cols, n);
    }
    assert orig == [] || orig[0] in orig;
  }

  /** Names may hold commas and fool the comparison, but never into taking a key for none. */
  lemma {:induction false} NoKeyIsSeen(e: Engine, parse: string -> seq<string>, m: Model, db: Table)
    requires LegalTable(e, db) && Tracks(parse, m, db) && !PkColsChanged(m)
    ensures PkNames(m.cols) == [] <==> OrigPkNames(m.cols) == []
  {
    var cur, orig := PkNames(m.cols), OrigPkNames(m.cols);
    SortElements(cur);
    SortElements(orig);
    forall n ensures n in cur ==> n != "" ensures n in orig ==> n != "" {
      PkNamesContent(m.cols, n);
    }
    if cur != [] {
      assert Sort(cur)[0] in cur;
      JoinedNonempty(Sort(cur));
    }
    if orig != [] {
      assert Sort(orig)[0] in orig;
      JoinedNonempty(Sort(orig));
    }
  }

  /** The key ends as shown exactly when PkKept says so. */
  lemma {:induction false} PkExact(e: Engine, parse: string -> seq<string>, m: Model, db: Table, gone: set<string>)
    requires e != SQLite && LegalTable(e, db) && Tracks(parse, m, db) && WellFormedEdit(e, parse, m)
    requires AddsFit(m.cols, db.cols.Keys) && RenamesFit(m.cols, db.cols.Keys)
    requires forall x :: x in gone <==> x in db.cols && !OrigName(m.cols, x)
    requires !PkColsChanged(m)
    ensures LeftPk(e, m, db, gone) == ShownPk(e, m) <==> PkKept(e, m, db)
  {
    PkKeptIs(e, parse, m, db);
    NoneSurvive(parse, m, db);
    NoKeyIsSeen(e, parse, m, db);
    var ticks, s := (set n | n in PkNames(m.cols)), Survivors(m.cols, db.pk);
    assert PkNames(m.cols) == [] || PkNames(m.cols)[0] in ticks;
    if db.pk.Some? {
      LeftPkIs(e, m, db, gone);
      MovedNone(m.cols, s);
      ComparePk(e, db.pk.value, s, MovedSet(m.cols, s), ticks);
    }
  }

  lemma {:induction false} MovedNone(cols: seq<Col>, s: set<string>)
    ensures s == {} <==> MovedSet(cols, s) == {}
  {
    if x :| x in s { assert Moved(cols, x) in MovedSet(cols, s); }
  }

  lemma {:induction false} ComparePk(e: Engine, pk: Pk, s: set<string>, moved: set<string>, ticks: set<string>)
    requires pk.cols != {} && e != SQLite && (s == {} <==> moved == {}) && (s == {} <==> ticks == {})
    ensures (if s == pk.cols || (e == MySQL && s != {}) then Some(pk.(cols := moved)) else None)
            == (if ticks == {} then None else Some(Pk(pk.name, ticks)))
            <==> ticks == moved && (e == Postgres && s != pk.cols ==> s == {})
  {
  }

  /** PkKept, said of the surviving columns of the loaded key. */
  lemma {:induction false} PkKeptIs(e: Engine, parse: string -> seq<string>, m: Model, db: Table)
    requires e != SQLite && LegalTable(e, db) && Tracks(parse, m, db) && !PkColsChanged(m)
    requires Rows(m.cols, db.cols) && RenamesFit(m.cols, db.cols.Keys)
    ensures var s := Survivors(m.cols, db.pk);
            PkKept(e, m, db) <==>
              && (set n | n in PkNames(m.cols)) == MovedSet(m.cols, s)
              && (e == Postgres && db.pk.Some? && s != db.pk.value.cols ==> OrigPkNames(m.cols) == [])
  {
    TicksAreMoved(parse, m, db);
    RemovedIs(e, m, db);
  }

  lemma {:induction false} RemovedIs(e: Engine, m: Model, db: Table)
    requires LegalTable(e, db)
    ensures db.pk.Some? ==>
              ((exists n | n in db.pk.value.cols :: !LiveCol(m.cols, n)) <==> Survivors(m.cols, db.pk) != db.pk.value.cols)
  {
    if db.pk.Some? {
      var s, p := Survivors(m.cols, db.pk), db.pk.value.cols;
      assert forall n | n in p :: LiveCol(m.cols, n) <==> n in s;
      assert s <= p;
      if s != p {
        var n :| n in p && n !in s;
        assert !LiveCol(m.cols, n);
      }
    }
  }

  // ---- names without commas ----

  ghost predicate CommaFree(m: Model) {
    forall c | c in m.cols :: ',' !in c.cur.name && (c.orig.Some? ==> ',' !in c.orig.value.name)
  }

  lemma {:induction false} PkNameFacts(e: Engine, parse: string -> seq<string>, m: Model, db: Table, n: string)
    requires LegalTable(e, db) && Tracks(parse, m, db) && CommaFree(m)
    ensures n in PkNames(m.cols) ==> n != "" && ',' !in n
    ensures n in OrigPkNames(m.cols) ==> n != "" && ',' !in n
    ensures n in OrigPkNames(m.cols) <==> n in Survivors(m.cols, db.pk)
  {
    PkNamesContent(m.cols, n);
  }

  lemma {:induction false} PkSets(e: Engine, parse: string -> seq<string>, m: Model, db: Table)
    requires LegalTable(e, db) && Tracks(parse, m, db) && CommaFree(m)
    requires !PkColsChanged(m)
    ensures (set n | n in PkNames(m.cols)) == Survivors(m.cols, db.pk)
  {
    var cur, orig := PkNames(m.cols), OrigPkNames(m.cols);
    forall n | n in cur + orig ensures n != "" && ',' !in n {
      PkNameFacts(e, parse, m, db, n);
    }
    SameJoinedNames(cur, orig);
    forall n ensures n in orig <==> n in Survivors(m.cols, db.pk) {
      PkNameFacts(e, parse, m, db, n);
    }
  }

  /** Without commas, a key in which the generator sees no change is ticked as loaded exactly when
      none of its columns was renamed. */
  lemma {:induction false} TicksKeptMeansUnrenamed(e: Engine, parse: string -> seq<string>, m: Model, db: Table)
    requires e != SQLite && LegalTable(e, db) && Tracks(parse, m, db) && CommaFree(m) && !PkColsChanged(m)
    requires Rows(m.cols, db.cols) && RenamesFit(m.cols, db.cols.Keys)
    ensures TicksKept(m.cols) <==> forall c | c in m.cols && c.orig.Some? && c.origPk :: !Renamed(c)
  {
    var s := Survivors(m.cols, db.pk);
    TicksAreMoved(parse, m, db);
    PkSets(e, parse, m, db);
    MovedFixed(m.cols, db.cols, s);
    assert forall c | c in m.cols && c.orig.Some? :: c.origPk <==> c.orig.value.name in s;
  }
}
