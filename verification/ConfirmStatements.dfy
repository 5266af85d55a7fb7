/** What a destructive statement is, said without the confirm scanner, and exactly which of them the
    scanner asks about. */
module ConfirmStatements {
  import opened Text
  import opened Confirm
  import opened ConfirmLiterals

  // ---- destructive statements ----

  /** White space between tokens: tab, line feed, vertical tab, form feed, carriage return, space. */
  predicate IsGap(c: char) { 9 <= c as int <= 13 || c as int == 32 }

  /** A character of a name: digits, letters and the underscore, by their codes. */
  predicate InName(c: char) {
    var k := c as int; 48 <= k <= 57 || 65 <= k <= 90 || 97 <= k <= 122 || k == 95
  }

  /** `t` begins with a word, each letter of it as in `low` or as in `up`, and the word ends there. */
  predicate Says(t: string, low: string, up: string)
    requires |low| == |up|
  {
    && |t| >= |low| && (forall i | 0 <= i < |low| :: t[i] == low[i] || t[i] == up[i])
    && (|t| == |low| || !InName(t[|low|]))
  }

  /** `up` is `low` in capital letters: the codes are 32 apart. */
  predicate Capitals(low: string, up: string) {
    |low| == |up| && forall i | 0 <= i < |low| :: 97 <= low[i] as int <= 122 && up[i] as int == low[i] as int - 32
  }

  /** The scanner's keywords are these words, whatever the case of their letters. */
  lemma {:induction false} WordsAreRead(t: string, low: string, up: string)
    requires Capitals(low, up)
    ensures StartsWith(t, low) <==> Says(t, low, up)
  {
    if |t| >= |low| {
      forall i | 0 <= i < |low| ensures Lower(t[i]) == low[i] <==> t[i] == low[i] || t[i] == up[i] {}
    }
  }

  function First(y: string): string {
    if y != "" && IsGap(y[0]) then First(y[1..]) else y
  }

  /** How many parentheses are open before position `w`. */
  function Depth(y: string, w: nat): nat
    requires w <= |y|
  {
    if w == 0 then 0
    else
      var d := Depth(y, w - 1);
      if y[w - 1] == '(' then d + 1 else if y[w - 1] == ')' && d > 0 then d - 1 else d
  }

  /** A WHERE of the statement itself. */
  predicate OwnWhere(y: string) {
    exists w | 0 <= w < |y| :: Depth(y, w) == 0 && WhereHere(y, w)
  }

  /** A WHERE of something in parentheses: a subquery. */
  predicate NestedWhere(y: string) {
    exists w | 0 <= w < |y| :: Depth(y, w) > 0 && WhereHere(y, w)
  }

  predicate Drops(y: string) { Says(First(y), "drop", "DROP") || Says(First(y), "truncate", "TRUNCATE") }

  predicate Changes(t: string) { Says(t, "delete", "DELETE") || Says(t, "update", "UPDATE") }

  predicate IsVerb(t: string) {
    Changes(t) || Says(t, "select", "SELECT") || Says(t, "insert", "INSERT") || Says(t, "merge", "MERGE")
    || Says(t, "values", "VALUES") || Says(t, "table", "TABLE")
  }

  /** The word WHERE, not inside a longer word. */
  predicate WhereHere(y: string, w: nat)
    requires w < |y|
  {
    (w == 0 || !InName(y[w - 1])) && Says(y[w..], "where", "WHERE")
  }

  lemma {:induction false} WhereIsRead(y: string, w: nat)
    requires w < |y|
    ensures WhereAt(y, w) <==> WhereHere(y, w)
  {
    WordsAreRead(y[w..], "where", "WHERE");
  }

  lemma {:induction false} VerbsAreRead(t: string)
    ensures StartsWith(t, "drop") <==> Says(t, "drop", "DROP")
    ensures StartsWith(t, "truncate") <==> Says(t, "truncate", "TRUNCATE")
    ensures StartsWith(t, "delete") <==> Says(t, "delete", "DELETE")
    ensures StartsWith(t, "update") <==> Says(t, "update", "UPDATE")
  {
    WordsAreRead(t, "drop", "DROP");
    WordsAreRead(t, "truncate", "TRUNCATE");
    WordsAreRead(t, "delete", "DELETE");
    WordsAreRead(t, "update", "UPDATE");
  }

  /** A verb outside parentheses. */
  predicate VerbAt(y: string, w: nat)
    requires w < |y|
  {
    Depth(y, w) == 0 && (w == 0 || !InName(y[w - 1])) && IsVerb(y[w..])
  }

  /** The first verb after a WITH prefix is DELETE or UPDATE. */
  predicate BehindWith(y: string) {
    && Says(First(y), "with", "WITH")
    && exists w | 0 <= w < |y| :: VerbAt(y, w) && Changes(y[w..]) && forall v | 0 <= v < w :: !VerbAt(y, v)
  }

  /** DROP or TRUNCATE; or DELETE or UPDATE, with or without a WITH prefix, that has no WHERE of its own. */
  predicate Destructs(y: string) {
    Drops(y) || ((Changes(First(y)) || BehindWith(y)) && !OwnWhere(y))
  }

  /** Some statement of the text is destructive. */
  ghost predicate Destroys(s: string) {
    exists i: nat, j: nat :: DestroysAt(Code(s), i, j)
  }

  predicate DestroysAt(v: string, i: nat, j: nat) { IsPiece(v, i, j) && Destructs(v[i..j]) }

  // ---- the scanner's verdict on one statement ----

  lemma {:induction false} WhereIsOwnOrNested(y: string)
    ensures HasWhere(y) <==> OwnWhere(y) || NestedWhere(y)
  {
    forall w | 0 <= w < |y| ensures WhereAt(y, w) <==> WhereHere(y, w) { WhereIsRead(y, w); }
  }

  predicate NoVerticalTab(y: string) { '\U{0B}' !in y }

  lemma {:induction false} SameFirst(y: string)
    requires NoVerticalTab(y)
    ensures First(y) == SkipBlanks(y)
  {
    if y != "" && IsGap(y[0]) { SameFirst(y[1..]); }
  }

  /** A destructive statement the scanner can tell: its verb comes first, and no WHERE of a subquery or
      in a literal looks like its own. */
  predicate Seen(x: string, y: string) {
    Drops(y) || (Changes(First(y)) && !NestedWhere(y) && !HiddenWhere(x, y))
  }

  /** One statement, `y` its code and `x` its text: the scanner asks exactly if it is destructive and
      can be told. */
  lemma {:induction false} JudgedExactly(x: string, y: string)
    requires Covers(x, y) && NoVerticalTab(y)
    ensures Asks(x) <==> Destructs(y) && Seen(x, y)
  {
    OneVerdict(x, y);
    SameFirst(y);
    VerbsAreRead(First(y));
    WhereIsOwnOrNested(y);
  }

  /** A tab, line feed, form feed, carriage return or space in front never changes the verdict. */
  lemma {:induction false} BlankInFront(b: string, c: char)
    requires c as int in {9, 10, 12, 13, 32}
    ensures NeedsConfirm([c] + b) == NeedsConfirm(b)
  {
    assert ([c] + b)[1..] == b;
    var u := StripBlocks(b);
    assert StripBlocks([c] + b) == [c] + u && ([c] + u)[1..] == u;
    var v := StripLines(u);
    assert StripLines([c] + u) == [c] + v && ([c] + v)[1..] == v;
    var parts := Split(v, ';');
    var first := [c] + parts[0];
    assert Split([c] + v, ';') == [first] + parts[1..] && ([first] + parts[1..])[1..] == parts[1..];
    assert first[1..] == parts[0] && SkipBlanks(first) == SkipBlanks(parts[0]);
    BlankKeepsWhere(parts[0], c);
  }

  lemma {:induction false} NoWhereFirst(y: string)
    requires y != "" && Lower(y[0]) != 'w'
    ensures !WhereAt(y, 0)
  {
    assert y[0..] == y;
    if |y| >= |"where"| { assert Lower(y[0]) != "where"[0]; }
  }

  lemma {:induction false} BlankKeepsWhere(x: string, c: char)
    requires c as int in {9, 10, 12, 13, 32}
    ensures HasWhere([c] + x) == HasWhere(x)
  {
    var y := [c] + x;
    forall w | 0 <= w < |x| ensures WhereAt(y, w + 1) == WhereAt(x, w) { assert y[w + 1..] == x[w..]; }
    NoWhereFirst(y);
    if w :| 0 <= w < |x| && WhereAt(x, w) { assert WhereAt(y, w + 1); }
    if w :| 0 <= w < |y| && WhereAt(y, w) { assert WhereAt(x, w - 1); }
  }

  // ---- the scanner's verdict on a text ----

  /** Where the scanner cuts a statement: at its first semicolon, literals not excepted. */
  function Cut(x: string): nat { |Split(x, ';')[0]| }

  lemma {:induction false} CutIsPiece(u: string, i: nat, j: nat)
    requires i <= j <= |u| && (i == 0 || u[i - 1] == ';') && (j == |u| || u[j] == ';')
    ensures var n := Cut(u[i..j]);
            && n <= j - i && IsPiece(u, i, i + n) && u[i..i + n] == u[i..j][..n]
            && (n < j - i ==> u[i..j][n] == ';') && forall k | 0 <= k < n :: u[i..j][k] != ';'
  {
    var x := u[i..j];
    FirstPiece(x);
    PieceFree(x);
    var p := Split(x, ';')[0];
    forall k | 0 <= k < |p| ensures x[k] != ';' { assert p[k] in p; }
    forall k | i <= k < i + |p| ensures u[k] != ';' { assert x[k - i] == u[k]; }
  }

  lemma {:induction false} CutAsks(u: string, i: nat, j: nat)
    requires i <= j <= |u| && (i == 0 || u[i - 1] == ';') && (j == |u| || u[j] == ';') && Asks(u[i..j])
    ensures AnyAsks(Split(u, ';'))
  {
    CutIsPiece(u, i, j);
    var n := Cut(u[i..j]);
    AsksPiece(u[i..j], n);
    PieceAsks(u, i, i + n);
  }

  lemma {:induction false} PieceHasNoTab(v: string, i: nat, j: nat)
    requires NoVerticalTab(v) && i <= j <= |v|
    ensures NoVerticalTab(v[i..j])
  {
  }

  /** Every statement is one the scanner can tell if it is destructive: no DELETE or UPDATE stands
      behind WITH, and no WHERE in a subquery, a literal or a quoted name. */
  ghost predicate PlainStatements(u: string, v: string) {
    forall i: nat, j: nat | IsPiece(v, i, j) && j <= |u| ::
      !BehindWith(v[i..j]) && !NestedWhere(v[i..j]) && !HiddenWhere(u[i..j], v[i..j])
  }

  /** Every text with a destructive statement is asked about, wherever literals and comments stand, as
      long as none of them hides a comment opener, no vertical tab is used as a blank, and all
      statements are plain. */
  lemma {:induction false} NothingIsMissed(s: string)
    requires NoHiddenOpener(s) && NoVerticalTab(Code(s)) && PlainStatements(Plain(s), Code(s)) && Destroys(s)
    ensures NeedsConfirm(s)
  {
    ScannerSeesPlain(s);
    CodeCovers(s);
    var u, v := Plain(s), Code(s);
    var i: nat, j: nat :| DestroysAt(v, i, j);
    PieceCovers(u, v, i, j);
    PieceHasNoTab(v, i, j);
    JudgedExactly(u[i..j], v[i..j]);
    CutAsks(u, i, j);
  }

  /** A semicolon stands inside a literal or quoted name. */
  predicate HiddenSemicolon(u: string, v: string) {
    exists k | 0 <= k < |u| && k < |v| :: u[k] != v[k] && u[k] == ';'
  }

  lemma {:induction false} SamePieces(u: string, v: string, i: nat, j: nat)
    requires Covers(u, v) && !HiddenSemicolon(u, v)
    ensures IsPiece(u, i, j) == IsPiece(v, i, j)
  {
    forall k | 0 <= k < |u| ensures u[k] == ';' <==> v[k] == ';' {
      if u[k] != v[k] { assert Hides(v, k); }
    }
  }

  predicate SeenAt(u: string, v: string, i: nat, j: nat) {
    DestroysAt(v, i, j) && j <= |u| && Seen(u[i..j], v[i..j])
  }

  /** Without hidden openers, hidden semicolons and vertical tabs, a text is asked about if and only if
      one of its statements is destructive and can be told. */
  lemma {:induction false} AsksExactly(s: string)
    requires NoHiddenOpener(s) && NoVerticalTab(Code(s)) && !HiddenSemicolon(Plain(s), Code(s))
    ensures NeedsConfirm(s) <==> exists i: nat, j: nat :: SeenAt(Plain(s), Code(s), i, j)
  {
    ScannerSeesPlain(s);
    CodeCovers(s);
    var u, v := Plain(s), Code(s);
    if NeedsConfirm(s) {
      var i, j := AskingPiece(u);
      SamePieces(u, v, i, j);
      PieceCovers(u, v, i, j);
      PieceHasNoTab(v, i, j);
      JudgedExactly(u[i..j], v[i..j]);
      assert SeenAt(u, v, i, j);
    }
    if i: nat, j: nat :| SeenAt(u, v, i, j) {
      SamePieces(u, v, i, j);
      PieceCovers(u, v, i, j);
      PieceHasNoTab(v, i, j);
      JudgedExactly(u[i..j], v[i..j]);
      PieceAsks(u, i, j);
    }
  }

  /** And if its statements are plain, exactly when one of them is destructive. */
  lemma {:induction false} AsksIffDestroys(s: string)
    requires NoHiddenOpener(s) && NoVerticalTab(Code(s)) && !HiddenSemicolon(Plain(s), Code(s))
    requires PlainStatements(Plain(s), Code(s))
    ensures NeedsConfirm(s) <==> Destroys(s)
  {
    if Destroys(s) { NothingIsMissed(s); }
    if NeedsConfirm(s) {
      AsksExactly(s);
      var i: nat, j: nat :| SeenAt(Plain(s), Code(s), i, j);
    }
  }
}
