/** Destructive statements the confirm scanner does not ask about: for each condition of
    ConfirmLiterals and ConfirmStatements, the family of texts that fails it. */
module ConfirmMisses {
  import opened Text
  import opened Confirm
  import opened ConfirmLiterals
  import opened ConfirmStatements

  /** Code without quotes, dashes and slashes. */
  predicate Bare(x: string) {
    forall i | 0 <= i < |x| :: !IsQuote(x[i]) && x[i] != '-' && x[i] != '/'
  }

  lemma {:induction false} BareCode(x: string, rest: string)
    requires Bare(x)
    ensures Code(x + rest) == x + Code(rest)
  {
    if x == "" {
      assert x + rest == rest;
    } else {
      var s := x + rest;
      assert s[0] == x[0] && s[1..] == x[1..] + rest;
      BareCode(x[1..], rest);
      HeadTail(x);
      Cat([x[0]], x[1..], Code(rest));
    }
  }

  lemma {:induction false} BareAlone(x: string)
    requires Bare(x)
    ensures Code(x) == x && CommentFree(x)
  {
    BareCode(x, "");
    assert x + "" == x;
    forall i | 0 <= i < |x| ensures !OpensBlock(x[i..]) && !OpensLine(x[i..]) { assert x[i..][0] == x[i]; }
  }

  lemma {:induction false} QuoteEnds(body: string, rest: string)
    requires '\'' !in body
    ensures AfterQuote('\'', body + ("'" + rest)) == rest
  {
    var s := body + ("'" + rest);
    if body == "" {
      assert s[0] == '\'' && s[1..] == rest;
    } else {
      assert s[0] == body[0] && s[1..] == body[1..] + ("'" + rest);
      QuoteEnds(body[1..], rest);
    }
  }

  function Literal(body: string): string { "'" + body + "'" }

  lemma {:induction false} LiteralCode(body: string, rest: string)
    requires '\'' !in body
    ensures Code(Literal(body) + rest) == Filled('\'', |body| + 2) + Code(rest)
  {
    var s := Literal(body) + rest;
    assert s[0] == '\'' && s[1..] == body + ("'" + rest);
    QuoteEnds(body, rest);
  }

  lemma {:induction false} LaterPiece(x: string, c: string, i: nat, j: nat)
    requires DestroysAt(c, i, j)
    ensures DestroysAt(x + (";" + c), i + |x| + 1, j + |x| + 1)
  {
    var t, n := x + (";" + c), |x| + 1;
    assert t[n..] == c && t[n - 1] == ';';
    ShiftPiece(t, n, i, j);
    SameDestructs(t[i + n..j + n], c[i..j]);
  }

  lemma {:induction false} EarlierPiece(c: string, d: string, i: nat, j: nat)
    requires DestroysAt(c, i, j)
    ensures DestroysAt(c + (";" + d), i, j)
  {
    var t := c + (";" + d);
    assert t[i..j] == c[i..j];
    SameDestructs(t[i..j], c[i..j]);
  }

  lemma {:induction false} SameDestructs(x: string, y: string)
    requires x == y && Destructs(y)
    ensures Destructs(x)
  {
  }

  /** A statement after one that holds a literal counts, whatever the literal says. */
  lemma {:induction false} DestroysAfterLiteral(x: string, body: string, b: string)
    requires Bare(x) && '\'' !in body && Destroys(b)
    ensures Destroys(x + (Literal(body) + (";" + b)))
  {
    var f := Filled('\'', |body| + 2);
    BareCode(x, Literal(body) + (";" + b));
    LiteralCode(body, ";" + b);
    BareCode(";", b);
    Cat(x, f, ";" + Code(b));
    var i: nat, j: nat :| DestroysAt(Code(b), i, j);
    LaterPiece(x + f, Code(b), i, j);
  }

  /** One statement. */
  lemma {:induction false} BareDestroys(b: string)
    requires Bare(b) && ';' !in b && Destructs(b)
    ensures Destroys(b)
  {
    BareAlone(b);
    assert b[0..|b|] == b;
    assert DestroysAt(Code(b), 0, |b|);
  }

  /** Two dashes hide the rest of the line, wherever they stand. */
  lemma {:induction false} HiddenAfterDashes(p: string, t: string)
    requires '/' !in p && '-' !in p && '/' !in t && '\n' !in t
    ensures NeedsConfirm(p + ("--" + t)) == AnyAsks(Split(p, ';'))
  {
    var s := p + ("--" + t);
    NoBlocks(s);
    forall i | 0 <= i < |p| ensures !OpensLine((p + ("--" + t))[i..]) { assert s[i..][0] == p[i]; }
    SkipLines(p, "--" + t);
    assert ("--" + t)[2..] == t;
    NoLine(t);
    assert p + "" == p;
  }

  lemma {:induction false} SilentPrefix(p: string)
    requires ';' !in p && !Asks(p)
    ensures !AnyAsks(Split(p, ';'))
  {
    SplitWhole(p, ';');
    NotAsking(p);
  }

  /** Dashes in a literal: `select '--'; drop table t`. */
  lemma {:induction false} DashesInLiteralHide(x: string, y: string, z: string, b: string)
    requires Bare(x) && Bare(y) && Bare(z) && Bare(b) && '\n' !in z + b && ';' !in x + y
    requires !Asks(x + ("'" + y)) && Destroys(b)
    ensures var s := x + (Literal(y + "--" + z) + (";" + b)); Destroys(s) && !NeedsConfirm(s)
  {
    var body := y + "--" + z;
    DestroysAfterLiteral(x, body, b);
    var p, t := x + ("'" + y), z + ("'" + (";" + b));
    assert x + (Literal(body) + (";" + b)) == p + ("--" + t);
    assert Bare(x) ==> '/' !in x && '-' !in x;
    HiddenAfterDashes(p, t);
    SilentPrefix(p);
  }

  /** A block comment opened in one literal and closed in another: `select '/*'; drop table t; select '*/'`. */
  lemma {:induction false} BlockInLiteralsHides(x: string, b: string, y: string)
    requires Bare(x) && Bare(b) && Bare(y) && '*' !in b + y && ';' !in x && !Asks(x + ("'" + (" " + "'"))) && Destroys(b)
    ensures var s := x + (Literal("/*") + (";" + (b + (";" + (y + Literal("*/")))))); Destroys(s) && !NeedsConfirm(s)
  {
    DestroysBefore(b, y + Literal("*/"));
    DestroysAfterLiteral(x, "/*", b + (";" + (y + Literal("*/"))));
    BlockSwallows(x, b, y);
    SilentPrefix(x + ("'" + (" " + "'")));
  }

  lemma {:induction false} DestroysBefore(b: string, tail: string)
    requires Bare(b) && Destroys(b)
    ensures Destroys(b + (";" + tail))
  {
    BareCode(b, ";" + tail);
    BareCode(";", tail);
    BareAlone(b);
    var i: nat, j: nat :| DestroysAt(Code(b), i, j);
    EarlierPiece(b, Code(tail), i, j);
  }

  lemma {:induction false} NoStarNoClose(c: string)
    requires '*' !in c
    ensures AfterClose(c).None?
  {
    if |c| >= 2 { NoStarNoClose(c[1..]); }
  }

  lemma {:induction false} NoDashes(s: string)
    requires '-' !in s
    ensures StripLines(s) == s
  {
    if s != "" {
      NoDashes(s[1..]);
      HeadTail(s);
    }
  }

  /** A block comment after code, up to its first close. */
  lemma {:induction false} BlockGoes(p: string, c: string, rest: string)
    requires '/' !in p && '*' !in c
    ensures StripBlocks(p + ("/*" + (c + ("*/" + rest)))) == p + (" " + StripBlocks(rest))
  {
    var block := "/*" + (c + ("*/" + rest));
    forall i | 0 <= i < |p| ensures !OpensBlock((p + block)[i..]) { assert (p + block)[i..][0] == p[i]; }
    SkipBlocks(p, block);
    NoStarNoClose(c);
    FirstClose(c, rest);
    assert block[2..] == c + ("*/" + rest);
  }

  lemma {:induction false} BareHasNone(x: string)
    requires Bare(x)
    ensures '/' !in x && '-' !in x
  {
  }

  lemma {:induction false} TwoLiterals(x: string, b: string, y: string)
    ensures x + (Literal("/*") + (";" + (b + (";" + (y + Literal("*/")))))) ==
            (x + "'") + ("/*" + (("';" + b + ";" + y + "'") + ("*/" + "'")))
  {
  }

  lemma {:induction false} BlockSwallows(x: string, b: string, y: string)
    requires Bare(x) && '*' !in b + y
    ensures var s := x + (Literal("/*") + (";" + (b + (";" + (y + Literal("*/"))))));
            StripLines(StripBlocks(s)) == x + ("'" + (" " + "'"))
  {
    BareHasNone(x);
    TwoLiterals(x, b, y);
    BlockGoes(x + "'", "';" + b + ";" + y + "'", "'");
    NoBlocks("'");
    Cat(x, "'", " " + "'");
    NoDashes(x + ("'" + (" " + "'")));
  }

  /** A line comment that opens a block comment: the lines up to its close are not looked at. */
  lemma {:induction false} BlockInLineHides(b: string)
    requires Bare(b) && '*' !in b && Destroys("\n" + b)
    ensures var s := "-- /*" + (("\n" + b) + "-- */"); Destroys(s) && !NeedsConfirm(s)
  {
    LineCode(b);
    LineSwallows(b);
    SilentPrefix("");
  }

  lemma {:induction false} LineCode(b: string)
    requires Bare(b)
    ensures Code("-- /*" + (("\n" + b) + "-- */")) == Code("\n" + b)
  {
    var t := "\n" + b;
    var s := "-- /*" + (t + "-- */");
    assert s[2..] == " /*" + (t + "-- */");
    DropLineOver(" /*", t + "-- */");
    BareCode(t, "-- */");
    assert "-- */"[2..] == " */";
    NoLine(" */");
    assert Code("-- */") == "" && t + "" == t;
    BareAlone(t);
  }

  lemma {:induction false} LineSwallows(b: string)
    requires '*' !in b
    ensures StripLines(StripBlocks("-- /*" + (("\n" + b) + "-- */"))) == ""
  {
    var c := "\n" + b + "-- ";
    assert "-- /*" + (("\n" + b) + "-- */") == "-- " + ("/*" + (c + ("*/" + "")));
    BlockGoes("-- ", c, "");
    assert ("-- " + (" " + ""))[2..] == "  ";
    NoLine("  ");
  }

  lemma {:induction false} WordIsWhere(b: string)
    ensures HasWhere(b + Literal("where"))
  {
    var s := b + Literal("where");
    assert s[|b| + 1..] == "where'";
    assert WhereAt(s, |b| + 1);
  }

  lemma {:induction false} LiteralMasked(b: string)
    requires Bare(b)
    ensures Code(b + Literal("where")) == b + Filled('\'', 7) && Covers(b + Literal("where"), b + Filled('\'', 7))
  {
    var lit, mask := Literal("where"), Filled('\'', 7);
    BareCode(b, lit);
    LiteralCode("where", "");
    assert lit + "" == lit && mask + "" == mask;
    LiteralCovered(lit, '\'', true);
    CoversConcat(b, b, lit, mask);
  }

  /** The word in a literal: `update t set a = 'where'` is taken for filtered. */
  lemma {:induction false} WhereInLiteralHides(b: string)
    requires Bare(b) && ';' !in b && Destructs(b + Filled('\'', 7)) && !Destructive(b + Filled('\'', 7))
    ensures var s := b + Literal("where"); Destroys(s) && !NeedsConfirm(s)
  {
    var v := b + Filled('\'', 7);
    LiteralMasked(b);
    assert v[0..|v|] == v;
    assert DestroysAt(v, 0, |v|);
    FilteredIsSilent(b);
  }

  lemma {:induction false} FilteredIsSilent(b: string)
    requires Bare(b) && ';' !in b && !Destructive(b + Filled('\'', 7))
    ensures !NeedsConfirm(b + Literal("where"))
  {
    var s, v := b + Literal("where"), b + Filled('\'', 7);
    LiteralMasked(b);
    SameVerb(s, v);
    WordIsWhere(b);
    LiteralCommentFree(b);
    NoneIn(b, Literal("where"), ';');
    OneStatement(s);
  }

  lemma {:induction false} LiteralCommentFree(b: string)
    requires Bare(b)
    ensures CommentFree(b + Literal("where"))
  {
    var s := b + Literal("where");
    forall i | 0 <= i < |s| ensures !OpensBlock(s[i..]) && !OpensLine(s[i..]) {
      assert s[i..][0] == s[i];
    }
  }

  // ---- a WHERE that is not the statement's own ----

  predicate NoParens(x: string) { '(' !in x && ')' !in x }

  lemma {:induction false} DepthFlat(x: string, rest: string, w: nat)
    requires NoParens(x) && w <= |x|
    ensures Depth(x + rest, w) == 0
  {
    if w > 0 {
      DepthFlat(x, rest, w - 1);
      assert (x + rest)[w - 1] == x[w - 1];
    }
  }

  lemma {:induction false} DepthInside(x: string, inner: string, rest: string, w: nat)
    requires NoParens(x) && NoParens(inner) && w <= |inner|
    ensures Depth(x + ("(" + (inner + rest)), |x| + 1 + w) == 1
  {
    var s := x + ("(" + (inner + rest));
    if w == 0 {
      DepthFlat(x, "(" + (inner + rest), |x|);
      assert s[|x|] == '(';
    } else {
      DepthInside(x, inner, rest, w - 1);
      assert s[|x| + w] == inner[w - 1];
    }
  }

  lemma {:induction false} DepthAfter(x: string, inner: string, d: string, w: nat)
    requires NoParens(x) && NoParens(inner) && NoParens(d) && w <= |d|
    ensures Depth(x + ("(" + (inner + (")" + d))), |x| + |inner| + 2 + w) == 0
  {
    var s := x + ("(" + (inner + (")" + d)));
    if w == 0 {
      DepthInside(x, inner, ")" + d, |inner|);
      assert s[|x| + |inner| + 1] == ')';
    } else {
      DepthAfter(x, inner, d, w - 1);
      assert s[|x| + |inner| + 1 + w] == d[w - 1];
    }
  }

  /** No word of `x` can be WHERE. */
  predicate NoWh(x: string) {
    forall i | 0 <= i < |x| - 1 :: !(Lower(x[i]) == 'w' && Lower(x[i + 1]) == 'h')
  }

  lemma {:induction false} WhereHasWh(s: string, w: nat)
    requires w < |s| && WhereAt(s, w)
    ensures w + 1 < |s| && Lower(s[w]) == 'w' && Lower(s[w + 1]) == 'h'
  {
    assert s[w..][0] == s[w] && s[w..][1] == s[w + 1];
    assert Lower(s[w..][0]) == "where"[0] && Lower(s[w..][1]) == "where"[1];
  }

  /** All that is outside the parentheses holds no WHERE. */
  lemma {:induction false} NoOwnWhere(x: string, inner: string, d: string)
    requires NoParens(x) && NoParens(inner) && NoWh(x) && NoWh(")" + d)
    ensures !OwnWhere(x + ("(" + (inner + (")" + d))))
  {
    var s := x + ("(" + (inner + (")" + d)));
    forall w | 0 <= w < |s| && Depth(s, w) == 0 ensures !WhereAt(s, w) {
      if |x| < w <= |x| + 1 + |inner| { DepthInside(x, inner, ")" + d, w - |x| - 1); }
      if WhereAt(s, w) {
        WhereHasWh(s, w);
        OutsideChars(x, inner, d, w);
      }
    }
  }

  lemma {:induction false} OutsideChars(x: string, inner: string, d: string, w: nat)
    requires w <= |x| || w > |x| + 1 + |inner|
    requires NoWh(x) && NoWh(")" + d) && w + 1 < |x + ("(" + (inner + (")" + d)))|
    ensures var s := x + ("(" + (inner + (")" + d))); !(Lower(s[w]) == 'w' && Lower(s[w + 1]) == 'h')
  {
    var s := x + ("(" + (inner + (")" + d)));
    if w < |x| {
      assert s[w] == x[w] && s[w + 1] == if w + 1 < |x| then x[w + 1] else '(';
    } else if w > |x| + 1 + |inner| {
      var k := w - |x| - 1 - |inner|;
      assert s[w] == (")" + d)[k] && s[w + 1] == (")" + d)[k + 1];
    }
  }

  lemma {:induction false} InnerWhere(x: string, inner: string, d: string)
    requires HasWhere(inner)
    ensures HasWhere(x + ("(" + (inner + (")" + d))))
  {
    var s := x + ("(" + (inner + (")" + d)));
    var w :| 0 <= w < |inner| && WhereAt(inner, w);
    var k := |x| + 1 + w;
    assert s[k..] == inner[w..] + (")" + d);
    assert forall i | 0 <= i < 5 :: s[k..][i] == inner[w..][i];
    assert |inner[w..]| > 5 ==> s[k..][5] == inner[w..][5];
    assert s[k - 1] == if w == 0 then '(' else inner[w - 1];
    assert WhereAt(s, k);
  }

  lemma {:induction false} SilentStatement(s: string)
    requires Bare(s) && ';' !in s && !Asks(s)
    ensures !NeedsConfirm(s)
  {
    BareAlone(s);
    OneStatement(s);
  }

  /** A WHERE in a subquery: `update t set a = (select b from u where c = 1)` is taken for filtered. */
  lemma {:induction false} WhereInSubqueryHides(x: string, inner: string, d: string)
    requires NoParens(x) && NoParens(inner) && NoWh(x) && NoWh(")" + d) && HasWhere(inner)
    requires var s := x + ("(" + (inner + (")" + d))); Bare(s) && ';' !in s && Changes(First(s)) && !Destructive(s)
    ensures var s := x + ("(" + (inner + (")" + d))); Destroys(s) && !NeedsConfirm(s)
  {
    var s := x + ("(" + (inner + (")" + d)));
    NoOwnWhere(x, inner, d);
    InnerWhere(x, inner, d);
    BareDestroys(s);
    SilentStatement(s);
  }

  // ---- a verb that does not come first ----

  /** No word of `x` starts like a verb. */
  predicate NoVerbs(x: string) {
    forall i | 0 <= i < |x| && (i == 0 || !IsWord(x[i - 1])) :: Lower(x[i]) !in "siudmvt"
  }

  lemma {:induction false} VerbLetter(t: string)
    requires IsVerb(t)
    ensures t != "" && Lower(t[0]) in "siudmvt"
  {
    assert "select"[0] == "siudmvt"[0] && "insert"[0] == "siudmvt"[1] && "update"[0] == "siudmvt"[2] && "delete"[0] == "siudmvt"[3];
    assert "merge"[0] == "siudmvt"[4] && "values"[0] == "siudmvt"[5] && "table"[0] == "siudmvt"[6];
  }

  lemma {:induction false} OutsideLetter(x: string, inner: string, d: string, w: nat)
    requires NoVerbs(x) && d != "" && d[0] == ' ' && (w <= |x| || w == |x| + |inner| + 2)
    ensures var s := x + ("(" + (inner + (")" + d)));
            w < |s| && ((w < |x| && w > 0 && IsWord(s[w - 1])) || Lower(s[w]) !in "siudmvt")
  {
    var s := x + ("(" + (inner + (")" + d)));
    if w < |x| {
      assert s[w] == x[w] && (w > 0 ==> s[w - 1] == x[w - 1]);
    } else {
      assert s[w] == if w == |x| then '(' else ' ';
      assert Lower('(') !in "siudmvt" && Lower(' ') !in "siudmvt";
    }
  }

  lemma {:induction false} VerbStarts(s: string, w: nat)
    requires w < |s| && VerbAt(s, w)
    ensures Lower(s[w]) in "siudmvt" && (w == 0 || !IsWord(s[w - 1]))
  {
    VerbLetter(s[w..]);
    assert s[w..][0] == s[w];
  }

  lemma {:induction false} NoEarlierVerb(x: string, inner: string, d: string, w: nat)
    requires NoParens(x) && NoParens(inner) && NoVerbs(x) && w <= |x| + |inner| + 2
    requires d != "" && d[0] == ' ' && w < |x + ("(" + (inner + (")" + d)))|
    ensures !VerbAt(x + ("(" + (inner + (")" + d))), w)
  {
    if |x| < w <= |x| + 1 + |inner| {
      DepthInside(x, inner, ")" + d, w - |x| - 1);
    } else {
      OutsideLetter(x, inner, d, w);
      if VerbAt(x + ("(" + (inner + (")" + d))), w) { VerbStarts(x + ("(" + (inner + (")" + d))), w); }
    }
  }

  /** DELETE or UPDATE behind WITH: `with x as (select 1) delete from t` is not looked at. */
  lemma {:induction false} WithHides(x: string, inner: string, d: string)
    requires NoParens(x) && NoParens(inner) && NoWh(x) && NoWh(")" + (" " + d)) && NoVerbs(x) && Changes(d)
    requires var s := x + ("(" + (inner + (")" + (" " + d)))); Bare(s) && ';' !in s && Says(First(s), "with", "WITH") && !Asks(s)
    ensures var s := x + ("(" + (inner + (")" + (" " + d)))); Destroys(s) && !NeedsConfirm(s)
  {
    var d' := " " + d;
    var s := x + ("(" + (inner + (")" + d')));
    NoOwnWhere(x, inner, d');
    VerbBehind(x, inner, d);
    BareDestroys(s);
    SilentStatement(s);
  }

  lemma {:induction false} VerbBehind(x: string, inner: string, d: string)
    requires NoParens(x) && NoParens(inner) && NoVerbs(x) && Changes(d)
    requires Says(First(x + ("(" + (inner + (")" + (" " + d))))), "with", "WITH")
    ensures BehindWith(x + ("(" + (inner + (")" + (" " + d)))))
  {
    var d' := " " + d;
    var s, w := x + ("(" + (inner + (")" + d'))), |x| + |inner| + 3;
    assert s[w..] == d && s[w - 1] == ' ';
    WithDepth(x, inner, d);
    forall v | 0 <= v < w ensures !VerbAt(s, v) { NoEarlierVerb(x, inner, d', v); }
    assert VerbAt(s, w);
  }

  lemma {:induction false} WithDepth(x: string, inner: string, d: string)
    requires NoParens(x) && NoParens(inner)
    ensures Depth(x + ("(" + (inner + (")" + (" " + d)))), |x| + |inner| + 3) == 0
  {
    var s := x + ("(" + (inner + (")" + (" " + d))));
    DepthInside(x, inner, ")" + (" " + d), |inner|);
    assert s[|x| + |inner| + 1] == ')' && s[|x| + |inner| + 2] == ' ';
    assert Depth(s, |x| + |inner| + 2) == 0;
  }

  /** A vertical tab before the verb is no blank to the scanner. */
  lemma {:induction false} VerticalTabHides(b: string)
    requires Bare(b) && ';' !in b && Drops(b)
    ensures Destroys("\U{0B}" + b) && !NeedsConfirm("\U{0B}" + b)
  {
    var s := "\U{0B}" + b;
    assert s[1..] == b && s[0] == '\U{0B}';
    assert First(s) == First(b);
    BareDestroys(s);
    assert SkipBlanks(s) == s && Lower(s[0]) == s[0];
    SilentStatement(s);
  }

  // ---- texts in which nothing is hidden ----

  lemma {:induction false} BareHidesNothing(x: string, rest: string)
    requires Bare(x)
    ensures NoHiddenOpener(x + rest) == NoHiddenOpener(rest)
  {
    if x == "" {
      assert x + rest == rest;
    } else {
      var s := x + rest;
      assert s[0] == x[0] && s[1..] == x[1..] + rest;
      BareHidesNothing(x[1..], rest);
    }
  }

  /** Code, a literal without an opener, a closed block comment, and code again. */
  lemma {:induction false} NothingHidden(x: string, body: string, c: string, y: string)
    requires Bare(x) && Bare(y) && '\'' !in body && !HasOpener(Literal(body)) && AfterClose(c).None?
    ensures NoHiddenOpener(x + (Literal(body) + ("/*" + (c + ("*/" + y)))))
  {
    var comment := "/*" + (c + ("*/" + y));
    var s := Literal(body) + comment;
    BareHidesNothing(x, s);
    assert s[0] == '\'' && s[1..] == body + ("'" + comment);
    QuoteEnds(body, comment);
    assert s[..|s| - |comment|] == Literal(body);
    assert comment[2..] == c + ("*/" + y);
    FirstClose(c, y);
    BareHidesNothing(y, "");
    assert y + "" == y;
  }

  // ---- as typed ----

  lemma {:induction false} NoneIn(a: string, b: string, c: char)
    requires c !in a && c !in b
    ensures c !in a + b
  {
  }

  lemma {:induction false} SelectIsBare()
    ensures Bare("select ") && Bare(" select ") && ';' !in "select " && '*' !in " select "
  {
  }

  /** One more statement: drop table t. */
  const DROP_TABLE := " " + ("drop" + " table t")

  lemma {:induction false} DropIsBare()
    ensures Bare(DROP_TABLE) && '*' !in DROP_TABLE && '\n' !in DROP_TABLE && ';' !in DROP_TABLE
  {
  }

  lemma {:induction false} FirstAfterGap(c: char, t: string)
    requires IsGap(c) && t != "" && !IsGap(t[0])
    ensures First([c] + t) == t
  {
    assert ([c] + t)[1..] == t;
  }

  lemma {:induction false} WordStarts(word: string, up: string, rest: string)
    requires Letters(word) && Capitals(word, up) && (rest == "" || !IsWord(rest[0]))
    ensures StartsWith(word + rest, word) && Says(word + rest, word, up)
  {
    WordsAreRead(word + rest, word, up);
  }

  lemma {:induction false} DropDestroys()
    ensures Destroys(DROP_TABLE)
  {
    WordStarts("drop", "DROP", " table t");
    FirstAfterGap(' ', "drop" + " table t");
    DropIsBare();
    BareDestroys(DROP_TABLE);
  }

  lemma {:induction false} SelectIsSilent(t: string)
    ensures !Asks("s" + t)
  {
    var s := "s" + t;
    assert s[0] == 's' && Lower('s') == 's';
    assert SkipBlanks(s) == s;
  }

  lemma {:induction false} SelectAsks(t: string)
    ensures !Asks("select " + t)
  {
    SelectIsSilent("elect " + t);
    assert "select " + t == "s" + ("elect " + t);
  }

  lemma {:induction false} DashesInput()
    ensures var s := "select " + (Literal("" + "--" + "") + (";" + DROP_TABLE)); Destroys(s) && !NeedsConfirm(s)
  {
    SelectIsBare();
    DropIsBare();
    DropDestroys();
    SelectAsks("'" + "");
    NoneIn("", DROP_TABLE, '\n');
    NoneIn("select ", "", ';');
    DashesInLiteralHide("select ", "", "", DROP_TABLE);
  }

  lemma {:induction false} BlockInput()
    ensures var s := "select " + (Literal("/*") + (";" + (DROP_TABLE + (";" + (" select " + Literal("*/"))))));
            Destroys(s) && !NeedsConfirm(s)
  {
    SelectIsBare();
    DropIsBare();
    DropDestroys();
    SelectAsks("'" + (" " + "'"));
    NoneIn(DROP_TABLE, " select ", '*');
    BlockInLiteralsHides("select ", DROP_TABLE, " select ");
  }

  lemma {:induction false} LineDrop()
    ensures Bare("drop" + " table t ") && '*' !in "drop" + " table t " && Destroys("\n" + ("drop" + " table t "))
  {
    WordStarts("drop", "DROP", " table t ");
    FirstAfterGap('\n', "drop" + " table t ");
    BareDestroys("\n" + ("drop" + " table t "));
  }

  lemma {:induction false} LineInput()
    ensures var s := "-- /*" + (("\n" + ("drop" + " table t ")) + "-- */"); Destroys(s) && !NeedsConfirm(s)
  {
    LineDrop();
    BlockInLineHides("drop" + " table t ");
  }

  /** An UPDATE: the verb first, so nothing to drop, and no WHERE where there is no `wh`. */
  lemma {:induction false} UpdateStarts(rest: string)
    requires rest != "" && !IsWord(rest[0])
    ensures var v := "update" + rest; Changes(First(v)) && !Destructive(v) && !Drops(v) && DeletesOrUpdates(v)
  {
    var v := "update" + rest;
    WordStarts("update", "UPDATE", rest);
    assert v[0] == 'u' && SkipBlanks(v) == v && First(v) == v;
    assert Lower(v[0]) == 'u';
  }

  lemma {:induction false} NoWhNoWhere(v: string)
    requires NoWh(v)
    ensures !HasWhere(v)
  {
    forall w | 0 <= w < |v| ensures !WhereAt(v, w) {
      if WhereAt(v, w) { WhereHasWh(v, w); }
    }
  }

  lemma {:induction false} NoWhCat(a: string, b: string)
    requires NoWh(a) && NoWh(b) && (a == "" || b == "" || Lower(a[|a| - 1]) != 'w')
    ensures NoWh(a + b)
  {
    forall i | 0 <= i < |a + b| - 1 ensures !(Lower((a + b)[i]) == 'w' && Lower((a + b)[i + 1]) == 'h') {
      if i + 1 < |a| {
        assert (a + b)[i] == a[i] && (a + b)[i + 1] == a[i + 1];
      } else if i >= |a| {
        assert (a + b)[i] == b[i - |a|] && (a + b)[i + 1] == b[i + 1 - |a|];
      }
    }
  }

  const SET_A := "update" + " t set a = "

  lemma {:induction false} SetIsPlain()
    ensures NoWh(SET_A) && Bare(SET_A) && ';' !in SET_A && NoParens(SET_A) && Lower(SET_A[|SET_A| - 1]) == ' '
  {
  }

  lemma {:induction false} MaskedUpdate()
    ensures Destructs(SET_A + Filled('\'', 7)) && !Destructive(SET_A + Filled('\'', 7))
  {
    var mask := Filled('\'', 7);
    SetIsPlain();
    Cat("update", " t set a = ", mask);
    UpdateStarts(" t set a = " + mask);
    NoWhCat(SET_A, mask);
    NoWhNoWhere(SET_A + mask);
    WhereIsOwnOrNested(SET_A + mask);
  }

  lemma {:induction false} WhereInput()
    ensures var s := SET_A + Literal("where"); Destroys(s) && !NeedsConfirm(s)
  {
    SetIsPlain();
    MaskedUpdate();
    WhereInLiteralHides(SET_A);
  }

  const SELECT_B := "select b from u "
  const WHERE_C := "where" + " c = 1"
  const SUBQUERY := SELECT_B + WHERE_C

  lemma {:induction false} SelectFacts()
    ensures NoParens(SELECT_B) && Bare(SELECT_B) && ';' !in SELECT_B && SELECT_B[|SELECT_B| - 1] == ' '
  {
  }

  lemma {:induction false} WhereFacts()
    ensures NoParens(WHERE_C) && Bare(WHERE_C) && ';' !in WHERE_C && StartsWith(WHERE_C, "where")
  {
    WordStarts("where", "WHERE", " c = 1");
  }

  lemma {:induction false} WhereBehind(a: string, b: string)
    requires a != "" && a[|a| - 1] == ' ' && StartsWith(b, "where")
    ensures HasWhere(a + b)
  {
    assert (a + b)[|a|..] == b;
    assert WhereAt(a + b, |a|);
  }

  lemma {:induction false} SubqueryFacts()
    ensures NoParens(SUBQUERY) && Bare(SUBQUERY) && ';' !in SUBQUERY && HasWhere(SUBQUERY)
  {
    SelectFacts();
    WhereFacts();
    BareCat(SELECT_B, WHERE_C);
    NoneIn(SELECT_B, WHERE_C, '(');
    NoneIn(SELECT_B, WHERE_C, ')');
    WhereBehind(SELECT_B, WHERE_C);
  }

  lemma {:induction false} BareCat(a: string, b: string)
    requires Bare(a) && Bare(b) && ';' !in a && ';' !in b
    ensures Bare(a + b) && ';' !in a + b
  {
  }

  /** `update t set a = (select b from u where c = 1)` */
  lemma {:induction false} SubqueryInput()
    ensures var s := SET_A + ("(" + (SUBQUERY + (")" + ""))); Destroys(s) && !NeedsConfirm(s)
  {
    SetIsPlain();
    SubqueryFacts();
    BareCat(SUBQUERY, ")" + "");
    BareCat("(", SUBQUERY + (")" + ""));
    BareCat(SET_A, "(" + (SUBQUERY + (")" + "")));
    Cat("update", " t set a = ", "(" + (SUBQUERY + (")" + "")));
    UpdateStarts(" t set a = " + ("(" + (SUBQUERY + (")" + ""))));
    WhereInSubqueryHides(SET_A, SUBQUERY, "");
  }

  const WITH_X := "with" + " x as "
  const DELETE_T := "delete from t"

  lemma {:induction false} WithFacts()
    ensures NoParens(WITH_X) && NoWh(WITH_X) && NoVerbs(WITH_X) && Bare(WITH_X) && ';' !in WITH_X
  {
    WithHasNoVerbs();
  }

  lemma {:induction false} WithHasNoVerbs()
    ensures NoVerbs(WITH_X)
  {
    var s := WITH_X;
    assert s[0] == 'w' && s[1] == 'i' && s[2] == 't' && s[3] == 'h' && s[4] == ' ';
    assert s[5] == 'x' && s[6] == ' ' && s[7] == 'a' && s[8] == 's' && s[9] == ' ' && |s| == 10;
    forall i | 0 <= i < |s| ensures Lower(s[i]) in "wxah " || (i > 0 && IsWord(s[i - 1])) {}
    forall c: char | c in "wxah " ensures c !in "siudmvt" {}
  }

  lemma {:induction false} DeleteChanges()
    ensures Changes(DELETE_T)
  {
    WordStarts("delete", "DELETE", " from t");
    assert "delete" + " from t" == DELETE_T;
  }

  lemma {:induction false} DeleteIsPlain()
    ensures NoWh(")" + (" " + DELETE_T)) && Bare(")" + (" " + DELETE_T)) && ';' !in ")" + (" " + DELETE_T)
  {
  }

  lemma {:induction false} WithStarts(rest: string)
    requires rest != "" && !IsWord(rest[0])
    ensures Says(First("with" + rest), "with", "WITH") && !Asks("with" + rest)
  {
    var s := "with" + rest;
    WordStarts("with", "WITH", rest);
    assert s[0] == 'w' && First(s) == s && SkipBlanks(s) == s && Lower(s[0]) == 'w';
  }

  /** `with x as (select 1) delete from t` */
  lemma {:induction false} WithInput()
    ensures var s := WITH_X + ("(" + ("select 1" + (")" + (" " + DELETE_T)))); Destroys(s) && !NeedsConfirm(s)
  {
    var tail := ")" + (" " + DELETE_T);
    WithFacts();
    DeleteChanges();
    DeleteIsPlain();
    assert Bare("select 1") && ';' !in "select 1" && NoParens("select 1");
    BareCat("select 1", tail);
    BareCat("(", "select 1" + tail);
    BareCat(WITH_X, "(" + ("select 1" + tail));
    Cat("with", " x as ", "(" + ("select 1" + tail));
    WithStarts(" x as " + ("(" + ("select 1" + tail)));
    WithHides(WITH_X, "select 1", DELETE_T);
  }
}
