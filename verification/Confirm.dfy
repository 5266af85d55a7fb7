/** The confirm scanner: which texts are destructive enough to ask about. */
module Confirm {
  import opened Text

  // ---- the five patterns ----

  /** The text after the first close of a block comment. */
  function AfterClose(s: string): (r: Option<string>)
    ensures r.Some? ==> |r.value| < |s|
  {
    if |s| < 2 then None
    else if s[0] == '*' && s[1] == '/' then Some(s[2..])
    else AfterClose(s[1..])
  }

  predicate OpensBlock(s: string) { |s| >= 2 && s[0] == '/' && s[1] == '*' }

  /** Every closed block comment becomes one blank; an unclosed one stays. */
  function StripBlocks(s: string): string
    decreases |s|
  {
    if s == "" then ""
    else if OpensBlock(s) && AfterClose(s[2..]).Some? then " " + StripBlocks(AfterClose(s[2..]).value)
    else [s[0]] + StripBlocks(s[1..])
  }

  function DropLine(s: string): (r: string)
    ensures |r| <= |s|
  {
    if s == "" || s[0] == '\n' then s else DropLine(s[1..])
  }

  predicate OpensLine(s: string) { |s| >= 2 && s[0] == '-' && s[1] == '-' }

  function StripLines(s: string): string
    decreases |s|
  {
    if s == "" then ""
    else if OpensLine(s) then StripLines(DropLine(s[2..]))
    else [s[0]] + StripLines(s[1..])
  }

  /** White space as the regular expressions of the server see it. */
  predicate IsBlank(c: char) { c == '\t' || c == '\n' || c == '\U{0C}' || c == '\r' || c == ' ' }

  predicate IsWord(c: char) { '0' <= c <= '9' || 'A' <= c <= 'Z' || 'a' <= c <= 'z' || c == '_' }

  function Lower(c: char): char { if 'A' <= c <= 'Z' then c + ('a' - 'A') else c }

  /** `s` starts with the word, in any case, and the word ends there. */
  predicate StartsWith(s: string, word: string) {
    && |s| >= |word|
    && (forall i | 0 <= i < |word| :: Lower(s[i]) == word[i])
    && (|s| > |word| ==> !IsWord(s[|word|]))
  }

  function SkipBlanks(s: string): string {
    if s != "" && IsBlank(s[0]) then SkipBlanks(s[1..]) else s
  }

  predicate Destructive(s: string) {
    var t := SkipBlanks(s); StartsWith(t, "drop") || StartsWith(t, "truncate")
  }

  predicate DeletesOrUpdates(s: string) {
    var t := SkipBlanks(s); StartsWith(t, "delete") || StartsWith(t, "update")
  }

  /** The word occurs somewhere, not inside a longer word. */
  predicate HasWhere(s: string) {
    exists i | 0 <= i < |s| :: WhereAt(s, i)
  }

  predicate WhereAt(s: string, i: nat)
    requires i < |s|
  {
    (i == 0 || !IsWord(s[i - 1])) && StartsWith(s[i..], "where")
  }

  predicate Asks(stmt: string) {
    Destructive(stmt) || (DeletesOrUpdates(stmt) && !HasWhere(stmt))
  }

  predicate AnyAsks(parts: seq<string>) {
    parts != [] && (Asks(parts[0]) || AnyAsks(parts[1..]))
  }

  predicate NeedsConfirm(sql: string) {
    AnyAsks(Split(StripLines(StripBlocks(sql)), ';'))
  }

  // ---- statement by statement ----

  /** `a` ends inside a block comment. */
  predicate OpenBlock(a: string)
    decreases |a|
  {
    if a == "" then false
    else if OpensBlock(a) then
      match AfterClose(a[2..])
      case None => true
      case Some(r) => OpenBlock(r)
    else OpenBlock(a[1..])
  }

  /** `a` ends inside a line comment. */
  predicate OpenLine(a: string)
    decreases |a|
  {
    if a == "" then false
    else if OpensLine(a) then DropLine(a[2..]) == "" || OpenLine(DropLine(a[2..]))
    else OpenLine(a[1..])
  }

  lemma {:induction false} AfterCloseCat(a: string, b: string)
    requires AfterClose(a).Some?
    ensures AfterClose(a + b) == Some(AfterClose(a).value + b)
  {
    assert (a + b)[0] == a[0] && (a + b)[1] == a[1];
    if a[0] == '*' && a[1] == '/' {
      assert (a + b)[2..] == a[2..] + b;
    } else {
      assert (a + b)[1..] == a[1..] + b;
      AfterCloseCat(a[1..], b);
    }
  }

  /** Nothing that is closed in `a` depends on what follows the semicolon. */
  lemma {:induction false} StripBlocksCat(a: string, b: string)
    requires !OpenBlock(a)
    ensures StripBlocks(a + (";" + b)) == StripBlocks(a) + (";" + StripBlocks(b))
    decreases |a|
  {
    var tail := ";" + b;
    if a == "" {
      assert a + tail == tail && tail[1..] == b;
    } else if OpensBlock(a) {
      var r := AfterClose(a[2..]).value;
      assert (a + tail)[2..] == a[2..] + tail;
      AfterCloseCat(a[2..], tail);
      StripBlocksCat(r, b);
      Cat(" ", StripBlocks(r), ";" + StripBlocks(b));
    } else {
      assert (a + tail)[0] == a[0] && (|a| == 1 ==> (a + tail)[1] == ';');
      assert (a + tail)[1..] == a[1..] + tail;
      StripBlocksCat(a[1..], b);
      Cat([a[0]], StripBlocks(a[1..]), ";" + StripBlocks(b));
    }
  }

  lemma {:induction false} DropLineCat(a: string, b: string)
    requires DropLine(a) != ""
    ensures DropLine(a + b) == DropLine(a) + b
  {
    assert (a + b)[0] == a[0] && (a + b)[1..] == a[1..] + b;
    if a[0] != '\n' { DropLineCat(a[1..], b); }
  }

  lemma {:induction false} StripLinesCat(a: string, b: string)
    requires !OpenLine(a)
    ensures StripLines(a + (";" + b)) == StripLines(a) + (";" + StripLines(b))
    decreases |a|
  {
    var tail := ";" + b;
    if a == "" {
      assert a + tail == tail && tail[1..] == b;
    } else if OpensLine(a) {
      assert (a + tail)[2..] == a[2..] + tail;
      DropLineCat(a[2..], tail);
      StripLinesCat(DropLine(a[2..]), b);
    } else {
      assert (a + tail)[0] == a[0] && (|a| == 1 ==> (a + tail)[1] == ';');
      assert (a + tail)[1..] == a[1..] + tail;
      StripLinesCat(a[1..], b);
      Cat([a[0]], StripLines(a[1..]), ";" + StripLines(b));
    }
  }

  lemma {:induction false} AnyAsksConcat(p: seq<string>, q: seq<string>)
    ensures AnyAsks(p + q) == (AnyAsks(p) || AnyAsks(q))
  {
    if p == [] {
      assert p + q == q;
    } else {
      assert (p + q)[1..] == p[1..] + q;
      AnyAsksConcat(p[1..], q);
    }
  }

  /** Two texts with a semicolon between need a confirmation exactly when one of them does:
      whatever `b` is, as long as `a` does not end inside a comment. */
  lemma {:induction false} ConfirmIsPerStatement(a: string, b: string)
    requires !OpenBlock(a) && !OpenLine(StripBlocks(a))
    ensures NeedsConfirm(a + (";" + b)) == (NeedsConfirm(a) || NeedsConfirm(b))
  {
    StripBlocksCat(a, b);
    StripLinesCat(StripBlocks(a), StripBlocks(b));
    var x, y := StripLines(StripBlocks(a)), StripLines(StripBlocks(b));
    SplitAtSeparator(x, ';', y);
    Cat(x, ";", y);
    AnyAsksConcat(Split(x, ';'), Split(y, ';'));
  }

  predicate CommentFree(s: string) {
    forall i | 0 <= i < |s| :: !OpensBlock(s[i..]) && !OpensLine(s[i..])
  }

  lemma {:induction false} CommentFreeIsClosed(s: string)
    requires CommentFree(s)
    ensures StripBlocks(s) == s && StripLines(s) == s && !OpenBlock(s) && !OpenLine(s)
  {
    if s != "" {
      assert s[0..] == s;
      forall i | 0 <= i < |s| - 1 ensures !OpensBlock(s[1..][i..]) && !OpensLine(s[1..][i..]) {
        assert s[1..][i..] == s[i + 1..];
      }
      CommentFreeIsClosed(s[1..]);
      HeadTail(s);
    }
  }

  /** In particular when `a` holds no comment at all. */
  lemma {:induction false} CommentFreeStatements(a: string, b: string)
    requires CommentFree(a)
    ensures NeedsConfirm(a + (";" + b)) == (NeedsConfirm(a) || NeedsConfirm(b))
  {
    CommentFreeIsClosed(a);
    ConfirmIsPerStatement(a, b);
  }

  // ---- a comment in front ----

  lemma {:induction false} FirstClose(c: string, s: string)
    requires AfterClose(c).None?
    ensures AfterClose(c + ("*/" + s)) == Some(s)
  {
    var t := c + ("*/" + s);
    if c == "" {
      assert t[0] == '*' && t[1] == '/' && t[2..] == s;
    } else {
      assert t[0] == c[0] && t[1] == if |c| == 1 then '*' else c[1];
      assert t[1..] == c[1..] + ("*/" + s);
      FirstClose(c[1..], s);
    }
  }

  lemma {:induction false} WhereShifted(p: string, i: nat)
    requires i < |p|
    ensures WhereAt(" " + p, i + 1) == WhereAt(p, i)
  {
    var s := " " + p;
    assert s[i + 1..] == p[i..] && s[i] == if i == 0 then ' ' else p[i - 1];
  }

  lemma {:induction false} HasWherePadded(p: string)
    ensures HasWhere(" " + p) == HasWhere(p)
  {
    var s := " " + p;
    if HasWhere(p) {
      var i :| 0 <= i < |p| && WhereAt(p, i);
      WhereShifted(p, i);
      assert WhereAt(s, i + 1);
    }
    if HasWhere(s) {
      var i :| 0 <= i < |s| && WhereAt(s, i);
      assert s[0..][0] == ' ' && Lower(' ') != 'w';
      WhereShifted(p, i - 1);
    }
  }

  /** A leading blank changes nothing about a statement. */
  lemma {:induction false} AsksPadded(p: string)
    ensures Asks(" " + p) == Asks(p)
  {
    assert (" " + p)[1..] == p;
    HasWherePadded(p);
  }

  /** Putting any closed block comment in front of any text never changes the verdict. */
  lemma {:induction false} LeadingCommentChangesNothing(c: string, s: string)
    requires AfterClose(c).None?
    ensures NeedsConfirm("/*" + (c + ("*/" + s))) == NeedsConfirm(s)
  {
    var all := "/*" + (c + ("*/" + s));
    assert all[2..] == c + ("*/" + s);
    FirstClose(c, s);
    var t := StripBlocks(s);
    assert StripBlocks(all) == " " + t;
    assert (" " + t)[1..] == t;
    assert StripLines(" " + t) == " " + StripLines(t);
    var u := StripLines(t);
    var parts := Split(u, ';');
    assert (" " + u)[1..] == u;
    assert Split(" " + u, ';') == [" " + parts[0]] + parts[1..];
    AsksPadded(parts[0]);
  }

  // ---- splitting ignores string literals, and so may only ask too often ----

  lemma {:induction false} FirstPiece(s: string)
    ensures var p := Split(s, ';')[0]; |p| <= |s| && p == s[..|p|] && (|p| < |s| ==> s[|p|] == ';')
  {
    if s != "" && s[0] != ';' {
      FirstPiece(s[1..]);
      var p := Split(s[1..], ';')[0];
      assert [s[0]] + p == s[..|p| + 1];
    }
  }

  lemma {:induction false} StartsWithPiece(s: string, n: nat, word: string)
    requires n <= |s| && (n < |s| ==> s[n] == ';') && forall i | 0 <= i < |word| :: Lower(';') != word[i]
    requires StartsWith(s, word) && forall i | 0 <= i < n :: s[i] != ';'
    ensures StartsWith(s[..n], word)
  {
    assert |word| <= n;
  }

  lemma {:induction false} StartsWithWhole(s: string, n: nat, word: string)
    requires n <= |s| && (n < |s| ==> s[n] == ';') && StartsWith(s[..n], word)
    ensures StartsWith(s, word)
  {
    assert forall i | 0 <= i < |word| :: s[..n][i] == s[i];
    if n > |word| { assert s[..n][|word|] == s[|word|]; }
  }

  lemma {:induction false} WherePiece(s: string, n: nat)
    requires n <= |s| && (n < |s| ==> s[n] == ';') && HasWhere(s[..n])
    ensures HasWhere(s)
  {
    var p := s[..n];
    var i :| 0 <= i < |p| && WhereAt(p, i);
    assert p[i..] == s[i..][..n - i];
    assert n < |s| ==> s[i..][n - i] == s[n];
    StartsWithWhole(s[i..], n - i, "where");
    assert i > 0 ==> p[i - 1] == s[i - 1];
    assert WhereAt(s, i);
  }

  lemma {:induction false} SkipBlanksPiece(s: string, n: nat)
    requires n <= |s| && (n < |s| ==> s[n] == ';') && forall i | 0 <= i < n :: s[i] != ';'
    ensures var t := SkipBlanks(s); var m := n - (|s| - |t|);
            0 <= m <= |t| && SkipBlanks(s[..n]) == t[..m] && (m < |t| ==> t[m] == ';') && forall i | 0 <= i < m :: t[i] != ';'
    decreases |s|
  {
    if s != "" && IsBlank(s[0]) {
      assert n > 0 && s[..n][1..] == s[1..][..n - 1];
      SkipBlanksPiece(s[1..], n - 1);
    } else if n == 0 {
      assert s[..0] == "";
    } else {
      assert s[..n][0] == s[0];
    }
  }

  lemma {:induction false} PieceFree(s: string)
    ensures ';' !in Split(s, ';')[0]
  {
    if s != "" && s[0] != ';' { PieceFree(s[1..]); }
  }

  lemma {:induction false} KeywordPiece(s: string, n: nat, word: string)
    requires n <= |s| && (n < |s| ==> s[n] == ';') && forall i | 0 <= i < n :: s[i] != ';'
    requires ';' !in word && StartsWith(SkipBlanks(s), word)
    ensures StartsWith(SkipBlanks(s[..n]), word)
  {
    SkipBlanksPiece(s, n);
    var t := SkipBlanks(s);
    forall i | 0 <= i < |word| ensures word[i] != ';' { assert word[i] in word; }
    StartsWithPiece(t, n - (|s| - |t|), word);
  }

  /** A statement that asks still asks when it is cut at its first semicolon. */
  lemma {:induction false} AsksPiece(s: string, n: nat)
    requires n <= |s| && (n < |s| ==> s[n] == ';') && forall i | 0 <= i < n :: s[i] != ';'
    requires Asks(s)
    ensures Asks(s[..n])
  {
    if HasWhere(s[..n]) { WherePiece(s, n); }
    if StartsWith(SkipBlanks(s), "drop") { KeywordPiece(s, n, "drop"); }
    else if StartsWith(SkipBlanks(s), "truncate") { KeywordPiece(s, n, "truncate"); }
    else if StartsWith(SkipBlanks(s), "delete") { KeywordPiece(s, n, "delete"); }
    else { KeywordPiece(s, n, "update"); }
  }

  /** A text that would ask if it were one statement asks when it is cut at its semicolons. */
  lemma {:induction false} SplittingOnlyOverAsks(s: string)
    requires CommentFree(s) && Asks(s)
    ensures NeedsConfirm(s)
  {
    CommentFreeIsClosed(s);
    FirstPiece(s);
    PieceFree(s);
    var p := Split(s, ';')[0];
    forall i | 0 <= i < |p| ensures s[i] != ';' { assert p[i] in p; }
    AsksPiece(s, |p|);
  }

  // ---- what is seen ----

  /** A single statement without comments is judged as it stands. */
  lemma {:induction false} OneStatement(s: string)
    requires CommentFree(s) && ';' !in s
    ensures NeedsConfirm(s) == Asks(s)
  {
    CommentFreeIsClosed(s);
    SplitWhole(s, ';');
    assert [s][0] == s && [s][1..] == [] && !AnyAsks([]);
    assert AnyAsks([s]) == Asks(s);
  }

  lemma {:induction false} KeywordAfterBlanks(w: string, word: string, rest: string)
    requires (forall i | 0 <= i < |w| :: IsBlank(w[i])) && word != "" && forall i | 0 <= i < |word| :: 'a' <= word[i] <= 'z'
    requires rest == "" || !IsWord(rest[0])
    ensures StartsWith(SkipBlanks(w + (word + rest)), word)
  {
    var s := w + (word + rest);
    if w == "" {
      assert s == word + rest && s[0] == word[0];
    } else {
      assert s[0] == w[0] && s[1..] == w[1..] + (word + rest);
      KeywordAfterBlanks(w[1..], word, rest);
    }
  }

  /** A DROP hidden after anything that is not left open in a comment is seen, and so is one
      behind a leading comment. */
  lemma {:induction false} HiddenDropIsSeen(a: string, c: string, w: string, rest: string)
    requires !OpenBlock(a) && !OpenLine(StripBlocks(a)) && AfterClose(c).None?
    requires (forall i | 0 <= i < |w| :: IsBlank(w[i])) && (rest == "" || !IsWord(rest[0]))
    requires CommentFree(w + ("drop" + rest))
    ensures NeedsConfirm(a + (";" + ("/*" + (c + ("*/" + (w + ("drop" + rest)))))))
  {
    var stmt := w + ("drop" + rest);
    KeywordAfterBlanks(w, "drop", rest);
    SplittingOnlyOverAsks(stmt);
    LeadingCommentChangesNothing(c, stmt);
    ConfirmIsPerStatement(a, "/*" + (c + ("*/" + stmt)));
  }

  // ---- why `a` must not end inside a comment ----

  lemma {:induction false} NoBlocks(s: string)
    requires '/' !in s
    ensures StripBlocks(s) == s
  {
    if s != "" {
      NoBlocks(s[1..]);
      HeadTail(s);
    }
  }

  lemma {:induction false} NoLine(s: string)
    requires '\n' !in s
    ensures DropLine(s) == ""
  {
    if s != "" { NoLine(s[1..]); }
  }

  /** An open line comment takes the next statement with it, whatever that is. */
  lemma {:induction false} OpenLineHidesTheRest(b: string)
    requires '/' !in b && '\n' !in b
    ensures OpenLine("--") && !NeedsConfirm("--" + (";" + b))
  {
    var s := "--" + (";" + b);
    NoBlocks(s);
    NoLine(s[2..]);
    NoLine("--"[2..]);
    assert StripLines(s) == "";
    assert Split("", ';') == [""];
    assert !Asks("") && [""][1..] == [];
  }

  // ---- letter case never matters ----

  function LowerAll(s: string): string {
    seq(|s|, i requires 0 <= i < |s| => Lower(s[i]))
  }

  lemma {:induction false} LowerChar(c: char)
    ensures Lower(Lower(c)) == Lower(c) && IsWord(Lower(c)) == IsWord(c) && IsBlank(Lower(c)) == IsBlank(c)
    ensures !IsWord(c) ==> Lower(c) == c
  {
  }

  lemma {:induction false} LowerTail(s: string, k: nat)
    requires k <= |s|
    ensures LowerAll(s)[k..] == LowerAll(s[k..])
  {
  }

  lemma {:induction false} LowerCons(c: char, s: string)
    ensures LowerAll([c] + s) == [Lower(c)] + LowerAll(s)
  {
  }

  lemma {:induction false} AfterCloseLower(s: string)
    ensures AfterClose(LowerAll(s)) ==
            match AfterClose(s) case None => None case Some(r) => Some(LowerAll(r))
  {
    if |s| >= 2 {
      LowerChar(s[0]);
      LowerChar(s[1]);
      LowerTail(s, 1);
      LowerTail(s, 2);
      if !(s[0] == '*' && s[1] == '/') { AfterCloseLower(s[1..]); }
    }
  }

  lemma {:induction false} StripBlocksLower(s: string)
    ensures StripBlocks(LowerAll(s)) == LowerAll(StripBlocks(s))
    decreases |s|
  {
    if s != "" {
      LowerTail(s, 1);
      if OpensBlock(s) {
        LowerTail(s, 2);
        AfterCloseLower(s[2..]);
      }
      if OpensBlock(s) && AfterClose(s[2..]).Some? {
        var r := AfterClose(s[2..]).value;
        StripBlocksLower(r);
        LowerCons(' ', StripBlocks(r));
      } else {
        StripBlocksLower(s[1..]);
        LowerCons(s[0], StripBlocks(s[1..]));
      }
    }
  }

  lemma {:induction false} DropLineLower(s: string)
    ensures DropLine(LowerAll(s)) == LowerAll(DropLine(s))
  {
    if s != "" {
      LowerTail(s, 1);
      if s[0] != '\n' { DropLineLower(s[1..]); }
    }
  }

  lemma {:induction false} StripLinesLower(s: string)
    ensures StripLines(LowerAll(s)) == LowerAll(StripLines(s))
    decreases |s|
  {
    if s != "" {
      LowerTail(s, 1);
      if OpensLine(s) {
        LowerTail(s, 2);
        DropLineLower(s[2..]);
        StripLinesLower(DropLine(s[2..]));
      } else {
        StripLinesLower(s[1..]);
        LowerCons(s[0], StripLines(s[1..]));
      }
    }
  }

  lemma {:induction false} SkipBlanksLower(s: string)
    ensures SkipBlanks(LowerAll(s)) == LowerAll(SkipBlanks(s))
  {
    if s != "" {
      LowerTail(s, 1);
      LowerChar(s[0]);
      if IsBlank(s[0]) { SkipBlanksLower(s[1..]); }
    }
  }

  lemma {:induction false} StartsWithLower(s: string, word: string)
    ensures StartsWith(LowerAll(s), word) == StartsWith(s, word)
  {
    forall i | 0 <= i < |s| ensures Lower(LowerAll(s)[i]) == Lower(s[i]) && IsWord(LowerAll(s)[i]) == IsWord(s[i]) {
      LowerChar(s[i]);
    }
  }

  lemma {:induction false} WhereAtLower(s: string, i: nat)
    requires i < |s|
    ensures WhereAt(LowerAll(s), i) == WhereAt(s, i)
  {
    LowerTail(s, i);
    StartsWithLower(s[i..], "where");
    if i > 0 { LowerChar(s[i - 1]); }
  }

  lemma {:induction false} AsksLower(s: string)
    ensures Asks(LowerAll(s)) == Asks(s)
  {
    SkipBlanksLower(s);
    var t := SkipBlanks(s);
    StartsWithLower(t, "drop");
    StartsWithLower(t, "truncate");
    StartsWithLower(t, "delete");
    StartsWithLower(t, "update");
    forall i | 0 <= i < |s| ensures WhereAt(LowerAll(s), i) == WhereAt(s, i) {
      WhereAtLower(s, i);
    }
  }

  /** Cutting and lowering commute, and no piece changes its verdict. */
  lemma {:induction false} SplitLower(s: string)
    ensures |Split(LowerAll(s), ';')| == |Split(s, ';')|
    ensures forall i | 0 <= i < |Split(s, ';')| :: Split(LowerAll(s), ';')[i] == LowerAll(Split(s, ';')[i])
  {
    if s != "" {
      SplitLower(s[1..]);
      LowerTail(s, 1);
      LowerChar(s[0]);
      LowerCons(s[0], Split(s[1..], ';')[0]);
    }
  }

  lemma {:induction false} AnyAsksLower(p: seq<string>, q: seq<string>)
    requires |p| == |q| && forall i | 0 <= i < |q| :: p[i] == LowerAll(q[i])
    ensures AnyAsks(p) == AnyAsks(q)
  {
    if q != [] {
      AsksLower(q[0]);
      AnyAsksLower(p[1..], q[1..]);
    }
  }

  /** The verdict does not depend on the case of any letter. */
  lemma {:induction false} CaseDoesNotMatter(sql: string)
    ensures NeedsConfirm(LowerAll(sql)) == NeedsConfirm(sql)
  {
    StripBlocksLower(sql);
    var t := StripBlocks(sql);
    StripLinesLower(t);
    SplitLower(StripLines(t));
    AnyAsksLower(Split(LowerAll(StripLines(t)), ';'), Split(StripLines(t), ';'));
  }
}
