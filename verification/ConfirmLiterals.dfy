/** A reading of SQL text that knows literals, quoted names and comments, and what of it the confirm
    scanner sees. */
module ConfirmLiterals {
  import opened Text
  import opened Confirm

  predicate IsQuote(c: char) { c == '\'' || c == '"' || c == '`' }

  /** What follows the closing quote; a quote that is never closed runs to the end. A doubled quote
      reads as one token closing and another one opening. */
  function AfterQuote(q: char, s: string): (r: string)
    ensures |r| <= |s|
    ensures r != "" ==> |r| < |s| && s[|s| - |r| - 1] == q
  {
    if s == "" then "" else if s[0] == q then s[1..] else AfterQuote(q, s[1..])
  }

  function Filled(c: char, n: nat): string { seq(n, _ => c) }

  /** The text without its comments: a block comment is a blank, a line comment nothing. */
  function Plain(s: string): string
    decreases |s|
  {
    if s == "" then ""
    else if OpensLine(s) then Plain(DropLine(s[2..]))
    else if OpensBlock(s) then
      match AfterClose(s[2..])
      case None => ""
      case Some(r) => " " + Plain(r)
    else if IsQuote(s[0]) then
      var r := AfterQuote(s[0], s[1..]);
      s[..|s| - |r|] + Plain(r)
    else [s[0]] + Plain(s[1..])
  }

  /** The same with every character of a literal or quoted name replaced by its quote, so that
      what is left between semicolons are the statements. */
  function Code(s: string): string
    decreases |s|
  {
    if s == "" then ""
    else if OpensLine(s) then Code(DropLine(s[2..]))
    else if OpensBlock(s) then
      match AfterClose(s[2..])
      case None => ""
      case Some(r) => " " + Code(r)
    else if IsQuote(s[0]) then
      var r := AfterQuote(s[0], s[1..]);
      Filled(s[0], |s| - |r|) + Code(r)
    else [s[0]] + Code(s[1..])
  }

  predicate HasOpener(t: string) {
    exists i | 0 <= i < |t| :: OpensBlock(t[i..]) || OpensLine(t[i..])
  }

  predicate HasBlockOpener(t: string) {
    exists i | 0 <= i < |t| :: OpensBlock(t[i..])
  }

  /** No literal or quoted name holds a comment opener, no line comment opens a block comment, and
      every block comment is closed. */
  predicate NoHiddenOpener(s: string)
    decreases |s|
  {
    if s == "" then true
    else if OpensLine(s) then
      var r := DropLine(s[2..]);
      !HasBlockOpener(s[..|s| - |r|]) && NoHiddenOpener(r)
    else if OpensBlock(s) then
      match AfterClose(s[2..])
      case None => false
      case Some(r) => NoHiddenOpener(r)
    else if IsQuote(s[0]) then
      var r := AfterQuote(s[0], s[1..]);
      !HasOpener(s[..|s| - |r|]) && NoHiddenOpener(r)
    else NoHiddenOpener(s[1..])
  }

  // ---- the scanner strips exactly the comments ----

  lemma {:induction false} SkipBlocks(x: string, rest: string)
    requires forall i | 0 <= i < |x| :: !OpensBlock((x + rest)[i..])
    ensures StripBlocks(x + rest) == x + StripBlocks(rest)
  {
    if x == "" {
      assert x + rest == rest;
    } else {
      var s := x + rest;
      assert s[0..] == s && s[0] == x[0] && s[1..] == x[1..] + rest;
      forall i | 0 <= i < |x| - 1 ensures !OpensBlock((x[1..] + rest)[i..]) {
        assert (x[1..] + rest)[i..] == s[i + 1..];
      }
      SkipBlocks(x[1..], rest);
      HeadTail(x);
      Cat([x[0]], x[1..], StripBlocks(rest));
    }
  }

  lemma {:induction false} SkipLines(x: string, rest: string)
    requires forall i | 0 <= i < |x| :: !OpensLine((x + rest)[i..])
    ensures StripLines(x + rest) == x + StripLines(rest)
  {
    if x == "" {
      assert x + rest == rest;
    } else {
      var s := x + rest;
      assert s[0..] == s && s[0] == x[0] && s[1..] == x[1..] + rest;
      forall i | 0 <= i < |x| - 1 ensures !OpensLine((x[1..] + rest)[i..]) {
        assert (x[1..] + rest)[i..] == s[i + 1..];
      }
      SkipLines(x[1..], rest);
      HeadTail(x);
      Cat([x[0]], x[1..], StripLines(rest));
    }
  }

  /** An opener that starts in `x` ends in `x`, unless `x` ends in its first character. */
  lemma {:induction false} OpenersWithin(x: string, rest: string, i: nat)
    requires i < |x| && (rest == "" || (x[|x| - 1] != '/' && x[|x| - 1] != '-') || rest[0] == '\n')
    ensures OpensBlock((x + rest)[i..]) == OpensBlock(x[i..]) && OpensLine((x + rest)[i..]) == OpensLine(x[i..])
  {
    var s := (x + rest)[i..];
    assert s[0] == x[i] && (i + 1 < |x| ==> s[1] == x[i + 1]);
    if i + 1 == |x| && rest != "" { assert s[1] == rest[0]; }
  }

  lemma {:induction false} LiteralSurvives(x: string, rest: string)
    requires !HasOpener(x) && (rest == "" || (x != "" && IsQuote(x[|x| - 1])))
    ensures StripBlocks(x + rest) == x + StripBlocks(rest)
    ensures StripLines(x + StripBlocks(rest)) == x + StripLines(StripBlocks(rest))
  {
    forall i | 0 <= i < |x| ensures !OpensBlock((x + rest)[i..]) { OpenersWithin(x, rest, i); }
    SkipBlocks(x, rest);
    forall i | 0 <= i < |x| ensures !OpensLine((x + StripBlocks(rest))[i..]) { OpenersWithin(x, StripBlocks(rest), i); }
    SkipLines(x, StripBlocks(rest));
  }

  lemma {:induction false} StripBlocksHead(s: string)
    requires s != ""
    ensures StripBlocks(s) != "" && (StripBlocks(s)[0] == s[0] || (StripBlocks(s)[0] == ' ' && s[0] == '/'))
  {
  }

  lemma {:induction false} DropLineHead(s: string)
    ensures DropLine(s) == "" || DropLine(s)[0] == '\n'
    ensures |DropLine(s)| <= |s| && DropLine(s) == s[|s| - |DropLine(s)|..]
    ensures forall i | 0 <= i < |s| - |DropLine(s)| :: s[i] != '\n'
  {
    if s != "" && s[0] != '\n' {
      DropLineHead(s[1..]);
      var n := |s| - |DropLine(s)|;
      assert s[1..][n - 1..] == s[n..];
      forall i | 0 <= i < n ensures s[i] != '\n' {
        if i > 0 { assert s[1..][i - 1] == s[i]; }
      }
    }
  }

  lemma {:induction false} DropLineOver(x: string, rest: string)
    requires (forall i | 0 <= i < |x| :: x[i] != '\n') && (rest == "" || rest[0] == '\n')
    ensures DropLine(x + rest) == rest
  {
    if x == "" {
      assert x + rest == rest;
    } else {
      assert (x + rest)[0] == x[0] && (x + rest)[1..] == x[1..] + rest;
      DropLineOver(x[1..], rest);
    }
  }

  lemma {:induction false} CommentLineGoes(x: string, rest: string)
    requires OpensLine(x) && !HasBlockOpener(x) && (forall i | 0 <= i < |x| :: x[i] != '\n') && (rest == "" || rest[0] == '\n')
    ensures StripLines(StripBlocks(x + rest)) == StripLines(StripBlocks(rest))
  {
    forall i | 0 <= i < |x| ensures !OpensBlock((x + rest)[i..]) { OpenersWithin(x, rest, i); }
    SkipBlocks(x, rest);
    var t := StripBlocks(rest);
    if rest != "" { StripBlocksHead(rest); }
    var all := x + t;
    assert all[0] == x[0] && all[1] == x[1] && all[2..] == x[2..] + t;
    forall i | 0 <= i < |x[2..]| ensures x[2..][i] != '\n' { assert x[2..][i] == x[i + 2]; }
    DropLineOver(x[2..], t);
  }

  lemma {:induction false} CodeCharStays(s: string)
    requires s != "" && !OpensLine(s) && !OpensBlock(s)
    ensures StripBlocks(s) == [s[0]] + StripBlocks(s[1..])
    ensures StripLines(StripBlocks(s)) == [s[0]] + StripLines(StripBlocks(s[1..]))
  {
    var t := StripBlocks(s[1..]);
    var all := [s[0]] + t;
    if |s| > 1 { StripBlocksHead(s[1..]); }
    assert all[1..] == t && !OpensLine(all);
  }

  lemma {:induction false} BlockCase(s: string)
    requires OpensBlock(s) && AfterClose(s[2..]).Some?
    ensures StripLines(StripBlocks(s)) == " " + StripLines(StripBlocks(AfterClose(s[2..]).value))
  {
    var t := StripBlocks(AfterClose(s[2..]).value);
    assert (" " + t)[1..] == t;
  }

  lemma {:induction false} TailSplit(s: string, r: string, k: nat)
    requires k <= |s| && |r| <= |s| - k && r == s[k..][|s| - k - |r|..]
    ensures s == s[..|s| - |r|] + r
  {
    assert s[k..][|s| - k - |r|..] == s[|s| - |r|..];
  }

  lemma {:induction false} LineText(s: string)
    requires OpensLine(s)
    ensures var r := DropLine(s[2..]); var x := s[..|s| - |r|];
            && s == x + r && OpensLine(x) && (forall i | 0 <= i < |x| :: x[i] != '\n') && (r == "" || r[0] == '\n')
  {
    var r := DropLine(s[2..]);
    DropLineHead(s[2..]);
    TailSplit(s, r, 2);
    forall i | 0 <= i < |s| - |r| ensures s[i] != '\n' {
      if i >= 2 { assert s[2..][i - 2] == s[i]; }
    }
  }

  lemma {:induction false} LineCase(s: string)
    requires NoHiddenOpener(s) && OpensLine(s)
    ensures StripLines(StripBlocks(s)) == StripLines(StripBlocks(DropLine(s[2..])))
  {
    var r := DropLine(s[2..]);
    LineText(s);
    CommentLineGoes(s[..|s| - |r|], r);
  }

  lemma {:induction false} AfterQuoteTail(q: char, s: string)
    ensures AfterQuote(q, s) == s[|s| - |AfterQuote(q, s)|..]
  {
    if s != "" && s[0] != q {
      AfterQuoteTail(q, s[1..]);
      var n := |s| - |AfterQuote(q, s)|;
      assert s[1..][n - 1..] == s[n..];
    }
  }

  lemma {:induction false} QuoteText(s: string)
    requires s != "" && IsQuote(s[0])
    ensures var r := AfterQuote(s[0], s[1..]); var x := s[..|s| - |r|];
            s == x + r && x != "" && x[0] == s[0] && (r == "" || x[|x| - 1] == s[0])
  {
    var r := AfterQuote(s[0], s[1..]);
    AfterQuoteTail(s[0], s[1..]);
    TailSplit(s, r, 1);
    if r != "" { assert s[1..][|s| - 1 - |r| - 1] == s[|s| - |r| - 1]; }
  }

  lemma {:induction false} QuoteCase(s: string)
    requires NoHiddenOpener(s) && s != "" && IsQuote(s[0])
    ensures var r := AfterQuote(s[0], s[1..]);
            StripLines(StripBlocks(s)) == s[..|s| - |r|] + StripLines(StripBlocks(r))
  {
    var r := AfterQuote(s[0], s[1..]);
    var x := s[..|s| - |r|];
    QuoteText(s);
    LiteralSurvives(x, r);
  }

  predicate SeesPlain(s: string) { StripLines(StripBlocks(s)) == Plain(s) }

  lemma {:induction false} LineSeen(s: string)
    requires NoHiddenOpener(s) && OpensLine(s) && (NoHiddenOpener(DropLine(s[2..])) ==> SeesPlain(DropLine(s[2..])))
    ensures SeesPlain(s)
  {
    LineCase(s);
  }

  lemma {:induction false} BlockSeen(s: string)
    requires NoHiddenOpener(s) && OpensBlock(s) && AfterClose(s[2..]).Some?
    requires NoHiddenOpener(AfterClose(s[2..]).value) ==> SeesPlain(AfterClose(s[2..]).value)
    ensures SeesPlain(s)
  {
    BlockCase(s);
  }

  lemma {:induction false} QuoteSeen(s: string)
    requires NoHiddenOpener(s) && s != "" && IsQuote(s[0])
    requires var r := AfterQuote(s[0], s[1..]); NoHiddenOpener(r) ==> SeesPlain(r)
    ensures SeesPlain(s)
  {
    QuoteCase(s);
  }

  lemma {:induction false} CodeSeen(s: string)
    requires NoHiddenOpener(s) && s != "" && !OpensLine(s) && !OpensBlock(s) && !IsQuote(s[0])
    requires NoHiddenOpener(s[1..]) ==> SeesPlain(s[1..])
    ensures SeesPlain(s)
  {
    CodeCharStays(s);
  }

  lemma {:induction false} ClosedBlock(s: string)
    requires NoHiddenOpener(s) && OpensBlock(s)
    ensures AfterClose(s[2..]).Some?
  {
  }

  /** Without hidden openers, the two replacement passes remove the comments and nothing else. */
  lemma {:induction false} ScannerSeesPlain(s: string)
    requires NoHiddenOpener(s)
    ensures SeesPlain(s)
    decreases |s|
  {
    if s == "" {
    } else if OpensLine(s) {
      var r := DropLine(s[2..]);
      if NoHiddenOpener(r) { ScannerSeesPlain(r); }
      LineSeen(s);
    } else if OpensBlock(s) {
      ClosedBlock(s);
      var r := AfterClose(s[2..]).value;
      if NoHiddenOpener(r) { ScannerSeesPlain(r); }
      BlockSeen(s);
    } else if IsQuote(s[0]) {
      var r := AfterQuote(s[0], s[1..]);
      if NoHiddenOpener(r) { ScannerSeesPlain(r); }
      QuoteSeen(s);
    } else {
      if NoHiddenOpener(s[1..]) { ScannerSeesPlain(s[1..]); }
      CodeSeen(s);
    }
  }

  // ---- literals against their masks ----

  /** Position `i` lies strictly inside a literal or quoted name. */
  predicate Hides(v: string, i: nat)
    requires i < |v|
  {
    IsQuote(v[i]) && i > 0 && v[i - 1] == v[i] && (i + 1 < |v| ==> v[i + 1] == v[i])
  }

  predicate Covers(u: string, v: string) {
    |u| == |v| && forall i | 0 <= i < |u| && u[i] != v[i] :: Hides(v, i)
  }

  lemma {:induction false} CoversConcat(x: string, y: string, u: string, v: string)
    requires Covers(x, y) && Covers(u, v) && (u == "" || x == "" || x[|x| - 1] == y[|y| - 1])
    ensures Covers(x + u, y + v)
  {
    var a, b := x + u, y + v;
    forall i | 0 <= i < |a| && a[i] != b[i] ensures Hides(b, i) {
      if i < |x| {
        assert Hides(y, i);
      } else {
        assert a[i] == u[i - |x|] && b[i] == v[i - |x|];
        assert Hides(v, i - |x|);
      }
    }
  }

  lemma {:induction false} LiteralCovered(x: string, q: char, closed: bool)
    requires x != "" && IsQuote(q) && x[0] == q && (closed ==> x[|x| - 1] == q)
    ensures Covers(x, Filled(q, |x|))
  {
  }

  /** Code and plain text differ inside literals only. */
  lemma {:induction false} CodeCovers(s: string)
    ensures Covers(Plain(s), Code(s))
    decreases |s|
  {
    if s == "" {
    } else if OpensLine(s) {
      CodeCovers(DropLine(s[2..]));
    } else if OpensBlock(s) {
      if AfterClose(s[2..]).Some? {
        var r := AfterClose(s[2..]).value;
        CodeCovers(r);
        CoversConcat(" ", " ", Plain(r), Code(r));
      }
    } else if IsQuote(s[0]) {
      var r := AfterQuote(s[0], s[1..]);
      var x := s[..|s| - |r|];
      QuoteText(s);
      CodeCovers(r);
      LiteralCovered(x, s[0], r != "");
      if r == "" { assert Plain(r) == ""; }
      CoversConcat(x, Filled(s[0], |x|), Plain(r), Code(r));
    } else {
      CodeCovers(s[1..]);
      CoversConcat([s[0]], [s[0]], Plain(s[1..]), Code(s[1..]));
    }
  }

  /** After a character of code the two texts still agree. */
  lemma {:induction false} CoversTail(u: string, v: string, k: nat)
    requires Covers(u, v) && k <= |u| && (0 < k < |u| ==> u[k] == v[k])
    ensures Covers(u[k..], v[k..])
  {
    var a, b := u[k..], v[k..];
    forall i | 0 <= i < |a| && a[i] != b[i] ensures Hides(b, i) {
      assert Hides(v, i + k);
    }
  }

  lemma {:induction false} SkipCovers(x: string, y: string)
    requires Covers(x, y)
    ensures Covers(SkipBlanks(x), SkipBlanks(y))
  {
    if x != "" {
      assert x[0] == y[0];
      if IsBlank(x[0]) {
        assert |x| > 1 ==> x[1] == y[1];
        CoversTail(x, y, 1);
        SkipCovers(x[1..], y[1..]);
      }
    }
  }

  predicate Letters(word: string) { word != "" && forall i | 0 <= i < |word| :: 'a' <= word[i] <= 'z' }

  lemma {:induction false} SameLetters(x: string, y: string, word: string, n: nat)
    requires Covers(x, y) && Letters(word) && n <= |word| <= |x|
    requires forall i | 0 <= i < |word| :: Lower(x[i]) == word[i]
    ensures forall i | 0 <= i < n :: x[i] == y[i]
  {
    if n > 0 {
      SameLetters(x, y, word, n - 1);
      if n > 1 { assert Lower(y[n - 2]) == word[n - 2]; }
    }
  }

  lemma {:induction false} SameStart(x: string, y: string, word: string)
    requires Covers(x, y) && Letters(word)
    ensures StartsWith(x, word) == StartsWith(y, word)
  {
    if StartsWith(x, word) {
      SameLetters(x, y, word, |word|);
      var k := |word| - 1;
      assert Lower(y[k]) == word[k];
      assert |x| > |word| ==> x[|word|] == y[|word|];
    }
    if StartsWith(y, word) {
      forall i | 0 <= i < |word| ensures x[i] == y[i] { assert Lower(y[i]) == word[i]; }
      var k := |word| - 1;
      assert Lower(y[k]) == word[k];
      assert |x| > |word| ==> x[|word|] == y[|word|];
    }
  }

  lemma {:induction false} SameVerb(x: string, y: string)
    requires Covers(x, y)
    ensures Destructive(x) == Destructive(y) && DeletesOrUpdates(x) == DeletesOrUpdates(y)
  {
    SkipCovers(x, y);
    var a, b := SkipBlanks(x), SkipBlanks(y);
    SameStart(a, b, "drop");
    SameStart(a, b, "truncate");
    SameStart(a, b, "delete");
    SameStart(a, b, "update");
  }

  lemma {:induction false} WhereStays(x: string, y: string, w: nat)
    requires Covers(x, y) && w < |x| && x[w] == y[w] && !IsQuote(y[w])
    ensures WhereAt(x, w) == WhereAt(y, w)
  {
    CoversTail(x, y, w);
    SameStart(x[w..], y[w..], "where");
    assert w > 0 ==> x[w - 1] == y[w - 1];
  }

  lemma {:induction false} WhereStartsWithW(x: string, w: nat)
    requires w < |x| && WhereAt(x, w)
    ensures !IsQuote(x[w])
  {
    assert x[w..][0] == x[w] && Lower(x[w..][0]) == "where"[0];
  }

  /** The word WHERE stands inside a literal or quoted name. */
  predicate HiddenWhere(u: string, v: string) {
    exists w | 0 <= w < |u| && w < |v| :: u[w] != v[w] && WhereAt(u, w)
  }

  /** A WHERE in the code is in the plain text; one in the plain text is in the code or in a literal. */
  lemma {:induction false} WhereInPlain(x: string, y: string)
    requires Covers(x, y)
    ensures HasWhere(x) <==> HasWhere(y) || HiddenWhere(x, y)
  {
    forall w | 0 <= w < |x| && x[w] == y[w] ensures WhereAt(x, w) == WhereAt(y, w) {
      if WhereAt(x, w) { WhereStartsWithW(x, w); }
      if WhereAt(y, w) { WhereStartsWithW(y, w); }
      if !IsQuote(y[w]) { WhereStays(x, y, w); }
    }
    forall w | 0 <= w < |y| && WhereAt(y, w) ensures x[w] == y[w] { WhereStartsWithW(y, w); }
  }

  /** One statement: the scanner sees the same verb, and takes a WHERE in a literal for a filter. */
  lemma {:induction false} OneVerdict(x: string, y: string)
    requires Covers(x, y)
    ensures Asks(x) <==> Destructive(y) || (DeletesOrUpdates(y) && !HasWhere(y) && !HiddenWhere(x, y))
  {
    SameVerb(x, y);
    WhereInPlain(x, y);
  }

  // ---- statements by position ----

  /** The text between two semicolons. */
  predicate IsPiece(t: string, i: nat, j: nat) {
    && i <= j <= |t| && (i == 0 || t[i - 1] == ';') && (j == |t| || t[j] == ';')
    && forall k | i <= k < j :: t[k] != ';'
  }

  lemma {:induction false} PieceAsks(t: string, i: nat, j: nat)
    requires IsPiece(t, i, j) && Asks(t[i..j])
    ensures AnyAsks(Split(t, ';'))
  {
    if i > 0 {
      assert t == t[..i - 1] + [';'] + t[i..];
      SplitAtSeparator(t[..i - 1], ';', t[i..]);
      AnyAsksConcat(Split(t[..i - 1], ';'), Split(t[i..], ';'));
    } else {
      assert t[i..] == t;
    }
    assert t[i..][..j - i] == t[i..j];
    FirstPieceAsks(t[i..], j - i);
  }

  lemma {:induction false} FirstPieceAsks(t: string, n: nat)
    requires IsPiece(t, 0, n) && Asks(t[..n])
    ensures AnyAsks(Split(t, ';'))
  {
    SplitWhole(t[..n], ';');
    if n < |t| {
      assert t == t[..n] + [';'] + t[n + 1..];
      SplitAtSeparator(t[..n], ';', t[n + 1..]);
      AnyAsksConcat([t[..n]], Split(t[n + 1..], ';'));
    } else {
      assert t[..n] == t;
    }
    assert [t[..n]][0] == t[..n];
  }

  lemma {:induction false} SplitFirst(t: string)
    ensures var n := |Split(t, ';')[0]|;
            && n <= |t| && IsPiece(t, 0, n)
            && Split(t, ';') == [t[..n]] + if n < |t| then Split(t[n + 1..], ';') else []
  {
    FirstPiece(t);
    PieceFree(t);
    var p := Split(t, ';')[0];
    var n := |p|;
    forall k | 0 <= k < n ensures t[k] != ';' { assert p[k] in p; }
    SplitWhole(p, ';');
    if n < |t| {
      assert t == p + [';'] + t[n + 1..];
      SplitAtSeparator(p, ';', t[n + 1..]);
    } else {
      assert t == p;
    }
  }

  lemma {:induction false} SameAsks(x: string, y: string)
    requires x == y && Asks(y)
    ensures Asks(x)
  {
  }

  lemma {:induction false} LaterAsks(t: string, n: nat)
    requires AnyAsks(Split(t, ';')) && n == |Split(t, ';')[0]| && n <= |t| && !Asks(t[..n])
    ensures n < |t| && AnyAsks(Split(t[n + 1..], ';'))
  {
    SplitFirst(t);
    NotAsking(t[..n]);
    AnyAsksConcat([t[..n]], if n < |t| then Split(t[n + 1..], ';') else []);
  }

  lemma {:induction false} AskingPiece(t: string) returns (i: nat, j: nat)
    requires AnyAsks(Split(t, ';'))
    ensures IsPiece(t, i, j) && Asks(t[i..j])
    decreases |t|
  {
    SplitFirst(t);
    var n := |Split(t, ';')[0]|;
    if Asks(t[..n]) {
      i, j := 0, n;
      assert t[0..n] == t[..n];
    } else {
      LaterAsks(t, n);
      var k := n + 1;
      var a, b := AskingPiece(t[k..]);
      ShiftPiece(t, k, a, b);
      i, j := a + k, b + k;
      SameAsks(t[i..j], t[k..][a..b]);
    }
  }

  lemma {:induction false} NotAsking(p: string)
    requires !Asks(p)
    ensures !AnyAsks([p])
  {
    assert [p][0] == p && [p][1..] == [];
  }

  lemma {:induction false} ShiftPiece(t: string, n: nat, a: nat, b: nat)
    requires 0 < n <= |t| && t[n - 1] == ';' && IsPiece(t[n..], a, b)
    ensures IsPiece(t, a + n, b + n) && t[a + n..b + n] == t[n..][a..b]
  {
    forall k | a + n <= k < b + n ensures t[k] != ';' { assert t[n..][k - n] == t[k]; }
    if a > 0 { assert t[n..][a - 1] == t[a + n - 1]; }
    if b < |t[n..]| { assert t[n..][b] == t[b + n]; }
  }

  lemma {:induction false} PieceCovers(u: string, v: string, i: nat, j: nat)
    requires Covers(u, v) && IsPiece(v, i, j)
    ensures Covers(u[i..j], v[i..j])
    ensures i == 0 || u[i - 1] == ';'
    ensures j == |u| || u[j] == ';'
  {
    var a, b := u[i..j], v[i..j];
    forall k | 0 <= k < |a| && a[k] != b[k] ensures Hides(b, k) {
      assert Hides(v, k + i);
    }
  }
}
