/** The text handed to the SQLite driver, the file name the driver reads in it, and what is opened. */
module SqliteDsn {
  import opened Text
  import opened SqlitePath
  import opened SqliteOpen

  const PRAGMAS := "_pragma=busy_timeout(5000)&_pragma=foreign_keys(1)"

  /** An absolute path other than the file system root, as text. */
  function PathText(p: Path): string {
    if p == [] then "" else "/" + (p[0] + PathText(p[1..]))
  }

  function SQLiteDSN(path: string): string { path + ("?" + PRAGMAS) }

  /** The driver takes the text up to the first question mark for the file name, the rest for settings. */
  function FileName(dsn: string): string {
    if dsn == "" || dsn[0] == '?' then "" else [dsn[0]] + FileName(dsn[1..])
  }

  function Settings(dsn: string): string {
    if dsn == "" then "" else if dsn[0] == '?' then dsn[1..] else Settings(dsn[1..])
  }

  /** A creating open of a file name. */
  function OpenName(fs: Files, name: string, links: nat): Option<Path> {
    Opened(Walk(fs, [], Split(name, '/'), links))
  }

  // ---- what the driver reads ----

  predicate NoQuestion(p: Path) {
    forall i | 0 <= i < |p| :: '?' !in p[i]
  }

  /** The path up to its first question mark. */
  function Cut(p: Path): Path {
    if p == [] then [] else if '?' in p[0] then [FileName(p[0])] else [p[0]] + Cut(p[1..])
  }

  lemma {:induction false} FileNameSkip(a: string, b: string)
    requires '?' !in a
    ensures FileName(a + b) == a + FileName(b) && Settings(a + b) == Settings(b)
  {
    if a == "" {
      assert a + b == b;
    } else {
      assert (a + b)[0] == a[0] && (a + b)[1..] == a[1..] + b;
      FileNameSkip(a[1..], b);
      HeadTail(a);
      Cat([a[0]], a[1..], FileName(b));
    }
  }

  lemma {:induction false} FileNameHas(a: string, b: string)
    requires '?' in a
    ensures FileName(a + b) == FileName(a) && '?' !in FileName(a)
    ensures |Settings(a + b)| >= |b|
  {
    assert (a + b)[0] == a[0] && (a + b)[1..] == a[1..] + b;
    if a[0] != '?' {
      assert a == [a[0]] + a[1..];
      FileNameHas(a[1..], b);
    }
  }

  lemma {:induction false} FileNameRead(r: Path, rest: string)
    ensures FileName(PathText(r) + ("?" + rest)) == PathText(Cut(r))
    ensures NoQuestion(r) ==> Settings(PathText(r) + ("?" + rest)) == rest
    ensures !NoQuestion(r) ==> |Settings(PathText(r) + ("?" + rest))| > |rest|
  {
    var tail := "?" + rest;
    if r == [] {
      assert PathText(r) + tail == tail && tail[1..] == rest;
    } else {
      var c, more := r[0], PathText(r[1..]);
      FileNameRead(r[1..], rest);
      Cat("/", c + more, tail);
      Cat(c, more, tail);
      FileNameSkip("/", c + (more + tail));
      assert NoQuestion(r) <==> '?' !in c && NoQuestion(r[1..]) by { assert forall i | 1 <= i < |r| :: r[i] == r[1..][i - 1]; }
      if '?' in c {
        FileNameHas(c, more + tail);
        assert [FileName(c)][1..] == [];
      } else {
        FileNameSkip(c, more + tail);
        assert ([c] + Cut(r[1..]))[1..] == Cut(r[1..]);
      }
    }
  }

  /** The tool's settings are all the settings, if and only if the path holds no question mark. */
  lemma {:induction false} SettingsAreTheTools(r: Path)
    ensures Settings(SQLiteDSN(PathText(r))) == "_pragma=busy_timeout(5000)&_pragma=foreign_keys(1)" <==>
            forall i | 0 <= i < |r| :: '?' !in r[i]
  {
    FileNameRead(r, PRAGMAS);
  }

  lemma {:induction false} CutNoQuestion(r: Path)
    ensures NoQuestion(r) ==> Cut(r) == r
    ensures NoSlash(r) ==> NoSlash(Cut(r))
  {
    if r != [] {
      CutNoQuestion(r[1..]);
      assert forall i | 1 <= i < |r| :: r[i] == r[1..][i - 1];
      FileNamePart(r[0]);
    }
  }

  lemma {:induction false} FileNamePart(c: string)
    ensures '/' !in c ==> '/' !in FileName(c)
  {
    if c != "" { FileNamePart(c[1..]); }
  }

  lemma {:induction false} SplitSlash(t: string)
    ensures Split("/" + t, '/') == [""] + Split(t, '/')
  {
    assert ("/" + t)[1..] == t;
  }

  lemma {:induction false} SplitComponent(c: string, more: string)
    requires '/' !in c && (more == "" || more[0] == '/')
    ensures Split(c + more, '/') == [c] + Split(more, '/')[1..]
  {
    SplitWhole(c, '/');
    if more == "" {
      assert c + more == c;
    } else {
      HeadTail(more);
      SplitSlash(more[1..]);
      assert c + more == c + ['/'] + more[1..];
      SplitAtSeparator(c, '/', more[1..]);
      assert ([""] + Split(more[1..], '/'))[1..] == Split(more[1..], '/');
    }
  }

  lemma {:induction false} SplitText(r: Path)
    requires NoSlash(r)
    ensures Split(PathText(r), '/') == [""] + r
  {
    if r != [] {
      var c, more := r[0], PathText(r[1..]);
      SplitText(r[1..]);
      SplitSlash(c + more);
      SplitComponent(c, more);
      assert ([""] + r[1..])[1..] == r[1..];
      assert [c] + r[1..] == r;
    }
  }

  /** The driver opens what the path up to its first question mark names. */
  lemma {:induction false} DriverOpens(fs: Files, r: Path, links: nat)
    requires Tree(fs) && NoSlash(r)
    ensures OpenName(fs, FileName(SQLiteDSN(PathText(r))), links) == Open(fs, Cut(r), links)
  {
    FileNameRead(r, PRAGMAS);
    CutNoQuestion(r);
    SplitText(Cut(r));
    assert ([""] + Cut(r))[1..] == Cut(r);
  }

  // ---- where that leads ----

  /** The first component with a question mark. */
  function Question(r: Path): nat
    requires !NoQuestion(r)
    ensures Question(r) < |r| && '?' in r[Question(r)] && forall i | 0 <= i < Question(r) :: '?' !in r[i]
  {
    if '?' in r[0] then 0
    else
      assert exists i :: 0 <= i < |r[1..]| && '?' in r[1..][i] by {
        var i :| 0 <= i < |r| && '?' in r[i];
        assert r[1..][i - 1] == r[i];
      }
      1 + Question(r[1..])
  }

  lemma {:induction false} CutIs(r: Path)
    requires !NoQuestion(r)
    ensures Cut(r) == r[..Question(r)] + [FileName(r[Question(r)])]
  {
    var j := Question(r);
    if j > 0 {
      assert r[1..][j - 1] == r[j];
      assert Question(r) == 1 + Question(r[1..]);
      CutIs(r[1..]);
      assert [r[0]] + r[1..][..j - 1] == r[..j];
    }
  }

  function Drop(s: seq<string>, n: nat): seq<string> { if n <= |s| then s[n..] else [] }

  /** The entry `n` of the directory `d`, which is what the cut path names, leads nowhere or below the
      root. `n` may be empty or a dot name. */
  ghost predicate NameStaysInside(fs: Files, root: Path, d: Path, n: string, links: nat) {
    if n == "" || n == "." then |root| < |d|
    else if n == ".." then |root| + 1 < |d|
    else if d + [n] in fs && fs[d + [n]].Link? then
      var o := Follow(fs, d, fs[d + [n]], [], links); o.None? || Inside(root, o.value)
    else |root| <= |d|
  }

  /** What makes an accepted path safe to open. Without a question mark: no link at the first
      unresolved component, or one that leads nowhere or below the root. With one, the same of the
      entry that is named before it. */
  ghost predicate Stays(fs: Files, root: Path, p: Path, k: nat, q: Path, r: Path, links: nat)
    requires Accepted(fs, p, k, q, r)
  {
    if NoQuestion(r) then k < |p| ==> LinkStaysInside(fs, root, p, k, q, links)
    else
      var j := Question(r);
      if j <= |q| then r[..j] in fs && fs[r[..j]].Dir? ==> NameStaysInside(fs, root, r[..j], FileName(r[j]), links)
      else
        Next(p, k, q) in fs ==>
          var o := Follow(fs, q, fs[Next(p, k, q)], Drop(Cut(r), |q| + 1), links); o.None? || Inside(root, o.value)
  }

  /** Naming an entry of a real directory. */
  lemma {:induction false} WhatIsNamed(fs: Files, d: Path, n: string, links: nat)
    requires Tree(fs) && Solid(fs, d)
    ensures Open(fs, d + [n], links) ==
            if !fs[d].Dir? then None
            else if n == "" || n == "." then Some(d)
            else if n == ".." then Some(Parent(d))
            else if d + [n] in fs && fs[d + [n]].Link? then Follow(fs, d, fs[d + [n]], [], links)
            else Some(d + [n])
  {
    WalkFromReal(fs, d, [n], links);
    assert [n][1..] == [];
  }

  lemma {:induction false} EntryInside(root: Path, r: Path, j: nat, n: string)
    requires j <= |r| && Inside(root, r)
    ensures Inside(root, r[..j] + [n]) <==> |root| <= j
  {
    var x := r[..j] + [n];
    if |root| <= j { assert x[..|root|] == r[..|root|]; }
  }

  lemma {:induction false} ParentInside(root: Path, r: Path, j: nat)
    requires j <= |r| && Inside(root, r)
    ensures Inside(root, Parent(r[..j])) <==> |root| + 1 < j
  {
    if j > 0 {
      PrefixInside(root, r, j - 1);
      assert Parent(r[..j]) == r[..j - 1];
    }
  }

  lemma {:induction false} NamedEntry(fs: Files, root: Path, r: Path, j: nat, n: string, links: nat)
    requires Tree(fs) && j <= |r| && Solid(fs, r[..j]) && Inside(root, r)
    ensures var d := r[..j]; var o := Open(fs, d + [n], links);
            (o.Some? ==> Inside(root, o.value)) <==> (fs[d].Dir? ==> NameStaysInside(fs, root, d, n, links))
  {
    WhatIsNamed(fs, r[..j], n, links);
    PrefixInside(root, r, j);
    ParentInside(root, r, j);
    EntryInside(root, r, j, n);
  }

  lemma {:induction false} PrefixInside(root: Path, r: Path, j: nat)
    requires j <= |r| && Inside(root, r)
    ensures Inside(root, r[..j]) <==> |root| < j
  {
    if |root| < j { assert r[..j][..|root|] == r[..|root|]; }
  }

  lemma {:induction false} CutBelow(p: Path, k: nat, q: Path, r: Path)
    requires k <= |p| && r == q + p[k..] && !NoQuestion(r) && Question(r) > |q|
    ensures var rest := Drop(Cut(r), |q|);
            k < |p| && Cut(r) == q + rest && |rest| >= 2 && rest[0] == p[k] && rest[1..] == Drop(Cut(r), |q| + 1)
  {
    var j := Question(r);
    CutIs(r);
    assert r[..j][..|q|] == q;
    assert Cut(r)[..|q|] == q && Cut(r)[|q|] == r[|q|] == p[k..][0];
  }

  /** Below the first unresolved component nothing can be named, unless that component is a link. */
  lemma {:induction false} NamedBelow(fs: Files, p: Path, k: nat, q: Path, r: Path, links: nat)
    requires Accepted(fs, p, k, q, r) && !NoQuestion(r) && Question(r) > |q|
    ensures k < |p|
    ensures Open(fs, Cut(r), links) ==
            if Next(p, k, q) in fs then Follow(fs, q, fs[Next(p, k, q)], Drop(Cut(r), |q| + 1), links) else None
  {
    CutBelow(p, k, q, r);
    WalkEnds(fs, [], p[..k], EVAL_LINKS);
    FirstUnresolved(fs, p, k, q, r);
    WalkFromReal(fs, q, Drop(Cut(r), |q|), links);
  }

  lemma {:induction false} RealPrefix(fs: Files, q: Path, j: nat)
    requires Tree(fs) && Solid(fs, q) && j <= |q|
    ensures Solid(fs, q[..j])
  {
    if j < |q| { PrefixIsDir(fs, q, j); } else { assert q[..j] == q; }
  }

  lemma {:induction false} AcceptedFacts(fs: Files, p: Path, k: nat, q: Path, r: Path)
    requires Accepted(fs, p, k, q, r) && NoSlash(p)
    ensures Solid(fs, q) && NoSlash(r) && r[..|q|] == q
  {
    WalkEnds(fs, [], p[..k], EVAL_LINKS);
  }

  lemma {:induction false} QuestionCase(fs: Files, root: Path, p: Path, k: nat, q: Path, r: Path, links: nat)
    requires Accepted(fs, p, k, q, r) && NoSlash(p) && Inside(root, r) && !NoQuestion(r)
    ensures (Open(fs, Cut(r), links).Some? ==> Inside(root, Open(fs, Cut(r), links).value)) <==> Stays(fs, root, p, k, q, r, links)
  {
    var j := Question(r);
    AcceptedFacts(fs, p, k, q, r);
    if j <= |q| {
      CutIs(r);
      assert r[..j] == q[..j];
      RealPrefix(fs, q, j);
      NamedEntry(fs, root, r, j, FileName(r[j]), links);
    } else {
      NamedBelow(fs, p, k, q, r, links);
    }
  }

  /** For every accepted path: the driver opens nothing outside the root, if and only if the path is
      one that stays inside. */
  lemma {:induction false} DriverStaysInsideExactly(fs: Files, root: Path, p: Path, k: nat, q: Path, r: Path, links: nat)
    requires Accepted(fs, p, k, q, r) && NoSlash(p) && Inside(root, r)
    ensures var file := OpenName(fs, FileName(SQLiteDSN(PathText(r))), links);
            (file.Some? ==> Inside(root, file.value)) <==> Stays(fs, root, p, k, q, r, links)
  {
    AcceptedFacts(fs, p, k, q, r);
    DriverOpens(fs, r, links);
    if NoQuestion(r) {
      CutNoQuestion(r);
      OpensInsideExactly(fs, root, p, k, q, r, links);
    } else {
      QuestionCase(fs, root, p, k, q, r, links);
    }
  }

  // ---- the check and the open after it ----

  lemma {:induction false} SplitPieces(s: string, sep: char)
    ensures forall i | 0 <= i < |Split(s, sep)| :: sep !in Split(s, sep)[i]
  {
    if s != "" { SplitPieces(s[1..], sep); }
  }

  lemma {:induction false} CleanPartsNoSlash(parts: seq<string>, done: Path)
    requires NoSlash(parts) && NoSlash(done)
    ensures NoSlash(CleanParts(parts, done))
    decreases |parts|
  {
    if parts != [] {
      if parts[0] == "" || parts[0] == "." {
        CleanPartsNoSlash(parts[1..], done);
      } else if parts[0] == ".." {
        CleanPartsNoSlash(parts[1..], if done == [] then done else done[..|done| - 1]);
      } else {
        CleanPartsNoSlash(parts[1..], done + [parts[0]]);
      }
    }
  }

  lemma {:induction false} AbsNoSlash(cwd: Option<Path>, s: string)
    requires cwd.Some? ==> NoSlash(cwd.value)
    ensures Abs(cwd, s).Some? ==> NoSlash(Abs(cwd, s).value)
  {
    SplitPieces(s, '/');
    if s != "" && s[0] == '/' {
      CleanPartsNoSlash(Split(s, '/'), []);
    } else if cwd.Some? {
      CleanPartsNoSlash(cwd.value + Split(s, '/'), []);
    }
  }

  /** The registry's getter up to the open: the path is checked, printed with the settings, and the
      driver opens the file it reads in that text. */
  method OpenSQLite(fs: Files, cwd: Option<Path>, allowDir: string, p: string, links: nat) returns (out: Outcome, file: Option<Path>)
    requires Tree(fs) && (cwd.Some? ==> NoSlash(cwd.value))
    ensures out.Err? ==> file == None
    ensures out.Ok? ==>
              && RealRoot(Eval(fs), cwd, allowDir).Some? && Abs(cwd, p).Some?
              && file == OpenName(fs, FileName(SQLiteDSN(PathText(out.path))), links)
    ensures out.Ok? ==>
              var root, full := RealRoot(Eval(fs), cwd, allowDir).value, Abs(cwd, p).value;
              && (exists k: nat, q :: Accepted(fs, full, k, q, out.path))
              && forall k: nat, q | Accepted(fs, full, k, q, out.path) ::
                   (file.Some? ==> Inside(root, file.value)) <==> Stays(fs, root, full, k, q, out.path, links)
    ensures LinkFree(fs) && (cwd.Some? ==> cwd.value in fs) && !Blank(allowDir) && !Blank(p) && WalkText(fs, cwd, allowDir).Reached? ==>
              var root, w := WalkText(fs, cwd, allowDir).path, WalkText(fs, cwd, p);
              && (w.Reached? ==> out == if Inside(root, w.path) then Ok(w.path) else Err(Outside))
              && (w.Missing? && |w.rest| == 1 ==> out == if Inside(root, w.dir + w.rest) then Ok(w.dir + w.rest) else Err(Outside))
  {
    EvalAnswers(fs);
    if LinkFree(fs) && (cwd.Some? ==> cwd.value in fs) {
      PathMeansWalk(fs, cwd, allowDir);
      PathMeansWalk(fs, cwd, p);
    }
    out := ResolveSQLitePath(Eval(fs), cwd, allowDir, p);
    file := None;
    if out.Ok? {
      ghost var root, full := RealRoot(Eval(fs), cwd, allowDir).value, Abs(cwd, p).value;
      AbsIsClean(cwd, p);
      AbsNoSlash(cwd, p);
      SomePrefixResolves(fs, full, out.path);
      var dsn := SQLiteDSN(PathText(out.path));
      file := OpenName(fs, FileName(dsn), links);
      forall k: nat, q | Accepted(fs, full, k, q, out.path)
        ensures (file.Some? ==> Inside(root, file.value)) <==> Stays(fs, root, full, k, q, out.path, links)
      {
        DriverStaysInsideExactly(fs, root, full, k, q, out.path, links);
      }
    }
  }

  // ---- the question mark ----

  /** Two directories `a` and `o`, and in `a` a link `l` to the file `n` of `o`. */
  function LiveLink(a: string, o: string, l: string, n: string): Files {
    map[[] := Dir, [a] := Dir, [o] := Dir, [a, l] := Link(true, [o, n]), [o, n] := File]
  }

  ghost predicate Names(a: string, o: string, l: string, n: string, x: string) {
    IsClean([a, o, l, n]) && NoSlash([a, o, l, n, x]) && NoQuestion([a, l]) && a != o
  }

  lemma {:induction false} NamesAre(a: string, o: string, l: string, n: string, x: string)
    requires Names(a, o, l, n, x)
    ensures IsClean([a]) && IsClean([o]) && IsClean([a, l]) && IsClean([o, n]) && NoSlash([a]) && NoSlash([o]) && NoSlash([a, l]) && NoSlash([o, n])
    ensures IsClean([a, l + ("?" + x)]) && NoSlash([a, l + ("?" + x)]) && '?' !in l && '?' !in a
  {
    var s, t, u := [a, o, l, n], [a, o, l, n, x], [a, l];
    assert s[0] == a && s[1] == o && s[2] == l && s[3] == n;
    assert t[0] == a && t[1] == o && t[2] == l && t[3] == n && t[4] == x && u[0] == a && u[1] == l;
    assert (l + ("?" + x))[|l|] == '?';
  }

  lemma {:induction false} LiveTree(a: string, o: string, l: string, n: string, x: string)
    requires Names(a, o, l, n, x)
    ensures Tree(LiveLink(a, o, l, n))
  {
    NamesAre(a, o, l, n, x);
    assert Parent([a]) == [] && Parent([o]) == [] && Parent([a, l]) == [a] && Parent([o, n]) == [o];
  }

  lemma {:induction false} MissingInDir(fs: Files, d: Path, c: string, links: nat)
    requires Tree(fs) && d in fs && fs[d].Dir? && d + [c] !in fs && IsClean([c])
    ensures Walk(fs, [], d, links) == Reached(d, links) && Walk(fs, [], d + [c], links) == Missing(d, [c])
  {
    WalkFromReal(fs, d, [], links);
    WalkFromReal(fs, d, [c], links);
    assert d + [] == d && [c][0] == c;
  }

  lemma {:induction false} LinkInDir(fs: Files, d: Path, l: string, q: Path, links: nat)
    requires Tree(fs) && d in fs && fs[d].Dir? && d + [l] in fs && fs[d + [l]] == Link(true, q) && IsClean([l])
    requires Solid(fs, q) && links > 0
    ensures Walk(fs, [], d + [l], links) == Reached(q, links - 1)
  {
    WalkFromReal(fs, d, [l], links);
    FollowsLink(fs, d, l, q, links);
  }

  lemma {:induction false} FollowsLink(fs: Files, d: Path, l: string, q: Path, links: nat)
    requires Tree(fs) && d in fs && fs[d].Dir? && d + [l] in fs && fs[d + [l]] == Link(true, q) && IsClean([l])
    requires Solid(fs, q) && links > 0
    ensures Walk(fs, d, [l], links) == Reached(q, links - 1)
  {
    WalkFromReal(fs, q, [], links - 1);
    assert q + [] == q && [l][1..] == [] && [l][0] == l;
  }

  lemma {:induction false} NotThere(a: string, o: string, l: string, n: string, x: string)
    requires Names(a, o, l, n, x)
    ensures [a, l + ("?" + x)] !in LiveLink(a, o, l, n) && IsClean([l + ("?" + x)]) && IsClean([l])
  {
    var c := l + ("?" + x);
    NamesAre(a, o, l, n, x);
    assert [a, c][1] == c && [a, l][1] == l;
    assert c != l;
    assert [a, c][1] != [a, l][1] && [a, c][0] != [o, n][0];
  }

  lemma {:induction false} LiveWalk(a: string, o: string, l: string, n: string, x: string, links: nat)
    requires Names(a, o, l, n, x)
    ensures var fs := LiveLink(a, o, l, n);
            && Walk(fs, [], [a], links) == Reached([a], links)
            && Walk(fs, [], [a, l + ("?" + x)], links) == Missing([a], [l + ("?" + x)])
            && (links > 0 ==> Walk(fs, [], [a, l], links) == Reached([o, n], links - 1))
  {
    var fs, c := LiveLink(a, o, l, n), l + ("?" + x);
    LiveTree(a, o, l, n, x);
    NotThere(a, o, l, n, x);
    assert [a] + [c] == [a, c] && [a] + [l] == [a, l];
    MissingInDir(fs, [a], c, links);
    if links > 0 { LinkInDir(fs, [a], l, [o, n], links); }
  }

  lemma {:induction false} QuestionMarkAccepted(a: string, o: string, l: string, n: string, x: string, links: nat)
    requires Names(a, o, l, n, x)
    ensures var fs, r := LiveLink(a, o, l, n), [a, l + ("?" + x)];
            Tree(fs) && Accepted(fs, r, 1, [a], r) && Inside([a], r) && LinkStaysInside(fs, [a], r, 1, [a], links)
  {
    var fs, c := LiveLink(a, o, l, n), l + ("?" + x);
    var r := [a, c];
    NamesAre(a, o, l, n, x);
    LiveTree(a, o, l, n, x);
    LiveWalk(a, o, l, n, x, EVAL_LINKS);
    assert r[1..] == [c] && [a] + [c] == r;
    LongestIsOne(fs, a, c);
    assert r !in fs by { assert r[1] != [a, l][1] && r[0] != [o, n][0]; }
  }

  lemma {:induction false} LongestIsOne(fs: Files, a: string, c: string)
    requires Eval(fs)([a]).Some? && Eval(fs)([a, c]).None?
    ensures Longest(Eval(fs), [a, c], 1) && [a, c][..1] == [a]
  {
    assert [a, c][..1] == [a] && [a, c][..2] == [a, c];
  }

  lemma {:induction false} QuestionMarkCut(a: string, l: string, x: string)
    requires '?' !in a && '?' !in l
    ensures Cut([a, l + ("?" + x)]) == [a, l]
  {
    var c := l + ("?" + x);
    FileNameSkip(l, "?" + x);
    assert c[|l|] == '?';
    assert [a, c][1..] == [c] && Cut([c]) == [l] && [a] + [l] == [a, l];
    assert l + "" == l;
  }

  /** Root `a`, path `a/l?x`: nothing of that name exists, so the path is accepted and meets the
      condition on links; the driver opens `a/l`, and the link takes it out of the root. */
  lemma {:induction false} QuestionMarkEscapes(a: string, o: string, l: string, n: string, x: string, links: nat)
    requires Names(a, o, l, n, x) && links > 0
    ensures var fs, r := LiveLink(a, o, l, n), [a, l + ("?" + x)];
            && Tree(fs) && Accepted(fs, r, 1, [a], r) && Inside([a], r) && LinkStaysInside(fs, [a], r, 1, [a], links)
            && OpenName(fs, FileName(SQLiteDSN(PathText(r))), links) == Some([o, n]) && !Inside([a], [o, n])
  {
    var fs, r := LiveLink(a, o, l, n), [a, l + ("?" + x)];
    QuestionMarkAccepted(a, o, l, n, x, links);
    NamesAre(a, o, l, n, x);
    LiveWalk(a, o, l, n, x, links);
    DriverOpens(fs, r, links);
    QuestionMarkCut(a, l, x);
    assert [o, n][..1] == [o] && [o][0] != [a][0];
  }
}
