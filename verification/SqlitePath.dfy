/** Containment of SQLite files in the allowed directory. Absolute paths are sequences of
    components, the file system root being the empty one. */
module SqlitePath {
  import opened Text

  type Path = seq<string>

  /** White space as Go's strings.TrimSpace sees it. */
  predicate IsGoSpace(c: char) {
    || '\t' <= c <= '\r' || c == ' ' || c == '\U{0085}' || c == '\U{00A0}' || c == '\U{1680}'
    || '\U{2000}' <= c <= '\U{200A}'
    || c == '\U{2028}' || c == '\U{2029}' || c == '\U{202F}' || c == '\U{205F}' || c == '\U{3000}'
  }

  lemma {:induction false} GoSpacesAre(c: char)
    ensures IsGoSpace(c) <==>
            c as int in {9, 10, 11, 12, 13, 32, 0x85, 0xA0, 0x1680, 0x2000, 0x2001, 0x2002, 0x2003, 0x2004, 0x2005, 0x2006, 0x2007,
                         0x2008, 0x2009, 0x200A, 0x2028, 0x2029, 0x202F, 0x205F, 0x3000}
  {
  }

  predicate Blank(s: string) { forall i | 0 <= i < |s| :: IsGoSpace(s[i]) }

  // ---- lexical cleaning ----

  function CleanParts(parts: seq<string>, done: Path): Path
    decreases |parts|
  {
    if parts == [] then done
    else if parts[0] == "" || parts[0] == "." then CleanParts(parts[1..], done)
    else if parts[0] == ".." then CleanParts(parts[1..], if done == [] then done else done[..|done| - 1])
    else CleanParts(parts[1..], done + [parts[0]])
  }

  predicate IsClean(p: Path) {
    forall i | 0 <= i < |p| :: p[i] != "" && p[i] != "." && p[i] != ".."
  }

  lemma {:induction false} CleanPartsIsClean(parts: seq<string>, done: Path)
    requires IsClean(done)
    ensures IsClean(CleanParts(parts, done))
    decreases |parts|
  {
    if parts != [] {
      if parts[0] == "" || parts[0] == "." {
        CleanPartsIsClean(parts[1..], done);
      } else if parts[0] == ".." {
        CleanPartsIsClean(parts[1..], if done == [] then done else done[..|done| - 1]);
      } else {
        CleanPartsIsClean(parts[1..], done + [parts[0]]);
      }
    }
  }

  lemma {:induction false} CleaningClean(parts: seq<string>, done: Path)
    requires IsClean(parts)
    ensures CleanParts(parts, done) == done + parts
    decreases |parts|
  {
    if parts != [] {
      CleaningClean(parts[1..], done + [parts[0]]);
      assert done + [parts[0]] + parts[1..] == done + parts;
    }
  }

  /** filepath.Abs: fails only when a relative path meets an unknown working directory. */
  function Abs(cwd: Option<Path>, s: string): Option<Path> {
    if s != "" && s[0] == '/' then Some(CleanParts(Split(s, '/'), []))
    else if cwd.None? then None
    else Some(CleanParts(cwd.value + Split(s, '/'), []))
  }

  lemma {:induction false} AbsIsClean(cwd: Option<Path>, s: string)
    ensures Abs(cwd, s).Some? ==> IsClean(Abs(cwd, s).value)
  {
    if s != "" && s[0] == '/' {
      CleanPartsIsClean(Split(s, '/'), []);
    } else if cwd.Some? {
      CleanPartsIsClean(cwd.value + Split(s, '/'), []);
    }
  }

  function Common(a: Path, b: Path): (n: nat)
    ensures n <= |a| && n <= |b| && a[..n] == b[..n] && (n < |a| && n < |b| ==> a[n] != b[n])
  {
    if a == [] || b == [] || a[0] != b[0] then 0 else
      var n := 1 + Common(a[1..], b[1..]);
      assert a[..n] == [a[0]] + a[1..][..n - 1] && b[..n] == [b[0]] + b[1..][..n - 1];
      n
  }

  /** filepath.Rel of two clean absolute paths: up from `root`, then down to `p`. */
  function Rel(root: Path, p: Path): Path {
    seq(|root| - Common(root, p), _ => "..") + p[Common(root, p)..]
  }

  ghost predicate Inside(root: Path, p: Path) {
    |root| < |p| && p[..|root|] == root
  }

  /** The three textual tests on the relative path mean containment. */
  lemma {:induction false} RelMeansInside(root: Path, p: Path)
    requires IsClean(p)
    ensures Rel(root, p) != [] && Rel(root, p)[0] != ".." <==> Inside(root, p)
  {
    var n := Common(root, p);
    if n == |root| {
      assert root[..n] == root;
      if n < |p| { assert Rel(root, p)[0] == p[n]; }
    } else {
      assert Rel(root, p)[0] == "..";
      if |root| < |p| { assert p[..|root|][n] == p[n]; }
    }
  }

  // ---- symbolic links ----

  /** Symbolic link resolution, as the file system answers it: nothing for a path that does not
      exist, be it that an entry is missing or that a link dangles; otherwise a clean path
      (filepath.EvalSymlinks cleans its result). */
  ghost predicate Answers(eval: Path -> Option<Path>) {
    forall p :: eval(p).Some? ==> IsClean(eval(p).value)
  }

  /** `k` is the length of the longest prefix of `p` that resolves. */
  ghost predicate Longest(eval: Path -> Option<Path>, p: Path, k: nat) {
    k <= |p| && eval(p[..k]).Some? && forall j | k < j <= |p| :: eval(p[..j]).None?
  }

  ghost predicate ResolvesTo(eval: Path -> Option<Path>, p: Path, r: Path) {
    || (exists k: nat :: Longest(eval, p, k) && r == eval(p[..k]).value + p[k..])
    || (r == p && forall j | 0 <= j <= |p| :: eval(p[..j]).None?)
  }

  /** Terminates with the resolution of the longest resolvable prefix plus the untouched rest. */
  method ResolveExistingPrefix(eval: Path -> Option<Path>, p: Path) returns (r: Path)
    requires Answers(eval) && IsClean(p)
    ensures ResolvesTo(eval, p, r) && IsClean(r)
  {
    var rest: Path, cur := [], p;
    while true
      invariant |cur| <= |p| && cur == p[..|cur|] && rest == p[|cur|..]
      invariant forall j | |cur| < j <= |p| :: eval(p[..j]).None?
      decreases |cur|
    {
      var e := eval(cur);
      if e.Some? {
        assert Longest(eval, p, |cur|);
        return e.value + rest;
      }
      if cur == [] { return p; }
      rest := [cur[|cur| - 1]] + rest;
      cur := cur[..|cur| - 1];
    }
  }

  lemma {:induction false} ResolutionIsUnique(eval: Path -> Option<Path>, p: Path, r: Path, s: Path)
    requires ResolvesTo(eval, p, r) && ResolvesTo(eval, p, s)
    ensures r == s
  {
    if k: nat :| Longest(eval, p, k) && r == eval(p[..k]).value + p[k..] {
      if j: nat :| Longest(eval, p, j) && s == eval(p[..j]).value + p[j..] {
        assert j == k;
      }
    }
  }

  // ---- the check ----

  datatype Refusal = Disabled | PathRequired | NoWorkingDirectory | RootNotAccessible | Outside
  datatype Outcome = Ok(path: Path) | Err(why: Refusal)

  /** The real directory the configuration names. */
  function RealRoot(eval: Path -> Option<Path>, cwd: Option<Path>, allowDir: string): Option<Path> {
    match Abs(cwd, allowDir)
    case None => None
    case Some(root) => eval(root)
  }

  /** Succeeds exactly when the path, links resolved, lies strictly below the real root. */
  method ResolveSQLitePath(eval: Path -> Option<Path>, cwd: Option<Path>, allowDir: string, p: string) returns (out: Outcome)
    requires Answers(eval)
    ensures out == Err(Disabled) <==> Blank(allowDir)
    ensures out == Err(PathRequired) <==> !Blank(allowDir) && Blank(p)
    ensures out == Err(NoWorkingDirectory) <==>
            !Blank(allowDir) && !Blank(p) && (Abs(cwd, allowDir).None? || (RealRoot(eval, cwd, allowDir).Some? && Abs(cwd, p).None?))
    ensures out == Err(RootNotAccessible) <==>
            !Blank(allowDir) && !Blank(p) && Abs(cwd, allowDir).Some? && RealRoot(eval, cwd, allowDir).None?
    ensures !Blank(allowDir) && !Blank(p) && RealRoot(eval, cwd, allowDir).Some? && Abs(cwd, p).Some? ==>
              forall r | ResolvesTo(eval, Abs(cwd, p).value, r) ::
                out == if Inside(RealRoot(eval, cwd, allowDir).value, r) then Ok(r) else Err(Outside)
    ensures out.Ok? ==>
              && RealRoot(eval, cwd, allowDir).Some? && Abs(cwd, p).Some?
              && ResolvesTo(eval, Abs(cwd, p).value, out.path)
              && Inside(RealRoot(eval, cwd, allowDir).value, out.path) && IsClean(out.path)
  {
    if Blank(allowDir) { return Err(Disabled); }
    if Blank(p) { return Err(PathRequired); }
    var dir := Abs(cwd, allowDir);
    if dir.None? { return Err(NoWorkingDirectory); }
    var resolved := eval(dir.value);
    if resolved.None? { return Err(RootNotAccessible); }
    var root := resolved.value;
    var full := Abs(cwd, p);
    if full.None? { return Err(NoWorkingDirectory); }
    AbsIsClean(cwd, p);
    var abs := ResolveExistingPrefix(eval, full.value);
    CleaningClean(abs, []);
    abs := CleanParts(abs, []);
    forall r | ResolvesTo(eval, full.value, r) ensures r == abs { ResolutionIsUnique(eval, full.value, r, abs); }
    RelMeansInside(root, abs);
    var rel := Rel(root, abs);
    if rel == [] || rel[0] == ".." { return Err(Outside); }
    return Ok(abs);
  }
}
