/** Where an accepted SQLite path leads when it is opened: a file system with symbolic links. */
module SqliteOpen {
  import opened Text
  import opened SqlitePath

  datatype Node = File | Dir | Link(absolute: bool, target: seq<string>)

  /** Every file, directory and link, by the real path of its own name. */
  type Files = map<Path, Node>

  ghost predicate Tree(fs: Files) {
    && [] in fs && fs[[]].Dir?
    && (forall p | p in fs :: IsClean(p) && NoSlash(p))
    && (forall p | p in fs && p != [] :: Parent(p) in fs && fs[Parent(p)].Dir?)
  }

  predicate NoSlash(p: Path) {
    forall i | 0 <= i < |p| :: '/' !in p[i]
  }

  function Parent(p: Path): Path { if p == [] then [] else p[..|p| - 1] }

  /** How a walk ends: at an existing entry, with how many more links could have been followed; at
      a component that does not exist in `dir`; or at a file used as a directory, or at one link too many. */
  datatype Walked = Reached(path: Path, left: nat) | Missing(dir: Path, rest: seq<string>) | Refused

  /** The components of `todo`, one after the other, from the directory `cur`. */
  function Walk(fs: Files, cur: Path, todo: seq<string>, links: nat): Walked
    decreases links, |todo|
  {
    if todo == [] then Reached(cur, links)
    else if cur !in fs || !fs[cur].Dir? then Refused
    else if todo[0] == "" || todo[0] == "." then Walk(fs, cur, todo[1..], links)
    else if todo[0] == ".." then Walk(fs, Parent(cur), todo[1..], links)
    else
      var next := cur + [todo[0]];
      if next !in fs then Missing(cur, todo)
      else if fs[next].Link? then
        if links == 0 then Refused
        else Walk(fs, if fs[next].absolute then [] else cur, fs[next].target + todo[1..], links - 1)
      else Walk(fs, next, todo[1..], links)
  }

  /** filepath.EvalSymlinks gives up after this many links. */
  const EVAL_LINKS: nat := 255

  function Evaluated(w: Walked): Option<Path> {
    match w
    case Reached(q, _) => Some(q)
    case _ => None
  }

  function Eval(fs: Files): Path -> Option<Path> {
    (p: Path) => Evaluated(Walk(fs, [], p, EVAL_LINKS))
  }

  /** What a creating open of a walk's end opens: the entry reached, or a new file where only the
      last component was missing. */
  function Opened(w: Walked): Option<Path> {
    match w
    case Reached(q, _) => Some(q)
    case Missing(dir, rest) => if |rest| == 1 then Some(dir + rest) else None
    case Refused => None
  }

  /** A creating open; the kernel has a limit of its own on links. */
  function Open(fs: Files, p: Path, links: nat): Option<Path> {
    Opened(Walk(fs, [], p, links))
  }

  // ---- walking ----

  ghost predicate Solid(fs: Files, p: Path) { p in fs && !fs[p].Link? }

  lemma {:induction false} ParentSolid(fs: Files, p: Path)
    requires Tree(fs) && p in fs
    ensures Solid(fs, Parent(p))
  {
  }

  /** A walk ends at an entry that is no link, or in a directory that lacks the next component. */
  lemma {:induction false} WalkEnds(fs: Files, cur: Path, todo: seq<string>, links: nat)
    requires Tree(fs) && Solid(fs, cur)
    ensures var w := Walk(fs, cur, todo, links);
            && (w.Reached? ==> Solid(fs, w.path) && w.left <= links)
            && (w.Missing? ==> w.rest != [] && Solid(fs, w.dir) && w.dir + [w.rest[0]] !in fs && IsClean([w.rest[0]]))
    decreases links, |todo|
  {
    if todo != [] && fs[cur].Dir? {
      if todo[0] == "" || todo[0] == "." {
        WalkEnds(fs, cur, todo[1..], links);
      } else if todo[0] == ".." {
        ParentSolid(fs, cur);
        WalkEnds(fs, Parent(cur), todo[1..], links);
      } else {
        var next := cur + [todo[0]];
        if next in fs {
          if !fs[next].Link? {
            WalkEnds(fs, next, todo[1..], links);
          } else if links > 0 {
            WalkEnds(fs, if fs[next].absolute then [] else cur, fs[next].target + todo[1..], links - 1);
          }
        }
      }
    }
  }

  /** A walk can be taken in two parts. */
  lemma {:induction false} WalkConcat(fs: Files, cur: Path, a: seq<string>, b: seq<string>, links: nat)
    requires Walk(fs, cur, a, links).Reached?
    ensures Walk(fs, cur, a + b, links) == Walk(fs, Walk(fs, cur, a, links).path, b, Walk(fs, cur, a, links).left)
    decreases links, |a|
  {
    if a == [] {
      assert a + b == b;
    } else {
      assert (a + b)[0] == a[0] && (a + b)[1..] == a[1..] + b;
      var next := cur + [a[0]];
      if a[0] == "" || a[0] == "." {
        WalkConcat(fs, cur, a[1..], b, links);
      } else if a[0] == ".." {
        WalkConcat(fs, Parent(cur), a[1..], b, links);
      } else if fs[next].Link? {
        assert fs[next].target + (a[1..] + b) == (fs[next].target + a[1..]) + b;
        WalkConcat(fs, if fs[next].absolute then [] else cur, fs[next].target + a[1..], b, links - 1);
      } else {
        WalkConcat(fs, next, a[1..], b, links);
      }
    }
  }

  lemma {:induction false} PrefixIsDir(fs: Files, q: Path, i: nat)
    requires Tree(fs) && q in fs && i < |q|
    ensures q[..i] in fs && fs[q[..i]].Dir?
    decreases |q| - i
  {
    if i + 1 == |q| {
      assert Parent(q) == q[..i];
    } else {
      PrefixIsDir(fs, q, i + 1);
      assert Parent(q[..i + 1]) == q[..i];
    }
  }

  /** A real path is walked without following a link. */
  lemma {:induction false} WalkReal(fs: Files, q: Path, i: nat, links: nat)
    requires Tree(fs) && Solid(fs, q) && i <= |q|
    ensures Walk(fs, q[..i], q[i..], links) == Reached(q, links)
    decreases |q| - i
  {
    if i == |q| {
      assert q[..i] == q && q[i..] == [];
    } else {
      PrefixIsDir(fs, q, i);
      assert q[i..][0] == q[i] && q[i..][1..] == q[i + 1..];
      assert q[..i] + [q[i]] == q[..i + 1];
      if i + 1 < |q| { PrefixIsDir(fs, q, i + 1); } else { assert q[..i + 1] == q; }
      WalkReal(fs, q, i + 1, links);
    }
  }

  lemma {:induction false} WalkFromReal(fs: Files, q: Path, rest: seq<string>, links: nat)
    requires Tree(fs) && Solid(fs, q)
    ensures Walk(fs, [], q + rest, links) == Walk(fs, q, rest, links)
  {
    WalkReal(fs, q, 0, links);
    assert q[..0] == [] && q[0..] == q;
    WalkConcat(fs, [], q, rest, links);
  }

  /** Resolution, as this file system answers it, meets what the check assumes of it. */
  lemma {:induction false} EvalAnswers(fs: Files)
    requires Tree(fs)
    ensures Answers(Eval(fs))
  {
    forall p | Eval(fs)(p).Some? ensures IsClean(Eval(fs)(p).value) {
      WalkEnds(fs, [], p, EVAL_LINKS);
    }
  }

  // ---- what an accepted path opens ----

  /** `p` resolves to `r`: its longest resolvable prefix, of length `k`, to `q`. */
  ghost predicate Accepted(fs: Files, p: Path, k: nat, q: Path, r: Path) {
    Tree(fs) && IsClean(p) && Longest(Eval(fs), p, k) && Eval(fs)(p[..k]) == Some(q) && r == q + p[k..]
  }

  lemma {:induction false} SomePrefixResolves(fs: Files, p: Path, r: Path)
    requires Tree(fs) && IsClean(p) && ResolvesTo(Eval(fs), p, r)
    ensures exists k: nat, q :: Accepted(fs, p, k, q, r)
  {
    assert p[..0] == [];
    assert Eval(fs)(p[..0]) == Some([]);
    var k: nat :| Longest(Eval(fs), p, k) && r == Eval(fs)(p[..k]).value + p[k..];
    assert Accepted(fs, p, k, Eval(fs)(p[..k]).value, r);
  }

  /** The entry under which the first unresolved component stands. */
  function Next(p: Path, k: nat, q: Path): Path
    requires k < |p|
  {
    q + [p[k]]
  }

  lemma {:induction false} EntryResolves(fs: Files, p: Path, k: nat, q: Path)
    requires Tree(fs) && IsClean(p) && k < |p| && Eval(fs)(p[..k]) == Some(q) && q in fs && fs[q].Dir? && Solid(fs, Next(p, k, q))
    ensures Eval(fs)(p[..k + 1]).Some?
  {
    var left := Walk(fs, [], p[..k], EVAL_LINKS).left;
    assert p[..k + 1] == p[..k] + [p[k]];
    WalkConcat(fs, [], p[..k], [p[k]], EVAL_LINKS);
    assert [p[k]][1..] == [];
    assert Walk(fs, q, [p[k]], left) == Reached(Next(p, k, q), left);
  }

  /** The first component that did not resolve is missing, or below a file, or a link. */
  lemma {:induction false} FirstUnresolved(fs: Files, p: Path, k: nat, q: Path, r: Path)
    requires Accepted(fs, p, k, q, r) && k < |p|
    ensures Solid(fs, q) && (Next(p, k, q) in fs ==> fs[q].Dir? && fs[Next(p, k, q)].Link?)
  {
    WalkEnds(fs, [], p[..k], EVAL_LINKS);
    var next := Next(p, k, q);
    if next in fs {
      assert Parent(next) == q;
      if !fs[next].Link? { EntryResolves(fs, p, k, q); }
    }
  }

  /** Following the link that stands at the first unresolved component, and then the rest. */
  function Follow(fs: Files, dir: Path, link: Node, rest: seq<string>, links: nat): Option<Path>
  {
    if !link.Link? || links == 0 then None
    else Opened(Walk(fs, if link.absolute then [] else dir, link.target + rest, links - 1))
  }

  /** What a creating open of an accepted path opens: the path itself, if all of it resolved or
      only its last component is missing; nothing, if more is missing; and if the first unresolved
      component is a link, whatever that link leads to. */
  lemma {:induction false} WhatIsOpened(fs: Files, p: Path, k: nat, q: Path, r: Path, links: nat)
    requires Accepted(fs, p, k, q, r)
    ensures k == |p| ==> Open(fs, r, links) == Some(r)
    ensures k < |p| && Next(p, k, q) !in fs ==> Open(fs, r, links) == if q in fs && fs[q].Dir? && k + 1 == |p| then Some(r) else None
    ensures k < |p| && Next(p, k, q) in fs ==>
              Open(fs, r, links) == Follow(fs, q, fs[Next(p, k, q)], p[k + 1..], links)
  {
    WalkEnds(fs, [], p[..k], EVAL_LINKS);
    WalkFromReal(fs, q, p[k..], links);
    if k == |p| {
      assert p[k..] == [] && q + [] == q;
    } else {
      FirstUnresolved(fs, p, k, q, r);
      assert p[k..][0] == p[k] && p[k..][1..] == p[k + 1..];
    }
  }

  /** The link at the first unresolved component, if there is one, leads nowhere or below the root. */
  ghost predicate LinkStaysInside(fs: Files, root: Path, p: Path, k: nat, q: Path, links: nat)
    requires k < |p|
  {
    Next(p, k, q) in fs && fs[Next(p, k, q)].Link? ==>
      var o := Follow(fs, q, fs[Next(p, k, q)], p[k + 1..], links);
      o.None? || Inside(root, o.value)
  }

  /** An accepted path opens nothing outside the root, if and only if its first unresolved component
      is no link or a link that leads nowhere or below the root. */
  lemma {:induction false} OpensInsideExactly(fs: Files, root: Path, p: Path, k: nat, q: Path, r: Path, links: nat)
    requires Accepted(fs, p, k, q, r) && Inside(root, r)
    ensures (Open(fs, r, links).Some? ==> Inside(root, Open(fs, r, links).value))
            <==> (k < |p| ==> LinkStaysInside(fs, root, p, k, q, links))
  {
    WhatIsOpened(fs, p, k, q, r, links);
    if k < |p| { FirstUnresolved(fs, p, k, q, r); }
  }

  /** Where no link is left at the first unresolved component, resolving again changes nothing, and
      the open goes to the accepted path or nowhere. */
  lemma {:induction false} AcceptedPathIsReal(fs: Files, p: Path, k: nat, q: Path, r: Path, links: nat)
    requires Accepted(fs, p, k, q, r) && (k < |p| ==> Next(p, k, q) !in fs)
    ensures ResolvesTo(Eval(fs), r, r)
    ensures Open(fs, r, links).Some? ==> Open(fs, r, links).value == r
  {
    WhatIsOpened(fs, p, k, q, r, links);
    WalkEnds(fs, [], p[..k], EVAL_LINKS);
    assert r[..|q|] == q && r[|q|..] == p[k..];
    WalkFromReal(fs, q, [], EVAL_LINKS);
    assert q + [] == q;
    forall j | |q| < j <= |r| ensures Eval(fs)(r[..j]).None? {
      var x := p[k..][..j - |q|];
      assert r[..j] == q + x && x[0] == p[k];
      WalkFromReal(fs, q, x, EVAL_LINKS);
    }
    assert Longest(Eval(fs), r, |q|);
  }

  // ---- without links: a text leads where walking it leads ----

  ghost predicate LinkFree(fs: Files) { forall p | p in fs :: !fs[p].Link? }

  /** Walking a text as the kernel does: from the root, or from the working directory. */
  function WalkText(fs: Files, cwd: Option<Path>, s: string): Walked {
    if s != "" && s[0] == '/' then Walk(fs, [], Split(s, '/'), 0)
    else if cwd.None? then Refused
    else Walk(fs, cwd.value, Split(s, '/'), 0)
  }

  lemma {:induction false} CleanIsWalk(fs: Files, cur: Path, todo: seq<string>)
    requires Tree(fs) && LinkFree(fs) && cur in fs
    ensures var w := Walk(fs, cur, todo, 0);
            && (w.Reached? ==> w.path in fs && CleanParts(todo, cur) == w.path)
            && (w.Missing? ==> CleanParts(todo, cur) == CleanParts(w.rest, w.dir))
    decreases |todo|
  {
    if todo != [] && fs[cur].Dir? {
      if todo[0] == "" || todo[0] == "." {
        CleanIsWalk(fs, cur, todo[1..]);
      } else if todo[0] == ".." {
        CleanIsWalk(fs, Parent(cur), todo[1..]);
      } else if cur + [todo[0]] in fs {
        CleanIsWalk(fs, cur + [todo[0]], todo[1..]);
      }
    }
  }

  lemma {:induction false} CleanConcat(a: seq<string>, b: seq<string>, done: Path)
    ensures CleanParts(a + b, done) == CleanParts(b, CleanParts(a, done))
    decreases |a|
  {
    if a == [] {
      assert a + b == b;
    } else {
      assert (a + b)[1..] == a[1..] + b;
      CleanConcat(a[1..], b, if a[0] == "" || a[0] == "." then done else if a[0] != ".." then done + [a[0]] else if done == [] then done else done[..|done| - 1]);
    }
  }

  /** Where a walk from a real directory ends, an entry or one missing name, is what Abs gives, and
      that path resolves to itself: `..` leads to the parent, also across the working directory. */
  lemma {:induction false} PathMeansWalk(fs: Files, cwd: Option<Path>, s: string)
    requires Tree(fs) && LinkFree(fs) && (cwd.Some? ==> cwd.value in fs)
    ensures var w := WalkText(fs, cwd, s);
            && (w.Reached? ==> Abs(cwd, s) == Some(w.path) && Eval(fs)(w.path) == Some(w.path) && ResolvesTo(Eval(fs), w.path, w.path))
            && (w.Missing? && |w.rest| == 1 ==>
                  Abs(cwd, s) == Some(w.dir + w.rest) && ResolvesTo(Eval(fs), w.dir + w.rest, w.dir + w.rest))
  {
    var start := if s != "" && s[0] == '/' then [] else if cwd.Some? then cwd.value else [];
    var w := WalkText(fs, cwd, s);
    CleanIsWalk(fs, start, Split(s, '/'));
    WalkEnds(fs, start, Split(s, '/'), 0);
    if cwd.Some? {
      CleanConcat(cwd.value, Split(s, '/'), []);
      CleaningClean(cwd.value, []);
      assert [] + cwd.value == cwd.value;
    }
    if w.Reached? { RealResolves(fs, w.path); }
    if w.Missing? && |w.rest| == 1 {
      assert w.rest == [w.rest[0]];
      CleaningClean(w.rest, w.dir);
      NewResolves(fs, w.dir, w.rest[0]);
    }
  }

  lemma {:induction false} RealResolves(fs: Files, q: Path)
    requires Tree(fs) && Solid(fs, q)
    ensures Eval(fs)(q) == Some(q) && ResolvesTo(Eval(fs), q, q)
  {
    WalkReal(fs, q, 0, EVAL_LINKS);
    assert q[..0] == [] && q[0..] == q && q[..|q|] == q && q[|q|..] == [];
    assert Longest(Eval(fs), q, |q|);
    assert q == Eval(fs)(q[..|q|]).value + q[|q|..];
  }

  lemma {:induction false} NewResolves(fs: Files, dir: Path, n: string)
    requires Tree(fs) && Solid(fs, dir) && dir + [n] !in fs && IsClean([n])
    ensures ResolvesTo(Eval(fs), dir + [n], dir + [n])
  {
    var p := dir + [n];
    RealResolves(fs, dir);
    WalkFromReal(fs, dir, [n], EVAL_LINKS);
    assert p[..|dir|] == dir && p[|dir|..] == [n] && p[..|p|] == p && [n][0] == n;
    assert Eval(fs)(p).None?;
    assert Longest(Eval(fs), p, |dir|);
  }

  // ---- the dangling link ----

  /** Two directories `a` and `o`, and in `a` a link `l` to a file `n` that `o` does not have. */
  function DanglingLink(a: string, o: string, l: string, n: string): Files {
    map[[] := Dir, [a] := Dir, [o] := Dir, [a, l] := Link(true, [o, n])]
  }

  lemma {:induction false} DanglingTree(a: string, o: string, l: string, n: string)
    requires IsClean([a, o, l, n]) && NoSlash([a, o, l, n])
    ensures Tree(DanglingLink(a, o, l, n))
  {
    var fs := DanglingLink(a, o, l, n);
    var s := [a, o, l, n];
    assert s[0] == a && s[1] == o && s[2] == l && s[3] == n;
    assert Parent([a]) == [] && Parent([o]) == [] && Parent([a, l]) == [a];
  }

  lemma {:induction false} DanglingWalk(a: string, o: string, l: string, n: string, links: nat)
    requires IsClean([a, o, l, n]) && a != o
    ensures Walk(DanglingLink(a, o, l, n), [], [a], links) == Reached([a], links)
    ensures links > 0 ==> Walk(DanglingLink(a, o, l, n), [], [a, l], links) == Missing([o], [n])
    ensures links == 0 ==> Walk(DanglingLink(a, o, l, n), [], [a, l], links) == Refused
  {
    var fs := DanglingLink(a, o, l, n);
    var s := [a, o, l, n];
    assert s[0] == a && s[1] == o && s[2] == l && s[3] == n;
    assert [a][1..] == [] && [a, l][1..] == [l] && [l][1..] == [] && [] + [a] == [a] && [a] + [l] == [a, l];
    assert [o, n] + [] == [o, n] && [o, n][1..] == [n] && [] + [o] == [o] && [o] + [n] == [o, n];
    assert [o, n] !in fs by { assert [o, n][0] != [a, l][0]; }
    if links > 0 {
      assert Walk(fs, [o], [n], links - 1) == Missing([o], [n]);
      assert Walk(fs, [], [o, n], links - 1) == Missing([o], [n]);
      assert Walk(fs, [a], [l], links) == Missing([o], [n]);
    }
  }

  /** Root `a`, path `a/l`: the link's own name is taken for a missing file, the path is accepted,
      and the open creates `o/n`, outside the root. */
  lemma {:induction false} DanglingLinkEscapes(a: string, o: string, l: string, n: string, links: nat)
    requires IsClean([a, o, l, n]) && NoSlash([a, o, l, n]) && a != o && links > 0
    ensures var fs := DanglingLink(a, o, l, n);
            && Tree(fs) && Eval(fs)([a]) == Some([a])
            && ResolvesTo(Eval(fs), [a, l], [a, l]) && Inside([a], [a, l])
            && Open(fs, [a, l], links) == Some([o, n]) && !Inside([a], [o, n])
  {
    var fs := DanglingLink(a, o, l, n);
    DanglingTree(a, o, l, n);
    DanglingWalk(a, o, l, n, EVAL_LINKS);
    DanglingWalk(a, o, l, n, links);
    assert [a, l][..1] == [a] && [a, l][..2] == [a, l] && [a, l][1..] == [l] && [a] + [l] == [a, l];
    assert Longest(Eval(fs), [a, l], 1);
    assert [o] + [n] == [o, n] && [o, n][..1] == [o];
    assert [o][0] != [a][0];
  }
}
