/** Printing with separators, and scanning the print back. */
module Scanning {
  import opened Text

  /** A scanned value and the text after it. */
  datatype Parsed<+T> = Parsed(value: T, rest: string)

  function PrintList<T>(show: T -> string, sep: string, xs: seq<T>): string {
    if xs == [] then ""
    else if |xs| == 1 then show(xs[0])
    else show(xs[0]) + (sep + PrintList(show, sep, xs[1..]))
  }

  function Expect(s: string, p: string): Option<string> {
    if |s| >= |p| && s[..|p|] == p then Some(s[|p|..]) else None
  }

  /** One item, and as long as a separator follows, another. */
  function ScanList<T>(item: string -> Option<Parsed<T>>, sep: string, s: string): Option<Parsed<seq<T>>>
    decreases |s|
  {
    var x :- item(s);
    match Expect(x.rest, sep)
    case None => Some(Parsed([x.value], x.rest))
    case Some(more) =>
      if |more| >= |s| then None
      else
        var xs :- ScanList(item, sep, more);
        Some(Parsed([x.value] + xs.value, xs.rest))
  }

  lemma {:induction false} ExpectCat(p: string, rest: string)
    ensures Expect(p + rest, p) == Some(rest)
  {
    assert (p + rest)[..|p|] == p && (p + rest)[|p|..] == rest;
  }

  /** A different character where `p` has `p[k]` rules `p` out. */
  lemma {:induction false} ExpectDiffers(s: string, p: string, k: nat)
    requires k < |p| && (k < |s| ==> s[k] != p[k])
    ensures Expect(s, p).None?
  {
    if |s| >= |p| { assert s[..|p|][k] == s[k]; }
  }

  /** Scanning undoes printing on these items, before any text that `ends` an item. */
  ghost predicate Undoes<T(!new)>(item: string -> Option<Parsed<T>>, show: T -> string, ends: string -> bool, xs: seq<T>) {
    forall i, rest | 0 <= i < |xs| && ends(rest) :: item(show(xs[i]) + rest) == Some(Parsed(xs[i], rest))
  }

  lemma {:induction false} ScanListMore<T>(item: string -> Option<Parsed<T>>, sep: string, s: string, x: T, more: string, xs: seq<T>, rest: string)
    requires item(s) == Some(Parsed(x, sep + more)) && |more| < |s|
    requires ScanList(item, sep, more) == Some(Parsed(xs, rest))
    ensures ScanList(item, sep, s) == Some(Parsed([x] + xs, rest))
  {
    ExpectCat(sep, more);
  }

  lemma {:induction false} UndoesTail<T(!new)>(item: string -> Option<Parsed<T>>, show: T -> string, ends: string -> bool, xs: seq<T>)
    requires Undoes(item, show, ends, xs) && xs != []
    ensures Undoes(item, show, ends, xs[1..])
  {
    forall i, rest | 0 <= i < |xs[1..]| && ends(rest) ensures item(show(xs[1..][i]) + rest) == Some(Parsed(xs[1..][i], rest)) {
      assert xs[1..][i] == xs[i + 1];
      assert item(show(xs[i + 1]) + rest) == Some(Parsed(xs[i + 1], rest));
    }
  }

  /** If scanning undoes printing for the items, it does for the separated list. */
  lemma {:induction false} ListRoundTrip<T(!new)>(item: string -> Option<Parsed<T>>, show: T -> string, ends: string -> bool, sep: string, xs: seq<T>, rest: string)
    requires Undoes(item, show, ends, xs) && xs != []
    requires sep != "" && (forall more :: ends(sep + more)) && ends(rest) && Expect(rest, sep).None?
    ensures ScanList(item, sep, PrintList(show, sep, xs) + rest) == Some(Parsed(xs, rest))
    decreases |xs|
  {
    var x := xs[0];
    if |xs| == 1 {
      assert item(show(xs[0]) + rest) == Some(Parsed(x, rest));
      assert [x] == xs;
    } else {
      UndoesTail(item, show, ends, xs);
      ListRoundTrip(item, show, ends, sep, xs[1..], rest);
      var others := PrintList(show, sep, xs[1..]);
      var tail := sep + (others + rest);
      Cat(show(x), sep + others, rest);
      Cat(sep, others, rest);
      assert ends(tail);
      assert item(show(xs[0]) + tail) == Some(Parsed(x, tail));
      ScanListMore(item, sep, show(x) + tail, x, others + rest, xs[1..], rest);
      assert [x] + xs[1..] == xs;
    }
  }
}
