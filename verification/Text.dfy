/** Strings as the designer and the server treat them: trimming, splitting on a
    separator, joining, and the comma-separated identifier lists of the designer. */
module Text {

  datatype Option<+T> = None | Some(value: T) {
    predicate IsFailure() { None? }

    function PropagateFailure<U>(): Option<U>
      requires None?
    {
      None
    }

    function Extract(): T
      requires Some?
    {
      value
    }
  }

  predicate NoDup<T(==)>(s: seq<T>) {
    forall i, j | 0 <= i < j < |s| :: s[i] != s[j]
  }

  lemma {:induction false} Cat(a: string, b: string, c: string)
    ensures (a + b) + c == a + (b + c)
  {
  }

  lemma {:induction false} HeadTail(s: string)
    requires s != ""
    ensures [s[0]] + s[1..] == s
  {
  }

  /** White space as String.prototype.trim sees it. */
  predicate IsSpace(c: char) {
    || '\t' <= c <= '\r'
    || c == ' ' || c == '\U{00A0}' || c == '\U{1680}' || c == '\U{FEFF}'
    || '\U{2000}' <= c <= '\U{200A}'
    || c == '\U{2028}' || c == '\U{2029}' || c == '\U{202F}' || c == '\U{205F}' || c == '\U{3000}'
  }

  function TrimStart(s: string): string {
    if s != "" && IsSpace(s[0]) then TrimStart(s[1..]) else s
  }

  function TrimEnd(s: string): string {
    if s != "" && IsSpace(s[|s| - 1]) then TrimEnd(s[..|s| - 1]) else s
  }

  function Trim(s: string): string {
    TrimEnd(TrimStart(s))
  }

  /** The blanks are these twenty-five characters. */
  lemma {:induction false} SpacesAre(c: char)
    ensures IsSpace(c) <==>
            c as int in {9, 10, 11, 12, 13, 32, 0xA0, 0x1680, 0x2000, 0x2001, 0x2002, 0x2003, 0x2004, 0x2005, 0x2006, 0x2007,
                         0x2008, 0x2009, 0x200A, 0x2028, 0x2029, 0x202F, 0x205F, 0x3000, 0xFEFF}
  {
  }

  predicate AllSpace(s: string) { forall i | 0 <= i < |s| :: IsSpace(s[i]) }

  /** What trimming takes off in front and behind. */
  function TrimmedOff(s: string): (string, string) {
    var t := TrimStart(s);
    (if |t| <= |s| then s[..|s| - |t|] else "", if |TrimEnd(t)| <= |t| then t[|TrimEnd(t)|..] else "")
  }

  /** Trimming takes off blanks only, and all of them: what is left neither starts nor ends in one. */
  lemma {:induction false} TrimCuts(s: string)
    ensures var (a, b) := TrimmedOff(s); s == a + Trim(s) + b && AllSpace(a) && AllSpace(b)
    ensures Trim(s) != "" ==> !IsSpace(Trim(s)[0]) && !IsSpace(Trim(s)[|Trim(s)| - 1])
  {
    TrimStartCuts(s);
    TrimEndCuts(TrimStart(s));
  }

  lemma {:induction false} TrimStartCuts(s: string)
    ensures var t := TrimStart(s); |t| <= |s| && s[|s| - |t|..] == t && AllSpace(s[..|s| - |t|]) && (t != "" ==> !IsSpace(t[0]))
  {
    if s != "" && IsSpace(s[0]) {
      TrimStartCuts(s[1..]);
      var n := |s| - |TrimStart(s)|;
      assert s[..n] == [s[0]] + s[1..][..n - 1];
    }
  }

  lemma {:induction false} TrimEndCuts(s: string)
    ensures var t := TrimEnd(s); |t| <= |s| && s[..|t|] == t && AllSpace(s[|t|..]) && (t != "" ==> !IsSpace(t[|t| - 1]))
  {
    if s != "" && IsSpace(s[|s| - 1]) {
      var u := s[..|s| - 1];
      TrimEndCuts(u);
      assert s[|TrimEnd(s)|..] == u[|TrimEnd(s)|..] + [s[|s| - 1]];
    }
  }

  lemma {:induction false} TrimStartSnoc(s: string, c: char)
    requires IsSpace(c)
    ensures TrimStart(s + [c]) == if TrimStart(s) == "" then "" else TrimStart(s) + [c]
  {
    if s == "" {
      assert ([c])[1..] == "";
      assert s + [c] == [c];
    } else if IsSpace(s[0]) {
      assert (s + [c])[1..] == s[1..] + [c];
      TrimStartSnoc(s[1..], c);
    }
  }

  /** Trimming ignores one more blank at either end. */
  lemma {:induction false} TrimPadded(s: string, c: char)
    requires IsSpace(c)
    ensures Trim([c] + s) == Trim(s)
    ensures Trim(s + [c]) == Trim(s)
  {
    assert ([c] + s)[1..] == s;
    TrimStartSnoc(s, c);
    var u := TrimStart(s);
    assert (u + [c])[..|u|] == u;
  }

  /** Splitting keeps empty pieces and always yields at least one piece. */
  function Split(s: string, sep: char): (parts: seq<string>)
    ensures |parts| >= 1
  {
    if s == "" then [""]
    else
      var rest := Split(s[1..], sep);
      if s[0] == sep then [""] + rest else [[s[0]] + rest[0]] + rest[1..]
  }

  function Join(parts: seq<string>, sep: string): string {
    if parts == [] then ""
    else if |parts| == 1 then parts[0]
    else parts[0] + sep + Join(parts[1..], sep)
  }

  /** A separator cuts: the pieces of the two sides are independent. */
  lemma {:induction false} SplitAtSeparator(a: string, sep: char, b: string)
    ensures Split(a + [sep] + b, sep) == Split(a, sep) + Split(b, sep)
  {
    if a == "" {
      assert (a + [sep] + b)[1..] == b;
    } else {
      assert (a + [sep] + b)[1..] == a[1..] + [sep] + b;
      SplitAtSeparator(a[1..], sep, b);
    }
  }

  lemma {:induction false} SplitWhole(s: string, sep: char)
    requires sep !in s
    ensures Split(s, sep) == [s]
  {
    if s != "" {
      SplitWhole(s[1..], sep);
      assert [s[0]] + s[1..] == s;
    }
  }

  /** Splitting recovers what was joined when no piece holds the separator. */
  lemma {:induction false} SplitJoined(parts: seq<string>, sep: char)
    requires parts != []
    requires forall p | p in parts :: sep !in p
    ensures Split(Join(parts, [sep]), sep) == parts
  {
    SplitWhole(parts[0], sep);
    if |parts| > 1 {
      SplitAtSeparator(parts[0], sep, Join(parts[1..], [sep]));
      SplitJoined(parts[1..], sep);
    }
  }

  /** Splitting is what joining undoes: no piece holds the separator, and joined they give the text. */
  lemma {:induction false} SplitIs(s: string, sep: char)
    ensures Join(Split(s, sep), [sep]) == s && forall p | p in Split(s, sep) :: sep !in p
  {
    if s != "" {
      var rest := Split(s[1..], sep);
      SplitIs(s[1..], sep);
      HeadTail(s);
      assert rest[0] in rest && forall p | p in rest[1..] :: p in rest;
      if s[0] == sep {
        assert ([""] + rest)[1..] == rest;
      } else {
        var first := [s[0]] + rest[0];
        assert ([first] + rest[1..])[1..] == rest[1..];
        Cat([s[0]], rest[0], [sep] + Join(rest[1..], [sep]));
      }
    }
  }

  /** Trim every piece and keep the non-empty ones. */
  function Kept(parts: seq<string>): seq<string> {
    if parts == [] then []
    else (if Trim(parts[0]) == "" then [] else [Trim(parts[0])]) + Kept(parts[1..])
  }

  /** The designer's identifier list: "a, b ,,c" names a, b and c. */
  function IdList(s: string): seq<string> {
    Kept(Split(s, ','))
  }

  /** The identifiers are the pieces between commas, trimmed, as far as anything is left of them. */
  lemma {:induction false} IdListHas(s: string, n: string)
    ensures n in IdList(s) <==> n != "" && exists p :: p in Split(s, ',') && Trim(p) == n
  {
    KeptHas(Split(s, ','), n);
  }

  lemma {:induction false} KeptHas(parts: seq<string>, n: string)
    ensures n in Kept(parts) <==> n != "" && exists p :: p in parts && Trim(p) == n
  {
    if parts != [] {
      KeptHas(parts[1..], n);
      assert forall p | p in parts :: p == parts[0] || p in parts[1..];
      assert parts[0] in parts && forall p | p in parts[1..] :: p in parts;
    }
  }

  lemma {:induction false} SplitSnoc(s: string, c: char, sep: char)
    requires c != sep
    ensures var p := Split(s, sep); Split(s + [c], sep) == p[..|p| - 1] + [p[|p| - 1] + [c]]
  {
    if s == "" {
      assert s + [c] == [c] && ([c])[1..] == "";
      assert [c] + "" == "" + [c];
    } else {
      assert (s + [c])[1..] == s[1..] + [c];
      SplitSnoc(s[1..], c, sep);
      var r := Split(s[1..], sep);
      if s[0] != sep && |r| == 1 {
        assert [s[0]] + (r[0] + [c]) == ([s[0]] + r[0]) + [c];
      }
    }
  }

  lemma {:induction false} KeptConcat(a: seq<string>, b: seq<string>)
    ensures Kept(a + b) == Kept(a) + Kept(b)
  {
    if a == [] {
      assert a + b == b;
    } else {
      assert (a + b)[1..] == a[1..] + b;
      KeptConcat(a[1..], b);
    }
  }

  lemma {:induction false} IdListPadded(s: string, c: char)
    requires IsSpace(c)
    ensures IdList([c] + s) == IdList(s)
    ensures IdList(s + [c]) == IdList(s)
  {
    var p := Split(s, ',');
    assert ([c] + s)[1..] == s;
    TrimPadded(p[0], c);
    var q := p[..|p| - 1];
    var last := p[|p| - 1];
    TrimPadded(last, c);
    SplitSnoc(s, c, ',');
    assert p == q + [last];
    KeptConcat(q, [last]);
    KeptConcat(q, [last + [c]]);
  }

  lemma {:induction false} IdListTrimStart(s: string)
    ensures IdList(TrimStart(s)) == IdList(s)
  {
    if s != "" && IsSpace(s[0]) {
      IdListTrimStart(s[1..]);
      assert s == [s[0]] + s[1..];
      IdListPadded(s[1..], s[0]);
    }
  }

  lemma {:induction false} IdListTrimEnd(s: string)
    ensures IdList(TrimEnd(s)) == IdList(s)
  {
    if s != "" && IsSpace(s[|s| - 1]) {
      var u := s[..|s| - 1];
      IdListTrimEnd(u);
      assert s == u + [s[|s| - 1]];
      IdListPadded(u, s[|s| - 1]);
    }
  }

  /** Two texts equal up to outer blanks name the same identifiers. */
  lemma {:induction false} IdListTrimmed(s: string, t: string)
    requires Trim(s) == Trim(t)
    ensures IdList(s) == IdList(t)
  {
    IdListTrimStart(s);
    IdListTrimEnd(TrimStart(s));
    IdListTrimStart(t);
    IdListTrimEnd(TrimStart(t));
  }
}
