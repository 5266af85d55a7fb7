/** Quoting of names and text in the three dialects, against scanners of the dialects' own rules. */
module Quoting {
  import opened Text
  import opened Ddl
  import opened Scanning

  /** Replaces every occurrence of one character. */
  function Replace(s: string, c: char, sub: string): string {
    if s == "" then "" else (if s[0] == c then sub else [s[0]]) + Replace(s[1..], c, sub)
  }

  function NameQuote(e: Engine): char { if e.MySQL? then '`' else '"' }

  function QuoteIdent(e: Engine, s: string): string {
    var q := NameQuote(e);
    [q] + Replace(s, q, [q, q]) + [q]
  }

  /** MySQL: one pass over backslashes, then one over quotes. */
  function QuoteLiteral(e: Engine, s: string): string {
    var s1 := if e.MySQL? then Replace(s, '\\', "\\\\") else s;
    "'" + Replace(s1, '\'', "''") + "'"
  }

  const MAIN_SCHEMA := "main"

  /** The schema that the printed name carries, if any. */
  function PrintedSchema(e: Engine, schema: string): Option<string> {
    match e
    case Postgres => Some(schema)
    case MySQL => if schema == "" then None else Some(schema)
    case SQLite => if schema == "" || schema == MAIN_SCHEMA then None else Some(schema)
  }

  function Qualified(e: Engine, schema: string, table: string): string {
    if PrintedSchema(e, schema).None? then QuoteIdent(e, table)
    else QuoteIdent(e, schema) + "." + QuoteIdent(e, table)
  }

  // ---- the scanners ----

  /** The text a backslash and `c` stand for in a MySQL string. */
  function Unescape(c: char): string {
    match c
    case '0' => "\0"
    case 'b' => "\U{08}"
    case 'n' => "\n"
    case 'r' => "\r"
    case 't' => "\t"
    case 'Z' => "\U{1A}"
    case '%' => "\\%"
    case '_' => "\\_"
    case _ => [c]
  }

  function Prefixed(p: string, r: Option<Parsed<string>>): Option<Parsed<string>> {
    match r
    case None => None
    case Some(x) => Some(Parsed(p + x.value, x.rest))
  }

  /** What follows an opening `q`: a doubled quote is one quote, a single one ends the token. */
  function ScanBody(q: char, backslash: bool, s: string): Option<Parsed<string>> {
    if s == "" then None
    else if s[0] == q then
      if |s| > 1 && s[1] == q then Prefixed([q], ScanBody(q, backslash, s[2..]))
      else Some(Parsed("", s[1..]))
    else if backslash && s[0] == '\\' then
      if |s| == 1 then None else Prefixed(Unescape(s[1]), ScanBody(q, backslash, s[2..]))
    else Prefixed([s[0]], ScanBody(q, backslash, s[1..]))
  }

  function ScanQuoted(q: char, backslash: bool, s: string): Option<Parsed<string>> {
    if s == "" || s[0] != q then None else ScanBody(q, backslash, s[1..])
  }

  function ScanIdent(e: Engine, s: string): Option<Parsed<string>> {
    ScanQuoted(match e case MySQL => '`' case Postgres => '"' case SQLite => '"', false, s)
  }

  function ScanLiteral(e: Engine, s: string): Option<Parsed<string>> {
    ScanQuoted('\'', e.MySQL?, s)
  }

  datatype Name = Name(schema: Option<string>, table: string)

  /** A quoted name, or two with a dot between. */
  function ScanName(e: Engine, s: string): Option<Parsed<Name>> {
    match ScanIdent(e, s)
    case None => None
    case Some(x) =>
      if x.rest == "" || x.rest[0] != '.' then Some(Parsed(Name(None, x.value), x.rest))
      else
        match ScanIdent(e, x.rest[1..])
        case None => None
        case Some(y) => Some(Parsed(Name(Some(x.value), y.value), y.rest))
  }

  // ---- scanning undoes quoting ----

  function EscapedChar(q: char, backslash: bool, c: char): string {
    if c == q then [q, q] else if backslash && c == '\\' then "\\\\" else [c]
  }

  function Escaped(q: char, backslash: bool, s: string): string {
    if s == "" then "" else EscapedChar(q, backslash, s[0]) + Escaped(q, backslash, s[1..])
  }

  lemma {:induction false} ReplaceConcat(a: string, b: string, c: char, sub: string)
    ensures Replace(a + b, c, sub) == Replace(a, c, sub) + Replace(b, c, sub)
  {
    if a == "" {
      assert a + b == b;
    } else {
      assert (a + b)[1..] == a[1..] + b;
      ReplaceConcat(a[1..], b, c, sub);
    }
  }

  lemma {:induction false} OnePass(q: char, s: string)
    ensures Replace(s, q, [q, q]) == Escaped(q, false, s)
  {
    if s != "" { OnePass(q, s[1..]); }
  }

  /** The second pass leaves the doubled backslashes of the first alone. */
  lemma {:induction false} TwoPasses(q: char, s: string)
    requires q != '\\'
    ensures Replace(Replace(s, '\\', "\\\\"), q, [q, q]) == Escaped(q, true, s)
  {
    if s != "" {
      TwoPasses(q, s[1..]);
      var head := if s[0] == '\\' then "\\\\" else [s[0]];
      ReplaceConcat(head, Replace(s[1..], '\\', "\\\\"), q, [q, q]);
      if s[0] == '\\' {
        assert head[1..] == "\\" && head[1..][1..] == "";
      } else {
        assert head[1..] == "";
      }
    }
  }

  /** The rest does not continue the token. */
  predicate Ends(q: char, rest: string) { rest == "" || rest[0] != q }

  lemma {:induction false} ScanOne(q: char, backslash: bool, c: char, more: string)
    requires q != '\\'
    ensures ScanBody(q, backslash, EscapedChar(q, backslash, c) + more) == Prefixed([c], ScanBody(q, backslash, more))
  {
    var all := EscapedChar(q, backslash, c) + more;
    if |EscapedChar(q, backslash, c)| == 2 {
      assert all[0] == c && all[1] == c && all[2..] == more;
    } else {
      assert all[0] == c && all[1..] == more;
    }
  }

  lemma {:induction false} ScanEscaped(q: char, backslash: bool, s: string, rest: string)
    requires q != '\\' && Ends(q, rest)
    ensures ScanBody(q, backslash, Escaped(q, backslash, s) + ([q] + rest)) == Some(Parsed(s, rest))
  {
    var tail := [q] + rest;
    if s == "" {
      assert Escaped(q, backslash, s) + tail == tail && tail[1..] == rest;
    } else {
      ScanEscaped(q, backslash, s[1..], rest);
      var more := Escaped(q, backslash, s[1..]) + tail;
      ScanOne(q, backslash, s[0], more);
      Cat(EscapedChar(q, backslash, s[0]), Escaped(q, backslash, s[1..]), tail);
      HeadTail(s);
    }
  }

  lemma {:induction false} QuotedTail(q: char, body: string, rest: string)
    ensures var s := [q] + body + [q] + rest; s[0] == q && s[1..] == body + ([q] + rest)
  {
  }

  lemma {:induction false} IdentRoundTrip(e: Engine, s: string, rest: string)
    requires Ends(NameQuote(e), rest)
    ensures ScanIdent(e, QuoteIdent(e, s) + rest) == Some(Parsed(s, rest))
  {
    var q := NameQuote(e);
    OnePass(q, s);
    ScanEscaped(q, false, s, rest);
    QuotedTail(q, Escaped(q, false, s), rest);
  }

  lemma {:induction false} LiteralRoundTrip(e: Engine, s: string, rest: string)
    requires Ends('\'', rest)
    ensures ScanLiteral(e, QuoteLiteral(e, s) + rest) == Some(Parsed(s, rest))
  {
    OnePass('\'', s);
    TwoPasses('\'', s);
    ScanEscaped('\'', e.MySQL?, s, rest);
    QuotedTail('\'', Escaped('\'', e.MySQL?, s), rest);
  }

  /** Two parts, always: the form the browser side prints. */
  lemma {:induction false} TwoPartRoundTrip(e: Engine, schema: string, table: string, rest: string)
    requires Ends(NameQuote(e), rest)
    ensures ScanName(e, QuoteIdent(e, schema) + "." + QuoteIdent(e, table) + rest) == Some(Parsed(Name(Some(schema), table), rest))
  {
    var a, b := QuoteIdent(e, schema), QuoteIdent(e, table);
    var tail := "." + (b + rest);
    IdentRoundTrip(e, schema, tail);
    IdentRoundTrip(e, table, rest);
    assert tail[1..] == b + rest;
    Cat(a + ".", b, rest);
    Cat(a, ".", b + rest);
  }

  lemma {:induction false} QualifiedRoundTrip(e: Engine, schema: string, table: string, rest: string)
    requires Ends(NameQuote(e), rest) && Ends('.', rest)
    ensures ScanName(e, Qualified(e, schema, table) + rest) == Some(Parsed(Name(PrintedSchema(e, schema), table), rest))
    ensures PrintedSchema(e, schema) == if (schema == "" && !e.Postgres?) || (schema == "main" && e.SQLite?) then None else Some(schema)
  {
    if PrintedSchema(e, schema).None? {
      IdentRoundTrip(e, table, rest);
    } else {
      TwoPartRoundTrip(e, schema, table, rest);
    }
  }

  /** A printed name determines its table, and its schema up to the spellings of the default one. */
  lemma {:induction false} QualifiedDetermines(e: Engine, s1: string, t1: string, s2: string, t2: string)
    ensures Qualified(e, s1, t1) == Qualified(e, s2, t2) <==> t1 == t2 && PrintedSchema(e, s1) == PrintedSchema(e, s2)
  {
    QualifiedRoundTrip(e, s1, t1, "");
    QualifiedRoundTrip(e, s2, t2, "");
    assert Qualified(e, s1, t1) + "" == Qualified(e, s1, t1) && Qualified(e, s2, t2) + "" == Qualified(e, s2, t2);
  }

  /** One pass would not do: in MySQL a text ending in a backslash would take the closing quote
      with it. */
  lemma {:induction false} BackslashPassIsNeeded()
    ensures ScanLiteral(MySQL, "'" + Replace("\\", '\'', "''") + "'").None?
  {
    var s := "'" + Replace("\\", '\'', "''") + "'";
    assert Replace("\\"[1..], '\'', "''") == "";
    assert s == "'\\'" && s[1..] == "\\'" && s[1..][2..] == "";
    assert ScanBody('\'', true, "").None?;
  }
}
