/** Rows copied as delimited text, against a reader of section 2 of RFC 4180, rules 5 to 7, with
    LF as the record break. */
module Delimited {
  import opened Text
  import opened Scanning
  import opened Quoting
  import Ddl

  /** Quoted only when the cell holds the separator, a quote or a line break. */
  function DelimCell(s: string, sep: char): string {
    if sep in s || '"' in s || '\n' in s then "\"" + Replace(s, '"', "\"\"") + "\"" else s
  }

  /** A cell is printed as it is exactly when nothing in it needs quoting. */
  lemma {:induction false} QuotedOnlyIfNeeded(s: string, sep: char)
    ensures DelimCell(s, sep) == s <==> sep !in s && '"' !in s && '\n' !in s
  {
    if sep in s || '"' in s || '\n' in s {
      ReplaceGrows(s);
      assert |DelimCell(s, sep)| >= |s| + 2;
    }
  }

  lemma {:induction false} ReplaceGrows(s: string)
    ensures |Replace(s, '"', "\"\"")| >= |s|
  {
    if s != "" { ReplaceGrows(s[1..]); }
  }

  function ShowCell(sep: char): string -> string { (s: string) => DelimCell(s, sep) }

  function ShowRow(sep: char): seq<string> -> string {
    (row: seq<string>) => PrintList(ShowCell(sep), [sep], row)
  }

  /** The header and the rows. */
  function Delimited(cols: seq<string>, rows: seq<seq<string>>, sep: char): string {
    PrintList(ShowRow(sep), "\n", [cols] + rows)
  }

  // ---- the reader ----

  predicate CellEnds(sep: char, rest: string) { rest == "" || rest[0] == sep || rest[0] == '\n' }

  /** An unquoted field may not hold a quote. */
  function ScanPlain(sep: char, s: string): Option<Parsed<string>> {
    if CellEnds(sep, s) then Some(Parsed("", s))
    else if s[0] == '"' then None
    else Prefixed([s[0]], ScanPlain(sep, s[1..]))
  }

  function ScanCell(sep: char, s: string): Option<Parsed<string>> {
    if s != "" && s[0] == '"' then
      var x :- ScanQuoted('"', false, s);
      if CellEnds(sep, x.rest) then Some(x) else None
    else ScanPlain(sep, s)
  }

  function CellItem(sep: char): string -> Option<Parsed<string>> { (s: string) => ScanCell(sep, s) }

  function RowItem(sep: char): string -> Option<Parsed<seq<string>>> {
    (s: string) => ScanList(CellItem(sep), [sep], s)
  }

  function Read(sep: char, s: string): Option<seq<seq<string>>> {
    var t :- ScanList(RowItem(sep), "\n", s);
    if t.rest == "" then Some(t.value) else None
  }

  // ---- reading undoes writing ----

  lemma {:induction false} PlainRoundTrip(sep: char, s: string, rest: string)
    requires sep !in s && '"' !in s && '\n' !in s && CellEnds(sep, rest)
    ensures ScanPlain(sep, s + rest) == Some(Parsed(s, rest))
  {
    if s == "" {
      assert s + rest == rest;
    } else {
      PlainRoundTrip(sep, s[1..], rest);
      assert (s + rest)[0] == s[0] && (s + rest)[1..] == s[1..] + rest;
      HeadTail(s);
    }
  }

  predicate Separator(sep: char) { sep != '"' && sep != '\n' }

  lemma {:induction false} CellRoundTrip(sep: char, s: string, rest: string)
    requires Separator(sep) && CellEnds(sep, rest)
    ensures ScanCell(sep, DelimCell(s, sep) + rest) == Some(Parsed(s, rest))
  {
    if sep in s || '"' in s || '\n' in s {
      IdentRoundTrip(Ddl.Postgres, s, rest);
    } else {
      PlainRoundTrip(sep, s, rest);
      assert s != "" ==> (s + rest)[0] == s[0];
    }
  }

  function CellStop(sep: char): string -> bool { (rest: string) => CellEnds(sep, rest) }

  lemma {:induction false} RowRoundTrip(sep: char, row: seq<string>, rest: string)
    requires Separator(sep) && row != [] && Ends('"', rest) && (rest == "" || rest[0] == '\n')
    ensures RowItem(sep)(ShowRow(sep)(row) + rest) == Some(Parsed(row, rest))
  {
    forall i, r | 0 <= i < |row| && CellStop(sep)(r) ensures CellItem(sep)(ShowCell(sep)(row[i]) + r) == Some(Parsed(row[i], r)) {
      CellRoundTrip(sep, row[i], r);
    }
    ExpectDiffers(rest, [sep], 0);
    ListRoundTrip(CellItem(sep), ShowCell(sep), CellStop(sep), [sep], row, rest);
  }

  predicate RowEnds(rest: string) { rest == "" || rest[0] == '\n' }

  lemma {:induction false} RowsRoundTrip(sep: char, rows: seq<seq<string>>)
    requires Separator(sep) && rows != [] && forall i | 0 <= i < |rows| :: rows[i] != []
    ensures Read(sep, PrintList(ShowRow(sep), "\n", rows)) == Some(rows)
  {
    forall i, r | 0 <= i < |rows| && RowEnds(r) ensures RowItem(sep)(ShowRow(sep)(rows[i]) + r) == Some(Parsed(rows[i], r)) {
      RowRoundTrip(sep, rows[i], r);
    }
    ListRoundTrip(RowItem(sep), ShowRow(sep), RowEnds, "\n", rows, "");
    assert PrintList(ShowRow(sep), "\n", rows) + "" == PrintList(ShowRow(sep), "\n", rows);
  }

  /** Whatever the cells hold, the header and every row come back (comma, tab, bar and semicolon
      are the separators on offer). */
  lemma {:induction false} DelimitedRoundTrip(cols: seq<string>, rows: seq<seq<string>>, sep: char)
    requires Separator(sep) && cols != [] && forall i | 0 <= i < |rows| :: |rows[i]| == |cols|
    ensures Read(sep, Delimited(cols, rows, sep)) == Some([cols] + rows)
  {
    RowsRoundTrip(sep, [cols] + rows);
  }

  // ---- rule 2: the last record may or may not end in a line break ----

  predicate EndsInBreak(s: string) { s != "" && s[|s| - 1] == '\n' }

  function ReadTerminated(sep: char, s: string): Option<seq<seq<string>>> {
    Read(sep, if EndsInBreak(s) then s[..|s| - 1] else s)
  }

  lemma {:induction false} CellTail(s: string, sep: char)
    ensures !EndsInBreak(DelimCell(s, sep)) && (DelimCell(s, sep) == "" <==> s == "")
  {
    if s != "" && s[|s| - 1] == '\n' { assert '\n' in s; }
  }

  lemma {:induction false} RowTail(row: seq<string>, sep: char)
    requires Separator(sep) && row != []
    ensures !EndsInBreak(ShowRow(sep)(row)) && (ShowRow(sep)(row) == "" <==> row == [""])
    decreases |row|
  {
    CellTail(row[0], sep);
    if |row| == 1 {
      assert row == [row[0]];
    } else {
      RowTail(row[1..], sep);
      var others := PrintList(ShowCell(sep), [sep], row[1..]);
      var s := DelimCell(row[0], sep) + ([sep] + others);
      assert s[|s| - 1] == if others == "" then sep else others[|others| - 1];
    }
  }

  lemma {:induction false} PrintListSnoc<T>(show: T -> string, sep: string, xs: seq<T>, x: T)
    requires xs != []
    ensures PrintList(show, sep, xs + [x]) == PrintList(show, sep, xs) + (sep + show(x))
    decreases |xs|
  {
    assert (xs + [x])[1..] == xs[1..] + [x];
    if |xs| > 1 {
      PrintListSnoc(show, sep, xs[1..], x);
      Cat(sep, PrintList(show, sep, xs[1..]), sep + show(x));
      Cat(show(xs[0]), sep + PrintList(show, sep, xs[1..]), sep + show(x));
    }
  }

  lemma {:induction false} DropLastChar(s: string)
    ensures EndsInBreak(s + "\n") && (s + "\n")[..|s + "\n"| - 1] == s
  {
  }

  lemma {:induction false} LastOfCat(s: string, t: string)
    requires t != ""
    ensures EndsInBreak(s + t) == EndsInBreak(t)
  {
  }

  /** A reader that takes a final line break as the end of the last record gets everything back
      exactly when the last row is not a single empty cell. */
  lemma {:induction false} FinalBreakIsAmbiguous(cols: seq<string>, rows: seq<seq<string>>, sep: char)
    requires Separator(sep) && cols != [] && forall i | 0 <= i < |rows| :: |rows[i]| == |cols|
    ensures ReadTerminated(sep, Delimited(cols, rows, sep)) == Some([cols] + rows) <==> rows == [] || rows[|rows| - 1] != [""]
  {
    DelimitedRoundTrip(cols, rows, sep);
    if rows == [] {
      RowTail(cols, sep);
    } else {
      var n := |rows| - 1;
      var init, last := [cols] + rows[..n], rows[n];
      assert init + [last] == [cols] + rows;
      PrintListSnoc(ShowRow(sep), "\n", init, last);
      RowTail(last, sep);
      LastOfCat(PrintList(ShowRow(sep), "\n", init), "\n" + ShowRow(sep)(last));
      if last == [""] {
        DropLastChar(PrintList(ShowRow(sep), "\n", init));
        RowsRoundTrip(sep, init);
        assert |init| < |init + [last]|;
      } else {
        LastOfCat("\n", ShowRow(sep)(last));
      }
    }
  }
}
