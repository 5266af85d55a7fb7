/** Walking the grid page by page over a fixed ordered result. */
module Paging {
  import opened GridCommit

  const MAX_ROWS: nat := 1000
  const BROWSE_LIMIT: int := 100

  datatype Page = Page(rows: seq<seq<string>>, truncated: bool)

  function Shown(rows: seq<Row>): (out: seq<seq<string>>)
    ensures |out| == |rows|
  {
    seq(|rows|, i requires 0 <= i < |rows| => ShowRow(rows[i]))
  }

  function Min(a: int, b: int): int { if a <= b then a else b }

  /** Every cell as its text, NULL as the glyph. */
  predicate Displays(row: Row, shown: seq<string>) {
    && |shown| == |row|
    && forall i | 0 <= i < |row| :: (row[i].Null? ==> shown[i] == "\U{2205}") && (row[i].Val? ==> shown[i] == row[i].text)
  }

  /** The row loop: at most `MAX_ROWS` rows, NULL shown as the glyph, and a mark when rows are left. */
  method RunStatement(avail: seq<Row>) returns (out: Page)
    ensures out == Page(Shown(avail[..Min(|avail|, MAX_ROWS)]), |avail| > MAX_ROWS)
    ensures |out.rows| == (if |avail| <= 1000 then |avail| else 1000) && out.truncated == (|avail| > 1000)
    ensures forall k | 0 <= k < |out.rows| :: Displays(avail[k], out.rows[k])
  {
    var rows: seq<seq<string>>, truncated := [], false;
    var k := 0;
    while k < |avail|
      invariant 0 <= k <= |avail| && k <= MAX_ROWS && rows == Shown(avail[..k]) && !truncated
    {
      if |rows| >= MAX_ROWS {
        truncated := true;
        break;
      }
      var row: seq<string> := [];
      for i := 0 to |avail[k]|
        invariant |row| == i && forall j | 0 <= j < i :: row[j] == Show(avail[k][j])
      {
        row := row + [if avail[k][i].Null? then NULL_GLYPH else avail[k][i].text];
      }
      assert row == ShowRow(avail[k]);
      rows := rows + [row];
      k := k + 1;
      assert rows == Shown(avail[..k]);
    }
    assert k == Min(|avail|, MAX_ROWS);
    return Page(rows, truncated);
  }

  /** LIMIT and OFFSET on the whole result. */
  function Window(all: seq<Row>, limit: nat, offset: nat): seq<Row> {
    if offset >= |all| then [] else all[offset..Min(offset + limit, |all|)]
  }

  /** `n` rows from number `from` on, as far as there are any. */
  function Slice(all: seq<Row>, from: nat, n: nat): (rows: seq<Row>)
    ensures |rows| <= n && forall i | 0 <= i < |rows| :: from + i < |all| && rows[i] == all[from + i]
    ensures |rows| < n ==> from + |rows| >= |all|
  {
    if from >= |all| then [] else if from + n >= |all| then all[from..] else all[from..from + n]
  }

  lemma {:induction false} WindowIs(all: seq<Row>, n: nat, from: nat)
    ensures Window(all, n, from) == Slice(all, from, n)
  {
  }

  function Limit(limit: int): (l: nat)
    ensures 1 <= l <= MAX_ROWS && (1 <= limit <= MAX_ROWS ==> l == limit)
  {
    if limit <= 0 || limit > MAX_ROWS then 100 else limit
  }

  function PageNumber(page: int): nat { if page < 0 then 0 else page }

  function PageSize(size: int): (s: nat)
    ensures 1 <= s <= MAX_ROWS && (1 <= size <= MAX_ROWS ==> s == size)
  {
    if size <= 0 || size > MAX_ROWS then BROWSE_LIMIT else size
  }

  method BrowseWhere(all: seq<Row>, limit: int, offset: nat) returns (out: Page)
    ensures out == Page(Shown(Window(all, Limit(limit), offset)), false)
    ensures var size := if 1 <= limit <= 1000 then limit else 100;
            out == Page(Shown(Slice(all, offset, size)), false)
  {
    var avail := Window(all, Limit(limit), offset);
    WindowIs(all, Limit(limit), offset);
    out := RunStatement(avail);
    assert avail[..|avail|] == avail;
  }

  /** The grid endpoint. */
  method ApiGrid(all: seq<Row>, page: int, size: int) returns (out: Page)
    ensures out == PageOf(all, page, size)
    ensures var count, from := if 1 <= size <= 1000 then size else 100, if page < 0 then 0 else page;
            out == Page(Shown(Slice(all, from * count, count)), false)
  {
    out := BrowseWhere(all, PageSize(size), PageNumber(page) * PageSize(size));
    WindowIs(all, PageSize(size), PageNumber(page) * PageSize(size));
  }

  function PageOf(all: seq<Row>, page: int, size: int): Page {
    Page(Shown(Window(all, PageSize(size), PageNumber(page) * PageSize(size))), false)
  }

  /** The client offers the next page exactly after a full one. */
  predicate HasNext(p: Page, size: int) { |p.rows| == size }

  lemma {:induction false} FullPage(all: seq<Row>, page: nat, size: nat)
    requires 1 <= size <= MAX_ROWS
    ensures HasNext(PageOf(all, page, size), size) <==> page * size + size <= |all|
  {
    assert (page + 1) * size == page * size + size;
  }

  /** Pressing "next" from `page` on for as long as it is offered. */
  ghost function Walk(all: seq<Row>, size: nat, page: nat): seq<Page>
    requires 1 <= size <= MAX_ROWS
    decreases |all| + size - page * size
  {
    var p := PageOf(all, page, size);
    FullPage(all, page, size);
    assert (page + 1) * size == page * size + size;
    if HasNext(p, size) then [p] + Walk(all, size, page + 1) else [p]
  }

  function Rows(ps: seq<Page>): seq<seq<string>> {
    if ps == [] then [] else ps[0].rows + Rows(ps[1..])
  }

  predicate Whole(ps: seq<Page>) { forall i | 0 <= i < |ps| :: !ps[i].truncated }

  lemma {:induction false} ShownConcat(a: seq<Row>, b: seq<Row>)
    ensures Shown(a + b) == Shown(a) + Shown(b)
  {
  }

  lemma {:induction false} ShownSplit(all: seq<Row>, off: nat, size: nat)
    requires off + size <= |all|
    ensures Shown(all[off..]) == Shown(Window(all, size, off)) + Shown(all[off + size..])
  {
    ShownConcat(all[off..off + size], all[off + size..]);
    assert all[off..] == all[off..off + size] + all[off + size..];
  }

  lemma {:induction false} NextOffset(page: nat, size: nat)
    ensures (page + 1) * size == page * size + size
  {
  }

  lemma {:induction false} PageRowsAt(all: seq<Row>, size: nat, page: nat, off: nat)
    requires 1 <= size <= MAX_ROWS && off == page * size
    ensures PageOf(all, page, size) == Page(Shown(Window(all, size, off)), false)
  {
  }

  /** One press of "next", or the end. */
  lemma {:induction false} WalkStep(all: seq<Row>, size: nat, page: nat, off: nat)
    requires 1 <= size <= MAX_ROWS && off == page * size
    ensures var p, w := Page(Shown(Window(all, size, off)), false), Walk(all, size, page);
            w == if off + size <= |all| then [p] + Walk(all, size, page + 1) else [p]
  {
    FullPage(all, page, size);
    PageRowsAt(all, size, page, off);
  }

  lemma {:induction false} RowsOfCons(p: Page, ps: seq<Page>)
    ensures Rows([p] + ps) == p.rows + Rows(ps) && Rows([p]) == p.rows
  {
    assert ([p] + ps)[1..] == ps && [p][1..] == [];
  }

  lemma {:induction false} WalkFrom(all: seq<Row>, size: nat, page: nat, off: nat)
    requires 1 <= size <= MAX_ROWS && off == page * size && off <= |all|
    ensures Rows(Walk(all, size, page)) == Shown(all[off..])
    decreases |all| - off
  {
    WalkStep(all, size, page, off);
    RowsOfCons(Page(Shown(Window(all, size, off)), false), Walk(all, size, page + 1));
    if off + size <= |all| {
      NextOffset(page, size);
      WalkFrom(all, size, page + 1, off + size);
      ShownSplit(all, off, size);
    } else {
      assert Window(all, size, off) == all[off..];
    }
  }

  lemma {:induction false} Multiple(d: int, size: nat)
    ensures d >= 1 ==> d * size >= size
    ensures d <= -1 ==> d * size + size <= 0
  {
    if d >= 1 { assert (d - 1) * size >= 0; }
    if d <= -1 { assert (-d - 1) * size >= 0; }
  }

  lemma {:induction false} QuotientIs(n: nat, size: nat, k: nat, r: nat)
    requires size >= 1 && n == k * size + r && r < size
    ensures n / size == k
  {
    var q := n / size;
    assert n == q * size + n % size;
    assert (q - k) * size == q * size - k * size;
    Multiple(q - k, size);
  }

  lemma {:induction false} OneMore(n: nat, size: nat)
    requires 1 <= size <= n
    ensures n / size == (n - size) / size + 1
  {
    var k, r := (n - size) / size, (n - size) % size;
    assert n - size == k * size + r;
    assert (k + 1) * size == k * size + size;
    QuotientIs(n, size, k + 1, r);
  }

  lemma {:induction false} WalkLength(all: seq<Row>, size: nat, page: nat, n: nat)
    requires 1 <= size <= MAX_ROWS && n == |all| - page * size
    ensures |Walk(all, size, page)| == n / size + 1
    ensures Whole(Walk(all, size, page))
    decreases n
  {
    NextOffset(page, size);
    WalkStep(all, size, page, page * size);
    if size <= n {
      WalkLength(all, size, page + 1, n - size);
      OneMore(n, size);
    } else {
      QuotientIs(n, size, 0, n);
    }
  }

  /** Every row once and in order, n / size + 1 pages, never truncated. */
  lemma {:induction false} WalkSeesEverything(all: seq<Row>, size: nat)
    requires 1 <= size <= MAX_ROWS
    ensures var ps := Walk(all, size, 0);
            && Rows(ps) == Shown(all)
            && |ps| == |all| / size + 1
            && Whole(ps)
  {
    WalkFrom(all, size, 0, 0);
    assert all[0..] == all;
    WalkLength(all, size, 0, |all|);
  }

  /** The total shown without a plus sign is exact, and with one there is at least that much. */
  lemma {:induction false} TotalIsExact(all: seq<Row>, page: nat, size: nat)
    requires 1 <= size <= MAX_ROWS && page * size <= |all|
    ensures var p := PageOf(all, page, size); var last := page * size + |p.rows|;
            last <= |all| && (|p.rows| != size ==> last == |all|)
  {
    FullPage(all, page, size);
  }

  /** A size the server does not accept is replaced by 100 there but not in the client, which then
      stops after the first page: everything is seen exactly when it fits on that page. */
  lemma {:induction false} RefusedSize(all: seq<Row>, size: int)
    requires size < 0 || size > MAX_ROWS
    ensures var p := PageOf(all, 0, size); |p.rows| != size && (p.rows == Shown(all) <==> |all| <= 100)
  {
    if |all| <= BROWSE_LIMIT { assert all[0..|all|] == all; }
  }
}
