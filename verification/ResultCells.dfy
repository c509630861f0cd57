/** What a result read to its end says, page by page, row by row and cell by cell. */
module ResultCells {
  import opened Common
  import opened Journal
  import opened ResultPages

  /** One present string for DESCRIBE; otherwise a cell for each column, under its own column: missing
      where it was missing, and what the decoder of that column makes of its text elsewhere. */
  predicate CellsOf(f: Format, columns: seq<Column>, raw: Row, row: Row) {
    if f.kind == Describe then |raw| == 1 && raw[0].Some? && row == raw
    else
      && |raw| == |columns| && |row| == |columns|
      && forall j :: 0 <= j < |columns| ==>
           if raw[j].None? then row[j] == None
           else f.decode(columns[j].name in f.json, columns[j], raw[j].value) == Some(row[j])
  }

  /** The rows in front of the body of page `p`: the one row of headings, for SELECT. */
  function Skipped(kind: Kind, p: nat): nat {
    if kind == Select && p == 0 then 1 else 0
  }

  /** What a page must be, before its rows are looked at. */
  predicate ShapeOf(kind: Kind, page: Page, p: nat) {
    && 1 <= |page.columns| <= 128
    && (forall i, j :: 0 <= i < j < |page.columns| ==> page.columns[i].name != page.columns[j].name)
    && Skipped(kind, p) <= |page.rows| <= 1000
    && (kind == Select && p == 0 ==>
          && |page.rows[0]| == |page.columns|
          && forall j :: 0 <= j < |page.columns| ==> Heads(page.rows[0][j], page.columns[j]))
    && (kind == Describe ==>
          && |page.columns| == 3
          && page.columns[0].name == "col_name" && page.columns[1].name == "data_type" && page.columns[2].name == "comment"
          && forall j :: 0 <= j < 3 ==> page.columns[j].kind == "string")
  }

  predicate Heads(cell: Cell, column: Column) {
    cell == (if column.heading.Some? then column.heading else Some(column.name))
  }

  /** Page `p` has its shape and the columns of the first, and its body rows, one after the other,
      are the rows of the result from `starts[p]` to `starts[p + 1]`. */
  predicate PageReads(f: Format, pages: seq<Page>, starts: seq<nat>, rows: seq<Row>, p: nat)
    requires p < |pages| && |starts| == |pages| + 1
  {
    && ShapeOf(f.kind, pages[p], p)
    && pages[p].columns == pages[0].columns
    && starts[p + 1] == starts[p] + |pages[p].rows| - Skipped(f.kind, p)
    && starts[p + 1] <= |rows|
    && forall i :: starts[p] <= i < starts[p + 1] ==>
         CellsOf(f, pages[p].columns, pages[p].rows[i - starts[p] + Skipped(f.kind, p)], rows[i])
  }

  /** The rows are those of all the pages, in page order. */
  predicate ReadsAs(f: Format, pages: seq<Page>, starts: seq<nat>, rows: seq<Row>) {
    && |starts| == |pages| + 1 && starts[0] == 0 && starts[|pages|] == |rows|
    && forall p :: 0 <= p < |pages| ==> PageReads(f, pages, starts, rows, p)
  }

  // ------------------------------------------------------------------ cells and rows

  lemma {:induction false} CellsExactly(f: Format, columns: seq<Column>, raw: Row, row: Row)
    requires |raw| == |columns|
    ensures DecodeCells(f, columns, raw) == Some(row) <==>
      && |row| == |columns|
      && forall j :: 0 <= j < |columns| ==>
           if raw[j].None? then row[j] == None
           else f.decode(columns[j].name in f.json, columns[j], raw[j].value) == Some(row[j])
  {
    if raw != [] {
      if row != [] {
        CellsExactly(f, columns[1..], raw[1..], row[1..]);
        assert row == [row[0]] + row[1..];
        assert forall j :: 0 < j < |columns| ==> columns[j] == columns[1..][j - 1] && raw[j] == raw[1..][j - 1];
        assert forall j :: 0 < j < |row| ==> row[j] == row[1..][j - 1];
      }
    }
  }

  lemma RowExactly(f: Format, columns: seq<Column>, raw: Row, row: Row)
    ensures DecodeRow(f, columns, raw) == Some(row) <==> CellsOf(f, columns, raw, row)
  {
    if f.kind != Describe && |raw| == |columns| {
      CellsExactly(f, columns, raw, row);
    }
  }

  /** Each row at its own place. */
  predicate RowsOf(f: Format, columns: seq<Column>, raws: seq<Row>, rows: seq<Row>) {
    |rows| == |raws| && forall i :: 0 <= i < |raws| ==> CellsOf(f, columns, raws[i], rows[i])
  }

  lemma {:induction false} RowsExactly(f: Format, columns: seq<Column>, raws: seq<Row>, rows: seq<Row>)
    ensures DecodeRows(f, columns, raws) == Some(rows) <==> RowsOf(f, columns, raws, rows)
  {
    hide CellsOf, DecodeRow;
    if raws != [] && rows != [] {
      var n := |raws| - 1;
      RowsExactly(f, columns, raws[..n], rows[..|rows| - 1]);
      RowExactly(f, columns, raws[n], rows[|rows| - 1]);
      assert rows == rows[..|rows| - 1] + [rows[|rows| - 1]];
    }
  }

  lemma ShapeExactly(f: Format, page: Page, p: nat)
    ensures PageOk(f, page, p == 0) <==> ShapeOf(f.kind, page, p)
  {
    hide Heads;
    if f.kind == Select && p == 0 && page.rows != [] {
      HeadingsAre(page.columns, page.rows[0]);
    }
    if f.kind == Describe {
      DescribesAre(page.columns);
    }
  }

  lemma HeadingsAre(columns: seq<Column>, row: Row)
    ensures row == Headings(columns) <==> |row| == |columns| && forall j :: 0 <= j < |columns| ==> Heads(row[j], columns[j])
  {
    if |row| == |columns| && forall j :: 0 <= j < |columns| ==> Heads(row[j], columns[j]) {
      assert row == Headings(columns);
    }
  }

  lemma DescribesAre(columns: seq<Column>)
    ensures Declared(columns) == DESCRIBE_COLUMNS <==>
      && |columns| == 3
      && columns[0].name == "col_name" && columns[1].name == "data_type" && columns[2].name == "comment"
      && forall j :: 0 <= j < 3 ==> columns[j].kind == "string"
  {
    var declared := Declared(columns);
    if |columns| == 3 {
      assert declared[0] == (columns[0].name, columns[0].kind) && declared[1] == (columns[1].name, columns[1].kind)
          && declared[2] == (columns[2].name, columns[2].kind);
    }
  }

  // ---------------------------------------------------------------------- pages

  lemma {:induction false} AllRowsRead(f: Format, pages: seq<Page>) returns (starts: seq<nat>)
    requires AllRows(f, pages).Some?
    ensures ReadsAs(f, pages, starts, AllRows(f, pages).value)
  {
    hide CellsOf, DecodeRow, DecodeRows, PageOk, ShapeOf;
    if pages == [] {
      starts := [0];
    } else {
      var n := |pages| - 1;
      var before, page := pages[..n], pages[n];
      var front := AllRowsRead(f, before);
      var rows := AllRows(f, before).value;
      var more := DecodeRows(f, page.columns, BodyRows(f, page, n == 0)).value;
      RowsExactly(f, page.columns, BodyRows(f, page, n == 0), more);
      starts := front + [|rows| + |more|];
      assert before + [page] == pages;
      forall p | 0 <= p < |pages|
        ensures PageReads(f, pages, starts, rows + more, p)
      {
        if p < n {
          EarlierPage(f, before, front, rows, p, page, |rows| + |more|, more);
        } else {
          LastPage(f, before, front, rows, page, more);
        }
      }
    }
  }

  lemma BodyIs(f: Format, page: Page, p: nat)
    requires PageOk(f, page, p == 0)
    ensures var body := BodyRows(f, page, p == 0);
      |body| == |page.rows| - Skipped(f.kind, p) && forall i :: 0 <= i < |body| ==> body[i] == page.rows[i + Skipped(f.kind, p)]
  {
  }

  lemma EarlierPage(f: Format, before: seq<Page>, front: seq<nat>, rows: seq<Row>, p: nat, page: Page, end: nat, more: seq<Row>)
    requires p < |before| && |front| == |before| + 1 && PageReads(f, before, front, rows, p)
    ensures PageReads(f, before + [page], front + [end], rows + more, p)
  {
    hide CellsOf, ShapeOf;
    var pages, starts := before + [page], front + [end];
    assert pages[p] == before[p] && pages[0] == before[0] && starts[p] == front[p] && starts[p + 1] == front[p + 1];
  }

  lemma LastPage(f: Format, before: seq<Page>, front: seq<nat>, rows: seq<Row>, page: Page, more: seq<Row>)
    requires |front| == |before| + 1 && front[|before|] == |rows| && PageOk(f, page, before == [])
    requires before != [] ==> page.columns == before[0].columns
    requires RowsOf(f, page.columns, BodyRows(f, page, before == []), more)
    ensures PageReads(f, before + [page], front + [|rows| + |more|], rows + more, |before|)
  {
    hide CellsOf, ShapeOf, PageOk, BodyRows, Skipped;
    var p := |before|;
    ShapeExactly(f, page, p);
    BodyIs(f, page, p);
    Placed(f, page.columns, page.rows, BodyRows(f, page, before == []), Skipped(f.kind, p), rows, more);
    var pages, starts := before + [page], front + [|rows| + |more|];
    assert pages[p] == page && pages[0].columns == page.columns;
    assert starts[p] == |rows| && starts[p + 1] == |rows| + |more|;
  }

  /** Rows of a body, appended to the rows in front of them. */
  lemma Placed(f: Format, columns: seq<Column>, raws: seq<Row>, body: seq<Row>, skip: nat, rows: seq<Row>, more: seq<Row>)
    requires RowsOf(f, columns, body, more)
    requires |body| == |raws| - skip && forall i :: 0 <= i < |body| ==> body[i] == raws[i + skip]
    ensures forall i :: |rows| <= i < |rows| + |more| ==> CellsOf(f, columns, raws[i - |rows| + skip], (rows + more)[i])
  {
    hide CellsOf;
    forall i | |rows| <= i < |rows| + |more|
      ensures CellsOf(f, columns, raws[i - |rows| + skip], (rows + more)[i])
    {
      var t := i - |rows|;
      assert CellsOf(f, columns, body[t], more[t]) && (rows + more)[i] == more[t] && body[t] == raws[t + skip];
    }
  }

  /** And back: the body of the last page, from its place. */
  lemma TakenBack(f: Format, columns: seq<Column>, raws: seq<Row>, body: seq<Row>, skip: nat, rows: seq<Row>, start: nat)
    requires |body| == |raws| - skip && forall i :: 0 <= i < |body| ==> body[i] == raws[i + skip]
    requires start + |body| == |rows|
    requires forall i :: start <= i < |rows| ==> CellsOf(f, columns, raws[i - start + skip], rows[i])
    ensures RowsOf(f, columns, body, rows[start..])
  {
    hide CellsOf;
    forall t | 0 <= t < |body|
      ensures CellsOf(f, columns, body[t], rows[start..][t])
    {
      var i := start + t;
      assert CellsOf(f, columns, raws[i - start + skip], rows[i]) && body[t] == raws[t + skip];
    }
  }

  lemma {:induction false} ReadIsAllRows(f: Format, pages: seq<Page>, starts: seq<nat>, rows: seq<Row>)
    requires ReadsAs(f, pages, starts, rows)
    ensures AllRows(f, pages) == Some(rows)
  {
    hide CellsOf, DecodeRow, DecodeRows, PageOk, ShapeOf, BodyRows, RowsOf, Skipped;
    if pages != [] {
      var n := |pages| - 1;
      var before, page := pages[..n], pages[n];
      assert PageReads(f, pages, starts, rows, n);
      FrontReads(f, pages, starts, rows);
      var front, ours, more := starts[..n + 1], rows[..starts[n]], rows[starts[n]..];
      ReadIsAllRows(f, before, front, ours);
      ShapeExactly(f, page, n);
      BodyIs(f, page, n);
      TakenBack(f, page.columns, page.rows, BodyRows(f, page, n == 0), Skipped(f.kind, n), rows, starts[n]);
      RowsExactly(f, page.columns, BodyRows(f, page, n == 0), more);
      assert rows == ours + more;
    }
  }

  /** All the pages but the last read as the rows in front of its place. */
  lemma FrontReads(f: Format, pages: seq<Page>, starts: seq<nat>, rows: seq<Row>)
    requires ReadsAs(f, pages, starts, rows) && pages != []
    ensures starts[|pages| - 1] <= |rows|
    ensures ReadsAs(f, pages[..|pages| - 1], starts[..|pages|], rows[..starts[|pages| - 1]])
  {
    hide CellsOf, ShapeOf, Skipped;
    var n := |pages| - 1;
    Rising(f, pages, starts, rows, n, n + 1);
    var before, front, ours := pages[..n], starts[..n + 1], rows[..starts[n]];
    forall p | 0 <= p < n
      ensures PageReads(f, before, front, ours, p)
    {
      assert PageReads(f, pages, starts, rows, p);
      Rising(f, pages, starts, rows, p + 1, n);
    }
  }

  lemma {:induction false} Rising(f: Format, pages: seq<Page>, starts: seq<nat>, rows: seq<Row>, p: nat, q: nat)
    requires ReadsAs(f, pages, starts, rows) && p <= q <= |pages|
    ensures starts[p] <= starts[q]
    decreases q - p
  {
    hide CellsOf;
    if p < q {
      assert PageReads(f, pages, starts, rows, p);
      Rising(f, pages, starts, rows, p + 1, q);
    }
  }

  // --------------------------------------------------------------- the whole result

  predicate Sums(pages: seq<Page>, sums: seq<nat>) {
    && |sums| == |pages| + 1 && sums[0] == 0
    && forall p :: 0 <= p < |pages| ==> sums[p + 1] == sums[p] + pages[p].bytes
  }

  lemma {:induction false} BytesAreSums(pages: seq<Page>) returns (sums: seq<nat>)
    ensures Sums(pages, sums) && sums[|pages|] == TotalBytes(pages)
  {
    if pages == [] {
      sums := [0];
    } else {
      var front := BytesAreSums(pages[..|pages| - 1]);
      sums := front + [front[|pages| - 1] + pages[|pages| - 1].bytes];
    }
  }

  /** A result read to its end, spelled out: at most sixteen pages, 8 MiB and 4096 rows; each page but
      the last names the next by a token of its own, and the last names none. */
  predicate IsResult(f: Format, results: Results, starts: seq<nat>, sums: seq<nat>) {
    && 1 <= |results.pages| <= 16
    && results.columns == results.pages[0].columns
    && ReadsAs(f, results.pages, starts, results.rows) && |results.rows| <= 4096
    && Sums(results.pages, sums) && sums[|results.pages|] <= 8388608
    && results.pages[|results.pages| - 1].next.None?
    && (forall p :: 0 <= p < |results.pages| - 1 ==> results.pages[p].next.Some? && 1 <= |results.pages[p].next.value| <= 4096)
    && forall p, q :: 0 <= p < q < |results.pages| - 1 ==> results.pages[p].next.value != results.pages[q].next.value
  }

  lemma CompleteIsResult(f: Format, results: Results) returns (starts: seq<nat>, sums: seq<nat>)
    requires Complete(f, results)
    ensures IsResult(f, results, starts, sums)
  {
    hide AllRows, ReadsAs, TotalBytes;
    starts := AllRowsRead(f, results.pages);
    sums := BytesAreSums(results.pages);
  }

  lemma {:induction false} SumsAreBytes(pages: seq<Page>, sums: seq<nat>)
    requires Sums(pages, sums)
    ensures sums[|pages|] == TotalBytes(pages)
  {
    if pages != [] {
      SumsAreBytes(pages[..|pages| - 1], sums[..|pages|]);
    }
  }

  lemma ResultIsComplete(f: Format, results: Results, starts: seq<nat>, sums: seq<nat>)
    requires IsResult(f, results, starts, sums)
    ensures Complete(f, results)
  {
    hide AllRows, ReadsAs, TotalBytes;
    ReadIsAllRows(f, results.pages, starts, results.rows);
    SumsAreBytes(results.pages, sums);
  }
}
