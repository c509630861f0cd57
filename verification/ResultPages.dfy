/** The pages of `query_results`: what one page must look like, and the rows it holds. */
module ResultPages {
  import opened Common
  import opened Journal

  const RESULT_ROWS: nat := 4096
  const RESULT_BYTES: nat := 8 * 1024 * 1024
  const PAGE_LIMIT: nat := 16

  const DESCRIBE_COLUMNS: seq<(string, string)> :=
    [("col_name", "string"), ("data_type", "string"), ("comment", "string")]

  /** `_cell` on a present string: None when its type or its text is refused. */
  type Decoder = (bool, Column, string) -> Option<Cell>

  /** What reading a result depends on: the statement and the decoding of its cells. */
  datatype Format = Format(kind: Kind, json: set<string>, decode: Decoder)

  function DecodeCell(f: Format, column: Column, cell: Cell): Option<Cell> {
    if cell.None? then Some(None) else f.decode(column.name in f.json, column, cell.value)
  }

  function DecodeCells(f: Format, columns: seq<Column>, row: Row): (r: Option<Row>)
    requires |row| == |columns|
    ensures r.Some? ==> |r.value| == |row|
  {
    if row == [] then Some([])
    else
      var rest := DecodeCells(f, columns[1..], row[1..]);
      var first := DecodeCell(f, columns[0], row[0]);
      if first.Some? && rest.Some? then Some([first.value] + rest.value) else None
  }

  /** A DESCRIBE line is one present string kept as it is; a SELECT row has a cell per column. */
  function DecodeRow(f: Format, columns: seq<Column>, row: Row): Option<Row> {
    if f.kind == Describe then (if |row| == 1 && row[0].Some? then Some(row) else None)
    else if |row| == |columns| then DecodeCells(f, columns, row)
    else None
  }

  /** All of these rows, in order, or None at the first one refused. */
  function DecodeRows(f: Format, columns: seq<Column>, rows: seq<Row>): Option<seq<Row>> {
    if rows == [] then Some([])
    else
      var before := DecodeRows(f, columns, rows[..|rows| - 1]);
      var last := DecodeRow(f, columns, rows[|rows| - 1]);
      if before.Some? && last.Some? then Some(before.value + [last.value]) else None
  }

  function Headings(columns: seq<Column>): Row {
    seq(|columns|, i requires 0 <= i < |columns| =>
      Some(if columns[i].heading.Some? then columns[i].heading.value else columns[i].name))
  }

  function Declared(columns: seq<Column>): seq<(string, string)> {
    seq(|columns|, i requires 0 <= i < |columns| => (columns[i].name, columns[i].kind))
  }

  predicate ColumnsOk(columns: seq<Column>) {
    && 0 < |columns| <= 128
    && forall i, j :: 0 <= i < j < |columns| ==> columns[i].name != columns[j].name
  }

  /** The shape of a page before its rows are decoded. Only the first SELECT page has a header row. */
  predicate PageOk(f: Format, page: Page, first: bool) {
    && ColumnsOk(page.columns)
    && |page.rows| <= 1000
    && (first && f.kind == Select ==> page.rows != [] && page.rows[0] == Headings(page.columns))
    && (f.kind == Describe ==> Declared(page.columns) == DESCRIBE_COLUMNS)
  }

  function BodyRows(f: Format, page: Page, first: bool): seq<Row>
    requires PageOk(f, page, first)
  {
    if first && f.kind == Select then page.rows[1..] else page.rows
  }

  function TotalBytes(pages: seq<Page>): nat {
    if pages == [] then 0 else TotalBytes(pages[..|pages| - 1]) + pages[|pages| - 1].bytes
  }

  /** The rows of all pages in order; None when a page or a row is refused. */
  function AllRows(f: Format, pages: seq<Page>): Option<seq<Row>> {
    if pages == [] then Some([])
    else
      var before := AllRows(f, pages[..|pages| - 1]);
      var page := pages[|pages| - 1];
      if before.None? || !PageOk(f, page, |pages| == 1) || page.columns != pages[0].columns then None
      else
        var rows := DecodeRows(f, page.columns, BodyRows(f, page, |pages| == 1));
        if rows.None? then None else Some(before.value + rows.value)
  }

  /** Each page but the last names the next one, by a token not seen before. */
  predicate Chained(pages: seq<Page>) {
    && (forall i :: 0 <= i < |pages| - 1 ==> pages[i].next.Some? && 0 < |pages[i].next.value| <= 4096)
    && (forall i, j :: 0 <= i < j < |pages| - 1 ==> pages[i].next != pages[j].next)
  }

  /** A result read to its end: every page within the limits, its rows complete and in order. */
  predicate Complete(f: Format, results: Results) {
    && 0 < |results.pages| <= PAGE_LIMIT
    && results.columns == results.pages[0].columns
    && AllRows(f, results.pages) == Some(results.rows)
    && Chained(results.pages) && results.pages[|results.pages| - 1].next.None?
    && TotalBytes(results.pages) <= RESULT_BYTES && |results.rows| <= RESULT_ROWS
  }

  datatype PageFault = ColumnsRefused | RowsRefused | TooManyRows | TokenRefused

  /** The row loop of one page, appending to the rows of the pages before it. */
  method AppendRows(f: Format, columns: seq<Column>, body: seq<Row>, before: seq<Row>)
    returns (r: Result<seq<Row>, PageFault>)
    requires |before| <= RESULT_ROWS
    ensures r.Ok? ==> DecodeRows(f, columns, body).Some? && r.value == before + DecodeRows(f, columns, body).value
    ensures r.Ok? <==>
      DecodeRows(f, columns, body).Some? && |before + DecodeRows(f, columns, body).value| <= RESULT_ROWS
    ensures r == Err(RowsRefused) ==> DecodeRows(f, columns, body).None?
    ensures r == Err(TooManyRows) ==>
      DecodeRows(f, columns, body).None? || RESULT_ROWS < |before + DecodeRows(f, columns, body).value|
  {
    var rows := before;
    for i := 0 to |body|
      invariant DecodeRows(f, columns, body[..i]).Some? && rows == before + DecodeRows(f, columns, body[..i]).value
      invariant |rows| <= RESULT_ROWS
    {
      assert body[..i + 1][..i] == body[..i];
      var row := DecodeRow(f, columns, body[i]);
      if row.None? {
        RefusedPrefix(f, columns, body, i + 1);
        return Err(RowsRefused);
      }
      rows := rows + [row.value];
      if RESULT_ROWS < |rows| {
        DecodedPrefix(f, columns, body, i + 1);
        return Err(TooManyRows);
      }
    }
    assert body[..|body|] == body;
    r := Ok(rows);
  }

  /** No token, or one of a usable length that no earlier page named. */
  predicate NewToken(pages: seq<Page>, next: Option<string>) {
    next.Some? ==> 0 < |next.value| <= 4096 && forall i :: 0 <= i < |pages| ==> pages[i].next != next
  }

  /** What is known of the pages read so far, each of which named a next one. */
  predicate Gathering(f: Format, pages: seq<Page>, rows: seq<Row>) {
    && AllRows(f, pages) == Some(rows) && |rows| <= RESULT_ROWS
    && (forall i :: 0 <= i < |pages| ==> pages[i].next.Some? && 0 < |pages[i].next.value| <= 4096)
    && forall i, j :: 0 <= i < j < |pages| ==> pages[i].next != pages[j].next
  }

  /** The body of the page loop behind the byte limit: shape, rows, then the token. */
  method JudgePage(f: Format, pages: seq<Page>, rows: seq<Row>, page: Page) returns (r: Result<seq<Row>, PageFault>)
    requires Gathering(f, pages, rows)
    ensures r.Ok? <==>
      && AllRows(f, pages + [page]).Some? && |AllRows(f, pages + [page]).value| <= RESULT_ROWS
      && NewToken(pages, page.next)
    ensures r.Ok? ==> AllRows(f, pages + [page]) == Some(r.value)
    ensures r.Ok? && page.next.Some? ==> Gathering(f, pages + [page], r.value)
    ensures r.Ok? && page.next.None? && |pages| < PAGE_LIMIT && TotalBytes(pages + [page]) <= RESULT_BYTES ==>
      Complete(f, Results(page.columns, r.value, pages + [page]))
  {
    hide AllRows, DecodeRows, Complete, NewToken, TotalBytes, ColumnsOk;
    OnePageMore(f, pages, rows, page);
    if !ColumnsOk(page.columns) || (pages != [] && page.columns != pages[0].columns) {
      return Err(ColumnsRefused);
    }
    if !PageOk(f, page, pages == []) {
      return Err(RowsRefused);
    }
    r := AppendRows(f, page.columns, BodyRows(f, page, pages == []), rows);
    if r.Err? {
      return;
    }
    if !NewToken(pages, page.next) {
      return Err(TokenRefused);
    }
    GatheredOneMore(f, pages, rows, page, r.value);
  }

  lemma OnePageMore(f: Format, pages: seq<Page>, rows: seq<Row>, page: Page)
    requires AllRows(f, pages) == Some(rows)
    ensures AllRows(f, pages + [page])
         == if !PageOk(f, page, pages == []) || (pages != [] && page.columns != pages[0].columns) then None
            else match DecodeRows(f, page.columns, BodyRows(f, page, pages == []))
              case None => None
              case Some(more) => Some(rows + more)
  {
    hide DecodeRows, PageOk, BodyRows;
    var all := pages + [page];
    assert all[..|all| - 1] == pages && all[|all| - 1] == page && (|all| == 1) == (pages == []);
    assert all[0] == if pages == [] then page else pages[0];
  }

  lemma GatheredOneMore(f: Format, pages: seq<Page>, rows: seq<Row>, page: Page, more: seq<Row>)
    requires Gathering(f, pages, rows) && NewToken(pages, page.next)
    requires AllRows(f, pages + [page]) == Some(more) && |more| <= RESULT_ROWS
    ensures page.next.Some? ==> Gathering(f, pages + [page], more)
    ensures page.next.None? && |pages| < PAGE_LIMIT && TotalBytes(pages + [page]) <= RESULT_BYTES ==>
      Complete(f, Results(page.columns, more, pages + [page]))
  {
    hide DecodeRows, TotalBytes;
    assert (pages + [page])[..|pages|] == pages;
  }

  lemma {:induction false} RefusedPrefix(f: Format, columns: seq<Column>, rows: seq<Row>, n: nat)
    requires n <= |rows| && DecodeRows(f, columns, rows[..n]).None?
    ensures DecodeRows(f, columns, rows).None?
  {
    if n < |rows| {
      assert rows[..|rows| - 1][..n] == rows[..n];
      RefusedPrefix(f, columns, rows[..|rows| - 1], n);
    } else {
      assert rows[..n] == rows;
    }
  }

  lemma {:induction false} DecodedPrefix(f: Format, columns: seq<Column>, rows: seq<Row>, n: nat)
    requires n <= |rows| && DecodeRows(f, columns, rows[..n]).Some?
    ensures DecodeRows(f, columns, rows).Some? ==>
              |DecodeRows(f, columns, rows[..n]).value| <= |DecodeRows(f, columns, rows).value|
  {
    if n < |rows| {
      assert rows[..|rows| - 1][..n] == rows[..n];
      DecodedPrefix(f, columns, rows[..|rows| - 1], n);
    } else {
      assert rows[..n] == rows;
    }
  }

  /** Every data row of every page is in the result exactly once, in page order. */
  lemma {:induction false} RowCount(f: Format, pages: seq<Page>)
    requires AllRows(f, pages).Some?
    ensures |AllRows(f, pages).value| + (if f.kind == Select && pages != [] then 1 else 0) == RawRows(pages)
  {
    if pages != [] {
      var before := pages[..|pages| - 1];
      RowCount(f, before);
      var page := pages[|pages| - 1];
      DecodedLength(f, page.columns, BodyRows(f, page, |pages| == 1));
    }
  }

  function RawRows(pages: seq<Page>): nat {
    if pages == [] then 0 else RawRows(pages[..|pages| - 1]) + |pages[|pages| - 1].rows|
  }

  lemma {:induction false} DecodedLength(f: Format, columns: seq<Column>, rows: seq<Row>)
    ensures DecodeRows(f, columns, rows).Some? ==> |DecodeRows(f, columns, rows).value| == |rows|
  {
    if rows != [] {
      DecodedLength(f, columns, rows[..|rows| - 1]);
    }
  }
}
