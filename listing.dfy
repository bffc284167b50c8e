/** `_mine_from_url`: the records of one monthly pricing page. */
module Listing {
  import opened Wrappers
  import opened Text
  import opened Dom
  import opened Company

  /** What the market-data lookup yields for a listed company: the raw series and the five
      first-day metrics. Its arithmetic is not modelled; the lookup is all-or-nothing. */
  datatype Trade = Trade(
    series: string,
    firstDayOpen: real,
    firstDayClose: real,
    firstDayMarketChange: real,
    firstDayIpoChange: real,
    firstDayMarketPositive: bool)

  /** The page fetchers and the market-data provider, as functions of their request.
      `None` is a request that raised. */
  type DetailSource = string -> Option<DetailPage>
  type MarketSource = (string, string, string) -> Option<Trade>

  /** One output record. `trade` is `None` when the market lookup failed: `trade_data`
      is then `{}` and all five metrics are null together. `priceNum` is the text that
      `float()` reads. */
  datatype Record = Record(
    company: string,
    companyUrl: string,
    symbol: string,
    market: string,
    price: string,
    shares: string,
    amount: string,
    date: string,
    ipoData: IpoData,
    trade: Option<Trade>,
    priceNum: string)

  /** A listing row the extraction gets through: seven cells at least, anchors with an href
      on the company cell and an anchor on the symbol cell, a price that `float()` accepts
      once filtered, and a company name the log message at line 96 can format. */
  predicate Readable(row: Row) {
    && |row.cells| >= 7
    && row.cells[0].a.Some? && row.cells[0].a.value.href.Some?
    && row.cells[1].a.Some?
    && ParsesAsFloat(PriceDigits(row.cells[3].text))
    && IsAscii(row.cells[0].a.value.text)
  }

  /** One listing row with at least one cell. The detail fetch and the market lookup each
      sit in their own handler, so neither can make the row fail; anything else raised
      here leaves `_mine_from_url` and the whole run. */
  function RowRecord(row: Row, detail: DetailSource, market: MarketSource): (r: Result<Record>)
    requires row.cells != []
    ensures r.Ok? <==> Readable(row)
    ensures |row.cells| < 7 ==> r.Fail?
    ensures r.Fail? ==>
      (|row.cells| >= 7 && row.cells[0].a.Some? && row.cells[0].a.value.href.Some? && row.cells[1].a.Some?
       && ParsesAsFloat(PriceDigits(row.cells[3].text))) ==> r.error == NotAscii
    ensures r.Ok? ==>
      var c := row.cells;
      && r.value.company == c[0].a.value.text && Some(r.value.companyUrl) == c[0].a.value.href
      && r.value.symbol == c[1].a.value.text && r.value.market == c[2].text && r.value.price == c[3].text
      && r.value.shares == c[4].text && r.value.amount == c[5].text && r.value.date == c[6].text
    ensures r.Ok? ==> r.value.priceNum == PriceDigits(r.value.price) && ParsesAsFloat(r.value.priceNum)
    ensures r.Ok? ==> r.value.ipoData == MineCompanyUrl(r.value.companyUrl, detail)
    ensures r.Ok? ==> r.value.trade == market(r.value.symbol, r.value.date, r.value.priceNum)
  {
    var c := row.cells;
    if c[0].a.None? then Fail(MissingNode)
    else if c[0].a.value.href.None? then Fail(MissingHref)
    else if |c| < 2 then Fail(IndexOutOfRange)
    else if c[1].a.None? then Fail(MissingNode)
    else if |c| < 7 then Fail(IndexOutOfRange)
    else
      var url := c[0].a.value.href.value;
      var priceNum := PriceDigits(c[3].text);
      if !ParsesAsFloat(priceNum) then Fail(NotAFloat)
      else if !IsAscii(c[0].a.value.text) then Fail(NotAscii)
      else
        Ok(Record(c[0].a.value.text, url, c[1].a.value.text, c[2].text, c[3].text, c[4].text,
                  c[5].text, c[6].text, MineCompanyUrl(url, detail),
                  market(c[1].a.value.text, c[6].text, priceNum), priceNum))
  }

  /** The rows that are not skipped: those with at least one cell, in order. */
  function WithCells(rows: seq<Row>): (r: seq<Row>)
    ensures |r| <= |rows|
    ensures forall k :: 0 <= k < |r| ==> r[k].cells != []
    ensures forall k :: 0 <= k < |rows| && rows[k].cells != [] ==> rows[k] in r
    ensures forall x :: x in r ==> x in rows
  {
    if rows == [] then []
    else if rows[0].cells != [] then [rows[0]] + WithCells(rows[1..])
    else WithCells(rows[1..])
  }

  /** The filter keeps a single row exactly when it has a cell. */
  lemma WithCellsOne(row: Row)
    ensures WithCells([row]) == if row.cells != [] then [row] else []
  {
  }

  /** The filter works row by row: filtering two runs of rows one after the other keeps the
      rows of the first run, then those of the second, each in its own order. */
  lemma {:induction false} WithCellsAppend(a: seq<Row>, b: seq<Row>)
    ensures WithCells(a + b) == WithCells(a) + WithCells(b)
  {
    if a == [] {
      assert a + b == b;
    } else {
      assert (a + b)[0] == a[0];
      assert (a + b)[1..] == a[1..] + b;
      WithCellsAppend(a[1..], b);
    }
  }

  /** What the loop asks of each row it does not skip: its record, or the exception. */
  type RowMiner = Row -> Result<Record>

  /** `RowRecord` as a row miner. The loop never hands it a row without cells; such a row
      would raise `IndexError` at `columns[0]`. */
  function RowMinerOf(detail: DetailSource, market: MarketSource): RowMiner {
    (row: Row) => if row.cells == [] then Fail(IndexOutOfRange) else RowRecord(row, detail, market)
  }

  /** The loop over the rows: a row with no cells is skipped, every other one becomes one
      record, in row order, unless some row raises. */
  function Rows(rows: seq<Row>, mine: RowMiner): Result<seq<Record>>
  {
    if rows == [] then Ok([])
    else if rows[0].cells == [] then Rows(rows[1..], mine)
    else
      match mine(rows[0])
      case Fail(e) => Fail(e)
      case Ok(x) =>
        match Rows(rows[1..], mine)
        case Fail(e) => Fail(e)
        case Ok(rest) => Ok([x] + rest)
  }

  /** The loop succeeds exactly when every kept row gives a record, and then holds those
      records, one per kept row, in order. */
  lemma RowsRecords(rows: seq<Row>, mine: RowMiner)
    ensures Rows(rows, mine).Ok? <==> forall k :: 0 <= k < |WithCells(rows)| ==> mine(WithCells(rows)[k]).Ok?
    ensures Rows(rows, mine).Ok? ==> |Rows(rows, mine).value| == |WithCells(rows)|
    ensures Rows(rows, mine).Ok? ==>
      forall k :: 0 <= k < |WithCells(rows)| ==> mine(WithCells(rows)[k]) == Ok(Rows(rows, mine).value[k])
  {
    RowsSucceed(rows, mine);
    if Rows(rows, mine).Ok? {
      RowsValues(rows, mine);
    }
  }

  lemma {:induction false} RowsSucceed(rows: seq<Row>, mine: RowMiner)
    ensures Rows(rows, mine).Ok? <==> forall k :: 0 <= k < |WithCells(rows)| ==> mine(WithCells(rows)[k]).Ok?
  {
    if rows == [] {
    } else if rows[0].cells == [] {
      RowsSucceed(rows[1..], mine);
      assert WithCells(rows) == WithCells(rows[1..]);
    } else {
      RowsSucceed(rows[1..], mine);
      var kept := WithCells(rows);
      var rest := WithCells(rows[1..]);
      assert kept == [rows[0]] + rest;
      assert forall k :: 1 <= k < |kept| ==> kept[k] == rest[k - 1];
      assert forall k :: 0 <= k < |rest| ==> rest[k] == kept[k + 1];
      if mine(rows[0]).Fail? {
        assert mine(kept[0]).Fail?;
      }
    }
  }

  lemma {:induction false} RowsValues(rows: seq<Row>, mine: RowMiner)
    requires Rows(rows, mine).Ok?
    ensures |Rows(rows, mine).value| == |WithCells(rows)|
    ensures forall k :: 0 <= k < |WithCells(rows)| ==> mine(WithCells(rows)[k]) == Ok(Rows(rows, mine).value[k])
  {
    if rows == [] {
    } else if rows[0].cells == [] {
      RowsValues(rows[1..], mine);
      assert WithCells(rows) == WithCells(rows[1..]);
    } else {
      RowsValues(rows[1..], mine);
      var kept := WithCells(rows);
      var rest := WithCells(rows[1..]);
      var records := Rows(rows, mine).value;
      var later := Rows(rows[1..], mine).value;
      assert kept == [rows[0]] + rest;
      assert records == [mine(rows[0]).value] + later;
      assert forall k :: 1 <= k < |kept| ==> kept[k] == rest[k - 1] && records[k] == later[k - 1];
    }
  }

  /** The page's `div.genTable` and its `<tbody>` are there, with text. */
  predicate HasTable(page: ListingPage) {
    && page.genTable.Some? && page.genTable.value.text != ""
    && page.genTable.value.tbody.Some? && page.genTable.value.tbody.value.text != ""
  }

  /** The table rows of a pricing page; none when `div.genTable`, its `<tbody>` or its rows
      are missing or empty. */
  function TableRows(page: ListingPage): (rows: seq<Row>)
    ensures HasTable(page) ==> rows == page.genTable.value.tbody.value.rows
    ensures !HasTable(page) ==> rows == []
  {
    if HasTable(page) then page.genTable.value.tbody.value.rows else []
  }

  /** The records of one pricing page, `None` when fetching it raised. That error, like
      any raised by a row, is not caught here. */
  function MinePage(page: Option<ListingPage>, detail: DetailSource, market: MarketSource): (r: Result<seq<Record>>)
    ensures page.None? ==> r == Fail(FetchFailed)
    ensures page.Some? && TableRows(page.value) == [] ==> r == Ok([])
  {
    if page.None? then Fail(FetchFailed)
    else Rows(TableRows(page.value), RowMinerOf(detail, market))
  }

  /** A page yields its records exactly when every row with cells is readable, and then one
      record per such row, in row order; rows without cells are skipped. */
  lemma PageRecords(page: ListingPage, detail: DetailSource, market: MarketSource)
    ensures var r := MinePage(Some(page), detail, market);
      r.Ok? <==> forall k :: 0 <= k < |TableRows(page)| && TableRows(page)[k].cells != [] ==> Readable(TableRows(page)[k])
    ensures var r := MinePage(Some(page), detail, market);
      r.Ok? ==> |r.value| == |WithCells(TableRows(page))|
    ensures var r := MinePage(Some(page), detail, market);
      r.Ok? ==> forall k :: 0 <= k < |r.value| ==> RowRecord(WithCells(TableRows(page))[k], detail, market) == Ok(r.value[k])
  {
    var rows := TableRows(page);
    var kept := WithCells(rows);
    var mine := RowMinerOf(detail, market);
    var r := Rows(rows, mine);
    RowsRecords(rows, mine);
    assert forall j :: 0 <= j < |kept| ==> mine(kept[j]) == RowRecord(kept[j], detail, market);
    if r.Ok? {
      forall k | 0 <= k < |rows| && rows[k].cells != [] ensures Readable(rows[k]) {
        assert rows[k] in kept;
        var j :| 0 <= j < |kept| && kept[j] == rows[k];
        assert RowRecord(kept[j], detail, market).Ok?;
      }
    } else {
      var j :| 0 <= j < |kept| && mine(kept[j]).Fail?;
      assert kept[j] in rows;
      var k :| 0 <= k < |rows| && rows[k] == kept[j];
      assert !Readable(rows[k]);
    }
  }
}
