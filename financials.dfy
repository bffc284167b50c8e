/** `_get_financials_table`: the income, balance-sheet and filings tables of `div#tabpane2`. */
module Finance {
  import opened Wrappers
  import opened Text
  import opened Dom

  /** The labels looked up in the financial tables, each a case-insensitive regular expression. */
  datatype Label = Revenue | NetIncome | TotalAssets | TotalLiabilities | StockholdersEquity

  /** `re.compile(<label>, re.I).search(text)`. */
  predicate LabelMatches(key: Label, text: string)
  {
    match key
    case Revenue => ContainsCI(text, "revenue")
    case NetIncome => ContainsCI(text, "net income")
    case TotalAssets => ContainsCI(text, "total assets")
    case TotalLiabilities => ContainsCI(text, "total liabilities")
    case StockholdersEquity => Text.StockholdersEquity(text)
  }

  /** `table.find('td', text=<label>)`: the index of the first matching cell. */
  function FirstMatch(cells: seq<Cell>, key: Label): (r: Option<nat>)
    ensures r.Some? ==> r.value < |cells| && LabelMatches(key, cells[r.value].text)
    ensures r.Some? ==> forall j :: 0 <= j < r.value ==> !LabelMatches(key, cells[j].text)
    ensures r.None? ==> forall j :: 0 <= j < |cells| ==> !LabelMatches(key, cells[j].text)
  {
    if cells == [] then None
    else if LabelMatches(key, cells[0].text) then Some(0)
    else
      assert forall j :: 1 <= j < |cells| ==> cells[j] == cells[1..][j - 1];
      match FirstMatch(cells[1..], key)
      case None => None
      case Some(i) => Some(i + 1)
  }

  /** `cell.find_next('td').text if ... else ''` for the first cell of `cells` matching the
      label; `following` holds the cells that come after `cells` in the document. */
  function Lookup(cells: seq<Cell>, following: seq<Cell>, key: Label): (r: string)
    ensures (forall j :: 0 <= j < |cells| ==> !LabelMatches(key, cells[j].text)) ==> r == ""
    ensures forall i :: (0 <= i < |cells| && LabelMatches(key, cells[i].text)
      && (forall j :: 0 <= j < i ==> !LabelMatches(key, cells[j].text))) ==>
        r == if i + 1 < |cells + following| then (cells + following)[i + 1].text else ""
  {
    match FirstMatch(cells, key)
    case None => ""
    case Some(i) =>
      var scope := cells + following;
      if i + 1 < |scope| then scope[i + 1].text else ""
  }

  /** The cells of `tables`, one table after the other. */
  function CellsOf(tables: seq<Table>): seq<Cell>
  {
    if tables == [] then [] else tables[0].cells + CellsOf(tables[1..])
  }

  /** The cells of two runs of tables are those of the first run, then those of the second. */
  lemma {:induction false} CellsOfAppend(a: seq<Table>, b: seq<Table>)
    ensures CellsOf(a + b) == CellsOf(a) + CellsOf(b)
  {
    if a == [] {
      assert a + b == b;
    } else {
      assert (a + b)[0] == a[0];
      assert (a + b)[1..] == a[1..] + b;
      CellsOfAppend(a[1..], b);
    }
  }

  datatype Filing = Filing(formType: string, dateReceived: string, url: string)

  const Host: string := "http://www.nasdaq.com"

  /** A filings row the source keeps: a non-zero multiple of 4 cells. */
  predicate FilingShaped(row: Row) {
    |row.cells| > 0 && |row.cells| % 4 == 0
  }

  /** One kept filings row: form type and date from the 2nd and 3rd cells; the url is the
      host followed by the 4th cell's anchor href, or `""` without an anchor. The host is a
      `str` template, so a non-ASCII href raises. */
  function FilingOf(row: Row): (r: Result<Filing>)
    requires FilingShaped(row)
    ensures r.Fail? <==>
      row.cells[3].a.Some? && (row.cells[3].a.value.href.None? || !IsAscii(row.cells[3].a.value.href.value))
    ensures r.Fail? ==> r.error == if row.cells[3].a.value.href.None? then MissingHref else NotAscii
    ensures r.Ok? ==> r.value.formType == row.cells[1].text && r.value.dateReceived == row.cells[2].text
    ensures r.Ok? ==> (r.value.url == "" <==> row.cells[3].a.None?)
    ensures r.Ok? && row.cells[3].a.Some? ==> r.value.url == Host + row.cells[3].a.value.href.value
  {
    var a := row.cells[3].a;
    if a.Some? && a.value.href.None? then Fail(MissingHref)
    else if a.Some? && !IsAscii(a.value.href.value) then Fail(NotAscii)
    else Ok(Filing(row.cells[1].text, row.cells[2].text, if a.Some? then Host + a.value.href.value else ""))
  }

  /** The rows kept by the shape check, in their original order. */
  function Kept(rows: seq<Row>): (r: seq<Row>)
    ensures |r| <= |rows|
    ensures forall k :: 0 <= k < |r| ==> FilingShaped(r[k])
    ensures forall k :: 0 <= k < |rows| && FilingShaped(rows[k]) ==> rows[k] in r
    ensures forall x :: x in r ==> x in rows
  {
    if rows == [] then []
    else if FilingShaped(rows[0]) then [rows[0]] + Kept(rows[1..])
    else Kept(rows[1..])
  }

  /** The filter keeps a single row exactly when it has the filings shape. */
  lemma KeptOne(row: Row)
    ensures Kept([row]) == if FilingShaped(row) then [row] else []
  {
  }

  /** The filter works row by row: filtering two runs of rows one after the other keeps the
      rows of the first run, then those of the second, each in its own order. */
  lemma {:induction false} KeptAppend(a: seq<Row>, b: seq<Row>)
    ensures Kept(a + b) == Kept(a) + Kept(b)
  {
    if a == [] {
      assert a + b == b;
    } else {
      assert (a + b)[0] == a[0];
      assert (a + b)[1..] == a[1..] + b;
      KeptAppend(a[1..], b);
    }
  }

  /** The loop over the filings rows: a row of the wrong shape is skipped, every other
      row yields one filing, in order; the first kept row that raises ends it. */
  function FilingRows(rows: seq<Row>): Result<seq<Filing>>
  {
    if rows == [] then Ok([])
    else if !FilingShaped(rows[0]) then FilingRows(rows[1..])
    else
      match FilingOf(rows[0])
      case Fail(e) => Fail(e)
      case Ok(f) =>
        match FilingRows(rows[1..])
        case Fail(e) => Fail(e)
        case Ok(rest) => Ok([f] + rest)
  }

  /** The filings loop succeeds exactly when every kept row gives a filing, and then holds
      those filings, one per kept row, in order. */
  lemma {:induction false} FilingRowsFilings(rows: seq<Row>)
    ensures FilingRows(rows).Ok? <==> forall k :: 0 <= k < |Kept(rows)| ==> FilingOf(Kept(rows)[k]).Ok?
    ensures FilingRows(rows).Ok? ==> |FilingRows(rows).value| == |Kept(rows)|
    ensures FilingRows(rows).Ok? ==>
      forall k :: 0 <= k < |Kept(rows)| ==> FilingOf(Kept(rows)[k]) == Ok(FilingRows(rows).value[k])
  {
    if rows == [] {
    } else if !FilingShaped(rows[0]) {
      FilingRowsFilings(rows[1..]);
      assert Kept(rows) == Kept(rows[1..]);
    } else {
      FilingRowsFilings(rows[1..]);
      var kept := Kept(rows);
      var rest := Kept(rows[1..]);
      assert kept == [rows[0]] + rest;
      assert forall k :: 1 <= k < |kept| ==> kept[k] == rest[k - 1];
      assert forall k :: 0 <= k < |rest| ==> rest[k] == kept[k + 1];
      if FilingOf(rows[0]).Fail? {
        assert FilingOf(kept[0]).Fail?;
      }
    }
  }

  datatype Liabilities = Liabilities(totalLiabilities: string, stockholdersEquity: string)

  /** The `financials` dict: the three income fields are always present, the balance-sheet
      pair only with a second table, the filings only with a third. */
  datatype Financials = Financials(
    revenue: string,
    netIncome: string,
    totalAssets: string,
    liabilities: Option<Liabilities>,
    filings: Option<seq<Filing>>)

  /** `filings_table.tbody.find_all('tr')` and the loop over it; a table without a body raises. */
  function Filings(table: Table): (r: Result<seq<Filing>>)
    ensures table.tbody.None? ==> r == Fail(MissingNode)
    ensures table.tbody.Some? ==> r == FilingRows(table.tbody.value.rows)
  {
    if table.tbody.None? then Fail(MissingNode) else FilingRows(table.tbody.value.rows)
  }

  /** The financials of a detail page. No pane (`div.find` on None), no `div.genTable` in it
      (`table.find_all` on None) or no table in that (`tables[0]`) raises. */
  function FinancialsOf(pane: Option<Pane>): (r: Result<Financials>)
    ensures r.Ok? <==>
      && pane.Some? && pane.value.genTable.Some? && pane.value.genTable.value.tables != []
      && (|pane.value.genTable.value.tables| > 2 ==> Filings(pane.value.genTable.value.tables[2]).Ok?)
    ensures r.Ok? ==> (r.value.liabilities.Some? <==> |pane.value.genTable.value.tables| >= 2)
    ensures r.Ok? ==> (r.value.filings.Some? <==> |pane.value.genTable.value.tables| >= 3)
    ensures r.Ok? ==>
      var tables := pane.value.genTable.value.tables;
      && r.value.revenue == Lookup(tables[0].cells, CellsOf(tables[1..]), Revenue)
      && r.value.netIncome == Lookup(tables[0].cells, CellsOf(tables[1..]), NetIncome)
      && r.value.totalAssets == Lookup(tables[0].cells, CellsOf(tables[1..]), TotalAssets)
    ensures r.Ok? && r.value.liabilities.Some? ==>
      var tables := pane.value.genTable.value.tables;
      && r.value.liabilities.value.totalLiabilities == Lookup(tables[1].cells, CellsOf(tables[2..]), TotalLiabilities)
      && r.value.liabilities.value.stockholdersEquity == Lookup(tables[1].cells, CellsOf(tables[2..]), StockholdersEquity)
    ensures r.Ok? && r.value.filings.Some? ==> Filings(pane.value.genTable.value.tables[2]) == Ok(r.value.filings.value)
  {
    if pane.None? || pane.value.genTable.None? then Fail(MissingNode)
    else
      var tables := pane.value.genTable.value.tables;
      if tables == [] then Fail(IndexOutOfRange)
      else
        var income := tables[0].cells;
        var after := CellsOf(tables[1..]);
        var liabilities :=
          if |tables| > 1 then
            var rest := CellsOf(tables[2..]);
            Some(Liabilities(Lookup(tables[1].cells, rest, TotalLiabilities),
                             Lookup(tables[1].cells, rest, StockholdersEquity)))
          else None;
        var filings := if |tables| > 2 then Some(Filings(tables[2])) else None;
        if filings.Some? && filings.value.Fail? then Fail(filings.value.error)
        else
          Ok(Financials(Lookup(income, after, Revenue), Lookup(income, after, NetIncome),
                        Lookup(income, after, TotalAssets), liabilities,
                        if filings.Some? then Some(filings.value.value) else None))
  }
}
