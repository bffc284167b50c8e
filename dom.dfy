/** The parsed pages, reduced to what the miner queries. Each field stands for one
    BeautifulSoup lookup the code makes (`find`, `find_all`, `.a`, `.pre`, `.small`, `.tbody`);
    `None` is the lookup finding nothing. A `text` field is the node's `.text`, taken as
    observed rather than recomputed from the children. */
module Dom {
  import opened Wrappers

  /** An `<a>` element: its text and its `href` attribute, if it has one. */
  datatype Anchor = Anchor(text: string, href: Option<string>)

  /** A `<td>` cell: its text and its first anchor (`cell.a`). */
  datatype Cell = Cell(text: string, a: Option<Anchor>)

  /** A `<tr>` row, as `row.find_all('td')` sees it. */
  datatype Row = Row(cells: seq<Cell>)

  /** A `<tbody>`: its text and `tbody.find_all('tr')`. */
  datatype Body = Body(text: string, rows: seq<Row>)

  /** A `<table>`: its text, its first `<tbody>`, and `table.find_all('td')` in document order. */
  datatype Table = Table(text: string, tbody: Option<Body>, cells: seq<Cell>)

  /** A `div.genTable`: its text and `find_all('table')`; its first table is `div.table`. */
  datatype TableDiv = TableDiv(text: string, tables: seq<Table>)

  /** A tab pane (`div#tabpane2`, `div#tabpane3`) and the `div.genTable` found in it. */
  datatype Pane = Pane(text: string, genTable: Option<TableDiv>)

  /** A free-text block (`div.ipo-comp-description`, `div#infoTable_2`, `div#infoTable_3`)
      and the text of its `<pre>`. */
  datatype TextBlock = TextBlock(text: string, pre: Option<string>)

  /** `div#infoTable`: its text, `find_all('tr')` and `find_all('td')`. */
  datatype SummaryTable = SummaryTable(text: string, rows: seq<Row>, cells: seq<Cell>)

  /** One `<li>` of the news list: its first anchor and the text of its first `<small>`. */
  datatype NewsItem = NewsItem(a: Option<Anchor>, small: Option<string>)

  /** A `<ul>` and its `find_all('li')`. */
  datatype NewsList = NewsList(text: string, items: seq<NewsItem>)

  /** `div#CompanyNewsCommentary` and its first `<ul>`. */
  datatype NewsDiv = NewsDiv(text: string, ul: Option<NewsList>)

  /** A company detail page. */
  datatype DetailPage = DetailPage(
    text: string,
    infoTable: Option<SummaryTable>,
    description: Option<TextBlock>,
    useOfProceeds: Option<TextBlock>,
    competitors: Option<TextBlock>,
    news: Option<NewsDiv>,
    expertsPane: Option<Pane>,
    financialsPane: Option<Pane>)

  /** The `div.genTable` of a monthly pricing page: its text and its first `<tbody>`. */
  datatype PricingTable = PricingTable(text: string, tbody: Option<Body>)

  /** A monthly pricing page. */
  datatype ListingPage = ListingPage(genTable: Option<PricingTable>)
}
