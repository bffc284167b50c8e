/** `_mine_company_url`: the profile (`ipo_data`) of one company, assembled from its detail page. */
module Company {
  import opened Wrappers
  import opened Text
  import opened Dom
  import opened News
  import opened Experts
  import opened Finance

  /** The summary loop. It runs once per `<tr>` of the table, but reads the cells of the
      whole table (`summary_table.find_all('td')`), not those of the row. */
  function SummaryLoop(rows: seq<Row>, cells: seq<Cell>, entry: map<string, string>): map<string, string>
  {
    if rows == [] then entry
    else if cells == [] || |cells| % 2 != 0 then SummaryLoop(rows[1..], cells, entry)
    else SummaryLoop(rows[1..], cells, entry[Lower(cells[0].text) := Lower(cells[1].text)])
  }

  /** Every iteration writes the same pair, the lower-cased text of the table's first two
      cells; so the rows' own cells never matter, only whether there is a row at all. */
  lemma {:induction false} SummaryFirstPairOnly(rows: seq<Row>, cells: seq<Cell>, entry: map<string, string>)
    ensures SummaryLoop(rows, cells, entry) ==
      if rows == [] || cells == [] || |cells| % 2 != 0 then entry
      else entry[Lower(cells[0].text) := Lower(cells[1].text)]
  {
    if rows != [] {
      if cells == [] || |cells| % 2 != 0 {
        SummaryFirstPairOnly(rows[1..], cells, entry);
      } else {
        var e := entry[Lower(cells[0].text) := Lower(cells[1].text)];
        SummaryFirstPairOnly(rows[1..], cells, e);
        assert e[Lower(cells[0].text) := Lower(cells[1].text)] == e;
      }
    }
  }

  /** The summary map; `div#infoTable` missing raises (`find_all` on None). */
  function Summary(table: Option<SummaryTable>): (r: Result<map<string, string>>)
  {
    if table.None? then Fail(MissingNode)
    else Ok(SummaryLoop(table.value.rows, table.value.cells, map[]))
  }

  /** A free-text block: the text of its `<pre>` when the block and the `<pre>` are there
      with text, otherwise `""`. */
  function FreeText(block: Option<TextBlock>): (r: string)
    ensures r != "" <==> block.Some? && block.value.text != "" && block.value.pre.Some? && block.value.pre.value != ""
    ensures r != "" ==> r == block.value.pre.value
  {
    if block.None? || block.value.text == "" || block.value.pre.None? || block.value.pre.value == "" then ""
    else block.value.pre.value
  }

  datatype Profile = Profile(
    summary: map<string, string>,
    description: string,
    useOfProceeds: string,
    competitorsText: string,
    newsHeadlines: seq<NewsEntry>,
    newsHeadlinesCount: nat,
    experts: seq<Expert>,
    financials: Financials)

  /** `ipo_data` of a listing record: the empty dict, or the profile. */
  datatype IpoData = Empty | Data(profile: Profile)

  /** The profile of a detail page, `None` when fetching it raised. Nothing inside isolates
      one sub-section from another: whichever of the summary, news, experts or financials
      extractors raises, the exception leaves this function and the caller records `{}`. */
  function MineCompany(page: Option<DetailPage>): (r: IpoData)
    ensures r.Data? <==>
      && page.Some? && page.value.text != ""
      && Summary(page.value.infoTable).Ok?
      && Headlines(page.value.news).Ok?
      && ExpertsOf(page.value.expertsPane).Ok?
      && FinancialsOf(page.value.financialsPane).Ok?
    ensures r.Data? ==> r.profile.newsHeadlinesCount == |r.profile.newsHeadlines|
    ensures r.Data? ==>
      && Summary(page.value.infoTable) == Ok(r.profile.summary)
      && Headlines(page.value.news) == Ok(r.profile.newsHeadlines)
      && ExpertsOf(page.value.expertsPane) == Ok(r.profile.experts)
      && FinancialsOf(page.value.financialsPane) == Ok(r.profile.financials)
    ensures r.Data? ==>
      && r.profile.description == FreeText(page.value.description)
      && r.profile.useOfProceeds == FreeText(page.value.useOfProceeds)
      && r.profile.competitorsText == FreeText(page.value.competitors)
  {
    if page.None? || page.value.text == "" then Empty
    else
      var p := page.value;
      var summary := Summary(p.infoTable);
      var news := Headlines(p.news);
      var experts := ExpertsOf(p.expertsPane);
      var financials := FinancialsOf(p.financialsPane);
      if summary.Fail? || news.Fail? || experts.Fail? || financials.Fail? then Empty
      else
        Data(Profile(summary.value, FreeText(p.description), FreeText(p.useOfProceeds),
                     FreeText(p.competitors), news.value, |news.value|, experts.value, financials.value))
  }

  /** `_mine_company_url(url)` as its caller sees it. Its first statement formats `url` into
      a `str` log message, so a non-ASCII url raises before the page is fetched, and the
      caller records `{}` for it as for any other exception. */
  function MineCompanyUrl(url: string, fetch: string -> Option<DetailPage>): (r: IpoData)
    ensures !IsAscii(url) ==> r == Empty
    ensures IsAscii(url) ==> r == MineCompany(fetch(url))
  {
    if !IsAscii(url) then Empty else MineCompany(fetch(url))
  }

  /** The detail page's summary table missing is enough to lose every other sub-section. */
  lemma MissingSummaryLosesProfile(page: DetailPage)
    requires page.infoTable.None?
    ensures MineCompany(Some(page)) == Empty
  {
  }

  /** Whatever the summary table holds, it contributes at most one label. */
  lemma {:induction false} SummaryAtMostOneLabel(table: Option<SummaryTable>)
    requires Summary(table).Ok?
    ensures |Summary(table).value.Keys| <= 1
    ensures table.value.rows != [] && table.value.cells != [] && |table.value.cells| % 2 == 0 ==>
      Summary(table).value == map[Lower(table.value.cells[0].text) := Lower(table.value.cells[1].text)]
  {
    SummaryFirstPairOnly(table.value.rows, table.value.cells, map[]);
  }

  /** The values of the `entry` dict. */
  datatype Field =
    | Text(text: string)
    | NewsItems(entries: seq<NewsEntry>)
    | Count(n: nat)
    | ExpertList(experts: seq<Expert>)
    | FinancialsField(financials: Financials)

  const Reserved: set<string> :=
    {"description", "use of proceeds", "competitors_text", "news_headlines",
     "news_headlines_count", "experts", "financials"}

  /** The dict the source builds: the summary pair first, then the fixed keys, each
      assignment replacing an earlier one under the same key. */
  function AsDict(p: Profile): (d: map<string, Field>)
    ensures d.Keys == p.summary.Keys + Reserved
    ensures forall k :: k in p.summary && k !in Reserved ==> d[k] == Text(p.summary[k])
    ensures d["description"] == Text(p.description) && d["use of proceeds"] == Text(p.useOfProceeds)
    ensures d["competitors_text"] == Text(p.competitorsText)
    ensures d["news_headlines"] == NewsItems(p.newsHeadlines) && d["news_headlines_count"] == Count(p.newsHeadlinesCount)
    ensures d["experts"] == ExpertList(p.experts) && d["financials"] == FinancialsField(p.financials)
  {
    var summary := map k | k in p.summary :: Text(p.summary[k]);
    summary["description" := Text(p.description)]
           ["use of proceeds" := Text(p.useOfProceeds)]
           ["competitors_text" := Text(p.competitorsText)]
           ["news_headlines" := NewsItems(p.newsHeadlines)]
           ["news_headlines_count" := Count(p.newsHeadlinesCount)]
           ["experts" := ExpertList(p.experts)]
           ["financials" := FinancialsField(p.financials)]
  }
}
