# ipo_miner, modelled in Dafny

`ipo_miner.py` harvests the NASDAQ IPO pricing pages month by month. `Miner.mine_to` walks
back from the month of `to_date` to the month of `from_date`. For each month it mines the
pricing table (`_mine_from_url`). Every listing row becomes a record, enriched with the
company's detail page (`_mine_company_url` and its extractors for the summary table, the free
texts, news, experts and financials) and with a market-data lookup. After every month the
whole list gathered so far is rewritten to the output JSON file.

The model keeps the deterministic logic under the scraping:

- `Dom`: the parsed pages, one datatype per shape the code queries. Each BeautifulSoup lookup
  is a field, and `None` is a lookup that found nothing.
- `Wrappers`: `Option`, and `Result` with an `Error` kind per exception the code can raise.
  These are an attribute access on `None`, an index out of range, a missing `href`, a
  `float()` refusal, a `NameError`, a failed fetch, a `UnicodeEncodeError` and an `extend`
  on loaded JSON that is not a list.
- `Text`: the price filter of line 95, the acceptance test of `float()` on its output,
  lower-casing, and the case-insensitive label patterns of the financials tables.
- `News`, `Experts`, `Finance`: the three detail-page extractors.
- `Company`: `_mine_company_url`, the profile assembled from those extractors.
- `Listing`: `_mine_from_url`, the records of one pricing page.
- `Calendar`: the month count, the range check and the backward month step of `mine_to`.
- `Miner`: `mine_to` as a method over a `Disk` object whose file map it updates. It is proved
  against `MineMonths` (the harvest of the first `n` months of the walk) and `Checkpoints`
  (the successive file contents).

Fetches and the market lookup are parameters: functions from the request to an optional
result, where `None` means the request raised. The model follows what the code does, including
where a reader would expect it to do otherwise:

- One might expect each sub-section of a detail page to fail on its own. In the code,
  nothing inside `_mine_company_url` catches anything. A missing summary table
  (line 155), a missing experts or financials pane (lines 237, 264), a pane without tables
  (line 273), a filings table without a body (line 295) or a missing `href` each leave the
  function. The caller at lines 97-101 then records `ipo_data` as `{}`. `Company.MineCompany`
  gives `Empty` in all these cases.
- An experts row with an odd or zero column count looks as if it were skipped. The warning
  at line 247 formats `url`, a name bound nowhere in `_get_experts`. Reaching it raises `NameError`, and
  with it the whole profile is lost. `Experts.ExpertOf` models this as `Fail(UndefinedName)`.
- The summary loop (lines 156-162) reads the cells of the whole table on every iteration. The
  summary therefore holds at most one pair: the first two cells, lower-cased.
- The program runs under Python 2 (`xrange` at line 53), where `.text` and attribute values
  are `unicode`. Formatting one into a `str` template raises `UnicodeEncodeError` when it
  holds a non-ASCII character. This happens for the company name in the log message at
  line 96, which ends the run. It happens for the company url at line 143 and a filing
  `href` at line 305, and there it loses the company's profile.
- `json.load` accepts any JSON. When the output file holds JSON that is not a list,
  `entries.extend` raises at line 57 in the first month, before anything is written.
- Neither a listing row that cannot be read nor a listing page that cannot be fetched is
  caught inside `mine_to`. Either one ends the run, after the months already written.
  `Miner.MineTo` reports this as `Aborted`.

## Model

| member | source | states |
|---|---|---|
| Text.PriceDigits | ipo_miner.py:95 | The filtered price is no longer than the price and holds only ASCII digits and `.`. |
| Text.PriceDigitsAppend | ipo_miner.py:95 | The filter works character by character, in order: filtering a concatenation concatenates the filtered parts. |
| Text.PriceDigitsKeepsPriceText | ipo_miner.py:95 | Text made of digits and `.` only passes the filter unchanged. |
| Text.PriceDigitsIdempotent | ipo_miner.py:95 | Filtering twice is filtering once. |
| Text.PriceDigitsCount | ipo_miner.py:95 | Every digit and `.` of the price is kept as often as it occurs; every other character is dropped. |
| Text.DollarPrice | ipo_miner.py:95 | `"$12.50"` filters to `"12.50"`. |
| Text.DollarPriceParses | ipo_miner.py:95 | `float()` accepts the filtered `"$12.50"`. |
| Text.PriceParses | ipo_miner.py:95 | `float()` accepts the filtered price exactly when the price holds an ASCII digit and at most one `.`. |
| Text.NoDigitPriceDoesNotParse | ipo_miner.py:95 | A price without a digit, such as `"TBD"` or `"N/A."`, is refused by `float()` once filtered, so its row raises. |
| Text.CountChar | ipo_miner.py:95 | The count of a character is its multiplicity in the text. |
| Text.Lower | ipo_miner.py:162 | Lower-casing keeps the length and maps each character through the ASCII lower-case map. |
| Text.LowerChar | ipo_miner.py:162 | An upper-case ASCII letter maps to its lower-case letter (32 code points on); every other character is left unchanged, and the result is never upper-case. |
| Text.LowerIdempotent | ipo_miner.py:162 | Lower-casing twice is lower-casing once. |
| Text.ContainsCIAt | ipo_miner.py:274-276 | The case-insensitive search for a literal label succeeds exactly when the label starts at some position of the cell text. |
| Text.FollowsCIAt | ipo_miner.py:286 | `.*equity` matches at the start of a text exactly when "equity" starts at some position with no newline before it. |
| Text.SearchThenCIAt | ipo_miner.py:286 | The search for `stockholders.*equity` succeeds exactly when "stockholders" starts at some position and `.*equity` matches right after it. |
| News.EntryOf | ipo_miner.py:220-228 | Url and headline come from the anchor when it has text, else both are `""`. The source comes from `<small>` when it has text, else `""`. An anchor with text but no `href` raises. |
| News.Entries | ipo_miner.py:219-229 | The item loop succeeds exactly when every item does. It then gives one entry per item, in order. A failure is always the missing `href`. |
| News.Headlines | ipo_miner.py:209-231 | Without a container, list and items, all with text, the list is `[]`. Otherwise it succeeds exactly when every item does, and then holds one entry per item: the entry of the item at the same index. A failure is a missing `href`. |
| Experts.ExpertOf | ipo_miner.py:245-256 | A row without a non-zero, even cell count raises `NameError`. Otherwise the kind is the first cell's text; name and url come from the second cell's anchor when it has text, else both are `""`; an anchor with text but no `href` raises. |
| Experts.Rows | ipo_miner.py:243-256 | The row loop succeeds exactly when every row does. It then gives one expert per row, in order. |
| Experts.BodyRows | ipo_miner.py:237-243 | The rows are the body rows of the first table of the pane's `div.genTable` when that div, the table and its body are there with text, and none otherwise. |
| Experts.ExpertsOf | ipo_miner.py:233-258 | A missing pane raises. A pane without the table gives `[]`. Otherwise it succeeds exactly when every body row does, and then holds one expert per body row, the expert of the row at the same index. A badly shaped row anywhere raises. |
| Finance.FirstMatch | ipo_miner.py:274-276 | The index found is that of the first cell whose text matches the label; `None` when no cell matches. |
| Finance.Lookup | ipo_miner.py:273-290 | `""` when no cell of the table matches. Otherwise it is the text of the cell after the first match, looking into the following tables' cells, or `""` when there is none. Each label is looked up independently of the others. |
| Finance.CellsOfAppend | ipo_miner.py:274 | The cells of two runs of tables are those of the first run, then those of the second. |
| Finance.FilingOf | ipo_miner.py:302-306 | Form type and date come from cells 2 and 3. The url is the NASDAQ host followed by the 4th cell's anchor `href`, or `""` without an anchor. An anchor without `href` raises `KeyError`; a non-ASCII `href` raises `UnicodeEncodeError`. |
| Finance.Kept | ipo_miner.py:296-300 | Every kept filings row has a non-zero multiple of 4 cells, every such row is kept, and no other row is. |
| Finance.KeptOne | ipo_miner.py:296-300 | A single row is kept exactly when it has the filings shape. |
| Finance.KeptAppend | ipo_miner.py:296-300 | The filter works row by row: two runs of rows keep the first run's rows, then the second's, each in its own order. |
| Finance.FilingRowsFilings | ipo_miner.py:294-308 | The filings loop succeeds exactly when every kept row does. It then gives one filing per kept row, in order. |
| Finance.Filings | ipo_miner.py:293-295 | A filings table without a body raises; otherwise its rows are mined. |
| Finance.FinancialsOf | ipo_miner.py:260-310 | Ok exactly when the pane, its `div.genTable` and a first table exist, and a third table's filings do not raise. The liabilities pair is present exactly with at least 2 tables, and the filings exactly with at least 3. Every field is its own label lookup. |
| Company.SummaryFirstPairOnly | ipo_miner.py:154-162 | Whatever the rows, the loop writes nothing, or the lower-cased pair of the table's first two cells. |
| Company.SummaryAtMostOneLabel | ipo_miner.py:150-162 | A summary holds at most one label, and exactly the first pair when the table has rows and a non-zero, even number of cells. |
| Company.FreeText | ipo_miner.py:164-190 | A free text is non-empty exactly when the block, its text, its `<pre>` and the `<pre>`'s text are present, and it is then the `<pre>`'s text. |
| Company.MineCompany | ipo_miner.py:142-207 | A profile exists exactly when the page was fetched, has text, and the summary, news, experts and financials extractors all succeed. Its parts are their results and the three free texts, and the news count is the length of the news list. |
| Company.MineCompanyUrl | ipo_miner.py:142-144 | A non-ASCII company url raises in the first log message, before the fetch, and gives `{}`; any other url gives the profile of its fetched page. |
| Company.MissingSummaryLosesProfile | ipo_miner.py:150-155 | A page without a summary table loses its whole profile. |
| Company.AsDict | ipo_miner.py:154-205 | The profile dict has the summary labels and the seven fixed keys. A fixed key overrides a summary label of the same name. |
| Listing.RowRecord | ipo_miner.py:86-138 | A row with cells gives a record exactly when it is readable: seven cells, a company anchor with `href`, a symbol anchor, a price that `float()` accepts once filtered, and an ASCII company name. A row that passes the other tests fails with `UnicodeEncodeError`. The record's fields are the cells' texts, its price number is the filtered price, its `ipo_data` is what mining the company url gives, and its trade data is the market lookup. |
| Listing.WithCells | ipo_miner.py:82-85 | Every row not skipped has cells, every row with cells is kept, and no other row is. |
| Listing.WithCellsOne | ipo_miner.py:82-85 | A single row is kept exactly when it has a cell. |
| Listing.WithCellsAppend | ipo_miner.py:82-85 | The filter works row by row: two runs of rows keep the first run's rows, then the second's, each in its own order. |
| Listing.RowsRecords | ipo_miner.py:80-138 | Whatever each row gives, the row loop succeeds exactly when every row with cells gives a record. It then gives one record per such row, in order. |
| Listing.TableRows | ipo_miner.py:73-80 | The rows are the table body's when `div.genTable` and its body are there with text, and none otherwise. |
| Listing.MinePage | ipo_miner.py:70-80 | A failed fetch raises; a page without table rows gives `[]`. |
| Listing.PageRecords | ipo_miner.py:70-140 | A fetched page yields records exactly when every table row with cells is readable. It then gives one record per such row, in row order. |
| Calendar.MonthCountGuard | ipo_miner.py:48-51 | A negative month count implies a reversed range, so the cancel test is the datetime comparison. An accepted range counts at least one month: the months from `from`'s to `to`'s, both included. |
| Calendar.Previous | ipo_miner.py:60-61 | The step goes to the preceding calendar month and keeps the month in 1..12. The year drops by one exactly when the month rolls over from January to December. |
| Calendar.Back | ipo_miner.py:60-61 | Every month of the walk is a valid month. |
| Calendar.BackIndex | ipo_miner.py:53-61 | `k` steps back land exactly `k` months earlier. |
| Calendar.BackDistinct | ipo_miner.py:53-61 | The walk never visits a month twice. |
| Calendar.IndexInjective | ipo_miner.py:48-49 | Two valid months with the same index are the same month. |
| Calendar.WalkEndsAtFrom | ipo_miner.py:48-61 | Walking the month count back from `to`'s month ends at `from`'s month. |
| Miner.Load | ipo_miner.py:43-46 | The initial list is the file's records, or `[]` when the file is missing or unreadable. |
| Miner.MineMonthsOk | ipo_miner.py:53-57 | The walk over `n` months succeeds exactly when no month raises. It then holds exactly `n` batches, the `k`-th being the records of the month `k` steps back. |
| Miner.MineMonthsStep | ipo_miner.py:56-57 | A month that gives its records extends the harvest by its batch. |
| Miner.MineMonthsFail | ipo_miner.py:56 | A failed walk reports the exception of the first month that raised. |
| Miner.FlattenGrows | ipo_miner.py:57 | The records of fewer batches are a prefix of the records of more. |
| Miner.CheckpointStep | ipo_miner.py:57-66 | Writing the last content followed by one more batch extends the checkpoints. |
| Miner.CheckpointAt | ipo_miner.py:57-66 | The `k`-th write holds the loaded records followed by the first `k + 1` batches, in visit order. |
| Miner.CheckpointsGrow | ipo_miner.py:57-66 | Every written content is a prefix of every later one. |
| Miner.PersistStep | ipo_miner.py:65-66 | Each write replaces the whole file with the list so far. |
| Miner.ProgressStep | ipo_miner.py:53-66 | One month that gives its records keeps the loop invariant: harvest, checkpoints, list and file. |
| Miner.MineToWith | ipo_miner.py:40-67 | Cancelled exactly on a reversed range, with no batch and the files untouched. Completed means every one of the `MonthCount` months was mined. Aborted means the month `k` steps back stopped the run after the first `k` months were mined: with that month's exception, or, when the month was mined, because the loaded JSON is not a list. A file holding such JSON is never written and the run never completes. In every case each write is a checkpoint and the file holds the last one. |
| Miner.MineTo | ipo_miner.py:40-68 | The same, with each month mined by fetching its pricing page and mining it. An abort names the month whose page raised and that page's exception, or the `extend` failure. |

## Left out

- HTTP requests, request headers and the cookie and `Referer` update (lines 19-26, 62-63, 71, 144). Fetches are parameters of the model, and `None` stands for a request that raised.
- HTML parsing by BeautifulSoup and html5lib. Pages are given as `Dom` values, and a node's `.text` is taken as given rather than derived from its children.
- `find_next('td')` is modelled as the next cell of the same table, then of the following tables in the pane. Cells outside the pane's tables and nested tables are not modelled.
- The `text=` filter of `find` is applied to the cell's text. BeautifulSoup's distinction between `.string` and `.text` for cells with several children is not modelled.
- `Text.Lower`: ASCII letters only; the Unicode lower-casing of `.lower()` is not modelled.
- `Text.ParsesAsFloat`: only whether `float()` accepts the filtered price, not the value it gives.
- `Listing.RowRecord`: the market-data lookup and its arithmetic (lines 103-119) are an opaque function of symbol, date and price. Only its all-or-nothing outcome is kept: `None` stands for `trade_data` `{}` with all five metrics null.
- The date parsing and the one-day window of the market lookup (line 104) belong to that opaque function.
- JSON serialisation, the bytes on disk and a failing write. The file is the list of records last written, JSON that is not a list, or unreadable content.
- `Miner.Load`: a file holding a JSON list whose items are not records is not modelled. The code would extend that list as it is; the model's file holds only lists of records.
- Logging and `time.sleep(1)` (line 64): side effects with no logic.
- The command-line entry point (lines 313-322): argument parsing and `datetime.now()`.
- `Miner.MineTo`: the exceptions that end a run are returned as `Aborted` rather than raised. The records written up to that month remain on disk, as in the code.
