/** `_get_news_headlines`: the news list of a company detail page. */
module News {
  import opened Wrappers
  import opened Dom

  datatype NewsEntry = NewsEntry(url: string, headline: string, source: string)

  /** One `<li>`: url and headline come from its anchor when that anchor has text,
      the source from its `<small>` when that has text; each is `""` otherwise. */
  function EntryOf(item: NewsItem): (r: Result<NewsEntry>)
    ensures r.Fail? <==> item.a.Some? && item.a.value.text != "" && item.a.value.href.None?
    ensures r.Ok? ==> (r.value.headline == "" <==> item.a.None? || item.a.value.text == "")
    ensures r.Ok? && r.value.headline != "" ==>
      r.value.headline == item.a.value.text && item.a.value.href == Some(r.value.url)
    ensures r.Ok? && r.value.headline == "" ==> r.value.url == ""
    ensures r.Ok? ==> (r.value.source != "" <==> item.small.Some? && item.small.value != "")
    ensures r.Ok? && r.value.source != "" ==> r.value.source == item.small.value
  {
    var hasLink := item.a.Some? && item.a.value.text != "";
    if hasLink && item.a.value.href.None? then Fail(MissingHref)
    else
      var url := if hasLink then item.a.value.href.value else "";
      var headline := if hasLink then item.a.value.text else "";
      var source := if item.small.Some? && item.small.value != "" then item.small.value else "";
      Ok(NewsEntry(url, headline, source))
  }

  /** The loop over the `<li>` items: one entry per item, in order; the first item whose
      anchor lacks an href raises and ends the loop. */
  function Entries(items: seq<NewsItem>): (r: Result<seq<NewsEntry>>)
    ensures r.Ok? <==> forall k :: 0 <= k < |items| ==> EntryOf(items[k]).Ok?
    ensures r.Fail? ==> r.error == MissingHref
    ensures r.Ok? ==> |r.value| == |items| && forall k :: 0 <= k < |items| ==> EntryOf(items[k]) == Ok(r.value[k])
  {
    if items == [] then Ok([])
    else
      match EntryOf(items[0])
      case Fail(e) => Fail(e)
      case Ok(entry) =>
        match Entries(items[1..])
        case Fail(e) => Fail(e)
        case Ok(rest) =>
          assert forall k :: 1 <= k < |items| ==> items[k] == items[1..][k - 1];
          Ok([entry] + rest)
  }

  /** The news container, its `<ul>` and its `<li>` items are all there, with text. */
  predicate Listed(div: Option<NewsDiv>) {
    && div.Some? && div.value.text != ""
    && div.value.ul.Some? && div.value.ul.value.text != ""
    && div.value.ul.value.items != []
  }

  /** The news list: `[]` when the container, its `<ul>` or its `<li>` items are absent or
      empty; otherwise one entry per `<li>`, in order, unless some item raised. */
  function Headlines(div: Option<NewsDiv>): (r: Result<seq<NewsEntry>>)
    ensures !Listed(div) ==> r == Ok([])
    ensures Listed(div) ==>
      (r.Ok? <==> forall k :: 0 <= k < |div.value.ul.value.items| ==> EntryOf(div.value.ul.value.items[k]).Ok?)
    ensures Listed(div) && r.Ok? ==>
      && |r.value| == |div.value.ul.value.items|
      && forall k :: 0 <= k < |r.value| ==> EntryOf(div.value.ul.value.items[k]) == Ok(r.value[k])
    ensures r.Fail? ==> r.error == MissingHref
  {
    if !Listed(div) then Ok([])
    else Entries(div.value.ul.value.items)
  }
}
