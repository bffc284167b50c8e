/** `_get_experts`: the underwriters, auditors and counsel table of `div#tabpane3`. */
module Experts {
  import opened Wrappers
  import opened Dom

  datatype Expert = Expert(kind: string, name: string, url: string)

  /** A row the source accepts: a non-zero, even number of cells. */
  predicate WellShaped(row: Row) {
    |row.cells| > 0 && |row.cells| % 2 == 0
  }

  /** One row. A row that is not well shaped takes the warning branch, whose message
      formats the name `url`, bound nowhere in the method: a NameError, not a skip.
      Name and url come from the second cell's anchor when it has text, else `""`. */
  function ExpertOf(row: Row): (r: Result<Expert>)
    ensures !WellShaped(row) ==> r == Fail(UndefinedName)
    ensures r.Ok? ==> WellShaped(row) && r.value.kind == row.cells[0].text
    ensures r.Ok? ==> (r.value.name == "" <==> row.cells[1].a.None? || row.cells[1].a.value.text == "")
    ensures r.Ok? && r.value.name != "" ==>
      r.value.name == row.cells[1].a.value.text && row.cells[1].a.value.href == Some(r.value.url)
    ensures r.Ok? && r.value.name == "" ==> r.value.url == ""
    ensures WellShaped(row) ==>
      (r.Fail? <==> row.cells[1].a.Some? && row.cells[1].a.value.text != "" && row.cells[1].a.value.href.None?)
  {
    if !WellShaped(row) then Fail(UndefinedName)
    else
      var a := row.cells[1].a;
      var hasLink := a.Some? && a.value.text != "";
      if hasLink && a.value.href.None? then Fail(MissingHref)
      else
        Ok(Expert(row.cells[0].text,
                  if hasLink then a.value.text else "",
                  if hasLink then a.value.href.value else ""))
  }

  /** The loop over the table rows: one expert per row, in row order; the first row
      that raises ends it. */
  function Rows(rows: seq<Row>): (r: Result<seq<Expert>>)
    ensures r.Ok? <==> forall k :: 0 <= k < |rows| ==> ExpertOf(rows[k]).Ok?
    ensures r.Ok? ==> |r.value| == |rows| && forall k :: 0 <= k < |rows| ==> ExpertOf(rows[k]) == Ok(r.value[k])
  {
    if rows == [] then Ok([])
    else
      match ExpertOf(rows[0])
      case Fail(e) => Fail(e)
      case Ok(x) =>
        match Rows(rows[1..])
        case Fail(e) => Fail(e)
        case Ok(rest) =>
          assert forall k :: 1 <= k < |rows| ==> rows[k] == rows[1..][k - 1];
          Ok([x] + rest)
  }

  /** The pane's `div.genTable`, its first table and that table's `<tbody>` are all there,
      with text. */
  predicate Tabled(pane: Pane) {
    && pane.genTable.Some? && pane.genTable.value.text != ""
    && pane.genTable.value.tables != [] && pane.genTable.value.tables[0].text != ""
    && pane.genTable.value.tables[0].tbody.Some? && pane.genTable.value.tables[0].tbody.value.text != ""
  }

  /** The body rows of the first table inside the pane's `div.genTable`, when the
      `div.genTable`, that table and its `<tbody>` are there and not empty; none otherwise. */
  function BodyRows(pane: Pane): (rows: seq<Row>)
    ensures Tabled(pane) ==> rows == pane.genTable.value.tables[0].tbody.value.rows
    ensures !Tabled(pane) ==> rows == []
  {
    if Tabled(pane) then pane.genTable.value.tables[0].tbody.value.rows else []
  }

  /** The experts list. A missing pane raises (`div.find` on None); a missing table
      yields `[]`; otherwise every row must be well shaped, and each becomes one entry. */
  function ExpertsOf(pane: Option<Pane>): (r: Result<seq<Expert>>)
    ensures pane.None? ==> r == Fail(MissingNode)
    ensures pane.Some? && !Tabled(pane.value) ==> r == Ok([])
    ensures pane.Some? ==> (r.Ok? <==> forall k :: 0 <= k < |BodyRows(pane.value)| ==> ExpertOf(BodyRows(pane.value)[k]).Ok?)
    ensures r.Ok? ==> |r.value| == |BodyRows(pane.value)|
    ensures r.Ok? ==> forall k :: 0 <= k < |r.value| ==> ExpertOf(BodyRows(pane.value)[k]) == Ok(r.value[k])
    ensures r.Ok? ==> forall k :: 0 <= k < |r.value| ==>
      WellShaped(BodyRows(pane.value)[k]) && r.value[k].kind == BodyRows(pane.value)[k].cells[0].text
    ensures pane.Some? && (exists k :: 0 <= k < |BodyRows(pane.value)| && !WellShaped(BodyRows(pane.value)[k])) ==>
      r.Fail?
  {
    if pane.None? then Fail(MissingNode)
    else Rows(BodyRows(pane.value))
  }
}
