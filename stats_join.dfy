/** Joining a boundary feature to a row of the fetched statistics table.
    The table is a JSON array and a feature's `dt_code` is used directly as
    an index into it; an index outside the array finds no row. */
module StatsJoin {

  datatype Option<T> = None | Some(value: T)

  /** One element of the fetched table: its `Overall_3` value and its
      `Location` label ("" stands for a label that is absent or empty, which
      JavaScript's `||` treats alike). */
  datatype Row = Row(overall: real, location: string)

  /** `tableData[code]`: the row at that index, if there is one. */
  function Lookup(table: seq<Row>, code: int): (r: Option<Row>)
    ensures r.Some? <==> 0 <= code < |table|
    ensures r.Some? ==> r.value == table[code]
  {
    if 0 <= code < |table| then Some(table[code]) else None
  }

  /** The value a region is coloured by: the row's `Overall_3`, or 0 on a miss. */
  function ValueOf(table: seq<Row>, code: int): (v: real)
    ensures 0 <= code < |table| ==> v == table[code].overall
    ensures !(0 <= code < |table|) ==> v == 0.0
  {
    match Lookup(table, code)
    case Some(row) => row.overall
    case None => 0.0
  }

  /** The tooltip text: the row's `Location`, or "" on a miss. */
  function TooltipLabel(table: seq<Row>, code: int): (s: string)
    ensures 0 <= code < |table| ==> s == table[code].location
    ensures !(0 <= code < |table|) ==> s == ""
  {
    match Lookup(table, code)
    case Some(row) => row.location
    case None => ""
  }

  /** The label reported on a click: the row's `Location`, or "Gujarat" when
      the row is missing or its label is empty. */
  function ClickLabel(table: seq<Row>, code: int): (s: string)
    ensures s != ""
    ensures 0 <= code < |table| && table[code].location != "" ==> s == table[code].location
    ensures !(0 <= code < |table| && table[code].location != "") ==> s == "Gujarat"
  {
    match Lookup(table, code)
    case Some(row) => if row.location != "" then row.location else "Gujarat"
    case None => "Gujarat"
  }

  /** The click label and the tooltip differ only in their fallback. */
  lemma ClickLabelFromTooltip(table: seq<Row>, code: int)
    ensures ClickLabel(table, code) == if TooltipLabel(table, code) == "" then "Gujarat" else TooltipLabel(table, code)
  {
  }

  /** A region's value is either one of the table's values or the default 0. */
  lemma ValueComesFromTable(table: seq<Row>, code: int)
    ensures ValueOf(table, code) == 0.0 || exists k :: 0 <= k < |table| && table[k].overall == ValueOf(table, code)
  {
  }
}
