/** What the loaders read: sheets of cells, the channels points belong to, and
    the way one cell is turned into a number. */
module Workbook {
  import opened Base
  import opened PyText
  import opened PyNumber

  /** A cell as pandas hands it over: null (`NaN`, `None`, `NaT`) or any other
      value, kept as the text `str()` gives for it. */
  datatype Cell = Null | Raw(text: string)

  /** One data row, keyed by column header. */
  type Row = map<string, Cell>

  /** A worksheet: its name, its column headers left to right (as text) and
      its data rows. */
  datatype Sheet = Sheet(name: string, headers: seq<string>, rows: seq<Row>)

  /** pandas' `df.empty`: the frame has no column or no row. */
  predicate IsEmpty(sheet: Sheet) {
    |sheet.headers| == 0 || |sheet.rows| == 0
  }

  /** An irrigation channel (`Kanal`): its primary key and display name. */
  datatype Channel = Channel(id: nat, name: string)

  /** What reading a cell as a number gives: nothing to read, text that
      `float()` rejects, or a number. */
  datatype Reading = Blank | Malformed | Number(value: real)

  /** How both loaders read a cell: a null or whitespace-only cell is blank;
      otherwise the text, with ',' turned into '.', goes through `float()`.
      A header the row lacks raises `KeyError`, which the loaders catch in the
      same handler as a failed `float()`. */
  function ReadCell(row: Row, column: string): (r: Reading)
    ensures r.Blank? <==> column in row && (row[column].Null? || AllSpace(row[column].text))
    ensures r.Number? <==> && column in row && row[column].Raw?
                           && !AllSpace(row[column].text)
                           && ParseNumber(Replace(row[column].text, ',', '.')).Some?
    ensures r.Number? ==> ParseNumber(Replace(row[column].text, ',', '.')) == Some(r.value)
  {
    if column !in row then Malformed
    else match row[column]
      case Null => Blank
      case Raw(text) =>
        if Strip(text) == "" then Blank
        else match ParseNumber(Replace(text, ',', '.'))
          case None => Malformed
          case Some(v) => Number(v)
  }

  /** The position of the first channel, in the given order, whose name passes
      `test`; `|channels|` when none does. */
  function FirstMatching(test: string -> bool, channels: seq<Channel>): (i: nat)
    ensures i <= |channels|
    ensures forall j :: 0 <= j < i ==> !test(channels[j].name)
    ensures i < |channels| ==> test(channels[i].name)
    decreases |channels|
  {
    if |channels| == 0 || test(channels[0].name) then 0
    else 1 + FirstMatching(test, channels[1..])
  }
}
