/** Flattening a calibration matrix into points and upserting them
    (`process_sheet_data`, lines 158-193). */
module MatrixRows {
  import opened Base
  import opened PyText
  import opened PyNumber
  import opened Workbook
  import opened Calibration
  import opened MatrixColumns

  /** The point column `column` of `row` yields at base height `base` when the
      column announces `increment`: none when the cell is blank or does not
      parse. */
  function CellPoint(base: real, increment: real, row: Row, column: string): (r: Option<Point>)
    ensures r.Some? <==> ReadCell(row, column).Number?
    ensures r.Some? ==> && r.value == Point(Round2(base + increment), ReadCell(row, column).value)
                        && OnHundredths(r.value.height)
                        && -0.005 <= base + increment - r.value.height <= 0.005
  {
    match ReadCell(row, column)
    case Number(v) => Some(Point(Round2(base + increment), v))
    case _ => None
  }

  /** The cell points of one row, column by column, before the blank and
      malformed ones are dropped. */
  function RowCells(headers: seq<string>, roles: seq<Role>, base: real, row: Row): seq<Option<Point>>
    requires |roles| == |headers|
  {
    seq(|headers|, j requires 0 <= j < |headers| =>
      if roles[j].Offset? then CellPoint(base, roles[j].increment, row, headers[j]) else None)
  }

  /** The points of one row: nothing when its base-height cell is blank or
      malformed; otherwise one point per offset column whose cell parses, in
      column order. */
  function RowPoints(headers: seq<string>, roles: seq<Role>, row: Row): (pts: seq<Point>)
    requires |roles| == |headers| > 0
    ensures !ReadCell(row, headers[0]).Number? ==> pts == []
  {
    match ReadCell(row, headers[0])
    case Number(base) => Present(RowCells(headers, roles, base, row))
    case _ => []
  }

  /** A row with a numeric base height yields exactly one point per offset
      column whose cell parses, at the rounded height base + offset and with
      that cell's value; a blank or malformed offset cell drops only its own
      point. */
  lemma RowPointsMeaning(headers: seq<string>, roles: seq<Role>, row: Row, base: real)
    requires |roles| == |headers| > 0
    requires ReadCell(row, headers[0]) == Number(base)
    ensures var pts := RowPoints(headers, roles, row);
            && |pts| == |set j | 0 <= j < |headers| && roles[j].Offset? && ReadCell(row, headers[j]).Number?|
            && forall p :: p in pts <==>
                 exists j :: && 0 <= j < |headers| && roles[j].Offset?
                             && ReadCell(row, headers[j]) == Number(p.value)
                             && p.height == Round2(base + roles[j].increment)
  {
    RowPointsCount(headers, roles, row, base);
    forall p {
      RowPointsMember(headers, roles, row, base, p);
    }
  }

  lemma RowPointsCount(headers: seq<string>, roles: seq<Role>, row: Row, base: real)
    requires |roles| == |headers| > 0
    requires ReadCell(row, headers[0]) == Number(base)
    ensures |RowPoints(headers, roles, row)|
            == |set j | 0 <= j < |headers| && roles[j].Offset? && ReadCell(row, headers[j]).Number?|
  {
    var cells := RowCells(headers, roles, base, row);
    forall j | 0 <= j < |headers|
      ensures cells[j].Some? <==> roles[j].Offset? && ReadCell(row, headers[j]).Number?
    {
      RowCellAt(headers, roles, base, row, j);
    }
    PresentCount(cells);
    assert (set j | 0 <= j < |cells| && cells[j].Some?)
        == (set j | 0 <= j < |headers| && roles[j].Offset? && ReadCell(row, headers[j]).Number?);
  }

  lemma RowPointsMember(headers: seq<string>, roles: seq<Role>, row: Row, base: real, p: Point)
    requires |roles| == |headers| > 0
    requires ReadCell(row, headers[0]) == Number(base)
    ensures p in RowPoints(headers, roles, row) <==>
              exists j :: && 0 <= j < |headers| && roles[j].Offset?
                          && ReadCell(row, headers[j]) == Number(p.value)
                          && p.height == Round2(base + roles[j].increment)
  {
    var cells := RowCells(headers, roles, base, row);
    PresentMembers(cells, p);
    if p in RowPoints(headers, roles, row) {
      var j :| 0 <= j < |cells| && cells[j] == Some(p);
      RowCellAt(headers, roles, base, row, j);
    }
    if exists j :: && 0 <= j < |headers| && roles[j].Offset?
                   && ReadCell(row, headers[j]) == Number(p.value)
                   && p.height == Round2(base + roles[j].increment) {
      var j :| && 0 <= j < |headers| && roles[j].Offset?
               && ReadCell(row, headers[j]) == Number(p.value)
               && p.height == Round2(base + roles[j].increment);
      RowCellAt(headers, roles, base, row, j);
    }
  }

  /** What the cell at column `j` contributes. */
  lemma RowCellAt(headers: seq<string>, roles: seq<Role>, base: real, row: Row, j: nat)
    requires |roles| == |headers| && j < |headers|
    ensures var c := RowCells(headers, roles, base, row)[j];
            && (c.Some? <==> roles[j].Offset? && ReadCell(row, headers[j]).Number?)
            && forall p :: c == Some(p) <==> && roles[j].Offset?
                                             && ReadCell(row, headers[j]) == Number(p.value)
                                             && p.height == Round2(base + roles[j].increment)
  {
    var c := RowCells(headers, roles, base, row)[j];
    if roles[j].Offset? {
      var h := Round2(base + roles[j].increment);
      assert c == CellPoint(base, roles[j].increment, row, headers[j]);
      match ReadCell(row, headers[j])
      case Number(v) => assert c == Some(Point(h, v));
      case _ => assert c == None;
    } else {
      assert c == None;
    }
  }

  /** Columns contribute in left-to-right order: adding a column on the right
      adds its point, if any, at the end. */
  lemma RowPointsColumnOrder(headers: seq<string>, roles: seq<Role>, row: Row, base: real,
                             header: string, role: Role)
    requires |roles| == |headers| > 0
    requires ReadCell(row, headers[0]) == Number(base)
    ensures var pts := RowPoints(headers + [header], roles + [role], row);
            var before := RowPoints(headers, roles, row);
            && (!role.Offset? || !ReadCell(row, header).Number? ==> pts == before)
            && (role.Offset? && ReadCell(row, header).Number? ==>
                  pts == before + [Point(Round2(base + role.increment), ReadCell(row, header).value)])
  {
    var c := if role.Offset? then CellPoint(base, role.increment, row, header) else None;
    RowCellsSnoc(headers, roles, row, base, header, role);
    assert Present([c]) == (if c.Some? then [c.value] else []) by {
      assert [c][..0] == [];
    }
  }

  lemma RowCellsSnoc(headers: seq<string>, roles: seq<Role>, row: Row, base: real,
                     header: string, role: Role)
    requires |roles| == |headers| > 0
    requires ReadCell(row, headers[0]) == Number(base)
    ensures var c := if role.Offset? then CellPoint(base, role.increment, row, header) else None;
            RowPoints(headers + [header], roles + [role], row) == RowPoints(headers, roles, row) + Present([c])
  {
    var c := if role.Offset? then CellPoint(base, role.increment, row, header) else None;
    RowCellsAppend(headers, roles, row, base, header, role);
    assert RowPoints(headers + [header], roles + [role], row)
        == Present(RowCells(headers + [header], roles + [role], base, row)) by {
      assert (headers + [header])[0] == headers[0];
    }
    PresentAppend(RowCells(headers, roles, base, row), [c]);
  }

  lemma RowCellsAppend(headers: seq<string>, roles: seq<Role>, row: Row, base: real,
                       header: string, role: Role)
    requires |roles| == |headers|
    ensures var c := if role.Offset? then CellPoint(base, role.increment, row, header) else None;
            RowCells(headers + [header], roles + [role], base, row) == RowCells(headers, roles, base, row) + [c]
  {
    var hs := headers + [header];
    var rs := roles + [role];
    var cells := RowCells(hs, rs, base, row);
    var front := RowCells(headers, roles, base, row);
    forall j | 0 <= j < |headers| ensures cells[j] == front[j] {
      assert hs[j] == headers[j] && rs[j] == roles[j];
    }
    assert hs[|headers|] == header && rs[|headers|] == role;
  }

  /** The points of all rows of a sheet, row after row. */
  function SheetPoints(headers: seq<string>, roles: seq<Role>, rows: seq<Row>): (pts: seq<Point>)
    requires |roles| == |headers| > 0
    ensures forall p :: p in pts <==> exists i :: 0 <= i < |rows| && p in RowPoints(headers, roles, rows[i])
  {
    Flatten(PerRow(headers, roles, rows))
  }

  /** The points of each row, row by row. */
  function PerRow(headers: seq<string>, roles: seq<Role>, rows: seq<Row>): (pss: seq<seq<Point>>)
    requires |roles| == |headers| > 0
    ensures |pss| == |rows|
    ensures forall i :: 0 <= i < |rows| ==> pss[i] == RowPoints(headers, roles, rows[i])
  {
    seq(|rows|, i requires 0 <= i < |rows| => RowPoints(headers, roles, rows[i]))
  }

  /** Rows contribute in order: a row added at the bottom adds its points at
      the end, so of two points with the same height the later row's comes
      later and is the one the upserts keep. */
  lemma SheetPointsSnoc(headers: seq<string>, roles: seq<Role>, rows: seq<Row>, row: Row)
    requires |roles| == |headers| > 0
    ensures SheetPoints(headers, roles, rows + [row])
            == SheetPoints(headers, roles, rows) + RowPoints(headers, roles, row)
  {
    var all := rows + [row];
    var perRow := PerRow(headers, roles, all);
    var front := PerRow(headers, roles, rows);
    assert perRow[..|rows|] == front by {
      forall i | 0 <= i < |rows| ensures perRow[i] == front[i] {
        assert all[i] == rows[i];
      }
    }
    assert perRow[|rows|] == RowPoints(headers, roles, row);
  }

  /** The number of points of one row: the offset columns whose cell parses,
      when the base-height cell is a number; none otherwise. */
  ghost function RowPointCount(headers: seq<string>, roles: seq<Role>, row: Row): nat
    requires |roles| == |headers| > 0
  {
    if ReadCell(row, headers[0]).Number? then
      |set j | 0 <= j < |headers| && roles[j].Offset? && ReadCell(row, headers[j]).Number?|
    else 0
  }

  ghost function SheetPointCount(headers: seq<string>, roles: seq<Role>, rows: seq<Row>): nat
    requires |roles| == |headers| > 0
    decreases |rows|
  {
    if |rows| == 0 then 0
    else SheetPointCount(headers, roles, rows[..|rows| - 1]) + RowPointCount(headers, roles, rows[|rows| - 1])
  }

  /** A sheet yields one point per numeric offset cell of each row whose base
      height is a number, and nothing else. */
  lemma {:induction false} SheetPointsCount(headers: seq<string>, roles: seq<Role>, rows: seq<Row>)
    requires |roles| == |headers| > 0
    ensures |SheetPoints(headers, roles, rows)| == SheetPointCount(headers, roles, rows)
    decreases |rows|
  {
    if |rows| > 0 {
      var front, row := rows[..|rows| - 1], rows[|rows| - 1];
      SheetPointsCount(headers, roles, front);
      assert rows == front + [row];
      SheetPointsSnoc(headers, roles, front, row);
      match ReadCell(row, headers[0])
      case Number(base) => RowPointsCount(headers, roles, row, base);
      case _ =>
    }
  }

  /** `process_sheet_data`: upsert every point of the sheet for the channel.
      The count it returns is the number of points applied, creates and
      updates together. */
  function ProcessSheet(store: Store, channel: Channel, sheet: Sheet): (a: Applied)
    requires |sheet.headers| > 0
    ensures var pts := SheetPoints(sheet.headers, Classify(sheet.headers), sheet.rows);
            && a.created + a.updated == |pts|
            && a.store.Keys == store.Keys + (set p | p in pts :: (channel.id, p.height))
            && forall p :: p in pts ==> (channel.id, p.height) in a.store
  {
    var pts := SheetPoints(sheet.headers, Classify(sheet.headers), sheet.rows);
    var es := Entries(channel.id, pts);
    EntriesKeys(channel.id, pts);
    ApplyAll(store, es)
  }

  /** The values `process_sheet_data` writes: each point whose height no later
      point of the sheet repeats is stored with its value, and a record under
      a key no point of the sheet carries (in particular, any record of
      another channel) keeps its value. */
  lemma ProcessSheetValues(store: Store, channel: Channel, sheet: Sheet)
    requires |sheet.headers| > 0
    ensures var pts := SheetPoints(sheet.headers, Classify(sheet.headers), sheet.rows);
            var a := ProcessSheet(store, channel, sheet);
            && (forall k :: k in store && k !in (set p | p in pts :: (channel.id, p.height)) ==> a.store[k] == store[k])
            && (forall k :: k in store && k.0 != channel.id ==> a.store[k] == store[k])
            && (forall i :: 0 <= i < |pts| && (forall j :: i < j < |pts| ==> pts[j].height != pts[i].height) ==>
                  a.store[(channel.id, pts[i].height)] == pts[i].value)
  {
    var pts := SheetPoints(sheet.headers, Classify(sheet.headers), sheet.rows);
    assert ProcessSheet(store, channel, sheet) == ApplyAll(store, Entries(channel.id, pts));
    UpsertPointsValues(store, channel.id, pts);
  }
}
