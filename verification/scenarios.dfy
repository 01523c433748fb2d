/** Worked examples: concrete sheets and channel lists run through the model,
    with the outcome each one must have. */
module Scenarios {
  import opened Base
  import opened PyText
  import opened PyNumber
  import opened Workbook
  import opened Calibration
  import opened MatrixResolve
  import opened MatrixColumns
  import opened MatrixRows
  import opened FlatLoad

  const CeltekName: string := "ÇELTEK REGÜLATÖRÜ İLETİM"
  const SolsahilName: string := "SULUOVA SOLSAHIL S1 ANA KANALI"

  /** Two channels, in store order. */
  const Channels: seq<Channel> := [Channel(1, CeltekName), Channel(2, SolsahilName)]

  /** A string that contains `needle` is at least as long and holds each of
      its characters. */
  lemma ContainsChars(hay: string, needle: string)
    requires Contains(hay, needle)
    ensures |needle| <= |hay|
    ensures forall k :: 0 <= k < |needle| ==> needle[k] in hay
  {
    var i: nat :| OccursAt(hay, needle, i);
    forall k | 0 <= k < |needle| ensures needle[k] in hay {
      assert hay[i + k] == hay[i..i + |needle|][k];
    }
  }

  /** `needle` does not occur in `hay` when it is longer or has a character
      `hay` lacks. */
  lemma NotContained(hay: string, needle: string, c: char)
    requires |needle| > |hay| || (c in needle && c !in hay)
    ensures !Contains(hay, needle)
  {
    if Contains(hay, needle) {
      ContainsChars(hay, needle);
      assert false;
    }
  }

  /** The characters that tell the example names apart. */
  lemma NameChars()
    ensures 'Ç' in CeltekName && 'Ç' in Marker && 'Ç' !in SolsahilName
    ensures 'Z' in "KIZILIRMAK" && 'Z' !in CeltekName && 'Z' !in SolsahilName
    ensures |CeltekName| == 24 && |SolsahilName| == 30
  {
    assert CeltekName[0] == 'Ç';
    assert Marker[0] == 'Ç';
    assert "KIZILIRMAK"[2] == 'Z';
  }

  // ---------------------------------------------------------------------------
  // Matrix loader: resolving sheets to channels
  // ---------------------------------------------------------------------------

  /** The alias table entries the examples use. */
  lemma AliasFacts()
    ensures Candidate(SheetAliases, "Çeltek Regülatörü") == CeltekName
    ensures Candidate(SheetAliases, "Suluova Solsahil S1 Ana Kanalı") == SolsahilName
    ensures Candidate(SheetAliases, "Kızılırmak") == "Kızılırmak"
  {
    var name := "Kızılırmak";
    assert !IsSpace(name[0]) && !IsSpace(name[|name| - 1]);
  }

  /** Resolution of a sheet whose candidate name is `candidate`, stated for
      one matching position `i` with no match before it. */
  lemma ResolveAt(upper: string -> string, sheetName: string, channels: seq<Channel>, candidate: string, i: nat)
    requires candidate == Candidate(SheetAliases, sheetName)
    requires i < |channels| && NameMatches(upper, candidate, channels[i].name)
    requires forall j :: 0 <= j < i ==> !NameMatches(upper, candidate, channels[j].name)
    ensures var r := ResolveChannel(upper, SheetAliases, sheetName, channels);
            r.Some? && r.value.name == channels[i].name && exists k :: LastNamed(channels, k, r.value)
  {
    ResolvesToFirstMatch(upper, SheetAliases, sheetName, channels);
  }

  /** Of two differently named channels, a sheet whose candidate is the first
      one's name resolves to the first. */
  lemma FirstOfTwo(upper: string -> string, sheetName: string, a: Channel, b: Channel)
    requires Candidate(SheetAliases, sheetName) == a.name
    requires a.name != b.name
    ensures ResolveChannel(upper, SheetAliases, sheetName, [a, b]) == Some(a)
  {
    assert OccursAt(upper(a.name), upper(a.name), 0);
    ResolveAt(upper, sheetName, [a, b], a.name, 0);
  }

  /** Of two differently named channels, a sheet whose candidate is the
      second one's name, and does not match the first, resolves to the
      second. */
  lemma SecondOfTwo(upper: string -> string, sheetName: string, a: Channel, b: Channel)
    requires Candidate(SheetAliases, sheetName) == b.name
    requires !NameMatches(upper, b.name, a.name)
    requires a.name != b.name
    ensures ResolveChannel(upper, SheetAliases, sheetName, [a, b]) == Some(b)
  {
    assert OccursAt(upper(b.name), upper(b.name), 0);
    ResolveAt(upper, sheetName, [a, b], b.name, 1);
  }

  /** A sheet whose candidate name matches neither of two channels is not
      resolved. */
  lemma NoneOfTwo(upper: string -> string, sheetName: string, a: Channel, b: Channel)
    requires !NameMatches(upper, Candidate(SheetAliases, sheetName), a.name)
    requires !NameMatches(upper, Candidate(SheetAliases, sheetName), b.name)
    ensures ResolveChannel(upper, SheetAliases, sheetName, [a, b]) == None
  {
    ResolvesToFirstMatch(upper, SheetAliases, sheetName, [a, b]);
  }

  /** The two example channels have different names. */
  lemma ExampleNamesDistinct()
    ensures CeltekName != SolsahilName
  {
    assert CeltekName[0] != SolsahilName[0];
  }

  /** Upper-case names that leave the case mapping unchanged are told apart by
      'Ç', which only the ÇELTEK name holds. */
  lemma SolsahilNotCeltek(upper: string -> string)
    requires upper(CeltekName) == CeltekName && upper(SolsahilName) == SolsahilName
    ensures !NameMatches(upper, SolsahilName, CeltekName)
  {
    NameChars();
    NotContained(CeltekName, SolsahilName, 'Ç');
    NotContained(SolsahilName, CeltekName, 'Ç');
  }

  /** "KIZILIRMAK" holds a 'Z', which neither channel name has, and is
      shorter than both. */
  lemma KizilirmakMatchesNone(upper: string -> string, name: string)
    requires upper(CeltekName) == CeltekName && upper(SolsahilName) == SolsahilName
    requires upper(name) == "KIZILIRMAK"
    ensures !NameMatches(upper, name, CeltekName) && !NameMatches(upper, name, SolsahilName)
  {
    NameChars();
    NotContained(CeltekName, "KIZILIRMAK", 'Z');
    NotContained("KIZILIRMAK", CeltekName, 'Z');
    NotContained(SolsahilName, "KIZILIRMAK", 'Z');
    NotContained("KIZILIRMAK", SolsahilName, 'Z');
  }

  /** The sheet "Çeltek Regülatörü" is an alias of the ÇELTEK channel's full
      name, so it resolves to that channel whatever the case mapping. */
  lemma ResolveCeltekSheet(upper: string -> string)
    ensures ResolveChannel(upper, SheetAliases, "Çeltek Regülatörü", Channels) == Some(Channel(1, CeltekName))
  {
    AliasFacts();
    ExampleNamesDistinct();
    FirstOfTwo(upper, "Çeltek Regülatörü", Channel(1, CeltekName), Channel(2, SolsahilName));
  }

  /** The sheet "Suluova Solsahil S1 Ana Kanalı" resolves to the S1 channel,
      not to the ÇELTEK channel listed before it. */
  lemma ResolveSolsahilSheet(upper: string -> string)
    requires upper(CeltekName) == CeltekName && upper(SolsahilName) == SolsahilName
    ensures ResolveChannel(upper, SheetAliases, "Suluova Solsahil S1 Ana Kanalı", Channels)
            == Some(Channel(2, SolsahilName))
  {
    AliasFacts();
    ExampleNamesDistinct();
    SolsahilNotCeltek(upper);
    SecondOfTwo(upper, "Suluova Solsahil S1 Ana Kanalı", Channel(1, CeltekName), Channel(2, SolsahilName));
  }

  /** A sheet with no alias whose name matches no channel is not resolved. */
  lemma UnknownSheetUnresolved(upper: string -> string)
    requires upper(CeltekName) == CeltekName && upper(SolsahilName) == SolsahilName
    requires upper("Kızılırmak") == "KIZILIRMAK"
    ensures ResolveChannel(upper, SheetAliases, "Kızılırmak", Channels) == None
  {
    AliasFacts();
    KizilirmakMatchesNone(upper, "Kızılırmak");
    NoneOfTwo(upper, "Kızılırmak", Channel(1, CeltekName), Channel(2, SolsahilName));
  }

  // ---------------------------------------------------------------------------
  // Matrix loader: flattening one row
  // ---------------------------------------------------------------------------

  /** A cell holding `w.f` (both digit strings) reads as that decimal. */
  lemma ReadDecimal(row: Row, column: string, w: string, f: string)
    requires column in row && row[column] == Raw(w + "." + f)
    requires IsDigitString(w) && IsDigitString(f)
    ensures ReadCell(row, column) == Number(PointValue(w, f))
  {
    var text := w + "." + f;
    assert Replace(text, ',', '.') == text;
    assert !IsSpace(text[0]);
    UnsignedWithPoint(w, f);
    ParsePlain(text);
  }

  /** The header "0" is a plain digit string denoting 0. */
  lemma HeaderZero()
    ensures Strip("0") == "0" && IsDigitString("0") && DigitsValue("0") == 0
    ensures forall k :: !SeparatorAt("0", k)
  {
    assert "0"[..0] == "";
  }

  /** The header "0.01" has its one separator at position 1 and denotes 0.01. */
  lemma HeaderHundredth()
    ensures Strip("0.01") == "0.01" && !IsDigitString("0.01")
    ensures SeparatorAt("0.01", 1)
    ensures forall k :: SeparatorAt("0.01", k) ==> k == 1
    ensures PointValue("0", "01") == 0.01
  {
    var t := "0.01";
    assert t[..1] == "0" && t[2..] == "01";
    assert !IsDigit(t[1]);
    forall k | SeparatorAt(t, k) ensures k == 1 {
      assert IsSeparator(t[k]);
    }
    assert DigitsValue("0") == 0 by {
      assert "0"[..0] == "";
    }
    assert DigitsValue("01") == 1 by {
      assert "01"[..1] == "0";
      assert "0"[..0] == "";
    }
    assert Pow10(2) == 100 by {
      assert Pow10(2) == 10 * Pow10(1);
    }
  }

  /** Headers "Kot", "0", "0.01": the first is the base height, the others
      offsets 0 and 0.01. */
  lemma ClassifyExample(headers: seq<string>)
    requires headers == ["Kot", "0", "0.01"]
    ensures Classify(headers) == [BaseHeight, Offset(0.0), Offset(0.01)]
  {
    var roles := Classify(headers);
    ZeroRole(headers);
    HundredthRole(headers);
    ThreeCells(roles, BaseHeight, Offset(0.0), Offset(0.01));
  }

  lemma ZeroRole(headers: seq<string>)
    requires |headers| == 3 && headers[1] == "0"
    ensures Classify(headers)[1] == Offset(0.0)
  {
    HeaderZero();
  }

  lemma HundredthRole(headers: seq<string>)
    requires |headers| == 3 && headers[2] == "0.01"
    ensures Classify(headers)[2] == Offset(0.01)
  {
    HeaderHundredth();
    assert "0.01"[..1] == "0" && "0.01"[2..] == "01";
  }

  /** A row of three columns, base then two offsets, whose offset cells both
      yield points gives those two points in column order. */
  lemma ThreeColumnRow(h0: string, h1: string, h2: string, row: Row,
                       base: real, o1: real, o2: real, p1: Point, p2: Point)
    requires ReadCell(row, h0) == Number(base)
    requires CellPoint(base, o1, row, h1) == Some(p1)
    requires CellPoint(base, o2, row, h2) == Some(p2)
    ensures RowPoints([h0, h1, h2], [BaseHeight, Offset(o1), Offset(o2)], row) == [p1, p2]
  {
    var hs, rs := [h0, h1, h2], [BaseHeight, Offset(o1), Offset(o2)];
    var cells := RowCells(hs, rs, base, row);
    OffsetCell(hs, rs, base, row, 1, Some(p1));
    OffsetCell(hs, rs, base, row, 2, Some(p2));
    assert cells[0] == None by {
      assert rs[0] == BaseHeight;
    }
    ThreeCells(cells, None, Some(p1), Some(p2));
    PresentOfThree(p1, p2);
    assert RowPoints(hs, rs, row) == Present(cells) by {
      assert hs[0] == h0;
    }
  }

  /** What an offset column's cell contributes to a row. */
  lemma OffsetCell(hs: seq<string>, rs: seq<Role>, base: real, row: Row, j: nat, c: Option<Point>)
    requires |rs| == |hs| && j < |hs| && rs[j].Offset?
    requires CellPoint(base, rs[j].increment, row, hs[j]) == c
    ensures RowCells(hs, rs, base, row)[j] == c
  {
  }

  lemma ThreeCells<T>(xs: seq<T>, a: T, b: T, c: T)
    requires |xs| == 3 && xs[0] == a && xs[1] == b && xs[2] == c
    ensures xs == [a, b, c]
  {
  }

  lemma PresentOfThree(p1: Point, p2: Point)
    ensures Present([None, Some(p1), Some(p2)]) == [p1, p2]
  {
    var xs: seq<Option<Point>> := [None, Some(p1), Some(p2)];
    var none: seq<Option<Point>> := [None];
    assert Present(none) == [] by {
      assert none[..0] == [];
    }
    assert xs[..2][..1] == none;
    assert Present(xs[..2]) == [p1];
  }

  /** A row with only its base-height column gives no point. */
  lemma BaseOnlyRow(h0: string, row: Row, base: real)
    requires ReadCell(row, h0) == Number(base)
    ensures RowPoints([h0], [BaseHeight], row) == []
  {
    var headers, roles := [h0], [BaseHeight];
    RowPointsMeaning(headers, roles, row, base);
    var offsets := set j | 0 <= j < |headers| && roles[j].Offset? && ReadCell(row, headers[j]).Number?;
    assert !roles[0].Offset?;
    assert offsets == {};
  }

  const ExampleHeaders: seq<string> := ["Kot", "0", "0.01"]

  const ExampleRow: Row := map["Kot" := Raw("150.00"), "0" := Raw("5.0"), "0.01" := Raw("5.2")]

  /** The three cells of the example row read as 150.00, 5.0 and 5.2. */
  lemma ExampleReads(row: Row)
    requires row == ExampleRow
    ensures ReadCell(row, "Kot") == Number(150.0)
    ensures ReadCell(row, "0") == Number(5.0)
    ensures ReadCell(row, "0.01") == Number(5.2)
  {
    DecimalValues();
    ReadCellAs(row, "Kot", "150", "00");
    ReadCellAs(row, "0", "5", "0");
    ReadCellAs(row, "0.01", "5", "2");
  }

  /** One cell of the example row. */
  lemma ReadCellAs(row: Row, column: string, w: string, f: string)
    requires row == ExampleRow
    requires (column, w, f) in {("Kot", "150", "00"), ("0", "5", "0"), ("0.01", "5", "2")}
    ensures ReadCell(row, column) == Number(PointValue(w, f))
  {
    assert IsDigitString(w) && IsDigitString(f);
    assert row[column] == Raw(w + "." + f);
    ReadDecimal(row, column, w, f);
  }

  /** Heights already on hundredths are left as they are by the rounding. */
  lemma ExampleRounding()
    ensures Round2(150.0 + 0.0) == 150.0 && Round2(150.0 + 0.01) == 150.01
  {
    Round2Fixes(150.0);
    Round2Fixes(150.01);
  }

  /** A row with base height 150.00 and readings 5.0 and 5.2 under offsets 0
      and 0.01 gives the points (150.00, 5.0) and (150.01, 5.2), in column
      order. */
  lemma FlattenExample()
    ensures RowPoints(ExampleHeaders, Classify(ExampleHeaders), ExampleRow)
            == [Point(150.0, 5.0), Point(150.01, 5.2)]
  {
    ClassifyExample(ExampleHeaders);
    ExampleReads(ExampleRow);
    ExampleRounding();
    ThreeColumnRow("Kot", "0", "0.01", ExampleRow, 150.0, 0.0, 0.01, Point(150.0, 5.0), Point(150.01, 5.2));
  }

  /** The decimal values of the example's cells. */
  lemma DecimalValues()
    ensures PointValue("150", "00") == 150.0
    ensures PointValue("5", "0") == 5.0
    ensures PointValue("5", "2") == 5.2
  {
    Digits150("150");
    assert DigitsValue("00") == 0 by {
      assert "00"[..1] == "0";
      assert "0"[..0] == "";
    }
    assert DigitsValue("5") == 5 by {
      assert "5"[..0] == "";
    }
    assert DigitsValue("0") == 0 by {
      assert "0"[..0] == "";
    }
    assert DigitsValue("2") == 2 by {
      assert "2"[..0] == "";
    }
    assert Pow10(1) == 10;
  }

  // ---------------------------------------------------------------------------
  // Flat loader
  // ---------------------------------------------------------------------------

  /** Of two channels, when only the second is marked, it is picked. */
  lemma PickSecond(upper: string -> string, a: Channel, b: Channel)
    requires !Marked(upper, a.name) && Marked(upper, b.name)
    ensures PickChannel(upper, [a, b]) == Some(b)
  {
    var channels := [a, b];
    assert Marked(upper, channels[1].name);
    assert forall j :: 0 <= j < 1 ==> !Marked(upper, channels[j].name);
  }

  /** Of the example names, only the ÇELTEK one holds the marker. */
  lemma OnlyCeltekMarked(upper: string -> string)
    requires upper(CeltekName) == CeltekName && upper(SolsahilName) == SolsahilName
    requires upper(Marker) == Marker
    ensures Marked(upper, CeltekName) && !Marked(upper, SolsahilName)
  {
    assert Marker == CeltekName[..6];
    assert OccursAt(CeltekName, Marker, 0);
    NameChars();
    NotContained(SolsahilName, Marker, 'Ç');
  }

  /** The channel whose name contains "ÇELTEK" is picked even when another
      channel comes first. */
  lemma PickCeltekChannel(upper: string -> string)
    requires upper(CeltekName) == CeltekName && upper(SolsahilName) == SolsahilName
    requires upper(Marker) == Marker
    ensures PickChannel(upper, [Channel(2, SolsahilName), Channel(1, CeltekName)]) == Some(Channel(1, CeltekName))
  {
    OnlyCeltekMarked(upper);
    PickSecond(upper, Channel(2, SolsahilName), Channel(1, CeltekName));
  }
}
