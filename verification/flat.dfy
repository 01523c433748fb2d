/** The flat loader (`kanal_abak_yukle.py`): every sheet is a two-column
    (height, value) table, and all of them go to one channel chosen by name. */
module FlatLoad {
  import opened Base
  import opened PyText
  import opened Workbook
  import opened Calibration

  // ---------------------------------------------------------------------------
  // Choosing the channel (lines 50-65)
  // ---------------------------------------------------------------------------

  /** The name fragment that marks the target channel. */
  const Marker: string := "ÇELTEK"

  /** `isim__icontains="ÇELTEK"`: the name contains the marker once both are
      brought to the same case. */
  predicate Marked(upper: string -> string, name: string) {
    Contains(upper(name), upper(Marker))
  }

  /** The first marked channel; failing that, the only channel when there is
      exactly one; failing that, none (the sheet is skipped). */
  function PickChannel(upper: string -> string, channels: seq<Channel>): (r: Option<Channel>)
    ensures r.None? <==> (forall j :: 0 <= j < |channels| ==> !Marked(upper, channels[j].name)) && |channels| != 1
    ensures forall i :: 0 <= i < |channels| && Marked(upper, channels[i].name)
                        && (forall j :: 0 <= j < i ==> !Marked(upper, channels[j].name))
                        ==> r == Some(channels[i])
    ensures (forall j :: 0 <= j < |channels| ==> !Marked(upper, channels[j].name)) && |channels| == 1
            ==> r == Some(channels[0])
  {
    var i := FirstMatching(name => Marked(upper, name), channels);
    if i < |channels| then Some(channels[i])
    else if |channels| == 1 then Some(channels[0])
    else None
  }

  // ---------------------------------------------------------------------------
  // Finding the height and value columns (lines 86-105)
  // ---------------------------------------------------------------------------

  /** The words that mark a height column. The one-letter "h" also occurs in
      "hacim", "height" and many other words. */
  const HeightWords: seq<string> := ["yukseklik", "yükseklik", "h"]

  /** The words that mark a value column. */
  const ValueWords: seq<string> := ["hacim", "debi", "flow", "volume"]

  /** What a header is compared with: lower-cased, then stripped. */
  function HeaderKey(lower: string -> string, header: string): string {
    Strip(lower(header))
  }

  predicate MentionsAny(key: string, words: seq<string>) {
    exists i :: 0 <= i < |words| && Contains(key, words[i])
  }

  predicate IsHeightHeader(lower: string -> string, header: string) {
    MentionsAny(HeaderKey(lower, header), HeightWords)
  }

  /** A value header mentions a value word and no height word: the height
      test is made first. */
  predicate IsValueHeader(lower: string -> string, header: string) {
    !IsHeightHeader(lower, header) && MentionsAny(HeaderKey(lower, header), ValueWords)
  }

  /** Column `i` is the last height column of `headers`. */
  ghost predicate LastHeight(lower: string -> string, headers: seq<string>, i: int) {
    && 0 <= i < |headers|
    && IsHeightHeader(lower, headers[i])
    && forall k :: i < k < |headers| ==> !IsHeightHeader(lower, headers[k])
  }

  /** Column `i` is the last value column of `headers`. */
  ghost predicate LastValue(lower: string -> string, headers: seq<string>, i: int) {
    && 0 <= i < |headers|
    && IsValueHeader(lower, headers[i])
    && forall k :: i < k < |headers| ==> !IsValueHeader(lower, headers[k])
  }

  /** The columns the header scan settles on, if any. */
  datatype Detected = Detected(height: Option<string>, value: Option<string>)

  /** Column `i` holds the last header of `headers` that passes `test`. */
  ghost predicate IsLast(test: string -> bool, headers: seq<string>, i: int) {
    && 0 <= i < |headers|
    && test(headers[i])
    && forall k :: i < k < |headers| ==> !test(headers[k])
  }

  /** The loop over the headers with abstract tests, the height test made
      first: a later match overwrites an earlier one. */
  function Scan(isHeight: string -> bool, isValue: string -> bool, headers: seq<string>): (d: Detected)
    requires forall h :: isValue(h) ==> !isHeight(h)
    ensures d.height.None? <==> forall i :: 0 <= i < |headers| ==> !isHeight(headers[i])
    ensures d.height.Some? ==> exists i :: IsLast(isHeight, headers, i) && headers[i] == d.height.value
    ensures d.value.None? <==> forall i :: 0 <= i < |headers| ==> !isValue(headers[i])
    ensures d.value.Some? ==> exists i :: IsLast(isValue, headers, i) && headers[i] == d.value.value
    decreases |headers|
  {
    if |headers| == 0 then Detected(None, None)
    else
      var n := |headers| - 1;
      var front := headers[..n];
      var h := headers[n];
      var d := Scan(isHeight, isValue, front);
      assert forall k :: 0 <= k < n ==> front[k] == headers[k];
      ScanKeeps(isHeight, front, headers, d.height);
      ScanKeeps(isValue, front, headers, d.value);
      assert IsLast(isHeight, headers, n) <==> isHeight(h);
      assert IsLast(isValue, headers, n) <==> isValue(h);
      if isHeight(h) then Detected(Some(h), d.value)
      else if isValue(h) then Detected(d.height, Some(h))
      else d
  }

  /** A last match of `front` stays the last match when one more header that
      fails the test is appended. */
  lemma ScanKeeps(test: string -> bool, front: seq<string>, headers: seq<string>, found: Option<string>)
    requires |headers| == |front| + 1 && front == headers[..|front|]
    requires found.Some? ==> exists i :: IsLast(test, front, i) && front[i] == found.value
    ensures found.Some? && !test(headers[|front|]) ==>
              exists i :: IsLast(test, headers, i) && headers[i] == found.value
  {
    if found.Some? && !test(headers[|front|]) {
      var i :| IsLast(test, front, i) && front[i] == found.value;
      assert headers[i] == front[i];
      assert IsLast(test, headers, i);
    }
  }

  /** The scan of the source, with its two header tests. */
  function Detect(lower: string -> string, headers: seq<string>): (d: Detected)
    ensures d.height.None? <==> forall i :: 0 <= i < |headers| ==> !IsHeightHeader(lower, headers[i])
    ensures d.height.Some? ==> exists i :: LastHeight(lower, headers, i) && headers[i] == d.height.value
    ensures d.value.None? <==> forall i :: 0 <= i < |headers| ==> !IsValueHeader(lower, headers[i])
    ensures d.value.Some? ==> exists i :: LastValue(lower, headers, i) && headers[i] == d.value.value
  {
    var isHeight := h => IsHeightHeader(lower, h);
    var isValue := h => IsValueHeader(lower, h);
    assert forall i :: IsLast(isHeight, headers, i) <==> LastHeight(lower, headers, i);
    assert forall i :: IsLast(isValue, headers, i) <==> LastValue(lower, headers, i);
    Scan(isHeight, isValue, headers)
  }

  /** The (height, value) column pair a sheet is read with. */
  datatype Columns = Columns(height: string, value: string)

  /** The detected pair when both kinds were found; otherwise the first two
      columns, whatever their headers; with fewer than two columns, none (the
      sheet is skipped). */
  function ChooseColumns(lower: string -> string, headers: seq<string>): (c: Option<Columns>)
    ensures c.None? <==> |headers| < 2
    ensures forall i, j :: LastHeight(lower, headers, i) && LastValue(lower, headers, j) ==>
              c == Some(Columns(headers[i], headers[j]))
    ensures (|headers| >= 2
             && ((forall i :: 0 <= i < |headers| ==> !IsHeightHeader(lower, headers[i]))
                 || (forall i :: 0 <= i < |headers| ==> !IsValueHeader(lower, headers[i]))))
            ==> c == Some(Columns(headers[0], headers[1]))
  {
    var d := Detect(lower, headers);
    assert d.height.Some? && d.value.Some? ==> |headers| >= 2 by {
      if d.height.Some? && d.value.Some? {
        var i :| LastHeight(lower, headers, i) && headers[i] == d.height.value;
        var j :| LastValue(lower, headers, j) && headers[j] == d.value.value;
        assert i != j;
      }
    }
    LastUnique(lower, headers);
    if d.height.Some? && d.value.Some? then Some(Columns(d.height.value, d.value.value))
    else if |headers| >= 2 then Some(Columns(headers[0], headers[1]))
    else None
  }

  /** There is at most one last column of each kind. */
  lemma LastUnique(lower: string -> string, headers: seq<string>)
    ensures forall i, j :: LastHeight(lower, headers, i) && LastHeight(lower, headers, j) ==> i == j
    ensures forall i, j :: LastValue(lower, headers, i) && LastValue(lower, headers, j) ==> i == j
  {
  }

  /** A header that mentions "hacim" (volume) is taken for a height column,
      because it contains the height word "h"; it can never be the value
      column. */
  lemma HacimIsHeight(lower: string -> string, header: string)
    requires Contains(HeaderKey(lower, header), "hacim")
    ensures IsHeightHeader(lower, header)
    ensures !IsValueHeader(lower, header)
  {
    ContainsSlice(HeaderKey(lower, header), "hacim", 0, 1);
    assert "hacim"[0..1] == HeightWords[2];
  }

  /** With the headers "Hacim", "Yükseklik" in that order neither counts as a
      value column, so the fallback reads heights from the "Hacim" column and
      values from the "Yükseklik" column. */
  lemma HacimFirstSwapsColumns(lower: string -> string)
    requires lower("Hacim") == "hacim" && lower("Yükseklik") == "yükseklik"
    ensures ChooseColumns(lower, ["Hacim", "Yükseklik"]) == Some(Columns("Hacim", "Yükseklik"))
  {
    KeyOf(lower, "Hacim", "hacim");
    assert OccursAt("hacim", "hacim", 0);
    HacimIsHeight(lower, "Hacim");
    KeyOf(lower, "Yükseklik", "yükseklik");
    assert OccursAt("yükseklik", HeightWords[1], 0);
    assert IsHeightHeader(lower, "Yükseklik");
    NoValueFallsBack(lower, "Hacim", "Yükseklik");
  }

  /** The key of a header whose lower-cased form has no whitespace at its
      ends is that form. */
  lemma KeyOf(lower: string -> string, header: string, key: string)
    requires lower(header) == key && |key| > 0 && !IsSpace(key[0]) && !IsSpace(key[|key| - 1])
    ensures HeaderKey(lower, header) == key
  {
  }

  /** Two columns of which neither is a value column are read as they
      stand: heights from the first, values from the second. */
  lemma NoValueFallsBack(lower: string -> string, a: string, b: string)
    requires !IsValueHeader(lower, a) && !IsValueHeader(lower, b)
    ensures ChooseColumns(lower, [a, b]) == Some(Columns(a, b))
  {
    var headers := [a, b];
    assert forall i :: 0 <= i < |headers| ==> !IsValueHeader(lower, headers[i]);
  }

  // ---------------------------------------------------------------------------
  // Reading the rows (lines 107-145)
  // ---------------------------------------------------------------------------

  /** One row: both cells must read as numbers; the height is kept exactly as
      parsed (no rounding). A blank or unparseable cell in either column skips
      the row. */
  function RowPoint(cols: Columns, row: Row): (p: Option<Point>)
    ensures p.Some? <==> ReadCell(row, cols.height).Number? && ReadCell(row, cols.value).Number?
    ensures p.Some? ==> p.value == Point(ReadCell(row, cols.height).value, ReadCell(row, cols.value).value)
  {
    match (ReadCell(row, cols.height), ReadCell(row, cols.value))
    case (Number(h), Number(v)) => Some(Point(h, v))
    case _ => None
  }

  /** The rows with both cells numeric, ghost-counted by position. */
  ghost function NumericRows(cols: Columns, rows: seq<Row>): set<int> {
    set i | 0 <= i < |rows| && ReadCell(rows[i], cols.height).Number? && ReadCell(rows[i], cols.value).Number?
  }

  /** The points of a sheet, in row order: one per row whose two cells are
      both numbers. */
  function SheetPoints(cols: Columns, rows: seq<Row>): (pts: seq<Point>)
    ensures |pts| == |NumericRows(cols, rows)|
    ensures forall p :: p in pts <==> exists i :: 0 <= i < |rows| && RowPoint(cols, rows[i]) == Some(p)
  {
    var cand := RowCandidates(cols, rows);
    CandidatesCount(cols, rows);
    CandidatesMembers(cols, rows);
    Present(cand)
  }

  function RowCandidates(cols: Columns, rows: seq<Row>): (c: seq<Option<Point>>)
    ensures |c| == |rows|
    ensures forall i :: 0 <= i < |rows| ==> c[i] == RowPoint(cols, rows[i])
  {
    seq(|rows|, i requires 0 <= i < |rows| => RowPoint(cols, rows[i]))
  }

  /** Rows contribute in order: a row added at the bottom adds its point, if
      any, after all earlier ones, so of two rows with the same height the
      later one is upserted last and its value is the one kept. */
  lemma SheetPointsSnoc(cols: Columns, rows: seq<Row>, row: Row)
    ensures var p := RowPoint(cols, row);
            SheetPoints(cols, rows + [row]) == SheetPoints(cols, rows) + (if p.Some? then [p.value] else [])
  {
    var all := RowCandidates(cols, rows + [row]);
    var front := RowCandidates(cols, rows);
    assert all[..|rows|] == front by {
      forall i | 0 <= i < |rows| ensures all[i] == front[i] {
        assert (rows + [row])[i] == rows[i];
      }
    }
    assert all[|rows|] == RowPoint(cols, row);
  }

  lemma CandidatesCount(cols: Columns, rows: seq<Row>)
    ensures |Present(RowCandidates(cols, rows))| == |NumericRows(cols, rows)|
  {
    var cand := RowCandidates(cols, rows);
    PresentCount(cand);
    var s := set i | 0 <= i < |cand| && cand[i].Some?;
    forall i | i in s ensures i in NumericRows(cols, rows) {
      assert RowPoint(cols, rows[i]).Some?;
    }
    forall i | i in NumericRows(cols, rows) ensures i in s {
      assert RowPoint(cols, rows[i]).Some?;
    }
    assert s == NumericRows(cols, rows);
  }

  lemma CandidatesMembers(cols: Columns, rows: seq<Row>)
    ensures forall p :: p in Present(RowCandidates(cols, rows)) <==>
                        exists i :: 0 <= i < |rows| && RowPoint(cols, rows[i]) == Some(p)
  {
    var cand := RowCandidates(cols, rows);
    forall p ensures p in Present(cand) <==> exists i :: 0 <= i < |rows| && RowPoint(cols, rows[i]) == Some(p) {
      PresentMembers(cand, p);
    }
  }

  // ---------------------------------------------------------------------------
  // Sheets and the whole run (lines 13-160)
  // ---------------------------------------------------------------------------

  /** What became of one sheet: skipped for want of a channel, skipped as
      empty, skipped for want of two columns, or read with `count` rows
      applied (possibly none). */
  datatype Outcome = NoChannel | EmptySheet | TooFewColumns | Loaded(channel: string, count: nat)

  /** The store, the number of rows applied so far and one outcome per sheet. */
  datatype Report = Report(store: Store, total: nat, outcomes: seq<Outcome>)

  /** The entries a sheet contributes, in row order. */
  function SheetEntries(upper: string -> string, lower: string -> string, channels: seq<Channel>, sheet: Sheet)
    : seq<Entry>
  {
    match PickChannel(upper, channels)
    case None => []
    case Some(c) =>
      if IsEmpty(sheet) then []
      else match ChooseColumns(lower, sheet.headers)
        case None => []
        case Some(cols) => Entries(c.id, SheetPoints(cols, sheet.rows))
  }

  /** What becomes of one sheet: the channel is looked up first, then
      emptiness is checked, then the columns; a sheet that gets that far is
      loaded with one count per row whose two cells are numbers. */
  function OutcomeOf(upper: string -> string, lower: string -> string, channels: seq<Channel>, sheet: Sheet)
    : (o: Outcome)
    ensures o.NoChannel? <==> PickChannel(upper, channels).None?
    ensures o.EmptySheet? <==> PickChannel(upper, channels).Some? && IsEmpty(sheet)
    ensures o.TooFewColumns? <==> PickChannel(upper, channels).Some? && !IsEmpty(sheet) && |sheet.headers| < 2
    ensures o.Loaded? ==> o == Loaded(PickChannel(upper, channels).value.name,
                                      |NumericRows(ChooseColumns(lower, sheet.headers).value, sheet.rows)|)
    ensures o.Loaded? ==> o.count == |SheetEntries(upper, lower, channels, sheet)|
  {
    match PickChannel(upper, channels)
    case None => NoChannel
    case Some(c) =>
      if IsEmpty(sheet) then EmptySheet
      else match ChooseColumns(lower, sheet.headers)
        case None => TooFewColumns
        case Some(cols) => Loaded(c.name, |SheetEntries(upper, lower, channels, sheet)|)
  }

  /** One sheet: its outcome is reported, and every row read is upserted and
      counted. */
  function SheetStep(upper: string -> string, lower: string -> string, channels: seq<Channel>,
                     s: Report, sheet: Sheet): (r: Report)
    ensures r.store == ApplyAll(s.store, SheetEntries(upper, lower, channels, sheet)).store
    ensures r.total == s.total + |SheetEntries(upper, lower, channels, sheet)|
    ensures |r.outcomes| == |s.outcomes| + 1 && r.outcomes[..|s.outcomes|] == s.outcomes
    ensures var o := r.outcomes[|s.outcomes|];
            && (o.NoChannel? <==> PickChannel(upper, channels).None?)
            && (o.EmptySheet? <==> PickChannel(upper, channels).Some? && IsEmpty(sheet))
            && (o.TooFewColumns? <==> PickChannel(upper, channels).Some? && !IsEmpty(sheet) && |sheet.headers| < 2)
            && (o.Loaded? ==> o == Loaded(PickChannel(upper, channels).value.name,
                                          |NumericRows(ChooseColumns(lower, sheet.headers).value, sheet.rows)|))
    ensures !r.outcomes[|s.outcomes|].Loaded? ==> r.store == s.store && r.total == s.total
    ensures r.outcomes == s.outcomes + [OutcomeOf(upper, lower, channels, sheet)]
  {
    var es := SheetEntries(upper, lower, channels, sheet);
    Report(ApplyAll(s.store, es).store, s.total + |es|, s.outcomes + [OutcomeOf(upper, lower, channels, sheet)])
  }

  /** The entries of all sheets, in sheet order. */
  function RunEntries(upper: string -> string, lower: string -> string, channels: seq<Channel>, sheets: seq<Sheet>)
    : seq<Entry>
    decreases |sheets|
  {
    if |sheets| == 0 then []
    else RunEntries(upper, lower, channels, sheets[..|sheets| - 1])
         + SheetEntries(upper, lower, channels, sheets[|sheets| - 1])
  }

  /** The rows applied according to a list of outcomes. */
  function SumLoaded(outcomes: seq<Outcome>): nat
    decreases |outcomes|
  {
    if |outcomes| == 0 then 0
    else
      var o := outcomes[|outcomes| - 1];
      SumLoaded(outcomes[..|outcomes| - 1]) + (if o.Loaded? then o.count else 0)
  }

  /** The outcome of each sheet, in sheet order. */
  function Outcomes(upper: string -> string, lower: string -> string, channels: seq<Channel>, sheets: seq<Sheet>)
    : seq<Outcome>
  {
    Map(sheet => OutcomeOf(upper, lower, channels, sheet), sheets)
  }

  lemma SumLoadedSnoc(os: seq<Outcome>, o: Outcome)
    ensures SumLoaded(os + [o]) == SumLoaded(os) + (if o.Loaded? then o.count else 0)
  {
    assert (os + [o])[..|os|] == os;
  }

  /** A sheet added at the end adds its outcome after all earlier ones. */
  lemma OutcomesSnoc(upper: string -> string, lower: string -> string, channels: seq<Channel>, sheets: seq<Sheet>)
    requires |sheets| > 0
    ensures Outcomes(upper, lower, channels, sheets)
            == Outcomes(upper, lower, channels, sheets[..|sheets| - 1])
               + [OutcomeOf(upper, lower, channels, sheets[|sheets| - 1])]
  {
  }

  /** The sheets in order. The store ends up as if every entry of the run had
      been upserted in sequence, the total counts them all, and it equals the
      sum of the per-sheet counts reported. */
  function Fold(upper: string -> string, lower: string -> string, channels: seq<Channel>,
                s: Report, sheets: seq<Sheet>): (r: Report)
    ensures r.store == ApplyAll(s.store, RunEntries(upper, lower, channels, sheets)).store
    ensures r.total == s.total + |RunEntries(upper, lower, channels, sheets)|
    ensures |r.outcomes| == |s.outcomes| + |sheets| && r.outcomes[..|s.outcomes|] == s.outcomes
    ensures SumLoaded(r.outcomes) == SumLoaded(s.outcomes) + |RunEntries(upper, lower, channels, sheets)|
    ensures r.outcomes == s.outcomes + Outcomes(upper, lower, channels, sheets)
    decreases |sheets|
  {
    if |sheets| == 0 then s
    else
      var front := sheets[..|sheets| - 1];
      var sheet := sheets[|sheets| - 1];
      var mid := Fold(upper, lower, channels, s, front);
      var r := SheetStep(upper, lower, channels, mid, sheet);
      ApplyConcat(s.store, RunEntries(upper, lower, channels, front), SheetEntries(upper, lower, channels, sheet));
      SumLoadedSnoc(mid.outcomes, OutcomeOf(upper, lower, channels, sheet));
      OutcomesSnoc(upper, lower, channels, sheets);
      ConcatAssoc(s.outcomes, Outcomes(upper, lower, channels, front), [OutcomeOf(upper, lower, channels, sheet)]);
      r
  }

  /** `handle`: with `--clear` the store is emptied first; then every sheet is
      read in order. */
  function Run(upper: string -> string, lower: string -> string, channels: seq<Channel>,
               start: Store, clear: bool, sheets: seq<Sheet>): (r: Report)
    ensures var initial: Store := if clear then map[] else start;
            && r.store == ApplyAll(initial, RunEntries(upper, lower, channels, sheets)).store
            && r.total == |RunEntries(upper, lower, channels, sheets)| == SumLoaded(r.outcomes)
            && |r.outcomes| == |sheets|
            && forall i :: 0 <= i < |sheets| ==> r.outcomes[i] == OutcomeOf(upper, lower, channels, sheets[i])
  {
    var initial: Store := if clear then map[] else start;
    Fold(upper, lower, channels, Report(initial, 0, []), sheets)
  }

  /** Loading the same workbook again, without `--clear`, leaves the store as
      the first load left it. */
  lemma RunIdempotent(upper: string -> string, lower: string -> string, channels: seq<Channel>,
                      start: Store, clear: bool, sheets: seq<Sheet>)
    ensures var once := Run(upper, lower, channels, start, clear, sheets).store;
            Run(upper, lower, channels, once, false, sheets).store == once
  {
    var initial: Store := if clear then map[] else start;
    ApplyIdempotent(initial, RunEntries(upper, lower, channels, sheets));
  }

  /** With `--clear` the store afterwards holds exactly the workbook's keys,
      each with the value of its last row. */
  lemma RunClearKeepsOnlyWorkbook(upper: string -> string, lower: string -> string, channels: seq<Channel>,
                                  start: Store, sheets: seq<Sheet>, k: Key)
    ensures var es := RunEntries(upper, lower, channels, sheets);
            var r := Run(upper, lower, channels, start, true, sheets).store;
            && r.Keys == KeysOf(es)
            && (k in r ==> LastWith(es, k) >= 0 && r[k] == es[LastWith(es, k)].value)
  {
    ApplyValue(map[], RunEntries(upper, lower, channels, sheets), k);
  }

  /** The channel does not depend on the sheet: every entry of a run is for
      the one picked channel, and with none to pick nothing is written. */
  lemma RunEntriesChannel(upper: string -> string, lower: string -> string,
                          channels: seq<Channel>, sheets: seq<Sheet>)
    ensures var es := RunEntries(upper, lower, channels, sheets);
            && (PickChannel(upper, channels).None? ==> es == [])
            && (forall i :: 0 <= i < |es| ==> es[i].channel == PickChannel(upper, channels).value.id)
  {
    var pick := PickChannel(upper, channels);
    forall sheet: Sheet
      ensures var b := SheetEntries(upper, lower, channels, sheet);
              (pick.None? ==> b == []) && (pick.Some? ==> ForChannel(b, pick.value.id))
    {
      SheetEntriesChannel(upper, lower, channels, sheet);
    }
    if pick.None? {
      RunEntriesNone(upper, lower, channels, sheets);
    } else {
      RunEntriesFor(upper, lower, channels, sheets, pick.value.id);
    }
  }

  /** When every sheet writes nothing, the run writes nothing. */
  lemma {:induction false} RunEntriesNone(upper: string -> string, lower: string -> string,
                                          channels: seq<Channel>, sheets: seq<Sheet>)
    requires forall sheet: Sheet :: SheetEntries(upper, lower, channels, sheet) == []
    ensures RunEntries(upper, lower, channels, sheets) == []
    decreases |sheets|
  {
    if |sheets| > 0 {
      RunEntriesNone(upper, lower, channels, sheets[..|sheets| - 1]);
    }
  }

  /** When every sheet writes only for channel `id`, so does the run. */
  lemma {:induction false} RunEntriesFor(upper: string -> string, lower: string -> string,
                                         channels: seq<Channel>, sheets: seq<Sheet>, id: nat)
    requires forall sheet: Sheet :: ForChannel(SheetEntries(upper, lower, channels, sheet), id)
    ensures ForChannel(RunEntries(upper, lower, channels, sheets), id)
    decreases |sheets|
  {
    if |sheets| > 0 {
      var front := sheets[..|sheets| - 1];
      RunEntriesFor(upper, lower, channels, front, id);
      ChannelConcat(RunEntries(upper, lower, channels, front),
                    SheetEntries(upper, lower, channels, sheets[|sheets| - 1]), id);
    }
  }

  /** Every entry of `es` is for the channel with id `id`. */
  ghost predicate ForChannel(es: seq<Entry>, id: nat) {
    forall i :: 0 <= i < |es| ==> es[i].channel == id
  }

  lemma ChannelConcat(a: seq<Entry>, b: seq<Entry>, id: nat)
    requires ForChannel(a, id) && ForChannel(b, id)
    ensures ForChannel(a + b, id)
  {
    forall i | 0 <= i < |a + b| ensures (a + b)[i].channel == id {
      if i < |a| {
        assert (a + b)[i] == a[i];
      } else {
        assert (a + b)[i] == b[i - |a|];
      }
    }
  }

  /** One sheet's entries are all for the picked channel. */
  lemma SheetEntriesChannel(upper: string -> string, lower: string -> string, channels: seq<Channel>, sheet: Sheet)
    ensures var es := SheetEntries(upper, lower, channels, sheet);
            && (PickChannel(upper, channels).None? ==> es == [])
            && (forall i :: 0 <= i < |es| ==> es[i].channel == PickChannel(upper, channels).value.id)
  {
  }

  /** When no channel can be picked the run writes nothing: the store is as
      `--clear` left it and the total is zero. */
  lemma NoChannelRun(upper: string -> string, lower: string -> string, channels: seq<Channel>,
                     start: Store, clear: bool, sheets: seq<Sheet>)
    requires PickChannel(upper, channels).None?
    ensures var r := Run(upper, lower, channels, start, clear, sheets);
            && r.store == (if clear then map[] else start)
            && r.total == 0
  {
    RunEntriesChannel(upper, lower, channels, sheets);
  }

  /** An entry of a sheet is a row whose two cells read exactly as the
      entry's height and value, for the picked channel, in a sheet that was
      loaded. */
  lemma SheetEntriesMeaning(upper: string -> string, lower: string -> string, channels: seq<Channel>,
                            sheet: Sheet, e: Entry)
    ensures e in SheetEntries(upper, lower, channels, sheet) <==>
              && PickChannel(upper, channels).Some?
              && e.channel == PickChannel(upper, channels).value.id
              && !IsEmpty(sheet)
              && |sheet.headers| >= 2
              && var cols := ChooseColumns(lower, sheet.headers).value;
                 exists i :: 0 <= i < |sheet.rows| && RowPoint(cols, sheet.rows[i]) == Some(Point(e.height, e.value))
  {
    var pick := PickChannel(upper, channels);
    if pick.Some? && !IsEmpty(sheet) && |sheet.headers| >= 2 {
      var cols := ChooseColumns(lower, sheet.headers).value;
      EntriesMembers(pick.value.id, SheetPoints(cols, sheet.rows), e);
    }
  }

  // ---------------------------------------------------------------------------
  // The closing summary (lines 157-160)
  // ---------------------------------------------------------------------------

  /** How many stored points a channel has. */
  function PointCount(store: Store, id: nat): nat {
    |set k | k in store.Keys && k.0 == id|
  }

  /** One summary line: a channel's name and its number of stored points. */
  datatype Tally = Tally(channel: string, count: nat)

  /** The summary line for a channel, when it has points. */
  function TallyOf(store: Store, c: Channel): Option<Tally> {
    var n := PointCount(store, c.id);
    if n > 0 then Some(Tally(c.name, n)) else None
  }

  /** The summary line of each channel, channel by channel. */
  function TallyCandidates(channels: seq<Channel>, store: Store): (c: seq<Option<Tally>>)
    ensures |c| == |channels|
    ensures forall i :: 0 <= i < |channels| ==> c[i] == TallyOf(store, channels[i])
  {
    seq(|channels|, i requires 0 <= i < |channels| => TallyOf(store, channels[i]))
  }

  /** The channels, in order, that have at least one stored point, each with
      its point count; every line is some channel's. */
  function Tallies(channels: seq<Channel>, store: Store): (t: seq<Tally>)
    ensures forall x :: x in t ==> x.count > 0
    ensures forall x :: x in t ==>
              exists i :: 0 <= i < |channels| && x == Tally(channels[i].name, PointCount(store, channels[i].id))
    ensures forall i :: 0 <= i < |channels| ==>
              ((exists h :: (channels[i].id, h) in store) <==>
               Tally(channels[i].name, PointCount(store, channels[i].id)) in t)
  {
    var cand := TallyCandidates(channels, store);
    forall x | x in Present(cand)
      ensures x.count > 0
      ensures exists i :: 0 <= i < |channels| && x == Tally(channels[i].name, PointCount(store, channels[i].id))
    {
      PresentMembers(cand, x);
    }
    forall i | 0 <= i < |channels|
      ensures (exists h :: (channels[i].id, h) in store) <==>
              Tally(channels[i].name, PointCount(store, channels[i].id)) in Present(cand)
    {
      var t := Tally(channels[i].name, PointCount(store, channels[i].id));
      TallyMember(channels[i], store);
      PresentMembers(cand, t);
      assert t.count > 0 ==> cand[i] == Some(t);
    }
    Present(cand)
  }

  /** Lines follow channel order, one per channel with points: a channel added
      at the end adds its own line, if it has points, after all the others. */
  lemma TalliesSnoc(channels: seq<Channel>, c: Channel, store: Store)
    ensures var n := PointCount(store, c.id);
            Tallies(channels + [c], store) == Tallies(channels, store) + (if n > 0 then [Tally(c.name, n)] else [])
  {
    var all := TallyCandidates(channels + [c], store);
    var front := TallyCandidates(channels, store);
    assert all[..|channels|] == front by {
      forall i | 0 <= i < |channels| ensures all[i] == front[i] {
        assert (channels + [c])[i] == channels[i];
      }
    }
    assert all[|channels|] == TallyOf(store, c);
  }

  /** A channel's point count is positive exactly when some point is stored
      for it. */
  lemma TallyMember(c: Channel, store: Store)
    ensures (exists h :: (c.id, h) in store) <==> PointCount(store, c.id) > 0
  {
    var s := set k | k in store.Keys && k.0 == c.id;
    if exists h :: (c.id, h) in store {
      var h :| (c.id, h) in store;
      assert (c.id, h) in s;
    }
    if |s| > 0 {
      var k :| k in s;
      assert (c.id, k.1) in store;
    }
  }
}
