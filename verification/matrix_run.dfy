/** The multi-sheet run (`handle`, lines 38-105): every sheet of one workbook
    is resolved to a channel and, unless empty, flattened and upserted; the run
    reports the total, the per-channel counts and the failed sheets. */
module MatrixRun {
  import opened Base
  import opened Workbook
  import opened Calibration
  import opened MatrixResolve
  import opened MatrixColumns
  import opened MatrixRows

  /** A line of the success report: a channel's name and the number of
      points loaded for it from one sheet. */
  datatype Loaded = Loaded(channel: string, count: nat)

  /** The command's running state: the store, the total number of points,
      the success lines and the names of the sheets that failed. */
  datatype Summary = Summary(store: Store, total: nat, loaded: seq<Loaded>, failed: seq<string>)

  /** The points a sheet contributes: none when no channel matches its name
      or when it is empty; otherwise its points, for the matched channel. */
  function SheetEntries(upper: string -> string, channels: seq<Channel>, sheet: Sheet): seq<Entry> {
    match ResolveChannel(upper, SheetAliases, sheet.name, channels)
    case None => []
    case Some(c) =>
      if IsEmpty(sheet) then []
      else Entries(c.id, SheetPoints(sheet.headers, Classify(sheet.headers), sheet.rows))
  }

  /** A sheet lands in the failed list when no channel matches it, or when it
      is not empty and yields no point. */
  predicate SheetFails(upper: string -> string, channels: seq<Channel>, sheet: Sheet) {
    || ResolveChannel(upper, SheetAliases, sheet.name, channels).None?
    || (!IsEmpty(sheet) && |SheetEntries(upper, channels, sheet)| == 0)
  }

  /** One pass of the loop over the sheets. */
  function SheetStep(upper: string -> string, channels: seq<Channel>, s: Summary, sheet: Sheet): (r: Summary)
    ensures r.store == ApplyAll(s.store, SheetEntries(upper, channels, sheet)).store
    ensures r.total == s.total + |SheetEntries(upper, channels, sheet)|
    ensures r.failed == s.failed + (if SheetFails(upper, channels, sheet) then [sheet.name] else [])
    ensures |SheetEntries(upper, channels, sheet)| == 0 ==> r.loaded == s.loaded
    ensures |SheetEntries(upper, channels, sheet)| > 0 ==>
              && |r.loaded| == |s.loaded| + 1 && r.loaded[..|s.loaded|] == s.loaded
              && r.loaded[|s.loaded|] == Loaded(ResolveChannel(upper, SheetAliases, sheet.name, channels).value.name,
                                               |SheetEntries(upper, channels, sheet)|)
    ensures ResolveChannel(upper, SheetAliases, sheet.name, channels).None? ==>
              r == s.(failed := s.failed + [sheet.name])
  {
    match ResolveChannel(upper, SheetAliases, sheet.name, channels)
    case None => s.(failed := s.failed + [sheet.name])
    case Some(c) =>
      if IsEmpty(sheet) then s
      else
        var a := ProcessSheet(s.store, c, sheet);
        LoadedStep(upper, channels, s.store, sheet, c);
        var n := a.created + a.updated;
        if n > 0 then Summary(a.store, s.total + n, s.loaded + [Loaded(c.name, n)], s.failed)
        else s.(store := a.store, failed := s.failed + [sheet.name])
  }

  /** A resolved, non-empty sheet writes its points for the resolved channel,
      and fails exactly when it has none. */
  lemma LoadedSheet(upper: string -> string, channels: seq<Channel>, sheet: Sheet, c: Channel)
    requires ResolveChannel(upper, SheetAliases, sheet.name, channels) == Some(c) && !IsEmpty(sheet)
    ensures var es := Entries(c.id, SheetPoints(sheet.headers, Classify(sheet.headers), sheet.rows));
            && SheetEntries(upper, channels, sheet) == es
            && (SheetFails(upper, channels, sheet) <==> |es| == 0)
  {
  }

  /** A resolved, non-empty sheet is processed into the store with its
      entries upserted, and the count reported is the number of entries. */
  lemma LoadedStep(upper: string -> string, channels: seq<Channel>, store: Store, sheet: Sheet, c: Channel)
    requires ResolveChannel(upper, SheetAliases, sheet.name, channels) == Some(c) && !IsEmpty(sheet)
    ensures var a := ProcessSheet(store, c, sheet);
            var es := SheetEntries(upper, channels, sheet);
            && a.store == ApplyAll(store, es).store
            && a.created + a.updated == |es|
            && (SheetFails(upper, channels, sheet) <==> |es| == 0)
  {
    var es := Entries(c.id, SheetPoints(sheet.headers, Classify(sheet.headers), sheet.rows));
    LoadedSheet(upper, channels, sheet, c);
    assert ProcessSheet(store, c, sheet) == ApplyAll(store, es);
  }

  /** The sheets' points, sheet after sheet. */
  function RunEntries(upper: string -> string, channels: seq<Channel>, sheets: seq<Sheet>): seq<Entry>
    decreases |sheets|
  {
    if |sheets| == 0 then []
    else RunEntries(upper, channels, sheets[..|sheets| - 1]) + SheetEntries(upper, channels, sheets[|sheets| - 1])
  }

  /** The names of the failing sheets, in sheet order. */
  function FailedNames(upper: string -> string, channels: seq<Channel>, sheets: seq<Sheet>): seq<string>
    decreases |sheets|
  {
    if |sheets| == 0 then []
    else
      var last := sheets[|sheets| - 1];
      FailedNames(upper, channels, sheets[..|sheets| - 1])
        + (if SheetFails(upper, channels, last) then [last.name] else [])
  }

  /** The success line a sheet adds: its channel's name and its number of
      points, when it has any; nothing otherwise. */
  function LoadedLine(upper: string -> string, channels: seq<Channel>, sheet: Sheet): seq<Loaded> {
    match ResolveChannel(upper, SheetAliases, sheet.name, channels)
    case None => []
    case Some(c) =>
      var n := |SheetEntries(upper, channels, sheet)|;
      if n > 0 then [Loaded(c.name, n)] else []
  }

  /** The success lines of each sheet, sheet by sheet. */
  function SheetLines(upper: string -> string, channels: seq<Channel>, sheets: seq<Sheet>): (ls: seq<seq<Loaded>>)
    ensures |ls| == |sheets|
    ensures forall i :: 0 <= i < |sheets| ==> ls[i] == LoadedLine(upper, channels, sheets[i])
  {
    seq(|sheets|, i requires 0 <= i < |sheets| => LoadedLine(upper, channels, sheets[i]))
  }

  /** The success lines of the sheets, in sheet order. */
  function LoadedLines(upper: string -> string, channels: seq<Channel>, sheets: seq<Sheet>): seq<Loaded> {
    Flatten(SheetLines(upper, channels, sheets))
  }

  /** A sheet added at the end adds its line after all earlier ones. */
  lemma LoadedLinesSnoc(upper: string -> string, channels: seq<Channel>, sheets: seq<Sheet>)
    requires |sheets| > 0
    ensures LoadedLines(upper, channels, sheets)
            == LoadedLines(upper, channels, sheets[..|sheets| - 1]) + LoadedLine(upper, channels, sheets[|sheets| - 1])
  {
    var n := |sheets| - 1;
    var all := SheetLines(upper, channels, sheets);
    var front := SheetLines(upper, channels, sheets[..n]);
    assert all[..n] == front by {
      forall i | 0 <= i < n ensures all[i] == front[i] {
        assert sheets[..n][i] == sheets[i];
      }
    }
  }

  /** A pass of the loop adds exactly the sheet's own success line. */
  lemma StepLoaded(upper: string -> string, channels: seq<Channel>, s: Summary, sheet: Sheet)
    ensures SheetStep(upper, channels, s, sheet).loaded == s.loaded + LoadedLine(upper, channels, sheet)
  {
    var r := SheetStep(upper, channels, s, sheet);
    if |SheetEntries(upper, channels, sheet)| > 0 {
      assert r.loaded == r.loaded[..|s.loaded|] + [r.loaded[|s.loaded|]];
    }
  }

  /** Every success line comes from one sheet of the workbook, and every
      sheet's line is reported. */
  lemma LoadedLinesMembers(upper: string -> string, channels: seq<Channel>, sheets: seq<Sheet>, x: Loaded)
    ensures x in LoadedLines(upper, channels, sheets) <==>
              exists i :: 0 <= i < |sheets| && x in LoadedLine(upper, channels, sheets[i])
  {
    var ls := SheetLines(upper, channels, sheets);
    assert x in Flatten(ls) <==> exists i :: 0 <= i < |ls| && x in ls[i];
  }

  function SumCounts(loaded: seq<Loaded>): nat
    decreases |loaded|
  {
    if |loaded| == 0 then 0 else SumCounts(loaded[..|loaded| - 1]) + loaded[|loaded| - 1].count
  }

  /** The loop over the sheets, from the state `s`. */
  function Fold(upper: string -> string, channels: seq<Channel>, s: Summary, sheets: seq<Sheet>): (r: Summary)
    ensures r.store == ApplyAll(s.store, RunEntries(upper, channels, sheets)).store
    ensures r.total == s.total + |RunEntries(upper, channels, sheets)|
    ensures r.failed == s.failed + FailedNames(upper, channels, sheets)
    ensures |r.loaded| >= |s.loaded| && r.loaded[..|s.loaded|] == s.loaded
    ensures SumCounts(r.loaded) == SumCounts(s.loaded) + |RunEntries(upper, channels, sheets)|
    ensures forall i :: |s.loaded| <= i < |r.loaded| ==> r.loaded[i].count > 0
    ensures r.loaded == s.loaded + LoadedLines(upper, channels, sheets)
    decreases |sheets|
  {
    if |sheets| == 0 then s
    else
      var front := sheets[..|sheets| - 1];
      var last := sheets[|sheets| - 1];
      var mid := Fold(upper, channels, s, front);
      var r := SheetStep(upper, channels, mid, last);
      ApplyConcat(s.store, RunEntries(upper, channels, front), SheetEntries(upper, channels, last));
      var fails := if SheetFails(upper, channels, last) then [last.name] else [];
      assert r.failed == mid.failed + fails;
      assert mid.failed == s.failed + FailedNames(upper, channels, front);
      ConcatAssoc(s.failed, FailedNames(upper, channels, front), fails);
      LoadedGrows(s.loaded, mid.loaded, r.loaded);
      StepLoaded(upper, channels, mid, last);
      LoadedLinesSnoc(upper, channels, sheets);
      ConcatAssoc(s.loaded, LoadedLines(upper, channels, front), LoadedLine(upper, channels, last));
      r
  }

  /** Appending at most one positive count to a list extending `start`. */
  lemma LoadedGrows(start: seq<Loaded>, mid: seq<Loaded>, next: seq<Loaded>)
    requires |mid| >= |start| && mid[..|start|] == start
    requires forall i :: |start| <= i < |mid| ==> mid[i].count > 0
    requires next == mid || (|next| == |mid| + 1 && next[..|mid|] == mid && next[|mid|].count > 0)
    ensures |next| >= |start| && next[..|start|] == start
    ensures forall i :: |start| <= i < |next| ==> next[i].count > 0
    ensures SumCounts(next) == SumCounts(mid) + (if next == mid then 0 else next[|mid|].count)
  {
    if next != mid {
      LoadedPrefix(start, mid, next);
      LoadedPositive(start, mid, next);
      assert next[..|next| - 1] == mid;
    }
  }

  lemma LoadedPrefix(start: seq<Loaded>, mid: seq<Loaded>, next: seq<Loaded>)
    requires |mid| >= |start| && mid[..|start|] == start
    requires |next| == |mid| + 1 && next[..|mid|] == mid
    ensures next[..|start|] == start
  {
    assert next[..|start|] == next[..|mid|][..|start|];
  }

  lemma LoadedPositive(start: seq<Loaded>, mid: seq<Loaded>, next: seq<Loaded>)
    requires |mid| >= |start|
    requires forall i :: |start| <= i < |mid| ==> mid[i].count > 0
    requires |next| == |mid| + 1 && next[..|mid|] == mid && next[|mid|].count > 0
    ensures forall i :: |start| <= i < |next| ==> next[i].count > 0
  {
    forall i | |start| <= i < |next| ensures next[i].count > 0 {
      if i < |mid| {
        assert next[i] == next[..|mid|][i];
      }
    }
  }

  /** The whole command: with `--clear` the store is emptied first, then every
      sheet is processed in workbook order. The store ends up as the starting
      store (empty under `--clear`) with every sheet's points upserted in
      order; the total is the number of points upserted, which is also the sum
      of the reported per-sheet counts, each of them positive; the success
      lines are the sheets' own lines, in sheet order. */
  function Run(upper: string -> string, channels: seq<Channel>, start: Store, clear: bool,
               sheets: seq<Sheet>): (r: Summary)
    ensures var es := RunEntries(upper, channels, sheets);
            && r.store == ApplyAll(if clear then map[] else start, es).store
            && r.total == |es| == SumCounts(r.loaded)
            && (forall i :: 0 <= i < |r.loaded| ==> r.loaded[i].count > 0)
            && r.failed == FailedNames(upper, channels, sheets)
            && r.loaded == LoadedLines(upper, channels, sheets)
  {
    var initial: Store := if clear then map[] else start;
    Fold(upper, channels, Summary(initial, 0, [], []), sheets)
  }

  /** Running the command again on the store it produced, without
      `--clear`, leaves the store as it is. */
  lemma RunIdempotent(upper: string -> string, channels: seq<Channel>, start: Store, clear: bool,
                      sheets: seq<Sheet>)
    ensures var once := Run(upper, channels, start, clear, sheets).store;
            Run(upper, channels, once, false, sheets).store == once
  {
    var initial: Store := if clear then map[] else start;
    var es := RunEntries(upper, channels, sheets);
    var once := Run(upper, channels, start, clear, sheets).store;
    ApplyIdempotent(initial, es);
  }

  /** After a run with `--clear`, the stored keys are exactly those of the
      workbook's points, and each holds the value of the last point with that
      key; nothing stored before the run survives. */
  lemma RunClearKeepsOnlyWorkbook(upper: string -> string, channels: seq<Channel>, start: Store,
                                  sheets: seq<Sheet>)
    ensures var r := Run(upper, channels, start, true, sheets).store;
            var es := RunEntries(upper, channels, sheets);
            && r.Keys == KeysOf(es)
            && forall k :: k in r ==> LastWith(es, k) >= 0 && r[k] == es[LastWith(es, k)].value
  {
    var es := RunEntries(upper, channels, sheets);
    var r := Run(upper, channels, start, true, sheets).store;
    assert r == ApplyAll(map[], es).store;
    ApplyFresh(es);
  }

  /** A sheet whose name no channel matches adds nothing to the store and
      nothing to the totals: it is only listed as failed. */
  lemma UnresolvedSheetUntouched(upper: string -> string, channels: seq<Channel>, s: Summary, sheet: Sheet)
    requires forall j :: 0 <= j < |channels| ==>
               !NameMatches(upper, Candidate(SheetAliases, sheet.name), channels[j].name)
    ensures SheetStep(upper, channels, s, sheet) == s.(failed := s.failed + [sheet.name])
  {
    ResolvesToFirstMatch(upper, SheetAliases, sheet.name, channels);
  }

  /** What a sheet contributes: nothing unless a channel matches its name and
      it is not empty; then one entry for the matched channel per point of
      its rows (`MatrixRows.RowPointsMeaning` says which points a row has). */
  lemma SheetEntriesMeaning(upper: string -> string, channels: seq<Channel>, sheet: Sheet, e: Entry)
    ensures var rc := ResolveChannel(upper, SheetAliases, sheet.name, channels);
            e in SheetEntries(upper, channels, sheet) <==>
              && rc.Some? && !IsEmpty(sheet) && e.channel == rc.value.id
              && exists i :: && 0 <= i < |sheet.rows|
                             && Point(e.height, e.value) in RowPoints(sheet.headers, Classify(sheet.headers), sheet.rows[i])
  {
    var rc := ResolveChannel(upper, SheetAliases, sheet.name, channels);
    if rc.Some? && !IsEmpty(sheet) {
      var pts := SheetPoints(sheet.headers, Classify(sheet.headers), sheet.rows);
      assert SheetEntries(upper, channels, sheet) == Entries(rc.value.id, pts);
      EntriesMembers(rc.value.id, pts, e);
    }
  }
}
