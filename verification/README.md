# Calibration-table ("abak") loading for irrigation channels

The irrigation back end keeps one calibration table, or *abak*, per channel
(`Kanal`). Each row of the table (`KanalAbak`) pairs a water height
(`yukseklik`) with the flow or volume measured at that height (`hacim`).
Two management commands fill these tables from an Excel workbook. This
project models both of them as pure functions over sheets and proves what
they guarantee.

- **The matrix loader** (`tum_kanal_abaklar_yukle`) handles each worksheet in turn:
  - It resolves the sheet to a channel. It first looks the sheet name up in a
    fixed alias table, then does a two-way, upper-cased substring match
    against the channel names.
  - It reads the sheet as a matrix. Column 0 holds base heights, and every
    later column with a numeric header holds the values at base height plus
    that header's offset.
  - It flattens each row into `(round(base + offset, 2), value)` points and
    upserts every point, keyed by (channel, height).
  - It reports the total number of points, one line per loaded sheet and
    the list of failed sheets.
- **The flat loader** (`kanal_abak_yukle`) loads every sheet into one channel:
  - The channel is the first one whose name contains "ÇELTEK", or else the
    only channel when there is exactly one.
  - It finds a height column and a value column by a small vocabulary, and
    falls back to the first two columns when either is missing.
  - It upserts one unrounded (height, value) pair per row whose two cells
    both read as numbers.

Modules, one per file:

| file | module | what it holds |
|---|---|---|
| `base.dfy` | `Base` | `Option`, and `Present` (the "keep the values that are there" filter behind every `continue`) |
| `text.dfy` | `PyText` | `str.strip`, `str.isdigit`, `in` on strings, `str.replace` |
| `numbers.dfy` | `PyNumber` | `float()` on decimal text, the rendering it inverts, `round(x, 2)` |
| `workbook.dfy` | `Workbook` | cells, rows, sheets, channels, how one cell is read as a number |
| `store.dfy` | `Calibration` | the store `map<(channel, height), value>`, upsert and runs of upserts |
| `matrix_resolve.dfy` | `MatrixResolve` | sheet to channel resolution in the matrix loader |
| `matrix_columns.dfy` | `MatrixColumns` | column roles: base height, offset or ignored |
| `matrix_rows.dfy` | `MatrixRows` | flattening rows into points, `process_sheet_data` |
| `matrix_run.dfy` | `MatrixRun` | the loop over the sheets, totals, failed sheets, `--clear` |
| `flat.dfy` | `FlatLoad` | the whole flat loader |
| `scenarios.dfy` | `Scenarios` | worked examples with concrete sheet and channel names |

Modelling choices:

- **Numbers** are exact decimals (`real`).
  - `float()` is a parser returning `Option`. `None` is the `ValueError`
    that the source catches.
  - `round(x, 2)` is round-half-to-even to hundredths, applied to the exact
    value.
  - `float()` ignores less whitespace than `str.strip()` removes. CPython
    maps non-ASCII whitespace to a space and then skips ASCII whitespace, so
    the separators U+001C..U+001F count as whitespace for `strip()` but not
    for `float()`. The model gives each its own whitespace test.
- **Case mapping** is a parameter. `str.upper()` and `str.lower()`, and the
  database's case-insensitive `icontains`, are the functions `upper` and
  `lower`. Every property of the loaders holds for any case mapping; the
  worked examples fix the values they need.
- **Channels** are a sequence in the order the database returns them.
  - The matrix loader first builds a dictionary keyed by channel name. The
    model builds the same dictionary (`NameIndex`): first-occurrence order,
    and the last channel with a name wins.
- **The store** is a map. Keying it by (channel, height) gives "at most one
  row per channel and height" by construction.
- **A row** is a map from header to cell. A header the row lacks is a
  `KeyError`. The loaders catch it in the same handler as a failed
  `float()`, so such a cell reads as malformed.

## Model

| member | source | states |
|---|---|---|
| MatrixResolve.ResolvesToFirstMatch | sulama/management/commands/tum_kanal_abaklar_yukle.py:67-78 | The candidate is the alias entry for the exact sheet name, otherwise the stripped sheet name. No channel is found iff no channel name contains, or is contained in, the candidate (both upper-cased). Otherwise the result has the name of the first matching channel in store order. |
| MatrixResolve.IndexFirstMatch | sulama/management/commands/tum_kanal_abaklar_yukle.py:55-78 | Searching the name-keyed dictionary finds a match iff the channel list has one. The match has the first matching channel's name. The entry found is the last channel with that name. |
| MatrixResolve.NameIndexCovers | sulama/management/commands/tum_kanal_abaklar_yukle.py:55 | Every dictionary entry is one of the channels, and every channel's name is a key of the dictionary. |
| MatrixResolve.NameIndex | sulama/management/commands/tum_kanal_abaklar_yukle.py:55 | The dictionary has no name twice. |
| MatrixRun.UnresolvedSheetUntouched | sulama/management/commands/tum_kanal_abaklar_yukle.py:80-84 | A sheet whose candidate matches no channel leaves the store, the total and the success lines unchanged. Its name is appended to the failed sheets. |
| MatrixColumns.RemovedDigits | sulama/management/commands/tum_kanal_abaklar_yukle.py:146 | A header passes the numeric-header test iff all its characters are digits, '.' or ',' and at least one is a digit. |
| MatrixColumns.OffsetOfMeaning | sulama/management/commands/tum_kanal_abaklar_yukle.py:143-153 | A header gives an offset iff, once stripped, it is a digit string or digits around exactly one separator. The offset is that numeral's value. A header such as "1.2.3" passes the first test, fails to parse and is dropped. |
| MatrixColumns.Classify | sulama/management/commands/tum_kanal_abaklar_yukle.py:136-153 | Column 0 is the base-height column and no other column is. A later column is an offset column iff its header is a numeral, with that numeral's value as the offset. The roles stay in column order. |
| MatrixRows.CellPoint | sulama/management/commands/tum_kanal_abaklar_yukle.py:172-179 | An offset cell yields a point iff it reads as a number. The point's height is round(base + offset, 2): on hundredths and within 0.005 of the exact sum. |
| MatrixRows.RowPoints | sulama/management/commands/tum_kanal_abaklar_yukle.py:162-166 | A row whose base-height cell is null, blank, missing or unparseable yields no point. |
| MatrixRows.RowPointsMeaning | sulama/management/commands/tum_kanal_abaklar_yukle.py:159-193 | With a numeric base, a row yields exactly one point per offset column whose cell parses: value is the cell, height is round(base + offset, 2). A bad offset cell drops only its own point. |
| MatrixRows.RowCellAt | sulama/management/commands/tum_kanal_abaklar_yukle.py:169-179 | Column j contributes a point iff it is an offset column with a numeric cell, and then exactly that point. |
| MatrixRows.RowPointsColumnOrder | sulama/management/commands/tum_kanal_abaklar_yukle.py:169-193 | Points come out in column order. Adding a column on the right appends its point, if any, at the end and changes nothing else. |
| MatrixRows.SheetPoints | sulama/management/commands/tum_kanal_abaklar_yukle.py:159-160 | The points of a sheet are exactly the points of its rows. |
| MatrixRows.SheetPointsSnoc | sulama/management/commands/tum_kanal_abaklar_yukle.py:159-193 | Rows contribute in sheet order: a row added at the bottom appends its points after all earlier ones. So when two rows give the same rounded height, the later row's point is upserted last and its value is the one kept. |
| MatrixRows.SheetPointsCount | sulama/management/commands/tum_kanal_abaklar_yukle.py:159-193 | A sheet yields as many points as there are numeric offset cells in rows whose base height is a number. Rows with a blank or malformed base contribute none. |
| MatrixRows.ProcessSheet | sulama/management/commands/tum_kanal_abaklar_yukle.py:130-211 | The count returned is creates plus updates, which equals the number of points. The store's keys grow by exactly (channel, height) for each point. |
| MatrixRows.ProcessSheetValues | sulama/management/commands/tum_kanal_abaklar_yukle.py:182-191 | Each point whose height no later point of the sheet repeats is stored with its value. A record under a key no point carries keeps its value, so every record of another channel is untouched. |
| MatrixRun.SheetStep | sulama/management/commands/tum_kanal_abaklar_yukle.py:62-105 | The store is the old one with the sheet's points upserted, and the total grows by their number. A success line (channel name, count) is added iff the count is positive. A sheet is listed as failed iff it is unresolved, or non-empty with no point. |
| MatrixRun.Fold | sulama/management/commands/tum_kanal_abaklar_yukle.py:58-105 | Over the sheets in order: the store is every point upserted in sequence, and the total equals the sum of the success counts. Each success count is positive. The success lines are each sheet's own line (its channel and count), in sheet order, and the failed list keeps sheet order. |
| MatrixRun.LoadedLinesMembers | sulama/management/commands/tum_kanal_abaklar_yukle.py:94-96 | A success line is reported iff it is the line of some sheet of the workbook. |
| MatrixRun.Run | sulama/management/commands/tum_kanal_abaklar_yukle.py:38-105 | With `--clear` the run starts from the empty store, otherwise from the given one. The total equals the sum of the reported counts. The success lines are, in sheet order, one (channel name, count) per sheet that loaded points. The failed sheets are listed in order. |
| MatrixRun.RunIdempotent | sulama/management/commands/tum_kanal_abaklar_yukle.py:182-191 | Running the command again without `--clear` on the store it produced leaves that store unchanged. |
| MatrixRun.RunClearKeepsOnlyWorkbook | sulama/management/commands/tum_kanal_abaklar_yukle.py:39-40 | After `--clear`, the stored keys are exactly the workbook's, each with the value of its last point. Nothing from before survives. |
| MatrixRun.SheetEntriesMeaning | sulama/management/commands/tum_kanal_abaklar_yukle.py:86-92 | A sheet writes an entry iff it is resolved, not empty, and one of its rows yields the entry's height and value. The entry is for the resolved channel. |
| Calibration.Upsert | sulama/management/commands/tum_kanal_abaklar_yukle.py:182-191 | After an upsert the key (channel, height) is present with the new value. No key is lost, and every other key keeps its value. |
| Calibration.ApplyAll | sulama/management/commands/tum_kanal_abaklar_yukle.py:169-193 | Each entry counts once, as a create or as an update. The keys afterwards are the old keys plus the entries' keys. |
| Calibration.UpsertPointsValues | sulama/management/commands/tum_kanal_abaklar_yukle.py:182-191 | Upserting one channel's points stores each point that no later point overrides, and keeps every record under a key no point carries, including all records of other channels. |
| Calibration.ApplyValue | sulama/management/commands/tum_kanal_abaklar_yukle.py:182-191 | Last write wins: a key some entry carries holds the value of the last such entry. Every other key is as it was. |
| Calibration.ApplyIdempotent | sulama/management/commands/tum_kanal_abaklar_yukle.py:182-191 | Upserting the same entries twice gives the same store as upserting them once. |
| Calibration.ApplyConcat | sulama/management/commands/tum_kanal_abaklar_yukle.py:58-105 | Upserting `a` and then `b` equals upserting `a + b`, and the create and update counts add up. |
| Calibration.ApplyCreated | sulama/management/commands/tum_kanal_abaklar_yukle.py:182-188 | The number of creates is the number of distinct entry keys the store lacked before. |
| Calibration.ApplySize | sulama/management/commands/tum_kanal_abaklar_yukle.py:182-191 | Each create adds one row to the store, and each update adds none. |
| Calibration.EntriesMembers | sulama/management/commands/tum_kanal_abaklar_yukle.py:182-186 | An entry is written for a channel's points iff it is for that channel and its (height, value) is one of the points. |
| Calibration.EntriesKeys | sulama/management/commands/tum_kanal_abaklar_yukle.py:182-186 | The keys written are (channel, height) for the points' heights. |
| Workbook.ReadCell | sulama/management/commands/tum_kanal_abaklar_yukle.py:172-176 | A cell is blank iff it is null or whitespace as `strip()` sees it. It is a number iff its text, with ',' turned into '.', is accepted by `float()`, and then it has that value. Otherwise it is malformed. |
| Workbook.FirstMatching | sulama/management/commands/tum_kanal_abaklar_yukle.py:74-78 | The loop with `break` stops at the first channel that passes the test. No earlier channel passes. |
| PyText.Strip | sulama/management/commands/tum_kanal_abaklar_yukle.py:143 | `strip()` keeps a middle slice with only whitespace cut away on both sides. The result is empty iff the text is all whitespace, and text with no whitespace at its ends is unchanged. |
| PyText.Contains | sulama/management/commands/tum_kanal_abaklar_yukle.py:75 | `a in b` holds iff `a` occurs as a contiguous slice of `b`. |
| PyText.Remove | sulama/management/commands/tum_kanal_abaklar_yukle.py:146 | `replace(c, '')` keeps every character other than `c` exactly as often as it occurs, and drops every `c`. |
| PyText.RemoveAppend | sulama/management/commands/tum_kanal_abaklar_yukle.py:146 | Removing distributes over concatenation, so the kept characters stay in their original order. |
| PyNumber.ParseRendered | sulama/management/commands/tum_kanal_abaklar_yukle.py:166 | `float()` inverts fixed-decimal rendering: the text of n / 10^scale parses back to exactly that value, for every integer n, negative ones included. |
| PyNumber.CommaDecimal | sulama/management/commands/tum_kanal_abaklar_yukle.py:176 | Decimal-comma text `w,f` parses, after ',' becomes '.', to the value of `w.f`. |
| PyNumber.SeparatorRejected | sulama/management/commands/tum_kanal_abaklar_yukle.py:172-176 | Text holding one of U+001C..U+001F anywhere is rejected by `float()`. Such a cell is malformed, even where `strip()` would have removed the character. |
| PyNumber.RoundHalfEvenUnique | sulama/management/commands/tum_kanal_abaklar_yukle.py:179 | Python's rounding is the only integer within 0.5 that is even on a tie. |
| PyNumber.Round2 | sulama/management/commands/tum_kanal_abaklar_yukle.py:179 | `round(x, 2)` is on hundredths and within 0.005 of `x`. |
| PyNumber.Round2Fixes | sulama/management/commands/tum_kanal_abaklar_yukle.py:179 | A value already on hundredths is not changed by the rounding. |
| PyNumber.Round2Idempotent | sulama/management/commands/tum_kanal_abaklar_yukle.py:179 | Rounding twice is rounding once. |
| FlatLoad.PickChannel | sulama/management/commands/kanal_abak_yukle.py:50-65 | The first channel whose name contains "ÇELTEK" in any case. Failing that, the single channel when there is exactly one. No channel iff neither applies. |
| FlatLoad.Scan | sulama/management/commands/kanal_abak_yukle.py:90-95 | With height tested first: the height column is found iff some header passes the height test, and it is the last such header. The same holds for the value column. |
| FlatLoad.Detect | sulama/management/commands/kanal_abak_yukle.py:86-95 | Height headers contain 'yukseklik', 'yükseklik' or 'h' once lower-cased and stripped. Value headers contain 'hacim', 'debi', 'flow' or 'volume' and are not height headers. Later columns overwrite earlier ones. |
| FlatLoad.ChooseColumns | sulama/management/commands/kanal_abak_yukle.py:97-105 | If both kinds are found, the last of each is used. Otherwise columns 0 and 1 are used. With fewer than two columns there is no pair (sheet skipped). |
| FlatLoad.HacimIsHeight | sulama/management/commands/kanal_abak_yukle.py:92-94 | A header mentioning "hacim" is taken for a height column because it contains 'h'. It can never be the value column. |
| FlatLoad.HacimFirstSwapsColumns | sulama/management/commands/kanal_abak_yukle.py:90-101 | With headers "Hacim", "Yükseklik", heights are read from the "Hacim" column and values from the "Yükseklik" column. |
| FlatLoad.NoValueFallsBack | sulama/management/commands/kanal_abak_yukle.py:98-101 | Two columns of which neither is a value column are read as they stand: heights from the first, values from the second. |
| FlatLoad.RowPoint | sulama/management/commands/kanal_abak_yukle.py:109-123 | A row yields a point iff both its cells read as numbers. The height is kept exactly as parsed, with no rounding. |
| FlatLoad.SheetPoints | sulama/management/commands/kanal_abak_yukle.py:108-145 | One point per row with two numeric cells: the count equals the number of such rows. A point is present iff some row yields it. |
| FlatLoad.SheetPointsSnoc | sulama/management/commands/kanal_abak_yukle.py:108-145 | Rows contribute in order: a row added at the bottom appends its point, if any, after all earlier ones. So of two rows with the same height, the later row's value is the one kept. |
| FlatLoad.SheetStep | sulama/management/commands/kanal_abak_yukle.py:45-151 | Exactly one outcome per sheet: no channel, empty sheet, too few columns, or loaded. Loaded carries (channel, number of rows applied). A sheet that is not loaded changes neither the store nor the total. |
| FlatLoad.OutcomeOf | sulama/management/commands/kanal_abak_yukle.py:49-147 | A sheet has no channel iff none is picked. It is empty iff a channel is picked and the sheet is empty. It has too few columns iff it is picked, non-empty and has under two headers. Otherwise it is loaded for the picked channel, with one count per row whose two cells are numbers. |
| FlatLoad.Fold | sulama/management/commands/kanal_abak_yukle.py:42-151 | Over the sheets in order: the store is every entry upserted in sequence. The total grows by one per applied row and equals the sum of the loaded counts. The outcomes appended are the sheets' own outcomes, in sheet order. |
| FlatLoad.Run | sulama/management/commands/kanal_abak_yukle.py:28-151 | `--clear` empties the store first. The total is the number of rows applied and equals the sum of the per-sheet counts. There is one outcome per sheet, and outcome i is sheet i's. |
| FlatLoad.RunIdempotent | sulama/management/commands/kanal_abak_yukle.py:126-135 | Loading the same workbook again without `--clear` leaves the store unchanged. |
| FlatLoad.RunClearKeepsOnlyWorkbook | sulama/management/commands/kanal_abak_yukle.py:29-31 | After `--clear`, the stored keys are exactly the workbook's, each holding the value of its last row. |
| FlatLoad.RunEntriesChannel | sulama/management/commands/kanal_abak_yukle.py:50-65 | Every entry of a run is for the one picked channel. With no channel to pick, nothing is written. |
| FlatLoad.NoChannelRun | sulama/management/commands/kanal_abak_yukle.py:62-65 | With no channel to pick, the store stays as `--clear` left it and the total is 0. |
| FlatLoad.SheetEntriesMeaning | sulama/management/commands/kanal_abak_yukle.py:107-141 | A sheet writes an entry iff a channel is picked, the sheet is not empty and has two or more columns, and some row reads exactly as the entry's (height, value). The entry is for the picked channel. |
| FlatLoad.Tallies | sulama/management/commands/kanal_abak_yukle.py:157-160 | The summary lists a channel, with its number of stored points, iff it has some. Every listed count is positive, and every line is some channel's. |
| FlatLoad.TalliesSnoc | sulama/management/commands/kanal_abak_yukle.py:157-160 | Lines follow channel order, one per channel with points: a channel added at the end adds its own line, if it has points, after all the others. |
| FlatLoad.TallyMember | sulama/management/commands/kanal_abak_yukle.py:158-159 | A channel's point count is positive iff some point is stored for it. |
| Scenarios.ResolveCeltekSheet | sulama/management/commands/tum_kanal_abaklar_yukle.py:29-36 | The sheet "Çeltek Regülatörü" goes through the alias table to the ÇELTEK channel, whatever the case mapping. |
| Scenarios.ResolveSolsahilSheet | sulama/management/commands/tum_kanal_abaklar_yukle.py:67-78 | The sheet "Suluova Solsahil S1 Ana Kanalı" resolves to the S1 channel, not to the ÇELTEK channel listed before it. |
| Scenarios.UnknownSheetUnresolved | sulama/management/commands/tum_kanal_abaklar_yukle.py:67-84 | A sheet with no alias whose name matches no channel is not resolved. |
| Scenarios.ClassifyExample | sulama/management/commands/tum_kanal_abaklar_yukle.py:136-153 | Headers "Kot", "0", "0.01" are read as base height, offset 0 and offset 0.01. |
| Scenarios.FlattenExample | sulama/management/commands/tum_kanal_abaklar_yukle.py:159-193 | The row 150.00 / 5.0 / 5.2 under those headers gives the points (150.00, 5.0) and (150.01, 5.2), in that order. |
| Scenarios.BaseOnlyRow | sulama/management/commands/tum_kanal_abaklar_yukle.py:169-193 | A sheet with only its base-height column yields no point from any row. |
| Scenarios.PickCeltekChannel | sulama/management/commands/kanal_abak_yukle.py:53 | The ÇELTEK channel is picked even when another channel comes first. |
| PyNumber.CommaExample | sulama/management/commands/tum_kanal_abaklar_yukle.py:176 | "150,25" reads as 150.25. |

## Left out

- File handling is not modelled:
  - the default workbook path;
  - the existence check;
  - `pd.ExcelFile` and `read_excel`.
  The workbook is given as a sequence of sheets (name, headers, rows).
- Exceptions raised by pandas while reading a sheet are not modelled. The same goes for the database errors behind the outer and per-sheet `except` clauses. Only the exceptions the code raises on purpose are modelled: the `KeyError` and `ValueError` of cell reading, and the channel lookup's empty result.
- All console output is left out: messages, emoji, "first N" display limits and the "Örnek veriler" sample printout at the end of the matrix loader.
- Database calls are not modelled as such: `get_or_create`, `save`, `delete` and queries over `Kanal` are the map operations of `Calibration`. Concurrent writers are not modelled.
- Channel order is an input. `filter(...).first()` on an unordered queryset returns the lowest primary key, and iterating `Kanal.objects.all()` follows the model's default ordering. The `Kanal` model definition is not part of this model, so the channel sequence is taken to be in that order.
- The case mapping of `upper()`/`lower()` and of the database's `icontains` is an abstract function. Properties that need concrete case behaviour state it as a precondition.
- Python `float()` is modelled only on decimal text. Not modelled:
  - exponents;
  - `inf`/`nan`;
  - digit-group underscores;
  - non-ASCII digits, both in `float()` and in `isdigit()` on header text.
  Cells are modelled by the text `str()` gives for them. So a numeric cell pandas hands over as a float is taken to print as its decimal value.
- Binary floating point is not modelled. Heights and values are exact decimals, and `round(x, 2)` rounds the exact value half-to-even. A float whose binary value lies just off a tie can round the other way in Python.
- The unused vocabulary lists of the flat loader (lines 83-84) are not modelled, because the code never reads them.

## Behaviour the model follows as written

- **"Hacim" counts as a height column.** The flat loader tests the height vocabulary first, and that vocabulary includes the single letter 'h'. Any header containing 'h' therefore counts as a height column: "hacim" does, and so would "height", "debi (h)" and so on. A value column must avoid the letter 'h' altogether.
  - `FlatLoad.HacimIsHeight` proves the general statement.
  - `FlatLoad.HacimFirstSwapsColumns` shows the effect: with headers "Hacim" then "Yükseklik", the heights are read from the volume column.
- **The fallback replaces both columns.** When either column is missing, the flat loader replaces both with the first two columns. A correctly detected height column is dropped too.
- **The order of checks differs between the loaders.**
  - Both loaders look up the channel before checking whether the sheet is empty. An empty sheet with no channel is reported as lacking a channel.
  - In the matrix loader an empty sheet is skipped without being listed as failed. A non-empty sheet that yields no point is listed.
- **The alias table is consulted by exact key.** An alias whose value is empty falls back to the stripped sheet name. That is also what happens when the key is absent.
- **The dictionary hides duplicate channel names.** The matrix loader keys channels by name, so of two channels sharing a name only the last is ever chosen. It keeps the first one's place in the search order.
