# monobank_currency, modelled in Dafny

monobank_currency polls the monobank rate list and keeps two Google worksheets up to date:
- "previous_data": a snapshot, with one row per currency pair;
- a yearly history sheet: rows are appended to it whenever a rate moves.

This project models one poll of that program:

- `currency.py`: the rate record `CurrencyRow`, with its rate defaults of `Decimal("0.0")`. The
  allow-list `CURRENCY_MAP`. The change predicate `is_currency_changed`, with its threshold
  `ONE_PENNY`.
- `monobank.py`: how one API item becomes a row (`get_currency_row`), and the loop of
  `get_currency` that keeps only allow-listed rows.
- `gsheet.py`:
  - the key format `CURRENCY_KEY` and the column order `HEADER_FIELDS`;
  - how one worksheet row parses (`get_currency_row`);
  - reading the snapshot into a key-ordered dictionary (`fetch_previous_data`);
  - the batch-update entries that `write_worksheet_row`, `write_previous_data` and
    `write_currency_data` produce.
- `run.py`: the reconciliation loop of `main()`, and the decision whether to write and from
  which history row.

Modules:

| file | module | flavour |
|---|---|---|
| `wrappers.dfy` | `Wrappers` | `Option` and `Result`, with `:-` propagation |
| `numerals.dfy` | `Numerals` | Python's `str(int)` and `int(str)`, over decimal digits with an optional `-` |
| `decimals.dfy` | `Decimals` | `Decimal(coefficient, places)`: an exact decimal in plain notation. `str(Decimal)` and `Decimal(str)` |
| `currency.dfy` | `Currency` | `CurrencyRow`, `CURRENCY_MAP`, `ONE_PENNY`, `is_currency_changed` |
| `ordered_maps.dfy` | `OrderedMaps` | a Python `dict`: a map plus the insertion order of its keys. Reassigning a key keeps its place, and a new key goes to the end |
| `sequences.dfy` | `Sequences` | `MapAll` (map, stopping at the first error), `Filter`, and order-preserving subsequences |
| `gsheet.dfy` | `Gsheet` | the spreadsheet rows and entries. `write_worksheet_row` is a method with a loop |
| `monobank.dfy` | `Monobank` | API items. `get_currency` is a method with a loop and `continue` |
| `run.dfy` | `Run` | the reconciliation loop as a method, and one poll as a method |

How the Python is represented:

- Exceptions become `Result` failures that name the failing cell or field: `IndexError`, `KeyError`,
  `ValueError`, `InvalidOperation`, and the `ValueError` from unpacking a range string.
- Each loop is a method. Its invariant ties the state after `i` items to a specification function
  applied to the first `i` items (`Reconciled`, `CurrencyRows`, `RangeEntries`). What the source
  promises is then proved about those functions.
- A worksheet is a list of rows of cell strings. A batch-update entry is its range and its values.

## Model

| member | source | states |
|---|---|---|
| Currency.IsCurrencyChanged | currency.py:26-34 | a pair is unchanged exactly when each of the three rates is strictly within 0.01 of the other's |
| Currency.ChangedIsSymmetric | currency.py:31-33 | swapping the two rows does not change the verdict |
| Currency.UnchangedOnEqualRates | currency.py:30-34 | rows whose rates have equal values, and a row against itself, are never changed |
| Currency.ChangeIgnoresIdentity | currency.py:30-34 | currencyCodeA, currencyCodeB and date play no part; rows differing only there are unchanged |
| Currency.PennyValues | currency.py:13 | ONE_PENNY is 0.01 and the default rate is 0 |
| Currency.PennyBoundary | currency.py:31 | 27.00 against 27.01 is a change, 27.00 against 27.00999 is not |
| Currency.DecimalExactness | currency.py:21-34 | "27.50" and "27.5" are distinct texts, Decimal() reads them as Decimal(2750, 2) and Decimal(275, 1), the two have equal value (zero difference), and switching between them is no change |
| Currency.DefaultRates | currency.py:21-23 | a row built without rates has buy, sell and cross equal to Decimal("0.0"), which is the text "0.0" parsed |
| Currency.AllowList | currency.py:5-11 | the allow-list is exactly {980, 840, 978, 643, 985} |
| Numerals.FormatInt | gsheet.py:112-113 | str(int): the decimal digits, led by "-" exactly for a negative number; IntRoundTrip and FormatIntInjective are its partners |
| Numerals.ParseInt | gsheet.py:64-66 | int(str) on an optional "-" and ASCII digits, None where int() raises ValueError; its contract is stated by IntRoundTrip and ParseOneChar |
| Numerals.IntRoundTrip | gsheet.py:64-66 | int(str(i)) == i for every integer |
| Numerals.FormatIntInjective | gsheet.py:112 | str(i) == str(j) exactly when i == j |
| Numerals.ParseOneChar | gsheet.py:110 | int() of one character succeeds exactly on a digit, giving its value |
| Decimals.FormatDecimal | gsheet.py:113 | str(Decimal) in plain notation with exactly `places` fractional digits, led by "-" exactly for a negative coefficient |
| Decimals.ParseDecimal | gsheet.py:67-69 | Decimal(str) on [-]digits[.digits], keeping one place per fractional digit, None where Python raises InvalidOperation; its contract is stated by DecimalRoundTrip |
| Decimals.DecimalRoundTrip | gsheet.py:67-69 | Decimal(str(d)) == d, the number of places included |
| OrderedMaps.OrderedMap.Put | run.py:57 | d[k] = v: k maps to v, every other key is unchanged, stored keys keep their places, a new key goes last, and the map stays well formed |
| OrderedMaps.OrderedMap.Values | run.py:78 | d.values() lists one value per key, in key order |
| OrderedMaps.SizeIsKeyCount | gsheet.py:79-83 | len(d) is the number of keys in the order |
| Gsheet.CurrencyKey | gsheet.py:29 | CURRENCY_KEY: str(a), then ':', then str(b); its contract is stated by CurrencyKeyReadsBack and CurrencyKeyInjective |
| Gsheet.CurrencyKeyReadsBack | gsheet.py:29 | the key splits at the ':' after str(a) into two texts that int() reads back as a and b |
| Gsheet.CurrencyKeyInjective | gsheet.py:29 | "{a}:{b}" keys of different integer pairs differ, and equal pairs give equal keys |
| Gsheet.RowValuesFollowHeader | gsheet.py:113 | cell i of a written row is str of the field named by HEADER_FIELDS[i], six cells |
| Gsheet.GetCurrencyRow | gsheet.py:62-70 | CurrencyRow from cells 0 to 5: int() of the first three, Decimal() of the last three, failing at the first missing or unreadable cell; its contract is stated by GetCurrencyRowSpec and GetCurrencyRowError |
| Gsheet.GetCurrencyRowSpec | gsheet.py:62-70 | a worksheet row parses exactly when its six cells parse, into the values int() and Decimal() give |
| Gsheet.FirstBadCell | gsheet.py:62-70 | the first cell that is missing or does not parse, or 6 exactly when the row parses |
| Gsheet.FirstBadCellIsFirst | gsheet.py:62-70 | every cell before the first bad one parses |
| Gsheet.GetCurrencyRowError | gsheet.py:62-70 | a failing row reports its first bad cell, as missing exactly when the row is too short |
| Gsheet.RowRoundTrip | gsheet.py:62-70 | the row that write_worksheet_row writes for a CurrencyRow reads back as that row |
| Gsheet.PutRows | gsheet.py:79-83 | putting rows keeps the map well formed and every entry under its own row's key |
| Gsheet.PutRowsKeys | gsheet.py:79-83 | stored keys keep their places; each row adds at most one key, at the end |
| Gsheet.PutRowsUntouched | gsheet.py:79-83 | a key carried by no row keeps its entry |
| Gsheet.PutRowsLastWins | gsheet.py:79-83 | the entry of a key is the last row with that key |
| Gsheet.PutRowsHasKey | gsheet.py:79-83 | every row's key is present afterwards |
| Gsheet.FetchPreviousData | gsheet.py:73-83 | the snapshot read is well formed, keyed by row, and has at most one entry per row below the header |
| Gsheet.HeaderIgnored | gsheet.py:81 | the first row is skipped, whatever it holds |
| Gsheet.FetchHoldsSheetRows | gsheet.py:73-83 | every row below the header parses, in order; row i's key is in the snapshot, and it holds row i when no later row has that key |
| Gsheet.FetchEntriesAreSheetRows | gsheet.py:79-83 | every entry of the snapshot is one of the sheet's rows below the header |
| Gsheet.ParseWrittenRows | gsheet.py:62-70 | rows written as cells parse back, all of them, in order |
| Gsheet.PutValuesRebuilds | run.py:78 | putting the first n values in key order rebuilds the first n keys of the snapshot |
| Gsheet.PutValuesRebuildAll | run.py:78 | putting all values in key order rebuilds the snapshot exactly, order included |
| Gsheet.SnapshotRoundTrip | gsheet.py:86-96 | reading back what write_previous_data wrote gives the same snapshot: entries and key order |
| Gsheet.WriteWorksheetRow | gsheet.py:99-114 | the generator, run to completion: an unpack error unless the range has five characters, a row-number error unless its second one is a digit, else one entry per row |
| Gsheet.WorksheetEntriesSucceed | gsheet.py:108-110 | write_worksheet_row succeeds exactly on five characters with a digit second, numbering rows from that digit |
| Gsheet.RangeEntriesSpec | gsheet.py:110-114 | one entry per row, in order: entry i is range lf(nf+i):ll(nf+i) with that row's six cells |
| Gsheet.RangeEntryReadsBack | gsheet.py:113 | the cells of entry i parse back as row i |
| Gsheet.RowRangeInjective | gsheet.py:112 | ranges of different row numbers differ |
| Gsheet.RangeEntriesDistinct | gsheet.py:110-112 | no two entries address the same row |
| Gsheet.CurrencyDataEntries | gsheet.py:117-126 | write_currency_data as written: write_worksheet_row(f"A{row}:F{row}", data); it can only fail to unpack, and on success gives one entry per row |
| Gsheet.CurrencyDataFailsFromRowTen | gsheet.py:117-126 | write_currency_data as written fails to unpack for any start row of 10 or more, or below 0 |
| Gsheet.HistoryRowTenCounterexample | gsheet.py:125 | for start row 10 the range is "A10:F10" and the write fails |
| Gsheet.HistoryEntries | gsheet.py:117-126 | the corrected history write, for any start row: entry i addresses A(row+i):F(row+i), its cells read back as row i, and no two entries address the same row |
| Gsheet.CurrencyDataBelowTen | gsheet.py:117-126 | for start rows 0 to 9 the code as written and the corrected write agree |
| Gsheet.WritePreviousData | gsheet.py:86-96 | the snapshot write has the header entry "A1:F1" first, then one entry per stored key |
| Gsheet.WritePreviousDataSpec | gsheet.py:86-96 | entry i writes row i of the snapshot sheet (header, then values in key order) at row i+1 |
| Gsheet.SnapshotEntry | gsheet.py:86-96 | the same, for one entry |
| Gsheet.WritePreviousDataRows | gsheet.py:94-96 | the data part is exactly what write_worksheet_row("A2:F2", values) yields |
| Monobank.RateOfSpec | monobank.py:27-29 | Decimal(str(v)) is the number v itself; a missing rate is Decimal("0.0") |
| Monobank.GetCurrencyRow | monobank.py:22-30 | CurrencyRow from one API item: int() of the codes and date, Decimal(str(...)) of the rates with "0.0" for a missing one, KeyError at the first missing required field; its contract is stated by GetCurrencyRowSpec |
| Monobank.GetCurrencyRowSpec | monobank.py:22-30 | an item builds a row exactly when it has currencyCodeA, currencyCodeB and date; the row holds int() of those and the rates; otherwise KeyError names the first missing field |
| Monobank.GetCurrencyRowCopiesIntegers | monobank.py:24-29 | integer codes and date are copied unchanged, and absent rates become 0.0 |
| Monobank.IntOfTruncates | monobank.py:24-26 | int() of a float drops the fraction toward zero, for both signs |
| Monobank.GetCurrency | monobank.py:8-19 | an empty list when the response is not ok, else the loop's result over the items |
| Monobank.FailurePersists | monobank.py:14-15 | once an item raises, the whole call raises that error |
| Monobank.CurrencyRowsIsFilter | monobank.py:13-19 | the loop with continue is "build every row, then keep the allowed ones", the same error included |
| Monobank.BuildRowsSpec | monobank.py:14-15 | building succeeds exactly when every item has its required fields, one row per item |
| Monobank.GetCurrencyFilters | monobank.py:13-19 | only allow-listed currencyCodeA, whatever currencyCodeB; every allow-listed item's row is kept; item order is kept; no more rows than items |
| Run.ShouldUpdate | run.py:49-54 | update_currency: a new key is always updated, and a key already holding this very row never is |
| Run.Step | run.py:44-60 | one iteration: afterwards the row's key is always stored, and a well formed previous_data stays so |
| Run.StepSpec | run.py:44-60 | a new key is queued whatever the rates; a stored key is queued exactly when changed; a queued row becomes the key's entry and the last update and nothing else changes; an unqueued row changes nothing |
| Run.Reconciled | run.py:43-60 | the loop keeps previous_data well formed |
| Run.Reconcile | run.py:43-60 | the loop's final previous_data and currency_update_data are Reconciled of the inputs |
| Run.ReconciledIsPutRows | run.py:55-60 | the new snapshot is the old one with exactly the queued rows put into it, in order |
| Run.ReconciledGrows | run.py:55-60 | each row either leaves the updates as they are or appends itself |
| Run.UpdatesAreSubsequence | run.py:43-60 | currency_update_data is an order-preserving subsequence of the incoming rows |
| Run.UpdatesFromRows | run.py:43-60 | every update is one of the incoming rows |
| Run.ReconciledPreserves | run.py:57 | well formed and keyed snapshots stay so; stored keys keep their places; keys no row carries keep their entries |
| Run.UntouchedKey | run.py:57 | a key no incoming row carries keeps its entry |
| Run.NoUpdatesNoChange | run.py:55-57 | when nothing is queued, previous_data is unchanged |
| Run.ReconciledCurrent | run.py:51-57 | after the loop, the last row of each key is stored as a row it is unchanged against |
| Run.StableQueuesNothing | run.py:51-55 | a snapshot that already holds every incoming row within a penny queues nothing and stays as it is |
| Run.Idempotent | run.py:43-60 | with distinct currency pairs, a second run on the resulting snapshot queues nothing and changes nothing |
| Run.ChangedPairQueued | run.py:51-60 | two rows for one pair that differ are both queued once the first is, and the second is the one stored |
| Run.DuplicatePairsRequeue | run.py:43-60 | without distinct pairs a second run can queue again: two USD/UAH rows a hryvnia apart |
| Run.UsdUahKey | gsheet.py:29 | the key of a USD/UAH row is "840:980" |
| Run.FirstRun | run.py:43-60 | an empty snapshot and one USD/UAH row store that row under "840:980" and queue it |
| Run.PollAsWritten | run.py:23-79 | main() as written, write_currency_data before write_previous_data: with something queued and a history start row outside 0 to 9 the poll fails with the unpack error and makes no write; otherwise it makes exactly the writes Run.Poll makes |
| Run.SnapshotWriteCoversSheet | gsheet.py:86-96 | when the snapshot sheet read held no repeated key, the rewritten snapshot is at least as long as it, so no old row is left below it |
| Run.Poll | run.py:23-79 | API errors win over sheet errors; a readable API result and snapshot sheet always give a result; writes happen exactly when something was queued; history starts at the row count + 1 with the queued rows; the snapshot write holds the new previous_data in key order and reads back as it |

## Left out

- app.py: an earlier, superseded version of the script. It is not modelled.
- The HTTP request (monobank.py:9-14) is not modelled. `resp.ok` and the decoded item list are parameters of `GetCurrency` and `Poll`.
- gspread and oauth2client are not modelled: `get_client`, `get_worksheet`, the `update` and `batch_update` calls, and `SheetInfo`. The history row count from `get_currency_rows_count` is the parameter `rowsCount`. The worksheet contents and the entries to write are values.
- The "File with credentials not found" return in `main()` (run.py:27-30) is not modelled, because it depends on the file system.
- Logging, `time.perf_counter` and `datetime.now().year` (run.py:11-38, run.py:81-84) are not modelled. They do not affect the data.
- In-place updates are modelled by reassignment. `previous_data` is local to `main()` and nothing else refers to it, so updating it in place and rebinding it are indistinguishable here.
- The model's `int()` and `Decimal()` read the plain form that the model's `str()` writes: an optional `-`, ASCII digits, and one `.` with digits on both sides. The model does not accept what Python also accepts:
  - a `+` sign, surrounding whitespace, or `_` separators;
  - exponents, `NaN` or `Infinity`;
  - non-ASCII digits;
  - `.5` or `5.`.

  A sheet cell in such a form is reported as a parse error.
- Decimals.FormatDecimal: it always writes plain notation. Python's `str(Decimal)` switches to exponent notation when the adjusted exponent is below -6 (`str(Decimal("0.0000001"))` is `"1E-7"`, `str(Decimal("0.0000000"))` is `"0E-7"`), and the exponent text Python writes for such a rate is a parse error for the model's reader, though Python reads it back.
- Decimals.ParseDecimal: it has no negative zero. Python keeps the sign of `Decimal("-0.0")` and writes it back as `"-0.0"`; the model reads it as `Decimal(0, 1)` and writes `"0.0"`. The value, and so every change decision, is the same.
- `Decimal` arithmetic is exact. Python's context precision of 28 digits, which could round a subtraction of very long decimals, is not modelled.
- JSON floats are modelled directly as the plain decimal `str(float)` prints. `str(float)` switches to exponent notation for very large or very small magnitudes, and that form is not modelled. JSON values other than numbers (strings, null) are not modelled.
- `if (row := get_currency_row(raw))` (gsheet.py:82) and `not previous_currency_row` (run.py:52) are modelled as the tests they amount to. A `CurrencyRow` instance is always truthy, so the first never skips a row and the second is only a "key missing" test.
- Monobank.GetCurrencyFilters: it requires every item to have its required fields. The error case is covered separately by CurrencyRowsIsFilter and BuildRowsSpec.
- Run.Poll: it models `main()` from `get_currency()` on. It follows the code's order: the API result is taken before the snapshot is read, so an API error is reported first. Its history write is the corrected one (Gsheet.HistoryEntries). As written, `main()` calls `write_currency_data` (run.py:69) before `write_previous_data` (run.py:76); when something is queued and the history start row is 10 or more, or below 0, the first raises ValueError (gsheet.py:108), neither sheet is written, and every later poll against the same snapshot sheet queues the same rows again. Run.PollAsWritten models that order.
- Gsheet.SnapshotSheet: it is the snapshot sheet after `write_previous_data`, the header plus one row per key. The real batch update (gsheet.py:91-95) overwrites only rows 1 to n + 1 and leaves any older rows below them, which `get_all_values()` then reads again. That can happen only when the sheet read held a repeated key; otherwise the rewrite covers every old row (Run.SnapshotWriteCoversSheet). Run.Poll's "reads back as it" relies on the rewritten sheet being exactly SnapshotSheet.
- Idempotence is not unconditional. A re-run against the snapshot that the first run produced queues nothing only when the incoming currency pairs are distinct (Run.Idempotent). With a repeated pair, the code queues again (Run.DuplicatePairsRequeue). The model follows the code.

## Findings

| source | as written | input that shows it | evidently intended | confidence | as-written member | corrected member |
|---|---|---|---|---|---|---|
| gsheet.py:108 | `write_currency_data` passes `f"A{row}:F{row}"`, and `write_worksheet_row` unpacks it into exactly five characters | start row 10, i.e. a history sheet with 9 stored rows: "A10:F10" has seven characters, so unpacking raises ValueError | history rows are appended from any start row | not executed | Gsheet.CurrencyDataEntries (Gsheet.CurrencyDataFailsFromRowTen, Gsheet.HistoryRowTenCounterexample) | Gsheet.HistoryEntries (Gsheet.CurrencyDataBelowTen, used by Run.Poll) |
