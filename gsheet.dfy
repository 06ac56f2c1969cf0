/**
  The spreadsheet side (gsheet.py): the row key, the six-column row layout, reading the
  "previous_data" worksheet into an insertion-ordered map, and the batch-update entries
  that write rows back. The worksheet itself is a list of rows of cell strings.
 */
module Gsheet {
  import opened Wrappers
  import opened Numerals
  import opened Decimals
  import opened Currency
  import opened OrderedMaps
  import opened Sequences

  /** HEADER_FIELDS: the column order of both worksheets. */
  const HeaderFields: seq<string> := ["currencyCodeA", "currencyCodeB", "date", "rateBuy", "rateSell", "rateCross"]

  /** CURRENCY_KEY = "{}:{}".format */
  function CurrencyKey(a: int, b: int): string {
    FormatInt(a) + ":" + FormatInt(b)
  }

  /** A key splits at the ':' after str(a) into two texts that int() reads back as a and b. */
  lemma CurrencyKeyReadsBack(a: int, b: int)
    ensures var k, n := CurrencyKey(a, b), |FormatInt(a)|;
      && n < |k| && k[n] == ':'
      && ParseInt(k[..n]) == Some(a) && ParseInt(k[n + 1..]) == Some(b)
  {
    var k := CurrencyKey(a, b);
    assert k[..|FormatInt(a)|] == FormatInt(a);
    assert k[|FormatInt(a)| + 1..] == FormatInt(b);
    IntRoundTrip(a);
    IntRoundTrip(b);
  }

  /** Different currency pairs never share a key. */
  lemma CurrencyKeyInjective(a: int, b: int, c: int, d: int)
    ensures CurrencyKey(a, b) == CurrencyKey(c, d) <==> a == c && b == d
  {
    if CurrencyKey(a, b) == CurrencyKey(c, d) {
      FormatIntChars(a);
      FormatIntChars(c);
      SplitAtFirst(FormatInt(a), ':', FormatInt(b), FormatInt(c), FormatInt(d));
      FormatIntInjective(a, c);
      FormatIntInjective(b, d);
    }
  }

  /** The key a row is stored under. */
  function RowKey(row: CurrencyRow): string {
    CurrencyKey(row.currencyCodeA, row.currencyCodeB)
  }

  /** previous_data: dict[str, CurrencyRow]. */
  type PreviousData = OrderedMap<CurrencyRow>

  /** Every entry is stored under its own row's key. */
  ghost predicate KeyedByRow(m: PreviousData) {
    forall k :: k in m.entries ==> RowKey(m.entries[k]) == k
  }

  /** str(getattr(row, field)) */
  function FieldText(row: CurrencyRow, field: string): string
    requires field in HeaderFields
  {
    if field == "currencyCodeA" then FormatInt(row.currencyCodeA)
    else if field == "currencyCodeB" then FormatInt(row.currencyCodeB)
    else if field == "date" then FormatInt(row.date)
    else if field == "rateBuy" then FormatDecimal(row.rateBuy)
    else if field == "rateSell" then FormatDecimal(row.rateSell)
    else FormatDecimal(row.rateCross)
  }

  /** [str(getattr(row, hf)) for hf in HEADER_FIELDS]: the six cells of one worksheet row. */
  function RowValues(row: CurrencyRow): seq<string> {
    [FormatInt(row.currencyCodeA), FormatInt(row.currencyCodeB), FormatInt(row.date),
     FormatDecimal(row.rateBuy), FormatDecimal(row.rateSell), FormatDecimal(row.rateCross)]
  }

  /** The cells follow HEADER_FIELDS: cell i holds the str of the field named by header i. */
  lemma RowValuesFollowHeader(row: CurrencyRow)
    ensures |RowValues(row)| == |HeaderFields|
    ensures forall i :: 0 <= i < |HeaderFields| ==> RowValues(row)[i] == FieldText(row, HeaderFields[i])
  {
  }

  /** What get_currency_row raises: IndexError on a short row, ValueError or InvalidOperation on a bad cell. */
  datatype RowError = MissingCell(index: nat) | BadInteger(index: nat) | BadDecimal(index: nat)

  /** Cell i is present and parses: the first three as int(), the last three as Decimal(). */
  predicate CellParses(cells: seq<string>, i: nat) {
    i < |cells| && if i < 3 then ParseInt(cells[i]).Some? else ParseDecimal(cells[i]).Some?
  }

  function IntCell(cells: seq<string>, i: nat): Result<int, RowError> {
    if i >= |cells| then Failure(MissingCell(i))
    else match ParseInt(cells[i])
      case Some(n) => Success(n)
      case None => Failure(BadInteger(i))
  }

  function DecimalCell(cells: seq<string>, i: nat): Result<Decimal, RowError> {
    if i >= |cells| then Failure(MissingCell(i))
    else match ParseDecimal(cells[i])
      case Some(d) => Success(d)
      case None => Failure(BadDecimal(i))
  }

  /** All six cells are present and parse. */
  predicate RowParses(cells: seq<string>) {
    && CellParses(cells, 0) && CellParses(cells, 1) && CellParses(cells, 2)
    && CellParses(cells, 3) && CellParses(cells, 4) && CellParses(cells, 5)
  }

  /** get_currency_row: the cells are read left to right and the first bad one raises. */
  function GetCurrencyRow(cells: seq<string>): Result<CurrencyRow, RowError> {
    var a :- IntCell(cells, 0);
    var b :- IntCell(cells, 1);
    var date :- IntCell(cells, 2);
    var buy :- DecimalCell(cells, 3);
    var sell :- DecimalCell(cells, 4);
    var cross :- DecimalCell(cells, 5);
    Success(CurrencyRow(a, b, date, buy, sell, cross))
  }

  /** A row reads when all six cells parse, into the values they parse to. */
  lemma GetCurrencyRowSpec(cells: seq<string>)
    ensures GetCurrencyRow(cells).Success? <==> RowParses(cells)
    ensures GetCurrencyRow(cells).Success? ==>
      var row := GetCurrencyRow(cells).value;
      && |cells| >= 6
      && ParseInt(cells[0]) == Some(row.currencyCodeA)
      && ParseInt(cells[1]) == Some(row.currencyCodeB)
      && ParseInt(cells[2]) == Some(row.date)
      && ParseDecimal(cells[3]) == Some(row.rateBuy)
      && ParseDecimal(cells[4]) == Some(row.rateSell)
      && ParseDecimal(cells[5]) == Some(row.rateCross)
  {
  }

  /** The position of the first cell that is missing or does not parse; 6 when there is none. */
  function FirstBadCell(cells: seq<string>): (i: nat)
    ensures i <= 6
    ensures i < 6 ==> !CellParses(cells, i)
    ensures i == 6 <==> RowParses(cells)
  {
    if !CellParses(cells, 0) then 0
    else if !CellParses(cells, 1) then 1
    else if !CellParses(cells, 2) then 2
    else if !CellParses(cells, 3) then 3
    else if !CellParses(cells, 4) then 4
    else if !CellParses(cells, 5) then 5
    else 6
  }

  /** Every cell before the first bad one parses. */
  lemma FirstBadCellIsFirst(cells: seq<string>, j: nat)
    requires j < FirstBadCell(cells)
    ensures CellParses(cells, j)
  {
    if j == 0 {} else if j == 1 {} else if j == 2 {} else if j == 3 {} else if j == 4 {} else {}
  }

  /** Otherwise the error names the first cell that does not parse, and says whether it is missing. */
  lemma GetCurrencyRowError(cells: seq<string>)
    ensures GetCurrencyRow(cells).Failure? ==>
      var e := GetCurrencyRow(cells).error;
      && e.index == FirstBadCell(cells)
      && (e.MissingCell? <==> e.index >= |cells|)
  {
    var r := GetCurrencyRow(cells);
    var i := FirstBadCell(cells);
    if i < 3 {
      assert r == Failure(IntCell(cells, i).error);
    } else if i < 6 {
      assert r == Failure(DecimalCell(cells, i).error);
    }
  }

  /** A row written by write_worksheet_row reads back as the same row. */
  lemma RowRoundTrip(row: CurrencyRow)
    ensures GetCurrencyRow(RowValues(row)) == Success(row)
  {
    CellsReadBack(RowValues(row), row);
  }

  lemma CellsReadBack(cells: seq<string>, row: CurrencyRow)
    requires |cells| == 6
    requires cells[0] == FormatInt(row.currencyCodeA) && cells[1] == FormatInt(row.currencyCodeB)
    requires cells[2] == FormatInt(row.date) && cells[3] == FormatDecimal(row.rateBuy)
    requires cells[4] == FormatDecimal(row.rateSell) && cells[5] == FormatDecimal(row.rateCross)
    ensures GetCurrencyRow(cells) == Success(row)
  {
    IntCellReadsBack(cells, 0, row.currencyCodeA);
    IntCellReadsBack(cells, 1, row.currencyCodeB);
    IntCellReadsBack(cells, 2, row.date);
    DecimalCellReadsBack(cells, 3, row.rateBuy);
    DecimalCellReadsBack(cells, 4, row.rateSell);
    DecimalCellReadsBack(cells, 5, row.rateCross);
    GetCurrencyRowOfCells(cells, row);
  }

  lemma GetCurrencyRowOfCells(cells: seq<string>, row: CurrencyRow)
    requires IntCell(cells, 0) == Success(row.currencyCodeA)
    requires IntCell(cells, 1) == Success(row.currencyCodeB)
    requires IntCell(cells, 2) == Success(row.date)
    requires DecimalCell(cells, 3) == Success(row.rateBuy)
    requires DecimalCell(cells, 4) == Success(row.rateSell)
    requires DecimalCell(cells, 5) == Success(row.rateCross)
    ensures GetCurrencyRow(cells) == Success(row)
  {
  }

  lemma IntCellReadsBack(cells: seq<string>, i: nat, n: int)
    requires i < |cells| && cells[i] == FormatInt(n)
    ensures IntCell(cells, i) == Success(n)
  {
    IntRoundTrip(n);
  }

  lemma DecimalCellReadsBack(cells: seq<string>, i: nat, d: Decimal)
    requires i < |cells| && cells[i] == FormatDecimal(d)
    ensures DecimalCell(cells, i) == Success(d)
  {
    DecimalRoundTrip(d);
  }

  /** get_currency_row over a list of rows, in order, stopping at the first that raises. */
  function ParseRows(raws: seq<seq<string>>): Result<seq<CurrencyRow>, RowError> {
    MapAll(GetCurrencyRow, raws)
  }

  /** previous_data[CURRENCY_KEY(...)] = row for each row in turn. */
  function PutRows(m: PreviousData, rows: seq<CurrencyRow>): (r: PreviousData)
    ensures m.Valid() ==> r.Valid()
    ensures KeyedByRow(m) ==> KeyedByRow(r)
  {
    if rows == [] then m
    else
      var row := rows[|rows| - 1];
      PutRows(m, rows[..|rows| - 1]).Put(RowKey(row), row)
  }

  /** Stored keys keep their places, and each row adds at most one key, at the end. */
  lemma {:induction false} PutRowsKeys(m: PreviousData, rows: seq<CurrencyRow>)
    ensures var r := PutRows(m, rows);
      && |m.keys| <= |r.keys| <= |m.keys| + |rows|
      && r.keys[..|m.keys|] == m.keys
  {
    if rows != [] {
      var init := rows[..|rows| - 1];
      PutRowsKeys(m, init);
      var before := PutRows(m, init);
      assert before.keys[..|m.keys|] == m.keys;
    }
  }

  /** A key that no row carries keeps its entry. */
  lemma {:induction false} PutRowsUntouched(m: PreviousData, rows: seq<CurrencyRow>, k: string)
    requires forall i :: 0 <= i < |rows| ==> RowKey(rows[i]) != k
    ensures PutRows(m, rows).Get(k) == m.Get(k)
  {
    if rows != [] {
      var init := rows[..|rows| - 1];
      assert forall i :: 0 <= i < |init| ==> init[i] == rows[i];
      PutRowsUntouched(m, init, k);
    }
  }

  /** The entry for a key is the last row with that key: a later row overwrites an earlier one. */
  lemma {:induction false} PutRowsLastWins(m: PreviousData, rows: seq<CurrencyRow>, i: nat)
    requires i < |rows|
    requires forall j :: i < j < |rows| ==> RowKey(rows[j]) != RowKey(rows[i])
    ensures PutRows(m, rows).Get(RowKey(rows[i])) == Some(rows[i])
  {
    if i < |rows| - 1 {
      PutRowsLastWins(m, rows[..|rows| - 1], i);
    }
  }

  /** fetch_previous_data over worksheet.get_all_values(): every row but the header, keyed. */
  function FetchPreviousData(sheet: seq<seq<string>>): (r: Result<PreviousData, RowError>)
    ensures r.Success? ==> r.value.Valid() && KeyedByRow(r.value)
    ensures r.Success? ==> |r.value.entries| <= if sheet == [] then 0 else |sheet| - 1
  {
    if sheet == [] then Success(Empty())
    else
      var rows :- ParseRows(sheet[1..]);
      MapAllSpec(GetCurrencyRow, sheet[1..]);
      var m := PutRows(Empty(), rows);
      PutRowsKeys(Empty(), rows);
      SizeIsKeyCount(m);
      Success(m)
  }

  /** The header row is skipped unread, whatever it holds. */
  lemma HeaderIgnored(header: seq<string>, body: seq<seq<string>>)
    ensures FetchPreviousData([header] + body) == FetchPreviousData([HeaderFields] + body)
  {
    assert ([header] + body)[1..] == body;
    assert ([HeaderFields] + body)[1..] == body;
  }

  /** A readable sheet has every row below the header parsed, and the parsed rows, in sheet order. */
  lemma FetchedRows(sheet: seq<seq<string>>) returns (rows: seq<CurrencyRow>)
    requires FetchPreviousData(sheet).Success? && sheet != []
    ensures |rows| == |sheet| - 1
    ensures forall j :: 0 <= j < |rows| ==> GetCurrencyRow(sheet[j + 1]) == Success(rows[j])
    ensures FetchPreviousData(sheet).value == PutRows(Empty(), rows)
  {
    assert ParseRows(sheet[1..]).Success?;
    FetchOfParsed(sheet);
    rows := ParseRows(sheet[1..]).value;
    MapAllSpec(GetCurrencyRow, sheet[1..]);
    forall j | 0 <= j < |rows| ensures GetCurrencyRow(sheet[j + 1]) == Success(rows[j]) {
      assert sheet[1..][j] == sheet[j + 1];
    }
  }

  /**
    A readable sheet: the rows below the header parse, in order, into rows; the key of row i is in
    the snapshot, and the snapshot holds row i itself when no later row carries the same key.
   */
  lemma FetchHoldsSheetRows(sheet: seq<seq<string>>, i: nat) returns (rows: seq<CurrencyRow>)
    requires FetchPreviousData(sheet).Success? && i + 1 < |sheet|
    ensures |rows| == |sheet| - 1
    ensures forall j :: 0 <= j < |rows| ==> GetCurrencyRow(sheet[j + 1]) == Success(rows[j])
    ensures RowKey(rows[i]) in FetchPreviousData(sheet).value.entries
    ensures (forall j :: i < j < |rows| ==> RowKey(rows[j]) != RowKey(rows[i])) ==>
      FetchPreviousData(sheet).value.Get(RowKey(rows[i])) == Some(rows[i])
  {
    rows := FetchedRows(sheet);
    PutRowsHasKey(Empty(), rows, i);
    if forall j :: i < j < |rows| ==> RowKey(rows[j]) != RowKey(rows[i]) {
      PutRowsLastWins(Empty(), rows, i);
    }
  }

  /** Every entry of a readable snapshot is one of the sheet's rows below the header. */
  lemma FetchEntriesAreSheetRows(sheet: seq<seq<string>>)
    requires FetchPreviousData(sheet).Success?
    ensures forall k :: k in FetchPreviousData(sheet).value.entries ==>
      exists j :: 1 <= j < |sheet| && GetCurrencyRow(sheet[j]) == Success(FetchPreviousData(sheet).value.entries[k])
  {
    if sheet != [] {
      var rows := FetchedRows(sheet);
      var m := FetchPreviousData(sheet).value;
      forall k | k in m.entries
        ensures exists j :: 1 <= j < |sheet| && GetCurrencyRow(sheet[j]) == Success(m.entries[k])
      {
        var i := PutRowsFromRows(Empty(), rows, k);
        assert GetCurrencyRow(sheet[i + 1]) == Success(rows[i]);
      }
    }
  }

  /** A key that the map did not hold before was put by some row, and holds that row. */
  lemma {:induction false} PutRowsFromRows(m: PreviousData, rows: seq<CurrencyRow>, k: string) returns (i: nat)
    requires k !in m.entries && k in PutRows(m, rows).entries
    ensures i < |rows| && PutRows(m, rows).entries[k] == rows[i]
  {
    assert rows != [];
    var init := rows[..|rows| - 1];
    var row := rows[|rows| - 1];
    var before := PutRows(m, init);
    assert PutRows(m, rows) == before.Put(RowKey(row), row);
    if RowKey(row) == k {
      i := |rows| - 1;
    } else {
      assert PutRows(m, rows).entries[k] == before.entries[k];
      i := PutRowsFromRows(m, init, k);
      assert init[i] == rows[i];
    }
  }


  /** Every row put leaves its key present. */
  lemma PutRowsHasKey(m: PreviousData, rows: seq<CurrencyRow>, i: nat)
    requires i < |rows|
    ensures RowKey(rows[i]) in PutRows(m, rows).entries
  {
    LastWithKey(rows, i);
    var last :| i <= last < |rows| && RowKey(rows[last]) == RowKey(rows[i])
                && forall j :: last < j < |rows| ==> RowKey(rows[j]) != RowKey(rows[i]);
    PutRowsLastWins(m, rows, last);
  }

  /** Some row at or after i carries row i's key and no later row does. */
  lemma LastWithKey(rows: seq<CurrencyRow>, i: nat)
    requires i < |rows|
    ensures exists last :: i <= last < |rows| && RowKey(rows[last]) == RowKey(rows[i])
                           && forall j :: last < j < |rows| ==> RowKey(rows[j]) != RowKey(rows[i])
    decreases |rows| - i
  {
    if exists j :: i < j < |rows| && RowKey(rows[j]) == RowKey(rows[i]) {
      var j :| i < j < |rows| && RowKey(rows[j]) == RowKey(rows[i]);
      LastWithKey(rows, j);
    } else {
      assert forall j :: i < j < |rows| ==> RowKey(rows[j]) != RowKey(rows[i]);
    }
  }

  /** Writing a snapshot: the header, then its rows in key order, read back as the same snapshot. */
  lemma ParseWrittenRows(vals: seq<CurrencyRow>)
    ensures ParseRows(seq(|vals|, i requires 0 <= i < |vals| => RowValues(vals[i]))) == Success(vals)
  {
    var raws := seq(|vals|, i requires 0 <= i < |vals| => RowValues(vals[i]));
    forall i | 0 <= i < |raws| ensures GetCurrencyRow(raws[i]) == Success(vals[i]) {
      RowRoundTrip(vals[i]);
    }
    MapAllOfSuccesses(GetCurrencyRow, raws, vals);
  }

  /** The first n keys of m with their entries. */
  function Prefix(m: PreviousData, n: nat): PreviousData
    requires n <= |m.keys|
  {
    OrderedMap(m.keys[..n], map k | k in m.entries && k in m.keys[..n] :: m.entries[k])
  }

  /** Extending a prefix by the next key is putting that key's entry. */
  lemma PrefixStep(m: PreviousData, n: nat)
    requires m.Valid() && 0 < n <= |m.keys|
    ensures Prefix(m, n - 1).Put(m.keys[n - 1], m.entries[m.keys[n - 1]]) == Prefix(m, n)
  {
    var before, after, k := Prefix(m, n - 1), Prefix(m, n), m.keys[n - 1];
    assert k !in m.keys[..n - 1];
    assert m.keys[..n] == m.keys[..n - 1] + [k];
    assert k !in before.entries;
    var put := before.Put(k, m.entries[k]);
    assert put == OrderedMap(m.keys[..n - 1] + [k], before.entries[k := m.entries[k]]);
    forall x ensures x in m.keys[..n] <==> x in m.keys[..n - 1] || x == k {
    }
    assert put.entries.Keys == after.entries.Keys;
    assert put.entries == after.entries;
  }

  /** Putting a snapshot's values in key order rebuilds the snapshot, prefix by prefix. */
  lemma {:induction false} PutValuesRebuilds(m: PreviousData, n: nat)
    requires m.Valid() && KeyedByRow(m) && n <= |m.keys|
    ensures PutRows(Empty(), m.Values()[..n]) == Prefix(m, n)
  {
    var vals := m.Values();
    if n == 0 {
      PrefixEmpty(m);
      assert vals[..0] == [];
    } else {
      PutValuesRebuilds(m, n - 1);
      var k := m.keys[n - 1];
      var row := m.entries[k];
      assert RowKey(row) == k;
      ValuesPrefix(m, n);
      PutRowsSnoc(Empty(), vals[..n - 1], row);
      PrefixStep(m, n);
    }
  }

  lemma PrefixEmpty(m: PreviousData)
    ensures Prefix(m, 0) == Empty()
  {
    assert Prefix(m, 0).entries == map[];
  }

  lemma ValuesPrefix(m: PreviousData, n: nat)
    requires m.Valid() && 0 < n <= |m.keys|
    ensures m.Values()[..n] == m.Values()[..n - 1] + [m.entries[m.keys[n - 1]]]
  {
  }

  lemma PutRowsSnoc(m: PreviousData, rows: seq<CurrencyRow>, row: CurrencyRow)
    ensures PutRows(m, rows + [row]) == PutRows(m, rows).Put(RowKey(row), row)
  {
    assert (rows + [row])[..|rows|] == rows;
  }

  /** The snapshot rows as the worksheet holds them once written: the header, then one row per key in order. */
  function SnapshotSheet(m: PreviousData): (sheet: seq<seq<string>>)
    requires m.Valid()
  {
    [HeaderFields] + seq(|m.keys|, i requires 0 <= i < |m.keys| => RowValues(m.Values()[i]))
  }

  /** fetch_previous_data gives back exactly the snapshot that write_previous_data wrote: same entries, same order. */
  lemma SnapshotRoundTrip(m: PreviousData)
    requires m.Valid() && KeyedByRow(m)
    ensures FetchPreviousData(SnapshotSheet(m)) == Success(m)
  {
    SnapshotBodyParses(m);
    PutValuesRebuildAll(m);
    FetchOfParsed(SnapshotSheet(m));
  }

  lemma SnapshotBodyParses(m: PreviousData)
    requires m.Valid()
    ensures SnapshotSheet(m) != [] && ParseRows(SnapshotSheet(m)[1..]) == Success(m.Values())
  {
    var vals := m.Values();
    var n := |m.keys|;
    assert SnapshotSheet(m)[1..] == seq(n, i requires 0 <= i < n => RowValues(vals[i]));
    ParseWrittenRows(vals);
  }

  lemma PutValuesRebuildAll(m: PreviousData)
    requires m.Valid() && KeyedByRow(m)
    ensures PutRows(Empty(), m.Values()) == m
  {
    var n, vals := |m.keys|, m.Values();
    assert vals[..n] == vals;
    PutValuesRebuilds(m, n);
    PrefixAll(m);
  }

  lemma PrefixAll(m: PreviousData)
    requires m.Valid()
    ensures Prefix(m, |m.keys|) == m
  {
    var n := |m.keys|;
    assert m.keys[..n] == m.keys;
    assert Prefix(m, n).entries == m.entries;
  }

  lemma FetchOfParsed(sheet: seq<seq<string>>)
    requires sheet != [] && ParseRows(sheet[1..]).Success?
    ensures FetchPreviousData(sheet) == Success(PutRows(Empty(), ParseRows(sheet[1..]).value))
  {
  }

  /** One batch-update entry: {"range": ..., "values": [[...]]}. */
  datatype Entry = Entry(range: string, values: seq<seq<string>>)

  /** What write_worksheet_row raises: start_range does not unpack into five characters, or its digit is not a number. */
  datatype RangeError = UnpackError | BadRowNumber

  /** f"{lf}{num}:{ll}{num}" */
  function RowRange(lf: char, ll: char, num: int): string {
    [lf] + FormatInt(num) + ":" + [ll] + FormatInt(num)
  }

  function RowEntry(lf: char, ll: char, num: int, row: CurrencyRow): Entry {
    Entry(RowRange(lf, ll, num), [RowValues(row)])
  }

  /** The entries that write data into consecutive rows from row first on. */
  function RangeEntries(lf: char, ll: char, first: int, data: seq<CurrencyRow>): seq<Entry> {
    seq(|data|, i requires 0 <= i < |data| => RowEntry(lf, ll, first + i, data[i]))
  }

  /** write_worksheet_row: unpack start_range into lf, nf, _, ll, nl, then one entry per row from row int(nf) on. */
  function WorksheetEntries(startRange: string, data: seq<CurrencyRow>): Result<seq<Entry>, RangeError> {
    if |startRange| != 5 then Failure(UnpackError)
    else
      match ParseInt([startRange[1]])
      case None => Failure(BadRowNumber)
      case Some(nf) => Success(RangeEntries(startRange[0], startRange[3], nf, data))
  }

  /** The generator write_worksheet_row, run to completion. */
  method WriteWorksheetRow(startRange: string, data: seq<CurrencyRow>) returns (r: Result<seq<Entry>, RangeError>)
    ensures r == WorksheetEntries(startRange, data)
  {
    if |startRange| != 5 {
      return Failure(UnpackError);
    }
    var lf, nf, ll := startRange[0], startRange[1], startRange[3];
    var start := ParseInt([nf]);
    if start.None? {
      return Failure(BadRowNumber);
    }
    var entries: seq<Entry> := [];
    var num := start.value;
    for i := 0 to |data|
      invariant num == start.value + i
      invariant entries == RangeEntries(lf, ll, start.value, data[..i])
    {
      RangeEntriesSnoc(lf, ll, start.value, data, i);
      entries := entries + [RowEntry(lf, ll, num, data[i])];
      num := num + 1;
    }
    assert data[..|data|] == data;
    return Success(entries);
  }

  lemma RangeEntriesSnoc(lf: char, ll: char, first: int, data: seq<CurrencyRow>, i: nat)
    requires i < |data|
    ensures RangeEntries(lf, ll, first, data[..i + 1]) == RangeEntries(lf, ll, first, data[..i]) + [RowEntry(lf, ll, first + i, data[i])]
  {
    var a, b := RangeEntries(lf, ll, first, data[..i + 1]), RangeEntries(lf, ll, first, data[..i]);
    assert |a| == |b| + 1;
    forall j | 0 <= j < i ensures a[j] == b[j] {
      assert data[..i + 1][j] == data[..i][j];
    }
    assert a == b + [a[i]];
  }

  /** write_worksheet_row succeeds exactly on a five-character range whose second character is a digit. */
  lemma WorksheetEntriesSucceed(startRange: string, data: seq<CurrencyRow>)
    ensures WorksheetEntries(startRange, data).Success? <==> |startRange| == 5 && IsDigit(startRange[1])
    ensures WorksheetEntries(startRange, data).Success? ==>
      WorksheetEntries(startRange, data).value
        == RangeEntries(startRange[0], startRange[3], DigitValue(startRange[1]), data)
  {
    if |startRange| == 5 {
      ParseOneChar(startRange[1]);
    }
  }

  /** Range strings of different rows differ. */
  lemma RowRangeInjective(lf: char, ll: char, n: int, m: int)
    ensures RowRange(lf, ll, n) == RowRange(lf, ll, m) <==> n == m
  {
    if RowRange(lf, ll, n) == RowRange(lf, ll, m) {
      var x, y := FormatInt(n), FormatInt(m);
      var u, v := [ll] + x, [ll] + y;
      RowRangeShape(lf, ll, n);
      RowRangeShape(lf, ll, m);
      FormatIntChars(n);
      FormatIntChars(m);
      assert ':' !in x && ':' !in y;
      SplitAtFirst(x, ':', u, y, v);
      FormatIntInjective(n, m);
    }
  }

  lemma RowRangeShape(lf: char, ll: char, n: int)
    ensures RowRange(lf, ll, n)[1..] == FormatInt(n) + [':'] + ([ll] + FormatInt(n))
  {
    var x := FormatInt(n);
    assert RowRange(lf, ll, n) == [lf] + (x + [':'] + ([ll] + x));
  }

  /** One entry per row, in input order: entry i addresses row first + i and holds data[i]'s cells. */
  lemma RangeEntriesSpec(lf: char, ll: char, first: int, data: seq<CurrencyRow>)
    ensures |RangeEntries(lf, ll, first, data)| == |data|
    ensures forall i :: 0 <= i < |data| ==>
      && RangeEntries(lf, ll, first, data)[i].range == RowRange(lf, ll, first + i)
      && RangeEntries(lf, ll, first, data)[i].values == [RowValues(data[i])]
  {
  }

  /** The cells of entry i read back as data[i]. */
  lemma RangeEntryReadsBack(lf: char, ll: char, first: int, data: seq<CurrencyRow>, i: nat)
    requires i < |data|
    ensures |RangeEntries(lf, ll, first, data)[i].values| == 1
    ensures GetCurrencyRow(RangeEntries(lf, ll, first, data)[i].values[0]) == Success(data[i])
  {
    var cells := RangeEntries(lf, ll, first, data)[i].values[0];
    assert cells == RowValues(data[i]);
    RowRoundTrip(data[i]);
  }

  lemma DistinctRanges(a: string, b: string, lf: char, ll: char, n: int, m: int)
    requires a == RowRange(lf, ll, n) && b == RowRange(lf, ll, m) && n != m
    ensures a != b
  {
    RowRangeInjective(lf, ll, n, m);
  }

  /** No two entries address the same row. */
  lemma RangeEntriesDistinct(lf: char, ll: char, first: int, data: seq<CurrencyRow>)
    ensures forall i, j :: 0 <= i < j < |data| ==>
      RangeEntries(lf, ll, first, data)[i].range != RangeEntries(lf, ll, first, data)[j].range
  {
    var es := RangeEntries(lf, ll, first, data);
    forall i, j | 0 <= i < j < |data| ensures es[i].range != es[j].range {
      DistinctRanges(es[i].range, es[j].range, lf, ll, first + i, first + j);
    }
  }

  /**
    write_currency_data as written: write_worksheet_row(f"A{row}:F{row}", data). The range has five
    characters only for a one-digit row.
   */
  function CurrencyDataEntries(row: int, data: seq<CurrencyRow>): (r: Result<seq<Entry>, RangeError>)
    ensures r.Failure? ==> r.error == UnpackError
    ensures r.Success? ==> |r.value| == |data|
  {
    var s := "A" + FormatInt(row) + ":F" + FormatInt(row);
    assert |s| == 5 ==> ParseInt([s[1]]).Some? by {
      if |s| == 5 {
        assert s[1] == FormatInt(row)[0];
        ParseOneChar(s[1]);
      }
    }
    WorksheetEntries(s, data)
  }

  /** From history row 10 on (and below 0), write_currency_data raises while unpacking the range. */
  lemma CurrencyDataFailsFromRowTen(row: int, data: seq<CurrencyRow>)
    requires row >= 10 || row < 0
    ensures CurrencyDataEntries(row, data) == Failure(UnpackError)
  {
    assert |FormatInt(row)| >= 2 by {
      if row >= 10 {
        assert FormatInt(row) == NatToDigits(row / 10) + [DigitChar(row % 10)];
      }
    }
  }

  /** The range f"A{row}:F{row}" that write_currency_data builds, for history row 10. */
  lemma HistoryRowTenCounterexample(row: CurrencyRow)
    ensures "A" + FormatInt(10) + ":F" + FormatInt(10) == "A10:F10"
    ensures CurrencyDataEntries(10, [row]).Failure?
  {
    CurrencyDataFailsFromRowTen(10, [row]);
    assert FormatInt(10) == "10";
  }

  /** The corrected history write: data goes to rows row, row + 1, ... in columns A to F, for any row. */
  function HistoryEntries(row: int, data: seq<CurrencyRow>): (es: seq<Entry>)
    ensures |es| == |data|
    ensures forall i :: 0 <= i < |data| ==>
      && es[i].range == RowRange('A', 'F', row + i)
      && |es[i].values| == 1
      && GetCurrencyRow(es[i].values[0]) == Success(data[i])
    ensures forall i, j :: 0 <= i < j < |data| ==> es[i].range != es[j].range
  {
    HistoryReadsBack(row, data);
    RangeEntriesDistinct('A', 'F', row, data);
    RangeEntries('A', 'F', row, data)
  }

  lemma HistoryReadsBack(row: int, data: seq<CurrencyRow>)
    ensures forall i :: 0 <= i < |data| ==>
      && |RangeEntries('A', 'F', row, data)[i].values| == 1
      && GetCurrencyRow(RangeEntries('A', 'F', row, data)[i].values[0]) == Success(data[i])
  {
    forall i | 0 <= i < |data|
      ensures |RangeEntries('A', 'F', row, data)[i].values| == 1
      ensures GetCurrencyRow(RangeEntries('A', 'F', row, data)[i].values[0]) == Success(data[i])
    {
      RangeEntryReadsBack('A', 'F', row, data, i);
    }
  }

  /** For a one-digit row the code as written and the corrected write agree. */
  lemma CurrencyDataBelowTen(row: int, data: seq<CurrencyRow>)
    requires 0 <= row <= 9
    ensures CurrencyDataEntries(row, data) == Success(HistoryEntries(row, data))
  {
    var s := "A" + FormatInt(row) + ":F" + FormatInt(row);
    assert FormatInt(row) == [DigitChar(row)];
    assert s[1] == DigitChar(row);
    WorksheetEntriesSucceed(s, data);
  }

  /** The header row the snapshot worksheet is rewritten with. */
  const HeaderEntry: Entry := Entry("A1:F1", [HeaderFields])

  /** write_previous_data: the header at A1:F1, then write_worksheet_row("A2:F2", data). */
  function WritePreviousData(m: PreviousData): (es: seq<Entry>)
    requires m.Valid()
    ensures |es| == |m.keys| + 1 && es[0] == HeaderEntry
  {
    [HeaderEntry] + RangeEntries('A', 'F', 2, m.Values())
  }

  /**
    The snapshot write puts row i of the snapshot sheet (the header, then one row per entry in key
    order) at row i + 1.
   */
  lemma WritePreviousDataSpec(m: PreviousData)
    requires m.Valid()
    ensures forall i :: 0 <= i < |WritePreviousData(m)| ==>
      WritePreviousData(m)[i] == Entry(RowRange('A', 'F', i + 1), [SnapshotSheet(m)[i]])
  {
    forall i | 0 <= i < |WritePreviousData(m)|
      ensures WritePreviousData(m)[i] == Entry(RowRange('A', 'F', i + 1), [SnapshotSheet(m)[i]])
    {
      SnapshotEntry(m, i);
    }
  }

  lemma SnapshotEntry(m: PreviousData, i: nat)
    requires m.Valid() && i <= |m.keys|
    ensures WritePreviousData(m)[i] == Entry(RowRange('A', 'F', i + 1), [SnapshotSheet(m)[i]])
  {
    if i == 0 {
      assert RowRange('A', 'F', 1) == "A1:F1" by { assert FormatInt(1) == "1"; }
    } else {
      var vals := m.Values();
      assert WritePreviousData(m)[i] == RangeEntries('A', 'F', 2, vals)[i - 1];
      assert SnapshotSheet(m)[i] == RowValues(vals[i - 1]);
    }
  }

  /** The data part of the snapshot write is what write_worksheet_row("A2:F2", ...) yields. */
  lemma WritePreviousDataRows(m: PreviousData)
    requires m.Valid()
    ensures WorksheetEntries("A2:F2", m.Values()) == Success(WritePreviousData(m)[1..])
  {
    var start := "A2:F2";
    assert start[1] == '2' && start[0] == 'A' && start[3] == 'F';
    WorksheetEntriesSucceed(start, m.Values());
    assert WritePreviousData(m)[1..] == RangeEntries('A', 'F', 2, m.Values());
  }
}
