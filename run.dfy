/** One poll of main() (run.py): reconcile the fetched rows with the stored snapshot, then decide the writes. */
module Run {
  import opened Wrappers
  import opened Numerals
  import opened Decimals
  import opened Currency
  import opened OrderedMaps
  import opened Gsheet
  import opened Monobank
  import opened Sequences

  /** The loop's state: previous_data and currency_update_data. */
  datatype Reconciliation = Reconciliation(previousData: PreviousData, updates: seq<CurrencyRow>)

  /** update_currency: the key is not stored yet, or some rate moved by at least a penny. */
  predicate ShouldUpdate(previousData: PreviousData, row: CurrencyRow)
    ensures previousData.Get(RowKey(row)).None? ==> ShouldUpdate(previousData, row)
    ensures previousData.Get(RowKey(row)) == Some(row) ==> !ShouldUpdate(previousData, row)
  {
    UnchangedOnEqualRates(row, row);
    match previousData.Get(RowKey(row))
    case None => true
    case Some(previousRow) => IsCurrencyChanged(previousRow, row)
  }

  /** One iteration of the loop. */
  function Step(s: Reconciliation, row: CurrencyRow): (r: Reconciliation)
    ensures r.previousData.Get(RowKey(row)).Some?
    ensures s.previousData.Valid() ==> r.previousData.Valid()
  {
    if ShouldUpdate(s.previousData, row) then
      Reconciliation(s.previousData.Put(RowKey(row), row), s.updates + [row])
    else
      s
  }

  /**
    A row is queued when its key is new, and when its key is stored, exactly when a rate moved by a
    penny. A queued row becomes the stored entry for its key and the last update, and no other key
    changes; a row that is not queued changes nothing.
   */
  lemma StepSpec(s: Reconciliation, row: CurrencyRow)
    ensures var r := Step(s, row);
      && (s.previousData.Get(RowKey(row)).None? ==> r.updates == s.updates + [row])
      && (s.previousData.Get(RowKey(row)).Some? ==>
            (r.updates == s.updates + [row] <==> IsCurrencyChanged(s.previousData.Get(RowKey(row)).value, row)))
      && (r == s || r.updates == s.updates + [row])
    ensures var r := Step(s, row);
      r.updates == s.updates + [row] ==>
        && r.previousData.Get(RowKey(row)) == Some(row)
        && (forall k :: k != RowKey(row) ==> r.previousData.Get(k) == s.previousData.Get(k))
        && |s.previousData.keys| <= |r.previousData.keys|
        && r.previousData.keys[..|s.previousData.keys|] == s.previousData.keys
  {
  }

  /** The loop's state after the given rows. */
  function Reconciled(previousData: PreviousData, rows: seq<CurrencyRow>): (r: Reconciliation)
    ensures previousData.Valid() ==> r.previousData.Valid()
  {
    if rows == [] then Reconciliation(previousData, [])
    else Step(Reconciled(previousData, rows[..|rows| - 1]), rows[|rows| - 1])
  }

  /** The loop of run.py, updating previous_data and appending to currency_update_data. */
  method Reconcile(previousData: PreviousData, currencyRows: seq<CurrencyRow>)
    returns (current: PreviousData, currencyUpdateData: seq<CurrencyRow>)
    ensures Reconciliation(current, currencyUpdateData) == Reconciled(previousData, currencyRows)
  {
    current := previousData;
    currencyUpdateData := [];
    for i := 0 to |currencyRows|
      invariant Reconciliation(current, currencyUpdateData) == Reconciled(previousData, currencyRows[..i])
    {
      var currencyRow := currencyRows[i];
      ReconciledSnoc(previousData, currencyRows, i);
      var key := CurrencyKey(currencyRow.currencyCodeA, currencyRow.currencyCodeB);
      var previousRow := current.Get(key);
      var updateCurrency := previousRow.None? || IsCurrencyChanged(previousRow.value, currencyRow);
      if updateCurrency {
        current := current.Put(key, currencyRow);
        currencyUpdateData := currencyUpdateData + [currencyRow];
      }
    }
    assert currencyRows[..|currencyRows|] == currencyRows;
  }

  lemma ReconciledSnoc(previousData: PreviousData, rows: seq<CurrencyRow>, i: nat)
    requires i < |rows|
    ensures Reconciled(previousData, rows[..i + 1]) == Step(Reconciled(previousData, rows[..i]), rows[i])
  {
    assert rows[..i + 1][..i] == rows[..i];
  }

  /** The new snapshot is the old one with exactly the queued rows put into it, in order. */
  lemma {:induction false} ReconciledIsPutRows(previousData: PreviousData, rows: seq<CurrencyRow>)
    ensures Reconciled(previousData, rows).previousData == PutRows(previousData, Reconciled(previousData, rows).updates)
  {
    if rows != [] {
      var init := rows[..|rows| - 1];
      ReconciledIsPutRows(previousData, init);
      var s := Reconciled(previousData, init);
      var row := rows[|rows| - 1];
      if ShouldUpdate(s.previousData, row) {
        assert (s.updates + [row])[..|s.updates|] == s.updates;
      }
    }
  }

  /** Each step keeps the updates so far and appends at most the row it looks at. */
  lemma ReconciledGrows(previousData: PreviousData, rows: seq<CurrencyRow>)
    requires rows != []
    ensures var before := Reconciled(previousData, rows[..|rows| - 1]).updates;
      var after := Reconciled(previousData, rows).updates;
      after == before || after == before + [rows[|rows| - 1]]
  {
  }

  /** currency_update_data keeps the incoming order and never has more rows than came in. */
  lemma {:induction false} UpdatesAreSubsequence(previousData: PreviousData, rows: seq<CurrencyRow>)
    ensures IsSubsequence(Reconciled(previousData, rows).updates, rows)
    ensures |Reconciled(previousData, rows).updates| <= |rows|
  {
    var updates := Reconciled(previousData, rows).updates;
    if rows == [] {
      EmptyIsSubsequence(rows);
    } else {
      var init, row := rows[..|rows| - 1], rows[|rows| - 1];
      assert init + [row] == rows;
      UpdatesAreSubsequence(previousData, init);
      ReconciledGrows(previousData, rows);
      SubsequenceStep(Reconciled(previousData, init).updates, updates, init, row);
    }
    SubsequenceLength(updates, rows);
  }

  /** Every update is one of the incoming rows. */
  lemma {:induction false} UpdatesFromRows(previousData: PreviousData, rows: seq<CurrencyRow>)
    ensures forall j :: 0 <= j < |Reconciled(previousData, rows).updates| ==> Reconciled(previousData, rows).updates[j] in rows
  {
    if rows != [] {
      var init := rows[..|rows| - 1];
      UpdatesFromRows(previousData, init);
      ReconciledGrows(previousData, rows);
      assert forall x :: x in init ==> x in rows;
    }
  }

  /**
    The loop keeps the snapshot well formed and keyed, keeps the stored keys in their places (new keys
    go to the end), and leaves every key that no incoming row carries as it was.
   */
  lemma ReconciledPreserves(previousData: PreviousData, rows: seq<CurrencyRow>)
    ensures var cur := Reconciled(previousData, rows).previousData;
      && (previousData.Valid() ==> cur.Valid())
      && (KeyedByRow(previousData) ==> KeyedByRow(cur))
      && |previousData.keys| <= |cur.keys|
      && cur.keys[..|previousData.keys|] == previousData.keys
      && forall k :: (forall i :: 0 <= i < |rows| ==> RowKey(rows[i]) != k) ==> cur.Get(k) == previousData.Get(k)
  {
    var cur := Reconciled(previousData, rows).previousData;
    ReconciledIsPutRows(previousData, rows);
    PutRowsKeys(previousData, Reconciled(previousData, rows).updates);
    forall k | forall i :: 0 <= i < |rows| ==> RowKey(rows[i]) != k
      ensures cur.Get(k) == previousData.Get(k)
    {
      UntouchedKey(previousData, rows, k);
    }
  }

  lemma UntouchedKey(previousData: PreviousData, rows: seq<CurrencyRow>, k: string)
    requires forall i :: 0 <= i < |rows| ==> RowKey(rows[i]) != k
    ensures Reconciled(previousData, rows).previousData.Get(k) == previousData.Get(k)
  {
    var r := Reconciled(previousData, rows);
    ReconciledIsPutRows(previousData, rows);
    UpdatesFromRows(previousData, rows);
    forall j | 0 <= j < |r.updates| ensures RowKey(r.updates[j]) != k {
      var i :| 0 <= i < |rows| && rows[i] == r.updates[j];
    }
    PutRowsUntouched(previousData, r.updates, k);
  }

  /** With nothing queued the snapshot is untouched. */
  lemma {:induction false} NoUpdatesNoChange(previousData: PreviousData, rows: seq<CurrencyRow>)
    requires Reconciled(previousData, rows).updates == []
    ensures Reconciled(previousData, rows).previousData == previousData
  {
    if rows != [] {
      NoUpdatesNoChange(previousData, rows[..|rows| - 1]);
    }
  }

  /** Whether a row's key comes again later in the list. */
  predicate LastOfKey(rows: seq<CurrencyRow>, i: nat)
    requires i < |rows|
  {
    forall j :: i < j < |rows| ==> RowKey(rows[j]) != RowKey(rows[i])
  }

  /** After the loop, the last row with each key is stored within a penny of what is stored for it. */
  lemma {:induction false} ReconciledCurrent(previousData: PreviousData, rows: seq<CurrencyRow>, i: nat)
    requires i < |rows| && LastOfKey(rows, i)
    ensures Reconciled(previousData, rows).previousData.Get(RowKey(rows[i])).Some?
    ensures !IsCurrencyChanged(Reconciled(previousData, rows).previousData.Get(RowKey(rows[i])).value, rows[i])
  {
    var init := rows[..|rows| - 1];
    var row := rows[|rows| - 1];
    var s := Reconciled(previousData, init);
    if i == |rows| - 1 {
      UnchangedOnEqualRates(row, row);
    } else {
      assert LastOfKey(init, i) by {
        assert forall j :: i < j < |init| ==> init[j] == rows[j];
      }
      ReconciledCurrent(previousData, init, i);
      assert RowKey(row) != RowKey(rows[i]);
    }
  }

  /** A snapshot that already holds every row within a penny queues nothing and stays as it is. */
  lemma {:induction false} StableQueuesNothing(m: PreviousData, rows: seq<CurrencyRow>)
    requires forall i :: 0 <= i < |rows| ==>
      m.Get(RowKey(rows[i])).Some? && !IsCurrencyChanged(m.Get(RowKey(rows[i])).value, rows[i])
    ensures Reconciled(m, rows) == Reconciliation(m, [])
  {
    if rows != [] {
      StableQueuesNothing(m, rows[..|rows| - 1]);
    }
  }

  /** Distinct (currencyCodeA, currencyCodeB) pairs. */
  predicate DistinctPairs(rows: seq<CurrencyRow>) {
    forall i, j :: 0 <= i < j < |rows| ==>
      (rows[i].currencyCodeA, rows[i].currencyCodeB) != (rows[j].currencyCodeA, rows[j].currencyCodeB)
  }

  /** Running the loop again on the same rows, with distinct currency pairs, queues nothing. */
  lemma Idempotent(previousData: PreviousData, rows: seq<CurrencyRow>)
    requires DistinctPairs(rows)
    ensures var cur := Reconciled(previousData, rows).previousData;
      Reconciled(cur, rows) == Reconciliation(cur, [])
  {
    var cur := Reconciled(previousData, rows).previousData;
    forall i | 0 <= i < |rows|
      ensures cur.Get(RowKey(rows[i])).Some? && !IsCurrencyChanged(cur.Get(RowKey(rows[i])).value, rows[i])
    {
      forall j | i < j < |rows| ensures RowKey(rows[j]) != RowKey(rows[i]) {
        CurrencyKeyInjective(rows[i].currencyCodeA, rows[i].currencyCodeB, rows[j].currencyCodeA, rows[j].currencyCodeB);
      }
      ReconciledCurrent(previousData, rows, i);
    }
    StableQueuesNothing(cur, rows);
  }

  /** Two rows for one pair that differ from each other in a rate are both queued when the first one is. */
  lemma ChangedPairQueued(p: PreviousData, a: CurrencyRow, b: CurrencyRow)
    requires RowKey(a) == RowKey(b) && IsCurrencyChanged(a, b) && ShouldUpdate(p, a)
    ensures Reconciled(p, [a, b]).updates == [a, b]
    ensures Reconciled(p, [a, b]).previousData.Get(RowKey(b)) == Some(b)
  {
    var s0 := Reconciliation(p, []);
    assert [a, b][..1] == [a] && [a][..0] == [];
    assert Reconciled(p, [a]) == Step(s0, a);
    var s1 := Step(s0, a);
    StepSpec(s0, a);
    assert s1.updates == [a];
    StepSpec(s1, b);
  }

  /** Without distinct pairs a second run can queue again: two rows for one pair a hryvnia apart. */
  lemma DuplicatePairsRequeue()
    ensures var a := CurrencyRow(840, 980, 1, Decimal(4100, 2));
      var b := a.(rateBuy := Decimal(4200, 2));
      var cur := Reconciled(Empty(), [a, b]).previousData;
      Reconciled(cur, [a, b]).updates == [a, b]
  {
    var a := CurrencyRow(840, 980, 1, Decimal(4100, 2));
    var b := a.(rateBuy := Decimal(4200, 2));
    PennyValues();
    assert IsCurrencyChanged(a, b) && IsCurrencyChanged(b, a);
    var e: PreviousData := Empty();
    ChangedPairQueued(e, a, b);
    var cur := Reconciled(e, [a, b]).previousData;
    ChangedPairQueued(cur, a, b);
  }

  /** The key of a USD/UAH row. */
  lemma UsdUahKey(date: int)
    ensures RowKey(CurrencyRow(840, 980, date)) == "840:980"
  {
    assert NatToDigits(840) == "840" by {
      assert NatToDigits(8) == "8";
      assert NatToDigits(84) == "84";
    }
    assert NatToDigits(980) == "980" by {
      assert NatToDigits(9) == "9";
      assert NatToDigits(98) == "98";
    }
  }

  /** First run: an empty snapshot and one USD/UAH row store that row under "840:980" and queue it. */
  lemma FirstRun(date: int)
    ensures var row := CurrencyRow(840, 980, date, Decimal(275, 1), Decimal(279, 1), ZeroRate);
      var rec := Reconciled(Empty(), [row]);
      && rec.updates == [row]
      && rec.previousData.keys == ["840:980"]
      && rec.previousData.Get("840:980") == Some(row)
  {
    var row := CurrencyRow(840, 980, date, Decimal(275, 1), Decimal(279, 1), ZeroRate);
    UsdUahKey(date);
    assert RowKey(row) == RowKey(CurrencyRow(840, 980, date));
    var e: PreviousData := Empty();
    assert [row][..0] == [];
    assert Reconciled(e, [row]) == Step(Reconciliation(e, []), row);
  }

  /** An error from the API response, from reading the snapshot sheet, or from the history range. */
  datatype PollError = ApiFailure(api: ApiError) | SheetFailure(sheet: RowError) | HistoryFailure(range: RangeError)

  /** The writes of one poll: rows appended to the history sheet from historyStart, and the full snapshot. */
  datatype Writes = Writes(historyStart: int, history: seq<Entry>, snapshot: seq<Entry>)

  /**
    main() from "currency_rows = monobank.get_currency()" on, with the API response, the snapshot
    sheet and the history row count given as values. It writes only when something was queued.
   */
  method Poll(responseOk: bool, items: seq<Item>, previousSheet: seq<seq<string>>, rowsCount: int)
    returns (r: Result<Option<Writes>, PollError>)
    ensures responseOk && CurrencyRows(items).Failure? ==> r == Failure(ApiFailure(CurrencyRows(items).error))
    ensures (!responseOk || CurrencyRows(items).Success?) && FetchPreviousData(previousSheet).Failure? ==>
      r == Failure(SheetFailure(FetchPreviousData(previousSheet).error))
    ensures (!responseOk || CurrencyRows(items).Success?) && FetchPreviousData(previousSheet).Success? ==> r.Success?
    ensures r.Success? ==>
      && (!responseOk || CurrencyRows(items).Success?)
      && FetchPreviousData(previousSheet).Success?
      && var rows := if responseOk then CurrencyRows(items).value else [];
         var rec := Reconciled(FetchPreviousData(previousSheet).value, rows);
         && (r.value.Some? <==> rec.updates != [])
         && (r.value.Some? ==>
               && r.value.value.historyStart == rowsCount + 1
               && r.value.value.history == HistoryEntries(rowsCount + 1, rec.updates)
               && r.value.value.snapshot == WritePreviousData(rec.previousData)
               && FetchPreviousData(SnapshotSheet(rec.previousData)) == Success(rec.previousData))
  {
    var fetched := GetCurrency(responseOk, items);
    if fetched.Failure? {
      return Failure(ApiFailure(fetched.error));
    }
    var currencyRows := fetched.value;
    var previous := FetchPreviousData(previousSheet);
    if previous.Failure? {
      return Failure(SheetFailure(previous.error));
    }
    var previousData := previous.value;
    var current, currencyUpdateData := Reconcile(previousData, currencyRows);
    if currencyUpdateData == [] {
      return Success(None);
    }
    ReconciledPreserves(previousData, currencyRows);
    SnapshotRoundTrip(current);
    var startRow := rowsCount + 1;
    r := Success(Some(Writes(startRow, HistoryEntries(startRow, currencyUpdateData), WritePreviousData(current))));
  }

  /**
    main() as written: write_currency_data (run.py:69) runs before write_previous_data (run.py:76),
    so when the history range does not unpack, the poll raises with nothing written to either
    sheet. For start rows 0 to 9 it makes exactly the writes Poll makes.
   */
  method PollAsWritten(responseOk: bool, items: seq<Item>, previousSheet: seq<seq<string>>, rowsCount: int)
    returns (r: Result<Option<Writes>, PollError>)
    ensures responseOk && CurrencyRows(items).Failure? ==> r == Failure(ApiFailure(CurrencyRows(items).error))
    ensures (!responseOk || CurrencyRows(items).Success?) && FetchPreviousData(previousSheet).Failure? ==>
      r == Failure(SheetFailure(FetchPreviousData(previousSheet).error))
    ensures (!responseOk || CurrencyRows(items).Success?) && FetchPreviousData(previousSheet).Success? ==>
      var rows := if responseOk then CurrencyRows(items).value else [];
      var rec := Reconciled(FetchPreviousData(previousSheet).value, rows);
      && (rec.updates != [] && !(0 <= rowsCount + 1 <= 9) ==> r == Failure(HistoryFailure(UnpackError)))
      && (rec.updates == [] || 0 <= rowsCount + 1 <= 9 ==> r.Success?)
    ensures r.Success? ==>
      && (!responseOk || CurrencyRows(items).Success?)
      && FetchPreviousData(previousSheet).Success?
      && var rows := if responseOk then CurrencyRows(items).value else [];
         var rec := Reconciled(FetchPreviousData(previousSheet).value, rows);
         && (r.value.Some? <==> rec.updates != [])
         && (r.value.Some? ==>
               && r.value.value.historyStart == rowsCount + 1
               && r.value.value.history == HistoryEntries(rowsCount + 1, rec.updates)
               && r.value.value.snapshot == WritePreviousData(rec.previousData))
  {
    var fetched := GetCurrency(responseOk, items);
    if fetched.Failure? {
      return Failure(ApiFailure(fetched.error));
    }
    var currencyRows := fetched.value;
    var previous := FetchPreviousData(previousSheet);
    if previous.Failure? {
      return Failure(SheetFailure(previous.error));
    }
    var previousData := previous.value;
    var current, currencyUpdateData := Reconcile(previousData, currencyRows);
    if currencyUpdateData == [] {
      return Success(None);
    }
    var startRow := rowsCount + 1;
    if startRow >= 10 || startRow < 0 {
      CurrencyDataFailsFromRowTen(startRow, currencyUpdateData);
    } else {
      CurrencyDataBelowTen(startRow, currencyUpdateData);
    }
    var history := CurrencyDataEntries(startRow, currencyUpdateData);
    if history.Failure? {
      return Failure(HistoryFailure(history.error));
    }
    r := Success(Some(Writes(startRow, history.value, WritePreviousData(current))));
  }

  /**
    write_previous_data rewrites rows 1 to n + 1 of the snapshot sheet and leaves the rows below
    alone. When the sheet read held no repeated key, the rewrite is at least as long as that sheet,
    so no stale row is left below it.
   */
  lemma SnapshotWriteCoversSheet(previousSheet: seq<seq<string>>, rows: seq<CurrencyRow>)
    requires FetchPreviousData(previousSheet).Success?
    requires |FetchPreviousData(previousSheet).value.keys| + 1 >= |previousSheet|
    ensures var cur := Reconciled(FetchPreviousData(previousSheet).value, rows).previousData;
      cur.Valid() && |SnapshotSheet(cur)| >= |previousSheet|
  {
    var m := FetchPreviousData(previousSheet).value;
    ReconciledPreserves(m, rows);
  }
}
