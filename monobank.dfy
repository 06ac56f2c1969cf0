/** Turning the rate list of the monobank API into currency rows (monobank.py). */
module Monobank {
  import opened Wrappers
  import opened Numerals
  import opened Decimals
  import opened Currency
  import opened Sequences

  /**
    A number in the API's JSON: an integer, or a float. A float is kept as the plain
    decimal text Python's str() prints for it, so 41.5 is JFloat(Decimal(415, 1)).
   */
  datatype Json = JInt(n: int) | JFloat(d: Decimal)

  /** One element of the API's list: a dict from field name to number. */
  type Item = map<string, Json>

  /** KeyError on a missing required field; InvalidOperation if a rate's text is not a decimal. */
  datatype ApiError = MissingField(name: string) | BadRate(name: string)

  /** Python's str(v) on a JSON number. */
  function JsonText(v: Json): string {
    match v
    case JInt(n) => FormatInt(n)
    case JFloat(d) => FormatDecimal(d)
  }

  /** Python's int(v): an integer unchanged, a float truncated toward zero. */
  function IntOf(v: Json): int {
    match v
    case JInt(n) => n
    case JFloat(d) =>
      var q := Magnitude(d.coefficient) / Pow10(d.places);
      if d.coefficient < 0 then -q else q
  }

  /** The exact decimal a JSON number stands for: the reference for Decimal(str(v)). */
  function NumberOf(v: Json): Decimal {
    match v
    case JInt(n) => Decimal(n, 0)
    case JFloat(d) => d
  }

  /** The text data.get(key, "0.0") falls back to. */
  const DefaultRateText: string := "0.0"

  /** Decimal(str(item.get(key, "0.0"))). */
  function RateOf(item: Item, key: string): Result<Decimal, ApiError> {
    var text := if key in item then JsonText(item[key]) else DefaultRateText;
    match ParseDecimal(text)
    case Some(d) => Success(d)
    case None => Failure(BadRate(key))
  }

  /** get_currency_row: keyword arguments are evaluated left to right, so the first missing field is reported. */
  function GetCurrencyRow(item: Item): Result<CurrencyRow, ApiError> {
    if "currencyCodeA" !in item then Failure(MissingField("currencyCodeA"))
    else if "currencyCodeB" !in item then Failure(MissingField("currencyCodeB"))
    else if "date" !in item then Failure(MissingField("date"))
    else
      var buy :- RateOf(item, "rateBuy");
      var sell :- RateOf(item, "rateSell");
      var cross :- RateOf(item, "rateCross");
      Success(CurrencyRow(IntOf(item["currencyCodeA"]), IntOf(item["currencyCodeB"]), IntOf(item["date"]), buy, sell, cross))
  }

  /** The three fields get_currency_row indexes without a default. */
  predicate HasRequiredFields(item: Item) {
    "currencyCodeA" in item && "currencyCodeB" in item && "date" in item
  }

  /** Decimal(str(v)) is the number v itself, and the missing-rate default is 0.0. */
  lemma RateOfSpec(item: Item, key: string)
    ensures key in item ==> RateOf(item, key) == Success(NumberOf(item[key]))
    ensures key !in item ==> RateOf(item, key) == Success(ZeroRate)
  {
    DefaultRates(0, 0, 0);
    if key in item {
      var v := item[key];
      DecimalRoundTrip(NumberOf(v));
      if v.JInt? {
        assert JsonText(v) == FormatDecimal(Decimal(v.n, 0));
      }
    }
  }

  /** A rate taken from the API is the rate itself; an absent one is 0.0. */
  function RateField(item: Item, key: string): Decimal {
    if key in item then NumberOf(item[key]) else ZeroRate
  }

  lemma GetCurrencyRowSpec(item: Item)
    ensures GetCurrencyRow(item).Success? <==> HasRequiredFields(item)
    ensures GetCurrencyRow(item).Success? ==>
      GetCurrencyRow(item).value == CurrencyRow(
        IntOf(item["currencyCodeA"]), IntOf(item["currencyCodeB"]), IntOf(item["date"]),
        RateField(item, "rateBuy"), RateField(item, "rateSell"), RateField(item, "rateCross"))
    ensures GetCurrencyRow(item).Failure? ==>
      GetCurrencyRow(item).error == MissingField(
        if "currencyCodeA" !in item then "currencyCodeA"
        else if "currencyCodeB" !in item then "currencyCodeB"
        else "date")
  {
    RateOfSpec(item, "rateBuy");
    RateOfSpec(item, "rateSell");
    RateOfSpec(item, "rateCross");
  }

  /** An item with integer codes and date and no rates becomes a row with those integers and zero rates. */
  lemma GetCurrencyRowCopiesIntegers(codeA: int, codeB: int, date: int)
    ensures GetCurrencyRow(map["currencyCodeA" := JInt(codeA), "currencyCodeB" := JInt(codeB), "date" := JInt(date)])
         == Success(CurrencyRow(codeA, codeB, date))
  {
    var item := map["currencyCodeA" := JInt(codeA), "currencyCodeB" := JInt(codeB), "date" := JInt(date)];
    GetCurrencyRowSpec(item);
  }

  lemma DivBounds(m: nat, p: nat)
    ensures (m / Pow10(p)) as real <= m as real / Pow10(p) as real < (m / Pow10(p) + 1) as real
  {
    var d := Pow10(p);
    DivMod(m, d);
    var q := m / d;
    assert q * d <= m < (q + 1) * d;
    ScaleBounds(q as real, m as real, d as real);
  }

  /** Dividing q * d <= m < (q + 1) * d by d > 0. */
  lemma ScaleBounds(q: real, m: real, d: real)
    requires d > 0.0 && q * d <= m < (q + 1.0) * d
    ensures q <= m / d < q + 1.0
  {
    var r := m / d;
    assert r * d == m;
    ScaleLe(q, r, d);
    ScaleLt(r, q + 1.0, d);
  }

  lemma ScaleLe(x: real, y: real, d: real)
    requires d > 0.0 && x * d <= y * d
    ensures x <= y
  {
  }

  lemma ScaleLt(x: real, y: real, d: real)
    requires d > 0.0 && x * d < y * d
    ensures x < y
  {
  }

  /** int() of a float drops the fractional part, toward zero on both sides. */
  lemma IntOfTruncates(d: Decimal)
    ensures d.coefficient >= 0 ==> IntOf(JFloat(d)) as real <= d.Value() < (IntOf(JFloat(d)) + 1) as real
    ensures d.coefficient < 0 ==> (IntOf(JFloat(d)) - 1) as real < d.Value() <= IntOf(JFloat(d)) as real
  {
    var m, p := Magnitude(d.coefficient), Pow10(d.places);
    DivBounds(m, d.places);
    var q: int, v: real := m / p, m as real / p as real;
    assert q as real <= v < (q + 1) as real;
    if d.coefficient < 0 {
      assert IntOf(JFloat(d)) == -q;
      assert d.coefficient as real == -(m as real);
      NegDiv(m as real, p as real);
    } else {
      assert IntOf(JFloat(d)) == q;
      assert d.Value() == v;
    }
  }

  lemma NegDiv(x: real, y: real)
    requires y != 0.0
    ensures -x / y == -(x / y)
  {
  }

  /** The filter of get_currency: only allow-listed currencyCodeA, whatever currencyCodeB is. */
  predicate Allowed(row: CurrencyRow) {
    row.currencyCodeA in CurrencyMap
  }

  /** What the get_currency loop has produced after the given items: the rows, or the first error. */
  function CurrencyRows(items: seq<Item>): Result<seq<CurrencyRow>, ApiError> {
    if items == [] then Success([])
    else
      var result :- CurrencyRows(items[..|items| - 1]);
      var row :- GetCurrencyRow(items[|items| - 1]);
      Success(if Allowed(row) then result + [row] else result)
  }

  /** get_currency with the HTTP response given as its status and its decoded item list. */
  method GetCurrency(responseOk: bool, items: seq<Item>) returns (r: Result<seq<CurrencyRow>, ApiError>)
    ensures r == if responseOk then CurrencyRows(items) else Success([])
  {
    if !responseOk {
      return Success([]);
    }
    var result: seq<CurrencyRow> := [];
    var i := 0;
    while i < |items|
      invariant 0 <= i <= |items|
      invariant CurrencyRows(items[..i]) == Success(result)
    {
      var row := GetCurrencyRow(items[i]);
      CurrencyRowsSnoc(items, i);
      if row.Failure? {
        FailurePersists(items, i + 1);
        return Failure(row.error);
      }
      i := i + 1;
      if !Allowed(row.value) {
        continue;
      }
      result := result + [row.value];
    }
    assert items[..|items|] == items;
    return Success(result);
  }

  lemma CurrencyRowsSnoc(items: seq<Item>, i: nat)
    requires i < |items|
    ensures CurrencyRows(items[..i + 1]) ==
      match CurrencyRows(items[..i])
      case Failure(e) => Failure(e)
      case Success(result) =>
        match GetCurrencyRow(items[i])
        case Failure(e) => Failure(e)
        case Success(row) => Success(if Allowed(row) then result + [row] else result)
  {
    assert items[..i + 1][..i] == items[..i];
  }

  lemma {:induction false} FailurePersists(items: seq<Item>, j: nat)
    requires j <= |items| && CurrencyRows(items[..j]).Failure?
    ensures CurrencyRows(items) == CurrencyRows(items[..j])
    decreases |items| - j
  {
    if j == |items| {
      assert items[..j] == items;
    } else {
      var init := items[..|items| - 1];
      assert init[..j] == items[..j];
      FailurePersists(init, j);
    }
  }

  // Reference definitions: build every row, then filter.

  function BuildRows(items: seq<Item>): Result<seq<CurrencyRow>, ApiError> {
    MapAll(GetCurrencyRow, items)
  }

  function KeepAllowed(rows: seq<CurrencyRow>): seq<CurrencyRow> {
    Filter(Allowed, rows)
  }

  /** The loop with continue is the filter applied to all the built rows. */
  lemma {:induction false} CurrencyRowsIsFilter(items: seq<Item>)
    ensures CurrencyRows(items).Success? <==> BuildRows(items).Success?
    ensures CurrencyRows(items).Success? ==> CurrencyRows(items).value == KeepAllowed(BuildRows(items).value)
    ensures CurrencyRows(items).Failure? ==> CurrencyRows(items).error == BuildRows(items).error
  {
    if items != [] {
      var init := items[..|items| - 1];
      CurrencyRowsIsFilter(init);
      var last := GetCurrencyRow(items[|items| - 1]);
      if BuildRows(init).Success? && last.Success? {
        var rows := BuildRows(init).value;
        assert BuildRows(items).value == rows + [last.value];
        assert (rows + [last.value])[..|rows|] == rows;
      }
    }
  }

  /** The API call succeeds exactly when every item has its required fields, with one row per item. */
  lemma BuildRowsSpec(items: seq<Item>)
    ensures BuildRows(items).Success? <==> forall i :: 0 <= i < |items| ==> HasRequiredFields(items[i])
    ensures BuildRows(items).Success? ==>
      |BuildRows(items).value| == |items| &&
      forall i :: 0 <= i < |items| ==> GetCurrencyRow(items[i]) == Success(BuildRows(items).value[i])
  {
    MapAllSpec(GetCurrencyRow, items);
    forall i | 0 <= i < |items| ensures GetCurrencyRow(items[i]).Success? <==> HasRequiredFields(items[i]) {
      GetCurrencyRowSpec(items[i]);
    }
  }

  /** get_currency's result: allow-listed rows only, each allow-listed item's row, in item order. */
  lemma GetCurrencyFilters(items: seq<Item>)
    requires forall i :: 0 <= i < |items| ==> HasRequiredFields(items[i])
    ensures CurrencyRows(items).Success? && BuildRows(items).Success? && |BuildRows(items).value| == |items|
    ensures forall i :: 0 <= i < |items| ==>
      HasRequiredFields(items[i]) && BuildRows(items).value[i].currencyCodeA == IntOf(items[i]["currencyCodeA"])
    ensures var rows := CurrencyRows(items).value;
      && (forall k :: 0 <= k < |rows| ==> rows[k].currencyCodeA in CurrencyMap)
      && (forall i :: 0 <= i < |items| && BuildRows(items).value[i].currencyCodeA in CurrencyMap ==>
            BuildRows(items).value[i] in rows)
      && IsSubsequence(rows, BuildRows(items).value)
      && |rows| <= |items|
  {
    BuildRowsSpec(items);
    CurrencyRowsIsFilter(items);
    var built := BuildRows(items).value;
    FilterOnlyPasses(Allowed, built);
    FilterKeepsPasses(Allowed, built);
    FilterIsSubsequence(Allowed, built);
    forall i | 0 <= i < |items| ensures built[i].currencyCodeA == IntOf(items[i]["currencyCodeA"]) {
      GetCurrencyRowSpec(items[i]);
    }
  }
}
