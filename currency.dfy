/** The rate record, the currency allow-list and the change predicate (currency.py). */
module Currency {
  import opened Wrappers
  import opened Numerals
  import opened Decimals

  /** Decimal("0.0"), the default of every rate. */
  const ZeroRate: Decimal := Decimal(0, 1)

  /** ONE_PENNY = Decimal("0.01"), the smallest difference that counts as a change. */
  const OnePenny: Decimal := Decimal(1, 2)

  /** CURRENCY_MAP: the currencies of interest, by ISO 4217 numeric code. */
  const CurrencyMap: map<int, string> := map[980 := "uah", 840 := "usd", 978 := "eur", 643 := "rub", 985 := "pln"]

  /** The frozen dataclass CurrencyRow; equality is field by field. */
  datatype CurrencyRow = CurrencyRow(
    currencyCodeA: int,
    currencyCodeB: int,
    date: int,
    rateBuy: Decimal := ZeroRate,
    rateSell: Decimal := ZeroRate,
    rateCross: Decimal := ZeroRate)

  /** x lies strictly within one penny of y, written without abs. */
  predicate WithinPenny(x: Decimal, y: Decimal) {
    y.Value() - 0.01 < x.Value() < y.Value() + 0.01
  }

  lemma PennyValues()
    ensures OnePenny.Value() == 0.01
    ensures ZeroRate.Value() == 0.0
  {
  }

  /** is_currency_changed: some rate moved by at least ONE_PENNY. */
  function IsCurrencyChanged(a: CurrencyRow, b: CurrencyRow): (changed: bool)
    ensures !changed <==>
      WithinPenny(a.rateBuy, b.rateBuy) && WithinPenny(a.rateSell, b.rateSell) && WithinPenny(a.rateCross, b.rateCross)
  {
    PennyValues();
    || Abs(a.rateBuy.Value() - b.rateBuy.Value()) >= OnePenny.Value()
    || Abs(a.rateSell.Value() - b.rateSell.Value()) >= OnePenny.Value()
    || Abs(a.rateCross.Value() - b.rateCross.Value()) >= OnePenny.Value()
  }

  lemma ChangedIsSymmetric(a: CurrencyRow, b: CurrencyRow)
    ensures IsCurrencyChanged(a, b) == IsCurrencyChanged(b, a)
  {
  }

  /** Rows whose rates have the same values (in particular a row and itself) are never changed. */
  lemma UnchangedOnEqualRates(a: CurrencyRow, b: CurrencyRow)
    requires a.rateBuy.Value() == b.rateBuy.Value()
    requires a.rateSell.Value() == b.rateSell.Value()
    requires a.rateCross.Value() == b.rateCross.Value()
    ensures !IsCurrencyChanged(a, b) && !IsCurrencyChanged(a, a)
  {
  }

  /** The currency codes and the date play no part in the decision. */
  lemma ChangeIgnoresIdentity(a: CurrencyRow, b: CurrencyRow, codeA: int, codeB: int, date: int)
    ensures IsCurrencyChanged(a.(currencyCodeA := codeA, currencyCodeB := codeB, date := date), b)
         == IsCurrencyChanged(a, b)
    ensures !IsCurrencyChanged(a.(currencyCodeA := codeA, currencyCodeB := codeB, date := date), a)
  {
  }

  /** 27.00 against 27.01 is a change; 27.00 against 27.00999 is not. */
  lemma PennyBoundary(a: CurrencyRow)
    requires a.rateBuy == Decimal(2700, 2)
    ensures IsCurrencyChanged(a, a.(rateBuy := Decimal(2701, 2)))
    ensures !IsCurrencyChanged(a, a.(rateBuy := Decimal(2700999, 5)))
  {
  }

  /** "27.50" and "27.5" are different texts of one value, and switching between them is no change. */
  lemma DecimalExactness(a: CurrencyRow)
    requires a.rateSell == Decimal(2750, 2)
    ensures FormatDecimal(Decimal(2750, 2)) == "27.50"
    ensures FormatDecimal(Decimal(275, 1)) == "27.5"
    ensures ParseDecimal("27.50") == Some(Decimal(2750, 2)) && ParseDecimal("27.5") == Some(Decimal(275, 1))
    ensures Decimal(2750, 2).Value() == Decimal(275, 1).Value()
    ensures !IsCurrencyChanged(a, a.(rateSell := Decimal(275, 1)))
  {
    ExactnessTexts();
    DecimalRoundTrip(Decimal(2750, 2));
    DecimalRoundTrip(Decimal(275, 1));
    assert Pow10(1) == 10 && Pow10(2) == 100;
    UnchangedOnEqualRates(a, a.(rateSell := Decimal(275, 1)));
  }

  lemma ExactnessTexts()
    ensures FormatDecimal(Decimal(2750, 2)) == "27.50"
    ensures FormatDecimal(Decimal(275, 1)) == "27.5"
  {
    assert Pow10(1) == 10 && Pow10(2) == 100;
    assert NatToDigits(27) == "27" by {
      assert NatToDigits(2) == "2";
    }
    assert NatToDigits(50) == "50" by {
      assert NatToDigits(5) == "5";
    }
    assert PlainText(2750, 2) == "27" + "." + PadDigits("50", 2);
    assert PlainText(275, 1) == "27" + "." + PadDigits("5", 1);
  }

  /** A row built without rates has all three rates equal to Decimal("0.0"). */
  lemma DefaultRates(codeA: int, codeB: int, date: int)
    ensures var row := CurrencyRow(codeA, codeB, date);
      row.rateBuy == row.rateSell == row.rateCross == ZeroRate && ZeroRate.Value() == 0.0
    ensures ParseDecimal("0.0") == Some(ZeroRate)
  {
    assert ParseDecimal(FormatDecimal(ZeroRate)) == Some(ZeroRate) by { DecimalRoundTrip(ZeroRate); }
    assert FormatDecimal(ZeroRate) == "0.0";
  }

  lemma AllowList()
    ensures CurrencyMap.Keys == {980, 840, 978, 643, 985}
  {
  }
}
