/**
  Python's decimal.Decimal in plain notation, as the rates are read and written.
  Decimal(c, p) stands for c x 10^-p and keeps its number of fractional places, as
  Python does: Decimal("27.50") is Decimal(2750, 2) and Decimal("27.5") is Decimal(275, 1);
  the two are different representations of one Value().
 */
module Decimals {
  import opened Wrappers
  import opened Numerals

  datatype Decimal = Decimal(coefficient: int, places: nat) {

    /** The exact number this decimal denotes. */
    function Value(): real {
      coefficient as real / Pow10(places) as real
    }
  }

  function Abs(x: real): (r: real)
    ensures r >= 0.0 && (r == x || r == -x)
  {
    if x < 0.0 then -x else x
  }

  function Magnitude(c: int): (m: nat)
    ensures m == c || m == -c
  {
    if c < 0 then -c else c
  }

  /** s with zeros in front up to n characters: the fractional digits of a decimal with n places. */
  function PadDigits(s: string, n: nat): string {
    if |s| < n then Zeros(n - |s|) + s else s
  }

  /** The unsigned text of m x 10^-p: the integer part, then '.' and exactly p fractional digits when p > 0. */
  function PlainText(m: nat, p: nat): string {
    if p == 0 then NatToDigits(m)
    else
      var d := Pow10(p);
      DivMod(m, d);
      NatToDigits(m / d) + "." + PadDigits(NatToDigits(m % d), p)
  }

  /** Python's str(d) for a decimal in plain notation: str(Decimal("0.05")) is "0.05". */
  function FormatDecimal(d: Decimal): (s: string)
    ensures |s| >= 1 && (s[0] == '-' <==> d.coefficient < 0)
  {
    var t := PlainText(Magnitude(d.coefficient), d.places);
    assert |t| >= 1 && IsDigit(t[0]) by {
      if d.places > 0 {
        var m := Magnitude(d.coefficient);
        assert t[0] == NatToDigits(m / Pow10(d.places))[0];
      }
    }
    (if d.coefficient < 0 then "-" else "") + t
  }

  /** Decimal(s) for digits with an optional fractional part; None where Python raises InvalidOperation. */
  function ParseUnsigned(body: string): Option<Decimal> {
    var dot := IndexOf(body, '.');
    var whole := body[..dot];
    var frac := if dot < |body| then body[dot + 1..] else "";
    if |whole| >= 1 && AllDigits(whole) && (dot == |body| || (|frac| >= 1 && AllDigits(frac))) then
      Some(FromParts(whole, frac))
    else
      None
  }

  /** The decimal whole.frac denotes, with one place per fractional digit. */
  function FromParts(whole: string, frac: string): Decimal
    requires AllDigits(whole) && AllDigits(frac)
  {
    Decimal(DigitsToNat(whole) * Pow10(|frac|) + DigitsToNat(frac), |frac|)
  }

  /** Python's Decimal(s) on [-]digits[.digits]. */
  function ParseDecimal(s: string): Option<Decimal> {
    if |s| >= 1 && s[0] == '-' then
      match ParseUnsigned(s[1..])
      case Some(d) => Some(Decimal(-d.coefficient, d.places))
      case None => None
    else
      ParseUnsigned(s)
  }

  /** The padded fractional digits of r < 10^p take exactly p characters and read back as r. */
  lemma PadDigitsValue(r: nat, p: nat)
    requires p >= 1 && r < Pow10(p)
    ensures |PadDigits(NatToDigits(r), p)| == p
    ensures AllDigits(PadDigits(NatToDigits(r), p))
    ensures DigitsToNat(PadDigits(NatToDigits(r), p)) == r
  {
    DigitsLength(r, p);
    DigitsRoundTrip(r);
    PadKeepsValue(NatToDigits(r), p);
  }

  /** Leading zeros up to p characters do not change the number the digits denote. */
  lemma PadKeepsValue(s: string, p: nat)
    requires AllDigits(s) && |s| <= p
    ensures |PadDigits(s, p)| == p && AllDigits(PadDigits(s, p))
    ensures DigitsToNat(PadDigits(s, p)) == DigitsToNat(s)
  {
    if |s| < p {
      var z := Zeros(p - |s|);
      assert PadDigits(s, p) == z + s;
      DigitsConcat(z, s);
      ZerosValue(p - |s|);
      assert DigitsToNat(z) * Pow10(|s|) == 0;
    }
  }

  /** Reading w.f: the whole digits scaled by 10^|f|, plus the fractional digits, with |f| places. */
  lemma ParseWithPoint(w: string, f: string)
    requires |w| >= 1 && AllDigits(w) && |f| >= 1 && AllDigits(f)
    ensures ParseUnsigned(w + "." + f) == Some(FromParts(w, f))
  {
    PointSplit(w, f);
    ParseAt(w + "." + f, w, f);
  }

  /** In w.f with w all digits, the first point follows w. */
  lemma PointSplit(w: string, f: string)
    requires AllDigits(w)
    ensures var u := w + "." + f;
      IndexOf(u, '.') == |w| < |u| && u[..|w|] == w && u[|w| + 1..] == f
  {
    var u := w + "." + f;
    assert u == w + ['.'] + f;
    assert '.' !in w by {
      forall k | 0 <= k < |w| ensures w[k] != '.' {
        assert IsDigit(w[k]);
      }
    }
    IndexOfSeparator(w, '.', f);
    assert u[..|w|] == w;
    assert u[|w| + 1..] == f;
  }

  /** ParseUnsigned on a text whose first point splits it into the digits w and f. */
  lemma ParseAt(u: string, w: string, f: string)
    requires IndexOf(u, '.') == |w| < |u| && u[..|w|] == w && u[|w| + 1..] == f
    requires |w| >= 1 && AllDigits(w) && |f| >= 1 && AllDigits(f)
    ensures ParseUnsigned(u) == Some(FromParts(w, f))
  {
  }

  /** Reading digits with no point: an integer with no places. */
  lemma ParseWithoutPoint(w: string)
    requires |w| >= 1 && AllDigits(w)
    ensures ParseUnsigned(w) == Some(FromParts(w, ""))
  {
    assert IndexOf(w, '.') == |w| by {
      forall k | 0 <= k < |w| ensures w[k] != '.' {
        assert IsDigit(w[k]);
      }
    }
    assert w[..|w|] == w;
  }

  lemma PlainRoundTrip(m: nat, p: nat)
    ensures |PlainText(m, p)| >= 1 && IsDigit(PlainText(m, p)[0])
    ensures ParseUnsigned(PlainText(m, p)) == Some(Decimal(m, p))
  {
    if p == 0 {
      DigitsRoundTrip(m);
      ParseWithoutPoint(NatToDigits(m));
      assert FromParts(NatToDigits(m), "") == Decimal(m, 0);
    } else {
      var d := Pow10(p);
      DivMod(m, d);
      var q, r := m / d, m % d;
      var w, f := NatToDigits(q), PadDigits(NatToDigits(r), p);
      assert PlainText(m, p) == w + "." + f;
      PadDigitsValue(r, p);
      DigitsRoundTrip(q);
      ParseWithPoint(w, f);
      assert q * d + r == m;
      assert FromParts(w, f) == Decimal(m, p);
    }
  }

  /** Decimal(str(d)) == d, keeping the number of places. */
  lemma DecimalRoundTrip(d: Decimal)
    ensures ParseDecimal(FormatDecimal(d)) == Some(d)
  {
    var m := Magnitude(d.coefficient);
    var u := PlainText(m, d.places);
    PlainRoundTrip(m, d.places);
    if d.coefficient < 0 {
      assert FormatDecimal(d)[1..] == u;
    } else {
      assert FormatDecimal(d) == u;
    }
  }
}
