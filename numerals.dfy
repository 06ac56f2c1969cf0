/**
  Decimal text of integers, as Python's str(int) writes it and int(str) reads it
  (the subset of int()'s grammar that str() produces: an optional '-' and ASCII digits).
 */
module Numerals {
  import opened Wrappers

  predicate IsDigit(c: char) {
    '0' <= c <= '9'
  }

  predicate AllDigits(s: string) {
    forall i :: 0 <= i < |s| ==> IsDigit(s[i])
  }

  function DigitValue(c: char): (d: nat)
    requires IsDigit(c)
    ensures d < 10
  {
    c as int - '0' as int
  }

  function DigitChar(d: nat): (c: char)
    requires d < 10
    ensures IsDigit(c) && DigitValue(c) == d
  {
    ('0' as int + d) as char
  }

  function Pow10(n: nat): (p: nat)
    ensures p >= 1
  {
    if n == 0 then 1 else 10 * Pow10(n - 1)
  }

  /** Euclidean division of naturals, stated once for the callers below. */
  lemma DivMod(m: nat, d: nat)
    requires d >= 1
    ensures 0 <= m / d && 0 <= m % d < d && (m / d) * d + m % d == m
  {
  }

  /** n zero digits. */
  function Zeros(n: nat): (s: string)
    ensures |s| == n && AllDigits(s)
  {
    seq(n, _ => '0')
  }

  /** The digits of n, most significant first, with no leading zero: Python's str(n) for n >= 0. */
  function NatToDigits(n: nat): (s: string)
    ensures |s| >= 1 && AllDigits(s)
  {
    if n < 10 then [DigitChar(n)] else NatToDigits(n / 10) + [DigitChar(n % 10)]
  }

  /** The number a string of digits denotes (leading zeros allowed, as int() allows them). */
  function DigitsToNat(s: string): nat
    requires AllDigits(s)
  {
    if s == [] then 0 else DigitsToNat(s[..|s| - 1]) * 10 + DigitValue(s[|s| - 1])
  }

  lemma {:induction false} DigitsRoundTrip(n: nat)
    ensures DigitsToNat(NatToDigits(n)) == n
  {
    if n >= 10 {
      var s := NatToDigits(n);
      assert s[..|s| - 1] == NatToDigits(n / 10);
      DigitsRoundTrip(n / 10);
    }
  }

  /** A number below 10^k takes at most k digits. */
  lemma {:induction false} DigitsLength(n: nat, k: nat)
    requires k >= 1 && n < Pow10(k)
    ensures |NatToDigits(n)| <= k
  {
    if n >= 10 {
      assert Pow10(k) == 10 * Pow10(k - 1);
      assert n / 10 < Pow10(k - 1);
      DigitsLength(n / 10, k - 1);
    }
  }

  /** Reading a + b: the digits of a are shifted left by |b| places. */
  lemma {:induction false} DigitsConcat(a: string, b: string)
    requires AllDigits(a) && AllDigits(b)
    ensures AllDigits(a + b)
    ensures DigitsToNat(a + b) == DigitsToNat(a) * Pow10(|b|) + DigitsToNat(b)
    decreases |b|
  {
    if b != [] {
      var b', c := b[..|b| - 1], b[|b| - 1];
      assert (a + b)[..|a + b| - 1] == a + b';
      assert (a + b)[|a + b| - 1] == c;
      DigitsConcat(a, b');
      var x, y, p := DigitsToNat(a), DigitsToNat(b'), Pow10(|b'|);
      assert DigitsToNat(a + b) == DigitsToNat(a + b') * 10 + DigitValue(c);
      assert DigitsToNat(b) == y * 10 + DigitValue(c);
      assert Pow10(|b|) == 10 * p;
      ShiftStep(x, y, p, DigitValue(c));
    } else {
      assert a + b == a;
    }
  }

  /** One more digit on the right: (x * p + y) * 10 + c, regrouped. */
  lemma ShiftStep(x: int, y: int, p: int, c: int)
    ensures (x * p + y) * 10 + c == x * (10 * p) + (y * 10 + c)
  {
  }

  lemma {:induction false} ZerosValue(n: nat)
    ensures DigitsToNat(Zeros(n)) == 0
  {
    if n > 0 {
      assert Zeros(n)[..n - 1] == Zeros(n - 1);
      ZerosValue(n - 1);
    }
  }

  /** The first position of c in s, or |s| when there is none. */
  function IndexOf(s: string, c: char): (k: nat)
    ensures k <= |s|
    ensures k < |s| ==> s[k] == c
    ensures forall j :: 0 <= j < k ==> s[j] != c
  {
    if s == [] then 0 else if s[0] == c then 0 else 1 + IndexOf(s[1..], c)
  }

  lemma IndexOfSeparator(x: string, c: char, u: string)
    requires c !in x
    ensures IndexOf(x + [c] + u, c) == |x|
  {
    var s := x + [c] + u;
    assert s[|x|] == c;
  }

  /** Splitting at the first c recovers both parts when the first part has no c. */
  lemma SplitAtFirst(x: string, c: char, u: string, y: string, v: string)
    requires c !in x && c !in y
    requires x + [c] + u == y + [c] + v
    ensures x == y && u == v
  {
    var s := x + [c] + u;
    IndexOfSeparator(x, c, u);
    IndexOfSeparator(y, c, v);
    assert x == s[..|x|] && u == s[|x| + 1..];
    assert y == s[..|y|] && v == s[|y| + 1..];
  }

  /** Python's str(i). */
  function FormatInt(i: int): (s: string)
    ensures |s| >= 1
    ensures s[0] == '-' <==> i < 0
  {
    if i < 0 then "-" + NatToDigits(-i) else NatToDigits(i)
  }

  /** Python's int(s) on an optional '-' followed by ASCII digits; None where int() raises ValueError. */
  function ParseInt(s: string): Option<int> {
    if |s| >= 2 && s[0] == '-' && AllDigits(s[1..]) then Some(-(DigitsToNat(s[1..]) as int))
    else if |s| >= 1 && AllDigits(s) then Some(DigitsToNat(s) as int)
    else None
  }

  lemma IntRoundTrip(i: int)
    ensures ParseInt(FormatInt(i)) == Some(i)
  {
    var s := FormatInt(i);
    if i < 0 {
      assert s[1..] == NatToDigits(-i);
      DigitsRoundTrip(-i);
    } else {
      DigitsRoundTrip(i);
    }
  }

  /** str(i) holds only digits and '-', so it never contains a separator such as ':' or '.'. */
  lemma FormatIntChars(i: int)
    ensures forall k :: 0 <= k < |FormatInt(i)| ==> IsDigit(FormatInt(i)[k]) || FormatInt(i)[k] == '-'
  {
  }

  lemma FormatIntInjective(i: int, j: int)
    ensures FormatInt(i) == FormatInt(j) <==> i == j
  {
    IntRoundTrip(i);
    IntRoundTrip(j);
  }

  /** A single character parses as an integer exactly when it is a digit. */
  lemma ParseOneChar(c: char)
    ensures ParseInt([c]).Some? <==> IsDigit(c)
    ensures IsDigit(c) ==> ParseInt([c]) == Some(DigitValue(c))
  {
    if IsDigit(c) {
      assert [c][..0] == [];
      assert DigitsToNat([c]) == DigitValue(c);
    }
  }
}
