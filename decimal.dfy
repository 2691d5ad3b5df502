/**
 * Decimal digits, as the emitter and the key comparator see them:
 * strconv.Itoa / fmt's rendering of an int, and strconv.ParseInt(_, 10, 64)
 * applied to a run of digits.
 */
module Decimal {
  import opened Wrappers

  /** The model's unicode.IsDigit: the ASCII decimal digits. */
  predicate IsDigit(c: char)
  {
    '0' <= c <= '9'
  }

  predicate AllDigits(d: string)
  {
    forall i :: 0 <= i < |d| ==> IsDigit(d[i])
  }

  function DigitValue(c: char): (v: nat)
    requires IsDigit(c)
    ensures v < 10
  {
    (c as int) - ('0' as int)
  }

  function DigitChar(v: nat): (c: char)
    requires v < 10
    ensures IsDigit(c) && DigitValue(c) == v
  {
    (('0' as int) + v) as char
  }

  /** The value of a run of decimal digits, most significant digit first. */
  function DigitsValue(d: string): nat
    requires AllDigits(d)
  {
    if d == [] then 0 else DigitsValue(d[..|d| - 1]) * 10 + DigitValue(d[|d| - 1])
  }

  /** The largest int64, the bound strconv.ParseInt(_, 10, 64) enforces. */
  const MaxInt64: nat := 0x7FFF_FFFF_FFFF_FFFF

  /** strconv.ParseInt(d, 10, 64) on a run of ASCII digits: the value, or a range error. */
  function ParseInt(d: string): Option<nat>
    requires AllDigits(d)
  {
    if DigitsValue(d) <= MaxInt64 then Some(DigitsValue(d)) else None
  }

  /** Shortest decimal rendering of a natural number (strconv.Itoa on a non-negative int). */
  function NatToDecimal(n: nat): (r: string)
    ensures |r| >= 1 && AllDigits(r)
    ensures |r| > 1 ==> r[0] != '0'
  {
    if n < 10 then [DigitChar(n)] else NatToDecimal(n / 10) + [DigitChar(n % 10)]
  }

  /** strconv.Itoa and fmt's %v on an int: a minus sign for negative values, then the digits. */
  function IntToDecimal(i: int): string
  {
    if i < 0 then "-" + NatToDecimal(-i) else NatToDecimal(i)
  }

  /** A rendered int is a non-empty run of digits, with a minus sign only in front. */
  lemma IntToDecimalChars(i: int)
    ensures |IntToDecimal(i)| >= 1
    ensures forall k :: 0 <= k < |IntToDecimal(i)| ==> IsDigit(IntToDecimal(i)[k]) || (k == 0 && IntToDecimal(i)[k] == '-')
  {
  }

  /** Reading back a rendered number gives the number: the renderer and the parser are inverse. */
  lemma {:induction false} NatToDecimalRoundTrip(n: nat)
    ensures DigitsValue(NatToDecimal(n)) == n
  {
    if n >= 10 {
      var d := NatToDecimal(n);
      assert d[..|d| - 1] == NatToDecimal(n / 10);
      NatToDecimalRoundTrip(n / 10);
    }
  }

  lemma NatToDecimalInjective(m: nat, n: nat)
    requires NatToDecimal(m) == NatToDecimal(n)
    ensures m == n
  {
    NatToDecimalRoundTrip(m);
    NatToDecimalRoundTrip(n);
  }

  /** Distinct ints render to distinct texts. */
  lemma IntToDecimalInjective(i: int, j: int)
    requires IntToDecimal(i) == IntToDecimal(j)
    ensures i == j
  {
    var a, b := IntToDecimal(i), IntToDecimal(j);
    SignShows(i);
    SignShows(j);
    if i < 0 && j < 0 {
      assert NatToDecimal(-i) == a[1..] == b[1..] == NatToDecimal(-j);
      NatToDecimalInjective(-i, -j);
    } else if i >= 0 && j >= 0 {
      NatToDecimalInjective(i, j);
    }
  }

  /** The first character of a rendered int tells its sign. */
  lemma SignShows(i: int)
    ensures IntToDecimal(i)[0] == '-' <==> i < 0
  {
    if i >= 0 {
      assert IsDigit(NatToDecimal(i)[0]);
    }
  }

  /** A leading zero does not change the value of a digit run. */
  lemma {:induction false} LeadingZeroValue(d: string)
    requires AllDigits(d)
    ensures AllDigits(['0'] + d) && DigitsValue(['0'] + d) == DigitsValue(d)
  {
    var z := ['0'] + d;
    if d != [] {
      assert z[..|z| - 1] == ['0'] + d[..|d| - 1];
      LeadingZeroValue(d[..|d| - 1]);
    }
  }
}
