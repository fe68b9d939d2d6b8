/** Decimal notation of a natural number, as Rust's `format!("{}", n)` writes
    an unsigned integer: digits only, most significant first, no leading
    zero except for the number zero itself. */
module Numerals {
  import opened Prelude

  predicate IsDigit(c: char) {
    '0' <= c <= '9'
  }

  function DigitChar(d: nat): (c: char)
    requires d < 10
    ensures IsDigit(c)
  {
    ['0', '1', '2', '3', '4', '5', '6', '7', '8', '9'][d]
  }

  function DigitValue(c: char): (d: nat)
    requires IsDigit(c)
    ensures d < 10
  {
    (c as int - '0' as int) as nat
  }

  /** The decimal notation of `n`. */
  function Decimal(n: nat): (s: string)
    ensures |s| >= 1
    ensures forall i :: 0 <= i < |s| ==> IsDigit(s[i])
    ensures |s| > 1 ==> s[0] != '0'
    decreases n
  {
    if n < 10 then [DigitChar(n)] else Decimal(n / 10) + [DigitChar(n % 10)]
  }

  /** The value of a string of digits. */
  function DigitsValue(s: string): nat
    requires forall i :: 0 <= i < |s| ==> IsDigit(s[i])
  {
    if s == [] then 0 else 10 * DigitsValue(s[..|s| - 1]) + DigitValue(s[|s| - 1])
  }

  /** Reads back what `Decimal` writes: a non-empty string of digits without
      a superfluous leading zero. */
  function ParseDecimal(s: string): Option<nat> {
    if |s| >= 1 && (forall i :: 0 <= i < |s| ==> IsDigit(s[i])) && (|s| == 1 || s[0] != '0')
    then Some(DigitsValue(s))
    else None
  }

  lemma DigitRoundTrip(d: nat)
    requires d < 10
    ensures DigitValue(DigitChar(d)) == d
  {
  }

  lemma {:induction false} DecimalValue(n: nat)
    ensures DigitsValue(Decimal(n)) == n
    decreases n
  {
    DigitRoundTrip(n % 10);
    if n >= 10 {
      DecimalValue(n / 10);
      var s := Decimal(n);
      assert s[..|s| - 1] == Decimal(n / 10);
    }
  }

  /** A digit string without a leading zero has a positive value. */
  lemma {:induction false} DigitsValuePositive(t: string)
    requires |t| >= 1 && forall i :: 0 <= i < |t| ==> IsDigit(t[i])
    requires t[0] != '0'
    ensures DigitsValue(t) > 0
    decreases |t|
  {
    if |t| > 1 {
      DigitsValuePositive(t[..|t| - 1]);
    }
  }

  /** A canonical string of digits is the decimal notation of its value. */
  lemma {:induction false} DecimalOfDigits(t: string)
    requires |t| >= 1 && forall i :: 0 <= i < |t| ==> IsDigit(t[i])
    requires |t| == 1 || t[0] != '0'
    ensures Decimal(DigitsValue(t)) == t
    decreases |t|
  {
    var last := t[|t| - 1];
    var d := DigitValue(last);
    assert DigitChar(d) == last;
    if |t| > 1 {
      var prefix := t[..|t| - 1];
      DigitsValuePositive(prefix);
      DecimalOfDigits(prefix);
      var v := DigitsValue(t);
      assert v == 10 * DigitsValue(prefix) + d;
      assert v / 10 == DigitsValue(prefix) && v % 10 == d;
      assert t == prefix + [last];
    }
  }

  /** Writing a number and reading it back gives the number. */
  lemma DecimalRoundTrip(n: nat)
    ensures ParseDecimal(Decimal(n)) == Some(n)
  {
    DecimalValue(n);
  }

  /** Different numbers are written differently. */
  lemma DecimalInjective(m: nat, n: nat)
    requires Decimal(m) == Decimal(n)
    ensures m == n
  {
    DecimalRoundTrip(m);
    DecimalRoundTrip(n);
  }
}
