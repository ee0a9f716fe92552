/**
 * Go's base-10 integer conversions: `strconv.ParseInt(s, 10, 64)` and
 * the `%d` verb of fmt (strconv.FormatInt(n, 10)).
 */
module Decimal {
  import opened Wrappers

  const MIN_INT64: int := -0x8000_0000_0000_0000
  const MAX_INT64: int := 0x7FFF_FFFF_FFFF_FFFF

  type int64 = x: int | MIN_INT64 <= x <= MAX_INT64

  predicate IsDigit(c: char) { '0' <= c <= '9' }

  predicate AllDigits(s: string) { forall i :: 0 <= i < |s| ==> IsDigit(s[i]) }

  function DigitValue(c: char): (d: nat)
    requires IsDigit(c)
    ensures d < 10
  {
    (c as int) - ('0' as int)
  }

  function DigitChar(d: nat): (c: char)
    requires d < 10
    ensures IsDigit(c) && DigitValue(c) == d
  {
    (('0' as int) + d) as char
  }

  /** The number a string of decimal digits denotes, most significant digit first. */
  function DigitsValue(s: string): nat
    requires AllDigits(s)
  {
    if s == [] then 0 else 10 * DigitsValue(s[..|s| - 1]) + DigitValue(s[|s| - 1])
  }

  /**
   * strconv.ParseInt(s, 10, 64): an optional sign, then one or more decimal
   * digits, and the value must fit in an int64; anything else is an error.
   */
  function ParseInt64(s: string): (r: Option<int64>)
    ensures r.Some? ==> |s| > 0
    ensures r.Some? && s[0] != '-' && s[0] != '+' ==> AllDigits(s) && r.value == DigitsValue(s)
  {
    var signed := |s| > 0 && (s[0] == '+' || s[0] == '-');
    var digits := if signed then s[1..] else s;
    if |digits| == 0 || !AllDigits(digits) then None
    else
      var v: int := if signed && s[0] == '-' then 0 - DigitsValue(digits) as int else DigitsValue(digits) as int;
      if MIN_INT64 <= v <= MAX_INT64 then Some(v) else None
  }

  /** Decimal digits of a natural number, without leading zeros. */
  function FormatNat(n: nat): (s: string)
    ensures |s| > 0 && AllDigits(s)
    ensures s[0] != '-' && s[0] != '+'
  {
    (if n < 10 then "" else FormatNat(n / 10)) + [DigitChar(n % 10)]
  }

  /** strconv.FormatInt(n, 10), which is also what `%d` prints. */
  function FormatInt(n: int): (s: string)
    ensures |s| > 0
  {
    if n < 0 then "-" + FormatNat(-n) else FormatNat(n)
  }

  lemma {:induction false} DigitsValueOfFormatNat(n: nat)
    ensures DigitsValue(FormatNat(n)) == n
  {
    var s := FormatNat(n);
    if n >= 10 {
      DigitsValueOfFormatNat(n / 10);
      assert s[..|s| - 1] == FormatNat(n / 10);
    }
  }

  /** Parsing what FormatInt prints gives back the number, for every int64. */
  lemma ParseFormatInt(n: int64)
    ensures ParseInt64(FormatInt(n)) == Some(n)
  {
    if n < 0 {
      ParseFormatNegative(n);
    } else {
      ParseFormatNonNegative(n);
    }
  }

  /** A negative int64 prints as "-" and its magnitude's digits, which ParseInt reads back. */
  lemma ParseFormatNegative(n: int64)
    requires n < 0
    ensures ParseInt64(FormatInt(n)) == Some(n)
  {
    var d := FormatNat(-(n as int));
    DigitsValueOfFormatNat(-(n as int));
    ParseNegativeDigits(d);
  }

  /** "-" followed by digits whose value is at most 2^63 parses as minus that value. */
  lemma ParseNegativeDigits(d: string)
    requires |d| > 0 && AllDigits(d) && DigitsValue(d) <= -MIN_INT64
    ensures ParseInt64("-" + d) == Some(0 - DigitsValue(d) as int)
  {
    var s := "-" + d;
    assert s[0] == '-' && s[1..] == d;
  }

  /** A non-negative int64 prints as its digits alone, which ParseInt reads back. */
  lemma ParseFormatNonNegative(n: int64)
    requires n >= 0
    ensures ParseInt64(FormatInt(n)) == Some(n)
  {
    var d := FormatNat(n);
    DigitsValueOfFormatNat(n);
    assert FormatInt(n) == d;
    assert d[0] != '-' && d[0] != '+';
    assert DigitsValue(d) == n;
  }
}
