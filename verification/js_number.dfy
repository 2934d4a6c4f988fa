/**
 * The numbers the recurrence-rule parser produces with `parseInt(v, 10)`:
 * an integer, or the not-a-number sentinel when the token has no leading digits.
 */
module JsNumber {

  datatype Number = Num(n: int) | NaN

  predicate IsDigit(c: char)
  {
    '0' <= c <= '9'
  }

  function DigitValue(c: char): nat
    requires IsDigit(c)
  {
    c as int - '0' as int
  }

  /** Length of the longest prefix of `s` made only of decimal digits. */
  function DigitRun(s: string): (k: nat)
    ensures k <= |s|
    ensures forall i :: 0 <= i < k ==> IsDigit(s[i])
    ensures k < |s| ==> !IsDigit(s[k])
  {
    if |s| > 0 && IsDigit(s[0]) then 1 + DigitRun(s[1..]) else 0
  }

  /** The value of a digit string read in base 10, most significant digit first. */
  function DigitsValue(d: string): nat
    requires forall i :: 0 <= i < |d| ==> IsDigit(d[i])
  {
    if |d| == 0 then 0 else 10 * DigitsValue(d[..|d| - 1]) + DigitValue(d[|d| - 1])
  }

  /**
   * `parseInt(s, 10)`: an optional sign, then the longest run of decimal digits;
   * whatever follows the digits is ignored, and no digits at all gives `NaN`.
   */
  function ParseInt(s: string): (r: Number)
    ensures s == [] ==> r == NaN
    ensures r.Num? && s[0] == '-' ==> r.n <= 0
    ensures r.Num? && s[0] != '-' ==> r.n >= 0
    ensures r.Num? ==> IsDigit(s[0]) || (|s| > 1 && (s[0] == '-' || s[0] == '+') && IsDigit(s[1]))
  {
    var negative := |s| > 0 && s[0] == '-';
    var body := if |s| > 0 && (s[0] == '-' || s[0] == '+') then s[1..] else s;
    var k := DigitRun(body);
    if k == 0 then NaN
    else if negative then Num(-(DigitsValue(body[..k]) as int))
    else Num(DigitsValue(body[..k]))
  }

  /** Base-10 rendering of a natural number, without leading zeros. */
  function NatDigits(n: nat): (d: string)
    ensures |d| >= 1
    ensures forall i :: 0 <= i < |d| ==> IsDigit(d[i])
  {
    if n < 10 then [('0' as int + n) as char]
    else NatDigits(n / 10) + [('0' as int + n % 10) as char]
  }

  /** `String(n)` for an integer: a minus sign before the digits of a negative number. */
  function Decimal(n: int): string
  {
    if n < 0 then "-" + NatDigits(-n) else NatDigits(n)
  }

  /** Reading back the digits of a natural number gives the number. */
  lemma {:induction false} NatDigitsValue(n: nat)
    ensures DigitsValue(NatDigits(n)) == n
  {
    if n >= 10 {
      NatDigitsValue(n / 10);
      var d := NatDigits(n);
      assert d[..|d| - 1] == NatDigits(n / 10);
    }
  }

  /** Digits followed by text that does not start with a digit parse to the digits' value. */
  lemma {:induction false} DigitRunPrefix(d: string, rest: string)
    requires forall i :: 0 <= i < |d| ==> IsDigit(d[i])
    requires rest == [] || !IsDigit(rest[0])
    ensures DigitRun(d + rest) == |d|
  {
    if |d| > 0 {
      assert (d + rest)[1..] == d[1..] + rest;
      DigitRunPrefix(d[1..], rest);
    }
  }

  /** `parseInt(String(n), 10) == n`: the decimal rendering of every integer parses back to it. */
  lemma ParseDecimal(n: int)
    ensures ParseInt(Decimal(n)) == Num(n)
  {
    if n < 0 {
      ParseNegative(-n);
    } else {
      ParseIgnoresSuffix(n, []);
      assert NatDigits(n) + [] == NatDigits(n);
    }
  }

  /** A minus sign before the digits of `m` parses to `-m`. */
  lemma ParseNegative(m: nat)
    ensures ParseInt("-" + NatDigits(m)) == Num(-(m as int))
  {
    var d := NatDigits(m);
    var s := "-" + d;
    assert s[0] == '-' && s[1..] == d;
    DigitRunPrefix(d, []);
    assert d + [] == d;
    assert d[..|d|] == d;
    NatDigitsValue(m);
  }

  /** Trailing text after the digits is ignored, as `parseInt` ignores it. */
  lemma ParseIgnoresSuffix(n: nat, rest: string)
    requires rest == [] || !IsDigit(rest[0])
    ensures ParseInt(NatDigits(n) + rest) == Num(n)
  {
    var d := NatDigits(n);
    DigitRunPrefix(d, rest);
    assert (d + rest)[..|d|] == d;
    NatDigitsValue(n);
  }

  /** A token that does not start with a sign or a digit is not a number. */
  lemma NonNumericIsNaN(s: string)
    requires s == [] || (!IsDigit(s[0]) && s[0] != '-' && s[0] != '+')
    ensures ParseInt(s) == NaN
  {
  }
}
