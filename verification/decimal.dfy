/**
 * Decimal literals as Python's `int(token)` and `float(token)` read them,
 * restricted to an optional sign followed by ASCII digits (with an optional
 * decimal point for `float`), and `str(n)` for integers.
 */
module Decimal {
  import opened Wrappers

  predicate IsDigit(c: char) { '0' <= c <= '9' }

  predicate AllDigits(s: string) { forall i :: 0 <= i < |s| ==> IsDigit(s[i]) }

  function DigitValue(c: char): nat
    requires IsDigit(c)
  {
    c as int - '0' as int
  }

  function DigitChar(d: nat): (c: char)
    requires d < 10
    ensures IsDigit(c) && DigitValue(c) == d
  {
    ('0' as int + d) as char
  }

  /** The value of a string of decimal digits, most significant first. */
  function DigitsValue(s: string): nat
    requires AllDigits(s)
  {
    if s == [] then 0 else DigitsValue(s[..|s| - 1]) * 10 + DigitValue(s[|s| - 1])
  }

  function Pow10(k: nat): (r: nat)
    ensures r >= 1
  {
    if k == 0 then 1 else 10 * Pow10(k - 1)
  }

  /** Python `int(token)`: None stands for the ValueError it raises. */
  function ParseInt(s: string): Option<int>
  {
    var u := Unsigned(s);
    if |u| > 0 && AllDigits(u) then Some(Sign(s) * DigitsValue(u)) else None
  }

  predicate HasSign(s: string) { |s| > 0 && (s[0] == '-' || s[0] == '+') }

  function Unsigned(s: string): string { if HasSign(s) then s[1..] else s }

  function Sign(s: string): int { if |s| > 0 && s[0] == '-' then -1 else 1 }

  /** Index of the first '.' in s, or |s| when there is none. */
  function PointAt(s: string): (k: nat)
    ensures k <= |s|
    ensures forall i :: 0 <= i < k ==> s[i] != '.'
    ensures k < |s| ==> s[k] == '.'
  {
    if s == [] then 0 else if s[0] == '.' then 0 else 1 + PointAt(s[1..])
  }

  /**
   * Python `float(token)` on a decimal literal `[+-]digits[.digits]` with at
   * least one digit on either side of the optional point.
   */
  function ParseReal(s: string): Option<real>
  {
    var u := Unsigned(s);
    var k := PointAt(u);
    var whole := u[..k];
    var frac := if k < |u| then u[k + 1..] else [];
    if AllDigits(whole) && AllDigits(frac) && |whole| + |frac| > 0 then
      Some(Sign(s) as real * (DigitsValue(whole) as real + DigitsValue(frac) as real / Pow10(|frac|) as real))
    else None
  }

  /** The decimal digits of a natural number, without leading zeros. */
  function NatText(n: nat): (s: string)
    ensures |s| > 0 && AllDigits(s)
    ensures DigitsValue(s) == n
    ensures s[0] == '0' ==> n == 0
  {
    if n < 10 then [DigitChar(n)]
    else
      var s := NatText(n / 10) + [DigitChar(n % 10)];
      assert s[..|s| - 1] == NatText(n / 10);
      s
  }

  /** Python `str(n)` for an integer. */
  function IntText(n: int): (s: string)
  {
    if n < 0 then "-" + NatText(-n) else NatText(n)
  }

  /** `int(str(n)) == n`: the integer text round-trips. */
  lemma ParseIntText(n: int)
    ensures ParseInt(IntText(n)) == Some(n)
  {
    var s := IntText(n);
    if n < 0 {
      assert Unsigned(s) == NatText(-n);
    } else {
      assert !HasSign(s);
    }
  }

  /** An integer literal is also a float literal of the same value. */
  lemma IntLiteralIsReal(s: string)
    requires ParseInt(s).Some?
    ensures ParseReal(s) == Some(ParseInt(s).value as real)
  {
    var u := Unsigned(s);
    assert PointAt(u) == |u| by {
      if PointAt(u) < |u| {
        assert false;
      }
    }
    assert u[..PointAt(u)] == u;
  }

  /** `float(str(n)) == n` for every integer n. */
  lemma ParseRealIntText(n: int)
    ensures ParseReal(IntText(n)) == Some(n as real)
  {
    ParseIntText(n);
    IntLiteralIsReal(IntText(n));
  }

  /** Text that contains a character other than a sign, a digit or '.' is not a number. */
  lemma NotNumeric(s: string, i: nat)
    requires i < |s| && !IsDigit(s[i]) && s[i] != '.' && s[i] != '-' && s[i] != '+'
    ensures ParseReal(s) == None && ParseInt(s) == None
  {
    var u := Unsigned(s);
    var j := if HasSign(s) then i - 1 else i;
    assert u[j] == s[i];
    var k := PointAt(u);
    if j < k {
      assert u[..k][j] == s[i];
    } else {
      assert j != k;
      assert u[k + 1..][j - k - 1] == s[i];
    }
  }
}
