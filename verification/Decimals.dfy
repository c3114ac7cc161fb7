/**
 Integers as decimal strings.
 */
module Decimals {
  import opened Bytes

  predicate IsDigit(c: char) {
    '0' <= c <= '9'
  }

  function DigitOf(d: nat): (c: char)
    requires d < 10
    ensures IsDigit(c)
  {
    '0' + d as char
  }

  function ValueOf(c: char): (d: nat)
    requires IsDigit(c)
  {
    c as int - '0' as int
  }

  function DecimalDigits(n: nat): (s: string)
    ensures s != ""
  {
    if n < 10 then [DigitOf(n)] else DecimalDigits(n / 10) + [DigitOf(n % 10)]
  }

  /** `f"{n}"`. */
  function Decimal(n: int): (s: string) {
    if n < 0 then "-" + DecimalDigits(-n) else DecimalDigits(n)
  }

  predicate AllDigits(s: string) {
    forall i :: 0 <= i < |s| ==> IsDigit(s[i])
  }

  function DigitsValue(s: string): (n: nat)
    requires AllDigits(s)
  {
    if s == "" then 0 else 10 * DigitsValue(s[..|s| - 1]) + ValueOf(s[|s| - 1])
  }

  /** `int(s)` for an optional sign and ASCII digits. */
  function ParseInt(s: string): (n: Option<int>) {
    if s != "" && s[0] == '-' then
      if |s| > 1 && AllDigits(s[1..]) then var n: int := DigitsValue(s[1..]); Some(-n) else None
    else if s != "" && AllDigits(s) then Some(DigitsValue(s))
    else None
  }

  lemma {:induction false} DigitsRoundTrip(n: nat)
    ensures AllDigits(DecimalDigits(n)) && DigitsValue(DecimalDigits(n)) == n
  {
    var s := DecimalDigits(n);
    if n < 10 {
      assert s[..0] == "";
    } else {
      DigitsRoundTrip(n / 10);
      assert s[..|s| - 1] == DecimalDigits(n / 10);
    }
  }

  lemma ParseDecimal(n: int)
    ensures ParseInt(Decimal(n)) == Some(n)
  {
    if n < 0 {
      DigitsRoundTrip(-n);
      assert Decimal(n)[1..] == DecimalDigits(-n);
    } else {
      DigitsRoundTrip(n);
      assert IsDigit(DecimalDigits(n)[0]);
    }
  }

  /** Which strings are numbers. */
  lemma ParsesIff(s: string)
    ensures ParseInt(s).Some? <==> (s != "" && AllDigits(s)) || (|s| >= 2 && s[0] == '-' && AllDigits(s[1..]))
  {
  }

  /** The digits at the front of a string. */
  function DigitRun(s: string): (r: string)
    ensures AllDigits(r)
  {
    if s != "" && IsDigit(s[0]) then [s[0]] + DigitRun(s[1..]) else ""
  }

  lemma {:induction false} DigitRunWhole(s: string)
    requires AllDigits(s)
    ensures DigitRun(s) == s
  {
    if s != "" {
      DigitRunWhole(s[1..]);
    }
  }
}
