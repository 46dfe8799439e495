/** Java's decimal rendering of an `Integer` (string concatenation) and
    `Integer.parseInt`, which the services use to build endpoint paths
    ("/image/avatar/" + id) and to turn an endpoint key back into an id. */
module Decimal {
  import opened Entities

  const IntMin: int := -0x8000_0000
  const IntMax: int := 0x7fff_ffff

  /** The range of a Java `int`. */
  predicate IsInt32(n: int) {
    IntMin <= n <= IntMax
  }

  predicate IsDigit(c: char) {
    '0' <= c <= '9'
  }

  predicate AllDigits(s: string) {
    forall i | 0 <= i < |s| :: IsDigit(s[i])
  }

  function DigitChar(d: nat): (c: char)
    requires d < 10
    ensures IsDigit(c) && c as int - '0' as int == d
  {
    (d + '0' as int) as char
  }

  /** The decimal digits of `n`, most significant first, without leading zeros. */
  function NatToString(n: nat): (s: string)
    ensures 0 < |s| && AllDigits(s)
    ensures s[0] == '0' ==> n == 0
    decreases n
  {
    if n < 10 then [DigitChar(n)] else NatToString(n / 10) + [DigitChar(n % 10)]
  }

  /** `"" + n` for a Java integer: a minus sign for negatives, then the digits. */
  function IntToString(n: int): (s: string)
    ensures 0 < |s|
    ensures n < 0 <==> s[0] == '-'
    ensures '+' !in s
  {
    if n < 0 then "-" + NatToString(-n) else NatToString(n)
  }

  /** The value of a run of decimal digits. */
  function DigitsValue(s: string): nat
    requires AllDigits(s)
  {
    if s == [] then 0 else DigitsValue(s[..|s| - 1]) * 10 + (s[|s| - 1] as int - '0' as int)
  }

  /** Integer.parseInt(s, 10) over ASCII digits: an optional sign, at least one
      digit, and a value that fits a Java `int`; anything else raises
      NumberFormatException. */
  function ParseInt(s: string): (r: Result<int>)
    ensures r.Ok? ==> IsInt32(r.value) && 0 < |s|
    ensures r.Err? ==> r.error == NumberFormat(s)
  {
    var digits := if 0 < |s| && (s[0] == '-' || s[0] == '+') then s[1..] else s;
    if digits == [] || !AllDigits(digits) then Err(NumberFormat(s))
    else
      var v: int := if s[0] == '-' then -(DigitsValue(digits) as int) else DigitsValue(digits);
      if IsInt32(v) then Ok(v) else Err(NumberFormat(s))
  }

  lemma {:induction false} NatToStringValue(n: nat)
    ensures DigitsValue(NatToString(n)) == n
    decreases n
  {
    if n >= 10 {
      NatToStringValue(n / 10);
      var s := NatToString(n);
      assert s[..|s| - 1] == NatToString(n / 10);
    }
  }

  /** Every Java `int` survives the trip through its decimal rendering and
      Integer.parseInt. */
  lemma IntToStringRoundTrip(n: int)
    requires IsInt32(n)
    ensures ParseInt(IntToString(n)) == Ok(n)
  {
    var s := IntToString(n);
    if n < 0 {
      var digits := NatToString(-n);
      assert s == "-" + digits && s[0] == '-';
      assert s[1..] == digits;
      NatToStringValue(-n);
      assert -(DigitsValue(digits) as int) == n;
    } else {
      var digits := NatToString(n);
      assert s == digits && s[0] != '-' && s[0] != '+';
      NatToStringValue(n);
    }
  }

  /** Distinct ids render to distinct strings, so an endpoint key names one row. */
  lemma IntToStringInjective(m: int, n: int)
    requires IsInt32(m) && IsInt32(n) && IntToString(m) == IntToString(n)
    ensures m == n
  {
    IntToStringRoundTrip(m);
    IntToStringRoundTrip(n);
  }
}
