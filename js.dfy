/**
 * JavaScript value semantics the platform depends on: truthiness of
 * optional strings and numbers, `null` in a numeric comparison, and
 * `parseInt` without a radix.
 */
module Js {
  import opened Options
  import opened Decimal
  import opened Text

  /** A string that is present and non-empty: `if (s)` takes the branch. */
  predicate TruthyString(o: Option<string>) {
    o.Some? && o.value != ""
  }

  /** A number that is present and non-zero: `if (n)` takes the branch. */
  predicate TruthyNumber(o: Option<int>) {
    o.Some? && o.value != 0
  }

  /** `x || null` on an optional number: falsy values collapse to null. */
  function NumberOrNull(o: Option<int>): (r: Option<int>)
    ensures r.Some? <==> TruthyNumber(o)
    ensures r.Some? ==> r == o
  {
    if TruthyNumber(o) then o else None
  }

  /** `s || null` on an optional string: the empty string collapses to null. */
  function StringOrNull(o: Option<string>): (r: Option<string>)
    ensures r.Some? <==> TruthyString(o)
    ensures r.Some? ==> r == o
  {
    if TruthyString(o) then o else None
  }

  /** The number `null` becomes in a relational comparison such as `now > endTime`. */
  function NullAsZero(o: Option<int>): int {
    o.GetOr(0)
  }

  /** The quotient of `a / b` cut toward zero, as `Math.trunc(a / b)`. */
  function TruncDiv(a: int, b: int): int
    requires b > 0
  {
    if a >= 0 then a / b else -((-a) / b)
  }

  /**
   * `a % b` for a positive divisor: the remainder keeps the dividend's sign,
   * where Dafny's own `%` never goes negative; it is what is left after the
   * quotient cut toward zero.
   */
  function JsRem(a: int, b: int): (r: int)
    requires b > 0
    ensures a >= 0 ==> r == a % b
    ensures a < 0 ==> -b < r <= 0
    ensures a == TruncDiv(a, b) * b + r
  {
    if a >= 0 then a % b
    else
      var q, m := (-a) / b, (-a) % b;
      assert -a == q * b + m;
      -m
  }

  predicate IsHexDigit(c: char) {
    IsDigit(c) || 'a' <= c <= 'f' || 'A' <= c <= 'F'
  }

  function HexDigitValue(c: char): (d: nat)
    requires IsHexDigit(c)
    ensures d < 16
  {
    if IsDigit(c) then DigitValue(c)
    else if 'a' <= c <= 'f' then c as int - 'a' as int + 10
    else c as int - 'A' as int + 10
  }

  predicate IsRadixDigit(c: char, hex: bool) {
    if hex then IsHexDigit(c) else IsDigit(c)
  }

  /** The length of the run of digits (hexadecimal ones if `hex`) that starts `s`. */
  function DigitRun(s: string, hex: bool): (n: nat)
    ensures n <= |s|
    ensures forall j :: 0 <= j < n ==> IsRadixDigit(s[j], hex)
    ensures n < |s| ==> !IsRadixDigit(s[n], hex)
  {
    if s != [] && IsRadixDigit(s[0], hex) then 1 + DigitRun(s[1..], hex) else 0
  }

  function HexValue(s: string): nat
    requires forall j :: 0 <= j < |s| ==> IsHexDigit(s[j])
  {
    if s == [] then 0 else HexValue(s[..|s| - 1]) * 16 + HexDigitValue(s[|s| - 1])
  }

  /** The digits after the sign: base 16 after "0x" or "0X", else base 10; no digit is NaN. */
  function ParseUnsigned(u: string): Option<nat> {
    var hex := |u| >= 2 && u[0] == '0' && (u[1] == 'x' || u[1] == 'X');
    var digits := if hex then u[2..] else u;
    var n := DigitRun(digits, hex);
    if n == 0 then None
    else if hex then Some(HexValue(digits[..n]))
    else Some(DigitsValue(digits[..n]))
  }

  /** An optional sign, then the unsigned part. */
  function ParseSigned(t: string): Option<int> {
    if t != [] && t[0] == '-' then
      match ParseUnsigned(t[1..])
      case None => None
      case Some(n) => Some(-(n as int))
    else if t != [] && t[0] == '+' then
      match ParseUnsigned(t[1..])
      case None => None
      case Some(n) => Some(n)
    else
      match ParseUnsigned(t)
      case None => None
      case Some(n) => Some(n)
  }

  /**
   * `parseInt(s)` with no radix, following section 19.2.5 of ECMA-262: skip
   * leading white space, read an optional sign, switch to base 16 after
   * "0x" or "0X", then take the longest run of digits; no digit gives NaN
   * (`None`). Trailing text is ignored, so "90min" reads as 90.
   */
  function ParseInt(s: string): Option<int> {
    ParseSigned(s[LeadingSpace(s)..])
  }

  /** A run of decimal digits followed by a non-digit is read up to the non-digit. */
  lemma {:induction false} DigitRunStopsAtText(d: string, rest: string)
    requires AllDigits(d)
    requires rest == [] || !IsDigit(rest[0])
    ensures DigitRun(d + rest, false) == |d|
  {
    if d != [] {
      assert (d + rest)[1..] == d[1..] + rest;
      DigitRunStopsAtText(d[1..], rest);
    } else {
      assert d + rest == rest;
    }
  }

  /** The unsigned part of `parseInt`: a decimal numeral followed by non-number text. */
  lemma ReadsNumeral(u: string, n: nat, rest: string)
    requires u == NatToString(n) + rest
    requires rest == [] || (!IsDigit(rest[0]) && !(n == 0 && rest[0] in {'x', 'X'}))
    ensures ParseUnsigned(u) == Some(n)
  {
    var d := NatToString(n);
    assert u[0] == d[0];
    if |u| >= 2 && u[0] == '0' {
      assert n == 0 && |d| == 1;
      assert u[1] == rest[0];
    }
    DigitRunStopsAtText(d, rest);
    assert u[..|d|] == d;
    assert DigitsValue(u[..DigitRun(u, false)]) == n;
  }

  /**
   * `parseInt` reads back what `toString` wrote for any integer, whatever
   * text follows, as long as that text does not continue the number (a
   * digit) or turn a lone "0" into a hexadecimal prefix.
   */
  lemma ParseIntReadsIntToString(i: int, rest: string)
    requires rest == [] || (!IsDigit(rest[0]) && !(i == 0 && rest[0] in {'x', 'X'}))
    ensures ParseInt(IntToString(i) + rest) == Some(i)
  {
    var s := IntToString(i) + rest;
    assert s[0] == IntToString(i)[0];
    NoSpaceBeforeNumber(s);
    if i < 0 {
      NegativeNumeral(s, -i, rest);
    } else {
      assert s == NatToString(i) + rest;
      ReadsNumeral(s, i, rest);
    }
  }

  lemma NoSpaceBeforeNumber(s: string)
    requires s != [] && (s[0] == '-' || IsDigit(s[0]))
    ensures ParseInt(s) == ParseSigned(s)
  {
    assert LeadingSpace(s) == 0;
    assert s[0..] == s;
  }

  lemma NegativeNumeral(s: string, n: nat, rest: string)
    requires n > 0 && s == IntToString(-(n as int)) + rest
    requires rest == [] || !IsDigit(rest[0])
    ensures ParseSigned(s) == Some(-(n as int))
  {
    var d := NatToString(n);
    assert IntToString(-(n as int)) == "-" + d;
    assert s == "-" + (d + rest);
    assert s[0] == '-' && s[1..] == d + rest;
    ReadsNumeral(s[1..], n, rest);
  }
}
