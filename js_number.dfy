/**
 * Decimal parsing of the vote input (parseInt with radix 10), and the
 * decimal text of an integer that JavaScript writes when parseInt is given
 * a number.
 */
module JsNumber {
  import opened Wrappers
  import opened Text

  predicate IsDigit(ch: char)
  {
    '0' <= ch <= '9'
  }

  predicate AllDigits(s: string)
  {
    forall i :: 0 <= i < |s| ==> IsDigit(s[i])
  }

  /** Length of the longest prefix of s made of decimal digits. */
  function DigitPrefixLength(s: string): (n: nat)
    ensures n <= |s|
    ensures AllDigits(s[..n])
    ensures n < |s| ==> !IsDigit(s[n])
  {
    if s == [] || !IsDigit(s[0]) then 0 else 1 + DigitPrefixLength(s[1..])
  }

  /** The number a string of decimal digits denotes. */
  function DigitsValue(ds: string): nat
    requires AllDigits(ds)
  {
    if ds == [] then 0
    else 10 * DigitsValue(ds[..|ds| - 1]) + (ds[|ds| - 1] as int - '0' as int)
  }

  /**
   * parseInt with radix 10: skip leading white space, read an optional sign and
   * then as many decimal digits as follow; `None` (NaN) when there are none.
   * What follows the digits is ignored.
   */
  function ParseInt(s: string): (r: Option<int>)
    ensures var t := TrimStart(s);
      r.Some? <==> (|t| > 0 && IsDigit(t[0])) ||
                   (|t| > 1 && (t[0] == '-' || t[0] == '+') && IsDigit(t[1]))
    ensures r.Some? && TrimStart(s)[0] == '-' ==> r.value <= 0
    ensures r.Some? && TrimStart(s)[0] != '-' ==> r.value >= 0
  {
    ParseSigned(TrimStart(s))
  }

  /** parseInt after the white space: an optional sign, then the leading digits. */
  function ParseSigned(t: string): Option<int>
  {
    if |t| > 0 && t[0] == '-' then
      match ParseDigits(t[1..])
      case None => None
      case Some(m) => Some(-m)
    else if |t| > 0 && t[0] == '+' then ParseDigits(t[1..])
    else ParseDigits(t)
  }

  /** The number the leading digits of s denote; `None` when s does not start with a digit. */
  function ParseDigits(s: string): Option<int>
  {
    var n := DigitPrefixLength(s);
    if n == 0 then None else Some(DigitsValue(s[..n]))
  }

  /** The decimal text of a natural number, without leading zeros. */
  function Digits(n: nat): (s: string)
    ensures |s| > 0 && AllDigits(s)
    ensures DigitsValue(s) == n
    ensures s[0] == '0' ==> n == 0
  {
    var last := ('0' as int + n % 10) as char;
    if n < 10 then [last]
    else
      var init := Digits(n / 10);
      assert (init + [last])[..|init|] == init;
      init + [last]
  }

  /** The decimal text of an integer, with a minus sign when it is negative. */
  function DecimalString(n: int): string
  {
    if n < 0 then "-" + Digits(-n) else Digits(n)
  }

  /** parseInt reads back the integer that String wrote. */
  lemma ParseDecimalString(n: int)
    ensures ParseInt(DecimalString(n)) == Some(n)
  {
    var s := DecimalString(n);
    var body := Digits(if n < 0 then -n else n);
    assert !IsWhiteSpace(s[0]);
    assert TrimStart(s) == s;
    assert n < 0 ==> s[1..] == body;
    assert n >= 0 ==> s == body && IsDigit(s[0]);
    DigitPrefixOfDigits(body, []);
    assert body + [] == body;
    assert body[..|body|] == body;
  }

  /**
   * parseInt skips leading white space, accepts a "+" sign, and stops at the
   * first character that is not a digit: " +12abc" reads as 12.
   */
  lemma ParseStopsAtNonDigit(ws: string, ds: string, rest: string)
    requires forall i :: 0 <= i < |ws| ==> IsWhiteSpace(ws[i])
    requires |ds| > 0 && AllDigits(ds)
    requires rest == [] || !IsDigit(rest[0])
    ensures ParseInt(ws + (ds + rest)) == Some(DigitsValue(ds))
    ensures ParseInt(ws + (['+'] + (ds + rest))) == Some(DigitsValue(ds))
  {
    TrimStartAfterWhiteSpace(ws, ds + rest);
    TrimStartAfterWhiteSpace(ws, ['+'] + (ds + rest));
    ParseSignedDigits(ds, rest);
    ParseSignedPlus(ds, rest);
  }

  /** A "-" sign before the digits gives the negated number: " -12abc" reads as -12. */
  lemma ParseNegative(ws: string, ds: string, rest: string)
    requires forall i :: 0 <= i < |ws| ==> IsWhiteSpace(ws[i])
    requires |ds| > 0 && AllDigits(ds)
    requires rest == [] || !IsDigit(rest[0])
    ensures ParseInt(ws + (['-'] + (ds + rest))).Some?
    ensures ParseInt(ws + (['-'] + (ds + rest))).value == -(DigitsValue(ds) as int)
  {
    var t := ['-'] + (ds + rest);
    assert t[1..] == ds + rest;
    ParseDigitsPrefix(ds, rest);
    var v: int := DigitsValue(ds);
    NegatedParse(t, v);
    TrimStartAfterWhiteSpace(ws, t);
    assert ParseInt(ws + t) == ParseSigned(t);
  }

  lemma ParseDigitsPrefix(ds: string, rest: string)
    requires |ds| > 0 && AllDigits(ds)
    requires rest == [] || !IsDigit(rest[0])
    ensures ParseDigits(ds + rest) == Some(DigitsValue(ds))
  {
    DigitPrefixOfDigits(ds, rest);
    assert (ds + rest)[..|ds|] == ds;
  }

  lemma ParseSignedDigits(ds: string, rest: string)
    requires |ds| > 0 && AllDigits(ds)
    requires rest == [] || !IsDigit(rest[0])
    ensures ParseSigned(ds + rest) == Some(DigitsValue(ds))
  {
    ParseDigitsPrefix(ds, rest);
    assert (ds + rest)[0] == ds[0];
  }

  lemma ParseSignedPlus(ds: string, rest: string)
    requires |ds| > 0 && AllDigits(ds)
    requires rest == [] || !IsDigit(rest[0])
    ensures ParseSigned(['+'] + (ds + rest)) == Some(DigitsValue(ds))
  {
    ParseDigitsPrefix(ds, rest);
    assert (['+'] + (ds + rest))[1..] == ds + rest;
  }

  lemma NegatedParse(t: string, v: int)
    requires |t| > 0 && t[0] == '-'
    requires ParseDigits(t[1..]) == Some(v)
    ensures ParseSigned(t) == Some(-v)
  {
  }

  lemma {:induction false} DigitPrefixOfDigits(ds: string, rest: string)
    requires AllDigits(ds)
    requires rest == [] || !IsDigit(rest[0])
    ensures DigitPrefixLength(ds + rest) == |ds|
  {
    if ds != [] {
      assert (ds + rest)[1..] == ds[1..] + rest;
      DigitPrefixOfDigits(ds[1..], rest);
    } else {
      assert ds + rest == rest;
    }
  }
}
