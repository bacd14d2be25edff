/**
 * Decimal rendering of the report's status code, as Go's `strconv.Itoa`
 * produces it: an optional '-' followed by the digits of the magnitude, with
 * no leading zeros. `ParseInt` is its inverse on exactly those strings.
 */
module Decimal {
  import opened Wrappers

  predicate IsDigit(c: char) {
    '0' <= c <= '9'
  }

  predicate AllDigits(s: string) {
    forall i :: 0 <= i < |s| ==> IsDigit(s[i])
  }

  /** A non-empty digit string with no leading zero (other than "0" itself). */
  predicate IsCanonical(s: string) {
    |s| > 0 && AllDigits(s) && (s[0] == '0' ==> |s| == 1)
  }

  function DigitValue(c: char): (d: nat)
    requires IsDigit(c)
    ensures d < 10
  {
    (c as int) - ('0' as int)
  }

  function DigitChar(d: nat): (c: char)
    requires d < 10
    ensures IsDigit(c) && DigitValue(c) == d
    ensures c == '0' <==> d == 0
  {
    ((d + '0' as int) as char)
  }

  /** The number a digit string denotes, most significant digit first. */
  function ValueOf(s: string): nat
    requires AllDigits(s)
  {
    if s == [] then 0 else ValueOf(s[..|s| - 1]) * 10 + DigitValue(s[|s| - 1])
  }

  /** The canonical decimal digits of a natural number. */
  function NatDigits(n: nat): (s: string)
    ensures IsCanonical(s)
    ensures ValueOf(s) == n
  {
    if n < 10 then [DigitChar(n)]
    else
      var init := NatDigits(n / 10);
      var s := init + [DigitChar(n % 10)];
      assert s[..|s| - 1] == init;
      s
  }

  /** `strconv.Itoa`: the decimal rendering of an integer. */
  function Itoa(n: int): (s: string)
    ensures |s| > 0
    ensures n >= 0 ==> IsCanonical(s) && ValueOf(s) == n
    ensures n < 0 ==> s[0] == '-' && IsCanonical(s[1..]) && s[1..] != "0" && ValueOf(s[1..]) == -n
  {
    if n < 0 then
      var s := "-" + NatDigits(-n);
      assert s[1..] == NatDigits(-n);
      s
    else NatDigits(n)
  }

  /** Reads back exactly the strings `Itoa` produces. */
  function ParseInt(s: string): (r: Option<int>)
    ensures r.Some? <==> (IsCanonical(s) || (|s| > 1 && s[0] == '-' && IsCanonical(s[1..]) && s[1..] != "0"))
  {
    if |s| > 0 && s[0] == '-' then
      if IsCanonical(s[1..]) && s[1..] != "0" then Some(-(ValueOf(s[1..]) as int)) else None
    else if IsCanonical(s) then Some(ValueOf(s) as int)
    else None
  }

  /** A digit string that does not start with '0' denotes a positive number. */
  lemma {:induction false} LeadingNonZeroPositive(s: string)
    requires |s| > 0 && AllDigits(s) && s[0] != '0'
    ensures ValueOf(s) >= 1
  {
    if |s| > 1 {
      var init := s[..|s| - 1];
      assert init[0] == s[0];
      LeadingNonZeroPositive(init);
    }
  }

  /** Canonical digit strings are exactly the images of `NatDigits`. */
  lemma {:induction false} NatDigitsOfValue(s: string)
    requires IsCanonical(s)
    ensures NatDigits(ValueOf(s)) == s
  {
    if |s| > 1 {
      var init := s[..|s| - 1];
      assert init[0] == s[0];
      LeadingNonZeroPositive(init);
      NatDigitsOfValue(init);
      var v := ValueOf(s);
      assert v / 10 == ValueOf(init) && v % 10 == DigitValue(s[|s| - 1]);
      assert s == init + [s[|s| - 1]];
    }
  }

  /** Parsing the rendering of any integer gives the integer back. */
  lemma ParseItoa(n: int)
    ensures ParseInt(Itoa(n)) == Some(n)
  {
  }

  /** Any string `ParseInt` accepts is the rendering of the number it yields. */
  lemma ItoaParse(s: string)
    requires ParseInt(s).Some?
    ensures Itoa(ParseInt(s).value) == s
  {
    if |s| > 0 && s[0] == '-' {
      NatDigitsOfValue(s[1..]);
      LeadingNonZeroPositive(s[1..]);
      assert s == "-" + s[1..];
    } else {
      NatDigitsOfValue(s);
    }
  }

  /** Different integers render differently. */
  lemma ItoaInjective(a: int, b: int)
    requires Itoa(a) == Itoa(b)
    ensures a == b
  {
    ParseItoa(a);
    ParseItoa(b);
  }

}
