/** The two conversions between Ruby strings and integers that the engine relies
    on: String#to_i (base 10), used to classify path segments, and Integer#to_s,
    used when an Integer is interpolated into a message. */
module RubyText {

  predicate IsDigit(c: char) {
    '0' <= c <= '9'
  }

  /** The characters Ruby's C-level isspace accepts: space, \t, \n, \v, \f, \r. */
  predicate IsSpace(c: char) {
    c == ' ' || '\t' <= c <= '\r'
  }

  predicate AllDigits(s: string) {
    forall k :: 0 <= k < |s| ==> IsDigit(s[k])
  }

  /** The string after its leading white space. */
  function SkipSpace(s: string): (r: string)
    ensures |r| <= |s|
    ensures r == [] || !IsSpace(r[0])
  {
    if s != [] && IsSpace(s[0]) then SkipSpace(s[1..]) else s
  }

  /** SkipSpace drops a prefix of white space and keeps the rest as it is. */
  lemma {:induction false} SkipSpaceSuffix(s: string)
    ensures var r := SkipSpace(s);
      r == s[|s| - |r|..] && forall k :: 0 <= k < |s| - |r| ==> IsSpace(s[k])
  {
    if s != [] && IsSpace(s[0]) {
      SkipSpaceSuffix(s[1..]);
      var r := SkipSpace(s[1..]);
      assert s[1..][|s| - 1 - |r|..] == s[|s| - |r|..];
      assert forall k :: 1 <= k < |s| - |r| ==> s[k] == s[1..][k - 1];
    }
  }

  /** The leading run of decimal digits of s, where one '_' may stand between
      two digits; the underscores are dropped. */
  function DigitRun(s: string): (r: string)
    ensures AllDigits(r)
    ensures |r| <= |s|
    ensures r == [] <==> (s == [] || !IsDigit(s[0]))
  {
    if s == [] || !IsDigit(s[0]) then []
    else if |s| >= 3 && s[1] == '_' && IsDigit(s[2]) then [s[0]] + DigitRun(s[2..])
    else [s[0]] + DigitRun(s[1..])
  }

  function DigitValue(c: char): (d: nat)
    requires IsDigit(c)
    ensures d < 10
  {
    (c as int) - ('0' as int)
  }

  function DigitChar(d: nat): (c: char)
    requires d < 10
    ensures IsDigit(c) && DigitValue(c) == d
  {
    ('0' as int + d) as char
  }

  /** The number a string of decimal digits denotes. */
  function DecimalValue(ds: string): nat
    requires AllDigits(ds)
  {
    if ds == [] then 0
    else 10 * DecimalValue(ds[..|ds| - 1]) + DigitValue(ds[|ds| - 1])
  }

  /** The magnitude String#to_i reads after the sign: an optional "0d" radix
      prefix, then the digit run. */
  function Magnitude(s: string): nat {
    var t := if |s| >= 2 && s[0] == '0' && (s[1] == 'd' || s[1] == 'D') then s[2..] else s;
    DecimalValue(DigitRun(t))
  }

  /** String#to_i: leading white space, one optional sign, then as many digits
      as parse; a string that does not start with a number gives 0. */
  function ToI(s: string): int {
    var t := SkipSpace(s);
    if t != [] && t[0] == '-' then -(Magnitude(t[1..]) as int)
    else if t != [] && t[0] == '+' then Magnitude(t[1..])
    else Magnitude(t)
  }

  /** Integer#to_s for a natural number: its decimal digits, no leading zero. */
  function NatToString(n: nat): (r: string)
    ensures r != [] && AllDigits(r)
    ensures r[0] == '0' ==> n == 0 && r == "0"
  {
    if n < 10 then [DigitChar(n)] else NatToString(n / 10) + [DigitChar(n % 10)]
  }

  /** Integer#to_s. */
  function IntToString(i: int): (r: string)
    ensures r != []
  {
    if i < 0 then "-" + NatToString(-i) else NatToString(i)
  }

  lemma {:induction false} DigitRunOfDigits(s: string)
    requires AllDigits(s)
    ensures DigitRun(s) == s
  {
    if s != [] {
      DigitRunOfDigits(s[1..]);
    }
  }

  lemma {:induction false} DecimalValueOfNatToString(n: nat)
    ensures DecimalValue(NatToString(n)) == n
  {
    if n >= 10 {
      var r := NatToString(n);
      assert r[..|r| - 1] == NatToString(n / 10);
      DecimalValueOfNatToString(n / 10);
    }
  }

  /** A digit string has no "0d" prefix: its magnitude is its decimal value. */
  lemma {:induction false} MagnitudeOfDigits(r: string)
    requires AllDigits(r)
    ensures Magnitude(r) == DecimalValue(r)
  {
    if |r| >= 2 {
      assert IsDigit(r[1]);
    }
    DigitRunOfDigits(r);
  }

  /** Reading a natural number's decimal digits back with String#to_i gives the
      number: the digits carry no sign, space, underscore or radix prefix. */
  lemma {:induction false} NatToStringToI(n: nat)
    ensures ToI(NatToString(n)) == n
  {
    var r := NatToString(n);
    assert IsDigit(r[0]);
    assert SkipSpace(r) == r;
    assert ToI(r) == Magnitude(r);
    MagnitudeOfDigits(r);
    DecimalValueOfNatToString(n);
  }

  /** Integer#to_s and String#to_i are inverse on every integer. */
  lemma {:induction false} IntToStringToI(i: int)
    ensures ToI(IntToString(i)) == i
  {
    if i < 0 {
      var r := NatToString(-i);
      var s := "-" + r;
      assert s[0] == '-';
      assert SkipSpace(s) == s;
      assert s[1..] == r;
      assert ToI(s) == -(Magnitude(r) as int);
      MagnitudeOfDigits(r);
      DecimalValueOfNatToString(-i);
    } else {
      NatToStringToI(i);
    }
  }
}
