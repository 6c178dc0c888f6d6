/** Decimal text of integers, as Python's `str(int)` (used by the f-strings of
    the label and the object-count overlay) writes it and as Python's `int(str)`
    (used to read the `"WxH"` resolution) reads it, restricted to ASCII. */
module Numerals {
  import opened Wrappers

  predicate IsDigit(c: char) { '0' <= c <= '9' }

  predicate AllDigits(s: string) { forall i :: 0 <= i < |s| ==> IsDigit(s[i]) }

  function DigitValue(c: char): (d: nat)
    requires IsDigit(c)
    ensures d < 10
  {
    c as int - '0' as int
  }

  function DigitChar(d: nat): (c: char)
    requires d < 10
    ensures IsDigit(c) && DigitValue(c) == d
  {
    ('0' as int + d) as char
  }

  /** The decimal digits of `n`, most significant first, without leading zeros. */
  function NatToString(n: nat): (s: string)
    ensures |s| >= 1 && IsDigit(s[0])
    ensures |s| == 1 <==> n < 10
  {
    if n < 10 then [DigitChar(n)] else NatToString(n / 10) + [DigitChar(n % 10)]
  }

  /** Only digits are written, and no leading zero. */
  lemma {:induction false} NatToStringDigits(n: nat)
    ensures AllDigits(NatToString(n))
    ensures |NatToString(n)| > 1 ==> NatToString(n)[0] != '0'
  {
    if n >= 10 {
      NatToStringDigits(n / 10);
      var s := NatToString(n / 10);
      assert NatToString(n) == s + [DigitChar(n % 10)];
      if |s| == 1 {
        assert s[0] != '0';
      }
    }
  }

  /** The value of a string of decimal digits (the empty string reads as 0). */
  function DigitsValue(s: string): nat
    requires AllDigits(s)
  {
    if s == [] then 0 else DigitsValue(s[..|s| - 1]) * 10 + DigitValue(s[|s| - 1])
  }

  /** Python's `str(i)`: a minus sign for negatives, then the digits of the magnitude. */
  function IntToString(i: int): (s: string)
    ensures |s| >= 1
    ensures s[0] == '-' <==> i < 0
  {
    if i < 0 then "-" + NatToString(-i) else NatToString(i)
  }

  /** ASCII characters that Python's `int()` skips around a number:
      tab, line feed, vertical tab, form feed, carriage return and space.
      The separator controls 0x1C..0x1F count as whitespace for
      `str.isspace()` but not for `int()`. */
  predicate IsSpace(c: char)
  {
    9 <= c as int <= 13 || c == ' '
  }

  function TrimLeft(s: string): (t: string)
    ensures |t| <= |s| && t == s[|s| - |t|..]
    ensures t != [] ==> !IsSpace(t[0])
    ensures forall i :: 0 <= i < |s| - |t| ==> IsSpace(s[i])
  {
    if s != [] && IsSpace(s[0]) then
      var t := TrimLeft(s[1..]);
      assert forall i :: 1 <= i < |s| - |t| ==> s[i] == s[1..][i - 1];
      t
    else s
  }

  function TrimRight(s: string): (t: string)
    ensures |t| <= |s| && t == s[..|t|]
    ensures t != [] ==> !IsSpace(t[|t| - 1])
    ensures forall i :: |t| <= i < |s| ==> IsSpace(s[i])
  {
    if s != [] && IsSpace(s[|s| - 1]) then TrimRight(s[..|s| - 1]) else s
  }

  /** The text left once surrounding whitespace is removed. */
  function Strip(s: string): string
  {
    TrimRight(TrimLeft(s))
  }

  /** Text with no surrounding whitespace, read as an optional sign followed
      by one or more digits; `None` for anything else. */
  function ParseSigned(t: string): Option<int>
  {
    if t == [] then None
    else
      var negative := t[0] == '-';
      var digits := if t[0] == '-' || t[0] == '+' then t[1..] else t;
      if digits != [] && AllDigits(digits) then
        var magnitude: int := DigitsValue(digits);
        Some(if negative then -magnitude else magnitude)
      else None
  }

  /** Python's `int(s)` in base 10: optional surrounding whitespace, an optional
      sign, then one or more digits; anything else raises `ValueError`, which is
      `Failure(s)` here. */
  function ParseInt(s: string): (r: Result<int, string>)
    ensures r.Failure? ==> r.error == s
  {
    match ParseSigned(Strip(s))
    case Some(v) => Success(v)
    case None => Failure(s)
  }

  /** Unsigned, unpadded text with a character other than a digit in it is
      not a number. */
  lemma ParseIntRejectsNonDigit(s: string, k: nat)
    requires k < |s| && IsDigit(s[0]) && !IsSpace(s[|s| - 1]) && !IsDigit(s[k])
    ensures ParseInt(s) == Failure(s)
  {
    StripOfUnpadded(s);
    ParseSignedRejectsNonDigit(s, k);
  }

  lemma ParseSignedRejectsNonDigit(t: string, k: nat)
    requires k < |t| && IsDigit(t[0]) && !IsDigit(t[k])
    ensures ParseSigned(t) == None
  {
    assert !AllDigits(t);
  }

  lemma StripSkipsLeadingSpace(s: string)
    ensures Strip(" " + s) == Strip(s)
  {
    assert (" " + s)[1..] == s;
  }

  /** A file separator (0x1C) before a number is not skipped: `int()`
      rejects the text. */
  lemma ParseIntRejectsSeparatorControl()
    ensures ParseInt([28 as char] + "640") == Failure([28 as char] + "640")
  {
    var s := [28 as char] + "640";
    assert !IsSpace(s[0]) && !IsSpace(s[|s| - 1]);
    assert Strip(s) == s;
    assert !IsDigit(s[0]);
  }

  /** `int()` skips whitespace before the number: a leading space changes
      neither whether the text is accepted nor the value read. */
  lemma ParseIntSkipsLeadingSpace(s: string)
    ensures ParseInt(" " + s).Success? <==> ParseInt(s).Success?
    ensures ParseInt(s).Success? ==> ParseInt(" " + s).value == ParseInt(s).value
  {
    StripSkipsLeadingSpace(s);
  }

  lemma {:induction false} DigitsValueOfNatToString(n: nat)
    ensures AllDigits(NatToString(n)) && DigitsValue(NatToString(n)) == n
  {
    NatToStringDigits(n);
    if n >= 10 {
      NatToStringDigits(n / 10);
      var s := NatToString(n / 10);
      var t := s + [DigitChar(n % 10)];
      assert t[..|t| - 1] == s;
      DigitsValueOfNatToString(n / 10);
    }
  }

  lemma StripOfUnpadded(s: string)
    requires s != [] && !IsSpace(s[0]) && !IsSpace(s[|s| - 1])
    ensures Strip(s) == s
  {
  }

  lemma ParseSignedOfNatToString(n: nat)
    ensures ParseSigned(NatToString(n)) == Some(n)
    ensures ParseSigned("-" + NatToString(n)) == Some(-(n as int))
  {
    var s := NatToString(n);
    DigitsValueOfNatToString(n);
    assert ("-" + s)[0] == '-' && ("-" + s)[1..] == s;
  }

  /** Reading back what `str(i)` writes gives `i` again. */
  lemma ParseIntOfIntToString(i: int)
    ensures ParseInt(IntToString(i)) == Success(i)
  {
    var s := IntToString(i);
    StripOfUnpadded(s);
    ParseSignedOfNatToString(if i < 0 then -i else i);
  }

  /** The written text never contains a character other than a digit or a
      leading minus sign. */
  lemma IntToStringChars(i: int, c: char)
    requires c in IntToString(i)
    ensures IsDigit(c) || c == '-'
  {
    NatToStringDigits(if i < 0 then -i else i);
    if i < 0 {
      var s := NatToString(-i);
      assert c == '-' || c in s;
    }
  }

  /** Python's `int()` truncates toward zero when it converts a float. */
  function Trunc(x: real): (n: int)
    ensures x >= 0.0 ==> n as real <= x < n as real + 1.0
    ensures x < 0.0 ==> n as real - 1.0 < x <= n as real
  {
    if x >= 0.0 then x.Floor else -((-x).Floor)
  }
}
