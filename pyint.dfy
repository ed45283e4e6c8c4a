/**
 * Python's `int(text)` on decimal text and `str(n)` / `"{0}".format(n)` on
 * integers, limited to ASCII digits.
 */
module PyInt {
  import opened Wrappers
  import opened Strings

  predicate IsDigit(c: char) {
    '0' <= c <= '9'
  }

  predicate AllDigits(s: string) {
    forall i :: 0 <= i < |s| ==> IsDigit(s[i])
  }

  function DigitValue(c: char): (d: nat)
    requires IsDigit(c)
    ensures d < 10
  {
    (c as int) - ('0' as int)
  }

  function DigitChar(d: nat): (c: char)
    requires d < 10
    ensures IsDigit(c) && DigitValue(c) == d
  {
    (('0' as int) + d) as char
  }

  /** The value of a string of decimal digits, most significant first. */
  function DigitsValue(s: string): nat
    requires AllDigits(s)
  {
    if s == [] then 0 else 10 * DigitsValue(s[..|s| - 1]) + DigitValue(s[|s| - 1])
  }

  /** Text `int` accepts once stripped: digits, with at most one sign in front of them. */
  predicate IsIntLiteral(t: string) {
    t != [] && (AllDigits(t) || ((t[0] == '+' || t[0] == '-') && |t| > 1 && AllDigits(t[1..])))
  }

  /**
   * `int(s)`: surrounding whitespace is ignored, then an optional sign and at
   * least one digit must make up the rest; anything else is the `ValueError`
   * Python raises, here `None`.
   */
  function ParseInt(s: string): (r: Option<int>)
    ensures r.Some? <==> IsIntLiteral(Strip(s))
    ensures r.Some? ==> var t := Strip(s);
                        var unsigned := if t[0] == '-' || t[0] == '+' then t[1..] else t;
                        var v: int := if AllDigits(unsigned) then DigitsValue(unsigned) else 0;
                        AllDigits(unsigned) && r.value == (if t[0] == '-' then -v else v)
  {
    var t := Strip(s);
    if t == [] then None
    else if t[0] == '-' || t[0] == '+' then
      var digits := t[1..];
      if digits != [] && AllDigits(digits) then
        var v: int := DigitsValue(digits);
        Some(if t[0] == '-' then -v else v)
      else None
    else if AllDigits(t) then Some(DigitsValue(t))
    else None
  }

  /** `str(n)` for a natural number: its decimal digits, no leading zero. */
  function NatToString(n: nat): (s: string)
    ensures s != [] && AllDigits(s)
    ensures |s| > 1 ==> s[0] != '0'
  {
    if n < 10 then [DigitChar(n)] else NatToString(n / 10) + [DigitChar(n % 10)]
  }

  /** `str(i)` for any integer: a minus sign in front of a negative one. */
  function IntToString(i: int): (s: string)
    ensures s != []
  {
    if i < 0 then "-" + NatToString(-i) else NatToString(i)
  }

  lemma {:induction false} NatToStringValue(n: nat)
    ensures DigitsValue(NatToString(n)) == n
  {
    if n >= 10 {
      var s := NatToString(n);
      NatToStringValue(n / 10);
      assert s[..|s| - 1] == NatToString(n / 10);
    }
  }

  /** What `str` prints, `int` reads back: `int(str(i)) == i`. */
  lemma ParseIntToString(i: int)
    ensures ParseInt(IntToString(i)) == Some(i)
  {
    var s := IntToString(i);
    var digits := NatToString(if i < 0 then -i else i);
    assert !IsSpace(s[0]) && !IsSpace(s[|s| - 1]);
    assert Strip(s) == s;
    NatToStringValue(if i < 0 then -i else i);
    if i < 0 {
      assert s[1..] == digits;
    } else {
      assert s[0] != '-' && s[0] != '+';
    }
  }

  /** A bare run of decimal digits reads as its value. */
  lemma ParseIntDigits(s: string)
    requires s != [] && AllDigits(s)
    ensures ParseInt(s) == Some(DigitsValue(s))
  {
    assert IsDigit(s[0]) && IsDigit(s[|s| - 1]);
    assert Strip(s) == s;
  }

  /** Surrounding whitespace and a sign are accepted, and a leading zero is not an error. */
  lemma ParseIntPaddedSigned(padded: string, stripped: string)
    requires padded == " -07 " && stripped == "-07"
    ensures ParseInt(padded) == Some(-7)
  {
    assert padded == [' '] + stripped + [' '];
    StripSurrounded(stripped);
    var digits := stripped[1..];
    assert AllDigits(digits) && stripped[0] == '-';
    assert DigitsValue(digits[..1]) == 0;
    assert DigitsValue(digits) == 7;
  }

  /** One space on either side of a text with no spaces at its ends is cut away. */
  lemma StripSurrounded(t: string)
    requires t != [] && !IsSpace(t[0]) && !IsSpace(t[|t| - 1])
    ensures Strip([' '] + t + [' ']) == t
  {
    var s := [' '] + t + [' '];
    assert LeadingSpaces(s) == 1 by {
      assert s[1..] == t + [' '];
    }
    assert TrailingSpaces(s[1..]) == 1 by {
      assert s[1..][..|s[1..]| - 1] == t;
    }
  }

  /**
   * A character that is not a digit anywhere after the first position of the
   * stripped text (a letter after the digits, a space between them) is the
   * `ValueError`.
   */
  lemma ParseIntRejectsNonDigit(s: string, k: nat)
    requires 0 < k < |Strip(s)| && !IsDigit(Strip(s)[k])
    ensures ParseInt(s) == None
  {
    var t := Strip(s);
    assert !AllDigits(t) && !AllDigits(t[1..]) by {
      assert t[1..][k - 1] == t[k];
    }
  }
}
