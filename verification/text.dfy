/** Python's `str()` of an integer, and its inverse.

    Keys such as `index_3`, `div_-1_0` and `input_2`, the glyphs of an
    expanded range and the contents of a variable box are all built from
    `str(n)`.  The model needs to know that this text is decimal digits with
    an optional leading minus sign, and that different numbers give
    different text.
 */
module Text {

  import opened Wrappers

  predicate IsDigit(c: char) { '0' <= c <= '9' }

  function DigitChar(d: nat): (c: char)
    requires d < 10
    ensures IsDigit(c)
  {
    ['0', '1', '2', '3', '4', '5', '6', '7', '8', '9'][d]
  }

  function DigitValue(c: char): (d: nat)
    requires IsDigit(c)
    ensures d < 10
    ensures DigitChar(d) == c
  {
    (c as int - '0' as int) as nat
  }

  predicate AllDigits(s: string) {
    forall i :: 0 <= i < |s| ==> IsDigit(s[i])
  }

  /** `str(n)` for n >= 0: decimal, most significant digit first. */
  function NatToString(n: nat): (s: string)
    ensures |s| >= 1 && AllDigits(s)
    ensures |s| > 1 ==> s[0] != '0'
    decreases n
  {
    if n < 10 then [DigitChar(n)]
    else NatToString(n / 10) + [DigitChar(n % 10)]
  }

  /** `str(n)` for any Python int. */
  function IntToString(n: int): (s: string)
    ensures |s| >= 1
    ensures n < 0 <==> s[0] == '-'
    ensures n >= 0 ==> AllDigits(s)
    ensures n < 0 ==> AllDigits(s[1..]) && |s| >= 2
  {
    if n < 0 then "-" + NatToString(-n) else NatToString(n)
  }

  /** A text made of digits, read as a decimal number. */
  function ParseNat(s: string): (n: nat)
    requires |s| >= 1 && AllDigits(s)
    decreases |s|
  {
    if |s| == 1 then DigitValue(s[0])
    else ParseNat(s[..|s| - 1]) * 10 + DigitValue(s[|s| - 1])
  }

  /** `int(s)` restricted to an optional minus sign followed by digits. */
  function ParseInt(s: string): (r: Option<int>)
  {
    if |s| >= 1 && AllDigits(s) then Some(ParseNat(s))
    else if |s| >= 2 && s[0] == '-' && AllDigits(s[1..]) then Some(-(ParseNat(s[1..]) as int))
    else None
  }

  lemma {:induction false} NatRoundTrip(n: nat)
    ensures ParseNat(NatToString(n)) == n
    decreases n
  {
    if n >= 10 {
      var s := NatToString(n);
      assert s[..|s| - 1] == NatToString(n / 10);
      NatRoundTrip(n / 10);
    }
  }

  /** Reading back the text of an integer gives the integer. */
  lemma IntRoundTrip(n: int)
    ensures ParseInt(IntToString(n)) == Some(n)
  {
    var s := IntToString(n);
    if n < 0 {
      var t := NatToString(-n);
      assert s == "-" + t;
      assert s[1..] == t;
      NatRoundTrip(-n);
      assert !AllDigits(s) by { assert !IsDigit(s[0]); }
    } else {
      NatRoundTrip(n);
    }
  }

  /** Different integers have different text, so keys built from them are
      distinct. */
  lemma IntToStringInjective(m: int, n: int)
    ensures IntToString(m) == IntToString(n) <==> m == n
  {
    if IntToString(m) == IntToString(n) {
      IntRoundTrip(m);
      IntRoundTrip(n);
    }
  }

  /** Keys with a common prefix and an integer suffix: equal exactly when the
      integers are. */
  lemma KeyInjective(prefix: string, m: int, n: int)
    ensures prefix + IntToString(m) == prefix + IntToString(n) <==> m == n
  {
    if prefix + IntToString(m) == prefix + IntToString(n) {
      assert IntToString(m) == (prefix + IntToString(m))[|prefix|..];
      assert IntToString(n) == (prefix + IntToString(n))[|prefix|..];
      IntToStringInjective(m, n);
    }
  }
}
