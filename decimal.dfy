/** Decimal rendering of non-negative integers as fmt's "{}" and "{:0Nd}" produce it,
    and the value a digit string denotes. */
module Decimal {
  predicate IsDigit(c: char) { '0' <= c <= '9' }

  predicate AllDigits(s: string) { forall i :: 0 <= i < |s| ==> IsDigit(s[i]) }

  /** The character of the decimal digit d. */
  function DigitChar(d: nat): (c: char)
    requires d < 10
    ensures IsDigit(c) && c as int - '0' as int == d
  {
    ('0' as int + d) as char
  }

  /** The number a digit string denotes, most significant digit first. */
  function ValueOf(s: string): nat
    requires AllDigits(s)
  {
    if s == [] then 0 else 10 * ValueOf(s[..|s| - 1]) + (s[|s| - 1] as int - '0' as int)
  }

  function Pow10(k: nat): (p: nat)
    ensures p > 0
  {
    if k == 0 then 1 else 10 * Pow10(k - 1)
  }

  /** fmt's "{}": the shortest decimal form of n, with no leading zero. */
  function Digits(n: nat): (s: string)
    ensures |s| > 0 && AllDigits(s)
    ensures ValueOf(s) == n
    ensures n > 0 ==> s[0] != '0'
    decreases n
  {
    if n < 10 then [DigitChar(n)] else Digits(n / 10) + [DigitChar(n % 10)]
  }

  /** A number below 10^w needs at most w digits (one digit at least). */
  lemma {:induction false} DigitsLength(n: nat, w: nat)
    ensures 0 < w && n < Pow10(w) ==> |Digits(n)| <= w
    decreases n
  {
    if n >= 10 && 0 < w && n < Pow10(w) {
      assert n / 10 < Pow10(w - 1);
      DigitsLength(n / 10, w - 1);
    }
  }

  /** A leading zero does not change the value of a digit string. */
  lemma {:induction false} LeadingZero(s: string)
    requires AllDigits(s)
    ensures AllDigits(['0'] + s) && ValueOf(['0'] + s) == ValueOf(s)
    decreases |s|
  {
    if s != [] {
      assert (['0'] + s)[..|s|] == ['0'] + s[..|s| - 1];
      LeadingZero(s[..|s| - 1]);
    }
  }

  /** Digits left-padded with zeros up to width. */
  function ZeroPad(s: string, width: nat): (r: string)
    requires AllDigits(s)
    ensures |r| == if |s| >= width then |s| else width
    ensures AllDigits(r) && ValueOf(r) == ValueOf(s)
    decreases width - |s|
  {
    if |s| >= width then s
    else
      assert ValueOf(['0'] + s) == ValueOf(s) by { LeadingZero(s); }
      ZeroPad(['0'] + s, width)
  }

  /** Padding only puts zeros in front of the digits. */
  lemma {:induction false} ZeroPadForm(s: string, width: nat)
    requires AllDigits(s)
    ensures var r := ZeroPad(s, width);
      r[|r| - |s|..] == s && forall k :: 0 <= k < |r| - |s| ==> r[k] == '0'
    decreases width - |s|
  {
    if |s| < width {
      var t := ['0'] + s;
      LeadingZero(s);
      ZeroPadForm(t, width);
      var r := ZeroPad(t, width);
      assert r[|r| - |s|..] == r[|r| - |t|..][1..];
      assert r[|r| - |t|] == t[0];
    }
  }

  /** fmt's "{:0Nd}" with N = width: the decimal form of n, preceded by as many zeros
      as it takes to reach width characters, and by none when it is that long already. */
  function Padded(n: nat, width: nat): (s: string)
    ensures AllDigits(s) && ValueOf(s) == n
    ensures |s| == if |Digits(n)| >= width then |Digits(n)| else width
    ensures |s| >= width
    ensures 0 < width && n < Pow10(width) ==> |s| == width
  {
    assert 0 < width && n < Pow10(width) ==> |Digits(n)| <= width by { DigitsLength(n, width); }
    ZeroPad(Digits(n), width)
  }

  /** The padded form is zeros followed by the plain decimal form, so a number
      already width digits long is printed unchanged. */
  lemma {:induction false} PaddedForm(n: nat, width: nat)
    ensures var s := Padded(n, width);
      s[|s| - |Digits(n)|..] == Digits(n) && forall k :: 0 <= k < |s| - |Digits(n)| ==> s[k] == '0'
    ensures |Digits(n)| >= width ==> Padded(n, width) == Digits(n)
  {
    ZeroPadForm(Digits(n), width);
  }

  /** Number of occurrences of c in s. */
  function Count(s: string, c: char): nat {
    if s == [] then 0 else (if s[0] == c then 1 else 0) + Count(s[1..], c)
  }

  lemma {:induction false} CountConcat(s: string, t: string, c: char)
    ensures Count(s + t, c) == Count(s, c) + Count(t, c)
    decreases |s|
  {
    if s != [] {
      assert (s + t)[1..] == s[1..] + t;
      CountConcat(s[1..], t, c);
    } else {
      assert s + t == t;
    }
  }

  lemma {:induction false} CountInDigits(s: string, c: char)
    requires AllDigits(s) && !IsDigit(c)
    ensures Count(s, c) == 0
    decreases |s|
  {
    if s != [] {
      CountInDigits(s[1..], c);
    }
  }
}
