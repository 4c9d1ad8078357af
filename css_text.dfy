/**
 * The text of a pixel length as the engines write it into a CSS custom
 * property (`${n}px`), and the parse that reads it back.
 */
module CssText {
  import opened Wrappers

  predicate IsDigit(c: char) {
    '0' <= c <= '9'
  }

  function DigitChar(d: nat): (c: char)
    requires d < 10
    ensures IsDigit(c)
  {
    "0123456789"[d]
  }

  function DigitValue(c: char): (d: nat)
    requires IsDigit(c)
    ensures d < 10
  {
    (c as int - '0' as int) as nat
  }

  /** The decimal digits of n, without leading zeros. */
  function Digits(n: nat): (s: string)
    ensures |s| > 0 && forall i :: 0 <= i < |s| ==> IsDigit(s[i])
    decreases n
  {
    if n < 10 then [DigitChar(n)] else Digits(n / 10) + [DigitChar(n % 10)]
  }

  /** The value of a string of decimal digits. */
  function DigitsValue(s: string): (n: nat)
    requires forall i :: 0 <= i < |s| ==> IsDigit(s[i])
    decreases |s|
  {
    if |s| == 0 then 0 else DigitsValue(s[..|s| - 1]) * 10 + DigitValue(s[|s| - 1])
  }

  lemma {:induction false} DigitsRoundTrip(n: nat)
    ensures DigitsValue(Digits(n)) == n
    decreases n
  {
    var s := Digits(n);
    if n >= 10 {
      DigitsRoundTrip(n / 10);
      assert s[..|s| - 1] == Digits(n / 10);
      assert DigitValue(s[|s| - 1]) == n % 10 by {
        assert s[|s| - 1] == "0123456789"[n % 10];
      }
    } else {
      assert DigitValue(s[0]) == n by {
        assert s[0] == "0123456789"[n];
      }
    }
  }

  /** String(n) for a whole number: a minus sign for negatives, then the digits. */
  function IntText(n: int): string {
    if n < 0 then "-" + Digits(-n) else Digits(n)
  }

  /** `${n}px`. */
  function PxText(n: int): string {
    IntText(n) + "px"
  }

  predicate AllDigits(s: string) {
    forall i :: 0 <= i < |s| ==> IsDigit(s[i])
  }

  /** Reads back a whole pixel length: optional minus sign, at least one digit, then "px". */
  function ParsePx(s: string): (r: Option<int>)
    ensures r.Some? ==> |s| >= 3 && s[|s| - 2..] == "px"
  {
    if |s| < 3 || s[|s| - 2..] != "px" then None
    else
      var body := s[..|s| - 2];
      if body[0] == '-' && |body| > 1 && AllDigits(body[1..]) then Some(-(DigitsValue(body[1..]) as int))
      else if AllDigits(body) then Some(DigitsValue(body))
      else None
  }

  /** The written text of every whole number reads back as that number. */
  lemma PxTextRoundTrip(n: int)
    ensures ParsePx(PxText(n)) == Some(n)
  {
    var s := PxText(n);
    var digits := Digits(if n < 0 then -n else n);
    DigitsRoundTrip(if n < 0 then -n else n);
    assert s[|s| - 2..] == "px";
    if n < 0 {
      assert s[..|s| - 2] == "-" + digits;
      assert ("-" + digits)[1..] == digits;
    } else {
      assert s[..|s| - 2] == digits;
      assert digits[0] != '-' by { assert IsDigit(digits[0]); }
    }
  }
}
