/** Decimal digit strings: their value, and the canonical rendering of a
    natural number. Both the header parser of the download (JavaScript
    `parseInt(_, 10)`) and the channel-schedule parser of the UNet (Python
    `int(_)`) read numbers through these definitions. */
module Decimal {

  predicate IsDigit(c: char) {
    '0' <= c <= '9'
  }

  predicate AllDigits(s: string) {
    forall i :: 0 <= i < |s| ==> IsDigit(s[i])
  }

  function DigitValue(c: char): (d: nat)
    requires IsDigit(c)
    ensures d < 10
  {
    (c as int - '0' as int) as nat
  }

  function DigitChar(d: nat): (c: char)
    requires d < 10
    ensures IsDigit(c) && DigitValue(c) == d
  {
    ('0' as int + d) as char
  }

  /** The value of a string of decimal digits, most significant first. */
  function ValueOf(s: string): nat
    requires AllDigits(s)
  {
    if |s| == 0 then 0 else ValueOf(s[..|s| - 1]) * 10 + DigitValue(s[|s| - 1])
  }

  /** The number of decimal digits at the start of `s`. */
  function LeadingDigits(s: string): (k: nat)
    ensures k <= |s|
    ensures AllDigits(s[..k])
    ensures k < |s| ==> !IsDigit(s[k])
  {
    if |s| == 0 || !IsDigit(s[0]) then 0 else 1 + LeadingDigits(s[1..])
  }

  /** The shortest decimal rendering of `n` (no sign, no leading zeros). */
  function Render(n: nat): (s: string)
    ensures |s| > 0
    ensures AllDigits(s)
  {
    if n < 10 then [DigitChar(n)] else Render(n / 10) + [DigitChar(n % 10)]
  }

  /** Reading back a rendered number gives the number. */
  lemma {:induction false} ValueOfRender(n: nat)
    ensures ValueOf(Render(n)) == n
  {
    if n >= 10 {
      var r := Render(n / 10);
      var s := Render(n);
      assert s == r + [DigitChar(n % 10)];
      assert s[..|s| - 1] == r;
      ValueOfRender(n / 10);
    }
  }

  /** A rendered number is read in full: the digit run covers it, and stops
      at the first non-digit that follows it. */
  lemma LeadingDigitsOfRender(n: nat, rest: string)
    requires |rest| == 0 || !IsDigit(rest[0])
    ensures LeadingDigits(Render(n) + rest) == |Render(n)|
    ensures (Render(n) + rest)[..|Render(n)|] == Render(n)
  {
    LeadingDigitsOfDigits(Render(n), rest);
  }

  lemma {:induction false} LeadingDigitsOfDigits(s: string, rest: string)
    requires AllDigits(s)
    requires |rest| == 0 || !IsDigit(rest[0])
    ensures LeadingDigits(s + rest) == |s|
  {
    if |s| > 0 {
      assert (s + rest)[1..] == s[1..] + rest;
      LeadingDigitsOfDigits(s[1..], rest);
    }
  }
}
