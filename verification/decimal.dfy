/** The unsigned decimal conversions the firmware's `printf` calls use:
    `%u`, `%3u` and `%5u`, right-aligned and padded with spaces. */
module Decimal {

  predicate IsDigit(c: char)
  {
    '0' <= c <= '9'
  }

  function DigitChar(d: nat): (c: char)
    requires d < 10
    ensures IsDigit(c)
  {
    "0123456789"[d]
  }

  function DigitValue(c: char): (d: nat)
    requires IsDigit(c)
    ensures d < 10
  {
    c as int - '0' as int
  }

  /** The digits of n, most significant first, without leading zeros. */
  function Digits(n: nat): (s: string)
    ensures 1 <= |s|
    ensures forall i | 0 <= i < |s| :: IsDigit(s[i])
    ensures s[0] == '0' ==> n == 0
    decreases n
  {
    if n < 10 then [DigitChar(n)] else Digits(n / 10) + [DigitChar(n % 10)]
  }

  /** The number a string of digits spells. */
  function DigitsValue(s: string): nat
    requires forall i | 0 <= i < |s| :: IsDigit(s[i])
    decreases |s|
  {
    if s == [] then 0 else DigitsValue(s[..|s| - 1]) * 10 + DigitValue(s[|s| - 1])
  }

  lemma {:induction false} ValueOfDigits(n: nat)
    ensures DigitsValue(Digits(n)) == n
    decreases n
  {
    var s := Digits(n);
    if n >= 10 {
      ValueOfDigits(n / 10);
      assert s[..|s| - 1] == Digits(n / 10);
    }
  }

  function Spaces(k: nat): (s: string)
    ensures |s| == k && forall i | 0 <= i < k :: s[i] == ' '
  {
    seq(k, _ => ' ')
  }

  /** `printf("%<width>u", n)`: the digits of n, preceded by spaces up to
      `width` characters; a wider number is never cut. */
  function Field(n: nat, width: nat): (s: string)
    ensures |s| == if |Digits(n)| < width then width else |Digits(n)|
  {
    var d := Digits(n);
    if |d| < width then Spaces(width - |d|) + d else d
  }

  function TrimSpaces(s: string): string
    decreases |s|
  {
    if s != [] && s[0] == ' ' then TrimSpaces(s[1..]) else s
  }

  /** Reading a printed field back: leading padding removed, the digits give
      the number that was printed, whatever the width. */
  lemma FieldRoundTrip(n: nat, width: nat)
    ensures var t := TrimSpaces(Field(n, width));
      (forall i | 0 <= i < |t| :: IsDigit(t[i])) && DigitsValue(t) == n
  {
    var d := Digits(n);
    if |d| < width {
      TrimPadding(width - |d|, d);
    }
    ValueOfDigits(n);
  }

  lemma {:induction false} TrimPadding(k: nat, d: string)
    requires d != [] && d[0] != ' '
    ensures TrimSpaces(Spaces(k) + d) == d
    decreases k
  {
    if k > 0 {
      assert (Spaces(k) + d)[1..] == Spaces(k - 1) + d;
      TrimPadding(k - 1, d);
    } else {
      assert Spaces(0) + d == d;
    }
  }
}
