/** Decimal printing and reading of numbers. */
module Decimal {
  predicate IsDigit(c: char) {
    '0' <= c <= '9'
  }

  function DigitChar(d: int): (c: char)
    requires 0 <= d < 10
    ensures IsDigit(c) && (c as int) - ('0' as int) == d
  {
    ('0' as int + d) as char
  }

  function DigitValue(c: char): (d: int)
    requires IsDigit(c)
    ensures 0 <= d < 10 && DigitChar(d) == c
  {
    (c as int) - ('0' as int)
  }

  /** std::to_string of an index. */
  function Digits(n: nat): (s: string)
    ensures s != [] && forall i :: 0 <= i < |s| ==> IsDigit(s[i])
    ensures |s| > 1 ==> s[0] != '0'
  {
    if n < 10 then [DigitChar(n)] else Digits(n / 10) + [DigitChar(n % 10)]
  }

  /** The value of the digits at the front of `s`, read after digits worth `acc`. */
  function ReadDigits(s: string, acc: nat): nat
    decreases |s|
  {
    if s == [] || !IsDigit(s[0]) then acc else ReadDigits(s[1..], 10 * acc + DigitValue(s[0]))
  }

  predicate IsSpace(c: char) {
    c == ' ' || '\t' <= c <= '\r'
  }

  lemma {:induction false} ReadConcat(a: string, b: string, acc: nat)
    requires forall i :: 0 <= i < |a| ==> IsDigit(a[i])
    ensures ReadDigits(a + b, acc) == ReadDigits(b, ReadDigits(a, acc))
    decreases |a|
  {
    if a == [] {
      assert a + b == b;
    } else {
      assert (a + b)[1..] == a[1..] + b;
      ReadConcat(a[1..], b, 10 * acc + DigitValue(a[0]));
    }
  }

  /** Reading the printed form of a number gives the number. */
  lemma {:induction false} DigitsRoundTrip(n: nat)
    ensures ReadDigits(Digits(n), 0) == n
    decreases n
  {
    if n >= 10 {
      DigitsRoundTrip(n / 10);
      ReadConcat(Digits(n / 10), [DigitChar(n % 10)], 0);
      assert [DigitChar(n % 10)][1..] == [];
    } else {
      assert Digits(n)[1..] == [];
    }
  }

  /** std::to_string of a signed number. */
  function Printed(n: int): (s: string)
    ensures s != [] && '.' !in s && '/' !in s
  {
    if n < 0 then "-" + Digits(-n) else Digits(n)
  }
}
