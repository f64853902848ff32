/** Printing an integer digit by digit, as numtostr does, at every 64-bit value. */
module JsonNumber {
  import opened Bytes
  import opened Decimal

  /** Division and remainder of C++ integers, which round toward zero. */
  function Quotient(x: int): int {
    if x >= 0 then x / 10 else -(-x / 10)
  }

  function Remainder(x: int): int {
    x - 10 * Quotient(x)
  }

  function Abs(x: int): nat {
    if x < 0 then -x else x
  }

  function Reverse(s: string): (r: string)
    ensures |r| == |s|
  {
    if s == "" then "" else Reverse(s[1..]) + [s[0]]
  }

  lemma {:induction false} ReverseSnoc(s: string, c: char)
    ensures Reverse(s + [c]) == [c] + Reverse(s)
    decreases |s|
  {
    if s == "" {
      assert s + [c] == [c] && [c][1..] == "";
    } else {
      ReverseSnoc(s[1..], c);
      assert (s + [c])[1..] == s[1..] + [c];
    }
  }

  function Power(n: nat): (p: nat)
    ensures p > 0
  {
    if n == 0 then 1 else 10 * Power(n - 1)
  }

  lemma TwentyDigits()
    ensures Power(20) == 100_000_000_000_000_000_000
  {
    assert Power(5) == 100_000;
    assert Power(8) == 1000 * Power(5);
    assert Power(11) == 1000 * Power(8);
    assert Power(14) == 1000 * Power(11);
    assert Power(17) == 1000 * Power(14);
    assert Power(20) == 1000 * Power(17);
  }

  /** The digits of what is left, then those written so far the other way round. */
  function Rest(x: int): string {
    if x == 0 then "" else Digits(Abs(x))
  }

  lemma DigitStep(x: int, n: nat, tail: string)
    requires x != 0 && n > 0 && Abs(x) < Power(n)
    ensures Abs(Remainder(x)) < 10 && Abs(Quotient(x)) < Abs(x) && Abs(Quotient(x)) < Power(n - 1)
    ensures Rest(x) + tail == Rest(Quotient(x)) + ([DigitChar(Abs(Remainder(x)))] + tail)
  {
    assert Abs(Quotient(x)) == Abs(x) / 10 && Abs(Remainder(x)) == Abs(x) % 10;
  }

  lemma AtMostTwenty(value: int)
    requires FitsSigned(value, 8) || 0 <= value < Span(8)
    ensures Abs(value) < Power(20)
  {
    hide Power;
    SpanValues();
    TwentyDigits();
  }

  /** One round of the loop, with `n` more digits allowed. */
  lemma NextDigit(x: int, n: nat, tail: string, all: string)
    requires x != 0 && Abs(x) < Power(n) && Rest(x) + tail == all
    ensures n > 0 && Abs(Remainder(x)) < 10 && Abs(Quotient(x)) < Abs(x) && Abs(Quotient(x)) < Power(n - 1)
    ensures Rest(Quotient(x)) + ([DigitChar(Abs(Remainder(x)))] + tail) == all
  {
    hide Digits;
    DigitStep(x, n, tail);
  }

  lemma NoneWritten(s: string, x: int)
    requires s == "" && x != 0
    ensures Rest(x) + Reverse(s) == Digits(Abs(x))
  {
  }

  lemma AllWritten(x: int, s: string)
    requires x == 0
    ensures Rest(x) + s == s
  {
  }

  const BUFFER: nat := 64

  /** One character appended to what is written so far. */
  method PutChar(buf: array<char>, i: nat, c: char)
    requires i < buf.Length
    modifies buf
    ensures Reverse(buf[..i + 1]) == [c] + old(Reverse(buf[..i]))
  {
    ghost var before := buf[..i];
    buf[i] := c;
    ReverseSnoc(before, c);
    assert buf[..i + 1] == before + [c];
  }

  /** The digits of a number other than zero, lowest first. */
  method PutDigits(buf: array<char>, value: int) returns (i: nat)
    requires value != 0 && Abs(value) < Power(20) && buf.Length == BUFFER
    modifies buf
    ensures i <= 20 && Reverse(buf[..i]) == Digits(Abs(value))
  {
    ghost var all := Digits(Abs(value));
    var x := value;
    i := 0;
    NoneWritten(buf[..0], value);
    hide Digits, Reverse, Power, Quotient, Remainder, Rest;
    while x != 0 && i < BUFFER - 1
      invariant i <= 20 && Abs(x) < Power(20 - i)
      invariant Rest(x) + Reverse(buf[..i]) == all
      decreases Abs(x)
    {
      NextDigit(x, 20 - i, Reverse(buf[..i]), all);
      PutChar(buf, i, DigitChar(Abs(Remainder(x))));
      i := i + 1;
      x := Quotient(x);
    }
    AllWritten(x, Reverse(buf[..i]));
  }

  /** x_write: digits into a buffer of 64 characters, then a sign, then all reversed. */
  method NumToStr(value: int) returns (r: string)
    requires FitsSigned(value, 8) || 0 <= value < Span(8)
    ensures r == Printed(value)
  {
    AtMostTwenty(value);
    assert Digits(0) == "0";
    hide Digits, Span, Reverse, Power, FitsSigned;
    if value == 0 { return "0"; }
    var buf := new char[BUFFER](_ => 0 as char);
    var i := PutDigits(buf, value);
    if value < 0 {
      PutChar(buf, i, '-');
      i := i + 1;
    }
    r := Reverse(buf[..i]);
  }
}
