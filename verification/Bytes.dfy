/**
 Bytes and the fixed-width integers stored in them: little-endian for the fields of a journal page,
 big-endian for the numbers inside CBOR and MessagePack.
 */
module Bytes {

  type byte = b: int | 0 <= b < 256

  /** 256 to the power `w`: the number of values that fit in `w` bytes. */
  function Span(w: nat): (s: int)
    ensures s >= 1
  {
    if w == 0 then 1 else 256 * Span(w - 1)
  }

  /** The low `w` bytes of `n` in two's complement, lowest byte first. */
  function Le(n: int, w: nat): (s: seq<byte>)
    ensures |s| == w
    decreases w
  {
    if w == 0 then [] else [n % 256] + Le(n / 256, w - 1)
  }

  function LeVal(s: seq<byte>): nat {
    if s == [] then 0 else s[0] + 256 * LeVal(s[1..])
  }

  /** The low `w` bytes of `n` in two's complement, highest byte first. */
  function Be(n: int, w: nat): (s: seq<byte>)
    ensures |s| == w
    decreases w
  {
    if w == 0 then [] else Be(n / 256, w - 1) + [n % 256]
  }

  function BeVal(s: seq<byte>): nat {
    if s == [] then 0 else 256 * BeVal(s[..|s| - 1]) + s[|s| - 1]
  }

  /** Reads an unsigned value of `w` bytes as two's complement. */
  function Signed(v: int, w: nat): int {
    if 2 * v >= Span(w) then v - Span(w) else v
  }

  predicate FitsSigned(n: int, w: nat) {
    -Span(w) <= 2 * n < Span(w)
  }

  lemma {:induction false} LeRoundTrip(n: int, w: nat)
    requires -Span(w) <= n < Span(w)
    ensures LeVal(Le(n, w)) == if n < 0 then n + Span(w) else n
    decreases w
  {
    if w > 0 {
      LeRoundTrip(n / 256, w - 1);
      assert Le(n, w)[1..] == Le(n / 256, w - 1);
    }
  }

  lemma {:induction false} BeRoundTrip(n: int, w: nat)
    requires -Span(w) <= n < Span(w)
    ensures BeVal(Be(n, w)) == if n < 0 then n + Span(w) else n
    decreases w
  {
    if w > 0 {
      BeRoundTrip(n / 256, w - 1);
      assert Be(n, w)[..w - 1] == Be(n / 256, w - 1);
    }
  }

  /** Writing a signed field and reading it back gives the value that was written. */
  lemma LeSigned(n: int, w: nat)
    requires FitsSigned(n, w)
    ensures Signed(LeVal(Le(n, w)), w) == n
  {
    LeRoundTrip(n, w);
  }

  lemma BeSigned(n: int, w: nat)
    requires FitsSigned(n, w)
    ensures Signed(BeVal(Be(n, w)), w) == n
  {
    BeRoundTrip(n, w);
  }

  lemma SpanValues()
    ensures Span(1) == 0x100 && Span(2) == 0x1_0000 && Span(4) == 0x1_0000_0000 && Span(8) == 0x1_0000_0000_0000_0000
  {
    assert Span(2) == 256 * Span(1);
    assert Span(3) == 256 * Span(2) && Span(4) == 256 * Span(3);
    assert Span(5) == 256 * Span(4) && Span(6) == 256 * Span(5);
    assert Span(7) == 256 * Span(6) && Span(8) == 256 * Span(7);
  }

  lemma {:induction false} BeBound(bs: seq<byte>)
    ensures BeVal(bs) < Span(|bs|)
    decreases |bs|
  {
    if bs != [] { BeBound(bs[..|bs| - 1]); }
  }

  lemma {:induction false} BeUnique(a: seq<byte>, b: seq<byte>)
    requires |a| == |b|
    ensures BeVal(a) == BeVal(b) <==> a == b
    decreases |a|
  {
    if a != [] {
      var n := |a| - 1;
      BeUnique(a[..n], b[..n]);
      assert a == a[..n] + [a[n]] && b == b[..n] + [b[n]];
    }
  }
}
