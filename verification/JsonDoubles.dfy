/** Doubles are equal exactly when they are the same number (IEEE 754, binary64). */
module JsonDoubles {
  import opened Bytes
  import opened JsonValue

  function Exponent(f: Float64): nat {
    var a: int := f[0];
    var b: int := f[1];
    a % 128 * 16 + b / 16
  }

  function Fraction(f: Float64): nat {
    var b: int := f[1];
    b % 16 * 0x1_0000_0000_0000 + BeVal(f[2..])
  }

  function Pow2(n: nat): nat {
    if n == 0 then 1 else 2 * Pow2(n - 1)
  }

  const HIDDEN := 0x10_0000_0000_0000

  /** The number in units of the smallest positive double, which is two to the power of -1074. */
  function Magnitude(e: nat, m: nat): nat {
    if e == 0 then m else (HIDDEN + m) * Pow2(e - 1)
  }

  function UnitsOf(f: Float64): int {
    var m: int := Magnitude(Exponent(f), Fraction(f));
    if f[0] >= 128 then -m else m
  }

  lemma {:induction false} Pow2Grows(a: nat, b: nat)
    requires a < b
    ensures 2 * Pow2(a) <= Pow2(b) && Pow2(a) >= 1
    decreases b
  {
    if a + 1 < b { Pow2Grows(a, b - 1); } else if a > 0 { Pow2Grows(a - 1, a); }
  }

  /** A greater exponent outweighs every fraction. */
  lemma ExponentDecides(e: nat, m: nat, f: nat, n: nat)
    requires e < f && m < HIDDEN
    ensures Magnitude(e, m) < Magnitude(f, n)
  {
    if e == 0 {
      if f > 1 { Pow2Grows(0, f - 1); }
      assert (HIDDEN + n) * Pow2(f - 1) >= HIDDEN + n;
    } else {
      Pow2Grows(e - 1, f - 1);
      var p, q := Pow2(e - 1), Pow2(f - 1);
      assert (HIDDEN + m) * p < (2 * HIDDEN) * p == HIDDEN * (2 * p) <= HIDDEN * q <= (HIDDEN + n) * q;
    }
  }

  lemma Times(a: int, b: int, p: int)
    requires a != b && p >= 1
    ensures a * p != b * p
  {
    assert (a - b) * p != 0;
  }

  lemma MagnitudeUnique(e: nat, m: nat, f: nat, n: nat)
    requires m < HIDDEN && n < HIDDEN
    ensures Magnitude(e, m) == Magnitude(f, n) <==> e == f && m == n
    ensures Magnitude(e, m) == 0 <==> e == 0 && m == 0
  {
    if e < f { ExponentDecides(e, m, f, n); }
    if f < e { ExponentDecides(f, n, e, m); }
    if e > 0 { ExponentDecides(0, 0, e, m); }
    if e == f && e > 0 && m != n {
      Pow2Grows(e - 1, e);
      Times(HIDDEN + m, HIDDEN + n, Pow2(e - 1));
    }
  }

  /** The sign bit, the exponent and the fraction are all a double has. */
  lemma FieldsDecide(x: Float64, y: Float64)
    ensures Exponent(x) == Exponent(y) && Fraction(x) == Fraction(y) <==> x[0] % 128 == y[0] % 128 && x[1..] == y[1..]
    ensures Exponent(x) == 0 && Fraction(x) == 0 <==> IsZero(x)
    ensures Fraction(x) < HIDDEN && Fraction(y) < HIDDEN
    ensures (x[0] >= 128 <==> y[0] >= 128) && x[0] % 128 == y[0] % 128 ==> x[0] == y[0]
  {
    hide BeVal, Span;
    var zero := [0, 0, 0, 0, 0, 0];
    BeUnique(x[2..], y[2..]);
    BeUnique(x[2..], zero);
    ZeroBytes(zero);
    BeBound(x[2..]);
    BeBound(y[2..]);
    SixBytes();
    assert x[1..] == [x[1]] + x[2..] && y[1..] == [y[1]] + y[2..];
  }

  lemma SixBytes()
    ensures Span(6) == 0x1_0000_0000_0000
  {
  }

  lemma {:induction false} ZeroBytes(s: seq<byte>)
    requires forall k :: 0 <= k < |s| ==> s[k] == 0
    ensures BeVal(s) == 0
    decreases |s|
  {
    if s != [] { ZeroBytes(s[..|s| - 1]); }
  }

  /** Two finite doubles are equal exactly when they are the same number, zero having two forms. */
  lemma FloatEqMeans(x: Float64, y: Float64)
    requires IsFinite(x) && IsFinite(y)
    ensures FloatEq(x, y) <==> UnitsOf(x) == UnitsOf(y)
  {
    hide Magnitude, Exponent, Fraction;
    FieldsDecide(x, y);
    FieldsDecide(y, x);
    MagnitudeUnique(Exponent(x), Fraction(x), Exponent(y), Fraction(y));
    MagnitudeUnique(Exponent(y), Fraction(y), Exponent(x), Fraction(x));
    assert x == [x[0]] + x[1..] && y == [y[0]] + y[1..];
  }

  /** An exponent of all ones: an infinity when the fraction is zero, else no number. */
  lemma SpecialDoubles(x: Float64)
    ensures IsFinite(x) <==> Exponent(x) != 2047
    ensures IsNaN(x) <==> Exponent(x) == 2047 && Fraction(x) != 0
  {
    BeUnique(x[2..], [0, 0, 0, 0, 0, 0]);
    ZeroBytes([0, 0, 0, 0, 0, 0]);
  }

  // ---------------------------------------------------------------- numbers of every kind

  /** One, in units of the smallest positive double. */
  function One(): nat {
    Pow2(1074)
  }

  predicate IsNumber(j: Json) {
    j.Int? || (j.Uint? && j.u <= 0x7fff_ffff_ffff_ffff) || (j.Float? && IsFinite(j.bits))
  }

  function Units(j: Json): int
    requires IsNumber(j)
  {
    match j
    case Int(n) => n * One()
    case Uint(n) => n * One()
    case Float(f) => UnitsOf(f)
  }

  /** The conversion loses nothing for these two. */
  predicate Exact(mix: Mixed, a: Json, b: Json) {
    && (a.Float? && b.Int? ==> (mix(b.i, a.bits) <==> UnitsOf(a.bits) == b.i * One()))
    && (a.Float? && b.Uint? ==> (mix(b.u, a.bits) <==> UnitsOf(a.bits) == b.u * One()))
  }

  /** Numbers of any two kinds are equal exactly when they are the same number, up to rounding. */
  lemma NumbersEqual(a: Json, b: Json, mix: Mixed)
    requires IsNumber(a) && IsNumber(b) && Exact(mix, a, b) && Exact(mix, b, a)
    ensures Eq(a, b, mix) <==> Units(a) == Units(b)
  {
    hide UnitsOf, One;
    if a.Float? && b.Float? {
      FloatEqMeans(a.bits, b.bits);
    } else if !a.Float? && !b.Float? {
      Cancels(if a.Int? then a.i else a.u, if b.Int? then b.i else b.u);
    }
  }

  lemma Cancels(m: int, n: int)
    ensures m * One() == n * One() <==> m == n
  {
    Pow2Grows(1074, 1075);
    hide Pow2;
    if m != n { Times(m, n, One()); }
  }
}
