/** JSON values as json.hpp holds them, with its own equality. */
module JsonValue {
  import opened Bytes

  datatype Result<+T> = Ok(value: T) | Err(error: Error) {
    predicate IsFailure() { Err? }
    function PropagateFailure<U>(): Result<U>
      requires Err?
    {
      Err(error)
    }
    function Extract(): T
      requires Ok?
    {
      value
    }
  }

  datatype Error = OutOfRange | DomainError | InvalidArgument | LengthError | AssertionFailed

  /** A double as its eight bytes, highest first. */
  type Float64 = s: seq<byte> | |s| == 8 witness [0, 0, 0, 0, 0, 0, 0, 0]

  datatype Json =
    | Null
    | Bool(b: bool)
    | Int(i: int)
    | Uint(u: nat)
    | Float(bits: Float64)
    | Str(s: string)
    | Arr(items: seq<Json>)
    | Obj(members: map<string, Json>)

  /** How a number compares with a double after conversion; its rounding is left to the platform. */
  type Mixed = (int, Float64) -> bool

  predicate IsNaN(f: Float64) {
    f[0] % 128 == 127 && f[1] >= 240 && !(f[1] == 240 && f[2..] == [0, 0, 0, 0, 0, 0])
  }

  /** Neither an infinity nor a NaN. */
  predicate IsFinite(f: Float64) {
    !(f[0] % 128 == 127 && f[1] >= 240)
  }

  predicate IsZero(f: Float64) {
    f[0] % 128 == 0 && f[1..] == [0, 0, 0, 0, 0, 0, 0]
  }

  predicate FloatEq(x: Float64, y: Float64) {
    !IsNaN(x) && !IsNaN(y) && (x == y || (IsZero(x) && IsZero(y)))
  }

  /** static_cast to a signed 64-bit integer. */
  function ToInt64(u: int): int {
    if u >= 0x8000_0000_0000_0000 then u - 0x1_0000_0000_0000_0000 else u
  }

  /** operator==. Signed and unsigned numbers are compared after a cast to signed. */
  predicate Eq(a: Json, b: Json, mix: Mixed)
    decreases a
  {
    match (a, b)
    case (Arr(x), Arr(y)) => |x| == |y| && forall i :: 0 <= i < |x| ==> Eq(x[i], y[i], mix)
    case (Obj(x), Obj(y)) => x.Keys == y.Keys && forall k :: k in x ==> Eq(x[k], y[k], mix)
    case (Null, Null) => true
    case (Str(x), Str(y)) => x == y
    case (Bool(x), Bool(y)) => x == y
    case (Int(x), Int(y)) => x == y
    case (Uint(x), Uint(y)) => x == y
    case (Float(x), Float(y)) => FloatEq(x, y)
    case (Int(x), Float(y)) => mix(x, y)
    case (Float(x), Int(y)) => mix(y, x)
    case (Uint(x), Float(y)) => mix(x, y)
    case (Float(x), Uint(y)) => mix(y, x)
    case (Uint(x), Int(y)) => ToInt64(x) == y
    case (Int(x), Uint(y)) => x == ToInt64(y)
    case _ => false
  }

  predicate IsPrimitive(j: Json) {
    !j.Arr? && !j.Obj?
  }

  /** No double in the value is a NaN. */
  predicate NoNaN(j: Json) {
    match j
    case Float(f) => !IsNaN(f)
    case Arr(x) => forall i :: 0 <= i < |x| ==> NoNaN(x[i])
    case Obj(x) => forall k :: k in x ==> NoNaN(x[k])
    case _ => true
  }

  /** What constructing a value from a double gives: infinities and NaN are replaced by null. */
  function FromDouble(f: Float64): Json {
    if IsFinite(f) then Float(f) else Null
  }

  /** Every double in the value is finite. Assigning through a reference to the number can break this. */
  predicate AllFinite(j: Json) {
    match j
    case Float(f) => IsFinite(f)
    case Arr(x) => forall i :: 0 <= i < |x| ==> AllFinite(x[i])
    case Obj(x) => forall k :: k in x ==> AllFinite(x[k])
    case _ => true
  }

  lemma {:induction false} EqReflexive(j: Json, mix: Mixed)
    requires NoNaN(j)
    ensures Eq(j, j, mix)
  {
    match j
    case Arr(x) =>
      forall i | 0 <= i < |x| ensures Eq(x[i], x[i], mix) { EqReflexive(x[i], mix); }
    case Obj(x) =>
      forall k | k in x ensures Eq(x[k], x[k], mix) { EqReflexive(x[k], mix); }
    case _ =>
  }

  /** A conversion never makes a number equal to a NaN. */
  ghost predicate Ordinary(mix: Mixed) {
    forall n, f :: IsNaN(f) ==> !mix(n, f)
  }

  /** Nothing equals a value that holds a NaN. */
  lemma {:induction false} EqNeedsNoNaN(a: Json, b: Json, mix: Mixed)
    requires Ordinary(mix) && Eq(a, b, mix)
    ensures NoNaN(b)
    decreases a
  {
    match (a, b)
    case (Arr(x), Arr(y)) =>
      forall i | 0 <= i < |y| ensures NoNaN(y[i]) { EqNeedsNoNaN(x[i], y[i], mix); }
    case (Obj(x), Obj(y)) =>
      forall k | k in y ensures NoNaN(y[k]) { EqNeedsNoNaN(x[k], y[k], mix); }
    case _ =>
  }

  // ---------------------------------------------------------------- values as the text and binary formats keep them

  /** What the two integer types can hold. */
  predicate InRange(j: Json) {
    match j
    case Int(n) => FitsSigned(n, 8)
    case Uint(n) => n < Span(8)
    case Arr(x) => forall i :: 0 <= i < |x| ==> InRange(x[i])
    case Obj(m) => forall k :: k in m ==> InRange(m[k])
    case _ => true
  }

  /**
   A value as it comes back: the formats do not tell positive signed numbers from unsigned ones, and a double
   that is not finite comes back as null.
   */
  function Canonical(j: Json): Json {
    match j
    case Int(n) => if n >= 0 then Uint(n) else j
    case Float(f) => FromDouble(f)
    case Arr(x) => Arr(seq(|x|, i requires 0 <= i < |x| => Canonical(x[i])))
    case Obj(m) => Obj(map k | k in m :: Canonical(m[k]))
    case _ => j
  }

  /** The code's own equality does not tell such numbers apart either, but no double equals null. */
  lemma {:induction false} CanonicalEquals(j: Json, mix: Mixed)
    requires InRange(j)
    ensures Eq(Canonical(j), j, mix) <==> AllFinite(j)
  {
    match j
    case Arr(x) =>
      forall i | 0 <= i < |x| ensures Eq(Canonical(x[i]), x[i], mix) <==> AllFinite(x[i]) { CanonicalEquals(x[i], mix); }
    case Obj(m) =>
      forall k | k in m ensures Eq(Canonical(m[k]), m[k], mix) <==> AllFinite(m[k]) { CanonicalEquals(m[k], mix); }
    case Int(n) => SpanValues();
    case _ =>
  }

  // ---------------------------------------------------------------- what equality means

  /** No double occurs in the value. */
  predicate NoFloat(j: Json) {
    match j
    case Float(_) => false
    case Arr(x) => forall i :: 0 <= i < |x| ==> NoFloat(x[i])
    case Obj(m) => forall k :: k in m ==> NoFloat(m[k])
    case _ => true
  }

  /** Numbers as equality sees them: an unsigned one counts as the signed one with the same bits. */
  function AsSigned(j: Json): Json {
    match j
    case Uint(n) => Int(ToInt64(n))
    case Arr(x) => Arr(seq(|x|, i requires 0 <= i < |x| => AsSigned(x[i])))
    case Obj(m) => Obj(map k | k in m :: AsSigned(m[k]))
    case _ => j
  }

  /** Without doubles, two values are equal exactly when they are the same up to the type of their numbers. */
  lemma {:induction false} EqIsSame(a: Json, b: Json, mix: Mixed)
    requires InRange(a) && InRange(b) && NoFloat(a) && NoFloat(b)
    ensures Eq(a, b, mix) <==> AsSigned(a) == AsSigned(b)
    decreases a
  {
    match (a, b)
    case (Arr(x), Arr(y)) =>
      if |x| == |y| {
        forall i | 0 <= i < |x| ensures Eq(x[i], y[i], mix) <==> AsSigned(x[i]) == AsSigned(y[i]) { EqIsSame(x[i], y[i], mix); }
        ItemsSame(x, y);
      } else {
        LengthsSame(x, y);
      }
    case (Obj(x), Obj(y)) =>
      if x.Keys == y.Keys {
        forall k | k in x ensures Eq(x[k], y[k], mix) <==> AsSigned(x[k]) == AsSigned(y[k]) { EqIsSame(x[k], y[k], mix); }
        MembersSame(x, y);
      } else {
        KeysSame(x, y);
      }
    case _ => SpanValues();
  }

  lemma ItemsSame(x: seq<Json>, y: seq<Json>)
    requires |x| == |y|
    ensures AsSigned(Arr(x)) == AsSigned(Arr(y)) <==> forall i :: 0 <= i < |x| ==> AsSigned(x[i]) == AsSigned(y[i])
  {
    var p, q := AsSigned(Arr(x)).items, AsSigned(Arr(y)).items;
    assert forall i :: 0 <= i < |x| ==> p[i] == AsSigned(x[i]) && q[i] == AsSigned(y[i]);
  }

  lemma LengthsSame(x: seq<Json>, y: seq<Json>)
    ensures AsSigned(Arr(x)) == AsSigned(Arr(y)) ==> |x| == |y|
  {
    assert |AsSigned(Arr(x)).items| == |x| && |AsSigned(Arr(y)).items| == |y|;
  }

  lemma MembersSame(x: map<string, Json>, y: map<string, Json>)
    requires x.Keys == y.Keys
    ensures AsSigned(Obj(x)) == AsSigned(Obj(y)) <==> forall k :: k in x ==> AsSigned(x[k]) == AsSigned(y[k])
  {
    var p, q := AsSigned(Obj(x)).members, AsSigned(Obj(y)).members;
    assert forall k :: k in x ==> k in p && k in q && p[k] == AsSigned(x[k]) && q[k] == AsSigned(y[k]);
  }

  lemma KeysSame(x: map<string, Json>, y: map<string, Json>)
    ensures AsSigned(Obj(x)) == AsSigned(Obj(y)) ==> x.Keys == y.Keys
  {
    assert AsSigned(Obj(x)).members.Keys == x.Keys && AsSigned(Obj(y)).members.Keys == y.Keys;
  }

  /** Equality does not depend on the order of its operands. */
  lemma {:induction false} EqSymmetric(a: Json, b: Json, mix: Mixed)
    ensures Eq(a, b, mix) <==> Eq(b, a, mix)
    decreases a
  {
    match (a, b)
    case (Arr(x), Arr(y)) =>
      if |x| == |y| { forall i | 0 <= i < |x| ensures Eq(x[i], y[i], mix) <==> Eq(y[i], x[i], mix) { EqSymmetric(x[i], y[i], mix); } }
    case (Obj(x), Obj(y)) =>
      if x.Keys == y.Keys { forall k | k in x ensures Eq(x[k], y[k], mix) <==> Eq(y[k], x[k], mix) { EqSymmetric(x[k], y[k], mix); } }
    case _ =>
  }

  /** So two different numbers can be equal: the largest unsigned one and minus one. */
  lemma EqWrapsAround(mix: Mixed)
    ensures Eq(Uint(0xffff_ffff_ffff_ffff), Int(-1), mix) && !Eq(Uint(0xffff_ffff_ffff_ffff), Uint(0), mix)
  {
  }
}
