/** Decoding what was encoded: at any offset, with any bytes after it, in both formats. */
module BinaryRoundTrip {
  import opened Bytes
  import opened JsonValue
  import opened KeyOrder
  import opened Parts
  import opened BinaryEncode
  import opened BinaryDecode

  /** Sizes a head of the format can hold. */
  function Limit(fmt: Format): nat {
    if fmt.Cbor? then 0x1_0000_0000_0000_0000 else 0x1_0000_0000
  }

  predicate TextFits(fmt: Format, s: string) {
    |s| < Limit(fmt) && forall i :: 0 <= i < |s| ==> (s[i] as int) < 256
  }

  /** What the C++ types can hold: 64-bit numbers, strings of bytes, and sizes within the limit of the format. */
  predicate Fits(fmt: Format, j: Json) {
    match j
    case Int(n) => FitsSigned(n, 8)
    case Uint(n) => n < Span(8)
    case Str(s) => TextFits(fmt, s)
    case Arr(x) => |x| < Limit(fmt) && forall i :: 0 <= i < |x| ==> Fits(fmt, x[i])
    case Obj(m) => |m| < Limit(fmt) && forall k :: k in m ==> TextFits(fmt, k) && Fits(fmt, m[k])
    case _ => true
  }

  lemma {:induction false} FitsInRange(fmt: Format, j: Json)
    requires Fits(fmt, j)
    ensures InRange(j)
  {
    match j
    case Arr(x) => forall i | 0 <= i < |x| ensures InRange(x[i]) { FitsInRange(fmt, x[i]); }
    case Obj(m) => forall k | k in m ensures InRange(m[k]) { FitsInRange(fmt, m[k]); }
    case _ =>
  }

  // ---------------------------------------------------------------- heads

  lemma StandsFirst(v: seq<byte>, i: nat, first: byte, arg: seq<byte>)
    requires StandsAt(v, i, [first] + arg)
    ensures i < |v| && v[i] == first && After(v, i, |arg|) == Ok(arg)
  {
    StandsSplit(v, i, [first], arg);
    assert v[i..i + 1][0] == v[i];
  }

  lemma CborHeadReads(wide: Widen, major: int, n: nat, v: seq<byte>, i: nat)
    requires major in {0, 1, 3, 4, 5} && n < Span(8) && StandsAt(v, i, CborHead(major, n))
    ensures ReadToken(Cbor, wide, v, i) == Ok((CborToken(major, n), i + |CborHead(major, n)|))
  {
    hide Be, BeVal, Span, CborToken, StandsAt, After;
    SpanValues();
    if n <= 0x17 {
      assert [32 * major + n] + [] == [32 * major + n];
      StandsFirst(v, i, 32 * major + n, []);
    } else {
      var w := if n <= 0xff then 1 else if n <= 0xffff then 2 else if n <= 0xffff_ffff then 4 else 8;
      var low := if w == 1 then 24 else if w == 2 then 25 else if w == 4 then 26 else 27;
      BeRoundTrip(n, w);
      StandsFirst(v, i, 32 * major + low, Be(n, w));
    }
  }

  lemma PackNaturalReads(wide: Widen, n: nat, v: seq<byte>, i: nat)
    requires n < Span(8) && StandsAt(v, i, PackNatural(n))
    ensures ReadToken(MessagePack, wide, v, i) == Ok((Value(Uint(n)), i + |PackNatural(n)|))
  {
    hide Be, BeVal, Span, StandsAt;
    SpanValues();
    if n < 128 {
      assert [n] + [] == [n];
      StandsFirst(v, i, n, []);
    } else {
      var w := if n <= 0xff then 1 else if n <= 0xffff then 2 else if n <= 0xffff_ffff then 4 else 8;
      BeRoundTrip(n, w);
      StandsFirst(v, i, PackNatural(n)[0], Be(n, w));
    }
  }

  lemma PackNegativeReads(wide: Widen, n: int, v: seq<byte>, i: nat)
    requires n < 0 && FitsSigned(n, 8) && StandsAt(v, i, PackNegative(n))
    ensures ReadToken(MessagePack, wide, v, i) == Ok((Value(Int(n)), i + |PackNegative(n)|))
  {
    hide Be, BeVal, Span, StandsAt, Signed;
    SpanValues();
    if n >= -32 {
      assert [256 + n] + [] == [256 + n];
      StandsFirst(v, i, 256 + n, []);
    } else {
      var w := if n >= -0x80 then 1 else if n >= -0x8000 then 2 else if n >= -0x8000_0000 then 4 else 8;
      BeSigned(n, w);
      StandsFirst(v, i, PackNegative(n)[0], Be(n, w));
    }
  }

  function HeadToken(kind: Kind, n: nat): Token {
    match kind case Text => TextHead(n) case List => ListHead(n) case Table => TableHead(n)
  }

  lemma PackHeadReads(wide: Widen, kind: Kind, n: nat, v: seq<byte>, i: nat)
    requires n < Limit(MessagePack) && StandsAt(v, i, PackHead(kind, n))
    ensures ReadToken(MessagePack, wide, v, i) == Ok((HeadToken(kind, n), i + |PackHead(kind, n)|))
  {
    hide Be, BeVal, Span, StandsAt;
    SpanValues();
    var head := PackHead(kind, n);
    if |head| == 1 {
      assert head == [head[0]] + [];
      StandsFirst(v, i, head[0], []);
    } else {
      var w := |head| - 1;
      BeRoundTrip(n, w);
      assert head == [head[0]] + Be(n, w);
      StandsFirst(v, i, head[0], Be(n, w));
    }
  }

  lemma HeadReads(fmt: Format, wide: Widen, kind: Kind, n: nat, v: seq<byte>, i: nat)
    requires n < Limit(fmt) && StandsAt(v, i, Head(fmt, kind, n))
    ensures ReadToken(fmt, wide, v, i) == Ok((HeadToken(kind, n), i + |Head(fmt, kind, n)|))
  {
    hide StandsAt, CborHead, PackHead, ReadToken, Span;
    SpanValues();
    if fmt.Cbor? {
      CborHeadReads(wide, match kind case Text => 3 case List => 4 case Table => 5, n, v, i);
    } else {
      PackHeadReads(wide, kind, n, v, i);
    }
  }

  lemma NumberReads(fmt: Format, wide: Widen, n: int, v: seq<byte>, i: nat)
    requires (FitsSigned(n, 8) || 0 <= n < Span(8)) && StandsAt(v, i, Number(fmt, n))
    ensures ReadToken(fmt, wide, v, i) == Ok((Value(if n >= 0 then Uint(n) else Int(n)), i + |Number(fmt, n)|))
  {
    hide StandsAt, CborHead, PackNatural, PackNegative, ReadToken, Span;
    SpanValues();
    if fmt.Cbor? {
      CborHeadReads(wide, if n >= 0 then 0 else 1, if n >= 0 then n else -1 - n, v, i);
    } else if n >= 0 {
      PackNaturalReads(wide, n, v, i);
    } else {
      PackNegativeReads(wide, n, v, i);
    }
  }

  // ---------------------------------------------------------------- items

  /** An item goes on as its token says. */
  lemma DecodeByToken(fmt: Format, wide: Widen, v: seq<byte>, i: nat)
    requires ReadToken(fmt, wide, v, i).Ok?
    ensures var (tok, p) := ReadToken(fmt, wide, v, i).value;
      match tok
      case Value(j) => Decode(fmt, wide, v, i) == Ok((j, p))
      case TextHead(n) => p + n <= |v| ==> Decode(fmt, wide, v, i) == Ok((Str(Chars(v[p..p + n])), p + n))
      case ListHead(n) => Decode(fmt, wide, v, i) == DecodeItems(fmt, wide, v, p, n, [])
      case TableHead(n) => Decode(fmt, wide, v, i) == DecodePairs(fmt, wide, v, p, n, map[])
      case _ => true
  {
    hide ReadToken, DecodeItems, DecodePairs;
  }

  lemma CharsRaw(s: string)
    requires forall i :: 0 <= i < |s| ==> (s[i] as int) < 256
    ensures Chars(Raw(s)) == s
  {
  }

  lemma TextReads(fmt: Format, wide: Widen, s: string, v: seq<byte>, i: nat)
    requires TextFits(fmt, s) && StandsAt(v, i, EncodeText(fmt, s))
    ensures Decode(fmt, wide, v, i) == Ok((Str(s), i + |EncodeText(fmt, s)|))
  {
    hide Head, ReadToken, Raw, Chars, Decode;
    StandsSplit(v, i, Head(fmt, Text, |s|), Raw(s));
    HeadReads(fmt, wide, Text, |s|, v, i);
    DecodeByToken(fmt, wide, v, i);
    CharsRaw(s);
  }

  lemma FloatReads(fmt: Format, wide: Widen, f: Float64, v: seq<byte>, i: nat)
    requires StandsAt(v, i, [if fmt.Cbor? then 0xfb else 0xcb] + f)
    ensures ReadToken(fmt, wide, v, i) == Ok((Value(FromDouble(f)), i + 9))
  {
    hide StandsAt, After;
    StandsFirst(v, i, if fmt.Cbor? then 0xfb else 0xcb, f);
  }

  lemma SimpleReads(fmt: Format, wide: Widen, j: Json, v: seq<byte>, i: nat)
    requires (j.Null? || j.Bool?) && StandsAt(v, i, Encode(fmt, j))
    ensures ReadToken(fmt, wide, v, i) == Ok((Value(j), i + 1)) && |Encode(fmt, j)| == 1
  {
    hide StandsAt, After;
    var b := Encode(fmt, j)[0];
    assert Encode(fmt, j) == [b] + [];
    StandsFirst(v, i, b, []);
  }

  lemma ScalarReads(fmt: Format, wide: Widen, j: Json, v: seq<byte>, i: nat)
    requires IsPrimitive(j) && Fits(fmt, j) && StandsAt(v, i, Encode(fmt, j))
    ensures Decode(fmt, wide, v, i) == Ok((Canonical(j), i + |Encode(fmt, j)|))
  {
    hide ReadToken, Number, StandsAt, Span, Decode;
    match j
    case Str(s) => TextReads(fmt, wide, s, v, i);
    case Int(n) => { NumberReads(fmt, wide, n, v, i); DecodeByToken(fmt, wide, v, i); }
    case Uint(n) => { NumberReads(fmt, wide, n, v, i); DecodeByToken(fmt, wide, v, i); }
    case Float(f) => { FloatReads(fmt, wide, f, v, i); DecodeByToken(fmt, wide, v, i); }
    case _ => { SimpleReads(fmt, wide, j, v, i); DecodeByToken(fmt, wide, v, i); }
  }

  lemma {:induction false} ItemsRead(fmt: Format, wide: Widen, j: Json, k: nat, v: seq<byte>, i: nat)
    requires j.Arr? && Fits(fmt, j) && k <= |j.items| && StandsAt(v, i, EncodeItems(fmt, j, k))
    ensures DecodeItems(fmt, wide, v, i, |j.items| - k, Canonical(j).items[..k])
         == Ok((Canonical(j), i + |EncodeItems(fmt, j, k)|))
    decreases j, 0, |j.items| - k
  {
    hide Encode, Decode, StandsAt;
    var all := Canonical(j).items;
    if k == |j.items| {
      assert all[..k] == all;
      StandsWithin(v, i, EncodeItems(fmt, j, k));
    } else {
      var item := Encode(fmt, j.items[k]);
      StandsSplit(v, i, item, EncodeItems(fmt, j, k + 1));
      RoundTripAt(fmt, wide, j.items[k], v, i);
      StandsWithin(v, i, item);
      ItemsRead(fmt, wide, j, k + 1, v, i + |item|);
      assert all[..k] + [all[k]] == all[..k + 1];
    }
  }

  /** The members decoded once only those named in `keys` are left. */
  function Restricted(m: map<string, Json>, keys: seq<string>): map<string, Json> {
    map k | k in m && k !in Named(keys) :: Canonical(m[k])
  }

  lemma RestrictedStep(m: map<string, Json>, keys: seq<string>)
    requires keys != [] && keys[0] in m && forall a :: 0 < a < |keys| ==> keys[0] != keys[a]
    ensures Restricted(m, keys)[keys[0] := Canonical(m[keys[0]])] == Restricted(m, keys[1..])
  {
    hide Canonical;
    var k, tail := keys[0], keys[1..];
    forall a | 0 <= a < |tail| ensures tail[a] != k { assert tail[a] == keys[a + 1]; }
    assert Named(keys) == Named(tail) + {k} && k !in Named(tail);
  }

  /** A key and its value, one after the other. */
  lemma PairReads(fmt: Format, wide: Widen, k: string, j: Json, v: seq<byte>, i: nat)
    requires TextFits(fmt, k) && Fits(fmt, j) && StandsAt(v, i, EncodeText(fmt, k)) && StandsAt(v, i + |EncodeText(fmt, k)|, Encode(fmt, j))
    ensures var p := i + |EncodeText(fmt, k)| + |Encode(fmt, j)|;
      i <= |v| && p <= |v| && DecodePair(fmt, wide, v, i) == Ok((k, Canonical(j), p))
    decreases j, 2, 0
  {
    hide Encode, EncodeText, Decode, Canonical;
    TextReads(fmt, wide, k, v, i);
    RoundTripAt(fmt, wide, j, v, i + |EncodeText(fmt, k)|);
  }

  lemma {:induction false} PairsRead(fmt: Format, wide: Widen, j: Json, keys: seq<string>, v: seq<byte>, i: nat)
    requires j.Obj? && Fits(fmt, j) && (forall k :: k in keys ==> k in j.members)
    requires forall a, b :: 0 <= a < b < |keys| ==> keys[a] != keys[b]
    requires i <= |v| && StandsAt(v, i, EncodePairs(fmt, j, keys))
    ensures DecodePairs(fmt, wide, v, i, |keys|, Restricted(j.members, keys))
         == Ok((Obj(Restricted(j.members, [])), i + |EncodePairs(fmt, j, keys)|))
    decreases j, 0, |keys|
  {
    hide Encode, EncodeText, Decode, DecodePair, StandsAt, Canonical, Restricted, TextFits;
    var m := j.members;
    if keys != [] {
      var k, later := keys[0], EncodePairs(fmt, j, keys[1..]);
      var name, item := EncodeText(fmt, k), Encode(fmt, m[k]);
      assert EncodePairs(fmt, j, keys) == name + (item + later);
      StandsSplit(v, i, name, item + later);
      StandsSplit(v, i + |name|, item, later);
      PairReads(fmt, wide, k, m[k], v, i);
      PairsRead(fmt, wide, j, keys[1..], v, i + |name| + |item|);
      RestrictedStep(m, keys);
    }
  }

  /**
   Decoding the encoding of a value, at any offset and with any bytes after it, gives the value back in its
   canonical form and stops exactly at the end of the encoding.
   */
  lemma {:induction false} RoundTripAt(fmt: Format, wide: Widen, j: Json, v: seq<byte>, i: nat)
    requires Fits(fmt, j) && StandsAt(v, i, Encode(fmt, j))
    ensures Decode(fmt, wide, v, i) == Ok((Canonical(j), i + |Encode(fmt, j)|))
    decreases j, 1, 0
  {
    hide ReadToken, StandsAt, SortedKeys, Less, Decode, DecodeItems, DecodePairs, EncodeItems, EncodePairs, Head;
    match j
    case Arr(x) =>
      var head := Head(fmt, List, |x|);
      StandsSplit(v, i, head, EncodeItems(fmt, j, 0));
      HeadReads(fmt, wide, List, |x|, v, i);
      DecodeByToken(fmt, wide, v, i);
      ItemsRead(fmt, wide, j, 0, v, i + |head|);
    case Obj(m) =>
      var keys := SortedKeys(m.Keys);
      var head := Head(fmt, Table, |m|);
      StandsSplit(v, i, head, EncodePairs(fmt, j, keys));
      HeadReads(fmt, wide, Table, |m|, v, i);
      DecodeByToken(fmt, wide, v, i);
      forall a, b | 0 <= a < b < |keys| ensures keys[a] != keys[b] { SortedDistinct(m.Keys, a, b); }
      StandsWithin(v, i, head);
      PairsRead(fmt, wide, j, keys, v, i + |head|);
      assert Restricted(m, keys) == map[] && Restricted(m, []) == Canonical(j).members;
    case _ => ScalarReads(fmt, wide, j, v, i);
  }

  /** The same for a whole vector: what comes back equals the value if and only if all its doubles are finite. */
  lemma RoundTrip(fmt: Format, wide: Widen, j: Json, before: seq<byte>, after: seq<byte>, mix: Mixed)
    requires Fits(fmt, j)
    ensures var r := Decode(fmt, wide, before + Encode(fmt, j) + after, |before|);
      r.Ok? && r.value.1 == |before| + |Encode(fmt, j)| && (Eq(r.value.0, j, mix) <==> AllFinite(j))
  {
    hide Encode, Decode, Eq;
    var v := before + Encode(fmt, j) + after;
    assert v[|before|..|before| + |Encode(fmt, j)|] == Encode(fmt, j);
    RoundTripAt(fmt, wide, j, v, |before|);
    FitsInRange(fmt, j);
    CanonicalEquals(j, mix);
  }
}
