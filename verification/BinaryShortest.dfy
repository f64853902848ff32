/** The encoder writes the shortest head a format has for a number or a size. */
module BinaryShortest {
  import opened Bytes
  import opened JsonValue
  import opened BinaryEncode
  import opened BinaryDecode
  import opened BinaryItems
  import opened BinaryRoundTrip

  lemma CborArgumentBound(major: int, n: nat, h: seq<byte>)
    requires 0 <= major < 8 && CborArgument(major, n, h)
    ensures n < Span(8) && |CborHead(major, n)| <= |h|
  {
    hide BeVal;
    SpanValues();
    if |h| > 1 { BeBound(h[1..]); }
    hide Span;
  }

  lemma PackNaturalBound(wide: Widen, n: nat, h: seq<byte>)
    requires PackSpells(wide, Value(Uint(n)), h)
    ensures |PackNatural(n)| <= |h|
  {
    hide BeVal;
    SpanValues();
    if |h| > 1 { BeBound(h[1..]); }
    hide Span;
  }

  lemma SignedBound(v: int, w: nat)
    requires 0 <= v < Span(w)
    ensures -Span(w) <= 2 * Signed(v, w) < Span(w)
  {
  }

  lemma PackNegativeBound(wide: Widen, n: int, h: seq<byte>)
    requires n < 0 && PackSpells(wide, Value(Int(n)), h)
    ensures |PackNegative(n)| <= |h|
  {
    hide BeVal, Signed;
    SpanValues();
    if |h| > 1 {
      BeBound(h[1..]);
      SignedBound(BeVal(h[1..]), |h| - 1);
    }
    hide Span;
  }

  /** No head of the format says this number in fewer bytes. */
  lemma NumberShortest(fmt: Format, wide: Widen, n: int, h: seq<byte>)
    requires FitsSigned(n, 8) || 0 <= n < Span(8)
    requires Spells(fmt, wide, Value(if n >= 0 then Uint(n) else Int(n)), h)
    ensures |Number(fmt, n)| <= |h|
  {
    hide CborArgument, PackSpells, CborHead, PackNatural, PackNegative;
    if fmt.Cbor? {
      if n >= 0 {
        CborArgumentBound(0, n, h);
      } else {
        var k: nat :| CborArgument(1, k, h) && n == -1 - ToInt64(k);
        CborArgumentBound(1, k, h);
        SpanValues();
      }
    } else if n >= 0 {
      PackNaturalBound(wide, n, h);
    } else {
      PackNegativeBound(wide, n, h);
    }
  }

  lemma PackHeadBound(wide: Widen, kind: Kind, n: nat, h: seq<byte>)
    requires PackSpells(wide, HeadToken(kind, n), h)
    ensures |PackHead(kind, n)| <= |h|
  {
    hide BeVal;
    SpanValues();
    if |h| > 1 { BeBound(h[1..]); }
    hide Span;
  }

  /** No head of the format says this size in fewer bytes. */
  lemma HeadShortest(fmt: Format, wide: Widen, kind: Kind, n: nat, h: seq<byte>)
    requires Spells(fmt, wide, HeadToken(kind, n), h)
    ensures |Head(fmt, kind, n)| <= |h|
  {
    hide CborArgument, PackSpells, CborHead, PackHead;
    if fmt.Cbor? {
      CborArgumentBound(match kind case Text => 3 case List => 4 case Table => 5, n, h);
    } else {
      PackHeadBound(wide, kind, n, h);
    }
  }
}
