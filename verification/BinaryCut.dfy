/** Items cut short are refused as out of range, and what follows an item does not matter. */
module BinaryCut {
  import opened Bytes
  import opened Parts
  import opened JsonValue
  import opened BinaryEncode
  import opened BinaryDecode
  import opened BinaryItems
  import opened BinaryItemsProof
  import RoundTrips = BinaryRoundTrip

  /** The bytes of `part` stand at `at`, but `w` ends before they do. */
  ghost predicate Cut(w: seq<byte>, at: nat, part: seq<byte>) {
    at <= |w| < at + |part| && w[at..] == part[..|w| - at]
  }

  lemma CutSplit(w: seq<byte>, at: nat, a: seq<byte>, b: seq<byte>)
    requires Cut(w, at, a + b)
    ensures Cut(w, at, a) || (StandsAt(w, at, a) && Cut(w, at + |a|, b))
  {
    if |w| < at + |a| {
      assert (a + b)[..|w| - at] == a[..|w| - at];
    } else {
      assert w[at..at + |a|] == w[at..][..|a|] == (a + b)[..|a|] == a;
      assert w[at + |a|..] == w[at..][|a|..] == (a + b)[..|w| - at][|a|..] == b[..|w| - at - |a|];
    }
  }

  lemma CborHeadCut(wide: Widen, tok: Token, w: seq<byte>, at: nat, h: seq<byte>)
    requires CborSpells(wide, tok, h) && Cut(w, at, h)
    ensures ReadToken(Cbor, wide, w, at) == Err(OutOfRange)
  {
    hide BeVal;
    if at < |w| { assert w[at] == w[at..][0] == h[0]; }
  }

  lemma PackHeadCut(wide: Widen, tok: Token, w: seq<byte>, at: nat, h: seq<byte>)
    requires PackSpells(wide, tok, h) && Cut(w, at, h)
    ensures ReadToken(MessagePack, wide, w, at) == Err(OutOfRange)
  {
    hide BeVal, Signed;
    if at < |w| { assert w[at] == w[at..][0] == h[0]; }
  }

  lemma HeadCut(fmt: Format, wide: Widen, tok: Token, w: seq<byte>, at: nat, h: seq<byte>)
    requires Spells(fmt, wide, tok, h) && Cut(w, at, h)
    ensures Decode(fmt, wide, w, at) == Err(OutOfRange)
  {
    hide CborSpells, PackSpells, ReadToken, Cut, DecodeItems, DecodePairs, DecodeChunks, DecodeUntil, DecodePairsUntil;
    if fmt.Cbor? { CborHeadCut(wide, tok, w, at, h); } else { PackHeadCut(wide, tok, w, at, h); }
  }

  /** The head is there: the item goes on as it says. */
  lemma HeadThere(fmt: Format, wide: Widen, tok: Token, w: seq<byte>, at: nat, h: seq<byte>)
    requires Spells(fmt, wide, tok, h) && StandsAt(w, at, h)
    ensures at + |h| <= |w| && Decode(fmt, wide, w, at) == TokenThen(fmt, wide, w, tok, at + |h|)
  {
    hide Spells, ReadToken, Decode, TokenThen;
    Spelled(fmt, wide, tok, w, at, h);
    TokenStep(fmt, wide, w, at);
  }

  lemma {:induction false} ItemCut(fmt: Format, wide: Widen, x: Item, w: seq<byte>, at: nat)
    requires Valid(fmt, wide, x) && Cut(w, at, Written(x))
    ensures Decode(fmt, wide, w, at) == Err(OutOfRange)
    decreases x, 1
  {
    hide Spells, Decode, DecodeItems, DecodePairs, DecodeChunks, DecodeUntil, DecodePairsUntil, ValidItems, ValidPairs, WrittenItems, WrittenPairs, Chars, StandsAt, Cut;
    match x
    case Scalar(h, j) => HeadCut(fmt, wide, Value(j), w, at, h);
    case Text(h, b) =>
      CutSplit(w, at, h, b);
      if Cut(w, at, h) { HeadCut(fmt, wide, TextHead(|b|), w, at, h); } else {
        HeadThere(fmt, wide, TextHead(|b|), w, at, h);
        CutShort(w, at + |h|, b);
      }
    case List(h, xs) =>
      CutSplit(w, at, h, WrittenItems(xs));
      if Cut(w, at, h) { HeadCut(fmt, wide, ListHead(Size(xs)), w, at, h); } else {
        HeadThere(fmt, wide, ListHead(Size(xs)), w, at, h);
        ItemsCut(fmt, wide, xs, w, at + |h|, []);
      }
    case Table(h, ps) =>
      CutSplit(w, at, h, WrittenPairs(ps));
      if Cut(w, at, h) { HeadCut(fmt, wide, TableHead(PairCount(ps)), w, at, h); } else {
        HeadThere(fmt, wide, TableHead(PairCount(ps)), w, at, h);
        PairsCut(fmt, wide, ps, w, at + |h|, map[]);
      }
    case _ => OpenCut(wide, x, w, at);
  }

  lemma CutShort(w: seq<byte>, at: nat, part: seq<byte>)
    requires Cut(w, at, part)
    ensures at <= |w| < at + |part|
  {
  }

  function OpenToken(x: Item): Token {
    if x.OpenText? then TextUntilBreak else if x.OpenList? then ListUntilBreak else TableUntilBreak
  }

  function OpenByte(x: Item): byte {
    if x.OpenText? then 0x7f else if x.OpenList? then 0x9f else 0xbf
  }

  function OpenBody(x: Item): seq<byte> {
    match x case OpenText(xs) => WrittenItems(xs) case OpenList(xs) => WrittenItems(xs) case OpenTable(ps) => WrittenPairs(ps) case _ => []
  }

  lemma {:induction false} OpenCut(wide: Widen, x: Item, w: seq<byte>, at: nat)
    requires (x.OpenText? || x.OpenList? || x.OpenTable?) && Valid(Cbor, wide, x) && Cut(w, at, Written(x))
    ensures Decode(Cbor, wide, w, at) == Err(OutOfRange)
    decreases x, 0
  {
    hide Decode, DecodeItems, DecodePairs, DecodeChunks, DecodeUntil, DecodePairsUntil, ValidItems, ValidPairs, WrittenItems, WrittenPairs, StandsAt, Cut;
    var tok, h, body := OpenToken(x), [OpenByte(x)], OpenBody(x);
    assert Written(x) == h + (body + [BREAK]);
    CutSplit(w, at, h, body + [BREAK]);
    if Cut(w, at, h) { HeadCut(Cbor, wide, tok, w, at, h); } else {
      HeadThere(Cbor, wide, tok, w, at, h);
      match x
      case OpenText(xs) => ChunksCut(wide, xs, w, at + 1, "");
      case OpenList(xs) => UntilCut(wide, xs, w, at + 1, []);
      case OpenTable(ps) => PairsUntilCut(wide, ps, w, at + 1, map[]);
    }
  }

  lemma {:induction false} ItemsCut(fmt: Format, wide: Widen, xs: Items, w: seq<byte>, at: nat, done: seq<Json>)
    requires ValidItems(fmt, wide, xs) && Cut(w, at, WrittenItems(xs))
    ensures at <= |w| && DecodeItems(fmt, wide, w, at, Size(xs), done) == Err(OutOfRange)
    decreases xs, 0
  {
    hide Decode, Valid, Written, Means, StandsAt;
    assert xs.Items?;
    var Items(x, rest) := xs;
    CutSplit(w, at, Written(x), WrittenItems(rest));
    if Cut(w, at, Written(x)) { ItemCut(fmt, wide, x, w, at); } else {
      ItemReads(fmt, wide, x, w, at);
      ItemsCut(fmt, wide, rest, w, at + |Written(x)|, done + [Means(x)]);
    }
  }

  /** A pair cut in its key or in its value. */
  lemma {:induction false} PairCut(fmt: Format, wide: Widen, ps: Pairs, w: seq<byte>, at: nat)
    requires ps.Pairs? && IsText(ps.key) && Valid(fmt, wide, ps.key) && Valid(fmt, wide, ps.value)
    requires Cut(w, at, Written(ps.key)) || (StandsAt(w, at, Written(ps.key)) && Cut(w, at + |Written(ps.key)|, Written(ps.value)))
    ensures at <= |w| && DecodePair(fmt, wide, w, at) == Err(OutOfRange)
    decreases ps, 0
  {
    hide Decode, Valid, Written, Means, StandsAt;
    if Cut(w, at, Written(ps.key)) { ItemCut(fmt, wide, ps.key, w, at); } else {
      ItemReads(fmt, wide, ps.key, w, at);
      ItemCut(fmt, wide, ps.value, w, at + |Written(ps.key)|);
    }
  }

  lemma {:induction false} PairsCut(fmt: Format, wide: Widen, ps: Pairs, w: seq<byte>, at: nat, done: map<string, Json>)
    requires ValidPairs(fmt, wide, ps) && Cut(w, at, WrittenPairs(ps))
    ensures at <= |w| && DecodePairs(fmt, wide, w, at, PairCount(ps), done) == Err(OutOfRange)
    decreases ps, 1
  {
    hide Decode, DecodePair, Valid, Written, Means, TextOf, StandsAt;
    assert ps.Pairs?;
    var Pairs(k, x, others) := ps;
    CutSplit(w, at, Written(k), Written(x) + WrittenPairs(others));
    if StandsAt(w, at, Written(k)) && !Cut(w, at, Written(k)) { CutSplit(w, at + |Written(k)|, Written(x), WrittenPairs(others)); }
    if Cut(w, at, Written(k)) || Cut(w, at + |Written(k)|, Written(x)) {
      PairCut(fmt, wide, ps, w, at);
    } else {
      PairReads(fmt, wide, ps, w, at);
      PairsCut(fmt, wide, others, w, at + |Written(k)| + |Written(x)|, done[TextOf(k) := Means(x)]);
    }
  }

  lemma {:induction false} ChunksCut(wide: Widen, xs: Items, w: seq<byte>, at: nat, done: string)
    requires ValidItems(Cbor, wide, xs) && AllText(xs) && Cut(w, at, WrittenItems(xs) + [BREAK])
    ensures at <= |w| && DecodeChunks(Cbor, wide, w, at, done) == Err(OutOfRange)
    decreases xs, 0
  {
    hide Decode, Valid, Written, Means, StandsAt;
    if xs.Items? {
      var Items(x, rest) := xs;
      Regroup(Written(x), WrittenItems(rest), [BREAK]);
      CutSplit(w, at, Written(x), WrittenItems(rest) + [BREAK]);
      if Cut(w, at, Written(x)) { ItemCutAt(wide, x, w, at); } else {
        ItemReads(Cbor, wide, x, w, at);
        ChunksCut(wide, rest, w, at + |Written(x)|, done + TextOf(x));
      }
    }
  }

  /** A cut item is refused, and does not look like a break. */
  lemma {:induction false} ItemCutAt(wide: Widen, x: Item, w: seq<byte>, at: nat)
    requires Valid(Cbor, wide, x) && Cut(w, at, Written(x))
    ensures Decode(Cbor, wide, w, at) == Err(OutOfRange) && (at < |w| ==> w[at] != BREAK)
    decreases x, 2
  {
    ItemCut(Cbor, wide, x, w, at);
    CutNoBreak(wide, x, w, at);
  }

  lemma StartsNoBreak(wide: Widen, x: Item)
    requires Valid(Cbor, wide, x)
    ensures Written(x) != [] && Written(x)[0] != BREAK
  {
    hide CborSpells;
    match x
    case Scalar(h, j) => HeadNoBreak(wide, Value(j), h);
    case Text(h, b) => HeadNoBreak(wide, TextHead(|b|), h);
    case List(h, xs) => HeadNoBreak(wide, ListHead(Size(xs)), h);
    case Table(h, ps) => HeadNoBreak(wide, TableHead(PairCount(ps)), h);
    case _ =>
  }

  lemma {:induction false} UntilCut(wide: Widen, xs: Items, w: seq<byte>, at: nat, done: seq<Json>)
    requires ValidItems(Cbor, wide, xs) && Cut(w, at, WrittenItems(xs) + [BREAK])
    ensures at <= |w| && DecodeUntil(Cbor, wide, w, at, done) == Err(OutOfRange)
    decreases xs, 0
  {
    hide Decode, Valid, Written, Means, StandsAt;
    if xs.Items? {
      var Items(x, rest) := xs;
      Regroup(Written(x), WrittenItems(rest), [BREAK]);
      CutSplit(w, at, Written(x), WrittenItems(rest) + [BREAK]);
      if Cut(w, at, Written(x)) { ItemCutAt(wide, x, w, at); } else {
        ItemReads(Cbor, wide, x, w, at);
        UntilCut(wide, rest, w, at + |Written(x)|, done + [Means(x)]);
      }
    }
  }

  lemma {:induction false} PairsUntilCut(wide: Widen, ps: Pairs, w: seq<byte>, at: nat, done: map<string, Json>)
    requires ValidPairs(Cbor, wide, ps) && Cut(w, at, WrittenPairs(ps) + [BREAK])
    ensures at <= |w| && DecodePairsUntil(Cbor, wide, w, at, done) == Err(OutOfRange)
    decreases ps, 1
  {
    hide Decode, DecodePair, Valid, Written, Means, TextOf, StandsAt;
    if ps.Pairs? {
      var Pairs(k, x, others) := ps;
      Regroup(Written(x), WrittenPairs(others), [BREAK]);
      Regroup(Written(k), Written(x) + WrittenPairs(others), [BREAK]);
      CutSplit(w, at, Written(k), (Written(x) + WrittenPairs(others)) + [BREAK]);
      if Cut(w, at, Written(k)) {
        CutNoBreak(wide, k, w, at);
        PairCut(Cbor, wide, ps, w, at);
      } else {
        CutSplit(w, at + |Written(k)|, Written(x), WrittenPairs(others) + [BREAK]);
        ItemReads(Cbor, wide, k, w, at);
        if Cut(w, at + |Written(k)|, Written(x)) {
          PairCut(Cbor, wide, ps, w, at);
        } else {
          PairReads(Cbor, wide, ps, w, at);
          PairsUntilCut(wide, others, w, at + |Written(k)| + |Written(x)|, done[TextOf(k) := Means(x)]);
        }
      }
    }
  }

  lemma CutNoBreak(wide: Widen, x: Item, w: seq<byte>, at: nat)
    requires Valid(Cbor, wide, x) && Cut(w, at, Written(x))
    ensures at < |w| ==> w[at] != BREAK
  {
    hide Valid, Written;
    StartsNoBreak(wide, x);
    if at < |w| { assert w[at] == w[at..][0] == Written(x)[0]; }
  }

  // ---------------------------------------------------------------- the laws

  /**
   Whatever is decoded at an index is decoded from the bytes up to its end alone: cut anywhere before, the
   vector is refused as out of range, and cut after, or continued in any other way, it gives the same.
   */
  lemma DecodesItsOwnBytes(fmt: Format, wide: Widen, v: seq<byte>, at: nat, n: nat, more: seq<byte>)
    requires Decode(fmt, wide, v, at).Ok? && n <= |v|
    ensures var (j, p) := Decode(fmt, wide, v, at).value;
      && p <= |v|
      && (n < p ==> Decode(fmt, wide, v[..n], at) == Err(OutOfRange))
      && (p <= n ==> Decode(fmt, wide, v[..n] + more, at) == Ok((j, p)))
  {
    hide Decode, Valid, Written, Means;
    var x := ItemThere(fmt, wide, v, at);
    var p := Decode(fmt, wide, v, at).value.1;
    if n < p {
      if n < at { PastEnd(fmt, wide, v[..n], at); } else {
        assert v[..n][at..] == v[at..p][..n - at];
        ItemCut(fmt, wide, x, v[..n], at);
      }
    } else {
      var u := v[..n] + more;
      assert u[at..p] == v[at..p];
      ItemReads(fmt, wide, x, u, at);
    }
  }

  lemma PastEnd(fmt: Format, wide: Widen, v: seq<byte>, at: nat)
    requires |v| <= at
    ensures Decode(fmt, wide, v, at) == Err(OutOfRange)
  {
    hide DecodeItems, DecodePairs, DecodeChunks, DecodeUntil, DecodePairsUntil;
  }

  /** In particular no proper prefix of an encoding can be decoded. */
  lemma PrefixRefused(fmt: Format, wide: Widen, j: Json, n: nat)
    requires RoundTrips.Fits(fmt, j) && n < |Encode(fmt, j)|
    ensures Decode(fmt, wide, Encode(fmt, j)[..n], 0) == Err(OutOfRange)
  {
    hide Decode, Encode;
    var v := Encode(fmt, j);
    assert v[0..|v|] == v;
    RoundTrips.RoundTripAt(fmt, wide, j, v, 0);
    DecodesItsOwnBytes(fmt, wide, v, 0, n, []);
  }
}
