/** The encoding of a value is one item in key order, and no item of known length is shorter. */
module BinaryCompact {
  import opened Bytes
  import opened KeyOrder
  import opened KeyTotals
  import opened JsonValue
  import opened BinaryEncode
  import opened BinaryDecode
  import opened BinaryItems
  import opened BinaryRoundTrip
  import opened BinaryItemsProof
  import opened BinaryShortest
  import opened BinaryIndefinite
  import opened Parts
  import opened CanonicalKeys

  /** No item that goes on up to a break. */
  predicate Definite(x: Item) {
    match x
    case List(_, xs) => DefiniteItems(xs)
    case Table(_, ps) => DefinitePairs(ps)
    case OpenText(_) => false
    case OpenList(_) => false
    case OpenTable(_) => false
    case _ => true
  }

  predicate DefiniteItems(xs: Items) {
    match xs case NoItems => true case Items(x, rest) => Definite(x) && DefiniteItems(rest)
  }

  predicate DefinitePairs(ps: Pairs) {
    match ps case NoPairs => true case Pairs(k, v, others) => Definite(k) && Definite(v) && DefinitePairs(others)
  }

  // ---------------------------------------------------------------- scalars and heads

  lemma PackSignedAtMost(wide: Widen, n: nat, h: seq<byte>)
    requires PackSpells(wide, Value(Int(n)), h)
    ensures |PackNatural(n)| <= |h|
  {
    hide BeVal, Signed;
    SpanValues();
    if |h| > 1 {
      BeBound(h[1..]);
      SignedBound(BeVal(h[1..]), |h| - 1);
    }
    hide Span;
  }

  lemma CborSignedAtMost(wide: Widen, n: nat, h: seq<byte>)
    requires CborSpells(wide, Value(Int(n)), h)
    ensures |CborHead(0, n)| <= |h|
  {
    hide BeVal, CborArgument;
    var k: nat :| CborArgument(1, k, h) && n as int == -1 - ToInt64(k);
    SpanValues();
    CborArgumentBound(1, k, h);
    assert |CborHead(1, k)| == 9;
  }

  lemma ScalarShortest(fmt: Format, wide: Widen, j: Json, h: seq<byte>)
    requires Spells(fmt, wide, Value(j), h) && !j.Float?
    ensures |Encode(fmt, j)| <= |h|
  {
    hide CborSpells, PackSpells, Number, PackNatural, CborHead;
    match j
    case Uint(n) => { hide Spells; UintBound(fmt, wide, n, h); NumberShortest(fmt, wide, n, h); }
    case Int(n) =>
      IntBound(fmt, wide, n, h);
      if n < 0 { NumberShortest(fmt, wide, n, h); }
      else { if fmt.Cbor? { CborSignedAtMost(wide, n, h); } else { PackSignedAtMost(wide, n, h); } }
      assert |Number(fmt, n)| <= |h| by { if n >= 0 { NumberIs(fmt, n); } }
    case _ => OtherScalar(fmt, wide, j, h);
  }

  lemma NumberIs(fmt: Format, n: nat)
    ensures Number(fmt, n) == if fmt.Cbor? then CborHead(0, n) else PackNatural(n)
  {
  }

  lemma UintBound(fmt: Format, wide: Widen, n: nat, h: seq<byte>)
    requires Spells(fmt, wide, Value(Uint(n)), h)
    ensures n < Span(8)
  {
    hide BeVal;
    SpanValues();
    if |h| > 1 { BeBound(h[1..]); }
    hide Span;
  }

  lemma IntBound(fmt: Format, wide: Widen, n: int, h: seq<byte>)
    requires Spells(fmt, wide, Value(Int(n)), h)
    ensures FitsSigned(n, 8)
  {
    hide BeVal, Signed;
    SpanValues();
    if |h| > 1 {
      BeBound(h[1..]);
      SignedBound(BeVal(h[1..]), |h| - 1);
    }
    hide Span;
  }

  lemma OtherScalar(fmt: Format, wide: Widen, j: Json, h: seq<byte>)
    requires Spells(fmt, wide, Value(j), h) && !j.Float? && !j.Int? && !j.Uint?
    ensures (j.Null? || j.Bool?) && |h| >= 1
  {
  }

  /** A smaller size never needs a longer head. */
  lemma HeadGrows(fmt: Format, kind: Kind, m: nat, n: nat)
    requires m <= n && (fmt.MessagePack? ==> n <= 0xffff_ffff)
    ensures |Head(fmt, kind, m)| <= |Head(fmt, kind, n)|
  {
  }

  lemma HeadWithin(wide: Widen, kind: Kind, n: nat, h: seq<byte>)
    requires PackSpells(wide, HeadToken(kind, n), h)
    ensures n <= 0xffff_ffff
  {
    hide BeVal;
    SpanValues();
    if |h| > 1 { BeBound(h[1..]); }
    hide Span;
  }

  /** The head of a table that may hold fewer members than were written. */
  lemma TableHeadShortest(fmt: Format, wide: Widen, m: nat, n: nat, h: seq<byte>)
    requires m <= n && Spells(fmt, wide, TableHead(n), h)
    ensures |Head(fmt, Kind.Table, m)| <= |h|
  {
    hide CborSpells, PackSpells, Head;
    HeadShortest(fmt, wide, Kind.Table, n, h);
    if fmt.MessagePack? { HeadWithin(wide, Kind.Table, n, h); }
    HeadGrows(fmt, Kind.Table, m, n);
  }

  // ---------------------------------------------------------------- tables

  function PairCost(fmt: Format, m: map<string, Json>, k: string): nat {
    if k in m then |EncodeText(fmt, k)| + |Encode(fmt, m[k])| else 0
  }

  function PairCostOf(fmt: Format, m: map<string, Json>): string -> nat {
    k => PairCost(fmt, m, k)
  }

  /** The bytes of the pairs. */
  function PairWeight(fmt: Format, m: map<string, Json>): nat {
    Total(PairCostOf(fmt, m), SortedKeys(m.Keys))
  }

  lemma {:induction false} PairsLength(fmt: Format, j: Json, keys: seq<string>)
    requires j.Obj? && forall k :: k in keys ==> k in j.members
    ensures |EncodePairs(fmt, j, keys)| == Total(PairCostOf(fmt, j.members), keys)
    decreases |keys|
  {
    hide Encode, EncodeText;
    if keys != [] { PairsLength(fmt, j, keys[1..]); }
  }

  lemma TableLength(fmt: Format, m: map<string, Json>)
    ensures |Encode(fmt, Obj(m))| == |Head(fmt, Kind.Table, |m|)| + PairWeight(fmt, m)
  {
    hide SortedKeys, Less, EncodePairs, PairCostOf, Head, Total;
    PairsLength(fmt, Obj(m), SortedKeys(m.Keys));
  }

  lemma PairGrows(fmt: Format, k: string, v: Json, m: map<string, Json>)
    requires k !in m
    ensures PairWeight(fmt, map[k := v] + m) == |EncodeText(fmt, k)| + |Encode(fmt, v)| + PairWeight(fmt, m)
  {
    hide Encode, EncodeText, SortedKeys, Total;
    var all := map[k := v] + m;
    assert all.Keys == m.Keys + {k} && all[k] == v;
    forall a | a in m.Keys ensures PairCostOf(fmt, all)(a) == PairCostOf(fmt, m)(a) { assert all[a] == m[a]; }
    TotalGrows(PairCostOf(fmt, all), PairCostOf(fmt, m), m.Keys, k);
  }

  /** Of pairs with the same key the last one counts: a pair adds its bytes, or is overwritten. */
  lemma PairCounts(fmt: Format, ps: Pairs) returns (rest: map<string, Json>)
    requires ps.Pairs? && NoFloat(Obj(MeansPairs(ps)))
    ensures rest == MeansPairs(ps.others) && NoFloat(Obj(rest))
    ensures var (k, v) := (TextOf(ps.key), Means(ps.value));
      if k in rest then MeansPairs(ps) == rest
      else (
        && NoFloat(v) && |MeansPairs(ps)| == |rest| + 1
        && PairWeight(fmt, MeansPairs(ps)) == |EncodeText(fmt, k)| + |Encode(fmt, v)| + PairWeight(fmt, rest))
  {
    hide Encode, EncodeText, Means, PairWeight;
    var (k, v) := (TextOf(ps.key), Means(ps.value));
    hide TextOf;
    rest := MeansPairs(ps.others);
    var all := map[k := v] + rest;
    assert all == MeansPairs(ps) && forall a :: a in rest ==> all[a] == rest[a];
    if k in rest {
      assert all == rest;
    } else {
      assert all[k] == v && all.Keys == rest.Keys + {k};
      PairGrows(fmt, k, v, rest);
    }
  }

  // ---------------------------------------------------------------- the shortest item

  lemma TextShortest(fmt: Format, wide: Widen, x: Item)
    requires Valid(fmt, wide, x) && x.Text?
    ensures |EncodeText(fmt, TextOf(x))| <= |Written(x)| && TextOf(x) == Chars(x.bytes)
  {
    hide Spells, Head;
    HeadShortest(fmt, wide, Kind.Text, |x.bytes|, x.head);
  }

  lemma {:induction false} ItemShortest(fmt: Format, wide: Widen, x: Item)
    requires Valid(fmt, wide, x) && Definite(x) && NoFloat(Means(x))
    ensures |Encode(fmt, Means(x))| <= |Written(x)|
    decreases x, 1
  {
    hide Spells, Head, EncodeItems, EncodePairs, PairWeight, EncodeText;
    match x
    case Scalar(h, j) => ScalarShortest(fmt, wide, j, h);
    case Text(h, b) => TextShortest(fmt, wide, x);
    case List(h, xs) =>
      var j := Means(x);
      ItemsCounted(xs);
      HeadShortest(fmt, wide, Kind.List, Size(xs), h);
      assert j.items[0..] == MeansItems(xs);
      ItemsShortest(fmt, wide, xs, j, 0);
    case Table(h, ps) =>
      PairsShortest(fmt, wide, ps);
      TableHeadShortest(fmt, wide, |MeansPairs(ps)|, PairCount(ps), h);
      TableLength(fmt, MeansPairs(ps));
  }

  lemma {:induction false} ItemsCounted(xs: Items)
    ensures |MeansItems(xs)| == Size(xs)
  {
    hide Means;
    match xs case NoItems => case Items(_, rest) => ItemsCounted(rest);
  }

  lemma {:induction false} ItemsShortest(fmt: Format, wide: Widen, xs: Items, j: Json, i: nat)
    requires ValidItems(fmt, wide, xs) && DefiniteItems(xs) && j.Arr? && NoFloat(j)
    requires i <= |j.items| && j.items[i..] == MeansItems(xs)
    ensures |EncodeItems(fmt, j, i)| <= |WrittenItems(xs)|
    decreases xs, 0
  {
    hide Encode, Means, Valid, Written, Definite;
    match xs
    case NoItems =>
    case Items(x, rest) =>
      assert j.items[i] == j.items[i..][0] == Means(x) && j.items[i + 1..] == j.items[i..][1..] == MeansItems(rest);
      ItemShortest(fmt, wide, x);
      ItemsShortest(fmt, wide, rest, j, i + 1);
  }

  lemma {:induction false} PairsShortest(fmt: Format, wide: Widen, ps: Pairs)
    requires ValidPairs(fmt, wide, ps) && DefinitePairs(ps) && NoFloat(Obj(MeansPairs(ps)))
    ensures PairWeight(fmt, MeansPairs(ps)) <= |WrittenPairs(ps)| && |MeansPairs(ps)| <= PairCount(ps)
    decreases ps, 0
  {
    hide Encode, EncodeText, Means, Valid, Written, NoFloat, MeansPairs, TextOf;
    match ps
    case NoPairs => NoPairWeight(fmt);
    case Pairs(k, v, others) =>
      hide PairWeight;
      assert k.Text?;
      var rest := PairCounts(fmt, ps);
      PairsShortest(fmt, wide, others);
      if TextOf(k) !in rest {
        TextShortest(fmt, wide, k);
        ItemShortest(fmt, wide, v);
      }
  }

  lemma NoPairWeight(fmt: Format)
    ensures PairWeight(fmt, map[]) == 0 && MeansPairs(NoPairs) == map[]
  {
  }

  lemma {:induction false} PackDefinite(wide: Widen, x: Item)
    requires Valid(MessagePack, wide, x)
    ensures Definite(x)
    decreases x
  {
    match x
    case List(_, xs) => PackDefiniteItems(wide, xs);
    case Table(_, ps) => PackDefinitePairs(wide, ps);
    case _ =>
  }

  lemma {:induction false} PackDefiniteItems(wide: Widen, xs: Items)
    requires ValidItems(MessagePack, wide, xs)
    ensures DefiniteItems(xs)
    decreases xs
  {
    match xs
    case NoItems =>
    case Items(x, rest) => { PackDefinite(wide, x); PackDefiniteItems(wide, rest); }
  }

  lemma {:induction false} PackDefinitePairs(wide: Widen, ps: Pairs)
    requires ValidPairs(MessagePack, wide, ps)
    ensures DefinitePairs(ps)
    decreases ps
  {
    match ps
    case NoPairs =>
    case Pairs(k, v, others) => { PackDefinite(wide, k); PackDefinite(wide, v); PackDefinitePairs(wide, others); }
  }

  /** No bytes that MessagePack reads as a value are fewer than the encoding of that value. */
  lemma PackIsShortest(wide: Widen, v: seq<byte>, at: nat, j: Json, p: nat)
    requires Decode(MessagePack, wide, v, at) == Ok((j, p)) && NoFloat(j)
    ensures at + |Encode(MessagePack, j)| <= p
  {
    hide Decode, Valid, Means, Written, Definite, Encode;
    DecodesTheGrammar(MessagePack, wide, v, at, j, p);
    var x: Item :| Valid(MessagePack, wide, x) && Means(x) == j && StandsAt(v, at, Written(x)) && p == at + |Written(x)|;
    PackDefinite(wide, x);
    ItemShortest(MessagePack, wide, x);
  }

  /** CBOR is not always shortest: from 256 elements on, an array that ends with a break takes one byte less. */
  lemma OpenListShorter(wide: Widen, j: Json)
    requires j.Arr? && Fits(Cbor, j) && 256 <= |j.items| <= 0xffff
    ensures var v := [0x9f] + (EncodeItems(Cbor, j, 0) + [BREAK]);
      Decode(Cbor, wide, v, 0) == Ok((Canonical(j), |v|)) && |Encode(Cbor, j)| == |v| + 1
  {
    hide Decode, EncodeItems, Canonical, Fits;
    var v := [0x9f] + (EncodeItems(Cbor, j, 0) + [BREAK]);
    assert v[0..|v|] == v;
    IndefiniteList(wide, j, v, 0);
    assert |Head(Cbor, Kind.List, |j.items|)| == 3;
  }

  // ---------------------------------------------------------------- in key order

  /** The keys of every table in strictly ascending order. */
  predicate Ascending(x: Item) {
    match x
    case List(_, xs) => AscendingItems(xs)
    case Table(_, ps) => AscendingPairs(ps)
    case _ => true
  }

  predicate AscendingItems(xs: Items) {
    match xs case NoItems => true case Items(x, rest) => Ascending(x) && AscendingItems(rest)
  }

  predicate AscendingPairs(ps: Pairs) {
    match ps
    case NoPairs => true
    case Pairs(k, v, others) => Ascending(v) && (others.Pairs? ==> Less(TextOf(k), TextOf(others.key))) && AscendingPairs(others)
  }

  /** What an item is to be: valid, of known length throughout, in order, these bytes, and this value. */
  ghost predicate Says(fmt: Format, wide: Widen, x: Item, bytes: seq<byte>, j: Json) {
    Valid(fmt, wide, x) && Definite(x) && Ascending(x) && Written(x) == bytes && Means(x) == j
  }

  lemma HeadSpelled(fmt: Format, wide: Widen, kind: Kind, n: nat)
    requires n < Limit(fmt)
    ensures Spells(fmt, wide, HeadToken(kind, n), Head(fmt, kind, n))
  {
    hide Spells, Head, ReadToken;
    var h := Head(fmt, kind, n);
    assert h[0..|h|] == h;
    HeadReads(fmt, wide, kind, n, h, 0);
    SpelledThere(fmt, wide, h, 0);
  }

  lemma TextItem(fmt: Format, wide: Widen, s: string) returns (x: Item)
    requires TextFits(fmt, s)
    ensures x.Text? && Says(fmt, wide, x, EncodeText(fmt, s), Str(s)) && TextOf(x) == s
  {
    hide Spells, Head;
    HeadSpelled(fmt, wide, Kind.Text, |s|);
    CharsRaw(s);
    x := Item.Text(Head(fmt, Kind.Text, |s|), Raw(s));
  }

  lemma ScalarItem(fmt: Format, wide: Widen, j: Json) returns (x: Item)
    requires IsPrimitive(j) && !j.Str? && Fits(fmt, j)
    ensures Says(fmt, wide, x, Encode(fmt, j), Canonical(j))
  {
    hide Spells, ReadToken, Number;
    var h := Encode(fmt, j);
    assert h[0..|h|] == h;
    match j {
      case Int(n) => NumberReads(fmt, wide, n, h, 0);
      case Uint(n) => NumberReads(fmt, wide, n, h, 0);
      case Float(f) => FloatReads(fmt, wide, f, h, 0);
      case Null => SimpleReads(fmt, wide, j, h, 0);
      case Bool(_) => SimpleReads(fmt, wide, j, h, 0);
    }
    SpelledThere(fmt, wide, h, 0);
    x := Scalar(h, Canonical(j));
  }

  /** The encoding of a value is one item of known lengths, its tables in key order. */
  lemma {:induction false} EncodeIsItem(fmt: Format, wide: Widen, j: Json) returns (x: Item)
    requires Fits(fmt, j)
    ensures Says(fmt, wide, x, Encode(fmt, j), Canonical(j))
    decreases j, 2
  {
    hide Encode, Fits, Canonical, Says;
    match j
    case Str(s) => { assert TextFits(fmt, s) by { FitsText(fmt, j); } x := TextItem(fmt, wide, s); TextEncoded(fmt, s); }
    case Arr(_) => x := ArrayItem(fmt, wide, j);
    case Obj(_) => x := ObjectItem(fmt, wide, j);
    case _ => x := ScalarItem(fmt, wide, j);
  }

  lemma FitsText(fmt: Format, j: Json)
    requires j.Str? && Fits(fmt, j)
    ensures TextFits(fmt, j.s)
  {
  }

  lemma TextEncoded(fmt: Format, s: string)
    ensures Encode(fmt, Str(s)) == EncodeText(fmt, s) && Canonical(Str(s)) == Str(s)
  {
  }

  lemma ArrayItem(fmt: Format, wide: Widen, j: Json) returns (x: Item)
    requires j.Arr? && Fits(fmt, j)
    ensures Says(fmt, wide, x, Encode(fmt, j), Canonical(j))
    decreases j, 1
  {
    hide EncodeItems, ValidItems, DefiniteItems, AscendingItems, WrittenItems, MeansItems, Spells, Head, Canonical;
    var xs := ItemsOf(fmt, wide, j, 0);
    var h := Head(fmt, Kind.List, |j.items|);
    HeadSpelled(fmt, wide, Kind.List, |j.items|);
    ItemsCounted(xs);
    CanonicalItems(j);
    assert Canonical(j).items[0..] == Canonical(j).items;
    x := Item.List(h, xs);
  }

  lemma {:induction false} ItemsOf(fmt: Format, wide: Widen, j: Json, i: nat) returns (xs: Items)
    requires j.Arr? && Fits(fmt, j) && i <= |j.items|
    ensures ValidItems(fmt, wide, xs) && DefiniteItems(xs) && AscendingItems(xs) && WrittenItems(xs) == EncodeItems(fmt, j, i)
    ensures Canonical(j).Arr? && |Canonical(j).items| == |j.items| && MeansItems(xs) == Canonical(j).items[i..]
    decreases j, 0, |j.items| - i
  {
    CanonicalItems(j);
    if i < |j.items| { ItemFits(fmt, j, i); }
    hide Encode, Fits, Canonical, Valid, Definite, Ascending, Written, Means;
    var all := Canonical(j).items;
    if i < |j.items| {
      var x := EncodeIsItem(fmt, wide, j.items[i]);
      var rest := ItemsOf(fmt, wide, j, i + 1);
      xs := Items(x, rest);
      assert all[i..] == [all[i]] + all[i + 1..];
    } else {
      xs := NoItems;
    }
  }

  lemma ItemFits(fmt: Format, j: Json, i: nat)
    requires j.Arr? && Fits(fmt, j) && i < |j.items|
    ensures Fits(fmt, j.items[i])
  {
  }

  lemma ObjectItem(fmt: Format, wide: Widen, j: Json) returns (x: Item)
    requires j.Obj? && Fits(fmt, j)
    ensures Says(fmt, wide, x, Encode(fmt, j), Canonical(j))
    decreases j, 1
  {
    hide EncodePairs, ValidPairs, DefinitePairs, AscendingPairs, WrittenPairs, MeansPairs, Spells, Head, Canonical, SortedKeys, Less;
    var keys := SortedKeys(j.members.Keys);
    var ps := PairsOf(fmt, wide, j, keys, 0);
    var h := Head(fmt, Kind.Table, |j.members|);
    HeadSpelled(fmt, wide, Kind.Table, |j.members|);
    KeysMean(j, keys);
    assert keys[0..] == keys;
    x := Item.Table(h, ps);
  }

  lemma MemberFits(fmt: Format, j: Json, k: string)
    requires j.Obj? && k in j.members && Fits(fmt, j)
    ensures TextFits(fmt, k) && Fits(fmt, j.members[k])
  {
  }

  lemma {:induction false} PairsOf(fmt: Format, wide: Widen, j: Json, keys: seq<string>, i: nat) returns (ps: Pairs)
    requires j.Obj? && Fits(fmt, j) && i <= |keys| && forall k :: k in keys ==> k in j.members
    requires forall a, b :: 0 <= a < b < |keys| ==> Less(keys[a], keys[b])
    ensures ValidPairs(fmt, wide, ps) && DefinitePairs(ps) && AscendingPairs(ps) && PairCount(ps) == |keys| - i
    ensures WrittenPairs(ps) == EncodePairs(fmt, j, keys[i..]) && MeansPairs(ps) == From(j.members, keys, i)
    ensures if i < |keys| then ps.Pairs? && TextOf(ps.key) == keys[i] else ps == NoPairs
    decreases j, 0, |keys| - i
  {
    hide Encode, EncodeText, Fits, Canonical, Valid, Definite, Ascending, Written, Means, From, Less, TextOf, TextFits;
    forall a, b | 0 <= a < b < |keys| ensures keys[a] != keys[b] { LessTotal(keys[a], keys[b]); }
    if i < |keys| {
      var k := keys[i];
      MemberFits(fmt, j, k);
      var t := TextItem(fmt, wide, k);
      var x := EncodeIsItem(fmt, wide, j.members[k]);
      var rest := PairsOf(fmt, wide, j, keys, i + 1);
      assert keys[i..][0] == k && keys[i..][1..] == keys[i + 1..];
      FromStep(j.members, keys, i);
      ps := Pairs(t, x, rest);
    } else {
      assert keys[i..] == [];
      NoneFrom(j.members, keys);
      ps := NoPairs;
    }
  }
}
