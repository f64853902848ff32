/** The decoders accept exactly the items of the grammar, stop at their end, and give what they mean. */
module BinaryItemsProof {
  import opened Bytes
  import opened Parts
  import opened JsonValue
  import opened BinaryEncode
  import opened BinaryDecode
  import opened BinaryItems

  // ---------------------------------------------------------------- heads

  lemma FirstByte(v: seq<byte>, at: nat, h: seq<byte>)
    requires StandsAt(v, at, h) && h != []
    ensures at < |v| && v[at] == h[0] && After(v, at, |h| - 1) == Ok(h[1..])
  {
    StandsElements(v, at, h);
    assert h[0] == v[at + 0];
    assert v[at + 1..at + |h|] == v[at..at + |h|][1..];
  }

  lemma CborArgumentReads(wide: Widen, major: int, n: nat, v: seq<byte>, at: nat, h: seq<byte>)
    requires major in {0, 1, 3, 4, 5} && CborArgument(major, n, h) && StandsAt(v, at, h)
    ensures ReadToken(Cbor, wide, v, at) == Ok((CborToken(major, n), at + |h|))
  {
    hide BeVal, StandsAt, CborToken;
    FirstByte(v, at, h);
  }

  lemma CborSpelled(wide: Widen, tok: Token, v: seq<byte>, at: nat, h: seq<byte>)
    requires CborSpells(wide, tok, h) && StandsAt(v, at, h)
    ensures h != [] && ReadToken(Cbor, wide, v, at) == Ok((tok, at + |h|))
  {
    hide BeVal, StandsAt, ReadToken;
    match tok
    case Value(Uint(n)) => CborArgumentReads(wide, 0, n, v, at, h);
    case Value(Int(m)) =>
      var n: nat :| CborArgument(1, n, h) && m == -1 - ToInt64(n);
      CborArgumentReads(wide, 1, n, v, at, h);
    case TextHead(n) => CborArgumentReads(wide, 3, n, v, at, h);
    case ListHead(n) => CborArgumentReads(wide, 4, n, v, at, h);
    case TableHead(n) => CborArgumentReads(wide, 5, n, v, at, h);
    case _ => CborSimpleReads(wide, tok, v, at, h);
  }

  lemma CborSimpleReads(wide: Widen, tok: Token, v: seq<byte>, at: nat, h: seq<byte>)
    requires CborSpells(wide, tok, h) && StandsAt(v, at, h)
    requires !(tok.Value? && (tok.j.Uint? || tok.j.Int?)) && !tok.TextHead? && !tok.ListHead? && !tok.TableHead?
    ensures h != [] && ReadToken(Cbor, wide, v, at) == Ok((tok, at + |h|))
  {
    hide BeVal, StandsAt;
    FirstByte(v, at, h);
  }

  lemma PackSpelled(wide: Widen, tok: Token, v: seq<byte>, at: nat, h: seq<byte>)
    requires PackSpells(wide, tok, h) && StandsAt(v, at, h)
    ensures h != [] && ReadToken(MessagePack, wide, v, at) == Ok((tok, at + |h|))
  {
    hide BeVal, StandsAt, Signed;
    FirstByte(v, at, h);
  }

  lemma Spelled(fmt: Format, wide: Widen, tok: Token, v: seq<byte>, at: nat, h: seq<byte>)
    requires Spells(fmt, wide, tok, h) && StandsAt(v, at, h)
    ensures h != [] && ReadToken(fmt, wide, v, at) == Ok((tok, at + |h|))
  {
    hide CborSpells, PackSpells, ReadToken, StandsAt;
    if fmt.Cbor? { CborSpelled(wide, tok, v, at, h); } else { PackSpelled(wide, tok, v, at, h); }
  }

  lemma CborThere(wide: Widen, v: seq<byte>, at: nat)
    requires ReadToken(Cbor, wide, v, at).Ok?
    ensures var (tok, p) := ReadToken(Cbor, wide, v, at).value; CborSpells(wide, tok, v[at..p])
  {
    hide BeVal;
    var (tok, p) := ReadToken(Cbor, wide, v, at).value;
    var h := v[at..p];
    assert h[0] == v[at] && h[1..] == v[at + 1..p];
    var major, low := v[at] / 32, v[at] % 32;
    if major in {0, 1, 3, 4, 5} && low < 28 {
      var n: nat := if low < 24 then low else BeVal(h[1..]);
      assert CborArgument(major, n, h) && tok == CborToken(major, n);
    }
  }

  lemma PackThere(wide: Widen, v: seq<byte>, at: nat)
    requires ReadToken(MessagePack, wide, v, at).Ok?
    ensures var (tok, p) := ReadToken(MessagePack, wide, v, at).value; PackSpells(wide, tok, v[at..p])
  {
    hide BeVal, Signed;
    var (tok, p) := ReadToken(MessagePack, wide, v, at).value;
    var h := v[at..p];
    assert h[0] == v[at] && h[1..] == v[at + 1..p];
  }

  /** What stands where a token was read. */
  lemma SpelledThere(fmt: Format, wide: Widen, v: seq<byte>, at: nat)
    requires ReadToken(fmt, wide, v, at).Ok?
    ensures var (tok, p) := ReadToken(fmt, wide, v, at).value; Spells(fmt, wide, tok, v[at..p])
  {
    hide CborSpells, PackSpells, ReadToken;
    if fmt.Cbor? { CborThere(wide, v, at); } else { PackThere(wide, v, at); }
  }

  // ---------------------------------------------------------------- steps of the decoder

  lemma TokenStep(fmt: Format, wide: Widen, v: seq<byte>, at: nat)
    requires ReadToken(fmt, wide, v, at).Ok?
    ensures var (tok, p) := ReadToken(fmt, wide, v, at).value; p <= |v| && Decode(fmt, wide, v, at) == TokenThen(fmt, wide, v, tok, p)
  {
    hide ReadToken, DecodeItems, DecodePairs, DecodeChunks, DecodeUntil, DecodePairsUntil;
  }

  /** How an item goes on after its token. */
  function TokenThen(fmt: Format, wide: Widen, v: seq<byte>, tok: Token, p: nat): Read
    requires p <= |v|
  {
    match tok
    case Value(j) => Ok((j, p))
    case TextHead(n) => if p + n <= |v| then Ok((Str(Chars(v[p..p + n])), p + n)) else Err(OutOfRange)
    case ListHead(n) => DecodeItems(fmt, wide, v, p, n, [])
    case TableHead(n) => DecodePairs(fmt, wide, v, p, n, map[])
    case TextUntilBreak => DecodeChunks(fmt, wide, v, p, "")
    case ListUntilBreak => DecodeUntil(fmt, wide, v, p, [])
    case TableUntilBreak => DecodePairsUntil(fmt, wide, v, p, map[])
  }

  // ---------------------------------------------------------------- every item is decoded

  /** Reading item `x` at `at`. */
  ghost predicate Reads(fmt: Format, wide: Widen, v: seq<byte>, at: nat, x: Item) {
    && Written(x) != [] && at + |Written(x)| <= |v| && (fmt.Cbor? ==> v[at] != BREAK)
    && Decode(fmt, wide, v, at) == Ok((Means(x), at + |Written(x)|))
    && (IsText(x) ==> Means(x).Str?)
  }

  /** No head of CBOR starts with the break byte. */
  lemma HeadNoBreak(wide: Widen, tok: Token, h: seq<byte>)
    requires CborSpells(wide, tok, h)
    ensures h != [] && h[0] != BREAK
  {
    hide BeVal;
  }

  lemma HeadStands(fmt: Format, wide: Widen, tok: Token, v: seq<byte>, at: nat, h: seq<byte>, rest: seq<byte>)
    requires Spells(fmt, wide, tok, h) && StandsAt(v, at, h + rest)
    ensures h != [] && at + |h| <= |v| && StandsAt(v, at + |h|, rest) && (fmt.Cbor? ==> v[at] != BREAK)
    ensures Decode(fmt, wide, v, at) == TokenThen(fmt, wide, v, tok, at + |h|)
  {
    hide CborSpells, PackSpells, ReadToken, Decode, TokenThen;
    StandsSplit(v, at, h, rest);
    Spelled(fmt, wide, tok, v, at, h);
    TokenStep(fmt, wide, v, at);
    if fmt.Cbor? { HeadNoBreak(wide, tok, h); FirstByte(v, at, h); }
  }

  lemma BreakStands(v: seq<byte>, at: nat)
    requires StandsAt(v, at, [BREAK])
    ensures at < |v| && v[at] == BREAK
  {
    assert v[at..at + 1][0] == v[at];
  }

  lemma {:induction false} ItemReads(fmt: Format, wide: Widen, x: Item, v: seq<byte>, at: nat)
    requires Valid(fmt, wide, x) && StandsAt(v, at, Written(x))
    ensures Reads(fmt, wide, v, at, x)
    decreases x, 1
  {
    hide Spells, Decode, DecodeItems, DecodePairs, DecodeChunks, DecodeUntil, DecodePairsUntil, ValidItems, ValidPairs, WrittenItems, WrittenPairs, MeansItems, MeansPairs, JoinedText, Chars, StandsAt;
    match x
    case Scalar(h, j) =>
      assert h + [] == h;
      HeadStands(fmt, wide, Value(j), v, at, h, []);
    case Text(h, b) =>
      HeadStands(fmt, wide, TextHead(|b|), v, at, h, b);
      StandsWithin(v, at + |h|, b);
    case List(h, xs) =>
      HeadStands(fmt, wide, ListHead(Size(xs)), v, at, h, WrittenItems(xs));
      ItemsRead(fmt, wide, xs, v, at + |h|, []);
      assert [] + MeansItems(xs) == MeansItems(xs);
    case Table(h, ps) =>
      HeadStands(fmt, wide, TableHead(PairCount(ps)), v, at, h, WrittenPairs(ps));
      PairsRead(fmt, wide, ps, v, at + |h|, map[]);
      assert map[] + MeansPairs(ps) == MeansPairs(ps);
    case _ => OpenReads(fmt, wide, x, v, at);
  }

  lemma {:induction false} OpenReads(fmt: Format, wide: Widen, x: Item, v: seq<byte>, at: nat)
    requires (x.OpenText? || x.OpenList? || x.OpenTable?) && Valid(fmt, wide, x) && StandsAt(v, at, Written(x))
    ensures Reads(fmt, wide, v, at, x)
    decreases x, 0
  {
    hide Decode, DecodeItems, DecodePairs, DecodeChunks, DecodeUntil, DecodePairsUntil, ValidItems, ValidPairs, WrittenItems, WrittenPairs, MeansItems, MeansPairs, JoinedText, StandsAt;
    match x
    case OpenText(xs) =>
      HeadStands(fmt, wide, TextUntilBreak, v, at, [0x7f], WrittenItems(xs) + [BREAK]);
      StandsSplit(v, at + 1, WrittenItems(xs), [BREAK]);
      ChunksRead(wide, xs, v, at + 1, "");
      assert "" + JoinedText(xs) == JoinedText(xs);
    case OpenList(xs) =>
      HeadStands(fmt, wide, ListUntilBreak, v, at, [0x9f], WrittenItems(xs) + [BREAK]);
      StandsSplit(v, at + 1, WrittenItems(xs), [BREAK]);
      UntilReads(wide, xs, v, at + 1, []);
      assert [] + MeansItems(xs) == MeansItems(xs);
    case OpenTable(ps) =>
      HeadStands(fmt, wide, TableUntilBreak, v, at, [0xbf], WrittenPairs(ps) + [BREAK]);
      StandsSplit(v, at + 1, WrittenPairs(ps), [BREAK]);
      PairsUntilRead(wide, ps, v, at + 1, map[]);
      assert map[] + MeansPairs(ps) == MeansPairs(ps);
  }

  lemma {:induction false} ItemsRead(fmt: Format, wide: Widen, xs: Items, v: seq<byte>, at: nat, done: seq<Json>)
    requires ValidItems(fmt, wide, xs) && at <= |v| && StandsAt(v, at, WrittenItems(xs))
    ensures DecodeItems(fmt, wide, v, at, Size(xs), done) == Ok((Arr(done + MeansItems(xs)), at + |WrittenItems(xs)|))
    decreases xs, 0
  {
    hide Decode, Valid, Written, Means, StandsAt;
    match xs
    case NoItems => assert done + [] == done;
    case Items(x, rest) =>
      StandsSplit(v, at, Written(x), WrittenItems(rest));
      ItemReads(fmt, wide, x, v, at);
      ItemsRead(fmt, wide, rest, v, at + |Written(x)|, done + [Means(x)]);
      Regroup(done, [Means(x)], MeansItems(rest));
  }

  lemma {:induction false} PairReads(fmt: Format, wide: Widen, ps: Pairs, v: seq<byte>, at: nat)
    requires ps.Pairs? && IsText(ps.key) && Valid(fmt, wide, ps.key) && Valid(fmt, wide, ps.value) && at <= |v|
    requires StandsAt(v, at, Written(ps.key)) && StandsAt(v, at + |Written(ps.key)|, Written(ps.value))
    ensures var p := at + |Written(ps.key)| + |Written(ps.value)|;
      && p <= |v| && (fmt.Cbor? ==> v[at] != BREAK)
      && DecodePair(fmt, wide, v, at) == Ok((TextOf(ps.key), Means(ps.value), p))
    decreases ps, 0
  {
    hide Decode, Valid, Written, Means, StandsAt;
    ItemReads(fmt, wide, ps.key, v, at);
    ItemReads(fmt, wide, ps.value, v, at + |Written(ps.key)|);
  }

  lemma {:induction false} PairsRead(fmt: Format, wide: Widen, ps: Pairs, v: seq<byte>, at: nat, done: map<string, Json>)
    requires ValidPairs(fmt, wide, ps) && at <= |v| && StandsAt(v, at, WrittenPairs(ps))
    ensures DecodePairs(fmt, wide, v, at, PairCount(ps), done) == Ok((Obj(done + MeansPairs(ps)), at + |WrittenPairs(ps)|))
    decreases ps, 1
  {
    hide Decode, DecodePair, Valid, Written, Means, TextOf, StandsAt;
    match ps
    case NoPairs => assert done + map[] == done;
    case Pairs(k, x, others) =>
      StandsSplit(v, at, Written(k), Written(x) + WrittenPairs(others));
      StandsSplit(v, at + |Written(k)|, Written(x), WrittenPairs(others));
      PairReads(fmt, wide, ps, v, at);
      var next := done[TextOf(k) := Means(x)];
      PairsRead(fmt, wide, others, v, at + |Written(k)| + |Written(x)|, next);
      assert next == done + map[TextOf(k) := Means(x)];
      assert next + MeansPairs(others) == done + (map[TextOf(k) := Means(x)] + MeansPairs(others));
  }

  lemma {:induction false} ChunksRead(wide: Widen, xs: Items, v: seq<byte>, at: nat, done: string)
    requires ValidItems(Cbor, wide, xs) && AllText(xs) && at <= |v|
    requires StandsAt(v, at, WrittenItems(xs)) && StandsAt(v, at + |WrittenItems(xs)|, [BREAK])
    ensures DecodeChunks(Cbor, wide, v, at, done) == Ok((Str(done + JoinedText(xs)), at + |WrittenItems(xs)| + 1))
    ensures at + |WrittenItems(xs)| + 1 <= |v|
    decreases xs, 0
  {
    hide Decode, Valid, Written, Means, StandsAt;
    match xs
    case NoItems =>
      BreakStands(v, at);
      assert done + "" == done;
    case Items(x, rest) =>
      StandsSplit(v, at, Written(x), WrittenItems(rest));
      ItemReads(Cbor, wide, x, v, at);
      ChunksRead(wide, rest, v, at + |Written(x)|, done + TextOf(x));
      Regroup(done, TextOf(x), JoinedText(rest));
  }

  lemma {:induction false} UntilReads(wide: Widen, xs: Items, v: seq<byte>, at: nat, done: seq<Json>)
    requires ValidItems(Cbor, wide, xs) && at <= |v|
    requires StandsAt(v, at, WrittenItems(xs)) && StandsAt(v, at + |WrittenItems(xs)|, [BREAK])
    ensures DecodeUntil(Cbor, wide, v, at, done) == Ok((Arr(done + MeansItems(xs)), at + |WrittenItems(xs)| + 1))
    ensures at + |WrittenItems(xs)| + 1 <= |v|
    decreases xs, 0
  {
    hide Decode, Valid, Written, Means, StandsAt;
    match xs
    case NoItems =>
      BreakStands(v, at);
      assert done + [] == done;
    case Items(x, rest) =>
      StandsSplit(v, at, Written(x), WrittenItems(rest));
      ItemReads(Cbor, wide, x, v, at);
      UntilReads(wide, rest, v, at + |Written(x)|, done + [Means(x)]);
      Regroup(done, [Means(x)], MeansItems(rest));
  }

  lemma {:induction false} PairsUntilRead(wide: Widen, ps: Pairs, v: seq<byte>, at: nat, done: map<string, Json>)
    requires ValidPairs(Cbor, wide, ps) && at <= |v|
    requires StandsAt(v, at, WrittenPairs(ps)) && StandsAt(v, at + |WrittenPairs(ps)|, [BREAK])
    ensures DecodePairsUntil(Cbor, wide, v, at, done) == Ok((Obj(done + MeansPairs(ps)), at + |WrittenPairs(ps)| + 1))
    ensures at + |WrittenPairs(ps)| + 1 <= |v|
    decreases ps, 1
  {
    hide Decode, DecodePair, Valid, Written, Means, TextOf, StandsAt;
    match ps
    case NoPairs =>
      BreakStands(v, at);
      assert done + map[] == done;
    case Pairs(k, x, others) =>
      StandsSplit(v, at, Written(k), Written(x) + WrittenPairs(others));
      StandsSplit(v, at + |Written(k)|, Written(x), WrittenPairs(others));
      PairReads(Cbor, wide, ps, v, at);
      var next := done[TextOf(k) := Means(x)];
      PairsUntilRead(wide, others, v, at + |Written(k)| + |Written(x)|, next);
      assert next == done + map[TextOf(k) := Means(x)];
      assert next + MeansPairs(others) == done + (map[TextOf(k) := Means(x)] + MeansPairs(others));
  }

  // ---------------------------------------------------------------- nothing else is

  /** Item `x` stands from `at` up to `p`. */
  ghost predicate Found(fmt: Format, wide: Widen, v: seq<byte>, at: nat, x: Item, p: nat) {
    Valid(fmt, wide, x) && at < p <= |v| && v[at..p] == Written(x) && (Means(x).Str? ==> IsText(x))
  }

  lemma Joins(v: seq<byte>, a: nat, b: nat, c: nat)
    requires a <= b <= c <= |v|
    ensures v[a..c] == v[a..b] + v[b..c]
  {
  }

  /** A value that a head alone spells is no string. */
  lemma ScalarNoText(fmt: Format, wide: Widen, j: Json, h: seq<byte>)
    requires Spells(fmt, wide, Value(j), h)
    ensures !j.Str?
  {
    hide BeVal;
  }

  lemma {:induction false} ItemThere(fmt: Format, wide: Widen, v: seq<byte>, at: nat) returns (x: Item)
    requires Decode(fmt, wide, v, at).Ok?
    ensures Found(fmt, wide, v, at, x, Decode(fmt, wide, v, at).value.1) && Means(x) == Decode(fmt, wide, v, at).value.0
    decreases if at <= |v| then |v| - at else 0, 0
  {
    hide Spells, ReadToken, Decode, DecodeItems, DecodePairs, DecodeChunks, DecodeUntil, DecodePairsUntil;
    assert ReadToken(fmt, wide, v, at).Ok? by { TokenFirst(fmt, wide, v, at); }
    SpelledThere(fmt, wide, v, at);
    TokenStep(fmt, wide, v, at);
    var (tok, p) := ReadToken(fmt, wide, v, at).value;
    var e := Decode(fmt, wide, v, at).value.1;
    var h := v[at..p];
    assert at < p;
    match tok
    case Value(j) =>
      x := Scalar(h, j);
      ScalarNoText(fmt, wide, j, h);
    case TextHead(n) =>
      x := Item.Text(h, v[p..p + n]);
      Joins(v, at, p, e);
    case ListHead(n) =>
      var xs := ItemsThere(fmt, wide, v, p, n, []);
      x := Item.List(h, xs);
      Joins(v, at, p, e);
      assert [] + MeansItems(xs) == MeansItems(xs);
    case TableHead(n) =>
      var ps := PairsThere(fmt, wide, v, p, n, map[]);
      x := Item.Table(h, ps);
      Joins(v, at, p, e);
      assert map[] + MeansPairs(ps) == MeansPairs(ps);
    case _ => x := OpenThere(fmt, wide, v, at);
  }

  lemma TokenFirst(fmt: Format, wide: Widen, v: seq<byte>, at: nat)
    requires Decode(fmt, wide, v, at).Ok?
    ensures ReadToken(fmt, wide, v, at).Ok?
  {
    hide ReadToken;
  }

  lemma OpenHead(fmt: Format, wide: Widen, tok: Token, h: seq<byte>)
    requires Spells(fmt, wide, tok, h) && (tok.TextUntilBreak? || tok.ListUntilBreak? || tok.TableUntilBreak?)
    ensures fmt.Cbor? && h == [if tok.TextUntilBreak? then 0x7f else if tok.ListUntilBreak? then 0x9f else 0xbf]
  {
  }

  lemma {:induction false} OpenThere(fmt: Format, wide: Widen, v: seq<byte>, at: nat) returns (x: Item)
    requires Decode(fmt, wide, v, at).Ok? && ReadToken(fmt, wide, v, at).Ok?
    requires var tok := ReadToken(fmt, wide, v, at).value.0; tok.TextUntilBreak? || tok.ListUntilBreak? || tok.TableUntilBreak?
    ensures Found(fmt, wide, v, at, x, Decode(fmt, wide, v, at).value.1) && Means(x) == Decode(fmt, wide, v, at).value.0
    decreases if at <= |v| then |v| - at else 0, -1
  {
    hide Spells, ReadToken, Decode, DecodeItems, DecodePairs, DecodeChunks, DecodeUntil, DecodePairsUntil;
    SpelledThere(fmt, wide, v, at);
    TokenStep(fmt, wide, v, at);
    var (tok, p) := ReadToken(fmt, wide, v, at).value;
    var e := Decode(fmt, wide, v, at).value.1;
    OpenHead(fmt, wide, tok, v[at..p]);
    assert at < p;
    match tok
    case TextUntilBreak =>
      var xs := ChunksThere(wide, v, p, "");
      x := OpenText(xs);
      assert "" + JoinedText(xs) == JoinedText(xs);
    case ListUntilBreak =>
      var xs := UntilThere(wide, v, p, []);
      x := OpenList(xs);
      assert [] + MeansItems(xs) == MeansItems(xs);
    case TableUntilBreak =>
      var ps := PairsUntilThere(wide, v, p, map[]);
      x := OpenTable(ps);
      assert map[] + MeansPairs(ps) == MeansPairs(ps);
    Joins(v, at, p, e);
  }

  lemma {:induction false} ItemsThere(fmt: Format, wide: Widen, v: seq<byte>, at: nat, n: nat, done: seq<Json>) returns (xs: Items)
    requires at <= |v| && DecodeItems(fmt, wide, v, at, n, done).Ok?
    ensures var (j, p) := DecodeItems(fmt, wide, v, at, n, done).value;
      && ValidItems(fmt, wide, xs) && Size(xs) == n && at <= p <= |v| && v[at..p] == WrittenItems(xs) && j == Arr(done + MeansItems(xs))
    decreases |v| - at, 1, n
  {
    hide Decode, Valid, Written, Means;
    if n == 0 {
      xs := NoItems;
      assert done + [] == done;
    } else {
      var x := ItemThere(fmt, wide, v, at);
      var p := Decode(fmt, wide, v, at).value.1;
      var rest := ItemsThere(fmt, wide, v, p, n - 1, done + [Means(x)]);
      xs := Items(x, rest);
      Joins(v, at, p, DecodeItems(fmt, wide, v, at, n, done).value.1);
      Regroup(done, [Means(x)], MeansItems(rest));
    }
  }

  lemma {:induction false} PairThere(fmt: Format, wide: Widen, v: seq<byte>, at: nat) returns (k: Item, x: Item)
    requires at <= |v| && DecodePair(fmt, wide, v, at).Ok?
    ensures var (key, j, p) := DecodePair(fmt, wide, v, at).value;
      && IsText(k) && Valid(fmt, wide, k) && Valid(fmt, wide, x) && at < p <= |v| && v[at..p] == Written(k) + Written(x)
      && key == TextOf(k) && j == Means(x)
    decreases |v| - at, 2, 0
  {
    hide Decode, Valid, Written, Means;
    k := ItemThere(fmt, wide, v, at);
    var p := Decode(fmt, wide, v, at).value.1;
    x := ItemThere(fmt, wide, v, p);
    Joins(v, at, p, DecodePair(fmt, wide, v, at).value.2);
  }

  lemma {:induction false} PairsThere(fmt: Format, wide: Widen, v: seq<byte>, at: nat, n: nat, done: map<string, Json>) returns (ps: Pairs)
    requires at <= |v| && DecodePairs(fmt, wide, v, at, n, done).Ok?
    ensures var (j, p) := DecodePairs(fmt, wide, v, at, n, done).value;
      && ValidPairs(fmt, wide, ps) && PairCount(ps) == n && at <= p <= |v| && v[at..p] == WrittenPairs(ps) && j == Obj(done + MeansPairs(ps))
    decreases |v| - at, 3, n
  {
    hide Decode, DecodePair, Valid, Written, Means, TextOf;
    if n == 0 {
      ps := NoPairs;
      assert done + map[] == done;
    } else {
      var k, x := PairThere(fmt, wide, v, at);
      var p := DecodePair(fmt, wide, v, at).value.2;
      var next := done[TextOf(k) := Means(x)];
      var others := PairsThere(fmt, wide, v, p, n - 1, next);
      ps := Pairs(k, x, others);
      Joins(v, at, p, DecodePairs(fmt, wide, v, at, n, done).value.1);
      assert next == done + map[TextOf(k) := Means(x)];
      assert next + MeansPairs(others) == done + (map[TextOf(k) := Means(x)] + MeansPairs(others));
      Regroup(Written(k), Written(x), WrittenPairs(others));
    }
  }

  lemma {:induction false} ChunksThere(wide: Widen, v: seq<byte>, at: nat, done: string) returns (xs: Items)
    requires at <= |v| && DecodeChunks(Cbor, wide, v, at, done).Ok?
    ensures var (j, p) := DecodeChunks(Cbor, wide, v, at, done).value;
      && ValidItems(Cbor, wide, xs) && AllText(xs) && at <= p <= |v| && v[at..p] == WrittenItems(xs) + [BREAK] && j == Str(done + JoinedText(xs))
    decreases |v| - at, 2
  {
    hide Decode, Valid, Written, Means;
    if v[at] == BREAK {
      xs := NoItems;
      assert done + "" == done;
    } else {
      var x := ItemThere(Cbor, wide, v, at);
      var p := Decode(Cbor, wide, v, at).value.1;
      var rest := ChunksThere(wide, v, p, done + TextOf(x));
      xs := Items(x, rest);
      Joins(v, at, p, DecodeChunks(Cbor, wide, v, at, done).value.1);
      Regroup(done, TextOf(x), JoinedText(rest));
      Regroup(Written(x), WrittenItems(rest), [BREAK]);
    }
  }

  lemma {:induction false} UntilThere(wide: Widen, v: seq<byte>, at: nat, done: seq<Json>) returns (xs: Items)
    requires at <= |v| && DecodeUntil(Cbor, wide, v, at, done).Ok?
    ensures var (j, p) := DecodeUntil(Cbor, wide, v, at, done).value;
      && ValidItems(Cbor, wide, xs) && at <= p <= |v| && v[at..p] == WrittenItems(xs) + [BREAK] && j == Arr(done + MeansItems(xs))
    decreases |v| - at, 1
  {
    hide Decode, Valid, Written, Means;
    if v[at] == BREAK {
      xs := NoItems;
      assert done + [] == done;
    } else {
      var x := ItemThere(Cbor, wide, v, at);
      var p := Decode(Cbor, wide, v, at).value.1;
      var rest := UntilThere(wide, v, p, done + [Means(x)]);
      xs := Items(x, rest);
      Joins(v, at, p, DecodeUntil(Cbor, wide, v, at, done).value.1);
      Regroup(done, [Means(x)], MeansItems(rest));
      Regroup(Written(x), WrittenItems(rest), [BREAK]);
    }
  }

  lemma {:induction false} PairsUntilThere(wide: Widen, v: seq<byte>, at: nat, done: map<string, Json>) returns (ps: Pairs)
    requires at <= |v| && DecodePairsUntil(Cbor, wide, v, at, done).Ok?
    ensures var (j, p) := DecodePairsUntil(Cbor, wide, v, at, done).value;
      && ValidPairs(Cbor, wide, ps) && at <= p <= |v| && v[at..p] == WrittenPairs(ps) + [BREAK] && j == Obj(done + MeansPairs(ps))
    decreases |v| - at, 3
  {
    hide Decode, DecodePair, Valid, Written, Means, TextOf;
    if v[at] == BREAK {
      ps := NoPairs;
      assert done + map[] == done;
    } else {
      var k, x := PairThere(Cbor, wide, v, at);
      var p := DecodePair(Cbor, wide, v, at).value.2;
      var next := done[TextOf(k) := Means(x)];
      var others := PairsUntilThere(wide, v, p, next);
      ps := Pairs(k, x, others);
      Joins(v, at, p, DecodePairsUntil(Cbor, wide, v, at, done).value.1);
      assert next == done + map[TextOf(k) := Means(x)];
      assert next + MeansPairs(others) == done + (map[TextOf(k) := Means(x)] + MeansPairs(others));
      Regroup(Written(k), Written(x), WrittenPairs(others));
      Regroup(Written(k) + Written(x), WrittenPairs(others), [BREAK]);
    }
  }

  // ---------------------------------------------------------------- the law

  /**
   Decoding at an index succeeds exactly where an item of the grammar stands, gives what it means, and stops
   right after it.
   */
  lemma DecodesTheGrammar(fmt: Format, wide: Widen, v: seq<byte>, at: nat, j: Json, p: nat)
    ensures Decode(fmt, wide, v, at) == Ok((j, p)) <==>
      exists x: Item :: Valid(fmt, wide, x) && Means(x) == j && StandsAt(v, at, Written(x)) && p == at + |Written(x)|
  {
    hide Decode, Valid, Means, Written;
    if Decode(fmt, wide, v, at) == Ok((j, p)) {
      var x := ItemThere(fmt, wide, v, at);
      assert |v[at..p]| == p - at;
    }
    if x: Item :| Valid(fmt, wide, x) && Means(x) == j && StandsAt(v, at, Written(x)) && p == at + |Written(x)| {
      ItemReads(fmt, wide, x, v, at);
    }
  }
}
