/**
 Encoded items as a grammar: the heads CBOR (sections 2.1 to 2.3 of RFC 7049) and MessagePack have, and items
 made of them. Nothing here knows of a decoder.
 */
module BinaryItems {
  import opened Bytes
  import opened JsonValue
  import opened BinaryEncode
  import opened BinaryDecode

  // ---------------------------------------------------------------- heads

  /** A CBOR head of major type `major` with argument `n`: in the first byte, or in 1, 2, 4 or 8 bytes after it. */
  predicate CborArgument(major: int, n: nat, h: seq<byte>) {
    && h != [] && h[0] / 32 == major
    && (|h| == 1 ==> n < 24 && h[0] % 32 == n)
    && (|h| > 1 ==> BeVal(h[1..]) == n && (|h|, h[0] % 32) in {(2, 24), (3, 25), (5, 26), (9, 27)})
  }

  /** A head of one given byte and an argument of `w` bytes. */
  predicate Tagged(h: seq<byte>, first: int, w: nat) {
    |h| == 1 + w && h[0] as int == first
  }

  ghost predicate CborSpells(wide: Widen, tok: Token, h: seq<byte>) {
    match tok
    case Value(Uint(n)) => CborArgument(0, n, h)
    case Value(Int(m)) => exists n: nat :: CborArgument(1, n, h) && m == -1 - ToInt64(n)
    case Value(Bool(b)) => h == [if b then 0xf5 else 0xf4]
    case Value(j) =>
      || (j == Null && h == [0xf6])
      || (Tagged(h, 0xf9, 2) && j == FromDouble(wide(h[1..])))
      || (Tagged(h, 0xfa, 4) && j == FromDouble(wide(h[1..])))
      || (Tagged(h, 0xfb, 8) && j == FromDouble(h[1..]))
    case TextHead(n) => CborArgument(3, n, h)
    case ListHead(n) => CborArgument(4, n, h)
    case TableHead(n) => CborArgument(5, n, h)
    case TextUntilBreak => h == [0x7f]
    case ListUntilBreak => h == [0x9f]
    case TableUntilBreak => h == [0xbf]
  }

  /** A family of MessagePack: a first byte, and a big-endian argument. */
  predicate PackArgument(h: seq<byte>, first: int, w: nat, n: nat) {
    Tagged(h, first, w) && BeVal(h[1..]) == n
  }

  /** A family whose argument is in two's complement. */
  predicate PackSigned(h: seq<byte>, first: int, w: nat, m: int) {
    Tagged(h, first, w) && Signed(BeVal(h[1..]), w) == m
  }

  /** A family that keeps its argument in the first byte. */
  predicate PackFixed(h: seq<byte>, base: int, n: nat, limit: int) {
    n < limit && h == [base + n] && base + limit <= 256
  }

  ghost predicate PackSpells(wide: Widen, tok: Token, h: seq<byte>) {
    match tok
    case Value(Uint(n)) =>
      PackFixed(h, 0, n, 128) || PackArgument(h, 0xcc, 1, n) || PackArgument(h, 0xcd, 2, n)
      || PackArgument(h, 0xce, 4, n) || PackArgument(h, 0xcf, 8, n)
    case Value(Int(m)) =>
      (-32 <= m < 0 && h == [256 + m]) || PackSigned(h, 0xd0, 1, m) || PackSigned(h, 0xd1, 2, m)
      || PackSigned(h, 0xd2, 4, m) || PackSigned(h, 0xd3, 8, m)
    case Value(Bool(b)) => h == [if b then 0xc3 else 0xc2]
    case Value(j) =>
      || (j == Null && h == [0xc0])
      || (Tagged(h, 0xca, 4) && j == FromDouble(wide(h[1..])))
      || (Tagged(h, 0xcb, 8) && j == FromDouble(h[1..]))
    case TextHead(n) => PackFixed(h, 0xa0, n, 32) || PackArgument(h, 0xd9, 1, n) || PackArgument(h, 0xda, 2, n) || PackArgument(h, 0xdb, 4, n)
    case ListHead(n) => PackFixed(h, 0x90, n, 16) || PackArgument(h, 0xdc, 2, n) || PackArgument(h, 0xdd, 4, n)
    case TableHead(n) => PackFixed(h, 0x80, n, 16) || PackArgument(h, 0xde, 2, n) || PackArgument(h, 0xdf, 4, n)
    case _ => false
  }

  ghost predicate Spells(fmt: Format, wide: Widen, tok: Token, h: seq<byte>) {
    if fmt.Cbor? then CborSpells(wide, tok, h) else PackSpells(wide, tok, h)
  }

  // ---------------------------------------------------------------- items

  /** An item: a head, and what its kind has after it; CBOR also has items that go on up to a break. */
  datatype Item =
    | Scalar(head: seq<byte>, j: Json)
    | Text(head: seq<byte>, bytes: seq<byte>)
    | List(head: seq<byte>, items: Items)
    | Table(head: seq<byte>, pairs: Pairs)
    | OpenText(chunks: Items)
    | OpenList(elements: Items)
    | OpenTable(members: Pairs)

  datatype Items = NoItems | Items(first: Item, rest: Items)

  datatype Pairs = NoPairs | Pairs(key: Item, value: Item, others: Pairs)

  function Size(xs: Items): nat {
    match xs case NoItems => 0 case Items(_, rest) => 1 + Size(rest)
  }

  function PairCount(xs: Pairs): nat {
    match xs case NoPairs => 0 case Pairs(_, _, others) => 1 + PairCount(others)
  }

  ghost predicate Valid(fmt: Format, wide: Widen, x: Item) {
    match x
    case Scalar(h, j) => Spells(fmt, wide, Value(j), h)
    case Text(h, b) => Spells(fmt, wide, TextHead(|b|), h)
    case List(h, xs) => Spells(fmt, wide, ListHead(Size(xs)), h) && ValidItems(fmt, wide, xs)
    case Table(h, ps) => Spells(fmt, wide, TableHead(PairCount(ps)), h) && ValidPairs(fmt, wide, ps)
    case OpenText(xs) => fmt.Cbor? && ValidItems(fmt, wide, xs) && AllText(xs)
    case OpenList(xs) => fmt.Cbor? && ValidItems(fmt, wide, xs)
    case OpenTable(ps) => fmt.Cbor? && ValidPairs(fmt, wide, ps)
  }

  ghost predicate ValidItems(fmt: Format, wide: Widen, xs: Items) {
    match xs case NoItems => true case Items(x, rest) => Valid(fmt, wide, x) && ValidItems(fmt, wide, rest)
  }

  /** Keys are strings. */
  ghost predicate ValidPairs(fmt: Format, wide: Widen, ps: Pairs) {
    match ps
    case NoPairs => true
    case Pairs(k, v, others) => IsText(k) && Valid(fmt, wide, k) && Valid(fmt, wide, v) && ValidPairs(fmt, wide, others)
  }

  predicate IsText(x: Item) {
    x.Text? || x.OpenText?
  }

  predicate AllText(xs: Items) {
    match xs case NoItems => true case Items(x, rest) => IsText(x) && AllText(rest)
  }

  function Written(x: Item): seq<byte> {
    match x
    case Scalar(h, _) => h
    case Text(h, b) => h + b
    case List(h, xs) => h + WrittenItems(xs)
    case Table(h, ps) => h + WrittenPairs(ps)
    case OpenText(xs) => [0x7f] + (WrittenItems(xs) + [BREAK])
    case OpenList(xs) => [0x9f] + (WrittenItems(xs) + [BREAK])
    case OpenTable(ps) => [0xbf] + (WrittenPairs(ps) + [BREAK])
  }

  function WrittenItems(xs: Items): seq<byte> {
    match xs case NoItems => [] case Items(x, rest) => Written(x) + WrittenItems(rest)
  }

  function WrittenPairs(ps: Pairs): seq<byte> {
    match ps case NoPairs => [] case Pairs(k, v, others) => Written(k) + (Written(v) + WrittenPairs(others))
  }

  function Means(x: Item): Json
    decreases x, 0
  {
    match x
    case Scalar(_, j) => j
    case Text(_, b) => Str(Chars(b))
    case List(_, xs) => Arr(MeansItems(xs))
    case Table(_, ps) => Obj(MeansPairs(ps))
    case OpenText(xs) => Str(JoinedText(xs))
    case OpenList(xs) => Arr(MeansItems(xs))
    case OpenTable(ps) => Obj(MeansPairs(ps))
  }

  function MeansItems(xs: Items): seq<Json>
    decreases xs, 0
  {
    match xs case NoItems => [] case Items(x, rest) => [Means(x)] + MeansItems(rest)
  }

  function TextOf(x: Item): string
    decreases x, 1
  {
    var j := Means(x);
    if j.Str? then j.s else ""
  }

  function JoinedText(xs: Items): string
    decreases xs, 0
  {
    match xs case NoItems => "" case Items(x, rest) => TextOf(x) + JoinedText(rest)
  }

  /** Of members with the same key the last one counts. */
  function MeansPairs(ps: Pairs): map<string, Json>
    decreases ps, 0
  {
    match ps case NoPairs => map[] case Pairs(k, v, others) => map[TextOf(k) := Means(v)] + MeansPairs(others)
  }
}
