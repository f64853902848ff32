/** Bytes back to JSON values: one item is read at an index, and the index moves past it. */
module BinaryDecode {
  import opened Bytes
  import opened JsonValue
  import opened BinaryEncode

  /** How a float of two or four bytes becomes a double; the conversion is left to the platform. */
  type Widen = seq<byte> -> Float64

  /** What the first byte of an item, and the argument after it, say. */
  datatype Token =
    | Value(j: Json)
    | TextHead(len: nat)
    | ListHead(len: nat)
    | TableHead(len: nat)
    | TextUntilBreak
    | ListUntilBreak
    | TableUntilBreak

  /** The `w` bytes after position `at`, highest byte first. */
  function After(v: seq<byte>, at: nat, w: nat): Result<seq<byte>> {
    if at + w + 1 > |v| then Err(OutOfRange) else Ok(v[at + 1..at + 1 + w])
  }

  /** A token with an argument of `w` bytes, made from that argument, and the index after it. */
  function WithArgument(v: seq<byte>, at: nat, w: nat, make: seq<byte> -> Token): (r: Result<(Token, nat)>)
    ensures r.Ok? ==> r.value.1 == at + 1 + w <= |v|
  {
    match After(v, at, w)
    case Err(e) => Err(e)
    case Ok(arg) => Ok((make(arg), at + 1 + w))
  }

  // ---------------------------------------------------------------- heads

  /** What a CBOR major type makes of its argument. The argument of a negative number is cast to signed. */
  function CborToken(major: int, n: nat): Token {
    match major
    case 0 => Value(Uint(n))
    case 1 => Value(Int(-1 - ToInt64(n)))
    case 3 => TextHead(n)
    case 4 => ListHead(n)
    case _ => TableHead(n)
  }

  function ReadCborToken(wide: Widen, v: seq<byte>, at: nat): (r: Result<(Token, nat)>)
    requires at < |v|
    ensures r.Ok? ==> at < r.value.1 <= |v|
  {
    var major, low := v[at] / 32, v[at] % 32;
    if major in {0, 1, 3, 4, 5} && low < 28 then
      (if low < 24 then Ok((CborToken(major, low), at + 1))
       else
         var w := if low == 24 then 1 else if low == 25 then 2 else if low == 26 then 4 else 8;
         WithArgument(v, at, w, arg => CborToken(major, BeVal(arg))))
    else match v[at]
      case 0x7f => Ok((TextUntilBreak, at + 1))
      case 0x9f => Ok((ListUntilBreak, at + 1))
      case 0xbf => Ok((TableUntilBreak, at + 1))
      case 0xf4 => Ok((Value(Bool(false)), at + 1))
      case 0xf5 => Ok((Value(Bool(true)), at + 1))
      case 0xf6 => Ok((Value(Null), at + 1))
      case 0xf9 => WithArgument(v, at, 2, arg => Value(FromDouble(wide(arg))))
      case 0xfa => WithArgument(v, at, 4, arg => Value(FromDouble(wide(arg))))
      case 0xfb => WithArgument(v, at, 8, arg => Value(FromDouble(if |arg| == 8 then arg else wide(arg))))
      case _ => Err(InvalidArgument)
  }

  function ReadPackToken(wide: Widen, v: seq<byte>, at: nat): (r: Result<(Token, nat)>)
    requires at < |v|
    ensures r.Ok? ==> at < r.value.1 <= |v|
  {
    var b: int := v[at];
    if b <= 0x7f then Ok((Value(Uint(b)), at + 1))
    else if b <= 0x8f then Ok((TableHead(b - 0x80), at + 1))
    else if b <= 0x9f then Ok((ListHead(b - 0x90), at + 1))
    else if b <= 0xbf then Ok((TextHead(b - 0xa0), at + 1))
    else if b >= 0xe0 then Ok((Value(Int(b - 256)), at + 1))
    else match b
      case 0xc0 => Ok((Value(Null), at + 1))
      case 0xc2 => Ok((Value(Bool(false)), at + 1))
      case 0xc3 => Ok((Value(Bool(true)), at + 1))
      case 0xca => WithArgument(v, at, 4, arg => Value(FromDouble(wide(arg))))
      case 0xcb => WithArgument(v, at, 8, arg => Value(FromDouble(if |arg| == 8 then arg else wide(arg))))
      case 0xcc => WithArgument(v, at, 1, arg => Value(Uint(BeVal(arg))))
      case 0xcd => WithArgument(v, at, 2, arg => Value(Uint(BeVal(arg))))
      case 0xce => WithArgument(v, at, 4, arg => Value(Uint(BeVal(arg))))
      case 0xcf => WithArgument(v, at, 8, arg => Value(Uint(BeVal(arg))))
      case 0xd0 => WithArgument(v, at, 1, arg => Value(Int(Signed(BeVal(arg), 1))))
      case 0xd1 => WithArgument(v, at, 2, arg => Value(Int(Signed(BeVal(arg), 2))))
      case 0xd2 => WithArgument(v, at, 4, arg => Value(Int(Signed(BeVal(arg), 4))))
      case 0xd3 => WithArgument(v, at, 8, arg => Value(Int(Signed(BeVal(arg), 8))))
      case 0xd9 => WithArgument(v, at, 1, arg => TextHead(BeVal(arg)))
      case 0xda => WithArgument(v, at, 2, arg => TextHead(BeVal(arg)))
      case 0xdb => WithArgument(v, at, 4, arg => TextHead(BeVal(arg)))
      case 0xdc => WithArgument(v, at, 2, arg => ListHead(BeVal(arg)))
      case 0xdd => WithArgument(v, at, 4, arg => ListHead(BeVal(arg)))
      case 0xde => WithArgument(v, at, 2, arg => TableHead(BeVal(arg)))
      case 0xdf => WithArgument(v, at, 4, arg => TableHead(BeVal(arg)))
      case _ => Err(InvalidArgument)
  }

  function ReadToken(fmt: Format, wide: Widen, v: seq<byte>, at: nat): (r: Result<(Token, nat)>)
    ensures r.Ok? ==> at < r.value.1 <= |v|
  {
    if at >= |v| then Err(OutOfRange)
    else if fmt.Cbor? then ReadCborToken(wide, v, at) else ReadPackToken(wide, v, at)
  }

  // ---------------------------------------------------------------- items

  function Chars(b: seq<byte>): string {
    seq(|b|, i requires 0 <= i < |b| => b[i] as char)
  }

  /** An item and the index after it. */
  type Read = Result<(Json, nat)>

  predicate Advances(r: Read, v: seq<byte>, from: nat) {
    r.Ok? ==> from <= r.value.1 <= |v|
  }

  function Decode(fmt: Format, wide: Widen, v: seq<byte>, at: nat): (r: Read)
    ensures Advances(r, v, at + 1)
    decreases if at <= |v| then |v| - at else 0, 0, 0
  {
    match ReadToken(fmt, wide, v, at)
    case Err(e) => Err(e)
    case Ok((tok, p)) =>
      match tok
      case Value(j) => Ok((j, p))
      case TextHead(n) => if p + n <= |v| then Ok((Str(Chars(v[p..p + n])), p + n)) else Err(OutOfRange)
      case ListHead(n) => DecodeItems(fmt, wide, v, p, n, [])
      case TableHead(n) => DecodePairs(fmt, wide, v, p, n, map[])
      case TextUntilBreak => DecodeChunks(fmt, wide, v, p, "")
      case ListUntilBreak => DecodeUntil(fmt, wide, v, p, [])
      case TableUntilBreak => DecodePairsUntil(fmt, wide, v, p, map[])
  }

  /** `n` more elements after those in `done`. */
  function DecodeItems(fmt: Format, wide: Widen, v: seq<byte>, at: nat, n: nat, done: seq<Json>): (r: Read)
    requires at <= |v|
    ensures Advances(r, v, at)
    decreases |v| - at, 1, n
  {
    if n == 0 then Ok((Arr(done), at)) else
      match Decode(fmt, wide, v, at)
      case Err(e) => Err(e)
      case Ok((j, p)) => DecodeItems(fmt, wide, v, p, n - 1, done + [j])
  }

  /** A key must be a string; reading it as one refuses anything else. */
  function DecodeKey(fmt: Format, wide: Widen, v: seq<byte>, at: nat): (r: Result<(string, nat)>)
    requires at <= |v|
    ensures r.Ok? ==> at < r.value.1 <= |v|
    decreases |v| - at, 1, 0
  {
    match Decode(fmt, wide, v, at)
    case Err(e) => Err(e)
    case Ok((j, p)) => if j.Str? then Ok((j.s, p)) else Err(DomainError)
  }

  function DecodePair(fmt: Format, wide: Widen, v: seq<byte>, at: nat): (r: Result<(string, Json, nat)>)
    requires at <= |v|
    ensures r.Ok? ==> at < r.value.2 <= |v|
    decreases |v| - at, 2, 0
  {
    match DecodeKey(fmt, wide, v, at)
    case Err(e) => Err(e)
    case Ok((k, p)) =>
      match Decode(fmt, wide, v, p)
      case Err(e) => Err(e)
      case Ok((j, q)) => Ok((k, j, q))
  }

  function DecodePairs(fmt: Format, wide: Widen, v: seq<byte>, at: nat, n: nat, done: map<string, Json>): (r: Read)
    requires at <= |v|
    ensures Advances(r, v, at)
    decreases |v| - at, 3, n
  {
    if n == 0 then Ok((Obj(done), at)) else
      match DecodePair(fmt, wide, v, at)
      case Err(e) => Err(e)
      case Ok((k, j, p)) => DecodePairs(fmt, wide, v, p, n - 1, done[k := j])
  }

  const BREAK: byte := 0xff

  /** The strings up to a break byte, one after the other. */
  function DecodeChunks(fmt: Format, wide: Widen, v: seq<byte>, at: nat, done: string): (r: Read)
    requires at <= |v|
    ensures Advances(r, v, at)
    decreases |v| - at, 2, 0
  {
    if at == |v| then Err(OutOfRange)
    else if v[at] == BREAK then Ok((Str(done), at + 1))
    else match DecodeKey(fmt, wide, v, at)
      case Err(e) => Err(e)
      case Ok((s, p)) => DecodeChunks(fmt, wide, v, p, done + s)
  }

  function DecodeUntil(fmt: Format, wide: Widen, v: seq<byte>, at: nat, done: seq<Json>): (r: Read)
    requires at <= |v|
    ensures Advances(r, v, at)
    decreases |v| - at, 1, 0
  {
    if at == |v| then Err(OutOfRange)
    else if v[at] == BREAK then Ok((Arr(done), at + 1))
    else match Decode(fmt, wide, v, at)
      case Err(e) => Err(e)
      case Ok((j, p)) => DecodeUntil(fmt, wide, v, p, done + [j])
  }

  function DecodePairsUntil(fmt: Format, wide: Widen, v: seq<byte>, at: nat, done: map<string, Json>): (r: Read)
    requires at <= |v|
    ensures Advances(r, v, at)
    decreases |v| - at, 3, 0
  {
    if at == |v| then Err(OutOfRange)
    else if v[at] == BREAK then Ok((Obj(done), at + 1))
    else match DecodePair(fmt, wide, v, at)
      case Err(e) => Err(e)
      case Ok((k, j, p)) => DecodePairsUntil(fmt, wide, v, p, done[k := j])
  }
}
