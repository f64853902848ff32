/** The decoders as written: loops that read item after item and move one index along. */
module BinaryReader {
  import opened Bytes
  import opened JsonValue
  import opened BinaryEncode
  import opened BinaryDecode

  method ReadItem(fmt: Format, wide: Widen, v: seq<byte>, at: nat) returns (r: Read)
    ensures r == Decode(fmt, wide, v, at)
    decreases if at <= |v| then |v| - at else 0, 0
  {
    hide ReadToken, DecodeItems, DecodePairs, DecodeChunks, DecodeUntil, DecodePairsUntil;
    var head := ReadToken(fmt, wide, v, at);
    if head.Err? { return Err(head.error); }
    var (tok, p) := head.value;
    match tok
    case Value(j) => return Ok((j, p));
    case TextHead(n) => if p + n > |v| { return Err(OutOfRange); } return Ok((Str(Chars(v[p..p + n])), p + n));
    case ListHead(n) => r := ReadList(fmt, wide, v, p, n);
    case TableHead(n) => r := ReadTable(fmt, wide, v, p, n);
    case TextUntilBreak => r := ReadChunks(fmt, wide, v, p);
    case ListUntilBreak => r := ReadListUntil(fmt, wide, v, p);
    case TableUntilBreak => r := ReadTableUntil(fmt, wide, v, p);
  }

  method ReadList(fmt: Format, wide: Widen, v: seq<byte>, at: nat, n: nat) returns (r: Read)
    requires at <= |v|
    ensures r == DecodeItems(fmt, wide, v, at, n, [])
    decreases |v| - at, 1
  {
    hide Decode;
    var idx: nat, done := at, [];
    for k := 0 to n
      invariant at <= idx <= |v| && DecodeItems(fmt, wide, v, idx, n - k, done) == DecodeItems(fmt, wide, v, at, n, [])
    {
      var item := ReadItem(fmt, wide, v, idx);
      if item.Err? { return Err(item.error); }
      done, idx := done + [item.value.0], item.value.1;
    }
    return Ok((Arr(done), idx));
  }

  method ReadTable(fmt: Format, wide: Widen, v: seq<byte>, at: nat, n: nat) returns (r: Read)
    requires at <= |v|
    ensures r == DecodePairs(fmt, wide, v, at, n, map[])
    decreases |v| - at, 3
  {
    hide Decode, DecodeKey, DecodePair;
    var idx: nat, done := at, map[];
    for k := 0 to n
      invariant at <= idx <= |v| && DecodePairs(fmt, wide, v, idx, n - k, done) == DecodePairs(fmt, wide, v, at, n, map[])
    {
      var pair := ReadPair(fmt, wide, v, idx);
      if pair.Err? { return Err(pair.error); }
      done, idx := done[pair.value.0 := pair.value.1], pair.value.2;
    }
    return Ok((Obj(done), idx));
  }

  method ReadKey(fmt: Format, wide: Widen, v: seq<byte>, at: nat) returns (r: Result<(string, nat)>)
    requires at <= |v|
    ensures r == DecodeKey(fmt, wide, v, at)
    decreases |v| - at, 1
  {
    hide Decode;
    var key := ReadItem(fmt, wide, v, at);
    if key.Err? { return Err(key.error); }
    if !key.value.0.Str? { return Err(DomainError); }
    return Ok((key.value.0.s, key.value.1));
  }

  method ReadPair(fmt: Format, wide: Widen, v: seq<byte>, at: nat) returns (r: Result<(string, Json, nat)>)
    requires at <= |v|
    ensures r == DecodePair(fmt, wide, v, at)
    decreases |v| - at, 2
  {
    hide Decode, DecodeKey;
    var key := ReadKey(fmt, wide, v, at);
    if key.Err? { return Err(key.error); }
    var item := ReadItem(fmt, wide, v, key.value.1);
    if item.Err? { return Err(item.error); }
    return Ok((key.value.0, item.value.0, item.value.1));
  }

  method ReadChunks(fmt: Format, wide: Widen, v: seq<byte>, at: nat) returns (r: Read)
    requires at <= |v|
    ensures r == DecodeChunks(fmt, wide, v, at, "")
    decreases |v| - at, 2
  {
    hide Decode, DecodeKey;
    var idx: nat, done := at, "";
    while idx < |v| && v[idx] != BREAK
      invariant at <= idx <= |v| && DecodeChunks(fmt, wide, v, idx, done) == DecodeChunks(fmt, wide, v, at, "")
      decreases |v| - idx
    {
      var chunk := ReadKey(fmt, wide, v, idx);
      if chunk.Err? { return Err(chunk.error); }
      done, idx := done + chunk.value.0, chunk.value.1;
    }
    return if idx == |v| then Err(OutOfRange) else Ok((Str(done), idx + 1));
  }

  method ReadListUntil(fmt: Format, wide: Widen, v: seq<byte>, at: nat) returns (r: Read)
    requires at <= |v|
    ensures r == DecodeUntil(fmt, wide, v, at, [])
    decreases |v| - at, 1
  {
    hide Decode;
    var idx: nat, done := at, [];
    while idx < |v| && v[idx] != BREAK
      invariant at <= idx <= |v| && DecodeUntil(fmt, wide, v, idx, done) == DecodeUntil(fmt, wide, v, at, [])
      decreases |v| - idx
    {
      var item := ReadItem(fmt, wide, v, idx);
      if item.Err? { return Err(item.error); }
      done, idx := done + [item.value.0], item.value.1;
    }
    return if idx == |v| then Err(OutOfRange) else Ok((Arr(done), idx + 1));
  }

  method ReadTableUntil(fmt: Format, wide: Widen, v: seq<byte>, at: nat) returns (r: Read)
    requires at <= |v|
    ensures r == DecodePairsUntil(fmt, wide, v, at, map[])
    decreases |v| - at, 3
  {
    hide Decode, DecodeKey, DecodePair;
    var idx: nat, done := at, map[];
    while idx < |v| && v[idx] != BREAK
      invariant at <= idx <= |v| && DecodePairsUntil(fmt, wide, v, idx, done) == DecodePairsUntil(fmt, wide, v, at, map[])
      decreases |v| - idx
    {
      var pair := ReadPair(fmt, wide, v, idx);
      if pair.Err? { return Err(pair.error); }
      done, idx := done[pair.value.0 := pair.value.1], pair.value.2;
    }
    return if idx == |v| then Err(OutOfRange) else Ok((Obj(done), idx + 1));
  }
}
