/** JSON values as bytes: the heads and bodies CBOR (RFC 7049) and MessagePack give them. */
module BinaryEncode {
  import opened Bytes
  import opened JsonValue
  import opened KeyOrder
  import opened Parts

  datatype Format = Cbor | MessagePack

  datatype Kind = Text | List | Table

  // ---------------------------------------------------------------- heads

  /** A CBOR head: the major type in the high three bits, then the argument in the fewest bytes. */
  function CborHead(major: int, n: nat): seq<byte>
    requires 0 <= major < 8
  {
    if n <= 0x17 then [32 * major + n]
    else if n <= 0xff then [32 * major + 24] + Be(n, 1)
    else if n <= 0xffff then [32 * major + 25] + Be(n, 2)
    else if n <= 0xffff_ffff then [32 * major + 26] + Be(n, 4)
    else [32 * major + 27] + Be(n, 8)
  }

  function PackNatural(n: nat): seq<byte> {
    if n < 128 then [n]
    else if n <= 0xff then [0xcc] + Be(n, 1)
    else if n <= 0xffff then [0xcd] + Be(n, 2)
    else if n <= 0xffff_ffff then [0xce] + Be(n, 4)
    else [0xcf] + Be(n, 8)
  }

  function PackNegative(n: int): seq<byte>
    requires n < 0
  {
    if n >= -32 then [256 + n]
    else if n >= -0x80 then [0xd0] + Be(n, 1)
    else if n >= -0x8000 then [0xd1] + Be(n, 2)
    else if n >= -0x8000_0000 then [0xd2] + Be(n, 4)
    else [0xd3] + Be(n, 8)
  }

  /** The head of a string, array or object of size `n`; none is written for sizes the format lacks. */
  function PackHead(kind: Kind, n: nat): seq<byte> {
    match kind
    case Text =>
      if n <= 31 then [0xa0 + n]
      else if n <= 0xff then [0xd9] + Be(n, 1)
      else if n <= 0xffff then [0xda] + Be(n, 2)
      else if n <= 0xffff_ffff then [0xdb] + Be(n, 4) else []
    case List =>
      if n <= 15 then [0x90 + n]
      else if n <= 0xffff then [0xdc] + Be(n, 2)
      else if n <= 0xffff_ffff then [0xdd] + Be(n, 4) else []
    case Table =>
      if n <= 15 then [0x80 + n]
      else if n <= 0xffff then [0xde] + Be(n, 2)
      else if n <= 0xffff_ffff then [0xdf] + Be(n, 4) else []
  }

  function Head(fmt: Format, kind: Kind, n: nat): seq<byte> {
    if fmt.Cbor? then CborHead(match kind case Text => 3 case List => 4 case Table => 5, n) else PackHead(kind, n)
  }

  function Number(fmt: Format, n: int): seq<byte> {
    if fmt.Cbor? then (if n >= 0 then CborHead(0, n) else CborHead(1, -1 - n))
    else if n >= 0 then PackNatural(n) else PackNegative(n)
  }

  /** The argument width of a CBOR head is the smallest of none, 1, 2, 4 and 8 bytes that holds the number. */
  lemma CborHeadShortest(major: int, n: nat, w: nat)
    requires 0 <= major < 8 && n < Span(8)
    ensures n <= 23 <==> |CborHead(major, n)| == 1
    ensures w in {1, 2, 4, 8} && n < Span(w) ==> |CborHead(major, n)| <= 1 + w
    ensures w in {1, 2, 4} && n >= Span(w) ==> |CborHead(major, n)| > 1 + w
  {
    SpanValues();
  }

  // ---------------------------------------------------------------- values

  /** The bytes of a string; std::string holds one byte a character. */
  function Raw(s: string): (r: seq<byte>)
    ensures |r| == |s|
  {
    seq(|s|, i requires 0 <= i < |s| => (s[i] as int) % 256)
  }

  function EncodeText(fmt: Format, s: string): seq<byte> {
    Head(fmt, Text, |s|) + Raw(s)
  }

  function Encode(fmt: Format, j: Json): seq<byte>
    decreases j, 1, 0
  {
    match j
    case Null => [if fmt.Cbor? then 0xf6 else 0xc0]
    case Bool(b) => [if fmt.Cbor? then (if b then 0xf5 else 0xf4) else if b then 0xc3 else 0xc2]
    case Int(n) => Number(fmt, n)
    case Uint(n) => Number(fmt, n)
    case Float(f) => [if fmt.Cbor? then 0xfb else 0xcb] + f
    case Str(s) => EncodeText(fmt, s)
    case Arr(x) => Head(fmt, List, |x|) + EncodeItems(fmt, j, 0)
    case Obj(m) => Head(fmt, Table, |m|) + EncodePairs(fmt, j, SortedKeys(m.Keys))
  }

  function EncodeItems(fmt: Format, j: Json, i: nat): seq<byte>
    requires j.Arr?
    decreases j, 0, |j.items| - i
  {
    if i >= |j.items| then [] else Encode(fmt, j.items[i]) + EncodeItems(fmt, j, i + 1)
  }

  /** Keys and values, in key order. */
  function EncodePairs(fmt: Format, j: Json, keys: seq<string>): seq<byte>
    requires j.Obj? && forall k :: k in keys ==> k in j.members
    decreases j, 0, |keys|
  {
    if keys == [] then []
    else EncodeText(fmt, keys[0]) + (Encode(fmt, j.members[keys[0]]) + EncodePairs(fmt, j, keys[1..]))
  }

  /** The encoder as written: it appends to a vector of bytes. */
  method Append(fmt: Format, j: Json, v: seq<byte>) returns (r: seq<byte>)
    ensures r == v + Encode(fmt, j)
    decreases j, 1
  {
    match j
    case Arr(x) =>
      r := v + Head(fmt, List, |x|);
      r := AppendItems(fmt, j, r);
      Regroup(v, Head(fmt, List, |x|), EncodeItems(fmt, j, 0));
    case Obj(m) =>
      r := v + Head(fmt, Table, |m|);
      r := AppendPairs(fmt, j, r);
      Regroup(v, Head(fmt, Table, |m|), EncodePairs(fmt, j, SortedKeys(m.Keys)));
    case _ =>
      r := v + Encode(fmt, j);
  }

  method AppendItems(fmt: Format, j: Json, v: seq<byte>) returns (r: seq<byte>)
    requires j.Arr?
    ensures r == v + EncodeItems(fmt, j, 0)
    decreases j, 0
  {
    hide Encode;
    r := v;
    for i := 0 to |j.items|
      invariant r + EncodeItems(fmt, j, i) == v + EncodeItems(fmt, j, 0)
    {
      Regroup(r, Encode(fmt, j.items[i]), EncodeItems(fmt, j, i + 1));
      r := Append(fmt, j.items[i], r);
    }
  }

  method AppendPairs(fmt: Format, j: Json, v: seq<byte>) returns (r: seq<byte>)
    requires j.Obj?
    ensures r == v + EncodePairs(fmt, j, SortedKeys(j.members.Keys))
    decreases j, 0
  {
    hide Encode, EncodeText, SortedKeys, Less;
    var keys := SortedKeys(j.members.Keys);
    r := v;
    for i := 0 to |keys|
      invariant r + EncodePairs(fmt, j, keys[i..]) == v + EncodePairs(fmt, j, keys)
    {
      var k := keys[i];
      ghost var later := EncodePairs(fmt, j, keys[i + 1..]);
      assert keys[i..][0] == k && keys[i..][1..] == keys[i + 1..];
      Regroup(r, EncodeText(fmt, k), Encode(fmt, j.members[k]) + later);
      r := r + EncodeText(fmt, k);
      Regroup(r, Encode(fmt, j.members[k]), later);
      r := Append(fmt, j.members[k], r);
    }
    assert keys[|keys|..] == [];
  }
}
