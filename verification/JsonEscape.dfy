/** Strings inside JSON text (section 7 of RFC 7159): escaping into an exactly sized buffer, and reading back. */
module JsonEscape {
  import opened JsonValue

  const BACKSPACE := 8 as char
  const FORMFEED := 12 as char

  /** The letter after the backslash of a two-character escape. */
  function ShortEscape(c: char): (r: string)
    ensures |r| <= 1
  {
    if c == '"' then "\""
    else if c == '\\' then "\\"
    else if c == BACKSPACE then "b"
    else if c == FORMFEED then "f"
    else if c == '\n' then "n"
    else if c == '\r' then "r"
    else if c == '\t' then "t"
    else ""
  }

  function Hexify(d: int): char
    requires 0 <= d < 16
  {
    "0123456789abcdef"[d]
  }

  function EscapeChar(c: char): (r: string)
    ensures r != ""
  {
    if ShortEscape(c) != "" then "\\" + ShortEscape(c)
    else if c as int <= 0x1f then ['\\', 'u', '0', '0', Hexify(c as int / 16), Hexify(c as int % 16)]
    else [c]
  }

  function EscapeString(s: string): string
    decreases |s|
  {
    if s == "" then "" else EscapeChar(s[0]) + EscapeString(s[1..])
  }

  /** Characters the escapes of a string take beyond its own. */
  function ExtraSpace(s: string): nat
    decreases |s|
  {
    if s == "" then 0 else
      (if ShortEscape(s[0]) != "" then 1 else if s[0] as int <= 0x1f then 5 else 0) + ExtraSpace(s[1..])
  }

  lemma {:induction false} EscapedLength(s: string)
    ensures |EscapeString(s)| == |s| + ExtraSpace(s)
    ensures ExtraSpace(s) == 0 ==> EscapeString(s) == s
    decreases |s|
  {
    if s != "" {
      EscapedLength(s[1..]);
      assert s == [s[0]] + s[1..];
    }
  }

  lemma {:induction false} EscapedConcat(a: string, b: string)
    ensures EscapeString(a + b) == EscapeString(a) + EscapeString(b)
    decreases |a|
  {
    hide EscapeChar;
    if a == "" {
      assert a + b == b;
    } else {
      assert (a + b)[1..] == a[1..] + b;
      EscapedConcat(a[1..], b);
    }
  }

  lemma EscapedNext(s: string, n: nat)
    requires n < |s|
    ensures EscapeString(s[..n + 1]) == EscapeString(s[..n]) + EscapeChar(s[n])
    ensures |EscapeString(s[..n + 1])| <= |EscapeString(s)|
  {
    hide EscapeChar;
    assert s[..n + 1] == s[..n] + [s[n]] && s == s[..n + 1] + s[n + 1..];
    EscapedConcat(s[..n], [s[n]]);
    EscapedConcat(s[..n + 1], s[n + 1..]);
    assert [s[n]][1..] == "";
  }

  /** One character written into a buffer that still holds backslashes where nothing has been written. */
  method PutEscaped(result: array<char>, pos: nat, c: char) returns (next: nat)
    requires pos + |EscapeChar(c)| <= result.Length
    requires forall k :: pos <= k < result.Length ==> result[k] == '\\'
    modifies result
    ensures next == pos + |EscapeChar(c)|
    ensures forall k :: 0 <= k < pos ==> result[k] == old(result[k])
    ensures forall k :: pos <= k < next ==> result[k] == EscapeChar(c)[k - pos]
    ensures forall k :: next <= k < result.Length ==> result[k] == '\\'
  {
    hide ShortEscape, Hexify;
    if ShortEscape(c) != "" {
      result[pos + 1] := ShortEscape(c)[0];
      next := pos + 2;
    } else if c as int <= 0x1f {
      result[pos + 1], result[pos + 2], result[pos + 3] := 'u', '0', '0';
      result[pos + 4], result[pos + 5] := Hexify(c as int / 16), Hexify(c as int % 16);
      next := pos + 6;
    } else {
      result[pos] := c;
      next := pos + 1;
    }
  }

  lemma BufferGrows(before: string, after: string, pos: nat, e: string)
    requires pos <= |before| == |after| && pos + |e| <= |after|
    requires forall k :: 0 <= k < pos ==> after[k] == before[k]
    requires forall k :: pos <= k < pos + |e| ==> after[k] == e[k - pos]
    ensures after[..pos + |e|] == before[..pos] + e
  {
  }

  /** escape_string: a buffer of backslashes of the precomputed size, filled exactly. */
  method EscapeInBuffer(s: string) returns (r: string)
    ensures r == EscapeString(s)
  {
    assert s[..0] == "" && EscapeString("") == "";
    hide EscapeString, ExtraSpace, EscapeChar;
    EscapedLength(s);
    var space := ExtraSpace(s);
    if space == 0 { return s; }
    var size := |s| + space;
    var result := new char[size](_ => '\\');
    var pos := 0;
    for n := 0 to |s|
      invariant pos == |EscapeString(s[..n])| <= size && result[..pos] == EscapeString(s[..n])
      invariant forall k :: pos <= k < size ==> result[k] == '\\'
    {
      EscapedNext(s, n);
      ghost var before, start := result[..], pos;
      pos := PutEscaped(result, pos, s[n]);
      BufferGrows(before, result[..], start, EscapeChar(s[n]));
      assert result[..][..pos] == result[..pos] && before[..start] == EscapeString(s[..n]);
    }
    assert s[..|s|] == s;
    r := result[..];
    assert result[..] == result[..pos];
  }

  // ---------------------------------------------------------------- reading back

  function HexDigit(c: char): int {
    if '0' <= c <= '9' then c as int - '0' as int
    else if 'a' <= c <= 'f' then c as int - 'a' as int + 10
    else if 'A' <= c <= 'F' then c as int - 'A' as int + 10
    else -1
  }

  /** strtoul to base 16: the digits at the front. */
  function HexValue(s: string, acc: nat): nat
    decreases |s|
  {
    if s == "" || HexDigit(s[0]) < 0 then acc else HexValue(s[1..], 16 * acc + HexDigit(s[0]))
  }

  /** Up to four characters from `i` on. */
  function Four(s: string, i: nat): string {
    if i > |s| then "" else if i + 4 > |s| then s[i..] else s[i..i + 4]
  }

  function Byte(n: int): char {
    (n % 256) as char
  }

  /** A code point in UTF-8 (section 3 of RFC 3629). */
  function Utf8(cp: nat): Result<string> {
    if cp < 0x80 then Ok([Byte(cp)])
    else if cp <= 0x7ff then Ok([Byte(0xc0 + cp / 64), Byte(0x80 + cp % 64)])
    else if cp <= 0xffff then Ok([Byte(0xe0 + cp / 4096), Byte(0x80 + cp / 64 % 64), Byte(0x80 + cp % 64)])
    else if cp <= 0x10ffff then
      Ok([Byte(0xf0 + cp / 262144), Byte(0x80 + cp / 4096 % 64), Byte(0x80 + cp / 64 % 64), Byte(0x80 + cp % 64)])
    else Err(OutOfRange)
  }

  predicate HighSurrogate(cp: nat) {
    0xd800 <= cp <= 0xdbff
  }

  predicate LowSurrogate(cp: nat) {
    0xdc00 <= cp <= 0xdfff
  }

  /** The character a \u escape at `i` stands for, and the characters the escape takes. */
  function UnicodeEscape(raw: string, i: nat): (r: Result<(string, nat)>)
    ensures r.Ok? ==> r.value.1 > 0
  {
    var cp := HexValue(Four(raw, i + 2), 0);
    if HighSurrogate(cp) then
      if i + 7 >= |raw| || raw[i + 6] != '\\' || raw[i + 7] != 'u' then Err(InvalidArgument) else
        var low := HexValue(Four(raw, i + 8), 0);
        if !LowSurrogate(low) then Err(InvalidArgument) else
          match Utf8(0x10000 + (cp - 0xd800) * 1024 + (low - 0xdc00))
          case Err(e) => Err(e)
          case Ok(t) => Ok((t, 12))
    else if LowSurrogate(cp) then Err(InvalidArgument)
    else match Utf8(cp)
      case Err(e) => Err(e)
      case Ok(t) => Ok((t, 6))
  }

  /** What one escape at `i` adds, and the characters it takes; an unknown letter adds nothing. */
  function OneEscape(raw: string, i: nat): (r: Result<(string, nat)>)
    requires i < |raw|
    ensures r.Ok? ==> r.value.1 > 0
  {
    var c := if i + 1 < |raw| then raw[i + 1] else '"';
    if c == 'u' then UnicodeEscape(raw, i)
    else Ok((if c == 't' then "\t" else if c == 'b' then [BACKSPACE] else if c == 'f' then [FORMFEED]
             else if c == 'n' then "\n" else if c == 'r' then "\r"
             else if c == '\\' || c == '/' || c == '"' then [c] else "", 2))
  }

  /** get_string from position `i` of what stands between the quotes. */
  function GetString(raw: string, i: nat): Result<string>
    decreases |raw| - i
  {
    if i >= |raw| then Ok("")
    else if raw[i] != '\\' then
      (match GetString(raw, i + 1)
       case Err(e) => Err(e)
       case Ok(t) => Ok([raw[i]] + t))
    else match OneEscape(raw, i)
      case Err(e) => Err(e)
      case Ok((t, n)) =>
        match GetString(raw, i + n)
        case Err(e) => Err(e)
        case Ok(rest) => Ok(t + rest)
  }

  /** Text in front of what is still to be read. */
  function Prepend(a: string, r: Result<string>): Result<string> {
    match r case Err(e) => Err(e) case Ok(t) => Ok(a + t)
  }

  /** The loop of get_string: runs of plain characters are copied up to the next backslash. */
  method GetStringLoop(raw: string) returns (r: Result<string>)
    ensures r == GetString(raw, 0)
  {
    hide OneEscape;
    assert forall t: string :: "" + t == t;
    var result := "";
    var i := 0;
    while i < |raw|
      invariant 0 <= i && Prepend(result, GetString(raw, i)) == GetString(raw, 0)
      decreases |raw| - i
    {
      if raw[i] != '\\' {
        while i < |raw| && raw[i] != '\\'
          invariant i <= |raw| && Prepend(result, GetString(raw, i)) == GetString(raw, 0)
        {
          assert forall t: string :: result + ([raw[i]] + t) == (result + [raw[i]]) + t;
          result := result + [raw[i]];
          i := i + 1;
        }
      } else {
        var e := OneEscape(raw, i);
        if e.Err? { return Err(e.error); }
        assert forall t: string :: result + (e.value.0 + t) == (result + e.value.0) + t;
        result := result + e.value.0;
        i := i + e.value.1;
      }
    }
    assert result + "" == result;
    return Ok(result);
  }

  lemma HexifyReads(c: char)
    requires c as int <= 0x1f
    ensures HexValue(['0', '0', Hexify(c as int / 16), Hexify(c as int % 16)], 0) == c as int
  {
    var h, l := Hexify(c as int / 16), Hexify(c as int % 16);
    assert HexDigit(h) == c as int / 16 && HexDigit(l) == c as int % 16;
    assert [l][1..] == "" && HexValue("", c as int) == c as int;
    assert HexValue([l], c as int / 16) == c as int;
    assert [h, l][1..] == [l] && HexValue([h, l], 0) == c as int;
    assert ['0', h, l][1..] == [h, l] && HexValue(['0', h, l], 0) == c as int;
    assert ['0', '0', h, l][1..] == ['0', h, l];
  }

  /** The character `c` stands escaped at position `i`. */
  predicate EscapedAt(raw: string, i: nat, c: char) {
    i + |EscapeChar(c)| <= |raw| && raw[i..i + |EscapeChar(c)|] == EscapeChar(c)
  }

  lemma ControlReads(raw: string, i: nat, c: char)
    requires EscapedAt(raw, i, c) && ShortEscape(c) == "" && c as int <= 0x1f
    ensures raw[i] == '\\' && UnicodeEscape(raw, i) == Ok(([c], 6)) && raw[i + 1] == 'u'
  {
    hide HexValue, Hexify;
    HexifyReads(c);
    var e := raw[i..i + 6];
    assert e[0] == raw[i] && e[1] == raw[i + 1];
    assert raw[i + 2..i + 6] == e[2..6] == ['0', '0', Hexify(c as int / 16), Hexify(c as int % 16)];
    assert Byte(c as int) == c;
  }

  lemma EscapeReads(raw: string, i: nat, c: char)
    requires EscapedAt(raw, i, c) && |EscapeChar(c)| > 1
    ensures raw[i] == '\\' && OneEscape(raw, i) == Ok(([c], |EscapeChar(c)|))
  {
    if ShortEscape(c) == "" {
      ControlReads(raw, i, c);
      hide UnicodeEscape;
    } else {
      var e := raw[i..i + 2];
      assert e[0] == raw[i] && e[1] == raw[i + 1];
      hide UnicodeEscape;
    }
  }

  /** An escaped character, at any place, reads as itself. */
  lemma EscapedCharReads(raw: string, i: nat, c: char)
    requires EscapedAt(raw, i, c)
    ensures GetString(raw, i) == Prepend([c], GetString(raw, i + |EscapeChar(c)|))
  {
    if |EscapeChar(c)| > 1 {
      hide EscapeChar, OneEscape;
      EscapeReads(raw, i, c);
    } else {
      assert raw[i..i + 1][0] == raw[i];
    }
  }

  lemma {:induction false} EscapedReadsAt(s: string, before: string)
    ensures GetString(before + EscapeString(s), |before|) == Ok(s)
    decreases |s|
  {
    hide EscapeChar, ShortEscape, Hexify, OneEscape;
    var raw := before + EscapeString(s);
    if s != "" {
      hide GetString;
      var e, tail := EscapeChar(s[0]), EscapeString(s[1..]);
      assert raw == (before + e) + tail && raw[|before|..|before| + |e|] == e;
      EscapedCharReads(raw, |before|, s[0]);
      EscapedReadsAt(s[1..], before + e);
      assert s == [s[0]] + s[1..];
    }
  }

  /** Reading an escaped string gives the string. */
  lemma EscapedReads(s: string)
    ensures GetString(EscapeString(s), 0) == Ok(s)
  {
    EscapedReadsAt(s, "");
    assert "" + EscapeString(s) == EscapeString(s);
  }
}
