/** The tokens of JSON text, as the generated scanner finds them. */
module JsonLexer {
  import opened Decimal
  import opened JsonEscape

  datatype Token =
    | EndOfInput
    | BeginArray | EndArray | BeginObject | EndObject | Comma | Colon
    | LitTrue | LitFalse | LitNull
    | StringToken(raw: string)
    | Unsigned(text: string)
    | Integer(text: string)
    | Real(text: string)
    | Bad

  // ---------------------------------------------------------------- strings

  function ByteAt(s: string, i: nat): int {
    if i < |s| then s[i] as int else 0
  }

  predicate In(lo: int, b: int, hi: int) {
    lo <= b <= hi
  }

  /** The bytes of the character of two to four bytes at `i` (section 4 of RFC 3629); 0 if there is none. */
  function Utf8Length(s: string, i: nat): (n: nat)
    ensures i + n <= |s| || n == 0
    ensures n > 0 ==> forall k :: i <= k < i + n ==> s[k] as int >= 0x80
  {
    var (a, b, c, d) := (ByteAt(s, i), ByteAt(s, i + 1), ByteAt(s, i + 2), ByteAt(s, i + 3));
    if In(0xc2, a, 0xdf) && In(0x80, b, 0xbf) then 2
    else if a == 0xe0 && In(0xa0, b, 0xbf) && In(0x80, c, 0xbf) then 3
    else if a == 0xed && In(0x80, b, 0x9f) && In(0x80, c, 0xbf) then 3
    else if (In(0xe1, a, 0xec) || In(0xee, a, 0xef)) && In(0x80, b, 0xbf) && In(0x80, c, 0xbf) then 3
    else if a == 0xf0 && In(0x90, b, 0xbf) && In(0x80, c, 0xbf) && In(0x80, d, 0xbf) then 4
    else if In(0xf1, a, 0xf3) && In(0x80, b, 0xbf) && In(0x80, c, 0xbf) && In(0x80, d, 0xbf) then 4
    else if a == 0xf4 && In(0x80, b, 0x8f) && In(0x80, c, 0xbf) && In(0x80, d, 0xbf) then 4
    else 0
  }

  /** The characters of one escape at `i`; 0 if there is none. */
  function EscapeLength(s: string, i: nat): (n: nat)
    ensures i + n <= |s| || n == 0
  {
    if i + 1 >= |s| then 0
    else if s[i + 1] in "\"\\/bfnrt" then 2
    else if s[i + 1] == 'u' && i + 6 <= |s| && forall k :: i + 2 <= k < i + 6 ==> HexDigit(s[k]) >= 0 then 6
    else 0
  }

  /** The characters of the next part of a string; 0 where the string cannot go on. */
  function UnitLength(s: string, i: nat): (n: nat)
    requires i < |s|
    ensures i + n <= |s| || n == 0
  {
    if s[i] == '\\' then EscapeLength(s, i)
    else if s[i] as int < 0x20 || s[i] == '"' then 0
    else if s[i] as int < 0x80 then 1
    else Utf8Length(s, i)
  }

  /** The position of the closing quote of a string whose content starts at `i`; -1 if the string is broken. */
  function StringEnd(s: string, i: nat): (e: int)
    ensures e == -1 || i <= e < |s|
    decreases |s| - i
  {
    if i >= |s| then -1
    else if s[i] == '"' then i
    else if UnitLength(s, i) == 0 then -1
    else StringEnd(s, i + UnitLength(s, i))
  }

  // ---------------------------------------------------------------- numbers

  /** The first position from `i` on that is no digit. */
  function DigitsEnd(s: string, i: nat): (e: nat)
    requires i <= |s|
    ensures i <= e <= |s| && (e < |s| ==> !IsDigit(s[e])) && forall k :: i <= k < e ==> IsDigit(s[k])
    decreases |s| - i
  {
    if i < |s| && IsDigit(s[i]) then DigitsEnd(s, i + 1) else i
  }

  predicate DigitAt(s: string, i: nat) {
    i < |s| && IsDigit(s[i])
  }

  /** The end of a fraction at `i`, or `i` if none is there. */
  function FractionEnd(s: string, i: nat): (e: nat)
    requires i <= |s|
    ensures i <= e <= |s|
  {
    if i < |s| && s[i] == '.' && DigitAt(s, i + 1) then DigitsEnd(s, i + 1) else i
  }

  function ExponentEnd(s: string, i: nat): (e: nat)
    requires i <= |s|
    ensures i <= e <= |s|
  {
    if i < |s| && (s[i] == 'e' || s[i] == 'E') then
      var j := if i + 1 < |s| && (s[i + 1] == '+' || s[i + 1] == '-') then i + 2 else i + 1;
      if DigitAt(s, j) then DigitsEnd(s, j) else i
    else i
  }

  /** A number whose first digit is at `i` and whose text starts at `start`. */
  function ScanNumber(s: string, start: nat, i: nat): (r: (Token, nat))
    requires start <= i && DigitAt(s, i)
    ensures start < r.1 <= |s| && (r.0 == Bad || r.0.Unsigned? || r.0.Integer? || r.0.Real?)
  {
    if s[i] == '0' && DigitAt(s, i + 1) then (Bad, DigitsEnd(s, i + 1)) else
      var whole := DigitsEnd(s, i);
      var e := ExponentEnd(s, FractionEnd(s, whole));
      var text := s[start..e];
      (if e > whole then Real(text) else if start == i then Unsigned(text) else Integer(text), e)
  }

  // ---------------------------------------------------------------- tokens

  predicate IsBlank(c: char) {
    c == ' ' || c == '\t' || c == '\n' || c == '\r'
  }

  function ScanLiteral(s: string, i: nat, word: string, tok: Token): (r: (Token, nat))
    requires i < |s| && word != "" && tok != EndOfInput
    ensures i < r.1 <= |s| && r.0 != EndOfInput
  {
    if i + |word| <= |s| && s[i..i + |word|] == word then (tok, i + |word|) else (Bad, i + 1)
  }

  /** The token at `i` and the position after it. A null character, or the end of the text, ends the input. */
  function Scan(s: string, i: nat): (r: (Token, nat))
    requires i <= |s|
    ensures i <= r.1 <= |s| && (r.0 == EndOfInput || i < r.1)
    decreases |s| - i
  {
    if i == |s| then (EndOfInput, i)
    else if IsBlank(s[i]) then Scan(s, i + 1)
    else match s[i]
      case '[' => (BeginArray, i + 1)
      case ']' => (EndArray, i + 1)
      case '{' => (BeginObject, i + 1)
      case '}' => (EndObject, i + 1)
      case ',' => (Comma, i + 1)
      case ':' => (Colon, i + 1)
      case 't' => ScanLiteral(s, i, "true", LitTrue)
      case 'f' => ScanLiteral(s, i, "false", LitFalse)
      case 'n' => ScanLiteral(s, i, "null", LitNull)
      case '"' =>
        var e := StringEnd(s, i + 1);
        if e < 0 then (Bad, i + 1) else (StringToken(s[i + 1..e]), e + 1)
      case '-' => if DigitAt(s, i + 1) then ScanNumber(s, i, i + 1) else (Bad, i + 1)
      case c => if c as int == 0 then (EndOfInput, i + 1) else if IsDigit(c) then ScanNumber(s, i, i) else (Bad, i + 1)
  }
}
