/** Code points in JSON text: \u escapes, surrogate pairs and UTF-8. */
module JsonUnicode {
  import opened JsonValue
  import opened JsonEscape
  import opened JsonLexer
  import opened JsonDumpProof

  /** A code point that is no surrogate. */
  predicate Scalar(cp: nat) {
    cp <= 0x10ffff && !HighSurrogate(cp) && !LowSurrogate(cp)
  }

  // ---------------------------------------------------------------- UTF-8

  /** The code point a UTF-8 character of one to four bytes stands for. */
  function PointOf(s: string): int
    requires 1 <= |s| <= 4
  {
    if |s| == 1 then s[0] as int
    else if |s| == 2 then (s[0] as int - 0xc0) * 64 + (s[1] as int - 0x80)
    else if |s| == 3 then (s[0] as int - 0xe0) * 4096 + (s[1] as int - 0x80) * 64 + (s[2] as int - 0x80)
    else (s[0] as int - 0xf0) * 262144 + (s[1] as int - 0x80) * 4096 + (s[2] as int - 0x80) * 64 + (s[3] as int - 0x80)
  }

  predicate Sextet(n: int) {
    0 <= n < 64
  }

  lemma TwoBytes(c: int, d: int)
    requires 2 <= c < 32 && Sextet(d)
    ensures var s := [Byte(0xc0 + c), Byte(0x80 + d)]; PointOf(s) == c * 64 + d && CharLength(s) == 2
  {
  }

  lemma ThreeBytes(b: int, c: int, d: int)
    requires 0 <= b < 16 && Sextet(c) && Sextet(d) && (b == 0 ==> c >= 32) && (b == 13 ==> c < 32)
    ensures var s := [Byte(0xe0 + b), Byte(0x80 + c), Byte(0x80 + d)];
      PointOf(s) == b * 4096 + c * 64 + d && CharLength(s) == 3
  {
  }

  lemma FourBytes(a: int, b: int, c: int, d: int)
    requires 0 <= a <= 4 && Sextet(b) && Sextet(c) && Sextet(d) && (a == 0 ==> b >= 16) && (a == 4 ==> b < 16)
    ensures var s := [Byte(0xf0 + a), Byte(0x80 + b), Byte(0x80 + c), Byte(0x80 + d)];
      PointOf(s) == a * 262144 + b * 4096 + c * 64 + d && CharLength(s) == 4
  {
  }

  lemma Sextets(n: nat)
    ensures n == (n / 64) * 64 + n % 64 && Sextet(n % 64)
    ensures n / 64 == (n / 4096) * 64 + n / 64 % 64 && Sextet(n / 64 % 64)
    ensures n / 4096 == (n / 262144) * 64 + n / 4096 % 64 && Sextet(n / 4096 % 64)
  {
    assert n / 64 / 64 == n / 4096 && n / 4096 / 64 == n / 262144;
  }

  lemma ThreeParts(cp: nat)
    requires 0x800 <= cp <= 0xffff && Scalar(cp)
    ensures var (b, c, d) := (cp / 4096, cp / 64 % 64, cp % 64);
      0 <= b < 16 && Sextet(c) && Sextet(d) && (b == 0 ==> c >= 32) && (b == 13 ==> c < 32) && b * 4096 + c * 64 + d == cp
  {
    Sextets(cp);
  }

  lemma FourParts(cp: nat)
    requires 0x1_0000 <= cp <= 0x10ffff
    ensures var (a, b, c, d) := (cp / 262144, cp / 4096 % 64, cp / 64 % 64, cp % 64);
      0 <= a <= 4 && Sextet(b) && Sextet(c) && Sextet(d) && (a == 0 ==> b >= 16) && (a == 4 ==> b < 16)
      && a * 262144 + b * 4096 + c * 64 + d == cp
  {
    Sextets(cp);
  }

  /** `s` is one character of UTF-8 to the scanner, and stands for `cp`. */
  predicate IsPoint(s: string, cp: nat) {
    1 <= |s| <= 4 && PointOf(s) == cp && CharLength(s) == |s|
  }

  lemma ShortPoint(cp: nat)
    requires cp <= 0x7ff
    ensures Utf8(cp).Ok? && IsPoint(Utf8(cp).value, cp)
  {
    if cp >= 0x80 {
      var c, d := cp / 64, cp % 64;
      assert cp == c * 64 + d;
      TwoBytes(c, d);
      hide PointOf, CharLength, Byte;
    }
  }

  lemma MiddlePoint(cp: nat)
    requires 0x800 <= cp <= 0xffff && Scalar(cp)
    ensures Utf8(cp).Ok? && IsPoint(Utf8(cp).value, cp)
  {
    hide PointOf, CharLength, Byte, Sextet;
    ThreeParts(cp);
    ThreeBytes(cp / 4096, cp / 64 % 64, cp % 64);
  }

  lemma LongPoint(cp: nat)
    requires 0x1_0000 <= cp <= 0x10ffff
    ensures Utf8(cp).Ok? && IsPoint(Utf8(cp).value, cp)
  {
    hide PointOf, CharLength, Byte, Sextet;
    FourParts(cp);
    FourBytes(cp / 262144, cp / 4096 % 64, cp / 64 % 64, cp % 64);
  }

  /** The bytes made for a code point stand for it again, and the scanner takes them as one character. */
  lemma Utf8Inverse(cp: nat)
    requires Scalar(cp)
    ensures Utf8(cp).Ok? && IsPoint(Utf8(cp).value, cp)
  {
    hide Utf8, IsPoint;
    if cp <= 0x7ff { ShortPoint(cp); } else if cp <= 0xffff { MiddlePoint(cp); } else { LongPoint(cp); }
  }

  // ---------------------------------------------------------------- escapes

  /** Four hexadecimal digits. */
  function Hex4(n: nat): (r: string)
    requires n < 0x1_0000
    ensures |r| == 4
  {
    [Hexify(n / 4096), Hexify(n / 256 % 16), Hexify(n / 16 % 16), Hexify(n % 16)]
  }

  lemma HexDigitOf(d: int)
    requires 0 <= d < 16
    ensures HexDigit(Hexify(d)) == d
  {
  }

  lemma Hex4Reads(n: nat)
    requires n < 0x1_0000
    ensures HexValue(Hex4(n), 0) == n
  {
    hide Hexify, HexDigit;
    var (a, b, c, d) := (n / 4096, n / 256 % 16, n / 16 % 16, n % 16);
    HexDigitOf(a);
    HexDigitOf(b);
    HexDigitOf(c);
    HexDigitOf(d);
    var (x, y, z, w) := (Hexify(a), Hexify(b), Hexify(c), Hexify(d));
    assert [w][1..] == "" && HexValue("", n) == n;
    assert HexValue([w], n / 16) == n;
    assert [z, w][1..] == [w] && HexValue([z, w], n / 256) == n;
    assert [y, z, w][1..] == [z, w] && HexValue([y, z, w], a) == n;
    assert [x, y, z, w][1..] == [y, z, w];
  }

  function Unit(n: nat): string
    requires n < 0x1_0000
  {
    "\\u" + Hex4(n)
  }

  /** The escape of a code point: one unit, or two surrogates. */
  function EscapePoint(cp: nat): string
    requires cp <= 0x10ffff
  {
    if cp < 0x1_0000 then Unit(cp)
    else Unit(0xd800 + (cp - 0x1_0000) / 1024) + Unit(0xdc00 + (cp - 0x1_0000) % 1024)
  }

  /** What stands after the letter of an escape. */
  lemma UnitStands(raw: string, i: nat, n: nat)
    requires n < 0x1_0000 && i + 6 <= |raw| && raw[i..i + 6] == Unit(n)
    ensures raw[i] == '\\' && raw[i + 1] == 'u' && HexValue(Four(raw, i + 2), 0) == n
  {
    hide Hex4, HexValue;
    Hex4Reads(n);
    var u := raw[i..i + 6];
    assert u[0] == raw[i] && u[1] == raw[i + 1];
    assert raw[i + 2..i + 6] == u[2..] == Hex4(n);
  }

  /** Reading the escape of a code point gives the code point in UTF-8, for every code point. */
  lemma PointReads(cp: nat)
    requires Scalar(cp)
    ensures GetString(EscapePoint(cp), 0) == Utf8(cp)
  {
    hide HexValue, Four, Hex4;
    Utf8Inverse(cp);
    hide Utf8;
    var raw := EscapePoint(cp);
    if cp < 0x1_0000 {
      assert raw[0..6] == Unit(cp);
      UnitStands(raw, 0, cp);
      assert UnicodeEscape(raw, 0) == Ok((Utf8(cp).value, 6));
    } else {
      var (high, low) := (0xd800 + (cp - 0x1_0000) / 1024, 0xdc00 + (cp - 0x1_0000) % 1024);
      assert raw[0..6] == Unit(high) && raw[6..12] == Unit(low);
      UnitStands(raw, 0, high);
      UnitStands(raw, 6, low);
      assert 0x10000 + (high - 0xd800) * 1024 + (low - 0xdc00) == cp;
      assert UnicodeEscape(raw, 0) == Ok((Utf8(cp).value, 12));
    }
    assert GetString(raw, |raw|) == Ok("");
    assert Utf8(cp).value + "" == Utf8(cp).value;
  }

  /** A surrogate that stands alone is refused. */
  lemma LoneSurrogate(cp: nat)
    requires HighSurrogate(cp) || LowSurrogate(cp)
    ensures GetString(Unit(cp), 0) == Err(InvalidArgument)
  {
    hide HexValue, Four, Hex4;
    var raw := Unit(cp);
    assert raw[0..6] == raw;
    UnitStands(raw, 0, cp);
  }
}
