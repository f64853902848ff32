/** Tokens and the grammar: what the scanner makes of spelled strings and numbers, and what a token was spelled as. */
module JsonGrammarScan {
  import opened Decimal
  import opened Parts
  import opened JsonValue
  import opened JsonEscape
  import opened JsonLexer
  import opened JsonParser
  import opened JsonGrammar

  lemma StandsCons(s: string, i: nat, c: char, rest: string)
    requires StandsAt(s, i, [c] + rest)
    ensures i < |s| && s[i] == c && StandsAt(s, i + 1, rest)
  {
    StandsSplit(s, i, [c], rest);
    assert s[i..i + 1][0] == s[i];
  }

  // ---------------------------------------------------------------- one piece of a string, scanned

  lemma SameUtf8(b: string, s: string, i: nat)
    requires b != "" && b[0] as int >= 0x80 && Utf8Length(b, 0) == |b| && StandsAt(s, i, b)
    ensures Utf8Length(s, i) == |b|
  {
    StandsElements(s, i, b);
    assert b[0] == s[i + 0];
    assert |b| > 1 ==> b[1] == s[i + 1];
    assert |b| > 2 ==> b[2] == s[i + 2];
    assert |b| > 3 ==> b[3] == s[i + 3];
  }

  /** A \u escape is one unit to the scanner, and its digits are read as the number they write. */
  lemma HexUnit(h: string, s: string, i: nat)
    requires IsHex4(h) && StandsAt(s, i, "\\u" + h)
    ensures i + 6 <= |s| && s[i] == '\\' && s[i + 1] == 'u' && UnitLength(s, i) == 6
    ensures HexValue(Four(s, i + 2), 0) == HexOf(h)
  {
    var e := "\\u" + h;
    StandsElements(s, i, e);
    assert e[0] == s[i + 0] && e[1] == s[i + 1];
    forall k | i + 2 <= k < i + 6 ensures HexDigit(s[k]) >= 0 { assert e[k - i] == s[i + (k - i)] && e[k - i] == h[k - i - 2]; }
    assert 'u' !in "\"\\/bfnrt";
    assert s[i + 2..i + 6] == h by { assert s[i..i + 6][2..] == e[2..] == h; assert s[i..i + 6][2..] == s[i + 2..i + 6]; }
    FourDigits(h);
  }

  lemma FourDigits(h: string)
    requires IsHex4(h)
    ensures HexValue(h, 0) == HexOf(h)
  {
    var (a, b, c, d) := (HexDigit(h[0]), HexDigit(h[1]), HexDigit(h[2]), HexDigit(h[3]));
    assert h[1..][0] == h[1] && h[1..][1..] == h[2..] && h[2..][0] == h[2] && h[2..][1..] == h[3..] && h[3..][0] == h[3] && h[3..][1..] == "";
    hide HexDigit;
    assert HexValue("", ((a * 16 + b) * 16 + c) * 16 + d) == ((a * 16 + b) * 16 + c) * 16 + d;
    assert HexValue(h[3..], (a * 16 + b) * 16 + c) == ((a * 16 + b) * 16 + c) * 16 + d;
    assert HexValue(h[2..], a * 16 + b) == ((a * 16 + b) * 16 + c) * 16 + d;
    assert HexValue(h[1..], a) == ((a * 16 + b) * 16 + c) * 16 + d;
  }

  /** The scanner passes over a spelled piece. */
  lemma PieceScans(p: Piece, s: string, i: nat)
    requires PieceOk(p) && StandsAt(s, i, Spell(p))
    ensures Spell(p) != "" && i < |s| && s[i] != '"' && StringEnd(s, i) == StringEnd(s, i + |Spell(p)|)
  {
    hide HexOf, HexDigit, Utf8Length, HexValue, Four;
    StandsElements(s, i, Spell(p));
    assert Spell(p)[0] == s[i + 0];
    match p
    case Plain(b) =>
      if b[0] as int >= 0x80 { SameUtf8(b, s, i); }
    case Short(c) =>
      assert Spell(p)[1] == s[i + 1];
    case Unit(h) => HexUnit(h, s, i);
    case Pair(h, l) =>
      StandsSplit(s, i, "\\u" + h, "\\u" + l);
      assert Spell(p) == ("\\u" + h) + ("\\u" + l);
      HexUnit(h, s, i);
      HexUnit(l, s, i + 6);
  }

  lemma {:induction false} SpelledScans(ps: seq<Piece>, s: string, i: nat)
    requires PiecesOk(ps) && StandsAt(s, i, Spelled(ps) + "\"")
    ensures StringEnd(s, i) == i + |Spelled(ps)|
    decreases |ps|
  {
    hide PieceOk, Spell;
    if ps == [] {
      assert Spelled(ps) + "\"" == ['"'] + "";
      StandsCons(s, i, '"', "");
    } else {
      assert PieceOk(ps[0]) && forall p :: p in ps[1..] ==> p in ps;
      Regroup(Spell(ps[0]), Spelled(ps[1..]), "\"");
      StandsSplit(s, i, Spell(ps[0]), Spelled(ps[1..]) + "\"");
      PieceScans(ps[0], s, i);
      SpelledScans(ps[1..], s, i + |Spell(ps[0])|);
    }
  }

  // ---------------------------------------------------------------- one piece of a string, read

  /** Characters without a backslash are copied. */
  lemma {:induction false} PlainGets(raw: string, i: nat, n: nat)
    requires i + n <= |raw| && forall k :: i <= k < i + n ==> raw[k] != '\\'
    ensures GetString(raw, i) == Prepend(raw[i..i + n], GetString(raw, i + n))
    decreases n
  {
    if n == 0 {
      assert forall t: string :: "" + t == t;
    } else {
      PlainGets(raw, i + 1, n - 1);
      assert raw[i..i + n] == [raw[i]] + raw[i + 1..i + n];
      var rest := GetString(raw, i + n);
      if rest.Ok? { Regroup([raw[i]], raw[i + 1..i + n], rest.value); }
    }
  }

  lemma PlainHasNoBackslash(b: string)
    requires PlainOk(b)
    ensures forall k :: 0 <= k < |b| ==> b[k] != '\\'
  {
  }

  /** An escape is replaced by what it adds. */
  lemma EscapeGets(raw: string, i: nat, t: string, n: nat)
    requires i < |raw| && raw[i] == '\\' && OneEscape(raw, i) == Ok((t, n))
    ensures GetString(raw, i) == Prepend(t, GetString(raw, i + n))
  {
    hide OneEscape;
  }

  lemma UnitGets(h: string, raw: string, i: nat)
    requires PieceOk(Unit(h)) && StandsAt(raw, i, "\\u" + h)
    ensures GetString(raw, i) == Prepend(Means(Unit(h)), GetString(raw, i + 6))
  {
    hide HexOf, HexDigit, HexValue, Four, UnitLength, GetString;
    HexUnit(h, raw, i);
    HexBound(h);
    assert OneEscape(raw, i) == Ok((Means(Unit(h)), 6));
    EscapeGets(raw, i, Means(Unit(h)), 6);
  }

  lemma PairGets(h: string, l: string, raw: string, i: nat)
    requires PieceOk(Pair(h, l)) && StandsAt(raw, i, "\\u" + h) && StandsAt(raw, i + 6, "\\u" + l)
    ensures GetString(raw, i) == Prepend(Means(Pair(h, l)), GetString(raw, i + 12))
  {
    hide HexOf, HexDigit, HexValue, Four, UnitLength, GetString;
    HexUnit(h, raw, i);
    HexUnit(l, raw, i + 6);
    assert OneEscape(raw, i) == Ok((Means(Pair(h, l)), 12));
    EscapeGets(raw, i, Means(Pair(h, l)), 12);
  }

  lemma ShortGets(c: char, raw: string, i: nat)
    requires PieceOk(Short(c)) && StandsAt(raw, i, ['\\', c])
    ensures GetString(raw, i) == Prepend([ShortMeans(c)], GetString(raw, i + 2))
  {
    hide GetString;
    assert raw[i] == raw[i..i + 2][0] && raw[i + 1] == raw[i..i + 2][1];
    assert 'u' !in "\"\\/bfnrt";
    EscapeGets(raw, i, [ShortMeans(c)], 2);
  }

  /** Reading a spelled piece gives what it means. */
  lemma PieceGets(p: Piece, raw: string, i: nat)
    requires PieceOk(p) && StandsAt(raw, i, Spell(p))
    ensures GetString(raw, i) == Prepend(Means(p), GetString(raw, i + |Spell(p)|))
  {
    hide HexOf, HexDigit, Utf8Length, GetString, StandsAt, OneEscape;
    match p
    case Plain(b) =>
      PlainStands(raw, i, b);
    case Short(c) => ShortGets(c, raw, i);
    case Unit(h) => UnitGets(h, raw, i);
    case Pair(h, l) =>
      StandsSplit(raw, i, "\\u" + h, "\\u" + l);
      assert Spell(p) == ("\\u" + h) + ("\\u" + l);
      PairGets(h, l, raw, i);
  }

  lemma PlainStands(raw: string, i: nat, b: string)
    requires PlainOk(b) && StandsAt(raw, i, b)
    ensures GetString(raw, i) == Prepend(b, GetString(raw, i + |b|))
  {
    hide GetString;
    StandsElements(raw, i, b);
    PlainHasNoBackslash(b);
    hide PlainOk;
    forall k | i <= k < i + |b| ensures raw[k] != '\\' { assert b[k - i] == raw[i + (k - i)]; }
    PlainGets(raw, i, |b|);
  }

  lemma HexBound(h: string)
    requires IsHex4(h)
    ensures HexOf(h) <= 0xffff
  {
  }

  lemma {:induction false} SpelledGets(ps: seq<Piece>, raw: string, i: nat)
    requires PiecesOk(ps) && i <= |raw| && raw[i..] == Spelled(ps)
    ensures GetString(raw, i) == Ok(Meant(ps))
    decreases |ps|
  {
    hide PieceOk, Spell, Means;
    if ps != [] {
      assert PieceOk(ps[0]) && forall p :: p in ps[1..] ==> p in ps;
      var n := |Spell(ps[0])|;
      assert raw[i..i + n] == raw[i..][..n] == Spell(ps[0]) && raw[i + n..] == raw[i..][n..] == Spelled(ps[1..]);
      PieceGets(ps[0], raw, i);
      SpelledGets(ps[1..], raw, i + n);
    } else {
      assert |raw| == i;
    }
  }

  // ---------------------------------------------------------------- what a string was spelled as

  lemma SliceWithin(s: string, b: nat, e: nat, i: nat, n: nat)
    requires b <= i && i + n <= e <= |s|
    ensures s[b..e][i - b..i - b + n] == s[i..i + n]
  {
    var l, r := s[b..e][i - b..i - b + n], s[i..i + n];
    assert |l| == |r| && forall k :: 0 <= k < n ==> l[k] == r[k];
  }

  /** The piece at a place where the scanner goes on and the reader succeeds. */
  lemma PieceThere(s: string, b: nat, i: nat, e: nat) returns (p: Piece)
    requires b <= i < e <= |s| && StringEnd(s, i) == e && GetString(s[b..e], i - b).Ok?
    ensures PieceOk(p) && Spell(p) != "" && i + |Spell(p)| <= e && StandsAt(s, i, Spell(p)) && StringEnd(s, i + |Spell(p)|) == e
  {
    var n := UnitLength(s, i);
    if s[i] != '\\' {
      p := Plain(s[i..i + n]);
      PlainThere(s, i);
    } else if n == 2 {
      p := Short(s[i + 1]);
      assert s[i..i + 2] == ['\\', s[i + 1]];
    } else {
      p := EscapeThere(s, b, i, e);
    }
  }

  lemma PlainThere(s: string, i: nat)
    requires i < |s| && s[i] != '\\' && UnitLength(s, i) > 0
    ensures var n := UnitLength(s, i); i + n <= |s| && PlainOk(s[i..i + n]) && s[i..i + n] != ""
  {
    var n := UnitLength(s, i);
    var t := s[i..i + n];
    assert t[0] == s[i] && (n > 1 ==> t[1] == s[i + 1]) && (n > 2 ==> t[2] == s[i + 2]) && (n > 3 ==> t[3] == s[i + 3]);
  }

  lemma HexThere(s: string, i: nat)
    requires i < |s| && s[i] == '\\' && UnitLength(s, i) == 6
    ensures i + 6 <= |s| && IsHex4(s[i + 2..i + 6]) && s[i..i + 6] == "\\u" + s[i + 2..i + 6]
  {
    hide HexDigit;
    var h := s[i + 2..i + 6];
    forall k | 0 <= k < 4 ensures HexDigit(h[k]) >= 0 { assert h[k] == s[i + 2 + k]; }
  }

  /** A \u escape that is read is complete, and what its digits say decides how. */
  lemma EscapeComplete(raw: string, i: nat)
    requires i + 1 < |raw| && raw[i] == '\\' && raw[i + 1] == 'u' && GetString(raw, i).Ok?
    ensures var cp := HexValue(Four(raw, i + 2), 0);
      if HighSurrogate(cp) then i + 7 < |raw| && raw[i + 6] == '\\' && raw[i + 7] == 'u' && LowSurrogate(HexValue(Four(raw, i + 8), 0))
      else !LowSurrogate(cp)
  {
    assert OneEscape(raw, i).Ok?;
    hide GetString, HexValue, Four, HighSurrogate, LowSurrogate, Utf8;
  }

  lemma UnitSpelled(s: string, i: nat, h: string)
    requires IsHex4(h) && !HighSurrogate(HexOf(h)) && !LowSurrogate(HexOf(h)) && StandsAt(s, i, "\\u" + h)
    ensures PieceOk(Unit(h)) && |Spell(Unit(h))| == 6 && StandsAt(s, i, Spell(Unit(h)))
  {
    hide HexOf, HexDigit;
  }

  lemma PairSpelled(s: string, i: nat, h: string, l: string)
    requires IsHex4(h) && IsHex4(l) && HighSurrogate(HexOf(h)) && LowSurrogate(HexOf(l))
    requires StandsAt(s, i, "\\u" + h) && StandsAt(s, i + 6, "\\u" + l)
    ensures PieceOk(Pair(h, l)) && |Spell(Pair(h, l))| == 12 && StandsAt(s, i, Spell(Pair(h, l)))
  {
    hide HexOf, HexDigit, StandsAt;
    StandsSplit(s, i, "\\u" + h, "\\u" + l);
    assert Spell(Pair(h, l)) == ("\\u" + h) + ("\\u" + l);
  }

  /** A \u escape inside a longer text reads the same there. */
  lemma UnitWithin(s: string, b: nat, i: nat, e: nat) returns (h: string)
    requires b <= i && i + 6 <= e <= |s| && s[i] == '\\' && UnitLength(s, i) == 6
    ensures IsHex4(h) && StandsAt(s, i, "\\u" + h)
    ensures var raw := s[b..e]; raw[i - b] == '\\' && raw[i - b + 1] == 'u' && HexValue(Four(raw, i - b + 2), 0) == HexOf(h)
  {
    hide HexOf, HexDigit, HexValue, Four;
    HexThere(s, i);
    h := s[i + 2..i + 6];
    SliceWithin(s, b, e, i, 6);
    HexUnit(h, s[b..e], i - b);
  }

  lemma UnitEnd(s: string, i: nat, e: nat)
    requires i < e <= |s| && StringEnd(s, i) == e && s[i] == '\\' && UnitLength(s, i) == 6
    ensures i + 6 <= e && StringEnd(s, i + 6) == e
  {
    hide UnitLength;
  }

  lemma EscapeThere(s: string, b: nat, i: nat, e: nat) returns (p: Piece)
    requires b <= i < e <= |s| && StringEnd(s, i) == e && GetString(s[b..e], i - b).Ok? && s[i] == '\\' && UnitLength(s, i) == 6
    ensures (p.Unit? || p.Pair?) && PieceOk(p) && i + |Spell(p)| <= e && StandsAt(s, i, Spell(p)) && StringEnd(s, i + |Spell(p)|) == e
  {
    hide HexOf, HexDigit, HexValue, Four, UnitLength, StringEnd, GetString, HighSurrogate, LowSurrogate, IsHex4, StandsAt, PieceOk, Spell;
    UnitEnd(s, i, e);
    var h := UnitWithin(s, b, i, e);
    EscapeComplete(s[b..e], i - b);
    if HighSurrogate(HexOf(h)) {
      p := PairThere(s, b, i, e, h);
    } else {
      p := Unit(h);
      UnitSpelled(s, i, h);
    }
  }

  lemma PairThere(s: string, b: nat, i: nat, e: nat, h: string) returns (p: Piece)
    requires b <= i && i + 6 <= e <= |s| && StringEnd(s, i + 6) == e && IsHex4(h) && HighSurrogate(HexOf(h)) && StandsAt(s, i, "\\u" + h)
    requires var raw, at := s[b..e], i - b;
      && at + 7 < |raw| && raw[at + 6] == '\\' && raw[at + 7] == 'u' && LowSurrogate(HexValue(Four(raw, at + 8), 0))
    ensures p.Pair? && PieceOk(p) && i + |Spell(p)| <= e && StandsAt(s, i, Spell(p)) && StringEnd(s, i + |Spell(p)|) == e
  {
    hide HexOf, HexDigit, HexValue, Four, UnitLength, StringEnd, HighSurrogate, LowSurrogate, IsHex4, StandsAt, PieceOk, Spell;
    assert s[i + 6] == s[b..e][i - b + 6] && s[i + 7] == s[b..e][i - b + 7];
    LowThere(s, i + 6, e);
    var l := UnitWithin(s, b, i + 6, e);
    p := Pair(h, l);
    PairSpelled(s, i, h, l);
  }

  /** A second \u where the string goes on. */
  lemma LowThere(s: string, i: nat, e: nat)
    requires i + 1 < e <= |s| && StringEnd(s, i) == e && s[i] == '\\' && s[i + 1] == 'u'
    ensures i + 6 <= e && UnitLength(s, i) == 6 && StringEnd(s, i + 6) == e
  {
    hide HexDigit;
    assert 'u' !in "\"\\/bfnrt";
    assert UnitLength(s, i) == 6;
  }

  lemma {:induction false} PiecesThere(s: string, b: nat, i: nat, e: nat) returns (ps: seq<Piece>)
    requires b <= i <= e <= |s| && StringEnd(s, i) == e && GetString(s[b..e], i - b).Ok?
    ensures PiecesOk(ps) && s[i..e] == Spelled(ps) && GetString(s[b..e], i - b) == Ok(Meant(ps))
    decreases e - i
  {
    hide PieceOk, Spell, Means, GetString, StringEnd;
    if i == e {
      ps := [];
      EndGets(s[b..e]);
    } else {
      var p := PieceThere(s, b, i, e);
      var n := |Spell(p)|;
      SliceWithin(s, b, e, i, n);
      PieceGets(p, s[b..e], i - b);
      var rest := PiecesThere(s, b, i + n, e);
      ps := [p] + rest;
      assert ps[1..] == rest && s[i..e] == s[i..i + n] + s[i + n..e];
    }
  }

  lemma EndGets(raw: string)
    ensures GetString(raw, |raw|) == Ok("")
  {
  }

  // ---------------------------------------------------------------- numbers

  /** What can follow a number, or any value, in a document. */
  predicate Follows(s: string, e: nat) {
    e == |s| || (e < |s| && (s[e] in " \t\n\r,]}" || s[e] as int == 0))
  }

  lemma {:induction false} DigitsRun(s: string, i: nat, e: nat)
    requires i <= e <= |s| && (forall k :: i <= k < e ==> IsDigit(s[k])) && (e < |s| ==> !IsDigit(s[e]))
    ensures DigitsEnd(s, i) == e
    decreases e - i
  {
    if i < e { DigitsRun(s, i + 1, e); }
  }

  lemma DigitsStand(s: string, i: nat, d: string)
    requires StandsAt(s, i, d) && AllDigits(d) && (i + |d| < |s| ==> !IsDigit(s[i + |d|]))
    ensures DigitAt(s, i) && DigitsEnd(s, i) == i + |d|
  {
    StandsElements(s, i, d);
    forall k | i <= k < i + |d| ensures IsDigit(s[k]) { assert d[k - i] == s[i + (k - i)]; }
    assert d[0] == s[i + 0];
    DigitsRun(s, i, i + |d|);
  }

  /** A fraction as far as it goes, or none. */
  lemma FractionStands(s: string, i: nat, f: string)
    requires StandsAt(s, i, f) && (f == "" || (f[0] == '.' && AllDigits(f[1..])))
    requires i + |f| == |s| || (i + |f| < |s| && !IsDigit(s[i + |f|]) && s[i + |f|] != '.')
    ensures FractionEnd(s, i) == i + |f|
  {
    hide DigitsEnd;
    if f != "" {
      assert f == [f[0]] + f[1..];
      StandsCons(s, i, f[0], f[1..]);
      DigitsStand(s, i + 1, f[1..]);
    }
  }

  lemma ExponentStands(s: string, i: nat, x: string)
    requires StandsAt(s, i, x)
    requires x == "" || (x[0] in "eE" && (AllDigits(x[1..]) || (|x| > 1 && x[1] in "+-" && AllDigits(x[2..]))))
    requires i + |x| == |s| || (i + |x| < |s| && !IsDigit(s[i + |x|]) && s[i + |x|] != 'e' && s[i + |x|] != 'E')
    ensures ExponentEnd(s, i) == i + |x|
  {
    hide DigitsEnd;
    if x != "" {
      assert x == [x[0]] + x[1..];
      StandsCons(s, i, x[0], x[1..]);
      if AllDigits(x[1..]) {
        assert x[1..][0] == x[1];
        DigitsStand(s, i + 1, x[1..]);
      } else {
        assert x[1..] == [x[1]] + x[2..];
        StandsCons(s, i + 1, x[1], x[2..]);
        DigitsStand(s, i + 2, x[2..]);
      }
    }
  }

  /** The tokens of a number. */
  function NumberToken(n: Numeral): Token {
    if n.fraction == "" && n.exponent == "" then (if n.negative then Integer(n.Text()) else Unsigned(n.Text()))
    else Real(n.Text())
  }

  /** What follows a part of a number is the next part, or what follows the number. */
  lemma PartBorder(s: string, i: nat, rest: string)
    requires StandsAt(s, i, rest) && (rest == "" ==> Follows(s, i)) && (rest != "" ==> rest[0] in ".eE")
    ensures i == |s| || (i < |s| && !IsDigit(s[i]) && (rest != "" ==> s[i] == rest[0]) && (rest == "" ==> s[i] !in ".eE"))
  {
    if rest != "" { assert rest == [rest[0]] + rest[1..]; StandsCons(s, i, rest[0], rest[1..]); }
    NoneDigits();
  }

  lemma NumeralStarts(n: Numeral)
    requires n.Ok()
    ensures n.fraction != "" ==> n.fraction[0] == '.'
    ensures n.exponent != "" ==> n.exponent[0] in "eE"
    ensures n.fraction + n.exponent != "" ==> (n.fraction + n.exponent)[0] in ".eE"
  {
  }

  /** The parts of a number, one after the other, up to something that is no part of it. */
  lemma PartsScan(n: Numeral, s: string, i: nat)
    requires n.Ok() && StandsAt(s, i, n.whole + (n.fraction + n.exponent)) && Follows(s, i + |n.whole + (n.fraction + n.exponent)|)
    ensures var (j, k) := (i + |n.whole|, i + |n.whole| + |n.fraction|);
      && DigitAt(s, i) && DigitsEnd(s, i) == j && FractionEnd(s, j) == k && ExponentEnd(s, k) == k + |n.exponent|
      && (s[i] == '0' ==> !DigitAt(s, i + 1))
  {
    hide DigitsEnd, FractionEnd, ExponentEnd, StandsAt;
    var (w, f, x) := (n.whole, n.fraction, n.exponent);
    StandsSplit(s, i, w, f + x);
    StandsSplit(s, i + |w|, f, x);
    var (j, k) := (i + |w|, i + |w| + |f|);
    NumeralStarts(n);
    PartBorder(s, j, f + x);
    if x == "" { assert f + x == f; }
    StandsWithin(s, k, x);
    PartBorder(s, k, x);
    PartBorder(s, k + |x|, "") by { NothingStands(s, k + |x|); }
    DigitsStand(s, i, w);
    WholeStart(s, i, w);
    FractionStands(s, j, f);
    ExponentStands(s, k, x);
  }

  lemma NothingStands(s: string, i: nat)
    requires i <= |s|
    ensures StandsAt(s, i, "")
  {
  }

  lemma PartsToken(n: Numeral, s: string, start: nat, i: nat)
    requires n.Ok() && StandsAt(s, i, n.whole + (n.fraction + n.exponent)) && Follows(s, i + |n.whole + (n.fraction + n.exponent)|)
    requires start <= i && (if n.negative then start + 1 == i else start == i)
    ensures var e := i + |n.whole + (n.fraction + n.exponent)|;
      DigitAt(s, i) && e <= |s| && ScanNumber(s, start, i) ==
      (if n.fraction == "" && n.exponent == "" then (if n.negative then Integer(s[start..e]) else Unsigned(s[start..e])) else Real(s[start..e]), e)
  {
    hide DigitsEnd, FractionEnd, ExponentEnd, Numeral.Ok, Follows;
    PartsScan(n, s, i);
    hide StandsAt;
  }

  lemma NoneDigits()
    ensures forall c :: c in " \t\n\r,]}.eE" ==> !IsDigit(c)
  {
  }

  lemma WholeStart(s: string, i: nat, w: string)
    requires StandsAt(s, i, w) && AllDigits(w) && (w[0] == '0' ==> |w| == 1) && (i + |w| < |s| ==> !IsDigit(s[i + |w|]))
    ensures s[i] == '0' ==> !DigitAt(s, i + 1)
  {
    StandsElements(s, i, w);
    assert w[0] == s[i + 0];
  }

  /** A numeral standing in the text is one token. */
  lemma NumeralScans(n: Numeral, s: string, i: nat)
    requires n.Ok() && StandsAt(s, i, n.Text()) && Follows(s, i + |n.Text()|)
    ensures i <= |s| && Next(s, i) == State(NumberToken(n), i + |n.Text()|)
  {
    hide ScanNumber, Numeral.Ok;
    var parts := n.whole + (n.fraction + n.exponent);
    assert n.Text() == (if n.negative then "-" else "") + parts;
    StandsWithin(s, i, n.Text());
    if n.negative {
      StandsCons(s, i, '-', parts);
      PartsToken(n, s, i, i + 1);
      NumberScan(s, i);
    } else {
      assert "" + parts == parts;
      PartsToken(n, s, i, i);
      NumberScan(s, i);
    }
  }

  lemma NumberScan(s: string, i: nat)
    requires DigitAt(s, i) || (i < |s| && s[i] == '-' && DigitAt(s, i + 1))
    ensures Scan(s, i) == if s[i] == '-' then ScanNumber(s, i, i + 1) else ScanNumber(s, i, i)
  {
    hide DigitsEnd, ScanNumber, StringEnd;
  }

  /** Any number token was spelled as a numeral. */
  lemma NumeralThere(s: string, start: nat, i: nat) returns (n: Numeral)
    requires start <= i && DigitAt(s, i) && ScanNumber(s, start, i).0 != Bad
    requires i == start || (i == start + 1 && s[start] == '-')
    ensures n.Ok() && ScanNumber(s, start, i) == (NumberToken(n), start + |n.Text()|) && StandsAt(s, start, n.Text())
  {
    hide DigitsEnd, FractionEnd, ExponentEnd, AllDigits;
    var j := DigitsEnd(s, i);
    var k := FractionEnd(s, j);
    var e := ExponentEnd(s, k);
    n := Numeral(i > start, s[i..j], s[j..k], s[k..e]);
    WholeThere(s, i);
    FractionThere(s, j);
    ExponentThere(s, k);
    NumeralText(s, start, i, j, k, e);
  }

  lemma NumeralText(s: string, start: nat, i: nat, j: nat, k: nat, e: nat)
    requires start <= i <= j <= k <= e <= |s| && (i == start || (i == start + 1 && s[start] == '-'))
    ensures s[start..e] == (if i > start then "-" else "") + s[i..j] + s[j..k] + s[k..e]
  {
    if i > start { assert s[start..e] == [s[start]] + s[i..e]; }
    assert s[i..e] == s[i..j] + s[j..k] + s[k..e];
  }

  lemma WholeThere(s: string, i: nat)
    requires DigitAt(s, i) && !(s[i] == '0' && DigitAt(s, i + 1))
    ensures var j := DigitsEnd(s, i); AllDigits(s[i..j]) && (s[i..j][0] == '0' ==> |s[i..j]| == 1)
  {
    var j := DigitsEnd(s, i);
    assert s[i..j][0] == s[i];
  }

  lemma FractionThere(s: string, i: nat)
    requires i <= |s|
    ensures var f := s[i..FractionEnd(s, i)]; f == "" || (f[0] == '.' && AllDigits(f[1..]))
  {
    var e := FractionEnd(s, i);
    if e > i {
      assert s[i..e][0] == s[i] && s[i..e][1..] == s[i + 1..e];
    }
  }

  lemma ExponentThere(s: string, i: nat)
    requires i <= |s|
    ensures var x := s[i..ExponentEnd(s, i)];
      x == "" || (x[0] in "eE" && (AllDigits(x[1..]) || (|x| > 1 && x[1] in "+-" && AllDigits(x[2..]))))
  {
    var e := ExponentEnd(s, i);
    if e > i {
      var x := s[i..e];
      assert x[0] == s[i] && x[1..] == s[i + 1..e] && x[1] == s[i + 1] && x[2..] == s[i + 2..e];
    }
  }

  /** The value of a number token. */
  lemma NumeralMeans(reals: Reals, n: Numeral)
    requires n.Ok()
    ensures NumberOf(reals, NumberToken(n)) == n.Value(reals)
  {
    hide ReadDigits;
    if n.fraction == "" && n.exponent == "" {
      assert n.Text() == (if n.negative then "-" + n.whole else n.whole);
      if n.negative { assert n.Text()[1..] == n.whole; }
    }
  }

  // ---------------------------------------------------------------- tokens

  /** Blanks before a token do not matter. */
  lemma {:induction false} BlanksSkipped(s: string, i: nat, b: string)
    requires StandsAt(s, i, b) && Blanks(b)
    ensures i <= |s| && i + |b| <= |s| && Next(s, i) == Next(s, i + |b|)
    decreases |b|
  {
    hide StringEnd, ScanNumber;
    if b != "" {
      assert b == [b[0]] + b[1..];
      StandsCons(s, i, b[0], b[1..]);
      BlanksSkipped(s, i + 1, b[1..]);
    }
  }

  /** Where the token that is found from `i` on begins. */
  lemma {:induction false} TokenStart(s: string, i: nat) returns (start: nat)
    requires i <= |s|
    ensures i <= start <= |s| && Blanks(s[i..start]) && Next(s, start) == Next(s, i)
    ensures start == |s| || !IsBlank(s[start])
    decreases |s| - i
  {
    hide StringEnd, ScanNumber;
    start := i;
    if i < |s| && IsBlank(s[i]) {
      start := TokenStart(s, i + 1);
      assert s[i..start] == [s[i]] + s[i + 1..start];
    }
  }

  function MarkOf(tok: Token): string {
    match tok
    case BeginArray => "[" case EndArray => "]" case BeginObject => "{" case EndObject => "}"
    case Comma => "," case Colon => ":" case LitTrue => "true" case LitFalse => "false" case LitNull => "null"
    case _ => ""
  }

  lemma MarkScans(s: string, i: nat, tok: Token)
    requires MarkOf(tok) != "" && StandsAt(s, i, MarkOf(tok))
    ensures i <= |s| && Next(s, i) == State(tok, i + |MarkOf(tok)|)
  {
    assert s[i..i + |MarkOf(tok)|][0] == s[i];
  }

  lemma QuoteScans(ps: seq<Piece>, s: string, i: nat)
    requires PiecesOk(ps) && StandsAt(s, i, Quote(ps))
    ensures i <= |s| && Next(s, i) == State(StringToken(Spelled(ps)), i + |Quote(ps)|)
    ensures GetString(Spelled(ps), 0) == Ok(Meant(ps))
  {
    hide PiecesOk, Spelled, StringEnd, GetString;
    assert Quote(ps) == ['"'] + (Spelled(ps) + "\"");
    StandsCons(s, i, '"', Spelled(ps) + "\"");
    SpelledScans(ps, s, i + 1);
    StandsSplit(s, i + 1, Spelled(ps), "\"");
    assert Spelled(ps)[0..] == Spelled(ps);
    SpelledGets(ps, Spelled(ps), 0);
  }

  /** What stands where a token was found. */
  lemma MarkThere(s: string, i: nat)
    requires i <= |s| && (i == |s| || !IsBlank(s[i])) && MarkOf(Next(s, i).tok) != ""
    ensures StandsAt(s, i, MarkOf(Next(s, i).tok)) && Next(s, i).at == i + |MarkOf(Next(s, i).tok)|
  {
    hide StringEnd, ScanNumber;
  }

  lemma {:induction false} QuoteAt(s: string, i: nat)
    requires StringEnd(s, i) >= 0
    ensures i <= StringEnd(s, i) < |s| && s[StringEnd(s, i)] == '"'
    decreases |s| - i
  {
    hide UnitLength;
    if s[i] != '"' { QuoteAt(s, i + UnitLength(s, i)); }
  }

  lemma Enclosed(s: string, i: nat, e: nat)
    requires i < e < |s| && s[i] == s[e]
    ensures s[i..e + 1] == [s[i]] + (s[i + 1..e] + [s[e]])
  {
  }

  lemma QuoteThere(s: string, i: nat) returns (ps: seq<Piece>)
    requires i <= |s| && (i == |s| || !IsBlank(s[i])) && Next(s, i).tok.StringToken? && GetString(Next(s, i).tok.raw, 0).Ok?
    ensures PiecesOk(ps) && Next(s, i) == State(StringToken(Spelled(ps)), i + |Quote(ps)|) && StandsAt(s, i, Quote(ps))
    ensures GetString(Spelled(ps), 0) == Ok(Meant(ps))
  {
    hide PiecesOk, Spelled, Meant, GetString, ScanNumber;
    TokenKind(s, i);
    var e := StringEnd(s, i + 1);
    QuoteAt(s, i + 1);
    hide StringEnd;
    ps := PiecesThere(s, i + 1, i + 1, e);
    Enclosed(s, i, e);
  }

  /** Strings start with a quote, numbers with a digit or a minus sign. */
  lemma TokenKind(s: string, i: nat)
    requires i <= |s| && (i == |s| || !IsBlank(s[i]))
    ensures Next(s, i).tok.StringToken? ==>
      i < |s| && s[i] == '"' && StringEnd(s, i + 1) >= 0 && s[StringEnd(s, i + 1)] == '"'
      && Next(s, i) == State(StringToken(s[i + 1..StringEnd(s, i + 1)]), StringEnd(s, i + 1) + 1)
    ensures Next(s, i).tok.Unsigned? || Next(s, i).tok.Integer? || Next(s, i).tok.Real? ==>
      i < |s| && (DigitAt(s, i) || (s[i] == '-' && DigitAt(s, i + 1)))
    ensures Next(s, i).tok == EndOfInput ==> i == |s| || s[i] as int == 0
  {
    hide ScanNumber;
    if i < |s| && s[i] == '"' { EndQuote(s, i + 1); }
    hide StringEnd;
  }

  lemma {:induction false} EndQuote(s: string, i: nat)
    ensures StringEnd(s, i) >= 0 ==> s[StringEnd(s, i)] == '"'
    decreases |s| - i
  {
    hide UnitLength;
    if i < |s| && s[i] != '"' && UnitLength(s, i) != 0 { EndQuote(s, i + UnitLength(s, i)); }
  }

  lemma NumberThere(s: string, i: nat) returns (n: Numeral)
    requires i <= |s| && (i == |s| || !IsBlank(s[i]))
    requires Next(s, i).tok.Unsigned? || Next(s, i).tok.Integer? || Next(s, i).tok.Real?
    ensures n.Ok() && Next(s, i) == State(NumberToken(n), i + |n.Text()|) && StandsAt(s, i, n.Text())
  {
    hide StringEnd, ScanNumber;
    TokenKind(s, i);
    NumberScan(s, i);
    n := NumeralThere(s, i, if s[i] == '-' then i + 1 else i);
  }
}
