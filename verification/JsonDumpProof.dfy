/** Parsing the compact text of a value gives the value back, exactly when its strings are valid UTF-8. */
module JsonDumpProof {
  import opened Bytes
  import opened Decimal
  import opened KeyOrder
  import opened Parts
  import opened JsonValue
  import opened JsonEscape
  import opened JsonLexer
  import opened JsonParser
  import opened JsonDump

  // ---------------------------------------------------------------- which values can be read back

  /** The bytes of the character a string starts with; 0 if it is broken. */
  function CharLength(t: string): (n: nat)
    requires t != ""
    ensures n <= |t|
  {
    if t[0] as int < 0x80 then 1 else Utf8Length(t, 0)
  }

  predicate ValidUtf8(t: string)
    decreases |t|
  {
    t == "" || (CharLength(t) > 0 && ValidUtf8(t[CharLength(t)..]))
  }

  predicate Readable(j: Json) {
    match j
    case Str(s) => ValidUtf8(s)
    case Arr(x) => forall i :: 0 <= i < |x| ==> Readable(x[i])
    case Obj(m) => forall k :: k in m ==> ValidUtf8(k) && Readable(m[k])
    case _ => true
  }

  // ---------------------------------------------------------------- strings

  lemma StandsHead(s: string, i: nat, c: char, rest: string)
    requires StandsAt(s, i, [c] + rest)
    ensures i < |s| && s[i] == c && StandsAt(s, i + 1, rest)
  {
    StandsSplit(s, i, [c], rest);
    assert s[i..i + 1][0] == s[i];
  }

  lemma EscapeCharFirst(c: char)
    ensures if c as int >= 0x80 then EscapeChar(c) == [c] else EscapeChar(c)[0] as int < 0x80
  {
  }

  /** As far as bytes above 0x7f reach, an escaped string and its quote look like the string. */
  lemma {:induction false} SameBytes(t: string, s: string, i: nat, k: nat)
    requires StandsAt(s, i, EscapeString(t) + "\"") && k <= |t| && forall m :: 0 <= m < k ==> t[m] as int >= 0x80
    ensures if ByteAt(t, k) >= 0x80 then ByteAt(s, i + k) == ByteAt(t, k) else ByteAt(s, i + k) < 0x80
    decreases k
  {
    hide EscapeChar;
    if t == "" {
      StandsHead(s, i, '"', "");
    } else {
      EscapeCharFirst(t[0]);
      var e, tail := EscapeChar(t[0]), EscapeString(t[1..]) + "\"";
      Regroup(e, EscapeString(t[1..]), "\"");
      assert e + tail == [e[0]] + (e[1..] + tail);
      StandsHead(s, i, e[0], e[1..] + tail);
      if k > 0 {
        assert e[1..] + tail == tail;
        SameBytes(t[1..], s, i + 1, k - 1);
      }
    }
  }

  lemma SameLength(t: string, s: string, i: nat)
    requires StandsAt(s, i, EscapeString(t) + "\"") && t != "" && t[0] as int >= 0x80
    ensures Utf8Length(s, i) == Utf8Length(t, 0)
  {
    hide EscapeString;
    SameBytes(t, s, i, 0);
    SameBytes(t, s, i, 1);
    if |t| > 1 && t[1] as int >= 0x80 {
      SameBytes(t, s, i, 2);
      if |t| > 2 && t[2] as int >= 0x80 {
        SameBytes(t, s, i, 3);
      }
    }
  }

  lemma {:induction false} HighUnescaped(t: string, n: nat)
    requires n <= |t| && forall m :: 0 <= m < n ==> t[m] as int >= 0x80
    ensures EscapeString(t) == t[..n] + EscapeString(t[n..])
    decreases n
  {
    hide EscapeChar;
    if n > 0 {
      EscapeCharFirst(t[0]);
      HighUnescaped(t[1..], n - 1);
      assert t[1..][n - 1..] == t[n..] && t[..n] == [t[0]] + t[1..][..n - 1];
    }
  }

  lemma HexifyDigit(d: int)
    requires 0 <= d < 16
    ensures HexDigit(Hexify(d)) >= 0
  {
  }

  /** The scanner takes an escaped ASCII character in one unit. */
  lemma EscapedUnit(c: char, s: string, i: nat)
    requires StandsAt(s, i, EscapeChar(c)) && c as int < 0x80
    ensures i < |s| && s[i] != '"' && UnitLength(s, i) == |EscapeChar(c)|
  {
    var e := EscapeChar(c);
    StandsElements(s, i, e);
    assert e[0] == s[i] && (|e| > 1 ==> e[1] == s[i + 1]);
    if ShortEscape(c) != "" {
      assert s[i + 1] == ShortEscape(c)[0];
      assert s[i + 1] in "\"\\/bfnrt";
    } else if c as int <= 0x1f {
      hide Hexify;
      HexifyDigit(c as int / 16);
      HexifyDigit(c as int % 16);
      assert e[2] == s[i + 2] == '0' && e[3] == s[i + 3] == '0';
      assert e[4] == s[i + 4] == Hexify(c as int / 16);
      assert e[5] == s[i + 5] == Hexify(c as int % 16);
      assert 'u' !in "\"\\/bfnrt";
      assert forall k :: i + 2 <= k < i + 6 ==> HexDigit(s[k]) >= 0;
    }
  }

  lemma AsciiStep(t: string, s: string, i: nat)
    requires StandsAt(s, i, EscapeString(t) + "\"") && t != "" && t[0] as int < 0x80
    ensures var n := |EscapeChar(t[0])|;
      && i < |s| && s[i] != '"' && UnitLength(s, i) == n
      && |EscapeString(t)| == n + |EscapeString(t[1..])| && StandsAt(s, i + n, EscapeString(t[1..]) + "\"")
  {
    hide UnitLength, EscapeChar;
    var e := EscapeChar(t[0]);
    Regroup(e, EscapeString(t[1..]), "\"");
    StandsSplit(s, i, e, EscapeString(t[1..]) + "\"");
    EscapedUnit(t[0], s, i);
  }

  lemma HighStep(t: string, s: string, i: nat)
    requires StandsAt(s, i, EscapeString(t) + "\"") && t != "" && t[0] as int >= 0x80
    ensures var n := Utf8Length(t, 0);
      && i < |s| && s[i] != '"' && UnitLength(s, i) == n
      && |EscapeString(t)| == n + |EscapeString(t[n..])| && StandsAt(s, i + n, EscapeString(t[n..]) + "\"")
  {
    hide EscapeString, Utf8Length;
    var n := Utf8Length(t, 0);
    SameLength(t, s, i);
    SameBytes(t, s, i, 0);
    HighUnescaped(t, n);
    Regroup(t[..n], EscapeString(t[n..]), "\"");
    StandsSplit(s, i, t[..n], EscapeString(t[n..]) + "\"");
  }

  lemma OnlyQuote(s: string, i: nat)
    requires StandsAt(s, i, EscapeString("") + "\"")
    ensures i < |s| && s[i] == '"' && |EscapeString("")| == 0
  {
    assert EscapeString("") + "\"" == ['"'] + "";
    StandsHead(s, i, '"', "");
  }

  /** The scanner reaches the closing quote of an escaped string exactly when the string is valid. */
  lemma {:induction false} EscapedEnd(t: string, s: string, i: nat)
    requires StandsAt(s, i, EscapeString(t) + "\"")
    ensures StringEnd(s, i) == if ValidUtf8(t) then i + |EscapeString(t)| else -1
    decreases |t|
  {
    hide EscapeChar, UnitLength, Utf8Length, EscapeString, StandsAt;
    if t == "" {
      OnlyQuote(s, i);
    } else if t[0] as int < 0x80 {
      AsciiStep(t, s, i);
      EscapedEnd(t[1..], s, i + |EscapeChar(t[0])|);
    } else {
      HighStep(t, s, i);
      if CharLength(t) > 0 { EscapedEnd(t[CharLength(t)..], s, i + CharLength(t)); }
    }
  }

  /** A quoted string is one token, or a broken one. */
  lemma QuotedScans(t: string, s: string, i: nat)
    requires StandsAt(s, i, Quoted(t))
    ensures i <= |s|
    ensures ValidUtf8(t) ==> Next(s, i) == State(StringToken(EscapeString(t)), i + |Quoted(t)|)
    ensures !ValidUtf8(t) ==> Next(s, i).tok == Bad
  {
    hide EscapeString, ValidUtf8, StringEnd;
    Regroup("\"", EscapeString(t), "\"");
    StandsHead(s, i, '"', EscapeString(t) + "\"");
    EscapedEnd(t, s, i + 1);
    StandsSplit(s, i + 1, EscapeString(t), "\"");
  }

  // ---------------------------------------------------------------- numbers and single characters

  /** The text ends here or goes on with a character that cannot belong to a number. */
  predicate Ends(s: string, i: nat) {
    i == |s| || (i < |s| && (s[i] == ',' || s[i] == ']' || s[i] == '}'))
  }

  lemma {:induction false} DigitsStop(s: string, i: nat, e: nat)
    requires i <= e <= |s| && (forall k :: i <= k < e ==> IsDigit(s[k])) && (e < |s| ==> !IsDigit(s[e]))
    ensures DigitsEnd(s, i) == e
    decreases e - i
  {
    if i < e { DigitsStop(s, i + 1, e); }
  }

  /** The digits of a number stand where its first digit is, and end where the text goes on. */
  lemma DigitsScan(k: nat, s: string, i: nat)
    requires StandsAt(s, i, Digits(k)) && Ends(s, i + |Digits(k)|)
    ensures DigitAt(s, i) && DigitsEnd(s, i) == i + |Digits(k)|
    ensures s[i] == '0' ==> !DigitAt(s, i + 1)
  {
    hide Digits, DigitsEnd;
    var e := i + |Digits(k)|;
    StandsElements(s, i, Digits(k));
    forall m | i <= m < e ensures IsDigit(s[m]) { assert Digits(k)[m - i] == s[i + (m - i)]; }
    DigitsStop(s, i, e);
    assert Digits(k)[0] == s[i];
  }

  /** A number that ends with its digits is a whole number. */
  lemma WholeNumber(s: string, start: nat, i: nat)
    requires start <= i && DigitAt(s, i) && Ends(s, DigitsEnd(s, i)) && (s[i] == '0' ==> !DigitAt(s, i + 1))
    ensures var e := DigitsEnd(s, i);
      ScanNumber(s, start, i) == (if start == i then Unsigned(s[start..e]) else Integer(s[start..e]), e)
  {
    hide DigitsEnd;
  }

  lemma NumberStart(s: string, i: nat)
    requires DigitAt(s, i) || (i < |s| && s[i] == '-' && DigitAt(s, i + 1))
    ensures Scan(s, i) == if s[i] == '-' then ScanNumber(s, i, i + 1) else ScanNumber(s, i, i)
  {
    hide DigitsEnd, ScanNumber, StringEnd;
  }

  /** Digits, perhaps after a minus sign, are one token. */
  lemma WholeScans(k: nat, s: string, start: nat, i: nat)
    requires StandsAt(s, i, Digits(k)) && Ends(s, i + |Digits(k)|) && (start == i || (start + 1 == i <= |s| && s[start] == '-'))
    ensures start <= |s| && i + |Digits(k)| <= |s|
    ensures var e := i + |Digits(k)|; Next(s, start) == State(if start == i then Unsigned(s[start..e]) else Integer(s[start..e]), e)
  {
    DigitsScan(k, s, i);
    assert s[i] != '-';
    hide Digits, DigitsEnd, StandsAt, Scan, ScanNumber, IsDigit, DigitAt;
    WholeNumber(s, start, i);
    NumberStart(s, start);
  }

  lemma NumberScans(n: int, s: string, i: nat)
    requires StandsAt(s, i, Printed(n)) && Ends(s, i + |Printed(n)|)
    ensures Next(s, i) == State(if n >= 0 then Unsigned(Printed(n)) else Integer(Printed(n)), i + |Printed(n)|)
  {
    hide Digits, Next, Ends;
    if n < 0 {
      StandsHead(s, i, '-', Digits(-n));
      WholeScans(-n, s, i, i + 1);
    } else {
      WholeScans(n, s, i, i);
    }
  }

  lemma NumberReads(reals: Reals, n: int)
    requires FitsSigned(n, 8) || 0 <= n < Span(8)
    ensures NumberOf(reals, if n >= 0 then Unsigned(Printed(n)) else Integer(Printed(n))) == if n >= 0 then Uint(n) else Int(n)
  {
    hide Digits, ReadDigits;
    SpanValues();
    hide Span;
    if n >= 0 {
      DigitsRoundTrip(n);
    } else {
      DigitsRoundTrip(-n);
      assert Printed(n)[1..] == Digits(-n);
    }
  }

  function Punctuation(c: char): Token {
    if c == '[' then BeginArray else if c == ']' then EndArray else if c == '{' then BeginObject
    else if c == '}' then EndObject else if c == ',' then Comma else Colon
  }

  lemma PunctuationScans(s: string, i: nat, c: char, rest: string)
    requires StandsAt(s, i, [c] + rest) && c in "[]{},:"
    ensures i < |s| && s[i] == c && Next(s, i) == State(Punctuation(c), i + 1) && StandsAt(s, i + 1, rest)
  {
    StandsHead(s, i, c, rest);
  }

  // ---------------------------------------------------------------- values

  /** What parsing the text of `j` at the token `c` gives, `end` being the position after the text. */
  ghost predicate Reads(reals: Reals, s: string, c: State, j: Json, end: nat)
    requires c.at <= |s| && end <= |s|
  {
    ParseValue(reals, s, c) == if Readable(j) then Ok((Canonical(j), Next(s, end))) else Err(InvalidArgument)
  }

  lemma WordScans(s: string, i: nat, word: string, tok: Token)
    requires StandsAt(s, i, word)
    requires (word, tok) in {("true", LitTrue), ("false", LitFalse), ("null", LitNull)}
    ensures i <= |s| && Next(s, i) == State(tok, i + |word|)
  {
    assert s[i..i + |word|][0] == s[i];
  }

  lemma ScalarReads(reals: Reals, show: Show, j: Json, s: string, i: nat)
    requires IsPrimitive(j) && NoFloat(j) && InRange(j)
    requires StandsAt(s, i, Dump(show, j)) && Ends(s, i + |Dump(show, j)|)
    ensures i <= |s| && Reads(reals, s, Next(s, i), j, i + |Dump(show, j)|)
  {
    hide Scan, Printed, NumberOf, Quoted, EscapeString, GetString, Span, ValidUtf8;
    match j
    case Null => WordScans(s, i, "null", LitNull);
    case Bool(b) => WordScans(s, i, if b then "true" else "false", if b then LitTrue else LitFalse);
    case Int(n) => { NumberScans(n, s, i); NumberReads(reals, n); }
    case Uint(n) => { NumberScans(n, s, i); NumberReads(reals, n); }
    case Str(t) => { QuotedScans(t, s, i); EscapedReads(t); }
  }

  /** The elements from `k` on are readable. */
  predicate ReadableFrom(x: seq<Json>, k: nat) {
    forall m :: k <= m < |x| ==> Readable(x[m])
  }

  /** What stands at the borders of an element: a comma and the next one, or the closing bracket. */
  lemma ItemBorder(show: Show, j: Json, k: nat, s: string, i: nat)
    requires j.Arr? && k < |j.items| && StandsAt(s, i, Dump(show, j.items[k]) + (DumpItems(show, j, k + 1) + "]"))
    ensures var e := i + |Dump(show, j.items[k])|;
      && i <= e < |s| && StandsAt(s, i, Dump(show, j.items[k])) && Ends(s, e)
      && (k + 1 == |j.items| ==> DumpItems(show, j, k + 1) == "" && Next(s, e) == State(EndArray, e + 1))
      && (k + 1 < |j.items| ==>
            && |DumpItems(show, j, k + 1)| == 1 + |Dump(show, j.items[k + 1])| + |DumpItems(show, j, k + 2)|
            && Next(s, e) == State(Comma, e + 1)
            && StandsAt(s, e + 1, Dump(show, j.items[k + 1]) + (DumpItems(show, j, k + 2) + "]")))
  {
    hide Dump, Scan;
    var x := j.items;
    var item, later := Dump(show, x[k]), DumpItems(show, j, k + 1) + "]";
    StandsSplit(s, i, item, later);
    if k + 1 < |x| {
      var next := Dump(show, x[k + 1]) + (DumpItems(show, j, k + 2) + "]");
      assert later == [','] + next;
      PunctuationScans(s, i + |item|, ',', next);
    } else {
      assert later == [']'] + "";
      PunctuationScans(s, i + |item|, ']', "");
    }
  }

  /** One round of the loop over elements. */
  lemma ElementStep(reals: Reals, s: string, c: State, done: seq<Json>)
    requires c.at <= |s|
    ensures var p := ParseValue(reals, s, c);
      if p.Err? then ParseElements(reals, s, c, done) == Err(p.error) else
        var (v, n) := p.value;
        ParseElements(reals, s, c, done) ==
        if n.tok == Comma then ParseElements(reals, s, Next(s, n.at), done + [v])
        else if n.tok == EndArray then Ok((Arr(done + [v]), Next(s, n.at)))
        else Err(InvalidArgument)
  {
    hide ParseValue, Scan;
  }

  /** What is known of one element of an array that can be dumped. */
  lemma ItemFacts(j: Json, k: nat)
    requires j.Arr? && k < |j.items| && NoFloat(j) && InRange(j)
    ensures Canonical(j).Arr? && |Canonical(j).items| == |j.items| && Canonical(j).items[k] == Canonical(j.items[k])
    ensures NoFloat(j.items[k]) && InRange(j.items[k])
    ensures ReadableFrom(j.items, k) <==> Readable(j.items[k]) && ReadableFrom(j.items, k + 1)
    ensures ReadableFrom(j.items, |j.items|)
  {
    hide Readable;
  }

  lemma {:induction false} ItemsRead(reals: Reals, show: Show, j: Json, all: seq<Json>, k: nat, s: string, i: nat)
    requires j.Arr? && k < |j.items| && NoFloat(j) && InRange(j) && Canonical(j) == Arr(all) && |all| == |j.items|
    requires StandsAt(s, i, Dump(show, j.items[k]) + (DumpItems(show, j, k + 1) + "]"))
    ensures i <= |s|
    ensures var end := i + |Dump(show, j.items[k])| + |DumpItems(show, j, k + 1)| + 1;
      end <= |s| && ParseElements(reals, s, Next(s, i), all[..k]) ==
      if ReadableFrom(j.items, k) then Ok((Arr(all), Next(s, end))) else Err(InvalidArgument)
    decreases j, 0, |j.items| - k
  {
    hide Dump, DumpItems, ParseValue, ParseElements, Readable, ReadableFrom, Scan, StandsAt, NoFloat, InRange, Canonical, Ends;
    var e := i + |Dump(show, j.items[k])|;
    ItemFacts(j, k);
    ItemBorder(show, j, k, s, i);
    ValueReads(reals, show, j.items[k], s, i);
    ElementStep(reals, s, Next(s, i), all[..k]);
    assert all[..k] + [all[k]] == all[..k + 1];
    if k + 1 < |j.items| {
      ItemsRead(reals, show, j, all, k + 1, s, e + 1);
    } else {
      assert all == all[..k + 1];
    }
  }

  /** The members under the keys from `k` on are readable. */
  predicate MembersReadable(m: map<string, Json>, keys: seq<string>, k: nat)
    requires forall a :: a in keys ==> a in m
  {
    forall a :: k <= a < |keys| ==> ValidUtf8(keys[a]) && Readable(m[keys[a]])
  }

  /** The members read once those from `k` on are still to come. */
  function ReadSoFar(m: map<string, Json>, keys: seq<string>, k: nat): map<string, Json>
    requires k <= |keys|
  {
    map a | a in m && a in keys[..k] :: Canonical(m[a])
  }

  lemma ReadSoFarStep(m: map<string, Json>, keys: seq<string>, k: nat)
    requires k < |keys| && keys[k] in m
    ensures ReadSoFar(m, keys, k)[keys[k] := Canonical(m[keys[k]])] == ReadSoFar(m, keys, k + 1)
  {
    hide Canonical;
    assert keys[..k + 1] == keys[..k] + [keys[k]];
  }

  /** The text of the member under a key. */
  function MemberText(show: Show, k: string, v: Json): string {
    Quoted(k) + (":" + Dump(show, v))
  }

  /** What stands inside a member: the quoted key, a colon and the value. */
  lemma MemberBorder(show: Show, k: string, v: Json, s: string, i: nat)
    requires StandsAt(s, i, MemberText(show, k, v))
    ensures var e := i + |Quoted(k)|;
      && i <= e < |s| && |MemberText(show, k, v)| == |Quoted(k)| + 1 + |Dump(show, v)|
      && StandsAt(s, i, Quoted(k)) && Next(s, e) == State(Colon, e + 1) && StandsAt(s, e + 1, Dump(show, v))
  {
    hide Dump, Quoted, Scan;
    StandsSplit(s, i, Quoted(k), ":" + Dump(show, v));
    PunctuationScans(s, i + |Quoted(k)|, ':', Dump(show, v));
  }

  lemma MemberReads(reals: Reals, show: Show, k: string, v: Json, s: string, i: nat)
    requires NoFloat(v) && InRange(v)
    requires StandsAt(s, i, MemberText(show, k, v)) && Ends(s, i + |MemberText(show, k, v)|)
    ensures i <= |s|
    ensures ParseMember(reals, s, Next(s, i)) ==
      if ValidUtf8(k) && Readable(v) then Ok((k, Canonical(v), Next(s, i + |MemberText(show, k, v)|))) else Err(InvalidArgument)
    decreases v, 3, 0
  {
    hide Dump, ParseValue, Readable, Scan, Quoted, EscapeString, GetString, ValidUtf8, Canonical, MemberText, StandsAt, NoFloat, InRange, Ends;
    MemberBorder(show, k, v, s, i);
    QuotedScans(k, s, i);
    EscapedReads(k);
    ValueReads(reals, show, v, s, i + |Quoted(k)| + 1);
  }

  /** After a member comes a comma and the next one. */
  lemma MemberComma(show: Show, j: Json, keys: seq<string>, k: nat, s: string, e: nat)
    requires j.Obj? && 0 < k < |keys| && forall a :: a in keys ==> a in j.members
    requires StandsAt(s, e, DumpMembers(show, j, keys, k) + "}")
    ensures var next := MemberText(show, keys[k], j.members[keys[k]]);
      && e < |s| && s[e] == ',' && Next(s, e) == State(Comma, e + 1)
      && |DumpMembers(show, j, keys, k)| == 1 + |next| + |DumpMembers(show, j, keys, k + 1)|
      && StandsAt(s, e + 1, next + (DumpMembers(show, j, keys, k + 1) + "}"))
  {
    MembersText(show, j, keys, k);
    hide MemberText, Scan, DumpMembers, StandsAt;
    var next, later := MemberText(show, keys[k], j.members[keys[k]]), DumpMembers(show, j, keys, k + 1);
    Regroup(",", next + later, "}");
    Regroup(next, later, "}");
    PunctuationScans(s, e, ',', next + (later + "}"));
  }

  lemma NoMoreMembers(show: Show, j: Json, keys: seq<string>, k: nat)
    requires j.Obj? && k >= |keys| && forall a :: a in keys ==> a in j.members
    ensures DumpMembers(show, j, keys, k) == ""
  {
  }

  /** What stands at the borders of a member: a comma and the next one, or the closing brace. */
  lemma MembersBorder(show: Show, j: Json, keys: seq<string>, k: nat, s: string, i: nat)
    requires j.Obj? && k < |keys| && forall a :: a in keys ==> a in j.members
    requires StandsAt(s, i, MemberText(show, keys[k], j.members[keys[k]]) + (DumpMembers(show, j, keys, k + 1) + "}"))
    ensures var m := j.members;
      var item := MemberText(show, keys[k], m[keys[k]]);
      var e := i + |item|;
      && i <= e < |s| && StandsAt(s, i, item) && Ends(s, e)
      && (k + 1 == |keys| ==> DumpMembers(show, j, keys, k + 1) == "" && Next(s, e) == State(EndObject, e + 1))
      && (k + 1 < |keys| ==>
            && |DumpMembers(show, j, keys, k + 1)| == 1 + |MemberText(show, keys[k + 1], m[keys[k + 1]])| + |DumpMembers(show, j, keys, k + 2)|
            && Next(s, e) == State(Comma, e + 1)
            && StandsAt(s, e + 1, MemberText(show, keys[k + 1], m[keys[k + 1]]) + (DumpMembers(show, j, keys, k + 2) + "}")))
  {
    hide MemberText, Scan, DumpMembers, StandsAt;
    var item, later := MemberText(show, keys[k], j.members[keys[k]]), DumpMembers(show, j, keys, k + 1) + "}";
    StandsSplit(s, i, item, later);
    if k + 1 < |keys| {
      MemberComma(show, j, keys, k + 1, s, i + |item|);
    } else {
      NoMoreMembers(show, j, keys, k + 1);
      assert later == ['}'] + "";
      PunctuationScans(s, i + |item|, '}', "");
    }
  }

  /** One round of the loop over members. */
  lemma MemberStep(reals: Reals, s: string, c: State, done: map<string, Json>)
    requires c.at <= |s|
    ensures var p := ParseMember(reals, s, c);
      if p.Err? then ParseMembers(reals, s, c, done) == Err(p.error) else
        var (k, v, n) := p.value;
        ParseMembers(reals, s, c, done) ==
        if n.tok == Comma then ParseMembers(reals, s, Next(s, n.at), done[k := v])
        else if n.tok == EndObject then Ok((Obj(done[k := v]), Next(s, n.at)))
        else Err(InvalidArgument)
  {
    hide ParseMember, Scan;
  }

  lemma MemberFacts(j: Json, keys: seq<string>, k: nat)
    requires j.Obj? && NoFloat(j) && InRange(j) && k < |keys| && forall a :: a in keys ==> a in j.members
    ensures NoFloat(j.members[keys[k]]) && InRange(j.members[keys[k]])
    ensures MembersReadable(j.members, keys, k) <==>
      (ValidUtf8(keys[k]) && Readable(j.members[keys[k]])) && MembersReadable(j.members, keys, k + 1)
    ensures MembersReadable(j.members, keys, |keys|)
  {
    hide ValidUtf8, Readable;
  }

  lemma {:induction false} MembersRead(reals: Reals, show: Show, j: Json, keys: seq<string>, k: nat, s: string, i: nat)
    requires j.Obj? && NoFloat(j) && InRange(j) && k < |keys| && forall a :: a in keys ==> a in j.members
    requires StandsAt(s, i, MemberText(show, keys[k], j.members[keys[k]]) + (DumpMembers(show, j, keys, k + 1) + "}"))
    ensures i <= |s|
    ensures var end := i + |MemberText(show, keys[k], j.members[keys[k]])| + |DumpMembers(show, j, keys, k + 1)| + 1;
      end <= |s| && ParseMembers(reals, s, Next(s, i), ReadSoFar(j.members, keys, k)) ==
      if MembersReadable(j.members, keys, k) then Ok((Obj(ReadSoFar(j.members, keys, |keys|)), Next(s, end))) else Err(InvalidArgument)
    decreases j, 0, |keys| - k
  {
    hide Dump, DumpMembers, ParseMember, ParseMembers, Readable, Scan, Canonical, ReadSoFar, MemberText, ValidUtf8, StandsAt, NoFloat, InRange, Ends, MembersReadable;
    var m := j.members;
    var item := MemberText(show, keys[k], m[keys[k]]);
    MemberFacts(j, keys, k);
    MembersBorder(show, j, keys, k, s, i);
    ReadSoFarStep(m, keys, k);
    MemberReads(reals, show, keys[k], m[keys[k]], s, i);
    MemberStep(reals, s, Next(s, i), ReadSoFar(m, keys, k));
    if k + 1 < |keys| {
      MembersRead(reals, show, j, keys, k + 1, s, i + |item| + 1);
    }
  }

  lemma MembersText(show: Show, j: Json, keys: seq<string>, k: nat)
    requires j.Obj? && k < |keys| && forall a :: a in keys ==> a in j.members
    ensures DumpMembers(show, j, keys, k) ==
      (if k > 0 then "," else "") + (MemberText(show, keys[k], j.members[keys[k]]) + DumpMembers(show, j, keys, k + 1))
  {
    hide Dump, Quoted;
    var q, d, later := Quoted(keys[k]), Dump(show, j.members[keys[k]]), DumpMembers(show, j, keys, k + 1);
    Regroup(":", d, later);
    Regroup(q, ":" + d, later);
  }

  /** An opening bracket: empty, a stray comma, or the first element. */
  lemma OpenArray(reals: Reals, s: string, c: State)
    requires c.at <= |s| && c.tok == BeginArray
    ensures var n := Next(s, c.at);
      ParseValue(reals, s, c) ==
      if n.tok == EndArray then Ok((Arr([]), Next(s, n.at)))
      else if n.tok == Comma then Err(InvalidArgument)
      else ParseElements(reals, s, n, [])
  {
    hide Scan, ParseElements;
  }

  lemma OpenObject(reals: Reals, s: string, c: State)
    requires c.at <= |s| && c.tok == BeginObject
    ensures var n := Next(s, c.at);
      ParseValue(reals, s, c) ==
      if n.tok == EndObject then Ok((Obj(map[]), Next(s, n.at)))
      else if n.tok == Comma then Err(InvalidArgument)
      else ParseMembers(reals, s, n, map[])
  {
    hide Scan, ParseMembers;
  }

  /** The text of an array: a bracket, then its end or its first element. */
  lemma ArrayBorder(show: Show, j: Json, s: string, i: nat)
    requires j.Arr? && StandsAt(s, i, Dump(show, j))
    ensures i < |s| && Next(s, i) == State(BeginArray, i + 1)
    ensures j.items == [] ==> |Dump(show, j)| == 2 && Next(s, i + 1) == State(EndArray, i + 2)
    ensures j.items != [] ==>
      && |Dump(show, j)| == 2 + |Dump(show, j.items[0])| + |DumpItems(show, j, 1)|
      && StandsAt(s, i + 1, Dump(show, j.items[0]) + (DumpItems(show, j, 1) + "]"))
  {
    hide Scan;
    var x := j.items;
    Regroup("[", DumpItems(show, j, 0), "]");
    PunctuationScans(s, i, '[', DumpItems(show, j, 0) + "]");
    if x == [] {
      assert DumpItems(show, j, 0) + "]" == [']'] + "";
      PunctuationScans(s, i + 1, ']', "");
    } else {
      assert "" + (Dump(show, x[0]) + DumpItems(show, j, 1)) == Dump(show, x[0]) + DumpItems(show, j, 1);
      Regroup(Dump(show, x[0]), DumpItems(show, j, 1), "]");
    }
  }

  lemma ArrayFacts(j: Json)
    requires j.Arr? && NoFloat(j)
    ensures Readable(j) <==> ReadableFrom(j.items, 0)
    ensures j.items == [] ==> ReadableFrom(j.items, 0)
    ensures Canonical(j).Arr? && |Canonical(j).items| == |j.items| && (j.items != [] ==> !j.items[0].Float?)
  {
  }

  lemma ArrayReads(reals: Reals, show: Show, j: Json, s: string, i: nat)
    requires j.Arr? && NoFloat(j) && InRange(j) && StandsAt(s, i, Dump(show, j))
    ensures i <= |s| && Reads(reals, s, Next(s, i), j, i + |Dump(show, j)|)
    decreases j, 1, 0
  {
    hide Scan, ParseValue, ParseElements, ReadableFrom, Readable, NoFloat, InRange, Canonical, StandsAt, Dump, DumpItems;
    ArrayFacts(j);
    var x, all := j.items, Canonical(j).items;
    ArrayBorder(show, j, s, i);
    OpenArray(reals, s, Next(s, i));
    if x == [] {
      assert all == [];
    } else {
      ItemsRead(reals, show, j, all, 0, s, i + 1);
      StandsSplit(s, i + 1, Dump(show, x[0]), DumpItems(show, j, 1) + "]");
      FirstToken(show, x[0], s, i + 1);
      assert all[..0] == [];
    }
  }

  lemma NumberStarts(n: int, s: string, i: nat)
    requires StandsAt(s, i, Printed(n))
    ensures i <= |s| && Next(s, i).tok !in {EndArray, EndObject, Comma}
  {
    hide Digits, DigitsEnd, ExponentEnd, FractionEnd;
    var d := Printed(n);
    assert d == [d[0]] + d[1..];
    StandsHead(s, i, d[0], d[1..]);
    hide StandsAt;
  }

  /** The text of a value never starts with a closing bracket, a brace or a comma. */
  lemma FirstToken(show: Show, j: Json, s: string, i: nat)
    requires StandsAt(s, i, Dump(show, j)) && !j.Float?
    ensures i <= |s| && Next(s, i).tok !in {EndArray, EndObject, Comma}
  {
    hide DumpItems, DumpMembers, SortedKeys, Less, Scan, Printed, Quoted, EscapeString, ValidUtf8;
    match j
    case Null => WordScans(s, i, "null", LitNull);
    case Bool(b) => WordScans(s, i, if b then "true" else "false", if b then LitTrue else LitFalse);
    case Int(n) => NumberStarts(n, s, i);
    case Uint(n) => NumberStarts(n, s, i);
    case Str(t) => QuotedScans(t, s, i);
    case Arr(x) =>
      Regroup("[", DumpItems(show, j, 0), "]");
      PunctuationScans(s, i, '[', DumpItems(show, j, 0) + "]");
    case Obj(m) =>
      var body := DumpMembers(show, j, SortedKeys(m.Keys), 0);
      Regroup("{", body, "}");
      PunctuationScans(s, i, '{', body + "}");
  }

  lemma KeysReadable(j: Json, keys: seq<string>)
    requires j.Obj? && forall a :: a in keys <==> a in j.members
    ensures Readable(j) <==> MembersReadable(j.members, keys, 0)
    ensures keys == [] ==> MembersReadable(j.members, keys, 0)
  {
    hide ValidUtf8;
    var m := j.members;
    if MembersReadable(m, keys, 0) {
      forall k | k in m ensures ValidUtf8(k) && Readable(m[k]) {
        var a :| 0 <= a < |keys| && keys[a] == k;
      }
    }
    if Readable(j) {
      forall a | 0 <= a < |keys| ensures ValidUtf8(keys[a]) && Readable(m[keys[a]]) {
        assert keys[a] in m;
      }
    }
  }

  lemma KeysRead(j: Json, keys: seq<string>)
    requires j.Obj? && forall a :: a in keys <==> a in j.members
    ensures ReadSoFar(j.members, keys, 0) == map[] && Obj(ReadSoFar(j.members, keys, |keys|)) == Canonical(j)
  {
    assert keys[..|keys|] == keys;
    assert ReadSoFar(j.members, keys, |keys|) == Canonical(j).members;
  }

  /** The text of an object: a brace, then its end or its first member. */
  lemma ObjectBorder(show: Show, j: Json, keys: seq<string>, s: string, i: nat)
    requires j.Obj? && keys == SortedKeys(j.members.Keys) && StandsAt(s, i, Dump(show, j))
    ensures i < |s| && Next(s, i) == State(BeginObject, i + 1)
    ensures keys == [] ==> |Dump(show, j)| == 2 && Next(s, i + 1) == State(EndObject, i + 2)
    ensures keys != [] ==>
      var first := MemberText(show, keys[0], j.members[keys[0]]);
      && |Dump(show, j)| == 2 + |first| + |DumpMembers(show, j, keys, 1)|
      && StandsAt(s, i + 1, first + (DumpMembers(show, j, keys, 1) + "}"))
  {
    hide Scan, SortedKeys, Less, MemberText;
    var body := DumpMembers(show, j, keys, 0);
    Regroup("{", body, "}");
    PunctuationScans(s, i, '{', body + "}");
    if keys == [] {
      assert body + "}" == ['}'] + "";
      PunctuationScans(s, i + 1, '}', "");
    } else {
      MembersText(show, j, keys, 0);
      hide DumpMembers;
      var first, later := MemberText(show, keys[0], j.members[keys[0]]), DumpMembers(show, j, keys, 1);
      assert "" + (first + later) == first + later;
      Regroup(first, later, "}");
    }
  }

  lemma ObjectReads(reals: Reals, show: Show, j: Json, s: string, i: nat)
    requires j.Obj? && NoFloat(j) && InRange(j) && StandsAt(s, i, Dump(show, j))
    ensures i <= |s| && Reads(reals, s, Next(s, i), j, i + |Dump(show, j)|)
    decreases j, 1, 0
  {
    hide Scan, ParseValue, ParseMembers, MembersReadable, NoFloat, InRange, Readable, Canonical, SortedKeys, Less, Dump, DumpMembers, MemberText, ReadSoFar, StandsAt;
    var m := j.members;
    var keys := SortedKeys(m.Keys);
    KeysReadable(j, keys);
    KeysRead(j, keys);
    ObjectBorder(show, j, keys, s, i);
    OpenObject(reals, s, Next(s, i));
    if keys != [] {
      MembersRead(reals, show, j, keys, 0, s, i + 1);
      FirstMember(show, keys[0], m[keys[0]], DumpMembers(show, j, keys, 1) + "}", s, i + 1);
    }
  }

  lemma FirstMember(show: Show, k: string, v: Json, later: string, s: string, i: nat)
    requires StandsAt(s, i, MemberText(show, k, v) + later)
    ensures i <= |s| && Next(s, i).tok !in {EndArray, EndObject, Comma}
  {
    hide Dump, EscapeString, ValidUtf8, Quoted, Scan, StandsAt, MemberText;
    StandsSplit(s, i, MemberText(show, k, v), later);
    MemberBorder(show, k, v, s, i);
    QuotedScans(k, s, i);
  }

  /** Parsing the text of a value, wherever it stands, gives the value and stops right after it. */
  lemma {:induction false} ValueReads(reals: Reals, show: Show, j: Json, s: string, i: nat)
    requires NoFloat(j) && InRange(j)
    requires StandsAt(s, i, Dump(show, j)) && Ends(s, i + |Dump(show, j)|)
    ensures i <= |s| && Reads(reals, s, Next(s, i), j, i + |Dump(show, j)|)
    decreases j, 2, 0
  {
    hide Dump, Reads, Scan;
    if j.Arr? {
      ArrayReads(reals, show, j, s, i);
    } else if j.Obj? {
      ObjectReads(reals, show, j, s, i);
    } else {
      ScalarReads(reals, show, j, s, i);
    }
  }

  /**
   Parsing the compact text of a value without doubles gives an equal value, provided that its strings and
   keys are valid UTF-8; otherwise the text is refused.
   */
  lemma DumpThenParse(reals: Reals, show: Show, j: Json, mix: Mixed)
    requires NoFloat(j) && InRange(j)
    ensures var r := Parse(reals, Dump(show, j));
      if Readable(j) then r == Ok(Canonical(j)) && Eq(Canonical(j), j, mix) else r == Err(InvalidArgument)
  {
    hide Dump, Readable, Canonical, ParseValue, Eq;
    var s := Dump(show, j);
    assert s[0..|s|] == s;
    ValueReads(reals, show, j, s, 0);
    FloatFree(j);
    CanonicalEquals(j, mix);
  }

  lemma {:induction false} FloatFree(j: Json)
    requires NoFloat(j)
    ensures AllFinite(j)
  {
    match j
    case Arr(x) => forall i | 0 <= i < |x| ensures AllFinite(x[i]) { FloatFree(x[i]); }
    case Obj(m) => forall k | k in m ensures AllFinite(m[k]) { FloatFree(m[k]); }
    case _ =>
  }
}
