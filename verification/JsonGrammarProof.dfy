/** The parser accepts exactly the documents of the grammar, and gives each the value it means. */
module JsonGrammarProof {
  import opened Parts
  import opened JsonValue
  import opened JsonEscape
  import opened JsonLexer
  import opened JsonParser
  import opened JsonGrammar
  import opened JsonGrammarScan

  // ---------------------------------------------------------------- steps of the parser

  lemma ScalarStep(reals: Reals, s: string, c: State)
    requires c.at <= |s|
    ensures c.tok == LitNull ==> ParseValue(reals, s, c) == Ok((Null, Next(s, c.at)))
    ensures c.tok == LitTrue ==> ParseValue(reals, s, c) == Ok((Bool(true), Next(s, c.at)))
    ensures c.tok == LitFalse ==> ParseValue(reals, s, c) == Ok((Bool(false), Next(s, c.at)))
    ensures c.tok.Unsigned? || c.tok.Integer? || c.tok.Real? ==> ParseValue(reals, s, c) == Ok((NumberOf(reals, c.tok), Next(s, c.at)))
    ensures c.tok.StringToken? ==>
      var r := GetString(c.tok.raw, 0);
      ParseValue(reals, s, c) == if r.Ok? then Ok((Str(r.value), Next(s, c.at))) else Err(r.error)
    ensures c.tok in {EndOfInput, EndArray, EndObject, Comma, Colon, Bad} ==> ParseValue(reals, s, c) == Err(InvalidArgument)
  {
    hide GetString, Scan, NumberOf;
  }

  lemma ListStep(reals: Reals, s: string, c: State)
    requires c.at <= |s| && c.tok == BeginArray
    ensures var n := Next(s, c.at);
      ParseValue(reals, s, c) ==
      if n.tok == EndArray then Ok((Arr([]), Next(s, n.at)))
      else if n.tok == Comma then Err(InvalidArgument)
      else ParseElements(reals, s, n, [])
  {
    hide Scan, ParseElements;
  }

  lemma TableStep(reals: Reals, s: string, c: State)
    requires c.at <= |s| && c.tok == BeginObject
    ensures var n := Next(s, c.at);
      ParseValue(reals, s, c) ==
      if n.tok == EndObject then Ok((Obj(map[]), Next(s, n.at)))
      else if n.tok == Comma then Err(InvalidArgument)
      else ParseMembers(reals, s, n, map[])
  {
    hide Scan, ParseMembers;
  }

  lemma ElementStep(reals: Reals, s: string, c: State, done: seq<Json>)
    requires c.at <= |s|
    ensures var p := ParseValue(reals, s, c);
      if p.Err? then ParseElements(reals, s, c, done) == Err(p.error) else
        var (v, n) := p.value;
        ParseElements(reals, s, c, done) ==
        if n.tok == Comma then ParseElements(reals, s, Next(s, n.at), done + [v])
        else if n.tok == EndArray then Ok((Arr(done + [v]), Next(s, n.at)))
        else Err(InvalidArgument)
  {
    hide ParseValue, Scan;
  }

  lemma MemberStep(reals: Reals, s: string, c: State, done: map<string, Json>)
    requires c.at <= |s|
    ensures var p := ParseMember(reals, s, c);
      if p.Err? then ParseMembers(reals, s, c, done) == Err(p.error) else
        var (k, v, n) := p.value;
        ParseMembers(reals, s, c, done) ==
        if n.tok == Comma then ParseMembers(reals, s, Next(s, n.at), done[k := v])
        else if n.tok == EndObject then Ok((Obj(done[k := v]), Next(s, n.at)))
        else Err(InvalidArgument)
  {
    hide ParseMember, Scan;
  }

  // ---------------------------------------------------------------- every document is parsed

  lemma BlankFollows(s: string, i: nat, b: string, c: char, rest: string)
    requires StandsAt(s, i, b + ([c] + rest)) && Blanks(b) && c in ",]}"
    ensures Follows(s, i)
  {
    StandsElements(s, i, b + ([c] + rest));
    assert (b + ([c] + rest))[0] == s[i + 0];
  }

  /** After blanks comes a mark. */
  lemma BlankMark(s: string, i: nat, b: string, tok: Token, rest: string)
    requires MarkOf(tok) != "" && StandsAt(s, i, b + (MarkOf(tok) + rest)) && Blanks(b)
    ensures i <= |s| && Next(s, i) == State(tok, i + |b| + |MarkOf(tok)|) && StandsAt(s, i + |b| + |MarkOf(tok)|, rest)
  {
    hide MarkOf, Scan;
    StandsSplit(s, i, b, MarkOf(tok) + rest);
    StandsSplit(s, i + |b|, MarkOf(tok), rest);
    BlanksSkipped(s, i, b);
    MarkScans(s, i + |b|, tok);
  }

  /** What reading a document at `i`, which ends at `e`, gives. */
  ghost predicate Reads(reals: Reals, s: string, i: nat, d: Doc, e: nat) {
    && Valid(d) && i <= |s| && e <= |s|
    && ParseValue(reals, s, Next(s, i)) == Ok((Meaning(reals, d), Next(s, e)))
    && Next(s, i).tok !in {EndArray, EndObject, Comma, EndOfInput}
  }

  lemma ScalarReads(reals: Reals, s: string, i: nat, d: Doc)
    requires Valid(d) && (d.Word? || d.Number? || d.Text?) && StandsAt(s, i, Render(d)) && Follows(s, i + |Render(d)|)
    ensures Reads(reals, s, i, d, i + |Render(d)|)
  {
    hide Scan, ParseValue, GetString, NumberOf, Spelled, Meant, PiecesOk, Numeral.Ok, Numeral.Text, Numeral.Value;
    match d
    case Word(j) =>
      MarkScans(s, i, if j.Null? then LitNull else if j == Bool(true) then LitTrue else LitFalse);
      ScalarStep(reals, s, Next(s, i));
    case Number(n) =>
      NumeralScans(n, s, i);
      NumeralMeans(reals, n);
      ScalarStep(reals, s, Next(s, i));
    case Text(ps) =>
      QuoteScans(ps, s, i);
      ScalarStep(reals, s, Next(s, i));
  }

  lemma EmptyReads(reals: Reals, s: string, i: nat, d: Doc)
    requires Valid(d) && (d.EmptyList? || d.EmptyTable?) && StandsAt(s, i, Render(d))
    ensures Reads(reals, s, i, d, i + |Render(d)|)
  {
    hide Scan, ParseValue;
    var (open, close) := if d.EmptyList? then (BeginArray, EndArray) else (BeginObject, EndObject);
    assert Render(d) == "" + (MarkOf(open) + (d.gap + MarkOf(close)));
    assert d.gap + MarkOf(close) == d.gap + (MarkOf(close) + "");
    BlankMark(s, i, "", open, d.gap + MarkOf(close));
    BlankMark(s, i + 1, d.gap, close, "");
    if d.EmptyList? { ListStep(reals, s, Next(s, i)); } else { TableStep(reals, s, Next(s, i)); }
  }

  /** The mark after an element, and the text after that. */
  function MarkAfterElement(es: Elements): Token {
    if es.More? then Comma else EndArray
  }

  function AfterElement(es: Elements): string {
    if es.More? then RenderElements(es.rest) + "]" else ""
  }

  lemma ElementTail(es: Elements)
    ensures RenderElements(es) + "]" == es.before + (Render(es.doc) + (es.after + (MarkOf(MarkAfterElement(es)) + AfterElement(es))))
    ensures |RenderElements(es)| == |es.before| + |Render(es.doc)| + |es.after| + if es.More? then 1 + |RenderElements(es.rest)| else 0
  {
    hide Render;
    if es.More? {
      ElementsText(es.before, Render(es.doc), es.after, RenderElements(es.rest));
    } else {
      LastText(es.before, Render(es.doc), es.after);
    }
  }

  /** The layout of an element, and what follows it. */
  lemma ElementBorder(es: Elements, s: string, i: nat)
    requires ValidElements(es) && StandsAt(s, i, RenderElements(es) + "]")
    ensures var (b, e) := (i + |es.before|, i + |es.before| + |Render(es.doc)|);
      && StandsAt(s, i, es.before) && StandsAt(s, b, Render(es.doc)) && Follows(s, e) && e <= |s|
      && Next(s, e) == State(MarkAfterElement(es), e + |es.after| + 1) && StandsAt(s, e + |es.after| + 1, AfterElement(es))
      && |RenderElements(es)| == e - i + |es.after| + if es.More? then 1 + |RenderElements(es.rest)| else 0
  {
    hide Scan, Render, RenderElements, StandsAt, Valid, Follows;
    ElementTail(es);
    var d, mark, tail := Render(es.doc), MarkAfterElement(es), AfterElement(es);
    StandsSplit(s, i, es.before, d + (es.after + (MarkOf(mark) + tail)));
    StandsSplit(s, i + |es.before|, d, es.after + (MarkOf(mark) + tail));
    var e := i + |es.before| + |d|;
    BlankFollows(s, e, es.after, if es.More? then ',' else ']', tail);
    BlankMark(s, e, es.after, mark, tail);
  }

  lemma {:induction false} ElementsRead(reals: Reals, s: string, i: nat, es: Elements, done: seq<Json>)
    requires ValidElements(es) && StandsAt(s, i, RenderElements(es) + "]")
    ensures i <= |s| && i + |RenderElements(es)| + 1 <= |s|
    ensures ParseElements(reals, s, Next(s, i), done) == Ok((Arr(done + Values(reals, es)), Next(s, i + |RenderElements(es)| + 1)))
    ensures Next(s, i).tok !in {EndArray, EndObject, Comma, EndOfInput}
    decreases es, 0
  {
    hide Scan, ParseValue, ParseElements, Render, RenderElements, StandsAt;
    ElementBorder(es, s, i);
    StandsWithin(s, i, RenderElements(es) + "]");
    BlanksSkipped(s, i, es.before);
    DocReads(reals, s, i + |es.before|, es.doc);
    ElementStep(reals, s, Next(s, i), done);
    var v := Meaning(reals, es.doc);
    if es.More? {
      ElementsRead(reals, s, i + |es.before| + |Render(es.doc)| + |es.after| + 1, es.rest, done + [v]);
      Regroup(done, [v], Values(reals, es.rest));
    } else {
      assert [v] + [] == [v];
    }
  }

  /** The layout of a member, and what follows it. */
  lemma EntryBorder(e: Entry, tail: string, s: string, i: nat)
    requires ValidEntry(e) && StandsAt(s, i, RenderEntry(e) + tail)
    ensures var (q, m) := (i + |e.before|, i + |e.before| + |Quote(e.key)|);
      var g := m + |e.middle| + 1;
      var d := g + |e.gap|;
      && StandsAt(s, i, e.before) && StandsAt(s, q, Quote(e.key)) && m <= |s| && Next(s, m) == State(Colon, g)
      && StandsAt(s, g, e.gap) && StandsAt(s, d, Render(e.doc)) && StandsAt(s, d + |Render(e.doc)|, e.after + tail)
      && |RenderEntry(e)| == d + |Render(e.doc)| + |e.after| - i
  {
    hide Scan, Render, Quote, StandsAt;
    var (k, d) := (Quote(e.key), Render(e.doc));
    var t0 := e.after + tail;
    var t1 := d + t0;
    var t2 := e.gap + t1;
    var t3 := e.middle + (MarkOf(Colon) + t2);
    EntryText(e.before, k, e.middle, e.gap, d, e.after, tail);
    StandsSplit(s, i, e.before, k + t3);
    StandsSplit(s, i + |e.before|, k, t3);
    BlankMark(s, i + |e.before| + |k|, e.middle, Colon, t2);
    var g := i + |e.before| + |k| + |e.middle| + 1;
    StandsSplit(s, g, e.gap, t1);
    StandsSplit(s, g + |e.gap|, d, t0);
  }

  lemma EntryText(a: string, k: string, m: string, g: string, d: string, z: string, tail: string)
    ensures a + (k + (m + (":" + (g + (d + z))))) + tail == a + (k + (m + (":" + (g + (d + (z + tail))))))
  {
    Regroup(d, z, tail);
    Regroup(g, d + z, tail);
    Regroup(":", g + (d + z), tail);
    Regroup(m, ":" + (g + (d + z)), tail);
    Regroup(k, m + (":" + (g + (d + z))), tail);
    Regroup(a, k + (m + (":" + (g + (d + z)))), tail);
  }

  lemma MemberReads(reals: Reals, s: string, c: State, key: string, colon: nat, v: Json, n: State)
    requires c.at <= |s| && c.tok.StringToken? && GetString(c.tok.raw, 0) == Ok(key)
    requires Next(s, c.at) == State(Colon, colon) && colon <= |s| && ParseValue(reals, s, Next(s, colon)) == Ok((v, n))
    ensures ParseMember(reals, s, c) == Ok((key, v, n))
  {
    hide Scan, GetString, ParseValue;
  }

  lemma {:induction false} EntryReads(reals: Reals, s: string, i: nat, e: Entry, tail: string)
    requires ValidEntry(e) && StandsAt(s, i, RenderEntry(e) + tail) && tail != "" && tail[0] in ",]}"
    ensures i <= |s|
    ensures var end := i + |RenderEntry(e)| - |e.after|;
      && i <= end <= |s| && StandsAt(s, end, e.after + tail)
      && ParseMember(reals, s, Next(s, i)) == Ok((Meant(e.key), Meaning(reals, e.doc), Next(s, end)))
      && Next(s, i).tok !in {EndArray, EndObject, Comma, EndOfInput}
    decreases e, 0
  {
    hide Scan, ParseValue, ParseMember, Render, RenderEntry, Spelled, Meant, PiecesOk, GetString, StandsAt;
    EntryBorder(e, tail, s, i);
    var q := i + |e.before|;
    var g := q + |Quote(e.key)| + |e.middle| + 1;
    var d := g + |e.gap|;
    StandsWithin(s, i, e.before);
    BlanksSkipped(s, i, e.before);
    QuoteScans(e.key, s, q);
    BlanksSkipped(s, g, e.gap);
    assert e.after + tail == e.after + ([tail[0]] + tail[1..]);
    BlankFollows(s, d + |Render(e.doc)|, e.after, tail[0], tail[1..]);
    DocReads(reals, s, d, e.doc);
    MemberReads(reals, s, Next(s, i), Meant(e.key), g, Meaning(reals, e.doc), Next(s, d + |Render(e.doc)|));
  }

  lemma {:induction false} EntriesRead(reals: Reals, s: string, i: nat, es: Entries, done: map<string, Json>)
    requires ValidEntries(es) && StandsAt(s, i, RenderEntries(es) + "}")
    ensures i <= |s| && i + |RenderEntries(es)| + 1 <= |s|
    ensures ParseMembers(reals, s, Next(s, i), done) == Ok((Obj(done + Members(reals, es)), Next(s, i + |RenderEntries(es)| + 1)))
    ensures Next(s, i).tok !in {EndArray, EndObject, Comma, EndOfInput}
    decreases es, 0
  {
    hide Scan, ParseValue, ParseMember, ParseMembers, RenderEntry, StandsAt, ValidEntry, Meant;
    var e := es.entry;
    var mark := if es.Further? then Comma else EndObject;
    var rest := if es.Further? then RenderEntries(es.others) + "}" else "";
    var tail := MarkOf(mark) + rest;
    EntriesText(es);
    StandsWithin(s, i, RenderEntries(es) + "}");
    EntryReads(reals, s, i, e, tail);
    var end := i + |RenderEntry(e)| - |e.after|;
    EntryBlank(e);
    BlankMark(s, end, e.after, mark, rest);
    MemberStep(reals, s, Next(s, i), done);
    var (k, v) := (Meant(e.key), Meaning(reals, e.doc));
    if es.Further? {
      EntriesRead(reals, s, i + |RenderEntry(e)| + 1, es.others, done[k := v]);
    }
    MembersGrow(reals, es, done);
  }

  /** The members already there, then the first entry, then the others. */
  lemma MembersGrow(reals: Reals, es: Entries, done: map<string, Json>)
    requires ValidEntries(es)
    ensures ValidEntry(es.entry) && PiecesOk(es.entry.key) && Valid(es.entry.doc)
    ensures var more := done[Meant(es.entry.key) := Meaning(reals, es.entry.doc)];
      done + Members(reals, es) == if es.Further? then more + Members(reals, es.others) else more
  {
    EntryBlank(es.entry);
    var (k, v) := (Meant(es.entry.key), Meaning(reals, es.entry.doc));
    hide ValidEntry, Meant, Meaning;
    MapsGrow(done, k, v, if es.Further? then Members(reals, es.others) else map[]);
  }

  lemma MapsGrow(done: map<string, Json>, k: string, v: Json, rest: map<string, Json>)
    ensures done + (map[k := v] + rest) == done[k := v] + rest
    ensures rest == map[] ==> done + (map[k := v] + rest) == done[k := v]
  {
  }

  /** A table from its first entry on: the entry, the mark after it, and what follows. */
  lemma EntriesText(es: Entries)
    ensures RenderEntries(es) + "}" ==
      RenderEntry(es.entry) + (if es.Further? then "," + (RenderEntries(es.others) + "}") else "}" + "")
  {
    hide RenderEntry;
    if es.Further? {
      Regroup(",", RenderEntries(es.others), "}");
      Regroup(RenderEntry(es.entry), "," + RenderEntries(es.others), "}");
    } else {
      assert RenderEntry(es.entry) + "" == RenderEntry(es.entry);
    }
  }

  lemma EntryBlank(e: Entry)
    requires ValidEntry(e)
    ensures Blanks(e.after) && Valid(e.doc) && PiecesOk(e.key)
  {
  }

  lemma {:induction false} DocReads(reals: Reals, s: string, i: nat, d: Doc)
    requires Valid(d) && StandsAt(s, i, Render(d)) && Follows(s, i + |Render(d)|)
    ensures Reads(reals, s, i, d, i + |Render(d)|)
    decreases d, 1
  {
    hide Scan, ParseValue, ParseElements, ParseMembers, RenderElements, RenderEntries, Values, Members, ValidElements, ValidEntries;
    match d
    case List(es) =>
      assert Render(d) == "" + (MarkOf(BeginArray) + (RenderElements(es) + "]"));
      BlankMark(s, i, "", BeginArray, RenderElements(es) + "]");
      ElementsRead(reals, s, i + 1, es, []);
      ListStep(reals, s, Next(s, i));
      assert [] + Values(reals, es) == Values(reals, es);
    case Table(es) =>
      assert Render(d) == "" + (MarkOf(BeginObject) + (RenderEntries(es) + "}"));
      BlankMark(s, i, "", BeginObject, RenderEntries(es) + "}");
      EntriesRead(reals, s, i + 1, es, map[]);
      TableStep(reals, s, Next(s, i));
      assert map[] + Members(reals, es) == Members(reals, es);
    case EmptyList(_) => EmptyReads(reals, s, i, d);
    case EmptyTable(_) => EmptyReads(reals, s, i, d);
    case _ => ScalarReads(reals, s, i, d);
  }

  // ---------------------------------------------------------------- nothing else is

  /** From `i` on stand blanks and then the document, up to `e`. */
  ghost predicate Spans(s: string, i: nat, start: nat, d: Doc, e: nat) {
    i <= start <= e <= |s| && Blanks(s[i..start]) && Valid(d) && s[start..e] == Render(d)
  }

  lemma {:induction false} ValueThere(reals: Reals, s: string, i: nat) returns (start: nat, d: Doc, e: nat)
    requires i <= |s| && ParseValue(reals, s, Next(s, i)).Ok?
    ensures Spans(s, i, start, d, e)
    ensures ParseValue(reals, s, Next(s, i)) == Ok((Meaning(reals, d), Next(s, e))) && e >= Next(s, i).at
    decreases Left(s, Next(s, i)), 1
  {
    hide Scan, ParseValue, Render, Valid, Meaning, Blanks, Left;
    start := TokenStart(s, i);
    var c := Next(s, i);
    if c.tok == BeginArray {
      d, e := ListThere(reals, s, i, start);
    } else if c.tok == BeginObject {
      d, e := TableThere(reals, s, i, start);
    } else {
      d := ScalarThere(reals, s, i, start);
      e := c.at;
    }
  }

  lemma ScalarThere(reals: Reals, s: string, i: nat, start: nat) returns (d: Doc)
    requires i <= start <= |s| && Blanks(s[i..start]) && Next(s, start) == Next(s, i) && (start == |s| || !IsBlank(s[start]))
    requires Next(s, i).tok !in {BeginArray, BeginObject} && ParseValue(reals, s, Next(s, i)).Ok?
    ensures Spans(s, i, start, d, Next(s, i).at)
    ensures ParseValue(reals, s, Next(s, i)) == Ok((Meaning(reals, d), Next(s, Next(s, i).at)))
  {
    hide Scan, ParseValue, Blanks, IsBlank, GetString, Render, Valid, Meaning, MarkOf;
    var c := Next(s, i);
    ScalarStep(reals, s, c);
    if c.tok in {LitNull, LitTrue, LitFalse} {
      d := WordFound(reals, s, start);
    } else if c.tok.StringToken? {
      d := TextFound(reals, s, start);
    } else {
      d := NumberFound(reals, s, start);
    }
  }

  lemma WordFound(reals: Reals, s: string, i: nat) returns (d: Doc)
    requires i <= |s| && (i == |s| || !IsBlank(s[i])) && Next(s, i).tok in {LitNull, LitTrue, LitFalse}
    ensures var c := Next(s, i); Valid(d) && i <= c.at <= |s| && s[i..c.at] == Render(d)
    ensures Meaning(reals, d) == match Next(s, i).tok case LitNull => Null case LitTrue => Bool(true) case _ => Bool(false)
  {
    hide Scan;
    MarkThere(s, i);
    d := Word(match Next(s, i).tok case LitNull => Null case LitTrue => Bool(true) case _ => Bool(false));
  }

  lemma TextFound(reals: Reals, s: string, i: nat) returns (d: Doc)
    requires i <= |s| && (i == |s| || !IsBlank(s[i])) && Next(s, i).tok.StringToken? && GetString(Next(s, i).tok.raw, 0).Ok?
    ensures var c := Next(s, i); Valid(d) && i <= c.at <= |s| && s[i..c.at] == Render(d)
    ensures Meaning(reals, d) == Str(GetString(Next(s, i).tok.raw, 0).value)
  {
    hide Scan, GetString;
    var ps := QuoteThere(s, i);
    d := Text(ps);
  }

  lemma NumberFound(reals: Reals, s: string, i: nat) returns (d: Doc)
    requires i <= |s| && (i == |s| || !IsBlank(s[i])) && var t := Next(s, i).tok; t.Unsigned? || t.Integer? || t.Real?
    ensures var c := Next(s, i); Valid(d) && i <= c.at <= |s| && s[i..c.at] == Render(d)
    ensures Meaning(reals, d) == NumberOf(reals, Next(s, i).tok)
  {
    hide Scan, NumberOf;
    var n := NumberThere(s, i);
    NumeralMeans(reals, n);
    d := Number(n);
  }

  /** A mark after blanks, found where the scanner stood at `i`. */
  lemma MarkAfter(s: string, i: nat) returns (start: nat)
    requires i <= |s| && MarkOf(Next(s, i).tok) != ""
    ensures i <= start <= |s| && Blanks(s[i..start]) && StandsAt(s, start, MarkOf(Next(s, i).tok))
    ensures Next(s, i).at == start + |MarkOf(Next(s, i).tok)| <= |s|
    ensures s[i..Next(s, i).at] == s[i..start] + MarkOf(Next(s, i).tok)
  {
    hide Scan, MarkOf;
    start := TokenStart(s, i);
    MarkThere(s, start);
    Concat(s, i, start, Next(s, i).at);
  }

  lemma Concat(s: string, i: nat, j: nat, k: nat)
    requires i <= j <= k <= |s|
    ensures s[i..k] == s[i..j] + s[j..k]
  {
  }

  lemma EmptyListSpans(reals: Reals, s: string, i: nat, start: nat, at: nat, close: nat)
    requires i <= start <= at <= close < |s| && Blanks(s[i..start]) && Blanks(s[at..close])
    requires s[start..at] == "[" && s[at..close + 1] == s[at..close] + "]"
    ensures Spans(s, i, start, EmptyList(s[at..close]), close + 1)
    ensures Meaning(reals, EmptyList(s[at..close])) == Arr([])
  {
    hide Blanks, RenderElements, RenderEntries, Values, Members, ValidElements, ValidEntries;
    Concat(s, start, at, close + 1);
  }

  lemma ListSpans(reals: Reals, s: string, i: nat, start: nat, at: nat, es: Elements, e: nat)
    requires i <= start <= at <= e <= |s| && Blanks(s[i..start]) && ValidElements(es)
    requires s[start..at] == "[" && s[at..e] == RenderElements(es) + "]"
    ensures Spans(s, i, start, List(es), e)
    ensures Meaning(reals, List(es)) == Arr([] + Values(reals, es))
  {
    hide Blanks, ValidElements, RenderElements, Values;
    Concat(s, start, at, e);
    assert [] + Values(reals, es) == Values(reals, es);
  }

  lemma ListThere(reals: Reals, s: string, i: nat, start: nat) returns (d: Doc, e: nat)
    requires i <= start <= |s| && Blanks(s[i..start]) && Next(s, start) == Next(s, i) && Next(s, i).tok == BeginArray
    requires (start == |s| || !IsBlank(s[start])) && ParseValue(reals, s, Next(s, i)).Ok?
    ensures Spans(s, i, start, d, e)
    ensures ParseValue(reals, s, Next(s, i)) == Ok((Meaning(reals, d), Next(s, e))) && e >= Next(s, i).at
    decreases Left(s, Next(s, i)), 0
  {
    hide Scan, ParseValue, ParseElements, Render, RenderElements, Valid, ValidElements, Meaning, Values, Blanks, IsBlank, Left;
    var c := Next(s, i);
    MarkThere(s, start);
    ListStep(reals, s, c);
    LeftNext(s, c);
    if Next(s, c.at).tok == EndArray {
      var close := MarkAfter(s, c.at);
      d, e := EmptyList(s[c.at..close]), close + 1;
      EmptyListSpans(reals, s, i, start, c.at, close);
    } else {
      var es;
      es, e := ElementsThere(reals, s, c.at, []);
      d := List(es);
      ListSpans(reals, s, i, start, c.at, es, e);
    }
  }

  /** An element, the mark after it, and what follows up to `e`. */
  lemma ElementSpans(s: string, i: nat, start: nat, d: Doc, end: nat, mark: nat, es: Elements, e: nat)
    requires Spans(s, i, start, d, end) && end <= mark < e <= |s| && Blanks(s[end..mark])
    requires es.before == s[i..start] && es.doc == d && es.after == s[end..mark] && (es.More? ==> ValidElements(es.rest))
    requires s[mark..mark + 1] == MarkOf(MarkAfterElement(es)) && s[mark + 1..e] == AfterElement(es)
    ensures ValidElements(es) && s[i..e] == RenderElements(es) + "]"
  {
    ElementTail(es);
    hide Render, RenderElements, Valid, Blanks, MarkOf, AfterElement;
    Pasted(s, i, start, end, mark, mark + 1, e);
  }

  lemma {:induction false} ElementsThere(reals: Reals, s: string, i: nat, done: seq<Json>) returns (es: Elements, e: nat)
    requires i <= |s| && ParseElements(reals, s, Next(s, i), done).Ok?
    ensures ValidElements(es) && i < e <= |s| && s[i..e] == RenderElements(es) + "]"
    ensures ParseElements(reals, s, Next(s, i), done) == Ok((Arr(done + Values(reals, es)), Next(s, e)))
    decreases Left(s, Next(s, i)), 2
  {
    hide Scan, ParseValue, ParseElements, Render, RenderElements, Valid, Meaning, Blanks, Left;
    ElementStep(reals, s, Next(s, i), done);
    var start, d, end := ValueThere(reals, s, i);
    var n := Next(s, end);
    var mark := MarkAfter(s, end);
    var (before, after, v) := (s[i..start], s[end..mark], Meaning(reals, d));
    if n.tok == Comma {
      LeftLess(s, i, end, n.at);
      var rest;
      rest, e := ElementsThere(reals, s, n.at, done + [v]);
      es := More(before, d, after, rest);
      Regroup(done, [v], Values(reals, rest));
    } else {
      es, e := Last(before, d, after), n.at;
      assert [v] + [] == [v];
    }
    ElementSpans(s, i, start, d, end, mark, es, e);
  }

  lemma Pasted(s: string, a: nat, b: nat, c: nat, d: nat, e: nat, f: nat)
    requires a <= b <= c <= d <= e <= f <= |s|
    ensures s[a..f] == s[a..b] + (s[b..c] + (s[c..d] + (s[d..e] + s[e..f])))
  {
    assert s[d..f] == s[d..e] + s[e..f];
    assert s[c..f] == s[c..d] + s[d..f];
    assert s[b..f] == s[b..c] + s[c..f];
  }

  lemma ElementsText(b: string, d: string, a: string, r: string)
    ensures b + (d + (a + ("," + (r + "]")))) == b + (d + (a + ("," + r))) + "]"
  {
  }

  lemma LastText(b: string, d: string, a: string)
    ensures b + (d + (a + ("]" + ""))) == b + (d + (a + "")) + "]"
  {
  }

  /** Past a value and the mark after it less of the text is left. */
  lemma LeftLess(s: string, i: nat, e: nat, at: nat)
    requires i <= |s| && Next(s, i).tok != EndOfInput && Next(s, i).at <= e <= |s| && e < at <= |s|
    ensures Left(s, Next(s, at)) < Left(s, Next(s, i))
  {
    hide Scan;
  }

  lemma EmptyTableSpans(reals: Reals, s: string, i: nat, start: nat, at: nat, close: nat)
    requires i <= start <= at <= close < |s| && Blanks(s[i..start]) && Blanks(s[at..close])
    requires s[start..at] == "{" && s[at..close + 1] == s[at..close] + "}"
    ensures Spans(s, i, start, EmptyTable(s[at..close]), close + 1)
    ensures Meaning(reals, EmptyTable(s[at..close])) == Obj(map[])
  {
    hide Blanks, RenderElements, RenderEntries, Values, Members, ValidElements, ValidEntries;
    Concat(s, start, at, close + 1);
  }

  lemma TableSpans(reals: Reals, s: string, i: nat, start: nat, at: nat, es: Entries, e: nat)
    requires i <= start <= at <= e <= |s| && Blanks(s[i..start]) && ValidEntries(es)
    requires s[start..at] == "{" && s[at..e] == RenderEntries(es) + "}"
    ensures Spans(s, i, start, Table(es), e)
    ensures Meaning(reals, Table(es)) == Obj(map[] + Members(reals, es))
  {
    hide Blanks, ValidEntries, RenderEntries, Members;
    Concat(s, start, at, e);
    assert map[] + Members(reals, es) == Members(reals, es);
  }

  lemma TableThere(reals: Reals, s: string, i: nat, start: nat) returns (d: Doc, e: nat)
    requires i <= start <= |s| && Blanks(s[i..start]) && Next(s, start) == Next(s, i) && Next(s, i).tok == BeginObject
    requires (start == |s| || !IsBlank(s[start])) && ParseValue(reals, s, Next(s, i)).Ok?
    ensures Spans(s, i, start, d, e)
    ensures ParseValue(reals, s, Next(s, i)) == Ok((Meaning(reals, d), Next(s, e))) && e >= Next(s, i).at
    decreases Left(s, Next(s, i)), 0
  {
    hide Scan, ParseValue, ParseMembers, Render, RenderEntries, Valid, ValidEntries, Meaning, Members, Blanks, IsBlank, Left;
    var c := Next(s, i);
    MarkThere(s, start);
    TableStep(reals, s, c);
    LeftNext(s, c);
    if Next(s, c.at).tok == EndObject {
      var close := MarkAfter(s, c.at);
      d, e := EmptyTable(s[c.at..close]), close + 1;
      EmptyTableSpans(reals, s, i, start, c.at, close);
    } else {
      var es;
      es, e := EntriesThere(reals, s, c.at, map[]);
      d := Table(es);
      TableSpans(reals, s, i, start, c.at, es, e);
    }
  }

  lemma MemberFound(reals: Reals, s: string, c: State)
    requires c.at <= |s| && ParseMember(reals, s, c).Ok?
    ensures c.tok.StringToken? && GetString(c.tok.raw, 0).Ok? && Next(s, c.at).tok == Colon
    ensures var colon := Next(s, c.at); var p := ParseValue(reals, s, Next(s, colon.at));
      p.Ok? && ParseMember(reals, s, c).value == (GetString(c.tok.raw, 0).value, p.value.0, p.value.1)
  {
    hide Scan, ParseValue, GetString;
  }

  lemma EntrySpans(s: string, i: nat, q: nat, key: seq<Piece>, m: nat, colon: nat, start: nat, d: Doc, end: nat)
    requires i <= q <= m <= colon < start <= end <= |s| && s[q..m] == Quote(key) && PiecesOk(key) && s[colon..colon + 1] == ":"
    requires Blanks(s[i..q]) && Blanks(s[m..colon]) && Spans(s, colon + 1, start, d, end)
    ensures var en := Entry(s[i..q], key, s[m..colon], s[colon + 1..start], d, ""); ValidEntry(en) && s[i..end] == RenderEntry(en)
  {
    hide Quote, PiecesOk, Render, Valid;
    Pasted(s, i, q, m, colon, colon + 1, end);
    Concat(s, colon + 1, start, end);
    assert Render(d) + "" == Render(d);
  }

  /** A member, up to its value. */
  lemma {:induction false} EntryThere(reals: Reals, s: string, i: nat) returns (en: Entry, e: nat)
    requires i <= |s| && ParseMember(reals, s, Next(s, i)).Ok?
    ensures ValidEntry(en) && i < e <= |s| && en.after == "" && s[i..e] == RenderEntry(en) && Next(s, i).at <= e
    ensures Next(s, i).tok != EndOfInput
    ensures ParseMember(reals, s, Next(s, i)) == Ok((Meant(en.key), Meaning(reals, en.doc), Next(s, e)))
    decreases Left(s, Next(s, i)), 2
  {
    hide Scan, ParseValue, ParseMember, GetString, Spelled, Meant, PiecesOk, Meaning, Valid, Render, Quote, ValidEntry, RenderEntry;
    var c := Next(s, i);
    MemberFound(reals, s, c);
    var q := TokenStart(s, i);
    var key := QuoteThere(s, q);
    var colon := MarkAfter(s, c.at);
    LeftLess(s, i, c.at, colon + 1);
    var start, d, end := ValueThere(reals, s, colon + 1);
    en, e := Entry(s[i..q], key, s[c.at..colon], s[colon + 1..start], d, ""), end;
    EntrySpans(s, i, q, key, c.at, colon, start, d, end);
  }

  /** Blanks after its value belong to a member too. */
  lemma EntryAfter(reals: Reals, en: Entry, after: string) returns (full: Entry)
    requires ValidEntry(en) && en.after == "" && Blanks(after)
    ensures ValidEntry(full) && RenderEntry(full) == RenderEntry(en) + after
    ensures Meant(full.key) == Meant(en.key) && Meaning(reals, full.doc) == Meaning(reals, en.doc)
  {
    hide Render, Quote, Meaning, Meant;
    full := en.(after := after);
    EntryText(en.before, Quote(en.key), en.middle, en.gap, Render(en.doc), "", after);
    assert "" + after == after;
  }

  lemma {:induction false} EntriesThere(reals: Reals, s: string, i: nat, done: map<string, Json>) returns (es: Entries, e: nat)
    requires i <= |s| && ParseMembers(reals, s, Next(s, i), done).Ok?
    ensures ValidEntries(es) && i < e <= |s| && s[i..e] == RenderEntries(es) + "}"
    ensures ParseMembers(reals, s, Next(s, i), done) == Ok((Obj(done + Members(reals, es)), Next(s, e)))
    decreases Left(s, Next(s, i)), 3
  {
    hide Scan, ParseMember, ParseMembers, RenderEntry, Meant, Meaning, ValidEntry, Blanks, StandsAt;
    MemberStep(reals, s, Next(s, i), done);
    var first, end := EntryThere(reals, s, i);
    EntryBlank(first);
    var n := Next(s, end);
    var mark := MarkAfter(s, end);
    var en := EntryAfter(reals, first, s[end..mark]);
    EntryBlank(en);
    var (k, v) := (Meant(en.key), Meaning(reals, en.doc));
    EntriesPasted(s, i, end, mark, n.at);
    if n.tok == Comma {
      LeftLess(s, i, end, n.at);
      var rest;
      rest, e := EntriesThere(reals, s, n.at, done[k := v]);
      es := Further(en, rest);
      Concat(s, i, n.at, e);
      Regroup(RenderEntry(en), ",", RenderEntries(rest) + "}");
    } else {
      es, e := Final(en), n.at;
    }
    EntriesText(es);
    MembersGrow(reals, es, done);
  }

  lemma EntriesPasted(s: string, i: nat, end: nat, mark: nat, at: nat)
    requires i <= end <= mark <= at <= |s|
    ensures s[i..at] == (s[i..end] + s[end..mark]) + s[mark..at]
  {
  }

  // ---------------------------------------------------------------- the law

  lemma {:induction false} ValueFails(reals: Reals, s: string, c: State)
    requires c.at <= |s| && ParseValue(reals, s, c).Err?
    ensures ParseValue(reals, s, c) == Err(InvalidArgument)
    decreases Left(s, c), 0
  {
    hide Scan, GetString, ParseValue, ParseElements, ParseMembers, NumberOf;
    ScalarStep(reals, s, c);
    if c.tok == BeginArray {
      ListStep(reals, s, c);
      LeftNext(s, c);
      if ParseElements(reals, s, Next(s, c.at), []).Err? { ElementsFail(reals, s, Next(s, c.at), []); }
    } else if c.tok == BeginObject {
      TableStep(reals, s, c);
      LeftNext(s, c);
      if ParseMembers(reals, s, Next(s, c.at), map[]).Err? { MembersFail(reals, s, Next(s, c.at), map[]); }
    } else if c.tok.StringToken? {
      GetFails(c.tok.raw, 0);
    }
  }

  lemma LeftNext(s: string, c: State)
    requires c.at <= |s| && c.tok != EndOfInput
    ensures Left(s, Next(s, c.at)) < Left(s, c)
  {
    hide Scan;
  }

  lemma {:induction false} ElementsFail(reals: Reals, s: string, c: State, done: seq<Json>)
    requires c.at <= |s| && ParseElements(reals, s, c, done).Err?
    ensures ParseElements(reals, s, c, done) == Err(InvalidArgument)
    decreases Left(s, c), 1
  {
    hide Scan, ParseValue, ParseElements;
    ElementStep(reals, s, c, done);
    var p := ParseValue(reals, s, c);
    if p.Err? {
      ValueFails(reals, s, c);
    } else if p.value.1.tok == Comma {
      LeftAfter(s, c, p.value.1);
      ElementsFail(reals, s, Next(s, p.value.1.at), done + [p.value.0]);
    }
  }

  lemma LeftAfter(s: string, c: State, n: State)
    requires c.tok != EndOfInput && n.tok != EndOfInput && c.at <= n.at <= |s|
    ensures Left(s, Next(s, n.at)) < Left(s, c)
  {
    hide Scan;
  }

  lemma {:induction false} MembersFail(reals: Reals, s: string, c: State, done: map<string, Json>)
    requires c.at <= |s| && ParseMembers(reals, s, c, done).Err?
    ensures ParseMembers(reals, s, c, done) == Err(InvalidArgument)
    decreases Left(s, c), 1
  {
    hide Scan, ParseValue, ParseMember, ParseMembers;
    MemberStep(reals, s, c, done);
    var p := ParseMember(reals, s, c);
    if p.Err? {
      MemberFails(reals, s, c);
    } else if p.value.2.tok == Comma {
      LeftAfter(s, c, p.value.2);
      MembersFail(reals, s, Next(s, p.value.2.at), done[p.value.0 := p.value.1]);
    }
  }

  lemma {:induction false} MemberFails(reals: Reals, s: string, c: State)
    requires c.at <= |s| && ParseMember(reals, s, c).Err?
    ensures ParseMember(reals, s, c) == Err(InvalidArgument)
    decreases Left(s, c), 0
  {
    hide Scan, ParseValue, GetString;
    if c.tok.StringToken? {
      if GetString(c.tok.raw, 0).Err? {
        GetFails(c.tok.raw, 0);
      } else {
        var colon := Next(s, c.at);
        if colon.tok == Colon {
          LeftAfter(s, c, colon);
          if ParseValue(reals, s, Next(s, colon.at)).Err? { ValueFails(reals, s, Next(s, colon.at)); }
        }
      }
    }
  }

  lemma {:induction false} GetFails(raw: string, i: nat)
    requires GetString(raw, i).Err?
    ensures GetString(raw, i) == Err(InvalidArgument)
    decreases |raw| - i
  {
    hide OneEscape;
    if i < |raw| {
      if raw[i] != '\\' {
        GetFails(raw, i + 1);
      } else if OneEscape(raw, i).Err? {
        EscapeFails(raw, i);
      } else {
        GetFails(raw, i + OneEscape(raw, i).value.1);
      }
    }
  }

  lemma EscapeFails(raw: string, i: nat)
    requires i < |raw| && OneEscape(raw, i).Err?
    ensures OneEscape(raw, i) == Err(InvalidArgument)
  {
    HexBounded(Four(raw, i + 2));
    hide HexValue, Four;
  }

  lemma HexBounded(h: string)
    requires |h| <= 4
    ensures HexValue(h, 0) <= 0xffff
  {
    HexAtMost(h, 0, 1);
  }

  lemma {:induction false} HexAtMost(h: string, acc: nat, span: nat)
    requires |h| <= 4 && acc < span && (span == 1 || span == 16 || span == 256 || span == 4096 || span == 65536)
    requires |h| > 0 ==> span < 65536
    requires |h| > 1 ==> span < 4096
    requires |h| > 2 ==> span < 256
    requires |h| > 3 ==> span < 16
    ensures HexValue(h, acc) < 65536
    decreases |h|
  {
    if h != "" && HexDigit(h[0]) >= 0 {
      assert HexDigit(h[0]) < 16;
      HexAtMost(h[1..], 16 * acc + HexDigit(h[0]), 16 * span);
    }
  }

  /** Where the parser, having read a value, sees the end of its input. */
  lemma EndThere(s: string, e: nat) returns (stop: nat)
    requires e <= |s| && Next(s, e).tok == EndOfInput
    ensures e <= stop <= |s| && Blanks(s[e..stop]) && (stop == |s| || s[stop] as int == 0)
  {
    stop := TokenStart(s, e);
    TokenKind(s, stop);
  }

  lemma EndScans(s: string, e: nat, trail: string, rest: string)
    requires StandsAt(s, e, trail + rest) && e + |trail + rest| == |s| && Blanks(trail) && (rest == "" || rest[0] as int == 0)
    ensures e <= |s| && Next(s, e).tok == EndOfInput && Follows(s, e)
  {
    hide StringEnd, ScanNumber;
    StandsSplit(s, e, trail, rest);
    StandsElements(s, e, trail + rest);
    if trail + rest != "" { assert (trail + rest)[0] == s[e + 0]; }
    BlanksSkipped(s, e, trail);
    if rest != "" { StandsElements(s, e + |trail|, rest); assert rest[0] == s[e + |trail| + 0]; }
  }

  /**
   Parsing succeeds exactly on the documents of the grammar, up to a null character, and gives the value the
   document means. Every other text is refused as an invalid argument.
   */
  lemma ParsesTheGrammar(reals: Reals, s: string)
    ensures forall v :: Parse(reals, s) == Ok(v) <==> IsText(reals, s, v)
    ensures Parse(reals, s).Err? ==> Parse(reals, s) == Err(InvalidArgument)
  {
    forall v ensures Parse(reals, s) == Ok(v) <==> IsText(reals, s, v) {
      if Parse(reals, s) == Ok(v) { ParsedIsText(reals, s, v); }
      if IsText(reals, s, v) { TextParses(reals, s, v); }
    }
    hide ParseValue, Scan;
    if ParseValue(reals, s, Next(s, 0)).Err? { ValueFails(reals, s, Next(s, 0)); }
  }

  lemma ParsedIsText(reals: Reals, s: string, v: Json)
    requires Parse(reals, s) == Ok(v)
    ensures IsText(reals, s, v)
  {
    hide ParseValue, Scan, Render, Valid, Meaning;
    var start, d, e := ValueThere(reals, s, 0);
    var stop := EndThere(s, e);
    var (lead, trail, rest) := (s[0..start], s[e..stop], s[stop..]);
    assert s == lead + (Render(d) + (trail + rest)) by { Pasted(s, 0, start, e, stop, |s|, |s|); assert s[0..|s|] == s && s[stop..|s|] + s[|s|..|s|] == rest; }
  }

  lemma TextParses(reals: Reals, s: string, v: Json)
    requires IsText(reals, s, v)
    ensures Parse(reals, s) == Ok(v)
  {
    hide ParseValue, Scan, Render, Valid, Meaning, Follows, Blanks;
    var lead: string, d: Doc, trail: string, rest: string :|
      && s == lead + (Render(d) + (trail + rest)) && Blanks(lead) && Valid(d) && Blanks(trail)
      && Meaning(reals, d) == v && (rest == "" || rest[0] as int == 0);
    assert StandsAt(s, 0, lead + (Render(d) + (trail + rest))) by { assert s[0..|s|] == s; }
    StandsSplit(s, 0, lead, Render(d) + (trail + rest));
    StandsSplit(s, |lead|, Render(d), trail + rest);
    EndScans(s, |lead| + |Render(d)|, trail, rest);
    BlanksSkipped(s, 0, lead);
    DocReads(reals, s, |lead|, d);
  }
}
