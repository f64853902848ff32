/**
 JSON text as a grammar (RFC 7159): a document is spelled with any blanks, escapes and digits the grammar
 allows, and means one value. Nothing here knows of a scanner or a parser.
 */
module JsonGrammar {
  import opened Bytes
  import opened Decimal
  import opened JsonValue
  import opened JsonEscape
  import opened JsonLexer
  import opened JsonParser

  // ---------------------------------------------------------------- strings (section 7)

  /** One part of a string: a character as it is, a short escape, a \u escape, or two that make a surrogate pair. */
  datatype Piece = Plain(bytes: string) | Short(letter: char) | Unit(hex: string) | Pair(high: string, low: string)

  predicate IsHex4(h: string) {
    |h| == 4 && forall k :: 0 <= k < 4 ==> HexDigit(h[k]) >= 0
  }

  function HexOf(h: string): nat
    requires IsHex4(h)
  {
    HexDigit(h[0]) * 4096 + HexDigit(h[1]) * 256 + HexDigit(h[2]) * 16 + HexDigit(h[3])
  }

  /** One character: ASCII but no control character, quote or backslash, or well-formed UTF-8. */
  predicate PlainOk(bytes: string) {
    bytes != "" &&
    if bytes[0] as int < 0x80 then |bytes| == 1 && bytes[0] as int >= 0x20 && bytes[0] != '"' && bytes[0] != '\\'
    else Utf8Length(bytes, 0) == |bytes|
  }

  predicate PieceOk(p: Piece) {
    match p
    case Plain(b) => PlainOk(b)
    case Short(c) => c in "\"\\/bfnrt"
    case Unit(h) => IsHex4(h) && !HighSurrogate(HexOf(h)) && !LowSurrogate(HexOf(h))
    case Pair(h, l) => IsHex4(h) && IsHex4(l) && HighSurrogate(HexOf(h)) && LowSurrogate(HexOf(l))
  }

  function Spell(p: Piece): string {
    match p
    case Plain(b) => b
    case Short(c) => ['\\', c]
    case Unit(h) => "\\u" + h
    case Pair(h, l) => "\\u" + h + "\\u" + l
  }

  /** The control characters the letters of short escapes stand for. */
  function ShortMeans(letter: char): char {
    if letter == 'b' then BACKSPACE else if letter == 'f' then FORMFEED else if letter == 'n' then '\n'
    else if letter == 'r' then '\r' else if letter == 't' then '\t' else letter
  }

  function Utf8Of(cp: nat): string
    requires cp <= 0x10ffff
  {
    Utf8(cp).value
  }

  function Means(p: Piece): string
    requires PieceOk(p)
  {
    match p
    case Plain(b) => b
    case Short(c) => [ShortMeans(c)]
    case Unit(h) => Utf8Of(HexOf(h))
    case Pair(h, l) => Utf8Of(0x10000 + (HexOf(h) - 0xd800) * 1024 + (HexOf(l) - 0xdc00))
  }

  predicate PiecesOk(ps: seq<Piece>) {
    forall p :: p in ps ==> PieceOk(p)
  }

  function Spelled(ps: seq<Piece>): string {
    if ps == [] then "" else Spell(ps[0]) + Spelled(ps[1..])
  }

  function Meant(ps: seq<Piece>): string
    requires PiecesOk(ps)
  {
    if ps == [] then "" else Means(ps[0]) + Meant(ps[1..])
  }

  // ---------------------------------------------------------------- numbers (section 6)

  predicate AllDigits(s: string) {
    s != "" && forall k :: 0 <= k < |s| ==> IsDigit(s[k])
  }

  datatype Numeral = Numeral(negative: bool, whole: string, fraction: string, exponent: string) {
    /** No leading zero; a fraction is a point and digits, an exponent a letter, perhaps a sign, and digits. */
    predicate Ok() {
      && AllDigits(whole) && (whole[0] == '0' ==> |whole| == 1)
      && (fraction == "" || (fraction[0] == '.' && AllDigits(fraction[1..])))
      && (exponent == "" ||
           (exponent[0] in "eE" &&
              (AllDigits(exponent[1..]) || (|exponent| > 1 && exponent[1] in "+-" && AllDigits(exponent[2..])))))
    }

    function Text(): string {
      (if negative then "-" else "") + whole + fraction + exponent
    }

    /** A whole number that fits its type; any other is what the platform reads. */
    function Value(reals: Reals): Json {
      var n: int := ReadDigits(whole, 0);
      if fraction == "" && exponent == "" && (if negative then FitsSigned(-n, 8) else n < Span(8))
      then (if negative then Int(-n) else Uint(n))
      else reals(Text())
    }
  }

  // ---------------------------------------------------------------- values (sections 2 to 5)

  predicate Blanks(s: string) {
    forall k :: 0 <= k < |s| ==> s[k] in " \t\n\r"
  }

  datatype Doc =
    | Word(j: Json)
    | Number(numeral: Numeral)
    | Text(pieces: seq<Piece>)
    | EmptyList(gap: string)
    | List(elements: Elements)
    | EmptyTable(gap: string)
    | Table(entries: Entries)

  datatype Elements =
    | Last(before: string, doc: Doc, after: string)
    | More(before: string, doc: Doc, after: string, rest: Elements)

  datatype Entries =
    | Final(entry: Entry)
    | Further(entry: Entry, others: Entries)

  datatype Entry = Entry(before: string, key: seq<Piece>, middle: string, gap: string, doc: Doc, after: string)

  predicate Valid(d: Doc) {
    match d
    case Word(j) => j.Null? || j.Bool?
    case Number(n) => n.Ok()
    case Text(ps) => PiecesOk(ps)
    case EmptyList(g) => Blanks(g)
    case List(es) => ValidElements(es)
    case EmptyTable(g) => Blanks(g)
    case Table(es) => ValidEntries(es)
  }

  predicate ValidElements(es: Elements) {
    Blanks(es.before) && Valid(es.doc) && Blanks(es.after) && (es.More? ==> ValidElements(es.rest))
  }

  predicate ValidEntry(e: Entry) {
    Blanks(e.before) && PiecesOk(e.key) && Blanks(e.middle) && Blanks(e.gap) && Valid(e.doc) && Blanks(e.after)
  }

  predicate ValidEntries(es: Entries) {
    ValidEntry(es.entry) && (es.Further? ==> ValidEntries(es.others))
  }

  function Quote(ps: seq<Piece>): string {
    "\"" + (Spelled(ps) + "\"")
  }

  function WordText(j: Json): string {
    if j.Null? then "null" else if j == Bool(true) then "true" else "false"
  }

  function Render(d: Doc): string {
    match d
    case Word(j) => WordText(j)
    case Number(n) => n.Text()
    case Text(ps) => Quote(ps)
    case EmptyList(g) => "[" + (g + "]")
    case List(es) => "[" + (RenderElements(es) + "]")
    case EmptyTable(g) => "{" + (g + "}")
    case Table(es) => "{" + (RenderEntries(es) + "}")
  }

  function RenderElements(es: Elements): string {
    es.before + (Render(es.doc) + (es.after + if es.More? then "," + RenderElements(es.rest) else ""))
  }

  function RenderEntry(e: Entry): string {
    e.before + (Quote(e.key) + (e.middle + (":" + (e.gap + (Render(e.doc) + e.after)))))
  }

  function RenderEntries(es: Entries): string {
    RenderEntry(es.entry) + if es.Further? then "," + RenderEntries(es.others) else ""
  }

  function Meaning(reals: Reals, d: Doc): Json
    requires Valid(d)
  {
    match d
    case Word(j) => j
    case Number(n) => n.Value(reals)
    case Text(ps) => Str(Meant(ps))
    case EmptyList(_) => Arr([])
    case List(es) => Arr(Values(reals, es))
    case EmptyTable(_) => Obj(map[])
    case Table(es) => Obj(Members(reals, es))
  }

  function Values(reals: Reals, es: Elements): seq<Json>
    requires ValidElements(es)
  {
    [Meaning(reals, es.doc)] + if es.More? then Values(reals, es.rest) else []
  }

  /** Of members with the same name the last one counts. */
  function Members(reals: Reals, es: Entries): map<string, Json>
    requires ValidEntries(es)
  {
    var e := es.entry;
    assert ValidEntry(e);
    map[Meant(e.key) := Meaning(reals, e.doc)] + if es.Further? then Members(reals, es.others) else map[]
  }

  /** `s` is a document that means `v`, with blanks around it; a null character ends the text. */
  ghost predicate IsText(reals: Reals, s: string, v: Json) {
    exists lead: string, d: Doc, trail: string, rest: string ::
      && s == lead + (Render(d) + (trail + rest)) && Blanks(lead) && Valid(d) && Blanks(trail)
      && Meaning(reals, d) == v && (rest == "" || rest[0] as int == 0)
  }
}
