/** The recursive descent parser: one token ahead, and an object whose methods move the lexer along. */
module JsonParser {
  import opened Bytes
  import opened Decimal
  import opened JsonValue
  import opened JsonEscape
  import opened JsonLexer

  /** What strtod makes of a number's text: a double, or null when it is not finite. Left to the platform. */
  type Reals = string -> Json

  /** A value, then the token after it and the position after that token. */
  datatype State = State(tok: Token, at: nat)

  type Parsed = Result<(Json, State)>

  function Next(s: string, at: nat): (n: State)
    requires at <= |s|
    ensures at <= n.at <= |s| && (n.tok == EndOfInput || at < n.at)
  {
    State(Scan(s, at).0, Scan(s, at).1)
  }

  /** Text left, counting the token at hand. */
  function Left(s: string, c: State): nat
    requires c.at <= |s|
  {
    if c.tok == EndOfInput then 0 else |s| - c.at + 1
  }

  /** get_number: whole numbers that fit their type, all others as strtod reads them. */
  function NumberOf(reals: Reals, tok: Token): Json
    requires tok.Unsigned? || tok.Integer? || tok.Real?
  {
    match tok
    case Unsigned(text) => if ReadDigits(text, 0) < Span(8) then Uint(ReadDigits(text, 0)) else reals(text)
    case Integer(text) =>
      var n := -(ReadDigits(if text == "" then text else text[1..], 0) as int);
      if FitsSigned(n, 8) then Int(n) else reals(text)
    case Real(text) => reals(text)
  }

  /** A value was there, and the parser stands at or after where it began. */
  predicate Within(r: Parsed, s: string, c: State) {
    r.Ok? ==> c.tok != EndOfInput && c.at <= r.value.1.at <= |s|
  }

  /** parse_internal, at token `c.tok`. */
  function ParseValue(reals: Reals, s: string, c: State): (r: Parsed)
    requires c.at <= |s|
    ensures Within(r, s, c)
    decreases Left(s, c), 0
  {
    match c.tok
    case BeginObject =>
      var n := Next(s, c.at);
      if n.tok == EndObject then Ok((Obj(map[]), Next(s, n.at)))
      else if n.tok == Comma then Err(InvalidArgument)
      else ParseMembers(reals, s, n, map[])
    case BeginArray =>
      var n := Next(s, c.at);
      if n.tok == EndArray then Ok((Arr([]), Next(s, n.at)))
      else if n.tok == Comma then Err(InvalidArgument)
      else ParseElements(reals, s, n, [])
    case LitNull => Ok((Null, Next(s, c.at)))
    case LitTrue => Ok((Bool(true), Next(s, c.at)))
    case LitFalse => Ok((Bool(false), Next(s, c.at)))
    case StringToken(raw) =>
      (match GetString(raw, 0)
       case Err(e) => Err(e)
       case Ok(t) => Ok((Str(t), Next(s, c.at))))
    case Unsigned(_) => Ok((NumberOf(reals, c.tok), Next(s, c.at)))
    case Integer(_) => Ok((NumberOf(reals, c.tok), Next(s, c.at)))
    case Real(_) => Ok((NumberOf(reals, c.tok), Next(s, c.at)))
    case _ => Err(InvalidArgument)
  }

  /** The elements from the one at `c` on, after those in `done`. */
  function ParseElements(reals: Reals, s: string, c: State, done: seq<Json>): (r: Parsed)
    requires c.at <= |s|
    ensures Within(r, s, c)
    decreases Left(s, c), 1
  {
    match ParseValue(reals, s, c)
    case Err(e) => Err(e)
    case Ok((v, n)) =>
      if n.tok == Comma then ParseElements(reals, s, Next(s, n.at), done + [v])
      else if n.tok == EndArray then Ok((Arr(done + [v]), Next(s, n.at)))
      else Err(InvalidArgument)
  }

  /** A key, a colon and a value. */
  function ParseMember(reals: Reals, s: string, c: State): (r: Result<(string, Json, State)>)
    requires c.at <= |s|
    ensures r.Ok? ==> c.tok != EndOfInput && c.at <= r.value.2.at <= |s|
    decreases Left(s, c), 0
  {
    if !c.tok.StringToken? then Err(InvalidArgument) else
      match GetString(c.tok.raw, 0)
      case Err(e) => Err(e)
      case Ok(key) =>
        var colon := Next(s, c.at);
        if colon.tok != Colon then Err(InvalidArgument) else
          match ParseValue(reals, s, Next(s, colon.at))
          case Err(e) => Err(e)
          case Ok((v, n)) => Ok((key, v, n))
  }

  function ParseMembers(reals: Reals, s: string, c: State, done: map<string, Json>): (r: Parsed)
    requires c.at <= |s|
    ensures Within(r, s, c)
    decreases Left(s, c), 1
  {
    match ParseMember(reals, s, c)
    case Err(e) => Err(e)
    case Ok((k, v, n)) =>
      if n.tok == Comma then ParseMembers(reals, s, Next(s, n.at), done[k := v])
      else if n.tok == EndObject then Ok((Obj(done[k := v]), Next(s, n.at)))
      else Err(InvalidArgument)
  }

  /** parse: one value and nothing after it. */
  function Parse(reals: Reals, s: string): Result<Json> {
    match ParseValue(reals, s, Next(s, 0))
    case Err(e) => Err(e)
    case Ok((v, n)) => if n.tok == EndOfInput then Ok(v) else Err(InvalidArgument)
  }

  // ---------------------------------------------------------------- the parser as an object

  class Parser {
    const reals: Reals
    const text: string
    var cursor: nat
    var lastToken: Token

    ghost predicate Valid()
      reads this
    {
      cursor <= |text|
    }

    function At(): State
      reads this
    {
      State(lastToken, cursor)
    }

    constructor (reals: Reals, text: string)
      ensures Valid() && this.reals == reals && this.text == text && cursor == 0
    {
      this.reals := reals;
      this.text := text;
      cursor := 0;
      lastToken := EndOfInput;
    }

    method GetToken()
      requires Valid()
      modifies this
      ensures Valid() && At() == Next(text, old(cursor))
    {
      lastToken, cursor := Scan(text, cursor).0, Scan(text, cursor).1;
    }

    /** Reads the value at the last token; the parser then stands at the token after it. */
    method ParseInternal() returns (r: Result<Json>)
      requires Valid()
      modifies this
      ensures Valid()
      ensures var p := ParseValue(reals, text, old(At()));
        (r.Ok? <==> p.Ok?) && (r.Ok? ==> p.value == (r.value, At())) && (r.Err? ==> r.error == p.error)
      decreases Left(text, At()), 0
    {
      hide GetString, Scan, NumberOf, ParseElements, ParseMembers;
      match lastToken
      case BeginObject =>
        GetToken();
        if lastToken == EndObject { GetToken(); return Ok(Obj(map[])); }
        if lastToken == Comma { return Err(InvalidArgument); }
        r := ParseObject();
      case BeginArray =>
        GetToken();
        if lastToken == EndArray { GetToken(); return Ok(Arr([])); }
        if lastToken == Comma { return Err(InvalidArgument); }
        r := ParseArray();
      case LitNull => GetToken(); return Ok(Null);
      case LitTrue => GetToken(); return Ok(Bool(true));
      case LitFalse => GetToken(); return Ok(Bool(false));
      case StringToken(raw) =>
        var t := GetStringLoop(raw);
        if t.Err? { return Err(t.error); }
        GetToken();
        return Ok(Str(t.value));
      case Unsigned(_) => r := Ok(NumberOf(reals, lastToken)); GetToken();
      case Integer(_) => r := Ok(NumberOf(reals, lastToken)); GetToken();
      case Real(_) => r := Ok(NumberOf(reals, lastToken)); GetToken();
      case _ => return Err(InvalidArgument);
    }

    /** The loop over the elements of an array, then its closing bracket. */
    method ParseArray() returns (r: Result<Json>)
      requires Valid()
      modifies this
      ensures Valid()
      ensures var p := ParseElements(reals, text, old(At()), []);
        (r.Ok? <==> p.Ok?) && (r.Ok? ==> p.value == (r.value, At())) && (r.Err? ==> r.error == p.error)
      decreases Left(text, At()), 1
    {
      hide Scan, ParseValue;
      ghost var whole := ParseElements(reals, text, At(), []);
      ghost var start := Left(text, At());
      var done: seq<Json> := [];
      while true
        invariant Valid() && Left(text, At()) <= start
        invariant ParseElements(reals, text, At(), done) == whole
        decreases Left(text, At())
      {
        var v := ParseInternal();
        if v.Err? { return Err(v.error); }
        if lastToken != Comma {
          if lastToken != EndArray { return Err(InvalidArgument); }
          GetToken();
          return Ok(Arr(done + [v.value]));
        }
        done := done + [v.value];
        GetToken();
      }
    }

    method ParseObject() returns (r: Result<Json>)
      requires Valid()
      modifies this
      ensures Valid()
      ensures var p := ParseMembers(reals, text, old(At()), map[]);
        (r.Ok? <==> p.Ok?) && (r.Ok? ==> p.value == (r.value, At())) && (r.Err? ==> r.error == p.error)
      decreases Left(text, At()), 1
    {
      hide Scan, ParseValue, GetString;
      ghost var whole := ParseMembers(reals, text, At(), map[]);
      ghost var start := Left(text, At());
      var done: map<string, Json> := map[];
      while true
        invariant Valid() && Left(text, At()) <= start
        invariant ParseMembers(reals, text, At(), done) == whole
        decreases Left(text, At())
      {
        if !lastToken.StringToken? { return Err(InvalidArgument); }
        var key := GetStringLoop(lastToken.raw);
        if key.Err? { return Err(key.error); }
        GetToken();
        if lastToken != Colon { return Err(InvalidArgument); }
        GetToken();
        var v := ParseInternal();
        if v.Err? { return Err(v.error); }
        done := done[key.value := v.value];
        if lastToken != Comma {
          if lastToken != EndObject { return Err(InvalidArgument); }
          GetToken();
          return Ok(Obj(done));
        }
        GetToken();
      }
    }
  }

  method ParseText(reals: Reals, text: string) returns (r: Result<Json>)
    ensures r == Parse(reals, text)
  {
    hide ParseValue, Scan;
    var parser := new Parser(reals, text);
    parser.GetToken();
    r := parser.ParseInternal();
    if r.Ok? && parser.lastToken != EndOfInput { return Err(InvalidArgument); }
  }
}
