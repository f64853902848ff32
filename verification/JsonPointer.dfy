/** JSON Pointers: the text form of a list of reference tokens (sections 3 and 4 of RFC 6901). */
module JsonPointer {
  import opened Parts
  import opened JsonValue
  import opened JsonText

  type Tokens = seq<string>

  /** The text of a pointer, accumulated token by token. */
  function ToString(toks: Tokens): string
    decreases |toks|
  {
    if toks == [] then "" else ToString(toks[..|toks| - 1]) + "/" + Escape(toks[|toks| - 1])
  }

  /** The pieces between slashes. */
  function Pieces(s: string): (r: seq<string>)
    ensures r != []
    decreases |s|
  {
    if s == "" then [""]
    else if s[0] == '/' then [""] + Pieces(s[1..])
    else var p := Pieces(s[1..]); [[s[0]] + p[0]] + p[1..]
  }

  function UnescapeAll(ps: seq<string>): (r: Tokens)
    ensures |r| == |ps| && forall i :: 0 <= i < |ps| ==> r[i] == Unescape(ps[i])
  {
    seq(|ps|, i requires 0 <= i < |ps| => Unescape(ps[i]))
  }

  /** What the constructor of a pointer makes of its text. */
  function Split(s: string): Result<Tokens> {
    if s == "" then Ok([])
    else if s[0] != '/' then Err(DomainError)
    else if forall i :: 0 <= i < |Pieces(s[1..])| ==> WellEscaped(Pieces(s[1..])[i]) then Ok(UnescapeAll(Pieces(s[1..])))
    else Err(DomainError)
  }

  lemma {:induction false} PiecesOne(p: string)
    requires '/' !in p
    ensures Pieces(p) == [p]
    decreases |p|
  {
    if p != "" {
      PiecesOne(p[1..]);
      assert [p[0]] + p[1..] == p;
    }
  }

  lemma {:induction false} PiecesFirst(p: string, rest: string)
    requires '/' !in p
    ensures Pieces(p + "/" + rest) == [p] + Pieces(rest)
    decreases |p|
  {
    var s := p + "/" + rest;
    if p == "" {
      assert s[1..] == rest;
    } else {
      assert s[1..] == p[1..] + "/" + rest;
      PiecesFirst(p[1..], rest);
      assert [p[0]] + p[1..] == p;
    }
  }

  lemma {:induction false} PiecesClean(s: string)
    ensures forall i :: 0 <= i < |Pieces(s)| ==> '/' !in Pieces(s)[i]
    decreases |s|
  {
    if s != "" {
      PiecesClean(s[1..]);
    }
  }

  /** The text from the first token on: the same text, built from the front. */
  function Joined(ps: seq<string>): string
    decreases |ps|
  {
    if ps == [] then "" else "/" + ps[0] + Joined(ps[1..])
  }

  function EscapeAll(toks: Tokens): (r: seq<string>)
    ensures |r| == |toks| && forall i :: 0 <= i < |toks| ==> r[i] == Escape(toks[i])
  {
    seq(|toks|, i requires 0 <= i < |toks| => Escape(toks[i]))
  }

  lemma {:induction false} JoinedSnoc(ps: seq<string>, p: string)
    ensures Joined(ps + [p]) == Joined(ps) + "/" + p
    decreases |ps|
  {
    if ps == [] {
      assert ps + [p] == [p] && [p][1..] == [];
    } else {
      JoinedSnoc(ps[1..], p);
      assert (ps + [p])[1..] == ps[1..] + [p];
    }
  }

  lemma {:induction false} ToStringJoined(toks: Tokens)
    ensures ToString(toks) == Joined(EscapeAll(toks))
    decreases |toks|
  {
    if toks != [] {
      var front, last := toks[..|toks| - 1], toks[|toks| - 1];
      ToStringJoined(front);
      JoinedSnoc(EscapeAll(front), Escape(last));
      assert EscapeAll(toks) == EscapeAll(front) + [Escape(last)];
    }
  }

  lemma {:induction false} PiecesJoined(ps: seq<string>)
    requires ps != [] && forall i :: 0 <= i < |ps| ==> '/' !in ps[i]
    ensures Joined(ps)[0] == '/' && Pieces(Joined(ps)[1..]) == ps
    decreases |ps|
  {
    if |ps| == 1 {
      assert Joined(ps[1..]) == "";
      assert Joined(ps)[1..] == ps[0];
      PiecesOne(ps[0]);
    } else {
      PiecesJoined(ps[1..]);
      var rest := Joined(ps[1..]);
      assert rest == "/" + rest[1..];
      assert Joined(ps)[1..] == ps[0] + "/" + rest[1..];
      PiecesFirst(ps[0], rest[1..]);
    }
  }

  /** A character put at the front of the first piece comes right after the first slash. */
  lemma JoinedCons(c: char, p: seq<string>)
    requires p != []
    ensures Joined([[c] + p[0]] + p[1..]) == "/" + ([c] + Joined(p)[1..])
  {
    var q := [[c] + p[0]] + p[1..];
    var rest := Joined(p[1..]);
    assert q[1..] == p[1..] && Joined(q) == "/" + q[0] + rest && Joined(p) == "/" + p[0] + rest;
    hide Joined;
    Regroup("/", p[0], rest);
    assert Joined(p)[1..] == p[0] + rest;
    Regroup([c], p[0], rest);
    Regroup("/", [c] + p[0], rest);
  }

  lemma {:induction false} JoinedPieces(s: string)
    ensures Joined(Pieces(s)) == "/" + s
    decreases |s|
  {
    if s == "" {
      assert [""][1..] == [];
    } else {
      JoinedPieces(s[1..]);
      var p := Pieces(s[1..]);
      if s[0] == '/' {
        assert ([""] + p)[1..] == p;
        assert "/" + "" + Joined(p) == "/" + s;
      } else {
        JoinedCons(s[0], p);
        assert s == [s[0]] + Joined(p)[1..];
      }
    }
  }

  /** Printing a pointer and splitting the text gives the same tokens, for every list of tokens. */
  lemma SplitToString(toks: Tokens)
    ensures Split(ToString(toks)) == Ok(toks)
  {
    hide Escape, Unescape, WellEscaped;
    ToStringJoined(toks);
    if toks != [] {
      var ps := EscapeAll(toks);
      forall i | 0 <= i < |toks| ensures WellEscaped(ps[i]) && '/' !in ps[i] && Unescape(ps[i]) == toks[i] {
        EscapeRoundTrip(toks[i]);
      }
      PiecesJoined(ps);
      assert UnescapeAll(ps) == toks;
    }
  }

  /** Splitting a text that is a pointer and printing the tokens gives the same text. */
  lemma ToStringSplit(s: string)
    requires Split(s).Ok?
    ensures ToString(Split(s).value) == s
  {
    hide Escape, Unescape, WellEscaped;
    if s != "" {
      var ps := Pieces(s[1..]);
      var toks := Split(s).value;
      PiecesClean(s[1..]);
      forall i | 0 <= i < |ps| ensures Escape(toks[i]) == ps[i] {
        UnescapeRoundTrip(ps[i]);
      }
      ToStringJoined(toks);
      assert EscapeAll(toks) == ps;
      JoinedPieces(s[1..]);
      assert s == ['/'] + s[1..];
    }
  }

  // ---------------------------------------------------------------- the loop of split

  /** Position of the first slash at or after `pos`, -1 if there is none or `pos` is past the end. */
  function FindSlash(s: string, pos: nat): (r: int)
    ensures -1 <= r < |s| && (r >= 0 ==> pos <= r && s[r] == '/')
    ensures pos <= |s| ==> '/' !in s[pos..if r < 0 then |s| else r]
    decreases |s| - pos
  {
    if pos >= |s| then -1
    else if s[pos] == '/' then pos
    else
      var r := FindSlash(s, pos + 1);
      assert pos + 1 <= |s| ==> s[pos..if r < 0 then |s| else r] == [s[pos]] + s[pos + 1..if r < 0 then |s| else r];
      r
  }

  /** The check that every tilde of a token is followed by 0 or 1, tilde by tilde. */
  method CheckEscapes(token: string) returns (ok: bool)
    ensures ok <==> WellEscaped(token)
  {
    var pos := 0;
    while pos < |token|
      invariant pos <= |token| && (WellEscaped(token[pos..]) <==> WellEscaped(token))
    {
      assert token[pos..][1..] == token[pos + 1..];
      if token[pos] == '~' {
        if pos == |token| - 1 || (token[pos + 1] != '0' && token[pos + 1] != '1') { return false; }
        assert token[pos..][2..] == token[pos + 2..];
        pos := pos + 2;
      } else {
        pos := pos + 1;
      }
    }
    return true;
  }

  method UnescapeToken(token: string) returns (r: string)
    ensures r == Unescape(token)
  {
    r := ReplaceSubstring(token, "~1", "/");
    r := ReplaceSubstring(r, "~0", "~");
  }

  method EscapeToken(token: string) returns (r: string)
    ensures r == Escape(token)
  {
    r := ReplaceSubstring(token, "~", "~0");
    r := ReplaceSubstring(r, "/", "~1");
  }

  lemma NextPiece(s: string, start: nat)
    requires start <= |s|
    ensures var slash := FindSlash(s, start);
      Pieces(s[start..]) == if slash < 0 then [s[start..]] else [s[start..slash]] + Pieces(s[slash + 1..])
  {
    hide FindSlash, Pieces;
    var slash := FindSlash(s, start);
    if slash < 0 {
      assert s[start..] == s[start..|s|];
      PiecesOne(s[start..]);
    } else {
      assert s[start..] == s[start..slash] + "/" + s[slash + 1..];
      PiecesFirst(s[start..slash], s[slash + 1..]);
    }
  }

  /** split: the tokens one after the other; start becomes 0 after the last slash. */
  method SplitText(s: string) returns (r: Result<Tokens>)
    ensures r == Split(s)
  {
    hide Unescape, WellEscaped, Pieces, FindSlash;
    if s == "" { return Ok([]); }
    if s[0] != '/' { return Err(DomainError); }
    ghost var all := Pieces(s[1..]);
    var result: Tokens := [];
    var slash := FindSlash(s, 1);
    var start := 1;
    while start != 0
      invariant 0 <= start <= |s| && |result| <= |all|
      invariant start > 0 ==> slash == FindSlash(s, start) && all[|result|..] == Pieces(s[start..])
      invariant start == 0 ==> |result| == |all|
      invariant forall i :: 0 <= i < |result| ==> WellEscaped(all[i]) && result[i] == Unescape(all[i])
      decreases if start == 0 then 0 else 1 + |s| - start
    {
      var token := s[start..if slash < 0 then |s| else slash];
      NextPiece(s, start);
      assert all[|result|..][0] == token && all[|result|..][1..] == all[|result| + 1..];
      var ok := CheckEscapes(token);
      if !ok { return Err(DomainError); }
      token := UnescapeToken(token);
      result := result + [token];
      start := slash + 1;
      slash := FindSlash(s, start);
    }
    assert result == UnescapeAll(all);
    return Ok(result);
  }
}
