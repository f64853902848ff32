/** Following a JSON Pointer into a value: the checked walk, and the walk that creates what is missing. */
module JsonAccess {
  import opened Decimal
  import opened JsonValue
  import opened JsonText
  import opened JsonPointer

  // ---------------------------------------------------------------- checked access

  /** The element an index token names among `n`; "-" names the one past the end and is never there. */
  function CheckedIndex(n: nat, tok: string): (r: Result<nat>)
    ensures r.Ok? ==> r.value < n
  {
    if tok == "-" then Err(OutOfRange)
    else if |tok| > 1 && tok[0] == '0' then Err(DomainError)
    else match Stoi(tok)
      case Err(e) => Err(e)
      case Ok(i) => if 0 <= i < n then Ok(i) else Err(OutOfRange)
  }

  /** Tokens that are no index of any array, and what they are refused as. */
  lemma BadIndices(n: nat, d: char, rest: string)
    ensures CheckedIndex(n, "-") == CheckedIndex(0, "0") == Err(OutOfRange)
    ensures CheckedIndex(n, ['0', d] + rest) == Err(DomainError)
    ensures CheckedIndex(n, "-1") == Err(OutOfRange) && CheckedIndex(n, "") == Err(InvalidArgument)
    ensures !IsSpace(d) && !IsDigit(d) && d != '-' && d != '+' ==> CheckedIndex(n, [d] + rest) == Err(InvalidArgument)
  {
    hide Stoi;
    StoiReads("", "-", 1, "");
    assert "" + ("-" + (Digits(1) + "")) == "-1";
    StoiReads("", "", 0, "");
    assert "" + ("" + (Digits(0) + "")) == "0";
    StoiRefuses("");
    if !IsSpace(d) && !IsDigit(d) && d != '-' && d != '+' { StoiRefuses([d] + rest); }
  }

  function Child(j: Json, tok: string): Result<Json> {
    match j
    case Obj(m) => if tok in m then Ok(m[tok]) else Err(OutOfRange)
    case Arr(x) =>
      (match CheckedIndex(|x|, tok)
       case Err(e) => Err(e)
       case Ok(i) => Ok(x[i]))
    case _ => Err(OutOfRange)
  }

  /** The value a pointer leads to, or the error of the first step that fails. */
  function At(j: Json, toks: Tokens): Result<Json>
    decreases |toks|
  {
    if toks == [] then Ok(j) else
      match Child(j, toks[0])
      case Err(e) => Err(e)
      case Ok(c) => At(c, toks[1..])
  }

  /** The same value with one child replaced. */
  function WithChild(j: Json, tok: string, c: Json): Json
    requires Child(j, tok).Ok?
  {
    match j
    case Obj(m) => Obj(m[tok := c])
    case Arr(x) => Arr(x[CheckedIndex(|x|, tok).value := c])
  }

  /** The document after an assignment through the reference At returns. */
  function Store(j: Json, toks: Tokens, v: Json): Json
    requires At(j, toks).Ok?
    decreases |toks|
  {
    if toks == [] then v else
      WithChild(j, toks[0], Store(Child(j, toks[0]).value, toks[1..], v))
  }

  lemma ChildLaws(j: Json, tok: string, c: Json)
    requires Child(j, tok).Ok?
    ensures Child(WithChild(j, tok, c), tok) == Ok(c)
    ensures forall d :: WithChild(WithChild(j, tok, c), tok, d) == WithChild(j, tok, d)
    ensures WithChild(j, tok, Child(j, tok).value) == j
  {
    match j
    case Obj(m) =>
      forall d ensures WithChild(WithChild(j, tok, c), tok, d) == WithChild(j, tok, d) {
        assert m[tok := c][tok := d] == m[tok := d];
      }
      assert m[tok := m[tok]] == m;
    case Arr(x) =>
      var i := CheckedIndex(|x|, tok).value;
      forall d ensures WithChild(WithChild(j, tok, c), tok, d) == WithChild(j, tok, d) {
        assert x[i := c][i := d] == x[i := d];
      }
      assert x[i := x[i]] == x;
  }

  /** What was stored is found again, a second store replaces the first, and storing what is there changes nothing. */
  lemma {:induction false} StoreLaws(j: Json, toks: Tokens, v: Json, w: Json)
    requires At(j, toks).Ok?
    ensures At(Store(j, toks, v), toks) == Ok(v)
    ensures Store(Store(j, toks, v), toks, w) == Store(j, toks, w)
    ensures Store(j, toks, At(j, toks).value) == j
    decreases |toks|
  {
    hide Child, WithChild;
    if toks != [] {
      var c := Child(j, toks[0]).value;
      StoreLaws(c, toks[1..], v, w);
      ChildLaws(j, toks[0], Store(c, toks[1..], v));
      ChildLaws(j, toks[0], c);
    }
  }

  /** One more token is one more step. */
  lemma {:induction false} AtSnoc(j: Json, toks: Tokens, tok: string)
    requires At(j, toks).Ok?
    ensures At(j, toks + [tok]) == Child(At(j, toks).value, tok)
    decreases |toks|
  {
    hide Child;
    if toks == [] {
      assert toks + [tok] == [tok] && [tok][1..] == [];
    } else {
      AtSnoc(Child(j, toks[0]).value, toks[1..], tok);
      assert (toks + [tok])[1..] == toks[1..] + [tok];
    }
  }

  /** A store below a place is a store of that place's new value. */
  lemma {:induction false} StoreSnoc(j: Json, toks: Tokens, tok: string, v: Json)
    requires At(j, toks).Ok? && Child(At(j, toks).value, tok).Ok?
    ensures At(j, toks + [tok]).Ok?
    ensures Store(j, toks + [tok], v) == Store(j, toks, WithChild(At(j, toks).value, tok, v))
    decreases |toks|
  {
    hide Child, WithChild;
    AtSnoc(j, toks, tok);
    if toks == [] {
      assert toks + [tok] == [tok] && [tok][1..] == [];
    } else {
      StoreSnoc(Child(j, toks[0]).value, toks[1..], tok, v);
      assert (toks + [tok])[1..] == toks[1..] + [tok];
    }
  }

  lemma {:induction false} AtPrefix(j: Json, toks: Tokens, n: nat)
    requires At(j, toks).Ok? && n <= |toks|
    ensures At(j, toks[..n]).Ok?
    decreases |toks|
  {
    hide Child;
    if n > 0 {
      AtPrefix(Child(j, toks[0]).value, toks[1..], n - 1);
      assert toks[..n][1..] == toks[1..][..n - 1];
    }
  }

  /** The loop of get_checked. */
  method GetChecked(j: Json, toks: Tokens) returns (r: Result<Json>)
    ensures r == At(j, toks)
  {
    var cur := j;
    for n := 0 to |toks|
      invariant At(cur, toks[n..]) == At(j, toks)
    {
      assert toks[n..][1..] == toks[n + 1..];
      var c := Child(cur, toks[n]);
      if c.Err? { return Err(c.error); }
      cur := c.value;
    }
    return Ok(cur);
  }

  // ---------------------------------------------------------------- unchecked access

  /** A null becomes an array when the token is a number (or empty) or "-", else an object. */
  function Opened(j: Json, tok: string): Json {
    if !j.Null? then j
    else if tok == "-" || forall i :: 0 <= i < |tok| ==> IsDigit(tok[i]) then Arr([])
    else Obj(map[])
  }

  /** The slot an index token names in an array of `n` elements that may still grow. */
  function FreeIndex(n: nat, tok: string): Result<nat> {
    if |tok| > 1 && tok[0] == '0' then Err(DomainError)
    else if tok == "-" then Ok(n)
    else match Stoi(tok)
      case Err(e) => Err(e)
      case Ok(i) => if i < 0 then Err(LengthError) else Ok(i)
  }

  /** The array filled up with nulls until it has an element `i`. */
  function Filled(x: seq<Json>, i: nat): (r: seq<Json>)
    ensures i < |r| && |x| <= |r| && forall k :: 0 <= k < |r| ==> r[k] == if k < |x| then x[k] else Null
  {
    if i < |x| then x else x + seq(i + 1 - |x|, _ => Null)
  }

  /** The value to which `j` turns when `f` rewrites what the unchecked walk along `toks` reaches. */
  function Update(j: Json, toks: Tokens, f: Json -> Result<Json>): Result<Json>
    decreases |toks|
  {
    if toks == [] then f(j) else
      match Opened(j, toks[0])
      case Obj(m) =>
        (match Update(if toks[0] in m then m[toks[0]] else Null, toks[1..], f)
         case Err(e) => Err(e)
         case Ok(c) => Ok(Obj(m[toks[0] := c])))
      case Arr(x) =>
        (match FreeIndex(|x|, toks[0])
         case Err(e) => Err(e)
         case Ok(i) =>
           match Update(Filled(x, i)[i], toks[1..], f)
           case Err(e) => Err(e)
           case Ok(c) => Ok(Arr(Filled(x, i)[i := c])))
      case _ => Err(OutOfRange)
  }

  /** Where the checked walk succeeds, the unchecked one reaches the same place and creates nothing. */
  lemma {:induction false} UncheckedAgrees(j: Json, toks: Tokens, f: Json -> Result<Json>)
    requires At(j, toks).Ok?
    ensures var r := f(At(j, toks).value);
      Update(j, toks, f) == if r.Ok? then Ok(Store(j, toks, r.value)) else Err(r.error)
    decreases |toks|
  {
    if toks != [] {
      var c := Child(j, toks[0]).value;
      UncheckedAgrees(c, toks[1..], f);
      match j
      case Obj(m) =>
      case Arr(x) =>
        var i := CheckedIndex(|x|, toks[0]).value;
        assert FreeIndex(|x|, toks[0]) == Ok(i) && Filled(x, i) == x;
    }
  }

  lemma FreeThenChecked(n: nat, tok: string)
    requires tok != "-" && FreeIndex(n, tok).Ok?
    ensures forall k: nat :: k > FreeIndex(n, tok).value ==> CheckedIndex(k, tok) == Ok(FreeIndex(n, tok).value)
  {
  }

  /**
   What an assignment through the unchecked walk stores is where the checked walk looks for it, whatever had
   to be created on the way. The token "-" makes a new element, which the checked walk never finds.
   */
  lemma {:induction false} UpdateThenAt(j: Json, toks: Tokens, v: Json)
    requires Update(j, toks, _ => Ok(v)).Ok? && "-" !in toks
    ensures At(Update(j, toks, _ => Ok(v)).value, toks) == Ok(v)
    decreases |toks|
  {
    hide Stoi;
    if toks != [] {
      var t, rest := toks[0], toks[1..];
      assert t in toks && forall u :: u in rest ==> u in toks;
      match Opened(j, t)
      case Obj(m) => UpdateThenAt(if t in m then m[t] else Null, rest, v);
      case Arr(x) =>
        var i := FreeIndex(|x|, t).value;
        FreeThenChecked(|x|, t);
        UpdateThenAt(Filled(x, i)[i], rest, v);
      case _ =>
    }
  }
}
