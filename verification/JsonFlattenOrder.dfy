/** The order in which unflatten meets the leaves of a value: string order of their pointers. */
module JsonFlattenOrder {
  import opened Decimal
  import opened KeyOrder
  import opened JsonValue
  import opened JsonText
  import opened JsonPointer
  import opened JsonFlatten

  lemma {:induction false} LessConcat(p: string, a: string, b: string)
    ensures Less(p + a, p + b) <==> Less(a, b)
    decreases |p|
  {
    if p == "" {
      assert p + a == a && p + b == b;
    } else {
      assert (p + a)[1..] == p[1..] + a && (p + b)[1..] == p[1..] + b;
      LessConcat(p[1..], a, b);
    }
  }

  lemma {:induction false} ToStringConcat(a: Tokens, b: Tokens)
    ensures ToString(a + b) == ToString(a) + ToString(b)
    decreases |b|
  {
    hide Escape;
    if b == [] {
      assert a + b == a;
    } else {
      var front, last := b[..|b| - 1], b[|b| - 1];
      ToStringConcat(a, front);
      assert (a + b)[..|a + b| - 1] == a + front;
      assert ToString(a) + (ToString(front) + "/" + Escape(last)) == (ToString(a) + ToString(front)) + "/" + Escape(last);
    }
  }

  /** The text of a token and what follows it. */
  function Tail(t: string, rest: Tokens): string {
    Escape(t) + ToString(rest)
  }

  lemma ToStringCons(t: string, rest: Tokens)
    ensures ToString([t] + rest) == "/" + Tail(t, rest)
  {
    hide Escape;
    ToStringConcat([t], rest);
    assert [t][..0] == [] && ToString([t]) == "" + "/" + Escape(t);
  }

  /** Two leaves below the same place compare as what follows that place. */
  lemma SiblingOrder(at: Tokens, t: string, a: Tokens, u: string, b: Tokens)
    ensures Less(ToString(at + ([t] + a)), ToString(at + ([u] + b))) <==> Less(Tail(t, a), Tail(u, b))
  {
    hide Tail, Less;
    ToStringConcat(at, [t] + a);
    ToStringConcat(at, [u] + b);
    ToStringCons(t, a);
    ToStringCons(u, b);
    LessConcat(ToString(at), "/" + Tail(t, a), "/" + Tail(u, b));
    LessConcat("/", Tail(t, a), Tail(u, b));
  }

  lemma ToStringStart(toks: Tokens)
    requires toks != []
    ensures ToString(toks) != "" && ToString(toks)[0] == '/'
  {
    hide Escape;
    assert toks == [toks[0]] + toks[1..];
    ToStringCons(toks[0], toks[1..]);
  }

  lemma EscapeStart(k: string)
    requires k != ""
    ensures Escape(k) != "" && Escape(k)[0] == if k[0] == '/' then '~' else k[0]
    ensures k[0] != '~' && k[0] != '/' ==> Escape(k)[1..] == Escape(k[1..])
  {
    hide Escape;
    EscapeIsEach(k);
    EscapeIsEach(k[1..]);
  }

  lemma EscapeEmpty()
    ensures Escape("") == ""
  {
  }

  /**
   The leaves below key `k` are met before those below key "0", whose value is `zero`. A slash sorts late
   because it is escaped; after "0" itself comes the end of the pointer or the next slash.
   */
  predicate Ahead(k: string, zero: Json) {
    k == "" || (k[0] < '0' && k[0] != '/') || (|k| > 1 && k[0] == '0' && k[1] < '/' && !IsLeafValue(zero))
  }

  lemma LessAtFirst(a: string, b: string)
    requires a != "" && b != "" && a[0] != b[0]
    ensures Less(a, b) <==> a[0] < b[0]
  {
  }

  lemma NoTokens()
    ensures ToString([]) == ""
  {
  }

  lemma ZeroPlain()
    ensures Escape("0") == "0" && Digits(0) == "0"
  {
    DigitsPlain(0);
  }

  /** A key that starts with "0" and goes on, against the key "0". */
  lemma LongZeroOrder(k: string, a: Tokens, b: Tokens)
    requires |k| > 1 && k[0] == '0'
    ensures Less(Tail(k, a), Tail("0", b)) <==> k[1] < '/' && b != []
    ensures Less(Tail("0", b), Tail(k, a)) <==> !(k[1] < '/' && b != [])
  {
    hide Escape, ToString;
    ZeroPlain();
    EscapeStart(k);
    EscapeStart(k[1..]);
    var x, y := Escape(k[1..]) + ToString(a), ToString(b);
    assert Escape(k) == ['0'] + Escape(k[1..]);
    assert Tail(k, a) == "0" + x && Tail("0", b) == "0" + y;
    LessConcat("0", x, y);
    LessConcat("0", y, x);
    assert x[0] == if k[1] == '/' then '~' else k[1];
    if b == [] {
      NoTokens();
    } else {
      ToStringStart(b);
      assert x[0] != '/';
      LessAtFirst(x, y);
      LessAtFirst(y, x);
    }
  }

  lemma LongKey(k: string)
    requires k != "" && k != "0" && k[0] == '0'
    ensures |k| > 1
  {
    assert k == ['0'] + k[1..];
  }

  /** Which of two kids of an object is met first, when one of them is "0". */
  lemma ZeroOrder(k: string, a: Tokens, zero: Json, b: Tokens)
    requires k != "0" && (b == [] <==> IsLeafValue(zero))
    ensures Less(Tail(k, a), Tail("0", b)) <==> Ahead(k, zero)
    ensures Less(Tail("0", b), Tail(k, a)) <==> !Ahead(k, zero)
  {
    hide Escape, ToString, IsLeafValue;
    ZeroPlain();
    var x, y := Tail(k, a), Tail("0", b);
    assert y[0] == '0';
    if k == "" {
      EscapeEmpty();
      assert x == ToString(a);
      if a != [] { ToStringStart(a); LessAtFirst(x, y); LessAtFirst(y, x); } else { NoTokens(); }
    } else if k[0] == '0' {
      LongKey(k);
      LongZeroOrder(k, a, b);
    } else {
      EscapeStart(k);
      assert x[0] == Escape(k)[0];
      LessAtFirst(x, y);
      LessAtFirst(y, x);
    }
  }

  /** The elements of an array are met with index 0 first. */
  lemma IndexOrder(i: nat, a: Tokens, b: Tokens)
    requires i > 0
    ensures Less(Tail("0", a), Tail(Digits(i), b))
  {
    hide Escape, ToString, Digits;
    ZeroPlain();
    DigitsPlain(i);
    var d := Digits(i);
    assert d[0] != '0' by { if d[0] == '0' { assert d == "0"; DigitsInjective(i, 0); } }
    assert IsDigit(d[0]);
    LessAtFirst(Tail("0", a), Tail(d, b));
  }
}
