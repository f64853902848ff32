/** The text of a value is the shortest that is read as that value. */
module JsonShortest {
  import opened Bytes
  import opened Decimal
  import opened KeyOrder
  import opened KeyTotals
  import opened JsonValue
  import opened JsonEscape
  import opened JsonLexer
  import opened JsonParser
  import opened JsonGrammar
  import opened JsonUnicode
  import opened JsonGrammarScan
  import opened JsonGrammarProof
  import opened JsonDump

  /** What the platform reads is a double. */
  ghost predicate Doubles(reals: Reals) {
    forall t :: reals(t).Float?
  }

  // ---------------------------------------------------------------- strings and numbers

  predicate Unescaped(s: string) {
    forall i :: 0 <= i < |s| ==> s[i] as int > 0x1f && s[i] != '"' && s[i] != '\\'
  }

  lemma {:induction false} EscapedAtMost(s: string)
    ensures |EscapeString(s)| <= 6 * |s| && (Unescaped(s) ==> |EscapeString(s)| == |s|)
    decreases |s|
  {
    if s != "" { EscapedAtMost(s[1..]); }
  }

  /** Only a code point of one byte may need an escape. */
  lemma PointShortest(cp: nat)
    requires Scalar(cp)
    ensures |EscapeString(Utf8Of(cp))| <= (if cp <= 0xffff then 6 else 12)
  {
    Utf8Inverse(cp);
    EscapedAtMost(Utf8Of(cp));
    hide EscapeString;
    var t := Utf8(cp).value;
    if cp >= 0x80 {
      assert Utf8Length(t, 0) == |t|;
      assert Unescaped(t);
    }
  }

  lemma PieceShortest(p: Piece)
    requires PieceOk(p)
    ensures |EscapeString(Means(p))| <= |Spell(p)|
  {
    hide HexDigit, Utf8Of, EscapeString;
    match p
    case Plain(b) => { EscapedAtMost(b); assert Unescaped(b); }
    case Short(c) => { assert |Means(p)| == 1; EscapedOne(Means(p)[0]); }
    case Unit(h) => { HexBound(h); hide HexOf; PointShortest(HexOf(h)); }
    case Pair(h, l) => { hide HexOf; PointShortest(0x10000 + (HexOf(h) - 0xd800) * 1024 + (HexOf(l) - 0xdc00)); }
  }

  lemma EscapedOne(c: char)
    ensures EscapeString([c]) == EscapeChar(c)
  {
    assert [c][1..] == "";
  }

  lemma {:induction false} PiecesShortest(ps: seq<Piece>)
    requires PiecesOk(ps)
    ensures |EscapeString(Meant(ps))| <= |Spelled(ps)|
    decreases |ps|
  {
    hide PieceOk, Means, Spell;
    if ps != [] {
      assert PieceOk(ps[0]) && forall p :: p in ps[1..] ==> p in ps;
      PieceShortest(ps[0]);
      PiecesShortest(ps[1..]);
      EscapedConcat(Means(ps[0]), Meant(ps[1..]));
    }
  }

  lemma {:induction false} DigitsShortest(w: string)
    requires AllDigits(w)
    ensures |Digits(ReadDigits(w, 0))| <= |w|
    decreases |w|
  {
    var n := |w| - 1;
    var front, last := w[..n], w[n];
    assert w == front + [last] && [last][1..] == "";
    ReadConcat(front, [last], 0);
    if front != "" { DigitsShortest(front); }
  }

  lemma NumeralShortest(reals: Reals, n: Numeral)
    requires n.Ok() && Doubles(reals) && !n.Value(reals).Float?
    ensures var v := n.Value(reals); (v.Int? || v.Uint?) && |Printed(if v.Int? then v.i else v.u)| <= |n.Text()|
  {
    hide Digits, ReadDigits;
    DigitsShortest(n.whole);
  }

  // ---------------------------------------------------------------- tables

  function Cost(show: Show, m: map<string, Json>, k: string): nat {
    if k in m then |Quoted(k)| + |Dump(show, m[k])| + 2 else 0
  }

  function CostOf(show: Show, m: map<string, Json>): string -> nat {
    k => Cost(show, m, k)
  }

  /** The characters of the members, each with a comma. */
  function Weight(show: Show, m: map<string, Json>): nat {
    Total(CostOf(show, m), SortedKeys(m.Keys))
  }

  lemma {:induction false} MembersLength(show: Show, j: Json, keys: seq<string>, i: nat)
    requires j.Obj? && i <= |keys| && forall k :: k in keys ==> k in j.members
    ensures |DumpMembers(show, j, keys, i)| + (if i == 0 && keys != [] then 1 else 0) == Total(CostOf(show, j.members), keys[i..])
    decreases |keys| - i
  {
    hide Dump, Quoted;
    if i < |keys| {
      MembersLength(show, j, keys, i + 1);
      assert keys[i..][1..] == keys[i + 1..] && keys[i..][0] == keys[i];
    }
  }

  lemma TableLength(show: Show, m: map<string, Json>)
    ensures |Dump(show, Obj(m))| == Weight(show, m) + (if m == map[] then 2 else 1)
  {
    hide SortedKeys, Less, DumpMembers, CostOf;
    var keys := SortedKeys(m.Keys);
    MembersLength(show, Obj(m), keys, 0);
    assert keys[0..] == keys;
    assert m == map[] <==> keys == [] by { if m != map[] { var k :| k in m; assert k in keys; } }
  }

  /** A new member adds its own characters. */
  lemma WeightGrows(show: Show, k: string, v: Json, m: map<string, Json>)
    requires k !in m
    ensures Weight(show, map[k := v] + m) == |Quoted(k)| + |Dump(show, v)| + 2 + Weight(show, m)
  {
    hide Dump, Quoted, SortedKeys, Total;
    var all := map[k := v] + m;
    assert all.Keys == m.Keys + {k} && all[k] == v;
    forall a | a in m.Keys ensures CostOf(show, all)(a) == CostOf(show, m)(a) { assert all[a] == m[a]; }
    TotalGrows(CostOf(show, all), CostOf(show, m), m.Keys, k);
  }

  // ---------------------------------------------------------------- documents

  lemma {:induction false} DocShortest(reals: Reals, show: Show, d: Doc)
    requires Valid(d) && Doubles(reals) && NoFloat(Meaning(reals, d))
    ensures |Dump(show, Meaning(reals, d))| <= |Render(d)|
    decreases d, 1
  {
    match d
    case Word(j) =>
    case Number(n) => NumeralShortest(reals, n);
    case Text(ps) => PiecesShortest(ps);
    case EmptyList(_) =>
    case EmptyTable(_) => TableLength(show, map[]);
    case List(es) => ElementsShortest(reals, show, es, Values(reals, es), 0);
    case Table(es) =>
      EntriesShortest(reals, show, es);
      TableLength(show, Members(reals, es));
  }

  lemma {:induction false} ElementsShortest(reals: Reals, show: Show, es: Elements, x: seq<Json>, i: nat)
    requires ValidElements(es) && Doubles(reals) && i <= |x| && x[i..] == Values(reals, es) && NoFloat(Arr(x))
    ensures |DumpItems(show, Arr(x), i)| <= |RenderElements(es)| + (if i > 0 then 1 else 0)
    decreases es, 0
  {
    hide Dump, Render, Meaning, Valid;
    assert x[i] == x[i..][0] == Meaning(reals, es.doc);
    DocShortest(reals, show, es.doc);
    if es.More? {
      assert x[i + 1..] == x[i..][1..] == Values(reals, es.rest);
      ElementsShortest(reals, show, es.rest, x, i + 1);
    } else {
      assert |x| == i + 1;
      assert DumpItems(show, Arr(x), i + 1) == "";
    }
  }

  /** Of members with the same name the last one counts: it adds its characters, or is overwritten. */
  lemma MemberCounts(reals: Reals, show: Show, es: Entries) returns (rest: map<string, Json>)
    requires ValidEntries(es) && NoFloat(Obj(Members(reals, es)))
    ensures ValidEntry(es.entry) && PiecesOk(es.entry.key) && Valid(es.entry.doc) && NoFloat(Obj(rest))
    ensures rest == if es.Further? then Members(reals, es.others) else map[]
    ensures var (k, v) := (Meant(es.entry.key), Meaning(reals, es.entry.doc));
      if k in rest then Members(reals, es) == rest
      else NoFloat(v) && Weight(show, Members(reals, es)) == |Quoted(k)| + |Dump(show, v)| + 2 + Weight(show, rest)
  {
    hide Dump, Quoted, Meaning, Valid, Weight, PiecesOk, Meant;
    assert ValidEntry(es.entry);
    var (k, v) := (Meant(es.entry.key), Meaning(reals, es.entry.doc));
    rest := if es.Further? then Members(reals, es.others) else map[];
    var all := map[k := v] + rest;
    assert all == Members(reals, es) && forall a :: a in rest ==> all[a] == rest[a];
    if k in rest {
      assert all == rest;
    } else {
      assert all[k] == v;
      WeightGrows(show, k, v, rest);
    }
  }

  lemma {:induction false} EntriesShortest(reals: Reals, show: Show, es: Entries)
    requires ValidEntries(es) && Doubles(reals) && NoFloat(Obj(Members(reals, es)))
    ensures Weight(show, Members(reals, es)) <= |RenderEntries(es)| + 1
    decreases es, 0
  {
    hide Dump, Render, Meaning, Valid, Weight, EscapeString, Spelled, Meant, PiecesOk, Members, NoFloat, ValidEntry;
    var e := es.entry;
    var rest := MemberCounts(reals, show, es);
    if es.Further? { EntriesShortest(reals, show, es.others); } else { NoWeight(show); }
    if Meant(e.key) !in rest {
      PiecesShortest(e.key);
      DocShortest(reals, show, e.doc);
    }
  }

  lemma NoWeight(show: Show)
    ensures Weight(show, map[]) == 0
  {
  }

  // ---------------------------------------------------------------- the law

  /** No text that is read as a value is shorter than the text of that value. */
  lemma DumpIsShortest(reals: Reals, show: Show, s: string, v: Json)
    requires Doubles(reals) && NoFloat(v) && Parse(reals, s) == Ok(v)
    ensures |Dump(show, v)| <= |s|
  {
    hide Dump, Render, Meaning, Valid, Parse;
    ParsedIsText(reals, s, v);
    var lead: string, d: Doc, trail: string, rest: string :|
      && s == lead + (Render(d) + (trail + rest)) && Blanks(lead) && Valid(d) && Blanks(trail)
      && Meaning(reals, d) == v && (rest == "" || rest[0] as int == 0);
    DocShortest(reals, show, d);
  }
}
