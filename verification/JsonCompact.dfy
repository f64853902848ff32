/** The text of a value has no blanks and lists the members of its objects in order. */
module JsonCompact {
  import opened Bytes
  import opened Decimal
  import opened KeyOrder
  import opened JsonValue
  import opened JsonEscape
  import opened JsonLexer
  import opened JsonParser
  import opened JsonGrammar
  import opened JsonGrammarScan
  import opened JsonDump
  import opened JsonDumpProof
  import opened CanonicalKeys

  /** No blanks anywhere, and the members of every object in strictly ascending order. */
  predicate Tight(d: Doc)
    requires Valid(d)
  {
    match d
    case EmptyList(g) => g == ""
    case EmptyTable(g) => g == ""
    case List(es) => TightElements(es)
    case Table(es) => TightEntries(es)
    case _ => true
  }

  predicate TightElements(es: Elements)
    requires ValidElements(es)
  {
    es.before == "" && es.after == "" && Tight(es.doc) && (es.More? ==> TightElements(es.rest))
  }

  predicate TightEntries(es: Entries)
    requires ValidEntries(es)
  {
    var e := es.entry;
    && ValidEntry(e) && e.before == "" && e.middle == "" && e.gap == "" && e.after == "" && Tight(e.doc)
    && (es.Further? ==>
          ValidEntry(es.others.entry) && Less(Meant(e.key), Meant(es.others.entry.key)) && TightEntries(es.others))
  }

  /** What a document says. */
  ghost predicate Tells(reals: Reals, d: Doc, text: string, v: Json) {
    Valid(d) && Tight(d) && Render(d) == text && Meaning(reals, d) == v
  }

  lemma QuotedText(t: string) returns (ps: seq<Piece>)
    requires ValidUtf8(t)
    ensures PiecesOk(ps) && Quote(ps) == Quoted(t) && Meant(ps) == t
  {
    hide EscapeString, GetString, Spelled, Meant, PiecesOk, Next, ValidUtf8;
    var s := Quoted(t);
    assert s[0..|s|] == s;
    QuotedScans(t, s, 0);
    EscapedReads(t);
    ps := QuoteThere(s, 0);
  }

  lemma NumberText(reals: Reals, n: int) returns (d: Doc)
    requires FitsSigned(n, 8) || 0 <= n < Span(8)
    ensures Tells(reals, d, Printed(n), if n >= 0 then Uint(n) else Int(n))
  {
    hide Digits;
    var k: nat := if n < 0 then -n else n;
    DigitsRoundTrip(k);
    SpanValues();
    var w := Numeral(n < 0, Digits(k), "", "");
    assert w.Text() == Printed(n);
    d := Number(w);
  }

  /** The text of a value is a document without blanks that lists members in order. */
  lemma {:induction false} DumpIsText(reals: Reals, show: Show, j: Json) returns (d: Doc)
    requires NoFloat(j) && InRange(j) && Readable(j)
    ensures Tells(reals, d, Dump(show, j), Canonical(j))
    decreases j, 2
  {
    match j
    case Int(n) => d := NumberText(reals, n);
    case Uint(n) => d := NumberText(reals, n);
    case Str(t) => { var ps := QuotedText(t); d := Text(ps); }
    case Arr(x) => d := ArrayText(reals, show, j);
    case Obj(m) => d := ObjectText(reals, show, j);
    case _ => d := Word(j);
  }

  lemma ArrayText(reals: Reals, show: Show, j: Json) returns (d: Doc)
    requires j.Arr? && NoFloat(j) && InRange(j) && Readable(j)
    ensures Tells(reals, d, Dump(show, j), Canonical(j))
    decreases j, 1
  {
    hide Dump, DumpItems, ValidElements, TightElements, RenderElements, Values, Canonical, Meaning, NoFloat, InRange, Readable, Tells;
    if j.items == [] {
      d := EmptyList("");
      NoItemsTell(reals, show, j);
    } else {
      ItemsFirst(show, j);
      var es := ItemsText(reals, show, j, 0);
      d := List(es);
      CanonicalItems(j);
      assert Canonical(j).items[0..] == Canonical(j).items;
      ListTells(reals, show, j, es);
    }
  }

  lemma NoItemsTell(reals: Reals, show: Show, j: Json)
    requires j == Arr([])
    ensures Tells(reals, EmptyList(""), Dump(show, j), Canonical(j))
  {
  }

  lemma ListTells(reals: Reals, show: Show, j: Json, es: Elements)
    requires j.Arr? && ValidElements(es) && TightElements(es) && RenderElements(es) == DumpItems(show, j, 0)
    requires Canonical(j) == Arr(Values(reals, es))
    ensures Tells(reals, List(es), Dump(show, j), Canonical(j))
  {
    hide DumpItems, ValidElements, TightElements, RenderElements, Values, Canonical;
  }

  lemma ItemsFirst(show: Show, j: Json)
    requires j.Arr? && j.items != []
    ensures DumpItems(show, j, 0) == Dump(show, j.items[0]) + DumpItems(show, j, 1)
  {
    hide Dump;
  }

  lemma ItemOk(j: Json, i: nat)
    requires j.Arr? && i < |j.items| && NoFloat(j) && InRange(j) && Readable(j)
    ensures NoFloat(j.items[i]) && InRange(j.items[i]) && Readable(j.items[i])
  {
  }

  lemma {:induction false} ItemsText(reals: Reals, show: Show, j: Json, i: nat) returns (es: Elements)
    requires j.Arr? && i < |j.items| && NoFloat(j) && InRange(j) && Readable(j)
    ensures ValidElements(es) && TightElements(es)
    ensures RenderElements(es) == Dump(show, j.items[i]) + DumpItems(show, j, i + 1)
    ensures Canonical(j).Arr? && |Canonical(j).items| == |j.items| && Values(reals, es) == Canonical(j).items[i..]
    decreases j, 0, |j.items| - i
  {
    hide Dump, Canonical, Meaning, Valid, Render, Tight, NoFloat, InRange, Readable;
    ItemOk(j, i);
    CanonicalItems(j);
    var all := Canonical(j).items;
    var d := DumpIsText(reals, show, j.items[i]);
    if i + 1 < |j.items| {
      var rest := ItemsText(reals, show, j, i + 1);
      es := More("", d, "", rest);
      assert all[i..] == [all[i]] + all[i + 1..];
    } else {
      es := Last("", d, "");
      assert all[i..] == [all[i]] + [];
      assert DumpItems(show, j, i + 1) == "";
    }
  }

  lemma ObjectText(reals: Reals, show: Show, j: Json) returns (d: Doc)
    requires j.Obj? && NoFloat(j) && InRange(j) && Readable(j)
    ensures Tells(reals, d, Dump(show, j), Canonical(j))
    decreases j, 1
  {
    hide Dump, DumpMembers, ValidEntries, TightEntries, RenderEntries, Members, Canonical, Meaning, NoFloat, InRange, Readable, Tells, SortedKeys, Less;
    if j.members == map[] {
      d := EmptyTable("");
      NoMembersTell(reals, show, j);
    } else {
      var keys := SortedKeys(j.members.Keys);
      var k :| k in j.members;
      assert k in keys;
      var es := MembersDoc(reals, show, j, keys, 0);
      d := Table(es);
      KeysMean(j, keys);
      assert "" + RenderEntries(es) == RenderEntries(es);
      TableTells(reals, show, j, es);
    }
  }

  lemma NoMembersTell(reals: Reals, show: Show, j: Json)
    requires j == Obj(map[])
    ensures Tells(reals, EmptyTable(""), Dump(show, j), Canonical(j))
  {
  }

  lemma TableTells(reals: Reals, show: Show, j: Json, es: Entries)
    requires j.Obj? && ValidEntries(es) && TightEntries(es) && RenderEntries(es) == DumpMembers(show, j, SortedKeys(j.members.Keys), 0)
    requires Canonical(j) == Obj(Members(reals, es))
    ensures Tells(reals, Table(es), Dump(show, j), Canonical(j))
  {
    hide DumpMembers, ValidEntries, TightEntries, RenderEntries, Members, Canonical, SortedKeys, Less;
  }

  lemma MemberOk(j: Json, k: string)
    requires j.Obj? && k in j.members && NoFloat(j) && InRange(j) && Readable(j)
    ensures NoFloat(j.members[k]) && InRange(j.members[k]) && Readable(j.members[k]) && ValidUtf8(k)
  {
  }

  lemma {:induction false} MembersDoc(reals: Reals, show: Show, j: Json, keys: seq<string>, i: nat) returns (es: Entries)
    requires j.Obj? && i < |keys| && NoFloat(j) && InRange(j) && Readable(j) && forall k :: k in keys ==> k in j.members
    requires forall a, b :: 0 <= a < b < |keys| ==> Less(keys[a], keys[b])
    ensures ValidEntries(es) && TightEntries(es) && ValidEntry(es.entry) && Meant(es.entry.key) == keys[i]
    ensures (if i > 0 then "," else "") + RenderEntries(es) == DumpMembers(show, j, keys, i)
    ensures Members(reals, es) == From(j.members, keys, i)
    decreases j, 0, |keys| - i
  {
    hide Dump, Less, Canonical, Meaning, Valid, Render, Tight, NoFloat, InRange, Readable, From, Quote, Quoted, Meant, PiecesOk, Blanks;
    var k := keys[i];
    MemberOk(j, k);
    forall a, b | 0 <= a < b < |keys| ensures keys[a] != keys[b] { LessTotal(keys[a], keys[b]); }
    FromStep(j.members, keys, i);
    var ps := QuotedText(k);
    var d := DumpIsText(reals, show, j.members[k]);
    var e := TightEntry(ps, d);
    if i + 1 < |keys| {
      var rest := MembersDoc(reals, show, j, keys, i + 1);
      es := Further(e, rest);
      Joined(Quote(ps), Render(d), "," + RenderEntries(rest));
    } else {
      es := Final(e);
      assert DumpMembers(show, j, keys, i + 1) == "";
      Joined(Quote(ps), Render(d), "");
      NoneFrom(j.members, keys);
      assert map[k := Canonical(j.members[k])] + map[] == map[k := Canonical(j.members[k])];
    }
  }

  lemma TightEntry(ps: seq<Piece>, d: Doc) returns (e: Entry)
    requires PiecesOk(ps) && Valid(d) && Tight(d)
    ensures e == Entry("", ps, "", "", d, "") && ValidEntry(e)
    ensures RenderEntry(e) == Quote(ps) + (":" + Render(d))
  {
    hide Valid, PiecesOk, Tight, Quote, Render;
    e := Entry("", ps, "", "", d, "");
    assert Render(d) + "" == Render(d) && "" + (Render(d) + "") == Render(d);
    assert "" + (":" + Render(d)) == ":" + Render(d) && "" + (Quote(ps) + (":" + Render(d))) == Quote(ps) + (":" + Render(d));
  }

  lemma Joined(a: string, b: string, c: string)
    ensures (a + (":" + b)) + c == a + (":" + (b + c))
  {
  }
}
