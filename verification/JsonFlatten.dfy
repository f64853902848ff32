/** Flattening a value into one object of pointers and primitives, and building the value back. */
module JsonFlatten {
  import opened Decimal
  import opened KeyOrder
  import opened JsonValue
  import opened JsonText
  import opened JsonPointer
  import opened JsonAccess

  predicate IsEmptyContainer(j: Json) {
    (j.Arr? && j.items == []) || (j.Obj? && j.members == map[])
  }

  // ---------------------------------------------------------------- flatten

  /** The entries of `j`, reached by `path`, added to `result`; empty containers become null. */
  function FlattenInto(path: string, j: Json, result: map<string, Json>): map<string, Json>
    decreases j, 1, 0
  {
    if IsEmptyContainer(j) then result[path := Null]
    else match j
      case Arr(x) => FlattenItems(path, j, 0, result)
      case Obj(m) => FlattenKeys(path, j, SortedKeys(m.Keys), result)
      case _ => result[path := j]
  }

  function FlattenItems(path: string, j: Json, i: nat, result: map<string, Json>): map<string, Json>
    requires j.Arr?
    decreases j, 0, |j.items| - i
  {
    if i >= |j.items| then result
    else FlattenItems(path, j, i + 1, FlattenInto(path + "/" + Digits(i), j.items[i], result))
  }

  function FlattenKeys(path: string, j: Json, keys: seq<string>, result: map<string, Json>): map<string, Json>
    requires j.Obj? && forall k :: k in keys ==> k in j.members
    decreases j, 0, |keys|
  {
    if keys == [] then result
    else FlattenKeys(path, j, keys[1..], FlattenInto(path + "/" + Escape(keys[0]), j.members[keys[0]], result))
  }

  function Flatten(j: Json): Json {
    Obj(FlattenInto("", j, map[]))
  }

  // ---------------------------------------------------------------- unflatten

  /** get_and_create followed by an assignment: a null becomes an array at token "0" and an object at any other. */
  function Place(r: Json, toks: Tokens, v: Json): Result<Json>
    decreases |toks|
  {
    if toks == [] then Ok(v) else
      match r
      case Null =>
        (match Place(Null, toks[1..], v)
         case Err(e) => Err(e)
         case Ok(c) => Ok(if toks[0] == "0" then Arr([c]) else Obj(map[toks[0] := c])))
      case Obj(m) =>
        (match Place(if toks[0] in m then m[toks[0]] else Null, toks[1..], v)
         case Err(e) => Err(e)
         case Ok(c) => Ok(Obj(m[toks[0] := c])))
      case Arr(x) =>
        (match Stoi(toks[0])
         case Err(e) => Err(e)
         case Ok(i) =>
           if i < 0 then Err(LengthError) else
             match Place(Filled(x, i)[i], toks[1..], v)
             case Err(e) => Err(e)
             case Ok(c) => Ok(Arr(Filled(x, i)[i := c])))
      case _ => Err(DomainError)
  }

  /** One entry of the flat object put in its place. */
  function PlaceEntry(r: Json, key: string, v: Json): Result<Json> {
    if !IsPrimitive(v) then Err(DomainError)
    else match Split(key)
      case Err(e) => Err(e)
      case Ok(toks) => Place(r, toks, v)
  }

  function PlaceAll(r: Json, flat: map<string, Json>, keys: seq<string>): Result<Json>
    requires forall k :: k in keys ==> k in flat
    decreases |keys|
  {
    if keys == [] then Ok(r) else
      match PlaceEntry(r, keys[0], flat[keys[0]])
      case Err(e) => Err(e)
      case Ok(next) => PlaceAll(next, flat, keys[1..])
  }

  function Unflatten(j: Json): Result<Json> {
    if j.Obj? then PlaceAll(Null, j.members, SortedKeys(j.members.Keys)) else Err(DomainError)
  }

  /** The loop of unflatten. */
  method UnflattenInPlace(j: Json) returns (r: Result<Json>)
    ensures r == Unflatten(j)
  {
    hide PlaceEntry, SortedKeys, Less;
    if !j.Obj? { return Err(DomainError); }
    var keys := SortedKeys(j.members.Keys);
    var result := Null;
    for n := 0 to |keys|
      invariant PlaceAll(result, j.members, keys[n..]) == PlaceAll(Null, j.members, keys)
    {
      assert keys[n..][0] == keys[n] && keys[n..][1..] == keys[n + 1..];
      var next := PlaceEntry(result, keys[n], j.members[keys[n]]);
      if next.Err? { return Err(next.error); }
      result := next.value;
    }
    return Ok(result);
  }

  /** Only objects can be unflattened; an entry that is no primitive, or whose key is no pointer, is refused when it
      is met, and so is one below a primitive that was placed before. */
  lemma UnflattenRefuses(j: Json, r: Json, key: string, v: Json, t: string, rest: Tokens)
    ensures !j.Obj? ==> Unflatten(j) == Err(DomainError)
    ensures !IsPrimitive(v) ==> PlaceEntry(r, key, v) == Err(DomainError)
    ensures Split(key).Err? ==> PlaceEntry(r, key, v) == Err(DomainError)
    ensures IsPrimitive(r) && !r.Null? && IsPrimitive(v) ==> PlaceEntry(r, ToString([t] + rest), v) == Err(DomainError)
    ensures r.Arr? && IsPrimitive(v) && t == "-1" ==> PlaceEntry(r, ToString([t] + rest), v) == Err(LengthError)
  {
    hide Unescape, WellEscaped, Pieces, ToString, Stoi;
    SplitToString([t] + rest);
    StoiReads("", "-", 1, "");
    assert "" + ("-" + (Digits(1) + "")) == "-1";
  }

  /** The first entry that is refused ends it. */
  lemma {:induction false} FirstRefusal(r: Json, flat: map<string, Json>, keys: seq<string>, n: nat, at: Json)
    requires (forall k :: k in keys ==> k in flat) && n < |keys|
    requires (forall k :: k in keys[..n] ==> k in keys) && PlaceAll(r, flat, keys[..n]) == Ok(at)
    requires PlaceEntry(at, keys[n], flat[keys[n]]).Err?
    ensures PlaceAll(r, flat, keys) == Err(PlaceEntry(at, keys[n], flat[keys[n]]).error)
    decreases n
  {
    hide PlaceEntry;
    if n > 0 {
      assert keys[..n][0] == keys[0] && keys[..n][1..] == keys[1..][..n - 1];
      var next := PlaceEntry(r, keys[0], flat[keys[0]]);
      FirstRefusal(next.value, flat, keys[1..], n - 1, at);
    }
  }

  // ---------------------------------------------------------------- leaves

  /** The child under a key, or under the printed form of an index. */
  predicate HasKid(j: Json, t: string) {
    match j
    case Obj(m) => t in m
    case Arr(x) => CheckedIndex(|x|, t).Ok? && Digits(CheckedIndex(|x|, t).value) == t
    case _ => false
  }

  function Kid(j: Json, t: string): Json
    requires HasKid(j, t)
  {
    Child(j, t).value
  }

  predicate IsLeafValue(j: Json) {
    IsPrimitive(j) || IsEmptyContainer(j)
  }

  /** `toks` leads from `j` to a primitive or an empty container. */
  predicate Leaf(j: Json, toks: Tokens)
    decreases |toks|
  {
    if toks == [] then IsLeafValue(j) else HasKid(j, toks[0]) && Leaf(Kid(j, toks[0]), toks[1..])
  }

  function LeafValue(j: Json, toks: Tokens): Json
    requires Leaf(j, toks)
    decreases |toks|
  {
    if toks == [] then (if IsPrimitive(j) then j else Null) else LeafValue(Kid(j, toks[0]), toks[1..])
  }

  /** The flat key is the pointer of a leaf of `j`, which itself stands at `at`. */
  predicate Under(at: Tokens, j: Json, key: string) {
    var t := Split(key);
    t.Ok? && at <= t.value && Leaf(j, t.value[|at|..])
  }

  function UnderValue(at: Tokens, j: Json, key: string): Json
    requires Under(at, j, key)
  {
    LeafValue(j, Split(key).value[|at|..])
  }

  lemma SplitPath(at: Tokens, key: string)
    ensures Split(key) == Ok(at) <==> key == ToString(at)
  {
    hide Split, ToString;
    SplitToString(at);
    if Split(key).Ok? { ToStringSplit(key); }
  }

  /** A key under `j` is under exactly one kid of `j`. */
  lemma UnderKid(at: Tokens, j: Json, key: string)
    requires !IsLeafValue(j)
    ensures Under(at, j, key) <==>
      var t := Split(key);
      t.Ok? && at < t.value && HasKid(j, t.value[|at|]) && Under(at + [t.value[|at|]], Kid(j, t.value[|at|]), key)
    ensures Under(at, j, key) ==>
      UnderValue(at, j, key) == UnderValue(at + [Split(key).value[|at|]], Kid(j, Split(key).value[|at|]), key)
  {
    hide Split, HasKid, Kid, IsLeafValue;
    var t := Split(key);
    if t.Ok? && at < t.value {
      var rest := t.value[|at|..];
      assert rest[0] == t.value[|at|] && rest[1..] == t.value[|at| + 1..];
      assert at + [rest[0]] == t.value[..|at| + 1];
    }
  }

  // ---------------------------------------------------------------- what flatten computes

  /** `after` is `before` with the leaves of `j` below `at` added. */
  ghost predicate Added(at: Tokens, j: Json, before: map<string, Json>, after: map<string, Json>) {
    forall key ::
      (key in after <==> key in before || Under(at, j, key)) &&
      (key in after ==> after[key] == if Under(at, j, key) then UnderValue(at, j, key) else before[key])
  }

  /** The leaves below the kids of `j` named in `kids`. */
  predicate UnderSome(at: Tokens, j: Json, kids: set<string>, key: string) {
    Under(at, j, key) && |Split(key).value| > |at| && Split(key).value[|at|] in kids
  }

  ghost predicate AddedSome(at: Tokens, j: Json, kids: set<string>, before: map<string, Json>, after: map<string, Json>) {
    forall key ::
      (key in after <==> key in before || UnderSome(at, j, kids, key)) &&
      (key in after ==> after[key] == if UnderSome(at, j, kids, key) then UnderValue(at, j, key) else before[key])
  }

  /** The leaves below one kid. */
  lemma UnderOne(at: Tokens, j: Json, t: string, key: string)
    requires HasKid(j, t)
    ensures Under(at + [t], Kid(j, t), key) <==> UnderSome(at, j, {t}, key)
    ensures UnderSome(at, j, {t}, key) ==> UnderValue(at + [t], Kid(j, t), key) == UnderValue(at, j, key)
  {
    assert !IsLeafValue(j);
    hide Split, HasKid, Kid, IsLeafValue, Leaf, LeafValue;
    UnderKid(at, j, key);
    var s := Split(key);
    if s.Ok? && at + [t] <= s.value {
      assert (at + [t])[|at|] == s.value[|at|];
    }
  }

  /** One more kid. */
  lemma AddedStep(at: Tokens, j: Json, t: string, kids: set<string>, before: map<string, Json>, mid: map<string, Json>, after: map<string, Json>)
    requires HasKid(j, t) && t !in kids
    requires Added(at + [t], Kid(j, t), before, mid) && AddedSome(at, j, kids, mid, after)
    ensures AddedSome(at, j, kids + {t}, before, after)
  {
    hide Under, UnderValue, HasKid, Kid, Split;
    forall key
      ensures key in after <==> key in before || UnderSome(at, j, kids + {t}, key)
      ensures key in after ==> after[key] == if UnderSome(at, j, kids + {t}, key) then UnderValue(at, j, key) else before[key]
    {
      UnderOne(at, j, t, key);
    }
  }

  function IndexTokens(i: nat, n: nat): set<string> {
    set k | i <= k < n :: Digits(k)
  }

  lemma DigitsInjective(i: nat, k: nat)
    requires Digits(i) == Digits(k)
    ensures i == k
  {
    hide Digits;
    DigitsRoundTrip(i);
    DigitsRoundTrip(k);
  }

  lemma IndexTokensStep(i: nat, n: nat)
    requires i < n
    ensures IndexTokens(i, n) == IndexTokens(i + 1, n) + {Digits(i)} && Digits(i) !in IndexTokens(i + 1, n)
  {
    hide Digits;
    forall k | i + 1 <= k < n ensures Digits(k) != Digits(i) {
      if Digits(k) == Digits(i) { DigitsInjective(i, k); }
    }
  }

  lemma KidAt(x: seq<Json>, i: nat)
    requires i < |x| <= INT_MAX + 1
    ensures HasKid(Arr(x), Digits(i)) && Kid(Arr(x), Digits(i)) == x[i]
  {
    hide Stoi, Digits;
    StoiDigits(i);
    assert Digits(i) != "-" by { assert IsDigit(Digits(i)[0]); }
  }

  lemma PathOfKid(at: Tokens, t: string)
    ensures ToString(at) + "/" + Escape(t) == ToString(at + [t])
  {
    hide Escape;
    assert (at + [t])[..|at|] == at;
  }

  lemma {:induction false} ItemsAdd(at: Tokens, j: Json, i: nat, before: map<string, Json>)
    requires j.Arr? && Indexable(j)
    ensures AddedSome(at, j, IndexTokens(i, |j.items|), before, FlattenItems(ToString(at), j, i, before))
    decreases j, 0, |j.items| - i
  {
    hide ToString, Escape, Digits, FlattenInto, HasKid, Kid, Added, Under, UnderValue;
    var n := |j.items|;
    if i >= n {
      assert IndexTokens(i, n) == {};
    } else {
      var t := Digits(i);
      DigitsPlain(i);
      PathOfKid(at, t);
      KidAt(j.items, i);
      var mid := FlattenInto(ToString(at) + "/" + t, j.items[i], before);
      FlattenAdds(at + [t], j.items[i], before);
      ItemsAdd(at, j, i + 1, mid);
      IndexTokensStep(i, n);
      hide AddedSome, IndexTokens;
      AddedStep(at, j, t, IndexTokens(i + 1, n), before, mid, FlattenItems(ToString(at), j, i + 1, mid));
    }
  }

  lemma {:induction false} KeysAdd(at: Tokens, j: Json, keys: seq<string>, before: map<string, Json>)
    requires j.Obj? && Indexable(j) && forall k :: k in keys ==> k in j.members
    requires forall a, b :: 0 <= a < b < |keys| ==> keys[a] != keys[b]
    ensures AddedSome(at, j, Named(keys), before, FlattenKeys(ToString(at), j, keys, before))
    decreases j, 0, |keys|
  {
    hide ToString, Escape, FlattenInto, Added, Under, UnderValue;
    if keys == [] {
      assert Named(keys) == {};
    } else {
      var k, tail := keys[0], keys[1..];
      PathOfKid(at, k);
      var mid := FlattenInto(ToString(at) + "/" + Escape(k), j.members[k], before);
      FlattenAdds(at + [k], j.members[k], before);
      KeysAdd(at, j, tail, mid);
      forall a | 0 <= a < |tail| ensures tail[a] != k { assert tail[a] == keys[a + 1]; }
      assert Named(keys) == Named(tail) + {k} && k !in Named(tail);
      hide AddedSome, Named;
      AddedStep(at, j, k, Named(tail), before, mid, FlattenKeys(ToString(at), j, tail, mid));
    }
  }

  lemma AllKids(at: Tokens, j: Json, kids: set<string>, before: map<string, Json>, after: map<string, Json>)
    requires !IsLeafValue(j) && AddedSome(at, j, kids, before, after) && forall t :: HasKid(j, t) ==> t in kids
    ensures Added(at, j, before, after)
  {
    hide Split, HasKid, Kid, Leaf, LeafValue, IsLeafValue;
    forall key ensures Under(at, j, key) <==> UnderSome(at, j, kids, key) { UnderKid(at, j, key); }
    hide Under, UnderSome, UnderValue;
  }

  lemma LeafAdds(at: Tokens, j: Json, before: map<string, Json>)
    requires IsLeafValue(j)
    ensures Added(at, j, before, before[ToString(at) := if IsPrimitive(j) then j else Null])
  {
    hide Split, ToString;
    forall key
      ensures Under(at, j, key) <==> key == ToString(at)
      ensures Under(at, j, key) ==> UnderValue(at, j, key) == if IsPrimitive(j) then j else Null
    {
      SplitPath(at, key);
      var t := Split(key);
      if t.Ok? && at <= t.value && t.value[|at|..] == [] { assert t.value == at; }
      if t == Ok(at) { assert t.value[|at|..] == []; }
    }
  }

  /** Flattening adds exactly the leaves of the value, each under its pointer. */
  lemma {:induction false} FlattenAdds(at: Tokens, j: Json, before: map<string, Json>)
    requires Indexable(j)
    ensures Added(at, j, before, FlattenInto(ToString(at), j, before))
    decreases j, 1, 0
  {
    hide ToString, Added, AddedSome, FlattenItems, FlattenKeys, SortedKeys, Less, Stoi, Digits;
    if IsLeafValue(j) {
      LeafAdds(at, j, before);
    } else if j.Arr? {
      ItemsAdd(at, j, 0, before);
      forall t | HasKid(j, t) ensures t in IndexTokens(0, |j.items|) {
        assert t == Digits(CheckedIndex(|j.items|, t).value);
      }
      AllKids(at, j, IndexTokens(0, |j.items|), before, FlattenInto(ToString(at), j, before));
    } else {
      var keys := SortedKeys(j.members.Keys);
      forall a, b | 0 <= a < b < |keys| ensures keys[a] != keys[b] { SortedDistinct(j.members.Keys, a, b); }
      KeysAdd(at, j, keys, before);
      AllKids(at, j, Named(keys), before, FlattenInto(ToString(at), j, before));
    }
  }

  /** The entries of the flat object: the pointers of the leaves, with the leaves. */
  lemma FlattenEntries(j: Json, key: string)
    requires Indexable(j)
    ensures var flat := Flatten(j).members;
      (key in flat <==> Under([], j, key)) && (key in flat ==> flat[key] == UnderValue([], j, key))
  {
    hide Under, UnderValue, FlattenInto;
    FlattenAdds([], j, map[]);
    assert ToString([]) == "";
  }
}
