/** Flatten and unflatten undo each other, and exactly when. */
module JsonFlattenProof {
  import opened Decimal
  import opened KeyOrder
  import opened JsonValue
  import opened JsonText
  import opened JsonPointer
  import opened JsonAccess
  import opened JsonFlatten
  import opened JsonFlattenOrder

  // ---------------------------------------------------------------- which values can be restored

  /** An object with a key "0" is met at another key first. */
  predicate ZeroNotFirst(m: map<string, Json>) {
    "0" in m ==> exists k :: k in m && Ahead(k, m["0"])
  }

  /** No empty container inside, and no object that starts with key "0". */
  predicate Restorable(j: Json) {
    !IsEmptyContainer(j) &&
    match j
    case Arr(x) => forall i :: 0 <= i < |x| ==> Restorable(x[i])
    case Obj(m) => ZeroNotFirst(m) && forall k :: k in m ==> Restorable(m[k])
    case _ => true
  }

  // ---------------------------------------------------------------- walking

  predicate Has(j: Json, toks: Tokens)
    decreases |toks|
  {
    toks == [] || (HasKid(j, toks[0]) && Has(Kid(j, toks[0]), toks[1..]))
  }

  function Get(j: Json, toks: Tokens): Json
    requires Has(j, toks)
    decreases |toks|
  {
    if toks == [] then j else Get(Kid(j, toks[0]), toks[1..])
  }

  lemma {:induction false} LeafHas(j: Json, toks: Tokens)
    requires Leaf(j, toks)
    ensures Has(j, toks) && IsLeafValue(Get(j, toks))
    ensures LeafValue(j, toks) == if IsPrimitive(Get(j, toks)) then Get(j, toks) else Null
    decreases |toks|
  {
    hide HasKid, Kid, IsLeafValue;
    if toks != [] { LeafHas(Kid(j, toks[0]), toks[1..]); }
  }

  lemma {:induction false} HasConcat(j: Json, a: Tokens, b: Tokens)
    requires Has(j, a)
    ensures Has(j, a + b) <==> Has(Get(j, a), b)
    ensures Has(j, a + b) ==> Get(j, a + b) == Get(Get(j, a), b)
    ensures Leaf(j, a + b) <==> Leaf(Get(j, a), b)
    decreases |a|
  {
    hide HasKid, Kid, IsLeafValue;
    if a == [] {
      assert a + b == b;
    } else {
      assert (a + b)[1..] == a[1..] + b;
      HasConcat(Kid(j, a[0]), a[1..], b);
    }
  }

  lemma NoKids(j: Json, t: string)
    requires IsLeafValue(j)
    ensures !HasKid(j, t)
  {
  }

  lemma MemberKid(m: map<string, Json>, k: string)
    requires k in m
    ensures HasKid(Obj(m), k) && Kid(Obj(m), k) == m[k]
  {
  }

  /** What a container passes on to its kids. */
  lemma KidFacts(j: Json, t: string)
    requires HasKid(j, t)
    ensures !IsLeafValue(j) && (j.Arr? || j.Obj?)
    ensures Indexable(j) ==> Indexable(Kid(j, t))
    ensures Restorable(j) ==> Restorable(Kid(j, t))
  {
    hide Stoi, Digits, ZeroNotFirst;
  }

  /** Every value has a leaf. */
  lemma {:induction false} SomeLeaf(j: Json) returns (toks: Tokens)
    requires Indexable(j)
    ensures Leaf(j, toks)
  {
    hide HasKid, Kid, Digits;
    if IsLeafValue(j) { return []; }
    match j
    case Arr(x) =>
      var rest := SomeLeaf(x[0]);
      KidAt(x, 0);
      toks := [Digits(0)] + rest;
      assert toks[1..] == rest;
    case Obj(m) =>
      var k :| k in m;
      var rest := SomeLeaf(m[k]);
      MemberKid(m, k);
      toks := [k] + rest;
      assert toks[1..] == rest;
  }

  // ---------------------------------------------------------------- who comes first below a place

  /** Nothing below the place is met before the leaf that follows it. */
  ghost predicate First(j: Json, toks: Tokens) {
    forall other :: Leaf(j, other) ==> !Less(ToString(other), ToString(toks))
  }

  lemma LeafCons(j: Json, t: string, rest: Tokens)
    requires HasKid(j, t) && Leaf(Kid(j, t), rest)
    ensures Leaf(j, [t] + rest)
  {
    hide HasKid, Kid, IsLeafValue;
    assert ([t] + rest)[0] == t && ([t] + rest)[1..] == rest;
  }

  lemma ConsOrder(t: string, a: Tokens, u: string, b: Tokens)
    ensures Less(ToString([t] + a), ToString([u] + b)) <==> Less(Tail(t, a), Tail(u, b))
  {
    hide Tail, Less, ToString;
    SiblingOrder([], t, a, u, b);
    assert [] + ([t] + a) == [t] + a && [] + ([u] + b) == [u] + b;
  }

  /** The first leaf of an array is below index 0. */
  lemma FirstOfArray(j: Json, toks: Tokens)
    requires j.Arr? && j.items != [] && Indexable(j) && toks != [] && Leaf(j, toks) && First(j, toks)
    ensures toks[0] == "0"
  {
    hide HasKid, Kid, IsLeafValue, Tail, Less, ToString, Digits, Leaf;
    var t, rest := toks[0], toks[1..];
    assert toks == [t] + rest;
    ZeroPlain();
    KidAt(j.items, 0);
    var a := SomeLeaf(j.items[0]);
    LeafCons(j, "0", a);
    ConsOrder("0", a, t, rest);
    var i := IndexOf(j, toks);
    if i > 0 { IndexOrder(i, a, rest); }
  }

  lemma IndexOf(j: Json, toks: Tokens) returns (i: nat)
    requires j.Arr? && toks != [] && Leaf(j, toks)
    ensures i < |j.items| && Digits(i) == toks[0]
  {
    hide Digits, Stoi;
    i := CheckedIndex(|j.items|, toks[0]).value;
  }

  lemma NeverAheadOfItself(zero: Json)
    ensures !Ahead("0", zero)
  {
  }

  /** The first leaf of an object is below key "0" exactly when that key is there and no key is ahead of it. */
  lemma FirstOfObject(j: Json, toks: Tokens)
    requires j.Obj? && Indexable(j) && toks != [] && Leaf(j, toks) && First(j, toks)
    ensures toks[0] == "0" <==> !ZeroNotFirst(j.members)
  {
    hide IsLeafValue, Tail, Less, ToString, Ahead, Leaf;
    var m := j.members;
    var t, rest := toks[0], toks[1..];
    assert toks == [t] + rest;
    LeafParts(j, toks);
    if t == "0" {
      if ZeroNotFirst(m) {
        var k :| k in m && Ahead(k, m["0"]);
        var a := SomeLeaf(m[k]);
        LeafCons(j, k, a);
        NeverAheadOfItself(m["0"]);
        ZeroOrder(k, a, m["0"], rest);
        ConsOrder(k, a, "0", rest);
        assert false;
      }
    } else if "0" in m {
      var b := SomeLeaf(m["0"]);
      LeafCons(j, "0", b);
      LeafEnd(m["0"], b);
      ZeroOrder(t, rest, m["0"], b);
      ConsOrder("0", b, t, rest);
      assert Ahead(t, m["0"]);
    }
  }

  lemma LeafEnd(j: Json, toks: Tokens)
    requires Leaf(j, toks)
    ensures toks == [] <==> IsLeafValue(j)
  {
    if toks != [] && IsLeafValue(j) { NoKids(j, toks[0]); assert false; }
  }

  lemma LeafParts(j: Json, toks: Tokens)
    requires toks != [] && Leaf(j, toks)
    ensures HasKid(j, toks[0]) && Leaf(Kid(j, toks[0]), toks[1..])
    ensures (toks[1..] == [] <==> IsLeafValue(Kid(j, toks[0])))
  {
    LeafEnd(Kid(j, toks[0]), toks[1..]);
  }

  // ---------------------------------------------------------------- values under construction

  /** `r` is a part of `j`: where it is not null it has the same shape, and its leaves are those of `j`. */
  predicate Agrees(r: Json, j: Json)
    decreases j
  {
    r.Null? ||
    match (r, j)
    case (Arr(y), Arr(x)) => |y| <= |x| && forall i :: 0 <= i < |y| ==> Agrees(y[i], x[i])
    case (Obj(n), Obj(m)) => forall k :: k in n ==> k in m && Agrees(n[k], m[k])
    case _ => IsPrimitive(j) && r == j
  }

  function Down(r: Json, t: string): Json {
    if HasKid(r, t) then Kid(r, t) else Null
  }

  lemma DownKid(r: Json, t: string)
    ensures HasKid(r, t) ==> Down(r, t) == Kid(r, t)
    ensures !HasKid(r, t) ==> Down(r, t) == Null
  {
  }

  /** On the way along `toks`, every null is turned into the right kind of container. */
  predicate Opens(r: Json, j: Json, toks: Tokens)
    decreases |toks|
  {
    toks == [] ||
    (HasKid(j, toks[0]) && (r.Null? ==> (j.Arr? <==> toks[0] == "0")) && Opens(Down(r, toks[0]), Kid(j, toks[0]), toks[1..]))
  }

  /** What placing at `[t] + rest` does to an array. */
  lemma PlaceInArray(y: seq<Json>, n: nat, t: string, rest: Tokens, v: Json)
    requires |y| <= n <= INT_MAX + 1 && CheckedIndex(n, t).Ok? && Digits(CheckedIndex(n, t).value) == t
    requires Place(Down(Arr(y), t), rest, v).Ok?
    ensures var i, c := CheckedIndex(n, t).value, Place(Down(Arr(y), t), rest, v).value;
      Place(Arr(y), [t] + rest, v) == Ok(Arr(Filled(y, i)[i := c]))
  {
    hide Stoi, Digits;
    var i := CheckedIndex(n, t).value;
    StoiDigits(i);
    assert ([t] + rest)[1..] == rest;
    assert Down(Arr(y), t) == Filled(y, i)[i];
  }

  lemma DownAgrees(r: Json, j: Json, t: string)
    requires Agrees(r, j) && HasKid(j, t)
    ensures Agrees(Down(r, t), Kid(j, t))
  {
    hide Stoi, Digits;
  }

  lemma PlaceInNew(j: Json, t: string, rest: Tokens, v: Json)
    requires HasKid(j, t) && Indexable(j) && (j.Arr? <==> t == "0")
    requires Place(Null, rest, v).Ok? && Agrees(Place(Null, rest, v).value, Kid(j, t))
    ensures var p := Place(Null, [t] + rest, v);
      p.Ok? && Agrees(p.value, j) && HasKid(p.value, t) && Kid(p.value, t) == Place(Null, rest, v).value
  {
    hide Stoi, Digits;
    var c := Place(Null, rest, v).value;
    assert ([t] + rest)[1..] == rest;
    ZeroPlain();
    if t == "0" {
      KidAt([c], 0);
      KidAt(j.items, 0);
    }
  }

  lemma PlaceInOld(r: Json, j: Json, t: string, rest: Tokens, v: Json)
    requires Agrees(r, j) && Indexable(j) && HasKid(j, t) && r.Arr?
    requires Place(Down(r, t), rest, v).Ok? && Agrees(Place(Down(r, t), rest, v).value, Kid(j, t))
    ensures var p := Place(r, [t] + rest, v);
      p.Ok? && Agrees(p.value, j) && HasKid(p.value, t) && Kid(p.value, t) == Place(Down(r, t), rest, v).value
  {
    var y := r.items;
    var c := Place(Down(r, t), rest, v).value;
    var i := CheckedIndex(|j.items|, t).value;
    PlaceInArray(y, |j.items|, t, rest, v);
    KidAt(Filled(y, i)[i := c], i);
    hide Stoi, Digits, Place, Down;
  }

  /** One level of a placement: the new child `c` goes where `t` leads. */
  lemma PlaceLevel(r: Json, j: Json, t: string, rest: Tokens, v: Json)
    requires Agrees(r, j) && Indexable(j) && HasKid(j, t) && (r.Null? ==> (j.Arr? <==> t == "0"))
    requires Place(Down(r, t), rest, v).Ok? && Agrees(Place(Down(r, t), rest, v).value, Kid(j, t))
    ensures var p := Place(r, [t] + rest, v);
      p.Ok? && Agrees(p.value, j) && HasKid(p.value, t) && Kid(p.value, t) == Place(Down(r, t), rest, v).value
  {
    hide Stoi, Digits, CheckedIndex;
    assert ([t] + rest)[1..] == rest;
    match r
    case Null => PlaceInNew(j, t, rest, v);
    case Obj(n) =>
    case Arr(y) => PlaceInOld(r, j, t, rest, v);
    case _ =>
  }

  /** Placing a leaf where the way opens rightly succeeds, keeps the shape, and puts the leaf there. */
  lemma {:induction false} PlaceAgrees(r: Json, j: Json, toks: Tokens)
    requires Agrees(r, j) && Indexable(j) && Leaf(j, toks) && Opens(r, j, toks)
    ensures var p := Place(r, toks, LeafValue(j, toks));
      p.Ok? && Agrees(p.value, j) && Has(p.value, toks) && Get(p.value, toks) == LeafValue(j, toks)
    decreases |toks|
  {
    if toks != [] {
      hide HasKid, Kid, Place, Agrees, Down;
      var t, rest := toks[0], toks[1..];
      assert toks == [t] + rest;
      DownAgrees(r, j, t);
      KidFacts(j, t);
      PlaceAgrees(Down(r, t), Kid(j, t), rest);
      PlaceLevel(r, j, t, rest, LeafValue(j, toks));
    }
  }

  /** A placement at kid `t` leaves the other kids alone. */
  lemma OtherKid(r: Json, j: Json, t: string, rest: Tokens, v: Json, u: string)
    requires Agrees(r, j) && Indexable(j) && HasKid(j, t) && HasKid(j, u) && t != u && HasKid(r, u)
    requires Place(r, [t] + rest, v).Ok?
    ensures var p := Place(r, [t] + rest, v).value; HasKid(p, u) && Kid(p, u) == Kid(r, u)
  {
    hide Stoi, Digits;
    assert ([t] + rest)[0] == t && ([t] + rest)[1..] == rest;
    match r
    case Obj(n) =>
    case Arr(y) =>
      var i := CheckedIndex(|j.items|, t).value;
      StoiDigits(i);
      StoiDigits(CheckedIndex(|j.items|, u).value);
  }

  /** A placed leaf stays when another one is placed. */
  lemma {:induction false} PlaceKeeps(r: Json, j: Json, toks: Tokens, other: Tokens)
    requires Agrees(r, j) && Indexable(j) && Leaf(j, toks) && Leaf(j, other) && other != toks && Opens(r, j, toks) && Has(r, other)
    ensures var p := Place(r, toks, LeafValue(j, toks));
      p.Ok? && Has(p.value, other) && Get(p.value, other) == Get(r, other)
    decreases |toks|
  {
    hide HasKid, Kid, Place, Agrees, Down, IsLeafValue;
    PlaceAgrees(r, j, toks);
    LeafEnd(j, toks);
    LeafEnd(j, other);
    var t, rest := toks[0], toks[1..];
    var u, tail := other[0], other[1..];
    assert toks == [t] + rest && other == [u] + tail;
    DownAgrees(r, j, t);
    KidFacts(j, t);
    if t == u {
      DownKid(r, t);
      PlaceAgrees(Down(r, t), Kid(j, t), rest);
      PlaceKeeps(Down(r, t), Kid(j, t), rest, tail);
      PlaceLevel(r, j, t, rest, LeafValue(j, toks));
    } else {
      OtherKid(r, j, t, rest, LeafValue(j, toks), u);
    }
  }

  // ---------------------------------------------------------------- the way opens rightly

  /** All leaves met before `toks` are in place. */
  ghost predicate EarlierPlaced(r: Json, j: Json, toks: Tokens) {
    forall other :: Leaf(j, other) && Less(ToString(other), ToString(toks)) ==> Has(r, other)
  }

  lemma EarlierBelow(r: Json, j: Json, t: string, rest: Tokens)
    requires HasKid(j, t) && EarlierPlaced(r, j, [t] + rest)
    ensures EarlierPlaced(Down(r, t), Kid(j, t), rest)
  {
    hide HasKid, Kid, IsLeafValue, ToString, Less;
    forall other | Leaf(Kid(j, t), other) && Less(ToString(other), ToString(rest)) ensures Has(Down(r, t), other) {
      LeafCons(j, t, other);
      ToStringConcat([t], other);
      ToStringConcat([t], rest);
      LessConcat(ToString([t]), ToString(other), ToString(rest));
      assert Has(r, [t] + other);
      assert ([t] + other)[1..] == other;
    }
  }

  lemma NothingPlaced(j: Json, toks: Tokens)
    requires toks != [] && Leaf(j, toks) && EarlierPlaced(Null, j, toks)
    ensures First(j, toks)
  {
    hide Less, ToString, IsLeafValue;
    forall other | Leaf(j, other) ensures !Less(ToString(other), ToString(toks)) {
      LeafEnd(j, toks);
      LeafEnd(j, other);
      assert !HasKid(Null, other[0]);
    }
  }

  lemma {:induction false} OpensHolds(r: Json, j: Json, toks: Tokens)
    requires Restorable(j) && Indexable(j) && Leaf(j, toks) && EarlierPlaced(r, j, toks)
    ensures Opens(r, j, toks)
    decreases |toks|
  {
    hide HasKid, Kid, Down, EarlierPlaced, First;
    if toks != [] {
      var t, rest := toks[0], toks[1..];
      assert toks == [t] + rest;
      KidFacts(j, t);
      EarlierBelow(r, j, t, rest);
      OpensHolds(Down(r, t), Kid(j, t), rest);
      if r.Null? {
        NothingPlaced(j, toks);
        if j.Arr? { FirstOfArray(j, toks); } else { FirstOfObject(j, toks); }
      }
    }
  }

  // ---------------------------------------------------------------- all leaves in place

  /** `r` has each kid of `j`, with the same value. */
  ghost predicate SameKids(r: Json, j: Json) {
    forall t :: HasKid(j, t) ==> HasKid(r, t) && Kid(r, t) == Kid(j, t)
  }

  lemma SameArray(r: Json, j: Json)
    requires j.Arr? && j.items != [] && Indexable(j) && Agrees(r, j) && SameKids(r, j)
    ensures r == j
  {
    var x := j.items;
    KidAt(x, 0);
    assert r.Arr?;
    var y := r.items;
    assert |y| <= |x|;
    hide HasKid, Kid, Digits, Stoi, Agrees, Indexable;
    forall i | 0 <= i < |x| ensures i < |y| && y[i] == x[i] {
      KidAt(x, i);
      ItemPlaced(y, x[i], i);
    }
    KidAt(x, |x| - 1);
    ItemPlaced(y, x[|x| - 1], |x| - 1);
    assert y == x;
  }

  lemma SameObject(r: Json, j: Json)
    requires j.Obj? && j.members != map[] && Agrees(r, j) && SameKids(r, j)
    ensures r == j
  {
    var m := j.members;
    var any :| any in m;
    assert HasKid(j, any) && HasKid(r, any);
    assert r.Obj?;
    forall k | k in m ensures k in r.members && r.members[k] == m[k] { assert HasKid(j, k); }
    assert r.members == m;
  }

  lemma {:induction false} AllPlaced(r: Json, j: Json)
    requires Agrees(r, j) && Restorable(j) && Indexable(j)
    requires forall toks :: Leaf(j, toks) ==> Has(r, toks) && Get(r, toks) == LeafValue(j, toks)
    ensures r == j
    decreases j
  {
    if IsPrimitive(j) {
      assert Leaf(j, []);
    } else {
      assert SameKids(r, j) by {
        forall t | HasKid(j, t) ensures HasKid(r, t) && Kid(r, t) == Kid(j, t) {
          KidFacts(j, t);
          KidSmaller(j, t);
          hide Kid, Restorable, Indexable;
          KidPlaced(r, j, t);
          DownAgrees(r, j, t);
          DownKid(r, t);
          hide HasKid, Agrees, Down;
          AllPlaced(Kid(r, t), Kid(j, t));
        }
      }
      hide HasKid, Kid, Leaf, LeafValue, Has, Get, Agrees;
      if j.Arr? { SameArray(r, j); } else { SameObject(r, j); }
    }
  }

  lemma KidSmaller(j: Json, t: string)
    requires HasKid(j, t)
    ensures Kid(j, t) < j
  {
  }

  lemma ItemPlaced(y: seq<Json>, c: Json, i: nat)
    requires i <= INT_MAX && HasKid(Arr(y), Digits(i)) && Kid(Arr(y), Digits(i)) == c
    ensures i < |y| && y[i] == c
  {
    hide Stoi, Digits;
    StoiDigits(i);
  }

  lemma KidPlaced(r: Json, j: Json, t: string)
    requires HasKid(j, t) && Indexable(Kid(j, t))
    requires forall toks :: Leaf(j, toks) ==> Has(r, toks) && Get(r, toks) == LeafValue(j, toks)
    ensures HasKid(r, t)
    ensures forall toks :: Leaf(Kid(j, t), toks) ==> Has(Kid(r, t), toks) && Get(Kid(r, t), toks) == LeafValue(Kid(j, t), toks)
  {
    hide HasKid, Kid, IsLeafValue;
    var any := SomeLeaf(Kid(j, t));
    forall toks | Leaf(Kid(j, t), toks)
      ensures HasKid(r, t) && Has(Kid(r, t), toks) && Get(Kid(r, t), toks) == LeafValue(Kid(j, t), toks)
    {
      LeafCons(j, t, toks);
      assert Has(r, [t] + toks);
      assert ([t] + toks)[0] == t && ([t] + toks)[1..] == toks;
    }
  }
}
