/** Unflatten restores a flattened value exactly when it is restorable. */
module JsonFlattenTheorem {
  import opened Decimal
  import opened KeyOrder
  import opened JsonValue
  import opened JsonText
  import opened JsonPointer
  import opened JsonAccess
  import opened JsonFlatten
  import opened JsonFlattenOrder
  import opened JsonFlattenProof

  // ---------------------------------------------------------------- the entries in the order they are met

  function Entries(j: Json): map<string, Json> {
    Flatten(j).members
  }

  function EntryKeys(j: Json): seq<string> {
    SortedKeys(Entries(j).Keys)
  }

  /** The n-th entry is a leaf, under its pointer. */
  lemma EntryIsLeaf(j: Json, n: nat) returns (toks: Tokens)
    requires Indexable(j) && n < |EntryKeys(j)|
    ensures Leaf(j, toks) && EntryKeys(j)[n] == ToString(toks) && Split(EntryKeys(j)[n]) == Ok(toks)
    ensures Entries(j)[EntryKeys(j)[n]] == LeafValue(j, toks) && IsPrimitive(LeafValue(j, toks))
  {
    hide Flatten, SortedKeys, Less, Split, ToString, Leaf, LeafValue;
    var key := EntryKeys(j)[n];
    assert key in EntryKeys(j) && key in Entries(j);
    FlattenEntries(j, key);
    toks := Split(key).value;
    assert toks[0..] == toks;
    ToStringSplit(key);
    LeafHas(j, toks);
  }

  /** Every leaf is an entry; those with a smaller pointer come before the n-th. */
  lemma LeafIsEntry(j: Json, toks: Tokens, n: nat)
    requires Indexable(j) && Leaf(j, toks) && n <= |EntryKeys(j)|
    ensures ToString(toks) in EntryKeys(j)
    ensures n < |EntryKeys(j)| && Less(ToString(toks), EntryKeys(j)[n]) ==> ToString(toks) in EntryKeys(j)[..n]
  {
    hide Flatten, SortedKeys, Less, Split, ToString, Leaf, LeafValue;
    var key, keys := ToString(toks), EntryKeys(j);
    SplitToString(toks);
    assert toks[0..] == toks;
    FlattenEntries(j, key);
    if n < |keys| && Less(key, keys[n]) {
      var i :| 0 <= i < |keys| && keys[i] == key;
      LessTotal(key, keys[n]);
      assert i < n;
      assert keys[..n][i] == key;
    }
  }

  // ---------------------------------------------------------------- restorable values are restored

  /** After `n` entries: the value so far is a part of `j`, and the leaves met are in it. */
  ghost predicate Progress(r: Json, j: Json, n: nat)
    requires n <= |EntryKeys(j)|
  {
    Agrees(r, j) &&
    forall toks :: Leaf(j, toks) && ToString(toks) in EntryKeys(j)[..n] ==> Has(r, toks) && Get(r, toks) == LeafValue(j, toks)
  }

  lemma Advance(r: Json, j: Json, n: nat)
    requires Restorable(j) && Indexable(j) && n < |EntryKeys(j)| && Progress(r, j, n)
    ensures var p := PlaceEntry(r, EntryKeys(j)[n], Entries(j)[EntryKeys(j)[n]]); p.Ok? && Progress(p.value, j, n + 1)
  {
    hide EntryKeys, Entries, Split, ToString, Leaf, LeafValue, Agrees, Has, Get, Less, Place, Opens, Restorable, Indexable;
    var keys := EntryKeys(j);
    var toks := EntryIsLeaf(j, n);
    forall other | Leaf(j, other) && Less(ToString(other), ToString(toks)) ensures Has(r, other) { LeafIsEntry(j, other, n); }
    OpensHolds(r, j, toks);
    PlaceAgrees(r, j, toks);
    var p := Place(r, toks, LeafValue(j, toks)).value;
    forall other | Leaf(j, other) && ToString(other) in keys[..n + 1]
      ensures Has(p, other) && Get(p, other) == LeafValue(j, other)
    {
      assert keys[..n + 1] == keys[..n] + [keys[n]];
      if other != toks {
        SplitToString(other);
        PlaceKeeps(r, j, toks, other);
      }
    }
  }

  lemma {:induction false} Restores(r: Json, j: Json, n: nat)
    requires Restorable(j) && Indexable(j) && n <= |EntryKeys(j)| && Progress(r, j, n)
    ensures PlaceAll(r, Entries(j), EntryKeys(j)[n..]) == Ok(j)
    decreases |EntryKeys(j)| - n
  {
    hide PlaceEntry, Leaf, LeafValue, Agrees, Has, Get, ToString, Restorable, Indexable, SortedKeys, Less, Flatten;
    var keys := EntryKeys(j);
    if n == |keys| {
      assert keys[..n] == keys;
      forall toks | Leaf(j, toks) ensures Has(r, toks) && Get(r, toks) == LeafValue(j, toks) { LeafIsEntry(j, toks, n); }
      AllPlaced(r, j);
    } else {
      Advance(r, j, n);
      assert keys[n..][0] == keys[n] && keys[n..][1..] == keys[n + 1..];
      hide Progress;
      Restores(PlaceEntry(r, keys[n], Entries(j)[keys[n]]).value, j, n + 1);
    }
  }

  // ---------------------------------------------------------------- the others are not

  predicate Bad(j: Json) {
    IsEmptyContainer(j) || (j.Obj? && !ZeroNotFirst(j.members))
  }

  /** The part at `at` is bad, and nothing above it is. */
  predicate TopBad(j: Json, at: Tokens)
    decreases |at|
  {
    if at == [] then Bad(j) else !Bad(j) && HasKid(j, at[0]) && TopBad(Kid(j, at[0]), at[1..])
  }

  lemma {:induction false} FindBad(j: Json) returns (at: Tokens)
    requires !Restorable(j) && Indexable(j)
    ensures TopBad(j, at)
    decreases j
  {
    hide Stoi, Digits, ZeroNotFirst;
    if Bad(j) { return []; }
    match j
    case Arr(x) =>
      var i :| 0 <= i < |x| && !Restorable(x[i]);
      var rest := FindBad(x[i]);
      KidAt(x, i);
      at := [Digits(i)] + rest;
      assert at[1..] == rest;
    case Obj(m) =>
      var k :| k in m && !Restorable(m[k]);
      var rest := FindBad(m[k]);
      at := [k] + rest;
      assert at[1..] == rest;
  }

  predicate SameContainer(r: Json, j: Json) {
    (r.Arr? && j.Arr?) || (r.Obj? && j.Obj?)
  }

  /** At `at` stands what the bad part of `j` can never turn out as. */
  predicate Wrong(r: Json, j: Json, at: Tokens)
    decreases |at|
  {
    if at == [] then (if IsEmptyContainer(j) then r.Null? else r.Arr? && j.Obj?)
    else SameContainer(r, j) && HasKid(r, at[0]) && HasKid(j, at[0]) && Wrong(Kid(r, at[0]), Kid(j, at[0]), at[1..])
  }

  /** The library's own equality tells them apart too. */
  lemma {:induction false} WrongDiffers(r: Json, j: Json, at: Tokens, mix: Mixed)
    requires Wrong(r, j, at)
    ensures r != j && !Eq(r, j, mix)
    decreases |at|
  {
    hide HasKid, Kid, Eq;
    if at == [] {
      WrongKind(r, j, mix);
    } else {
      WrongDiffers(Kid(r, at[0]), Kid(j, at[0]), at[1..], mix);
      if Eq(r, j, mix) { EqualKids(r, j, at[0], mix); }
    }
  }

  lemma WrongKind(r: Json, j: Json, mix: Mixed)
    requires Wrong(r, j, [])
    ensures r != j && !Eq(r, j, mix)
  {
  }

  lemma EqualKids(r: Json, j: Json, t: string, mix: Mixed)
    requires SameContainer(r, j) && HasKid(r, t) && HasKid(j, t) && Eq(r, j, mix)
    ensures Eq(Kid(r, t), Kid(j, t), mix)
  {
    hide Digits, Stoi;
  }

  /** One level of a placement inside a container of the right kind. */
  lemma SameLevel(r: Json, j: Json, t: string, rest: Tokens, v: Json)
    requires SameContainer(r, j) && HasKid(j, t) && Indexable(j) && Place(r, [t] + rest, v).Ok?
    ensures var p := Place(r, [t] + rest, v).value;
      && SameContainer(p, j) && HasKid(p, t) && Place(Down(r, t), rest, v) == Ok(Kid(p, t))
  {
    hide Stoi, Digits;
    assert ([t] + rest)[0] == t && ([t] + rest)[1..] == rest;
    if r.Arr? {
      var y, i := r.items, CheckedIndex(|j.items|, t).value;
      StoiDigits(i);
      assert Down(r, t) == Filled(y, i)[i];
    }
  }

  /** The other kids stay; an array may gain nulls. */
  lemma SameOthers(r: Json, j: Json, t: string, rest: Tokens, v: Json, u: string)
    requires SameContainer(r, j) && HasKid(j, t) && HasKid(j, u) && t != u && Indexable(j) && Place(r, [t] + rest, v).Ok?
    ensures var p := Place(r, [t] + rest, v).value;
      Down(p, u) == Down(r, u) && (HasKid(r, u) ==> HasKid(p, u))
  {
    hide Stoi, Digits;
    assert ([t] + rest)[0] == t && ([t] + rest)[1..] == rest;
    if r.Arr? {
      StoiDigits(CheckedIndex(|j.items|, t).value);
      StoiDigits(CheckedIndex(|j.items|, u).value);
    }
  }

  lemma {:induction false} WrongStays(r: Json, j: Json, at: Tokens, toks: Tokens)
    requires Wrong(r, j, at) && Leaf(j, toks) && Indexable(j) && Place(r, toks, LeafValue(j, toks)).Ok?
    ensures Wrong(Place(r, toks, LeafValue(j, toks)).value, j, at)
    decreases |at|
  {
    hide HasKid, Kid, Down, Stoi;
    var v := LeafValue(j, toks);
    LeafEnd(j, toks);
    if at != [] {
      hide Place;
      KidFacts(j, at[0]);
      var t, rest, u := toks[0], toks[1..], at[0];
      assert toks == [t] + rest;
      SameLevel(r, j, t, rest, v);
      if t == u {
        DownKid(r, t);
        WrongStays(Kid(r, t), Kid(j, t), at[1..], rest);
      } else {
        SameOthers(r, j, t, rest, v, u);
        DownKid(r, u);
        DownKid(Place(r, toks, v).value, u);
      }
    }
  }

  // ---------------------------------------------------------------- before the bad part is reached

  /** No leaf of `j`, which stands at `base`, has been met. */
  ghost predicate Untouched(base: Tokens, j: Json, seen: set<string>) {
    forall toks :: Leaf(j, toks) ==> ToString(base + toks) !in seen
  }

  /** On the way to the bad part everything built has the right kind, and what is null has not been met. */
  ghost predicate Pending(r: Json, j: Json, at: Tokens, base: Tokens, seen: set<string>)
    decreases |at|
  {
    (r.Null? && Untouched(base, j, seen)) ||
    (at != [] && SameContainer(r, j) && HasKid(j, at[0]) && Pending(Down(r, at[0]), Kid(j, at[0]), at[1..], base + [at[0]], seen))
  }

  lemma {:induction false} PendingOther(r: Json, j: Json, at: Tokens, base: Tokens, seen: set<string>, met: Tokens)
    requires Pending(r, j, at, base, seen) && !(base <= met)
    ensures Pending(r, j, at, base, seen + {ToString(met)})
    decreases |at|
  {
    hide HasKid, Kid, Down, Leaf, ToString;
    if r.Null? && Untouched(base, j, seen) {
      forall toks | Leaf(j, toks) ensures ToString(base + toks) != ToString(met) {
        SplitToString(base + toks);
        SplitToString(met);
      }
    } else {
      assert base <= base + [at[0]];
      PendingOther(Down(r, at[0]), Kid(j, at[0]), at[1..], base + [at[0]], seen, met);
    }
  }

  lemma UntouchedKid(base: Tokens, j: Json, seen: set<string>, t: string)
    requires Untouched(base, j, seen) && HasKid(j, t)
    ensures Untouched(base + [t], Kid(j, t), seen)
  {
    hide HasKid, Kid, IsLeafValue, ToString;
    forall toks | Leaf(Kid(j, t), toks) ensures ToString(base + [t] + toks) !in seen {
      LeafCons(j, t, toks);
      assert base + ([t] + toks) == base + [t] + toks;
    }
  }

  /** The leaves met before `toks`, which lies below `base`, are all in `seen`. */
  ghost predicate EarlierSeen(j: Json, base: Tokens, toks: Tokens, seen: set<string>) {
    forall other :: Leaf(j, other) && Less(ToString(base + other), ToString(base + toks)) ==> ToString(base + other) in seen
  }

  lemma EarlierSeenKid(j: Json, base: Tokens, t: string, rest: Tokens, seen: set<string>)
    requires EarlierSeen(j, base, [t] + rest, seen) && HasKid(j, t)
    ensures EarlierSeen(Kid(j, t), base + [t], rest, seen)
  {
    hide HasKid, Kid, IsLeafValue, ToString, Less;
    forall other | Leaf(Kid(j, t), other) && Less(ToString(base + [t] + other), ToString(base + [t] + rest))
      ensures ToString(base + [t] + other) in seen
    {
      LeafCons(j, t, other);
      assert base + ([t] + other) == base + [t] + other && base + ([t] + rest) == base + [t] + rest;
    }
  }

  lemma UntouchedFirst(j: Json, base: Tokens, toks: Tokens, seen: set<string>)
    requires Untouched(base, j, seen) && EarlierSeen(j, base, toks, seen)
    ensures First(j, toks)
  {
    hide Leaf, ToString, Less;
    forall other | Leaf(j, other) ensures !Less(ToString(other), ToString(toks)) {
      ToStringConcat(base, other);
      ToStringConcat(base, toks);
      LessConcat(ToString(base), ToString(other), ToString(toks));
    }
  }

  /** A container made for a part that is not bad is of the right kind; for an unsafe object it is an array. */
  lemma NewContainer(j: Json, base: Tokens, toks: Tokens, seen: set<string>)
    requires Untouched(base, j, seen) && EarlierSeen(j, base, toks, seen) && Indexable(j)
    requires toks != [] && Leaf(j, toks) && Place(Null, toks, LeafValue(j, toks)).Ok?
    ensures var p := Place(Null, toks, LeafValue(j, toks)).value;
      if Bad(j) then p.Arr? && j.Obj? else SameContainer(p, j)
  {
    hide Leaf, LeafValue, ToString, Less, EarlierSeen, Untouched, First, ZeroNotFirst, Stoi;
    UntouchedFirst(j, base, toks, seen);
    LeafParts(j, toks);
    if j.Arr? { FirstOfArray(j, toks); } else { FirstOfObject(j, toks); }
  }

  lemma EmptyTurnsNull(r: Json, j: Json)
    requires Bad(j) && Leaf(j, [])
    ensures IsEmptyContainer(j) && Place(r, [], LeafValue(j, [])) == Ok(Null)
  {
  }

  /** A leaf, seen from the kid it is below. */
  lemma LeafBelow(j: Json, t: string, rest: Tokens)
    requires Leaf(j, [t] + rest) && Indexable(j)
    ensures HasKid(j, t) && Leaf(Kid(j, t), rest) && LeafValue(Kid(j, t), rest) == LeafValue(j, [t] + rest) && Indexable(Kid(j, t))
  {
    assert ([t] + rest)[0] == t && ([t] + rest)[1..] == rest;
    KidFacts(j, t);
  }

  /** The leaf at hand lies below the bad part: from here on that part is wrong. */
  lemma {:induction false} TurnsWrong(r: Json, j: Json, at: Tokens, base: Tokens, seen: set<string>, rest: Tokens)
    requires TopBad(j, at) && Pending(r, j, at, base, seen) && Indexable(j)
    requires Leaf(j, at + rest) && EarlierSeen(j, base, at + rest, seen)
    requires Place(r, at + rest, LeafValue(j, at + rest)).Ok?
    ensures Wrong(Place(r, at + rest, LeafValue(j, at + rest)).value, j, at)
    decreases |at|
  {
    hide HasKid, Kid, Down, Leaf, LeafValue, ToString, EarlierSeen, Untouched, Bad, Less, Place;
    var toks := at + rest;
    var v := LeafValue(j, toks);
    if at == [] {
      assert toks == rest;
      LeafEnd(j, toks);
      if toks == [] {
        EmptyTurnsNull(r, j);
      } else {
        NewContainer(j, base, toks, seen);
        assert !IsEmptyContainer(j);
      }
    } else {
      var t := at[0];
      var kid, below := Kid(j, t), at[1..] + rest;
      assert toks[0] == t && toks[1..] == below && toks == [t] + below;
      LeafBelow(j, t, below);
      EarlierSeenKid(j, base, t, below, seen);
      if r.Null? && Untouched(base, j, seen) {
        NewContainer(j, base, toks, seen);
        NewLevel(j, t, below, v);
        UntouchedKid(base, j, seen, t);
        TurnsWrong(Null, kid, at[1..], base + [t], seen, rest);
      } else {
        SameLevel(r, j, t, below, v);
        TurnsWrong(Down(r, t), kid, at[1..], base + [t], seen, rest);
      }
    }
  }

  /** One level of a placement that makes a new container of the right kind. */
  lemma NewLevel(j: Json, t: string, rest: Tokens, v: Json)
    requires Place(Null, [t] + rest, v).Ok? && SameContainer(Place(Null, [t] + rest, v).value, j) && HasKid(j, t)
    ensures var p := Place(Null, [t] + rest, v).value;
      HasKid(p, t) && Place(Null, rest, v) == Ok(Kid(p, t)) && forall u :: u != t ==> Down(p, u) == Null
  {
    hide Digits;
    assert ([t] + rest)[0] == t && ([t] + rest)[1..] == rest;
    ZeroPlain();
    StoiDigits(0);
  }

  /** The leaf at hand lies elsewhere: the bad part is still to come. */
  lemma {:induction false} StaysPending(r: Json, j: Json, at: Tokens, base: Tokens, seen: set<string>, toks: Tokens)
    requires TopBad(j, at) && Pending(r, j, at, base, seen) && Indexable(j) && !(at <= toks)
    requires Leaf(j, toks) && EarlierSeen(j, base, toks, seen) && Place(r, toks, LeafValue(j, toks)).Ok?
    ensures Pending(Place(r, toks, LeafValue(j, toks)).value, j, at, base, seen + {ToString(base + toks)})
    decreases |at|
  {
    hide HasKid, Kid, Down, ToString, EarlierSeen, Untouched, Bad, Less, Place;
    var u := at[0];
    if toks == [] { NoKids(j, u); }
    var t, rest, v := toks[0], toks[1..], LeafValue(j, toks);
    var kid := Kid(j, u);
    assert toks == [t] + rest && base + [t] + rest == base + toks;
    hide Leaf, LeafValue;
    if t == u {
      LeafBelow(j, t, rest);
      assert at == [u] + at[1..] && !(at[1..] <= rest);
      EarlierSeenKid(j, base, t, rest, seen);
    } else {
      assert !(base + [u] <= base + toks) by { assert (base + toks)[|base|] == t && (base + [u])[|base|] == u; }
    }
    if r.Null? && Untouched(base, j, seen) {
      NewContainer(j, base, toks, seen);
      NewLevel(j, t, rest, v);
      UntouchedKid(base, j, seen, u);
      if t == u {
        DownKid(Place(r, toks, v).value, u);
        StaysPending(Null, kid, at[1..], base + [t], seen, rest);
      } else {
        PendingOther(Null, kid, at[1..], base + [u], seen, base + toks);
      }
    } else {
      SameLevel(r, j, t, rest, v);
      if t == u {
        DownKid(Place(r, toks, v).value, u);
        StaysPending(Down(r, u), kid, at[1..], base + [t], seen, rest);
      } else {
        SameOthers(r, j, t, rest, v, u);
        PendingOther(Down(r, u), kid, at[1..], base + [u], seen, base + toks);
      }
    }
  }

  /** While the bad part is to come, some leaf has not been met. */
  lemma {:induction false} PendingNotDone(r: Json, j: Json, at: Tokens, base: Tokens, seen: set<string>) returns (toks: Tokens)
    requires Pending(r, j, at, base, seen) && Indexable(j)
    ensures Leaf(j, toks) && ToString(base + toks) !in seen
    decreases |at|
  {
    hide HasKid, Kid, Down, ToString, IsLeafValue;
    if r.Null? && Untouched(base, j, seen) {
      toks := SomeLeaf(j);
    } else {
      var t := at[0];
      KidFacts(j, t);
      var rest := PendingNotDone(Down(r, t), Kid(j, t), at[1..], base + [t], seen);
      LeafCons(j, t, rest);
      toks := [t] + rest;
      assert base + toks == base + [t] + rest;
    }
  }

  lemma {:induction false} NeverRestores(r: Json, j: Json, at: Tokens, n: nat, mix: Mixed)
    requires Indexable(j) && TopBad(j, at) && n <= |EntryKeys(j)|
    requires Wrong(r, j, at) || Pending(r, j, at, [], Named(EntryKeys(j)[..n]))
    ensures var made := PlaceAll(r, Entries(j), EntryKeys(j)[n..]);
      made != Ok(j) && (made.Ok? ==> !Eq(made.value, j, mix))
    decreases |EntryKeys(j)| - n
  {
    hide Pending, Wrong, TopBad, Leaf, LeafValue, ToString, Indexable, SortedKeys, Less, Flatten, Place, Split, Entries, EntryKeys;
    var keys := EntryKeys(j);
    if n == |keys| {
      assert keys[..n] == keys;
      if Wrong(r, j, at) {
        WrongDiffers(r, j, at, mix);
      } else {
        var toks := PendingNotDone(r, j, at, [], Named(keys));
        assert [] + toks == toks;
        LeafIsEntry(j, toks, n);
        assert false;
      }
    } else {
      assert keys[n..][0] == keys[n] && keys[n..][1..] == keys[n + 1..];
      var toks := EntryIsLeaf(j, n);
      var next := Place(r, toks, LeafValue(j, toks));
      if next.Ok? {
        NextEntry(r, j, at, n, toks);
        NeverRestores(next.value, j, at, n + 1, mix);
      }
    }
  }

  lemma NextEntry(r: Json, j: Json, at: Tokens, n: nat, toks: Tokens)
    requires Indexable(j) && TopBad(j, at) && n < |EntryKeys(j)|
    requires Wrong(r, j, at) || Pending(r, j, at, [], Named(EntryKeys(j)[..n]))
    requires Leaf(j, toks) && EntryKeys(j)[n] == ToString(toks) && Place(r, toks, LeafValue(j, toks)).Ok?
    ensures var p := Place(r, toks, LeafValue(j, toks)).value;
      Wrong(p, j, at) || Pending(p, j, at, [], Named(EntryKeys(j)[..n + 1]))
  {
    hide Pending, Wrong, TopBad, Leaf, LeafValue, ToString, Indexable, Less, Place, Entries, EntryKeys;
    var keys := EntryKeys(j);
    var seen := Named(keys[..n]);
    if Wrong(r, j, at) {
      WrongStays(r, j, at, toks);
    } else {
      assert EarlierSeen(j, [], toks, seen) by {
        forall other | Leaf(j, other) && Less(ToString([] + other), ToString([] + toks)) ensures ToString([] + other) in seen {
          assert [] + other == other && [] + toks == toks;
          LeafIsEntry(j, other, n);
        }
      }
      if at <= toks {
        assert toks == at + toks[|at|..];
        TurnsWrong(r, j, at, [], seen, toks[|at|..]);
      } else {
        StaysPending(r, j, at, [], seen, toks);
        assert [] + toks == toks && keys[..n + 1] == keys[..n] + [keys[n]];
        assert Named(keys[..n + 1]) == seen + {ToString(toks)};
      }
    }
  }

  // ---------------------------------------------------------------- the law

  /**
   Flattening and unflattening a value gives the value back exactly when it holds no empty container and in
   every object with a key "0" some other key is met before it; by the library's own equality what comes back
   is equal exactly when, besides, it holds no NaN.
   */
  lemma FlattenRoundTrip(j: Json, mix: Mixed)
    requires Indexable(j)
    ensures Unflatten(Flatten(j)) == Ok(j) <==> Restorable(j)
    ensures Ordinary(mix) ==>
      var r := Unflatten(Flatten(j)); (r.Ok? && Eq(r.value, j, mix) <==> Restorable(j) && NoNaN(j))
  {
    hide PlaceAll, Restorable, SortedKeys, Less, FlattenInto, Eq, NoNaN, Ordinary;
    var keys := EntryKeys(j);
    assert keys[0..] == keys && keys[..0] == [];
    if Restorable(j) {
      Restores(Null, j, 0);
    } else {
      var at := FindBad(j);
      assert Pending(Null, j, at, [], Named(keys[..0]));
      NeverRestores(Null, j, at, 0, mix);
    }
    if Ordinary(mix) { EqualToItself(j, mix); }
  }

  lemma EqualToItself(j: Json, mix: Mixed)
    requires Ordinary(mix)
    ensures Eq(j, j, mix) <==> NoNaN(j)
  {
    if NoNaN(j) { EqReflexive(j, mix); }
    if Eq(j, j, mix) { EqNeedsNoNaN(j, j, mix); }
  }

  /** In particular every value without empty containers and without a key "0" is restored. */
  lemma {:induction false} PlainRestorable(j: Json)
    requires Plain(j)
    ensures Restorable(j)
  {
    match j
    case Arr(x) => forall i | 0 <= i < |x| ensures Restorable(x[i]) { PlainRestorable(x[i]); }
    case Obj(m) => forall k | k in m ensures Restorable(m[k]) { PlainRestorable(m[k]); }
    case _ =>
  }

  predicate Plain(j: Json) {
    !IsEmptyContainer(j) &&
    match j
    case Arr(x) => forall i :: 0 <= i < |x| ==> Plain(x[i])
    case Obj(m) => "0" !in m && forall k :: k in m ==> Plain(m[k])
    case _ => true
  }
}
