/** The difference of two values as a JSON Patch document, and what applying it gives. */
module JsonDiff {
  import opened Decimal
  import opened KeyOrder
  import opened JsonValue
  import opened JsonText
  import opened JsonPointer
  import opened JsonAccess
  import opened JsonPatch

  // ---------------------------------------------------------------- computing the difference

  function Slashed(path: string, token: string): string {
    path + "/" + token
  }

  function Diff(src: Json, tgt: Json, path: string, mix: Mixed): seq<Json>
    decreases src, 1, 0
  {
    if Eq(src, tgt, mix) then []
    else match (src, tgt)
      case (Arr(x), Arr(y)) =>
        DiffItems(src, tgt, 0, path, mix) + Removals(|x|, |y|, path) + Additions(y, |x|, path)
      case (Obj(x), Obj(y)) =>
        DiffKeys(src, tgt, SortedKeys(x.Keys), path, mix) + AddKeys(x, y, SortedKeys(y.Keys), path)
      case _ => [ReplaceOp(path, tgt)]
  }

  /** The elements both arrays have, from index `i` on. */
  function DiffItems(src: Json, tgt: Json, i: nat, path: string, mix: Mixed): seq<Json>
    requires src.Arr? && tgt.Arr?
    decreases src, 0, |src.items| - i
  {
    if i >= |src.items| || i >= |tgt.items| then []
    else Diff(src.items[i], tgt.items[i], Slashed(path, Digits(i)), mix) + DiffItems(src, tgt, i + 1, path, mix)
  }

  /** Indices `lo` up to `hi` removed, the highest first so that the others keep their index. */
  function Removals(hi: nat, lo: nat, path: string): seq<Json>
    decreases hi
  {
    if hi <= lo then [] else [RemoveOp(Slashed(path, Digits(hi - 1)))] + Removals(hi - 1, lo, path)
  }

  function Additions(y: seq<Json>, i: nat, path: string): seq<Json>
    decreases |y| - i
  {
    if i >= |y| then [] else [AddOp(Slashed(path, Digits(i)), y[i])] + Additions(y, i + 1, path)
  }

  /** The keys of the source: those the target has too are compared, the others removed. */
  function DiffKeys(src: Json, tgt: Json, keys: seq<string>, path: string, mix: Mixed): seq<Json>
    requires src.Obj? && tgt.Obj? && forall k :: k in keys ==> k in src.members
    decreases src, 0, |keys|
  {
    if keys == [] then [] else
      var k := keys[0];
      (if k in tgt.members then Diff(src.members[k], tgt.members[k], Slashed(path, Escape(k)), mix)
       else [RemoveOp(Slashed(path, Escape(k)))])
      + DiffKeys(src, tgt, keys[1..], path, mix)
  }

  /** The keys only the target has. */
  function AddKeys(x: map<string, Json>, y: map<string, Json>, keys: seq<string>, path: string): seq<Json>
    requires forall k :: k in keys ==> k in y
    decreases |keys|
  {
    if keys == [] then [] else
      var k := keys[0];
      (if k in x then [] else [AddOp(Slashed(path, Escape(k)), y[k])]) + AddKeys(x, y, keys[1..], path)
  }

  // ---------------------------------------------------------------- what applying it leaves

  /** The target, except that parts of the source that already equal theirs stay as they are. */
  function Merged(src: Json, tgt: Json, mix: Mixed): Json
    decreases src
  {
    if Eq(src, tgt, mix) then src
    else match (src, tgt)
      case (Arr(x), Arr(y)) =>
        Arr(seq(|y|, i requires 0 <= i < |y| => if i < |x| then Merged(x[i], y[i], mix) else y[i]))
      case (Obj(x), Obj(y)) => Obj(map k | k in y :: if k in x then Merged(x[k], y[k], mix) else y[k])
      case _ => tgt
  }

  /** What is left equals the target exactly when the target can equal anything: when it holds no NaN. */
  lemma {:induction false} MergedEquals(src: Json, tgt: Json, mix: Mixed)
    ensures NoNaN(tgt) ==> Eq(Merged(src, tgt, mix), tgt, mix)
    decreases src
  {
    if NoNaN(tgt) && !Eq(src, tgt, mix) {
      match (src, tgt)
      case (Arr(x), Arr(y)) =>
        var m := Merged(src, tgt, mix).items;
        forall i | 0 <= i < |y| ensures Eq(m[i], y[i], mix) {
          if i < |x| { MergedEquals(x[i], y[i], mix); } else { EqReflexive(y[i], mix); }
        }
      case (Obj(x), Obj(y)) =>
        var m := Merged(src, tgt, mix).members;
        forall k | k in y ensures Eq(m[k], y[k], mix) {
          if k in x { MergedEquals(x[k], y[k], mix); } else { EqReflexive(y[k], mix); }
        }
      case _ => EqReflexive(tgt, mix);
    }
  }

  // ---------------------------------------------------------------- paths

  lemma PathSnoc(toks: Tokens, tok: string)
    ensures Slashed(ToString(toks), Escape(tok)) == ToString(toks + [tok])
  {
    hide Escape;
    assert (toks + [tok])[..|toks|] == toks;
  }

  lemma IndexFound(n: nat, i: nat)
    requires i <= INT_MAX
    ensures CheckedIndex(n, Digits(i)) == if i < n then Ok(i) else Err(OutOfRange)
  {
    hide Stoi;
    StoiDigits(i);
    assert Digits(i)[0] != '-';
  }

  // ---------------------------------------------------------------- arrays

  /** The array after its first `i` elements have been brought in line. */
  function HalfItems(x: seq<Json>, y: seq<Json>, i: nat, mix: Mixed): (r: seq<Json>)
    ensures |r| == |x|
  {
    seq(|x|, k requires 0 <= k < |x| => if k < i && k < |y| then Merged(x[k], y[k], mix) else x[k])
  }

  /** `doc` holds `v` at `toks`, and is otherwise as `base`. */
  predicate Holds(base: Json, doc: Json, toks: Tokens, v: Json) {
    At(base, toks).Ok? && doc == Store(base, toks, v)
  }

  lemma HoldsNext(base: Json, doc: Json, toks: Tokens, v: Json, w: Json)
    requires Holds(base, doc, toks, v)
    ensures At(doc, toks) == Ok(v) && Holds(base, Store(doc, toks, w), toks, w)
  {
    hide At, Store;
    StoreLaws(base, toks, v, w);
  }

  lemma {:induction false} ItemsApply(base: Json, doc: Json, toks: Tokens, src: Json, tgt: Json, i: nat, mix: Mixed)
    requires src.Arr? && tgt.Arr? && Indexable(src) && Indexable(tgt)
    requires Holds(base, doc, toks, Arr(HalfItems(src.items, tgt.items, i, mix)))
    ensures ApplyOps(doc, DiffItems(src, tgt, i, ToString(toks), mix), mix)
         == Ok(Store(base, toks, Arr(HalfItems(src.items, tgt.items, |src.items|, mix))))
    decreases src, 0, |src.items| - i
  {
    hide Store, At, ApplyOp, ToString, Escape, Digits, CheckedIndex, Merged, Diff;
    var x, y := src.items, tgt.items;
    var half := HalfItems(x, y, i, mix);
    if i >= |x| || i >= |y| {
      assert half == HalfItems(x, y, |x|, mix);
    } else {
      hide ApplyOps;
      var tok, v := Digits(i), Merged(x[i], y[i], mix);
      HoldsNext(base, doc, toks, Arr(half), Arr(half));
      DigitsPlain(i);
      PathSnoc(toks, tok);
      IndexFound(|x|, i);
      AtSnoc(doc, toks, tok);
      DiffApplies(doc, toks + [tok], x[i], y[i], mix);
      StoreSnoc(doc, toks, tok, v);
      assert half[i := v] == HalfItems(x, y, i + 1, mix);
      HoldsNext(base, doc, toks, Arr(half), Arr(half[i := v]));
      ItemsApply(base, Store(doc, toks, Arr(half[i := v])), toks, src, tgt, i + 1, mix);
      ApplyConcat(doc, Diff(x[i], y[i], Slashed(ToString(toks), tok), mix), DiffItems(src, tgt, i + 1, ToString(toks), mix), mix);
    }
  }

  lemma {:induction false} RemovalsApply(base: Json, doc: Json, toks: Tokens, x: seq<Json>, lo: nat, mix: Mixed)
    requires |x| <= INT_MAX + 1 && Holds(base, doc, toks, Arr(x))
    ensures ApplyOps(doc, Removals(|x|, lo, ToString(toks)), mix) == Ok(Store(base, toks, Arr(if lo < |x| then x[..lo] else x)))
    decreases |x|
  {
    hide Store, At, ApplyOp, ToString, Escape, Digits, Stoi;
    if |x| > lo {
      var i := |x| - 1;
      HoldsNext(base, doc, toks, Arr(x), Arr(x[..i]));
      DigitsPlain(i);
      PathSnoc(toks, Digits(i));
      StoiDigits(i);
      assert x[..i] + x[i + 1..] == x[..i];
      RemoveMeans(doc, toks, Digits(i), Arr(x[..i]), mix);
      RemovalsApply(base, Store(doc, toks, Arr(x[..i])), toks, x[..i], lo, mix);
      assert x[..i][..if lo < i then lo else i] == x[..lo];
      assert Removals(|x|, lo, ToString(toks))[1..] == Removals(i, lo, ToString(toks));
    }
  }

  lemma {:induction false} AdditionsApply(base: Json, doc: Json, toks: Tokens, x: seq<Json>, y: seq<Json>, mix: Mixed)
    requires |y| <= INT_MAX + 1 && Holds(base, doc, toks, Arr(x))
    ensures ApplyOps(doc, Additions(y, |x|, ToString(toks)), mix) == Ok(Store(base, toks, Arr(if |x| < |y| then x + y[|x|..] else x)))
    decreases |y| - |x|
  {
    hide Store, At, ApplyOp, ToString, Escape, Digits, Stoi;
    var i := |x|;
    if i < |y| {
      var next := x + [y[i]];
      HoldsNext(base, doc, toks, Arr(x), Arr(next));
      DigitsPlain(i);
      PathSnoc(toks, Digits(i));
      StoiDigits(i);
      assert Digits(i) != "-" by { assert Digits(i)[0] != "-"[0]; }
      assert x[..i] + [y[i]] + x[i..] == next;
      AddMeans(doc, toks, Digits(i), y[i], Arr(next), mix);
      AdditionsApply(base, Store(doc, toks, Arr(next)), toks, next, y, mix);
      assert next + y[i + 1..] == x + y[i..];
      assert i + 1 == |y| ==> next == x + y[i..];
      assert Additions(y, i, ToString(toks))[1..] == Additions(y, i + 1, ToString(toks));
    }
  }

  // ---------------------------------------------------------------- objects

  /** The object while the keys in `rest` are still to be visited. */
  function HalfMembers(x: map<string, Json>, y: map<string, Json>, rest: set<string>, mix: Mixed): map<string, Json> {
    map k | k in x && (k in rest || k in y) :: if k in rest then x[k] else Merged(x[k], y[k], mix)
  }

  /** Visiting one key. */
  lemma HalfStep(x: map<string, Json>, y: map<string, Json>, rest: set<string>, k: string, mix: Mixed)
    requires k in x && k in rest
    ensures var half, next := HalfMembers(x, y, rest, mix), HalfMembers(x, y, rest - {k}, mix);
      k in half && half[k] == x[k] && (if k in y then half[k := Merged(x[k], y[k], mix)] == next else half - {k} == next)
  {
    hide Merged;
  }

  lemma {:induction false} KeysApply(base: Json, doc: Json, toks: Tokens, src: Json, tgt: Json, keys: seq<string>, mix: Mixed)
    requires src.Obj? && tgt.Obj? && Indexable(src) && Indexable(tgt)
    requires forall k :: k in keys ==> k in src.members
    requires forall i, j :: 0 <= i < j < |keys| ==> keys[i] != keys[j]
    requires Holds(base, doc, toks, Obj(HalfMembers(src.members, tgt.members, Named(keys), mix)))
    ensures ApplyOps(doc, DiffKeys(src, tgt, keys, ToString(toks), mix), mix)
         == Ok(Store(base, toks, Obj(HalfMembers(src.members, tgt.members, {}, mix))))
    decreases src, 0, |keys|
  {
    hide Store, At, ApplyOp, ToString, Escape, Merged, Diff, HalfMembers;
    var x, y := src.members, tgt.members;
    var rest := Named(keys);
    var half := HalfMembers(x, y, rest, mix);
    HoldsNext(base, doc, toks, Obj(half), Obj(half));
    if keys == [] {
      assert rest == {};
    } else {
      hide ApplyOps, Holds;
      var k := keys[0];
      var path := ToString(toks);
      var next := HalfMembers(x, y, rest - {k}, mix);
      assert Named(keys[1..]) == rest - {k};
      HoldsNext(base, doc, toks, Obj(half), Obj(next));
      PathSnoc(toks, k);
      HalfStep(x, y, rest, k, mix);
      KeysApply(base, Store(doc, toks, Obj(next)), toks, src, tgt, keys[1..], mix);
      if k in y {
        assert Indexable(x[k]) && Indexable(y[k]);
        KeyApplies(doc, toks, half, k, y[k], mix);
        ApplyConcat(doc, Diff(x[k], y[k], Slashed(path, Escape(k)), mix), DiffKeys(src, tgt, keys[1..], path, mix), mix);
      } else {
        RemoveMeans(doc, toks, k, Obj(next), mix);
        ApplyOne(doc, RemoveOp(Slashed(path, Escape(k))), mix);
        ApplyConcat(doc, [RemoveOp(Slashed(path, Escape(k)))], DiffKeys(src, tgt, keys[1..], path, mix), mix);
      }
    }
  }

  lemma {:induction false} KeyApplies(doc: Json, toks: Tokens, half: map<string, Json>, k: string, t: Json, mix: Mixed)
    requires At(doc, toks) == Ok(Obj(half)) && k in half && Indexable(half[k]) && Indexable(t)
    ensures ApplyOps(doc, Diff(half[k], t, Slashed(ToString(toks), Escape(k)), mix), mix)
         == Ok(Store(doc, toks, Obj(half[k := Merged(half[k], t, mix)])))
    decreases half[k], 3, 0
  {
    hide Store, At, ApplyOps, ToString, Escape, Merged, Diff, Indexable;
    PathSnoc(toks, k);
    AtSnoc(doc, toks, k);
    DiffApplies(doc, toks + [k], half[k], t, mix);
    StoreSnoc(doc, toks, k, Merged(half[k], t, mix));
  }

  lemma AddedKey(cur: map<string, Json>, x: map<string, Json>, y: map<string, Json>, keys: seq<string>)
    requires keys != [] && keys[0] !in x && forall k :: k in keys ==> k in y
    ensures cur[keys[0] := y[keys[0]]] + (map k | k in keys[1..] && k !in x :: y[k]) == cur + (map k | k in keys && k !in x :: y[k])
  {
    assert forall k :: k in keys <==> k == keys[0] || k in keys[1..];
  }

  lemma {:induction false} AddKeysApply(base: Json, doc: Json, toks: Tokens, cur: map<string, Json>,
                                        x: map<string, Json>, y: map<string, Json>, keys: seq<string>, mix: Mixed)
    requires forall k :: k in keys ==> k in y
    requires Holds(base, doc, toks, Obj(cur))
    ensures ApplyOps(doc, AddKeys(x, y, keys, ToString(toks)), mix)
         == Ok(Store(base, toks, Obj(cur + map k | k in keys && k !in x :: y[k])))
    decreases |keys|
  {
    hide Store, At, ApplyOp, ToString, Escape;
    var all := map k | k in keys && k !in x :: y[k];
    if keys == [] {
      assert cur + all == cur;
    } else {
      hide ApplyOps, Holds;
      var k := keys[0];
      var path := ToString(toks);
      var later := map j | j in keys[1..] && j !in x :: y[j];
      var tail := AddKeys(x, y, keys[1..], path);
      if k in x {
        AddKeysApply(base, doc, toks, cur, x, y, keys[1..], mix);
        assert all == later;
        assert AddKeys(x, y, keys, path) == tail;
      } else {
        var next := cur[k := y[k]];
        HoldsNext(base, doc, toks, Obj(cur), Obj(next));
        PathSnoc(toks, k);
        AddMeans(doc, toks, k, y[k], Obj(next), mix);
        AddKeysApply(base, Store(doc, toks, Obj(next)), toks, next, x, y, keys[1..], mix);
        AddedKey(cur, x, y, keys);
        var op := AddOp(Slashed(path, Escape(k)), y[k]);
        ApplyOne(doc, op, mix);
        ApplyConcat(doc, [op], tail, mix);
      }
    }
  }

  // ---------------------------------------------------------------- the difference at a place

  lemma NothingAdded(y: seq<Json>, i: nat, path: string)
    requires i >= |y|
    ensures Additions(y, i, path) == []
  {
  }

  lemma MergedItems(src: Json, tgt: Json, mix: Mixed)
    requires src.Arr? && tgt.Arr? && !Eq(src, tgt, mix)
    ensures var x, y := src.items, tgt.items;
      var full := HalfItems(x, y, |x|, mix);
      Merged(src, tgt, mix) == Arr(if |x| < |y| then full + y[|x|..] else full[..|y|])
  {
    hide Eq;
    var x, y := src.items, tgt.items;
    var full := HalfItems(x, y, |x|, mix);
    var m := Merged(src, tgt, mix).items;
    if |x| < |y| {
      assert m == full + y[|x|..];
    } else {
      assert m == full[..|y|];
    }
  }

  lemma ArrayApplies(doc: Json, toks: Tokens, src: Json, tgt: Json, mix: Mixed)
    requires src.Arr? && tgt.Arr? && Indexable(src) && Indexable(tgt) && !Eq(src, tgt, mix)
    requires At(doc, toks) == Ok(src)
    ensures ApplyOps(doc, Diff(src, tgt, ToString(toks), mix), mix) == Ok(Store(doc, toks, Merged(src, tgt, mix)))
    decreases src, 1, 0
  {
    var x, y := src.items, tgt.items;
    assert |x| <= INT_MAX + 1 && |y| <= INT_MAX + 1 && HalfItems(x, y, 0, mix) == x;
    hide Store, At, ApplyOps, ToString, Eq, DiffItems, Removals, Additions, Indexable, Merged, HalfItems;
    var path := ToString(toks);
    var a, b, c := DiffItems(src, tgt, 0, path, mix), Removals(|x|, |y|, path), Additions(y, |x|, path);
    StoreLaws(doc, toks, src, src);
    ItemsApply(doc, doc, toks, src, tgt, 0, mix);
    var full := HalfItems(x, y, |x|, mix);
    RemovalsApply(doc, Store(doc, toks, Arr(full)), toks, full, |y|, mix);
    var cut := if |y| < |x| then full[..|y|] else full;
    MergedItems(src, tgt, mix);
    assert full[..|x|] == full;
    AdditionsApply(doc, Store(doc, toks, Arr(cut)), toks, cut, y, mix);
    if |cut| != |x| { NothingAdded(y, |cut|, path); NothingAdded(y, |x|, path); }
    ApplyConcat(doc, a, b, mix);
    ApplyConcat(doc, a + b, c, mix);
  }

  lemma MergedMembers(src: Json, tgt: Json, ys: seq<string>, mix: Mixed)
    requires src.Obj? && tgt.Obj? && !Eq(src, tgt, mix) && forall k :: k in ys <==> k in tgt.members
    ensures var x, y := src.members, tgt.members;
      Merged(src, tgt, mix) == Obj(HalfMembers(x, y, {}, mix) + map k | k in ys && k !in x :: y[k])
      && HalfMembers(x, y, x.Keys, mix) == x
  {
    hide Eq;
    var x, y := src.members, tgt.members;
    assert HalfMembers(x, y, {}, mix) + (map k | k in ys && k !in x :: y[k]) == Merged(src, tgt, mix).members;
  }

  lemma ObjectApplies(doc: Json, toks: Tokens, src: Json, tgt: Json, mix: Mixed)
    requires src.Obj? && tgt.Obj? && Indexable(src) && Indexable(tgt) && !Eq(src, tgt, mix)
    requires At(doc, toks) == Ok(src)
    ensures ApplyOps(doc, Diff(src, tgt, ToString(toks), mix), mix) == Ok(Store(doc, toks, Merged(src, tgt, mix)))
    decreases src, 1, 0
  {
    hide Store, At, ApplyOps, ToString, Eq, DiffKeys, AddKeys, SortedKeys, Less, Indexable, Merged, HalfMembers;
    var x, y := src.members, tgt.members;
    var path := ToString(toks);
    var xs, ys := SortedKeys(x.Keys), SortedKeys(y.Keys);
    StoreLaws(doc, toks, src, src);
    forall i, j | 0 <= i < j < |xs| ensures xs[i] != xs[j] { SortedDistinct(x.Keys, i, j); }
    assert Named(xs) == x.Keys;
    MergedMembers(src, tgt, ys, mix);
    KeysApply(doc, doc, toks, src, tgt, xs, mix);
    var half := HalfMembers(x, y, {}, mix);
    AddKeysApply(doc, Store(doc, toks, Obj(half)), toks, half, x, y, ys, mix);
    ApplyConcat(doc, DiffKeys(src, tgt, xs, path, mix), AddKeys(x, y, ys, path), mix);
  }

  /** The difference of a part, taken at its path, turns that part into the target and touches nothing else. */
  lemma {:induction false} DiffApplies(doc: Json, toks: Tokens, src: Json, tgt: Json, mix: Mixed)
    requires Indexable(src) && Indexable(tgt) && At(doc, toks) == Ok(src)
    ensures ApplyOps(doc, Diff(src, tgt, ToString(toks), mix), mix) == Ok(Store(doc, toks, Merged(src, tgt, mix)))
    decreases src, 2, 0
  {
    hide Store, At, ToString, ApplyOp, Indexable;
    if Eq(src, tgt, mix) {
      StoreLaws(doc, toks, src, src);
    } else if src.Arr? && tgt.Arr? {
      ArrayApplies(doc, toks, src, tgt, mix);
    } else if src.Obj? && tgt.Obj? {
      ObjectApplies(doc, toks, src, tgt, mix);
    } else {
      ReplaceMeans(doc, toks, tgt, mix);
      ApplyOne(doc, ReplaceOp(ToString(toks), tgt), mix);
    }
  }

  /**
   Applying the computed difference always succeeds. What it leaves equals the target exactly when the
   target holds no NaN, the one kind of value that does not equal itself.
   */
  lemma DiffThenPatch(source: Json, target: Json, mix: Mixed)
    requires Indexable(source) && Indexable(target)
    ensures var r := Patch(source, Arr(Diff(source, target, "", mix)), mix);
      r.Ok? && (NoNaN(target) ==> Eq(r.value, target, mix)) &&
      (Ordinary(mix) && Eq(r.value, target, mix) ==> NoNaN(target))
  {
    hide Eq, Diff, ApplyOps, Merged;
    DiffApplies(source, [], source, target, mix);
    MergedEquals(source, target, mix);
    if Ordinary(mix) && Eq(Merged(source, target, mix), target, mix) {
      EqNeedsNoNaN(Merged(source, target, mix), target, mix);
    }
  }

  // ---------------------------------------------------------------- arrays too long for an index to be an int

  lemma {:induction false} SameItems(x: seq<Json>, v: Json, i: nat, mix: Mixed)
    requires NoNaN(Arr(x))
    ensures DiffItems(Arr(x), Arr(x + [v]), i, "", mix) == []
    decreases |x| - i
  {
    if i < |x| {
      EqReflexive(x[i], mix);
      SameItems(x, v, i + 1, mix);
    }
  }

  /** An index beyond the range of int fails in an add. */
  lemma AddTooFar(x: seq<Json>, i: nat, v: Json, mix: Mixed)
    requires i > INT_MAX
    ensures ApplyOp(Arr(x), AddOp(ToString([Digits(i)]), v), mix) == Err(OutOfRange)
  {
    hide Split, ToString, Stoi;
    var tok := Digits(i);
    SplitToString([tok]);
    StoiTooLarge(i);
    assert tok != "-" by { assert tok[0] != "-"[0]; }
    assert Insert(Arr(x), tok, v) == Err(OutOfRange);
    var toks: Tokens := [tok];
    assert toks[..0] == [];
  }

  /** One element more than fits: the index in the patch cannot be read back, and patching fails. */
  lemma TooLongFails(x: seq<Json>, v: Json, mix: Mixed)
    requires |x| > INT_MAX && NoNaN(Arr(x))
    ensures Patch(Arr(x), Arr(Diff(Arr(x), Arr(x + [v]), "", mix)), mix) == Err(OutOfRange)
  {
    assert ToString([]) == "";
    hide Split, ToString, DiffItems, ApplyOp, Digits, Escape, ReadDigits, NoNaN;
    SameItems(x, v, 0, mix);
    DigitsPlain(|x|);
    PathSnoc([], Digits(|x|));
    assert [] + [Digits(|x|)] == [Digits(|x|)];
    var op := AddOp(Slashed("", Digits(|x|)), v);
    assert Additions(x + [v], |x|, "") == [op] + Additions(x + [v], |x| + 1, "") == [op];
    assert Removals(|x|, |x| + 1, "") == [];
    assert Diff(Arr(x), Arr(x + [v]), "", mix) == [] + [] + [op];
    AddTooFar(x, |x|, v, mix);
    ApplyOne(Arr(x), op, mix);
  }
}
