/** What a computed difference consists of: each operation answers one place where the two values differ. */
module JsonDiffLaws {
  import opened Decimal
  import opened KeyOrder
  import opened JsonValue
  import opened JsonText
  import opened JsonPointer
  import opened JsonAccess
  import opened JsonPatch
  import opened JsonPatchLaws
  import opened JsonDiff

  /** Both are arrays or both are objects. */
  predicate SameContainer(a: Json, b: Json) {
    (a.Arr? && b.Arr?) || (a.Obj? && b.Obj?)
  }

  /**
   The operation is called for at the place `q` below `base`: it replaces what is there by what the target has
   there, where the two are not containers of one kind and not equal; it removes what only the source has; or it
   adds what only the target has.
   */
  ghost predicate Justified(op: Json, src: Json, tgt: Json, base: Tokens, q: Tokens, mix: Mixed) {
    var path, a, b := ToString(base + q), At(src, q), At(tgt, q);
    || (a.Ok? && b.Ok? && op == ReplaceOp(path, b.value) && !Eq(a.value, b.value, mix) && !SameContainer(a.value, b.value))
    || (a.Ok? && b.Err? && op == RemoveOp(path))
    || (a.Err? && b.Ok? && op == AddOp(path, b.value))
  }

  ghost predicate AllJustified(ops: seq<Json>, src: Json, tgt: Json, base: Tokens, mix: Mixed) {
    forall op :: op in ops ==> exists q :: Justified(op, src, tgt, base, q, mix)
  }

  lemma AtCons(j: Json, t: string, q: Tokens)
    requires Child(j, t).Ok?
    ensures At(j, [t] + q) == At(Child(j, t).value, q)
  {
    assert ([t] + q)[0] == t && ([t] + q)[1..] == q;
  }

  lemma AtMissing(j: Json, t: string)
    requires Child(j, t).Err?
    ensures At(j, [t]) == Err(Child(j, t).error)
  {
  }

  lemma AtHere(j: Json, t: string)
    requires Child(j, t).Ok?
    ensures At(j, [t]) == Child(j, t)
  {
    assert [t][1..] == [];
  }

  /** Operations for a part are operations for the whole. */
  lemma JustifiedBelow(ops: seq<Json>, src: Json, tgt: Json, base: Tokens, t: string, mix: Mixed)
    requires Child(src, t).Ok? && Child(tgt, t).Ok?
    requires AllJustified(ops, Child(src, t).value, Child(tgt, t).value, base + [t], mix)
    ensures AllJustified(ops, src, tgt, base, mix)
  {
    hide Child, Eq, ToString, ReplaceOp, RemoveOp, AddOp;
    var a, b := Child(src, t).value, Child(tgt, t).value;
    forall op | op in ops ensures exists q :: Justified(op, src, tgt, base, q, mix) {
      var q :| Justified(op, a, b, base + [t], q, mix);
      assert base + [t] + q == base + ([t] + q);
      AtCons(src, t, q);
      AtCons(tgt, t, q);
      hide At;
      assert Justified(op, src, tgt, base, [t] + q, mix);
    }
  }

  lemma IndexChild(x: seq<Json>, i: nat)
    requires i <= INT_MAX
    ensures Child(Arr(x), Digits(i)) == if i < |x| then Ok(x[i]) else Err(OutOfRange)
  {
    hide Stoi, Digits;
    IndexFound(|x|, i);
  }

  lemma IndexPath(base: Tokens, i: nat)
    ensures Slashed(ToString(base), Digits(i)) == ToString(base + [Digits(i)])
  {
    hide Escape, Digits, ToString;
    DigitsPlain(i);
    PathSnoc(base, Digits(i));
  }

  lemma {:induction false} ItemsJustified(src: Json, tgt: Json, i: nat, base: Tokens, mix: Mixed)
    requires src.Arr? && tgt.Arr? && Indexable(src) && Indexable(tgt)
    ensures AllJustified(DiffItems(src, tgt, i, ToString(base), mix), src, tgt, base, mix)
    decreases src, 0, |src.items| - i
  {
    hide Diff, Justified, Child, ToString, Digits, Slashed;
    var (x, y) := (src.items, tgt.items);
    if i < |x| && i < |y| {
      IndexPath(base, i);
      IndexChild(x, i);
      IndexChild(y, i);
      DiffJustified(x[i], y[i], base + [Digits(i)], mix);
      JustifiedBelow(Diff(x[i], y[i], ToString(base + [Digits(i)]), mix), src, tgt, base, Digits(i), mix);
      ItemsJustified(src, tgt, i + 1, base, mix);
    }
  }

  lemma {:induction false} RemovalsJustified(x: seq<Json>, y: seq<Json>, hi: nat, base: Tokens, mix: Mixed)
    requires hi <= |x| <= INT_MAX + 1
    ensures AllJustified(Removals(hi, |y|, ToString(base)), Arr(x), Arr(y), base, mix)
    decreases hi
  {
    hide Child, ToString, Digits, Slashed, Eq, At, ReplaceOp, RemoveOp, AddOp;
    if hi > |y| {
      var t := Digits(hi - 1);
      IndexPath(base, hi - 1);
      IndexChild(x, hi - 1);
      IndexChild(y, hi - 1);
      AtHere(Arr(x), t);
      AtMissing(Arr(y), t);
      assert Justified(RemoveOp(ToString(base + [t])), Arr(x), Arr(y), base, [t], mix);
      RemovalsJustified(x, y, hi - 1, base, mix);
    }
  }

  lemma {:induction false} AdditionsJustified(x: seq<Json>, y: seq<Json>, i: nat, base: Tokens, mix: Mixed)
    requires |x| <= i && |y| <= INT_MAX + 1
    ensures AllJustified(Additions(y, i, ToString(base)), Arr(x), Arr(y), base, mix)
    decreases |y| - i
  {
    hide Child, ToString, Digits, Slashed, Eq, At, ReplaceOp, RemoveOp, AddOp;
    if i < |y| {
      var t := Digits(i);
      IndexPath(base, i);
      IndexChild(x, i);
      IndexChild(y, i);
      AtMissing(Arr(x), t);
      AtHere(Arr(y), t);
      assert Justified(AddOp(ToString(base + [t]), y[i]), Arr(x), Arr(y), base, [t], mix);
      AdditionsJustified(x, y, i + 1, base, mix);
    }
  }

  lemma {:induction false} KeysJustified(src: Json, tgt: Json, keys: seq<string>, base: Tokens, mix: Mixed)
    requires src.Obj? && tgt.Obj? && Indexable(src) && Indexable(tgt) && forall k :: k in keys ==> k in src.members
    ensures AllJustified(DiffKeys(src, tgt, keys, ToString(base), mix), src, tgt, base, mix)
    decreases src, 0, |keys|
  {
    hide Diff, ToString, Escape, Slashed, Eq, At, ReplaceOp, RemoveOp, AddOp;
    if keys != [] {
      var k := keys[0];
      PathSnoc(base, k);
      if k in tgt.members {
        DiffJustified(src.members[k], tgt.members[k], base + [k], mix);
        JustifiedBelow(Diff(src.members[k], tgt.members[k], ToString(base + [k]), mix), src, tgt, base, k, mix);
      } else {
        AtHere(src, k);
        AtMissing(tgt, k);
        assert Justified(RemoveOp(ToString(base + [k])), src, tgt, base, [k], mix);
      }
      KeysJustified(src, tgt, keys[1..], base, mix);
    }
  }

  lemma {:induction false} NewKeysJustified(src: Json, tgt: Json, keys: seq<string>, base: Tokens, mix: Mixed)
    requires src.Obj? && tgt.Obj? && forall k :: k in keys ==> k in tgt.members
    ensures AllJustified(AddKeys(src.members, tgt.members, keys, ToString(base)), src, tgt, base, mix)
    decreases |keys|
  {
    hide ToString, Escape, Slashed, Eq, At, ReplaceOp, RemoveOp, AddOp;
    if keys != [] {
      var k := keys[0];
      PathSnoc(base, k);
      if k !in src.members {
        AtMissing(src, k);
        AtHere(tgt, k);
        assert Justified(AddOp(ToString(base + [k]), tgt.members[k]), src, tgt, base, [k], mix);
      }
      NewKeysJustified(src, tgt, keys[1..], base, mix);
    }
  }

  lemma HereJustified(src: Json, tgt: Json, base: Tokens, mix: Mixed)
    requires !Eq(src, tgt, mix) && !SameContainer(src, tgt)
    ensures Justified(ReplaceOp(ToString(base), tgt), src, tgt, base, [], mix)
  {
    assert base + [] == base;
  }

  /** Every operation of a difference is called for at some place. */
  lemma {:induction false} DiffJustified(src: Json, tgt: Json, base: Tokens, mix: Mixed)
    requires Indexable(src) && Indexable(tgt)
    ensures AllJustified(Diff(src, tgt, ToString(base), mix), src, tgt, base, mix)
    decreases src, 1, 0
  {
    hide Eq, ToString, DiffItems, DiffKeys, AddKeys, Removals, Additions, Justified, SortedKeys, Less;
    if !Eq(src, tgt, mix) {
      match (src, tgt)
      case (Arr(x), Arr(y)) =>
        ItemsJustified(src, tgt, 0, base, mix);
        RemovalsJustified(x, y, |x|, base, mix);
        AdditionsJustified(x, y, |x|, base, mix);
      case (Obj(x), Obj(y)) =>
        KeysJustified(src, tgt, SortedKeys(x.Keys), base, mix);
        NewKeysJustified(src, tgt, SortedKeys(y.Keys), base, mix);
      case _ => HereJustified(src, tgt, base, mix);
    }
  }

  // ---------------------------------------------------------------- equal parts are left alone

  /** Equal values have equal parts in the same places. */
  lemma {:induction false} EqualBelow(a: Json, b: Json, q: Tokens, mix: Mixed)
    requires Eq(a, b, mix)
    ensures At(a, q).Ok? <==> At(b, q).Ok?
    ensures At(a, q).Ok? ==> Eq(At(a, q).value, At(b, q).value, mix)
    decreases |q|
  {
    hide Stoi;
    if q != [] && Child(a, q[0]).Ok? {
      EqualBelow(Child(a, q[0]).value, Child(b, q[0]).value, q[1..], mix);
    }
  }

  /**
   The difference of two values says nothing about the parts they have in common: no operation is at or below
   a place where both have equal values.
   */
  lemma DiffLeavesEqual(src: Json, tgt: Json, op: Json, p: Tokens, mix: Mixed)
    requires Indexable(src) && Indexable(tgt) && op in Diff(src, tgt, "", mix)
    requires At(src, p).Ok? && At(tgt, p).Ok? && Eq(At(src, p).value, At(tgt, p).value, mix)
    ensures exists q :: Justified(op, src, tgt, [], q, mix) && !(p <= q)
  {
    assert ToString([]) == "";
    hide Eq, Diff, At, ToString, Justified, Indexable;
    DiffJustified(src, tgt, [], mix);
    var q :| Justified(op, src, tgt, [], q, mix);
    if p <= q { NotBelow(op, src, tgt, p, q, mix); }
  }

  lemma NotBelow(op: Json, src: Json, tgt: Json, p: Tokens, q: Tokens, mix: Mixed)
    requires p <= q && At(src, p).Ok? && At(tgt, p).Ok? && Eq(At(src, p).value, At(tgt, p).value, mix)
    ensures !Justified(op, src, tgt, [], q, mix)
  {
    hide Eq, At, Justified;
    EqualBelow(At(src, p).value, At(tgt, p).value, q[|p|..], mix);
    assert p + q[|p|..] == q;
    AtConcat(src, p, q[|p|..], Null);
    AtConcat(tgt, p, q[|p|..], Null);
    NotJustified(op, src, tgt, q, mix);
  }

  lemma NotJustified(op: Json, src: Json, tgt: Json, q: Tokens, mix: Mixed)
    requires At(src, q).Ok? <==> At(tgt, q).Ok?
    requires At(src, q).Ok? ==> Eq(At(src, q).value, At(tgt, q).value, mix)
    ensures !Justified(op, src, tgt, [], q, mix)
  {
    hide Eq, At, ToString;
  }
}
