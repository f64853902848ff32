/**
 What the operations of a patch do, said of the values before and after: children taken out of containers and
 put into them, whole documents, and operations that are not well formed.
 */
module JsonPatchLaws {
  import opened Decimal
  import opened JsonValue
  import opened JsonText
  import opened JsonPointer
  import opened JsonAccess
  import opened JsonPatch

  // ---------------------------------------------------------------- children and places

  /** `token` is the printed form of index `i`, and `i` fits an int. */
  predicate Indexes(token: string, i: nat) {
    i <= INT_MAX && token == Digits(i)
  }

  /** Taking the child `v` at `token` out of `parent` leaves `rest`. */
  ghost predicate Taken(parent: Json, token: string, v: Json, rest: Json) {
    match parent
    case Obj(m) => token in m && v == m[token] && rest == Obj(m - {token})
    case Arr(x) => exists i: nat :: i < |x| && Indexes(token, i) && v == x[i] && rest == Arr(x[..i] + x[i + 1..])
    case _ => false
  }

  /** Putting `v` in at `token`, before the element that is there, gives `full`; "-" is the end of an array. */
  ghost predicate Entered(parent: Json, token: string, v: Json, full: Json) {
    match parent
    case Null => full == Obj(map[token := v])
    case Obj(m) => full == Obj(m[token := v])
    case Arr(x) =>
      || (token == "-" && full == Arr(x + [v]))
      || exists k: nat :: k <= |x| && Indexes(token, k) && full == Arr(x[..k] + [v] + x[k..])
    case _ => false
  }

  lemma IndexReads(token: string, i: nat)
    requires Indexes(token, i)
    ensures Stoi(token) == Ok(i) && token != "-"
    ensures forall n: nat :: i < n ==> CheckedIndex(n, token) == Ok(i)
    ensures forall n: nat :: i >= n ==> CheckedIndex(n, token) == Err(OutOfRange)
    ensures forall n: nat :: FreeIndex(n, token) == Ok(i)
  {
    hide Stoi, Digits;
    StoiDigits(i);
    assert token != "-" by { assert IsDigit(token[0]); }
  }

  lemma TakenOut(parent: Json, token: string, v: Json, rest: Json)
    requires Taken(parent, token, v, rest)
    ensures Child(parent, token) == Ok(v) && Without(parent, token) == Ok(rest)
  {
    hide Stoi, Digits;
    if parent.Arr? {
      var x := parent.items;
      var i: nat :| i < |x| && Indexes(token, i) && v == x[i] && rest == Arr(x[..i] + x[i + 1..]);
      IndexReads(token, i);
    }
  }

  lemma EnteredInto(parent: Json, token: string, v: Json, full: Json)
    requires Entered(parent, token, v, full)
    ensures Insert(parent, token, v) == Ok(full)
  {
    hide Stoi, Digits, Indexes;
    if parent.Arr? && !(token == "-" && full == Arr(parent.items + [v])) {
      var x := parent.items;
      var k: nat :| k <= |x| && Indexes(token, k) && full == Arr(x[..k] + [v] + x[k..]);
      IndexReads(token, k);
    }
  }

  // ---------------------------------------------------------------- add, remove and replace

  /** An add enters its value into the container its pointer leads to. */
  lemma AddEnters(doc: Json, toks: Tokens, token: string, v: Json, full: Json, mix: Mixed)
    requires At(doc, toks).Ok? && Entered(At(doc, toks).value, token, v, full)
    ensures ApplyOp(doc, AddOp(ToString(toks + [token]), v), mix) == Ok(Store(doc, toks, full))
  {
    hide ApplyOp, ToString, At, Store, Insert, Entered;
    EnteredInto(At(doc, toks).value, token, v, full);
    AddMeans(doc, toks, token, v, full, mix);
  }

  /** A remove takes its child out. */
  lemma RemoveTakes(doc: Json, toks: Tokens, token: string, v: Json, rest: Json, mix: Mixed)
    requires At(doc, toks).Ok? && Taken(At(doc, toks).value, token, v, rest)
    ensures ApplyOp(doc, RemoveOp(ToString(toks + [token])), mix) == Ok(Store(doc, toks, rest))
  {
    hide ApplyOp, ToString, At, Store, Without, Taken;
    TakenOut(At(doc, toks).value, token, v, rest);
    RemoveMeans(doc, toks, token, rest, mix);
  }

  /** At the root: an add or replace gives the value itself, a remove fails. */
  lemma AtTheRoot(doc: Json, v: Json, mix: Mixed)
    ensures ApplyOp(doc, AddOp("", v), mix) == ApplyOp(doc, ReplaceOp("", v), mix) == Ok(v)
    ensures ApplyOp(doc, RemoveOp(""), mix) == Err(DomainError)
  {
    assert Split("") == Ok([]);
    assert At(doc, []) == Ok(doc) && Store(doc, [], v) == v;
  }

  /** Copied onto itself the root stays, moved onto itself it cannot be taken out first. */
  lemma RootOntoItself(doc: Json, mix: Mixed)
    ensures ApplyOp(doc, CopyOp("", ""), mix) == Ok(doc) && ApplyOp(doc, MoveOp("", ""), mix) == Err(DomainError)
  {
    assert Split("") == Ok([]) && At(doc, []) == Ok(doc);
    assert Update(doc, [], _ => Ok(doc)) == Ok(doc);
  }

  // ---------------------------------------------------------------- move

  /** A move takes the child out first; where it then puts it is decided in what is left. */
  lemma MoveTakesThenEnters(doc: Json, from: Tokens, a: string, v: Json, rest: Json, toks: Tokens, b: string, full: Json, mix: Mixed)
    requires At(doc, from).Ok? && Taken(At(doc, from).value, a, v, rest)
    requires At(Store(doc, from, rest), toks).Ok? && Entered(At(Store(doc, from, rest), toks).value, b, v, full)
    ensures ApplyOp(doc, MoveOp(ToString(from + [a]), ToString(toks + [b])), mix) == Ok(Store(Store(doc, from, rest), toks, full))
  {
    hide ApplyOp, ToString, Store, Insert, Without, Taken, Entered, At;
    TakenOut(At(doc, from).value, a, v, rest);
    RemoveAt(doc, from, a, rest);
    AtSnoc(doc, from, a);
    var left := Store(doc, from, rest);
    EnteredInto(At(left, toks).value, b, v, full);
    AddAt(left, toks, b, v, full);
    hide Remove, Add;
    MoveOpMeans(doc, from + [a], toks + [b], mix);
  }

  /** Within an array: the element leaves its place and comes to stand at the index asked for. */
  lemma MoveWithinArray(doc: Json, toks: Tokens, x: seq<Json>, i: nat, k: nat, mix: Mixed)
    requires At(doc, toks) == Ok(Arr(x)) && i < |x| && k < |x| && i <= INT_MAX && k <= INT_MAX
    ensures var rest := x[..i] + x[i + 1..];
      ApplyOp(doc, MoveOp(ToString(toks + [Digits(i)]), ToString(toks + [Digits(k)])), mix)
      == Ok(Store(doc, toks, Arr(rest[..k] + [x[i]] + rest[k..])))
  {
    hide ApplyOp, ToString, At, Store, Digits;
    var rest := x[..i] + x[i + 1..];
    var full := Arr(rest[..k] + [x[i]] + rest[k..]);
    assert Indexes(Digits(i), i) && Indexes(Digits(k), k);
    assert Taken(Arr(x), Digits(i), x[i], Arr(rest));
    assert Entered(Arr(rest), Digits(k), x[i], full);
    StoreLaws(doc, toks, Arr(rest), full);
    MoveTakesThenEnters(doc, toks, Digits(i), x[i], Arr(rest), toks, Digits(k), full, mix);
  }

  /** Not beyond its end: the array is one shorter once the element is out. */
  lemma MovePastEnd(doc: Json, toks: Tokens, x: seq<Json>, i: nat, mix: Mixed)
    requires At(doc, toks) == Ok(Arr(x)) && i < |x| <= INT_MAX
    ensures ApplyOp(doc, MoveOp(ToString(toks + [Digits(i)]), ToString(toks + [Digits(|x|)])), mix) == Err(OutOfRange)
  {
    hide ApplyOp, ToString, At, Store, Digits, Stoi;
    var rest := x[..i] + x[i + 1..];
    var left := Store(doc, toks, Arr(rest));
    var from, to := toks + [Digits(i)], toks + [Digits(|x|)];
    assert Indexes(Digits(i), i) && Indexes(Digits(|x|), |x|);
    assert Taken(Arr(x), Digits(i), x[i], Arr(rest));
    TakenOut(Arr(x), Digits(i), x[i], Arr(rest));
    RemoveAt(doc, toks, Digits(i), Arr(rest));
    AtSnoc(doc, toks, Digits(i));
    StoreLaws(doc, toks, Arr(rest), Null);
    IndexReads(Digits(|x|), |x|);
    AddRefused(left, toks, Digits(|x|), x[i]);
    hide Remove, Add;
    MoveOpMeans(doc, from, to, mix);
  }

  /** An insertion the container refuses. */
  lemma AddRefused(doc: Json, toks: Tokens, token: string, v: Json)
    requires At(doc, toks).Ok? && Insert(At(doc, toks).value, token, v).Err?
    ensures Add(doc, toks + [token], v) == Err(Insert(At(doc, toks).value, token, v).error)
  {
    hide At, Insert, Update, Store;
    var all := toks + [token];
    assert all[..|toks|] == toks;
    if |all| > 1 {
      AtPrefix(doc, toks, 1);
      assert all[..1] == toks[..1];
    }
    UncheckedAgrees(doc, toks, p => Insert(p, token, v));
  }

  /** From below one member of an object to below another: each side changes as if it were alone. */
  lemma MoveAcross(doc: Json, top: Tokens, m: map<string, Json>, f: string, from: Tokens, a: string, v: Json, rest: Json,
                   g: string, toks: Tokens, b: string, full: Json, mix: Mixed)
    requires At(doc, top) == Ok(Obj(m)) && f in m && g in m && f != g
    requires At(m[f], from).Ok? && Taken(At(m[f], from).value, a, v, rest)
    requires At(m[g], toks).Ok? && Entered(At(m[g], toks).value, b, v, full)
    ensures ApplyOp(doc, MoveOp(ToString(top + [f] + from + [a]), ToString(top + [g] + toks + [b])), mix)
      == Ok(Store(doc, top, Obj(m[f := Store(m[f], from, rest)][g := Store(m[g], toks, full)])))
  {
    hide ApplyOp, ToString, Taken, Entered, At, Store;
    var lighter := m[f := Store(m[f], from, rest)];
    var left := Store(doc, top, Obj(lighter));
    BelowMember(doc, top, m, f, from, rest);
    StoreLaws(doc, top, Obj(lighter), Obj(lighter[g := Store(m[g], toks, full)]));
    BelowMember(left, top, lighter, g, toks, full);
    MoveTakesThenEnters(doc, top + [f] + from, a, v, rest, top + [g] + toks, b, full, mix);
  }

  /** A place below a member of an object. */
  lemma BelowMember(doc: Json, top: Tokens, m: map<string, Json>, f: string, below: Tokens, v: Json)
    requires At(doc, top) == Ok(Obj(m)) && f in m && At(m[f], below).Ok?
    ensures At(doc, top + [f] + below) == At(m[f], below)
    ensures Store(doc, top + [f] + below, v) == Store(doc, top, Obj(m[f := Store(m[f], below, v)]))
  {
    AtConcat(doc, top, [f] + below, v);
    assert ([f] + below)[0] == f && ([f] + below)[1..] == below;
    assert top + [f] + below == top + ([f] + below);
  }

  lemma {:induction false} AtConcat(j: Json, a: Tokens, b: Tokens, v: Json)
    requires At(j, a).Ok?
    ensures At(j, a + b) == At(At(j, a).value, b)
    ensures At(j, a + b).Ok? ==> Store(j, a + b, v) == Store(j, a, Store(At(j, a).value, b, v))
    decreases |a|
  {
    hide Child, WithChild;
    if a == [] {
      assert a + b == b;
    } else {
      assert (a + b)[0] == a[0] && (a + b)[1..] == a[1..] + b;
      AtConcat(Child(j, a[0]).value, a[1..], b, v);
    }
  }

  // ---------------------------------------------------------------- copy

  /** Assigning `v` to the child `token` of a container, which need not be there: an array is filled up with nulls,
      and a null becomes an array for an index and an object for any other token. */
  ghost predicate Assigned(parent: Json, token: string, v: Json, full: Json) {
    match parent
    case Obj(m) => full == Obj(m[token := v])
    case Arr(x) => AssignedItem(x, token, v, full)
    case Null =>
      if token == "-" || forall i :: 0 <= i < |token| ==> IsDigit(token[i]) then AssignedItem([], token, v, full)
      else full == Obj(map[token := v])
    case _ => false
  }

  ghost predicate AssignedItem(x: seq<Json>, token: string, v: Json, full: Json) {
    || (token == "-" && full == Arr(x + [v]))
    || exists k: nat :: Indexes(token, k) &&
         full == Arr(if k < |x| then x[k := v] else x + seq(k - |x|, _ => Null) + [v])
  }

  lemma AssignedTo(parent: Json, token: string, v: Json, full: Json)
    requires Assigned(parent, token, v, full)
    ensures Update(parent, [token], _ => Ok(v)) == Ok(full)
  {
    hide Stoi, Digits;
    assert [token][1..] == [];
    if Opened(parent, token).Arr? {
      var x := Opened(parent, token).items;
      if token == "-" && full == Arr(x + [v]) {
        assert Filled(x, |x|)[|x| := v] == x + [v];
      } else {
        var k: nat :| Indexes(token, k) && full == Arr(if k < |x| then x[k := v] else x + seq(k - |x|, _ => Null) + [v]);
        IndexReads(token, k);
        assert k >= |x| ==> Filled(x, k)[k := v] == x + seq(k - |x|, _ => Null) + [v];
      }
    }
  }

  /** A copy to a child of a container that exists assigns it, whether or not the child was there. */
  lemma CopyAssigns(doc: Json, from: Tokens, toks: Tokens, token: string, full: Json, mix: Mixed)
    requires At(doc, from).Ok? && At(doc, toks).Ok? && Assigned(At(doc, toks).value, token, At(doc, from).value, full)
    ensures ApplyOp(doc, CopyOp(ToString(from), ToString(toks + [token])), mix) == Ok(Store(doc, toks, full))
  {
    hide Split, ToString, At, Store, Update, Assigned;
    var v := At(doc, from).value;
    SplitToString(from);
    SplitToString(toks + [token]);
    AssignedTo(At(doc, toks).value, token, v, full);
    UpdateConcat(doc, toks, [token], _ => Ok(v));
    UncheckedAgrees(doc, toks, p => Update(p, [token], _ => Ok(v)));
  }

  lemma {:induction false} UpdateConcat(j: Json, a: Tokens, b: Tokens, f: Json -> Result<Json>)
    ensures Update(j, a + b, f) == Update(j, a, p => Update(p, b, f))
    decreases |a|
  {
    hide FreeIndex;
    if a == [] {
      assert a + b == b;
    } else {
      assert (a + b)[0] == a[0] && (a + b)[1..] == a[1..] + b;
      match Opened(j, a[0])
      case Obj(m) => UpdateConcat(if a[0] in m then m[a[0]] else Null, a[1..], b, f);
      case Arr(x) =>
        if FreeIndex(|x|, a[0]).Ok? {
          UpdateConcat(Filled(x, FreeIndex(|x|, a[0]).value)[FreeIndex(|x|, a[0]).value], a[1..], b, f);
        }
      case _ =>
    }
  }

  // ---------------------------------------------------------------- an add below what is missing

  /** The first token of an add must lead somewhere, unless it is the only one. */
  lemma AddBelowMissing(doc: Json, first: string, rest: Tokens, v: Json, mix: Mixed)
    requires rest != [] && At(doc, [first]).Err?
    ensures ApplyOp(doc, AddOp(ToString([first] + rest), v), mix) == Err(At(doc, [first]).error)
  {
    hide Split, ToString, At, Update;
    SplitToString([first] + rest);
    assert ([first] + rest)[..1] == [first];
  }

  /** Further down, an object makes room for a missing parent: it becomes an object with the value in it. */
  lemma AddMakesParent(doc: Json, toks: Tokens, m: map<string, Json>, key: string, token: string, v: Json, mix: Mixed)
    requires toks != [] && At(doc, toks) == Ok(Obj(m)) && key !in m
    ensures ApplyOp(doc, AddOp(ToString(toks + [key, token]), v), mix) == Ok(Store(doc, toks, Obj(m[key := Obj(map[token := v])])))
  {
    hide Split, ToString, At, Store;
    var all := toks + [key, token];
    SplitToString(all);
    assert all[..1] == toks[..1] && all[..|all| - 1] == toks + [key];
    AtPrefix(doc, toks, 1);
    UpdateConcat(doc, toks, [key], p => Insert(p, token, v));
    UncheckedAgrees(doc, toks, p => Update(p, [key], q => Insert(q, token, v)));
    assert Update(Obj(m), [key], q => Insert(q, token, v)) == Ok(Obj(m[key := Obj(map[token := v])])) by { assert [key][1..] == []; }
  }

  // ---------------------------------------------------------------- operations that are not well formed

  predicate HasString(m: map<string, Json>, name: string) {
    name in m && m[name].Str?
  }

  /** The members an operation must have. */
  predicate WellFormed(op: Json) {
    && op.Obj? && HasString(op.members, "op") && HasString(op.members, "path")
    && op.members["op"].s in {"add", "remove", "replace", "move", "copy", "test"}
    && (op.members["op"].s in {"add", "replace", "test"} ==> "value" in op.members)
    && (op.members["op"].s in {"move", "copy"} ==> HasString(op.members, "from"))
  }

  /** The texts that must be pointers are. */
  predicate Pointed(op: Json) {
    op.Obj? ==>
      && (HasString(op.members, "path") ==> Split(op.members["path"].s).Ok?)
      && (HasString(op.members, "from") ==> Split(op.members["from"].s).Ok?)
  }

  /** Without them the patch fails, for the reason that an argument is invalid unless a pointer or place is. */
  lemma IllFormedFails(doc: Json, op: Json, mix: Mixed)
    requires !WellFormed(op)
    ensures ApplyOp(doc, op, mix).Err?
    ensures Pointed(op) && !(op.Obj? && HasString(op.members, "op") && op.members["op"].s == "test") ==>
      ApplyOp(doc, op, mix) == Err(InvalidArgument)
  {
    hide Split, Add, Remove, ReplaceAt, Move, Copy, At;
  }

  /** A bad pointer fails too. */
  lemma BadPointerFails(doc: Json, op: Json, mix: Mixed)
    requires WellFormed(op) && Split(op.members["path"].s).Err?
    ensures ApplyOp(doc, op, mix) == Err(DomainError)
  {
    hide Add, Remove, ReplaceAt, Move, Copy, At, Unescape, WellEscaped, Pieces;
  }

  /** A place that is not there: replace, remove, move from it and copy from it fail with the error of the walk. */
  lemma MissingFails(doc: Json, toks: Tokens, to: Tokens, token: string, v: Json, mix: Mixed)
    requires At(doc, toks).Err?
    ensures ApplyOp(doc, ReplaceOp(ToString(toks), v), mix) == Err(At(doc, toks).error)
    ensures ApplyOp(doc, RemoveOp(ToString(toks + [token])), mix) == Err(At(doc, toks).error)
    ensures ApplyOp(doc, MoveOp(ToString(toks), ToString(to)), mix) == Err(At(doc, toks).error)
    ensures ApplyOp(doc, CopyOp(ToString(toks), ToString(to)), mix) == Err(At(doc, toks).error)
  {
    hide Split, ToString, At, Store;
    SplitToString(toks);
    SplitToString(to);
    SplitToString(toks + [token]);
    assert (toks + [token])[..|toks|] == toks;
  }

  /** No index `k` of an array of `n` elements. */
  ghost predicate Beyond(token: string, n: nat) {
    exists k: nat :: k > n && Indexes(token, k)
  }

  /** What an add finds no place for: an index past the end, and a parent that is no container. */
  lemma AddHasNoPlace(doc: Json, toks: Tokens, token: string, v: Json, mix: Mixed)
    requires At(doc, toks).Ok?
    ensures var p, r := At(doc, toks).value, ApplyOp(doc, AddOp(ToString(toks + [token]), v), mix);
      && (p.Arr? && Beyond(token, |p.items|) ==> r == Err(OutOfRange))
      && (IsPrimitive(p) && !p.Null? ==> r == Err(AssertionFailed))
  {
    hide Split, ToString, At, Add, Stoi, Indexes;
    SplitToString(toks + [token]);
    var p := At(doc, toks).value;
    if p.Arr? && Beyond(token, |p.items|) {
      var k: nat :| k > |p.items| && Indexes(token, k);
      IndexReads(token, k);
      AddRefused(doc, toks, token, v);
    } else if IsPrimitive(p) && !p.Null? {
      AddRefused(doc, toks, token, v);
    }
  }

  /** What a remove does not find is out of range; below a value that is no container it does nothing. */
  lemma RemoveFindsNothing(doc: Json, toks: Tokens, token: string, mix: Mixed)
    requires At(doc, toks).Ok?
    ensures var p, r := At(doc, toks).value, ApplyOp(doc, RemoveOp(ToString(toks + [token])), mix);
      && (p.Obj? && token !in p.members ==> r == Err(OutOfRange))
      && (p.Arr? && (Beyond(token, |p.items|) || token == Digits(|p.items|)) && |p.items| <= INT_MAX ==> r == Err(OutOfRange))
      && (IsPrimitive(p) ==> r == Ok(doc))
  {
    hide Split, ToString, At, Store, Stoi, Indexes, Digits;
    SplitToString(toks + [token]);
    assert (toks + [token])[..|toks|] == toks;
    var p := At(doc, toks).value;
    StoreLaws(doc, toks, p, p);
    if p.Arr? && Beyond(token, |p.items|) {
      var k: nat :| k > |p.items| && Indexes(token, k);
      IndexReads(token, k);
    } else if p.Arr? && token == Digits(|p.items|) && |p.items| <= INT_MAX {
      StoiDigits(|p.items|);
    }
  }

  /** What a copy cannot be assigned to: a child of a value that is no container, and a negative index. */
  lemma CopyHasNoPlace(doc: Json, from: Tokens, toks: Tokens, token: string, mix: Mixed)
    requires At(doc, from).Ok? && At(doc, toks).Ok?
    ensures var p, r := At(doc, toks).value, ApplyOp(doc, CopyOp(ToString(from), ToString(toks + [token])), mix);
      && (IsPrimitive(p) && !p.Null? ==> r == Err(OutOfRange))
      && (p.Arr? && token == "-1" ==> r == Err(LengthError))
  {
    hide Split, ToString, At, Store, Stoi;
    var v := At(doc, from).value;
    SplitToString(from);
    SplitToString(toks + [token]);
    UpdateConcat(doc, toks, [token], _ => Ok(v));
    UncheckedAgrees(doc, toks, p => Update(p, [token], _ => Ok(v)));
    StoiReads("", "-", 1, "");
    assert "" + ("-" + (Digits(1) + "")) == "-1";
  }

  /** A step of the checked walk that is not there is out of range. */
  lemma NotThere(doc: Json, toks: Tokens, token: string)
    requires At(doc, toks).Ok?
    ensures var p, r := At(doc, toks).value, At(doc, toks + [token]);
      && (p.Obj? && token !in p.members ==> r == Err(OutOfRange))
      && (p.Arr? && Beyond(token, |p.items|) ==> r == Err(OutOfRange))
      && (IsPrimitive(p) ==> r == Err(OutOfRange))
  {
    hide At, Stoi, Indexes;
    AtSnoc(doc, toks, token);
    var p := At(doc, toks).value;
    if p.Arr? && Beyond(token, |p.items|) {
      var k: nat :| k > |p.items| && Indexes(token, k);
      IndexReads(token, k);
    }
  }

  /** Only the first of several operations that fail is reported, and a patch that is not an array fails. */
  lemma FirstFailure(doc: Json, done: seq<Json>, op: Json, later: seq<Json>, mix: Mixed)
    requires ApplyOps(doc, done, mix).Ok? && ApplyOp(ApplyOps(doc, done, mix).value, op, mix).Err?
    ensures Patch(doc, Arr(done + [op] + later), mix) == ApplyOp(ApplyOps(doc, done, mix).value, op, mix)
    ensures !op.Arr? ==> Patch(doc, op, mix) == Err(InvalidArgument)
  {
    hide ApplyOp;
    ApplyConcat(doc, done + [op], later, mix);
    ApplyConcat(doc, done, [op], mix);
    ApplyOne(ApplyOps(doc, done, mix).value, op, mix);
  }
}
