/** Applying a JSON Patch document (section 4 of RFC 6902) to a copy of a value. */
module JsonPatch {
  import opened JsonValue
  import opened JsonText
  import opened JsonPointer
  import opened JsonAccess

  // ---------------------------------------------------------------- the edits

  /** A new child of a container; a null becomes an object, an array makes room for it. */
  function Insert(parent: Json, last: string, v: Json): Result<Json> {
    match parent
    case Null => Ok(Obj(map[last := v]))
    case Obj(m) => Ok(Obj(m[last := v]))
    case Arr(x) =>
      if last == "-" then Ok(Arr(x + [v])) else
        (match Stoi(last)
         case Err(e) => Err(e)
         case Ok(i) => if 0 <= i <= |x| then Ok(Arr(x[..i] + [v] + x[i..])) else Err(OutOfRange))
    case _ => Err(AssertionFailed)
  }

  function Add(doc: Json, toks: Tokens, v: Json): Result<Json> {
    if toks == [] then Ok(v) else
      var front, last := toks[..|toks| - 1], toks[|toks| - 1];
      var top := if |toks| > 1 then At(doc, toks[..1]) else Ok(doc);
      if top.Err? then Err(top.error) else Update(doc, front, p => Insert(p, last, v))
  }

  /** The container without one child; a primitive is left alone. */
  function Without(parent: Json, last: string): Result<Json> {
    match parent
    case Obj(m) => if last in m then Ok(Obj(m - {last})) else Err(OutOfRange)
    case Arr(x) =>
      (match Stoi(last)
       case Err(e) => Err(e)
       case Ok(i) => if 0 <= i < |x| then Ok(Arr(x[..i] + x[i + 1..])) else Err(OutOfRange))
    case _ => Ok(parent)
  }

  function Remove(doc: Json, toks: Tokens): Result<Json> {
    if toks == [] then Err(DomainError) else
      var front, last := toks[..|toks| - 1], toks[|toks| - 1];
      match At(doc, front)
      case Err(e) => Err(e)
      case Ok(p) =>
        match Without(p, last)
        case Err(e) => Err(e)
        case Ok(q) => Ok(Store(doc, front, q))
  }

  function ReplaceAt(doc: Json, toks: Tokens, v: Json): Result<Json> {
    match At(doc, toks)
    case Err(e) => Err(e)
    case Ok(_) => Ok(Store(doc, toks, v))
  }

  function Move(doc: Json, from: Tokens, toks: Tokens): Result<Json> {
    match At(doc, from)
    case Err(e) => Err(e)
    case Ok(v) =>
      match Remove(doc, from)
      case Err(e) => Err(e)
      case Ok(rest) => Add(rest, toks, v)
  }

  function Copy(doc: Json, from: Tokens, toks: Tokens): Result<Json> {
    match At(doc, from)
    case Err(e) => Err(e)
    case Ok(v) => Update(doc, toks, _ => Ok(v))
  }

  /** A test leaves the document alone or fails; a place that is out of range fails like a difference. */
  function Test(doc: Json, toks: Tokens, value: Result<Json>, mix: Mixed): Result<Json> {
    match At(doc, toks)
    case Err(e) => Err(if e == OutOfRange then DomainError else e)
    case Ok(c) =>
      match value
      case Err(e) => Err(e)
      case Ok(v) => if Eq(c, v, mix) then Ok(doc) else Err(DomainError)
  }

  // ---------------------------------------------------------------- one operation of a patch document

  function Member(op: map<string, Json>, name: string): Result<Json> {
    if name in op then Ok(op[name]) else Err(InvalidArgument)
  }

  function StringMember(op: map<string, Json>, name: string): Result<string> {
    if name in op && op[name].Str? then Ok(op[name].s) else Err(InvalidArgument)
  }

  /** The pointer in a member of an operation. */
  function PointerMember(op: map<string, Json>, name: string): Result<Tokens> {
    match StringMember(op, name)
    case Err(e) => Err(e)
    case Ok(text) => Split(text)
  }

  function ApplyOp(doc: Json, op: Json, mix: Mixed): Result<Json> {
    if !op.Obj? then Err(InvalidArgument) else
      var m := op.members;
      var name :- StringMember(m, "op");
      var toks :- PointerMember(m, "path");
      match name
      case "add" => var v :- Member(m, "value"); Add(doc, toks, v)
      case "remove" => Remove(doc, toks)
      case "replace" => var v :- Member(m, "value"); ReplaceAt(doc, toks, v)
      case "move" => var from :- PointerMember(m, "from"); Move(doc, from, toks)
      case "copy" => var from :- PointerMember(m, "from"); Copy(doc, from, toks)
      case "test" => Test(doc, toks, Member(m, "value"), mix)
      case _ => Err(InvalidArgument)
  }

  /** The operations one after the other; the first error ends the patch. */
  function ApplyOps(doc: Json, ops: seq<Json>, mix: Mixed): Result<Json>
    decreases |ops|
  {
    if ops == [] then Ok(doc) else
      match ApplyOp(doc, ops[0], mix)
      case Err(e) => Err(e)
      case Ok(next) => ApplyOps(next, ops[1..], mix)
  }

  function Patch(doc: Json, patch: Json, mix: Mixed): Result<Json> {
    if patch.Arr? then ApplyOps(doc, patch.items, mix) else Err(InvalidArgument)
  }

  /** The loop of patch over a working copy. */
  method PatchCopy(source: Json, patch: Json, mix: Mixed) returns (r: Result<Json>)
    ensures r == Patch(source, patch, mix)
  {
    hide ApplyOp;
    if !patch.Arr? { return Err(InvalidArgument); }
    var result := source;
    for n := 0 to |patch.items|
      invariant ApplyOps(result, patch.items[n..], mix) == ApplyOps(source, patch.items, mix)
    {
      assert patch.items[n..][1..] == patch.items[n + 1..];
      var next := ApplyOp(result, patch.items[n], mix);
      if next.Err? { return Err(next.error); }
      result := next.value;
    }
    return Ok(result);
  }

  lemma {:induction false} ApplyConcat(doc: Json, a: seq<Json>, b: seq<Json>, mix: Mixed)
    ensures var r := ApplyOps(doc, a, mix);
      ApplyOps(doc, a + b, mix) == if r.Ok? then ApplyOps(r.value, b, mix) else r
    decreases |a|
  {
    hide ApplyOp;
    if a == [] {
      assert a + b == b;
    } else {
      assert (a + b)[1..] == a[1..] + b;
      var next := ApplyOp(doc, a[0], mix);
      if next.Ok? {
        ApplyConcat(next.value, a[1..], b, mix);
      }
    }
  }

  lemma ApplyOne(doc: Json, op: Json, mix: Mixed)
    ensures ApplyOps(doc, [op], mix) == ApplyOp(doc, op, mix)
  {
    hide ApplyOp;
    assert [op][1..] == [];
  }

  // ---------------------------------------------------------------- what an edit does at a place that exists

  function ReplaceOp(path: string, v: Json): Json {
    Obj(map["op" := Str("replace"), "path" := Str(path), "value" := v])
  }

  function RemoveOp(path: string): Json {
    Obj(map["op" := Str("remove"), "path" := Str(path)])
  }

  function AddOp(path: string, v: Json): Json {
    Obj(map["op" := Str("add"), "path" := Str(path), "value" := v])
  }

  lemma ReplaceMeans(doc: Json, toks: Tokens, v: Json, mix: Mixed)
    requires At(doc, toks).Ok?
    ensures ApplyOp(doc, ReplaceOp(ToString(toks), v), mix) == Ok(Store(doc, toks, v))
  {
    hide Split, ToString, At, Store;
    SplitToString(toks);
  }

  lemma RemoveAt(doc: Json, toks: Tokens, last: string, q: Json)
    requires At(doc, toks).Ok? && Without(At(doc, toks).value, last) == Ok(q)
    ensures Remove(doc, toks + [last]) == Ok(Store(doc, toks, q))
  {
    hide At, Store, Without;
    assert (toks + [last])[..|toks|] == toks;
  }

  lemma RemoveMeans(doc: Json, toks: Tokens, last: string, q: Json, mix: Mixed)
    requires At(doc, toks).Ok? && Without(At(doc, toks).value, last) == Ok(q)
    ensures ApplyOp(doc, RemoveOp(ToString(toks + [last])), mix) == Ok(Store(doc, toks, q))
  {
    hide Split, ToString, At, Store, Without, Remove;
    SplitToString(toks + [last]);
    RemoveAt(doc, toks, last, q);
  }

  lemma AddAt(doc: Json, toks: Tokens, last: string, v: Json, q: Json)
    requires At(doc, toks).Ok? && Insert(At(doc, toks).value, last, v) == Ok(q)
    ensures Add(doc, toks + [last], v) == Ok(Store(doc, toks, q))
  {
    hide At, Store, Insert, Update;
    var all := toks + [last];
    assert all[..|toks|] == toks;
    if |all| > 1 {
      AtPrefix(doc, toks, 1);
      assert all[..1] == toks[..1];
    }
    UncheckedAgrees(doc, toks, p => Insert(p, last, v));
  }

  lemma AddMeans(doc: Json, toks: Tokens, last: string, v: Json, q: Json, mix: Mixed)
    requires At(doc, toks).Ok? && Insert(At(doc, toks).value, last, v) == Ok(q)
    ensures ApplyOp(doc, AddOp(ToString(toks + [last]), v), mix) == Ok(Store(doc, toks, q))
  {
    hide Split, ToString, At, Store, Insert, Add;
    SplitToString(toks + [last]);
    AddAt(doc, toks, last, v, q);
  }

  function TestOp(path: string, v: Json): Json {
    Obj(map["op" := Str("test"), "path" := Str(path), "value" := v])
  }

  function MoveOp(from: string, path: string): Json {
    Obj(map["op" := Str("move"), "from" := Str(from), "path" := Str(path)])
  }

  function CopyOp(from: string, path: string): Json {
    Obj(map["op" := Str("copy"), "from" := Str(from), "path" := Str(path)])
  }

  /** A test passes, and then changes nothing, exactly when an equal value is there. */
  lemma TestMeans(doc: Json, toks: Tokens, v: Json, mix: Mixed)
    ensures var r := ApplyOp(doc, TestOp(ToString(toks), v), mix);
      && (r.Ok? <==> At(doc, toks).Ok? && Eq(At(doc, toks).value, v, mix))
      && (r.Ok? ==> r.value == doc) && r != Err(OutOfRange)
  {
    hide Split, ToString, At, Eq;
    SplitToString(toks);
  }

  lemma MoveOpMeans(doc: Json, from: Tokens, toks: Tokens, mix: Mixed)
    ensures ApplyOp(doc, MoveOp(ToString(from), ToString(toks)), mix) == Move(doc, from, toks)
  {
    hide Split, ToString, Move;
    SplitToString(from);
    SplitToString(toks);
  }

  lemma MoveAt(doc: Json, toks: Tokens, a: string, b: string)
    requires At(doc, toks).Ok? && At(doc, toks).value.Obj? && a in At(doc, toks).value.members && a != b
    ensures var m := At(doc, toks).value.members;
      Move(doc, toks + [a], toks + [b]) == Ok(Store(doc, toks, Obj((m - {a})[b := m[a]])))
  {
    var m := At(doc, toks).value.members;
    var rest := Store(doc, toks, Obj(m - {a}));
    AtSnoc(doc, toks, a);
    hide At, Store, Add, Remove;
    RemoveAt(doc, toks, a, Obj(m - {a}));
    StoreLaws(doc, toks, Obj(m - {a}), Obj((m - {a})[b := m[a]]));
    AddAt(rest, toks, b, m[a], Obj((m - {a})[b := m[a]]));
  }

  /** Moving a member to another key of the same object renames it. */
  lemma MoveRenames(doc: Json, toks: Tokens, a: string, b: string, mix: Mixed)
    requires At(doc, toks).Ok? && At(doc, toks).value.Obj? && a in At(doc, toks).value.members && a != b
    ensures var m := At(doc, toks).value.members;
      ApplyOp(doc, MoveOp(ToString(toks + [a]), ToString(toks + [b])), mix) == Ok(Store(doc, toks, Obj((m - {a})[b := m[a]])))
  {
    hide ToString, At, Store, Move, ApplyOp;
    MoveAt(doc, toks, a, b);
    MoveOpMeans(doc, toks + [a], toks + [b], mix);
  }

  /** Copying to a place that exists overwrites it, in an array too, where section 4.5 of RFC 6902 would insert. */
  lemma CopyOverwrites(doc: Json, from: Tokens, toks: Tokens, mix: Mixed)
    requires At(doc, from).Ok? && At(doc, toks).Ok?
    ensures ApplyOp(doc, CopyOp(ToString(from), ToString(toks)), mix) == Ok(Store(doc, toks, At(doc, from).value))
  {
    hide Split, ToString, At, Store, Update;
    SplitToString(from);
    SplitToString(toks);
    UncheckedAgrees(doc, toks, _ => Ok(At(doc, from).value));
  }

  /** A child that can be added and was not there before: a new key, or an index up to the size. */
  predicate New(parent: Json, last: string) {
    match parent
    case Obj(m) => last !in m
    case Arr(x) => last != "-" && Stoi(last).Ok? && 0 <= Stoi(last).value <= |x|
    case _ => false
  }

  lemma InsertedLeaves(parent: Json, last: string, v: Json)
    requires New(parent, last)
    ensures Insert(parent, last, v).Ok? && Without(Insert(parent, last, v).value, last) == Ok(parent)
  {
    hide Stoi;
    match parent
    case Obj(m) => assert m[last := v] - {last} == m;
    case Arr(x) =>
      var i := Stoi(last).value;
      var y := x[..i] + [v] + x[i..];
      assert y[..i] + y[i + 1..] == x;
  }

  /** Removing what was added gives the document back. */
  lemma AddThenRemove(doc: Json, toks: Tokens, last: string, v: Json, mix: Mixed)
    requires At(doc, toks).Ok? && New(At(doc, toks).value, last)
    ensures var path := ToString(toks + [last]);
      ApplyOps(doc, [AddOp(path, v), RemoveOp(path)], mix) == Ok(doc)
  {
    hide ToString, At, Store, Insert, Without, New, ApplyOp;
    var path, p := ToString(toks + [last]), At(doc, toks).value;
    InsertedLeaves(p, last, v);
    var q := Insert(p, last, v).value;
    AddMeans(doc, toks, last, v, q, mix);
    StoreLaws(doc, toks, q, p);
    RemoveMeans(Store(doc, toks, q), toks, last, p, mix);
    ApplyConcat(doc, [AddOp(path, v)], [RemoveOp(path)], mix);
    ApplyOne(doc, AddOp(path, v), mix);
    ApplyOne(Store(doc, toks, q), RemoveOp(path), mix);
    assert [AddOp(path, v)] + [RemoveOp(path)] == [AddOp(path, v), RemoveOp(path)];
  }
}
