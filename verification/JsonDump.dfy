/** The compact text of a value. */
module JsonDump {
  import opened Bytes
  import opened Decimal
  import opened KeyOrder
  import opened Parts
  import opened JsonValue
  import opened JsonEscape
  import opened JsonNumber

  /** The text of a double, left to the platform. */
  type Show = Float64 -> string

  function Quoted(s: string): string {
    "\"" + EscapeString(s) + "\""
  }

  function Dump(show: Show, j: Json): string
    decreases j, 1, 0
  {
    match j
    case Null => "null"
    case Bool(b) => if b then "true" else "false"
    case Int(n) => Printed(n)
    case Uint(n) => Printed(n)
    case Float(f) => show(f)
    case Str(s) => Quoted(s)
    case Arr(x) => "[" + DumpItems(show, j, 0) + "]"
    case Obj(m) => "{" + DumpMembers(show, j, SortedKeys(m.Keys), 0) + "}"
  }

  /** The elements from index `i` on, each but the first after a comma. */
  function DumpItems(show: Show, j: Json, i: nat): string
    requires j.Arr?
    decreases j, 0, |j.items| - i
  {
    if i >= |j.items| then ""
    else (if i > 0 then "," else "") + (Dump(show, j.items[i]) + DumpItems(show, j, i + 1))
  }

  function DumpMembers(show: Show, j: Json, keys: seq<string>, i: nat): string
    requires j.Obj? && forall k :: k in keys ==> k in j.members
    decreases j, 0, |keys| - i
  {
    if i >= |keys| then ""
    else (if i > 0 then "," else "") + (Quoted(keys[i]) + (":" + (Dump(show, j.members[keys[i]]) + DumpMembers(show, j, keys, i + 1))))
  }

  /** dump without indentation: it appends to a stream. */
  method DumpTo(show: Show, j: Json, o: string) returns (r: string)
    requires InRange(j)
    ensures r == o + Dump(show, j)
    decreases j, 1
  {
    hide Printed, SortedKeys, Less, Span;
    match j
    case Arr(x) =>
      if x == [] { return o + "[]"; }
      r := DumpItemsTo(show, j, o + "[");
      r := r + "]";
      Regroup(o, "[", DumpItems(show, j, 0));
      Regroup(o, "[" + DumpItems(show, j, 0), "]");
    case Obj(m) =>
      if m == map[] { assert SortedKeys(m.Keys) == []; return o + "{}"; }
      r := DumpMembersTo(show, j, o + "{");
      r := r + "}";
      Regroup(o, "{", DumpMembers(show, j, SortedKeys(m.Keys), 0));
      Regroup(o, "{" + DumpMembers(show, j, SortedKeys(m.Keys), 0), "}");
    case Str(s) =>
      var e := EscapeInBuffer(s);
      r := o + ("\"" + e + "\"");
    case Int(n) =>
      var t := NumToStr(n);
      r := o + t;
    case Uint(n) =>
      var t := NumToStr(n);
      r := o + t;
    case _ =>
      r := o + Dump(show, j);
  }

  method DumpItemsTo(show: Show, j: Json, o: string) returns (r: string)
    requires j.Arr? && InRange(j)
    ensures r == o + DumpItems(show, j, 0)
    decreases j, 0
  {
    hide Dump;
    r := o;
    for i := 0 to |j.items|
      invariant r + DumpItems(show, j, i) == o + DumpItems(show, j, 0)
    {
      ghost var later := DumpItems(show, j, i + 1);
      var comma := if i > 0 then "," else "";
      Regroup(r, comma, Dump(show, j.items[i]) + later);
      r := r + comma;
      Regroup(r, Dump(show, j.items[i]), later);
      r := DumpTo(show, j.items[i], r);
    }
  }

  method DumpMembersTo(show: Show, j: Json, o: string) returns (r: string)
    requires j.Obj? && InRange(j)
    ensures r == o + DumpMembers(show, j, SortedKeys(j.members.Keys), 0)
    decreases j, 0
  {
    hide Dump, SortedKeys, Less;
    var keys := SortedKeys(j.members.Keys);
    r := o;
    for i := 0 to |keys|
      invariant r + DumpMembers(show, j, keys, i) == o + DumpMembers(show, j, keys, 0)
    {
      var k := keys[i];
      var v := j.members[k];
      ghost var later := DumpMembers(show, j, keys, i + 1);
      var comma := if i > 0 then "," else "";
      Regroup(r, comma, Quoted(k) + (":" + (Dump(show, v) + later)));
      r := r + comma;
      var e := EscapeInBuffer(k);
      Regroup(r, Quoted(k), ":" + (Dump(show, v) + later));
      r := r + ("\"" + e + "\"");
      Regroup(r, ":", Dump(show, v) + later);
      r := r + ":";
      Regroup(r, Dump(show, v), later);
      r := DumpTo(show, v, r);
    }
  }
}
