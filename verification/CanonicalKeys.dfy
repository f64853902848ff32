/** The canonical form of a value, element by element and key by key. */
module CanonicalKeys {
  import opened JsonValue

  lemma CanonicalItems(j: Json)
    requires j.Arr?
    ensures Canonical(j).Arr? && |Canonical(j).items| == |j.items|
    ensures forall i :: 0 <= i < |j.items| ==> Canonical(j).items[i] == Canonical(j.items[i])
  {
  }

  lemma CanonicalMembers(j: Json)
    requires j.Obj?
    ensures Canonical(j).Obj? && Canonical(j).members.Keys == j.members.Keys
    ensures forall k :: k in j.members ==> Canonical(j).members[k] == Canonical(j.members[k])
  {
  }

  /** The members from key `i` on, canonical. */
  function From(m: map<string, Json>, keys: seq<string>, i: nat): map<string, Json>
    requires i <= |keys| && forall k :: k in keys ==> k in m
  {
    map k | k in keys[i..] :: Canonical(m[k])
  }

  lemma KeysMean(j: Json, keys: seq<string>)
    requires j.Obj? && forall k :: k in keys <==> k in j.members
    ensures Obj(From(j.members, keys, 0)) == Canonical(j)
  {
    CanonicalMembers(j);
    hide Canonical;
    var all := From(j.members, keys, 0);
    assert keys[0..] == keys;
    assert all.Keys == Canonical(j).members.Keys;
    assert all == Canonical(j).members;
  }

  /** The first of these members, and the others. */
  lemma FromStep(m: map<string, Json>, keys: seq<string>, i: nat)
    requires i < |keys| && forall k :: k in keys ==> k in m
    requires forall a, b :: 0 <= a < b < |keys| ==> keys[a] != keys[b]
    ensures From(m, keys, i) == map[keys[i] := Canonical(m[keys[i]])] + From(m, keys, i + 1)
  {
    hide Canonical;
    assert keys[i..] == [keys[i]] + keys[i + 1..];
    assert forall k :: k in keys[i..] <==> k == keys[i] || k in keys[i + 1..];
    assert keys[i] !in keys[i + 1..];
  }

  lemma NoneFrom(m: map<string, Json>, keys: seq<string>)
    requires forall k :: k in keys ==> k in m
    ensures From(m, keys, |keys|) == map[]
  {
  }
}
