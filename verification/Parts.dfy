/** One sequence standing inside another. */
module Parts {

  /** `part` stands in `v` from index `i` on. */
  predicate StandsAt<T(==)>(v: seq<T>, i: nat, part: seq<T>) {
    i + |part| <= |v| && v[i..i + |part|] == part
  }

  lemma StandsSplit<T>(v: seq<T>, i: nat, a: seq<T>, b: seq<T>)
    ensures StandsAt(v, i, a + b) <==> StandsAt(v, i, a) && StandsAt(v, i + |a|, b)
  {
    if i + |a| + |b| <= |v| {
      var s := v[i..i + |a| + |b|];
      assert s[..|a|] == v[i..i + |a|] && s[|a|..] == v[i + |a|..i + |a| + |b|];
      assert s == s[..|a|] + s[|a|..];
      assert (a + b)[..|a|] == a && (a + b)[|a|..] == b;
    }
  }

  lemma StandsWithin<T>(v: seq<T>, i: nat, part: seq<T>)
    requires StandsAt(v, i, part)
    ensures i + |part| <= |v| && v[i..i + |part|] == part
  {
  }

  lemma StandsElements<T>(v: seq<T>, i: nat, part: seq<T>)
    requires StandsAt(v, i, part)
    ensures forall k :: 0 <= k < |part| ==> part[k] == v[i + k]
  {
    assert forall k :: 0 <= k < |part| ==> part[k] == v[i..i + |part|][k];
  }

  lemma Regroup<T>(a: seq<T>, b: seq<T>, c: seq<T>)
    ensures a + (b + c) == (a + b) + c
  {
  }
}
