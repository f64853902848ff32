/** Sums over the keys of a map: the order of the walk does not matter. */
module KeyTotals {
  import opened KeyOrder

  function Total(f: string -> nat, keys: seq<string>): nat {
    if keys == [] then 0 else f(keys[0]) + Total(f, keys[1..])
  }

  lemma {:induction false} TotalSame(f: string -> nat, g: string -> nat, keys: seq<string>)
    requires forall k :: k in keys ==> f(k) == g(k)
    ensures Total(f, keys) == Total(g, keys)
    decreases |keys|
  {
    if keys != [] { TotalSame(f, g, keys[1..]); }
  }

  lemma WalkStep(s: set<string>, m: string)
    requires IsLeast(m, s)
    ensures SortedKeys(s) == [m] + SortedKeys(s - {m})
  {
    hide Less;
    LeastUnique(Least(s), m, s);
  }

  /** Any key can be taken out first. */
  lemma {:induction false} TotalWithout(f: string -> nat, s: set<string>, k: string)
    requires k in s
    ensures Total(f, SortedKeys(s)) == f(k) + Total(f, SortedKeys(s - {k}))
    decreases |s|
  {
    hide Less, SortedKeys;
    var m := Least(s);
    WalkStep(s, m);
    var rest := s - {m};
    TotalStep(f, m, SortedKeys(rest));
    if k != m {
      TotalWithout(f, rest, k);
      WalkStep(s - {k}, m);
      assert rest - {k} == s - {k} - {m};
      TotalStep(f, m, SortedKeys(rest - {k}));
    }
  }

  lemma TotalStep(f: string -> nat, k: string, keys: seq<string>)
    ensures Total(f, [k] + keys) == f(k) + Total(f, keys)
  {
    assert ([k] + keys)[1..] == keys;
  }

  /** A new key adds its own share. */
  lemma TotalGrows(f: string -> nat, g: string -> nat, s: set<string>, k: string)
    requires k !in s && forall a :: a in s ==> f(a) == g(a)
    ensures Total(f, SortedKeys(s + {k})) == f(k) + Total(g, SortedKeys(s))
  {
    hide Less, Total;
    TotalWithout(f, s + {k}, k);
    assert s + {k} - {k} == s;
    TotalSame(f, g, SortedKeys(s));
  }
}
