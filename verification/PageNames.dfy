/** Names of page files: printed, parsed back, and never shared by two pages. */
module PageNames {
  import opened Decimal

  const PREFIX := "optionHedge"
  const SUFFIX := "journal"

  predicate IsShort(n: int) {
    -0x8000 <= n < 0x8000
  }

  function GenPageFileName(jname: string, n: int): string {
    PREFIX + "." + jname + "." + Printed(n) + "." + SUFFIX
  }

  function GenPageFullPath(dir: string, jname: string, n: int): string {
    dir + "/" + GenPageFileName(jname, n)
  }

  /** std::atoi: white space, an optional sign, then digits up to the first other character. */
  function Atoi(s: string): int
    decreases |s|
  {
    if s != [] && IsSpace(s[0]) then Atoi(s[1..])
    else if s != [] && s[0] == '-' then -(ReadDigits(s[1..], 0) as int)
    else if s != [] && s[0] == '+' then ReadDigits(s[1..], 0)
    else ReadDigits(s, 0)
  }

  /** A conversion to short keeps the low 16 bits. */
  function ToShort(n: int): (r: int)
    ensures IsShort(r) && (IsShort(n) ==> r == n)
  {
    (n + 0x8000) % 0x1_0000 - 0x8000
  }

  /** The number in a file name, or nothing when the name is too short to hold one. */
  function ExtractPageNum(filename: string, jname: string): (r: (bool, int))
    ensures r.0 <==> |PREFIX| + |jname| + 2 <= |filename|
  {
    var from := |PREFIX| + |jname| + 2;
    if from > |filename| then (false, 0) else
      var count := |filename| - |SUFFIX|;
      var to := if count < 0 || from + count > |filename| then |filename| else from + count;
      (true, ToShort(Atoi(filename[from..to])))
  }

  lemma {:induction false} ReadPrefix(a: string, b: string)
    requires forall i :: 0 <= i < |a| ==> IsDigit(a[i])
    requires b == [] || !IsDigit(b[0])
    ensures ReadDigits(a + b, 0) == ReadDigits(a, 0)
  {
    ReadConcat(a, b, 0);
  }

  lemma AtoiDigits(k: nat, rest: string)
    requires rest == [] || !IsDigit(rest[0])
    ensures ReadDigits(Digits(k) + rest, 0) == k && Atoi(Digits(k) + rest) == k
  {
    hide Digits, ReadDigits;
    DigitsRoundTrip(k);
    ReadPrefix(Digits(k), rest);
    assert IsDigit((Digits(k) + rest)[0]);
  }

  lemma AtoiPrinted(n: int, rest: string)
    requires rest == [] || !IsDigit(rest[0])
    ensures Atoi(Printed(n) + rest) == n
  {
    hide Digits, ReadDigits;
    var k: nat := if n < 0 then -n else n;
    AtoiDigits(k, rest);
    if n < 0 {
      var s := ['-'] + (Digits(k) + rest);
      assert Printed(n) + rest == s && s[1..] == Digits(k) + rest;
    }
  }

  /** A printed page number is read back, for every short; any other comes back as the short with its low 16 bits. */
  lemma NameRoundTrip(jname: string, n: int)
    ensures var (found, k) := ExtractPageNum(GenPageFileName(jname, n), jname);
      found && IsShort(k) && (n - k) % 0x1_0000 == 0 && (IsShort(n) ==> k == n)
  {
    var name := GenPageFileName(jname, n);
    var from := |PREFIX| + |jname| + 2;
    var tail := Printed(n) + ("." + SUFFIX);
    assert name == (PREFIX + "." + jname + ".") + tail;
    assert name[from..] == tail;
    var count := |name| - |SUFFIX|;
    var to := if from + count > |name| then |name| else from + count;
    assert to - from >= |Printed(n)|;
    var rest := ("." + SUFFIX)[..to - from - |Printed(n)|];
    assert name[from..to] == tail[..to - from] == Printed(n) + rest;
    AtoiPrinted(n, rest);
  }

  // ---------------------------------------------------------------- no two pages share a path

  lemma LastSplit(a: string, b: string, x: string, y: string, c: char)
    requires a + [c] + x == b + [c] + y && c !in x && c !in y
    ensures a == b && x == y
  {
    var s := a + [c] + x;
    assert forall i :: |a| < i < |s| ==> s[i] == x[i - |a| - 1] != c;
    assert forall i :: |b| < i < |s| ==> s[i] == y[i - |b| - 1] != c;
    assert s[|a|] == c && s[|b|] == c;
    assert |a| == |b|;
    assert s[..|a|] == a && s[..|b|] == b;
    assert s[|a| + 1..] == x && s[|b| + 1..] == y;
  }

  lemma PrintedInjective(m: int, n: int)
    requires Printed(m) == Printed(n)
    ensures m == n
  {
    AtoiPrinted(m, []);
    AtoiPrinted(n, []);
    assert Printed(m) + [] == Printed(n) + [];
  }

  lemma PathInjective(d: string, j: string, m: int, e: string, k: string, n: int)
    requires '/' !in j && '/' !in k
    requires GenPageFullPath(d, j, m) == GenPageFullPath(e, k, n)
    ensures d == e && j == k && m == n
  {
    hide Printed;
    LastSplit(d, e, GenPageFileName(j, m), GenPageFileName(k, n), '/');
    var f, g := PREFIX + "." + j + "." + Printed(m), PREFIX + "." + k + "." + Printed(n);
    assert GenPageFileName(j, m) == f + ['.'] + SUFFIX && GenPageFileName(k, n) == g + ['.'] + SUFFIX;
    LastSplit(f, g, SUFFIX, SUFFIX, '.');
    LastSplit(PREFIX + "." + j, PREFIX + "." + k, Printed(m), Printed(n), '.');
    assert (PREFIX + "." + j)[|PREFIX| + 1..] == j && (PREFIX + "." + k)[|PREFIX| + 1..] == k;
    PrintedInjective(m, n);
  }

  /** A slash in a journal name lets two pages share a path. */
  lemma SlashShares()
    ensures exists d, j, e, k :: (d, j) != (e, k) && GenPageFullPath(d, j, 1) == GenPageFullPath(e, k, 1)
  {
    var tail := "x." + Printed(1) + "." + SUFFIX;
    var d, j, e, k := "a", "b/optionHedge.x", "a/optionHedge.b", "x";
    assert GenPageFullPath(d, j, 1) == GenPageFullPath(e, k, 1);
    assert (d, j) != (e, k);
  }
}
