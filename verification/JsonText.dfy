/** Reference tokens as text: array indices, and the escaping of slash and tilde. */
module JsonText {
  import opened Decimal
  import opened Parts
  import opened JsonValue

  // ---------------------------------------------------------------- numbers

  const INT_MAX := 0x7fff_ffff

  /** std::stoi: white space, an optional sign, then as many digits as there are. */
  function Stoi(s: string): Result<int>
    decreases |s|
  {
    if s != [] && IsSpace(s[0]) then Stoi(s[1..]) else
      var signed := s != [] && (s[0] == '-' || s[0] == '+');
      var rest := if signed then s[1..] else s;
      if rest == [] || !IsDigit(rest[0]) then Err(InvalidArgument) else
        var v: int := if signed && s[0] == '-' then 0 - ReadDigits(rest, 0) else ReadDigits(rest, 0);
        if -INT_MAX - 1 <= v <= INT_MAX then Ok(v) else Err(OutOfRange)
  }

  lemma StoiDigits(n: nat)
    requires n <= INT_MAX
    ensures Stoi(Digits(n)) == Ok(n)
  {
    DigitsRoundTrip(n);
  }

  lemma StoiTooLarge(n: nat)
    requires n > INT_MAX
    ensures Stoi(Digits(n)) == Err(OutOfRange)
  {
    DigitsRoundTrip(n);
  }

  function Signed(sign: string, n: nat): int { if sign == "-" then -(n as int) else n as int }

  /** Blanks and a sign before the digits are passed over, and whatever follows them is ignored. */
  lemma {:induction false} StoiReads(blanks: string, sign: string, n: nat, rest: string)
    requires (forall k :: 0 <= k < |blanks| ==> IsSpace(blanks[k])) && (sign == "" || sign == "+" || sign == "-")
    requires rest == "" || !IsDigit(rest[0])
    ensures var v := Signed(sign, n);
      Stoi(blanks + (sign + (Digits(n) + rest))) == if -INT_MAX - 1 <= v <= INT_MAX then Ok(v) else Err(OutOfRange)
    decreases |blanks|
  {
    var s := blanks + (sign + (Digits(n) + rest));
    if blanks != "" {
      assert s[1..] == blanks[1..] + (sign + (Digits(n) + rest));
      StoiReads(blanks[1..], sign, n, rest);
    } else {
      assert s == sign + (Digits(n) + rest);
      DigitsThenRest(n, rest);
      hide Digits, ReadDigits;
      if sign != "" { assert s[1..] == Digits(n) + rest; } else { assert s == Digits(n) + rest; }
    }
  }

  lemma DigitsThenRest(n: nat, rest: string)
    requires rest == "" || !IsDigit(rest[0])
    ensures ReadDigits(Digits(n) + rest, 0) == n && (Digits(n) + rest) != "" && IsDigit((Digits(n) + rest)[0])
  {
    hide Digits;
    DigitsRoundTrip(n);
    ReadConcat(Digits(n), rest, 0);
  }

  /** Text without a digit in front is no number. */
  lemma StoiRefuses(s: string)
    requires s == "" || (!IsSpace(s[0]) && !IsDigit(s[0]) && s[0] != '-' && s[0] != '+')
    ensures Stoi(s) == Err(InvalidArgument)
  {
  }

  /** Every index of every array can be read back as an int. */
  predicate Indexable(j: Json) {
    match j
    case Arr(x) => |x| <= INT_MAX + 1 && forall i :: 0 <= i < |x| ==> Indexable(x[i])
    case Obj(m) => forall k :: k in m ==> Indexable(m[k])
    case _ => true
  }

  // ---------------------------------------------------------------- replacing substrings

  /** All occurrences of `f`, from the left and not overlapping, replaced by `t`. */
  function Replace(s: string, f: string, t: string): string
    requires f != []
    decreases |s|
  {
    if |s| < |f| then s
    else if f <= s then t + Replace(s[|f|..], f, t)
    else [s[0]] + Replace(s[1..], f, t)
  }

  /** Position of the first occurrence of `f` at or after `pos`; -1 if there is none. */
  function Find(s: string, f: string, pos: nat): (r: int)
    requires f != []
    ensures r == -1 || pos <= r <= |s| - |f|
    ensures r >= 0 ==> f <= s[r..]
    ensures forall i :: pos <= i <= |s| && (r == -1 || i < r) ==> !(f <= s[i..])
    decreases |s| - pos
  {
    if pos + |f| > |s| then -1 else if f <= s[pos..] then pos else Find(s, f, pos + 1)
  }

  /** Positions where `f` does not occur are copied. */
  lemma {:induction false} ReplaceSkip(h: string, f: string, t: string, n: nat)
    requires f != [] && n <= |h| && forall i :: 0 <= i < n ==> !(f <= h[i..])
    ensures Replace(h, f, t) == h[..n] + Replace(h[n..], f, t)
    decreases n
  {
    if n == 0 {
      assert h[0..] == h;
    } else if |h| < |f| {
      assert h == h[..n] + h[n..];
    } else {
      var tail := h[1..];
      assert !(f <= h[0..]) && h[0..] == h;
      assert Replace(h, f, t) == [h[0]] + Replace(tail, f, t);
      hide Replace;
      forall i | 0 <= i < n - 1 ensures !(f <= tail[i..]) { assert tail[i..] == h[i + 1..]; }
      ReplaceSkip(tail, f, t, n - 1);
      assert tail[n - 1..] == h[n..] && [h[0]] + tail[..n - 1] == h[..n];
      Regroup([h[0]], tail[..n - 1], Replace(h[n..], f, t));
    }
  }

  lemma ReplaceHere(g: string, f: string, t: string)
    requires f != [] && f <= g
    ensures Replace(g, f, t) == t + Replace(g[|f|..], f, t)
  {
  }

  lemma ReplaceFound(s: string, f: string, t: string, pos: nat)
    requires f != [] && pos <= |s| && Find(s, f, pos) >= 0
    ensures var r := Find(s, f, pos); Replace(s[pos..], f, t) == s[pos..r] + t + Replace(s[r + |f|..], f, t)
  {
    hide Replace;
    var r := Find(s, f, pos);
    var h := s[pos..];
    assert forall i :: 0 <= i < r - pos ==> h[i..] == s[pos + i..];
    ReplaceSkip(h, f, t, r - pos);
    assert h[r - pos..] == s[r..] && h[..r - pos] == s[pos..r];
    ReplaceHere(s[r..], f, t);
    assert s[r..][|f|..] == s[r + |f|..];
    Regroup(s[pos..r], t, Replace(s[r + |f|..], f, t));
  }

  lemma ReplaceNone(s: string, f: string, t: string, pos: nat)
    requires f != [] && pos <= |s| && Find(s, f, pos) < 0
    ensures Replace(s[pos..], f, t) == s[pos..]
  {
    var h := s[pos..];
    assert forall i :: 0 <= i < |h| ==> h[i..] == s[pos + i..];
    ReplaceSkip(h, f, t, |h|);
    assert h[|h|..] == [] && h[..|h|] == h;
  }

  /** Replacing the first occurrence after `done` keeps what the whole replacement gives. */
  lemma ReplaceStep(r: string, f: string, t: string, done: nat)
    requires f != [] && done <= |r| && Find(r, f, done) >= 0
    ensures var pos := Find(r, f, done); var next := r[..pos] + t + r[pos + |f|..];
      next[..pos + |t|] + Replace(next[pos + |t|..], f, t) == r[..done] + Replace(r[done..], f, t)
  {
    hide Replace, Find;
    var pos := Find(r, f, done);
    var next := r[..pos] + t + r[pos + |f|..];
    ReplaceFound(r, f, t, done);
    var tail := Replace(r[pos + |f|..], f, t);
    assert next[pos + |t|..] == r[pos + |f|..] && next[..pos + |t|] == r[..pos] + t && r[..pos] == r[..done] + r[done..pos];
    assert r[..done] + (r[done..pos] + t + tail) == (r[..done] + r[done..pos]) + t + tail;
  }

  /** The loop of replace_substring, in place. */
  method ReplaceSubstring(s: string, f: string, t: string) returns (r: string)
    requires f != []
    ensures r == Replace(s, f, t)
  {
    hide Replace, Find;
    r := s;
    ghost var done: nat := 0;
    var pos := Find(r, f, 0);
    assert s[..0] + Replace(s[0..], f, t) == Replace(s, f, t) by { assert s[0..] == s; }
    while pos != -1
      invariant done <= |r| && pos == Find(r, f, done)
      invariant r[..done] + Replace(r[done..], f, t) == Replace(s, f, t)
      decreases |r| - done
    {
      ReplaceStep(r, f, t, done);
      r := r[..pos] + t + r[pos + |f|..];
      done := pos + |t|;
      pos := Find(r, f, pos + |t|);
    }
    ReplaceNone(r, f, t, done);
    assert r[..done] + r[done..] == r;
  }

  // ---------------------------------------------------------------- escaping reference tokens

  function Escape(s: string): string {
    Replace(Replace(s, "~", "~0"), "/", "~1")
  }

  function Unescape(s: string): string {
    Replace(Replace(s, "~1", "/"), "~0", "~")
  }

  /** Every tilde is followed by 0 or 1. */
  predicate WellEscaped(s: string)
    decreases |s|
  {
    s == [] || (if s[0] == '~' then |s| >= 2 && (s[1] == '0' || s[1] == '1') && WellEscaped(s[2..]) else WellEscaped(s[1..]))
  }

  /** The same escaping, one character at a time. */
  function EscapeEach(s: string): string
    decreases |s|
  {
    if s == [] then []
    else (if s[0] == '~' then "~0" else if s[0] == '/' then "~1" else [s[0]]) + EscapeEach(s[1..])
  }

  function UnescapeEach(s: string): string
    requires WellEscaped(s)
    decreases |s|
  {
    if s == [] then []
    else if s[0] == '~' then [if s[1] == '0' then '~' else '/'] + UnescapeEach(s[2..])
    else [s[0]] + UnescapeEach(s[1..])
  }

  lemma {:induction false} EscapeIsEach(s: string)
    ensures Escape(s) == EscapeEach(s)
    decreases |s|
  {
    if s != [] {
      EscapeIsEach(s[1..]);
      var rest := Replace(s[1..], "~", "~0");
      assert "~" <= s <==> s[0] == '~';
      if s[0] == '~' {
        var m := Replace(s, "~", "~0");
        assert m == "~0" + rest && m[1..] == "0" + rest && m[1..][1..] == rest;
        assert Replace(m, "/", "~1") == ['~'] + (['0'] + Replace(rest, "/", "~1"));
      } else {
        var m := Replace(s, "~", "~0");
        assert m == [s[0]] + rest && m[1..] == rest;
        assert m[0] == s[0] && "/"[0] == '/';
        assert "/" <= m <==> m[0] == '/';
      }
    }
  }

  lemma {:induction false} UnescapeIsEach(s: string)
    requires WellEscaped(s)
    ensures Unescape(s) == UnescapeEach(s)
    decreases |s|
  {
    if s != [] {
      if s[0] == '~' {
        UnescapeIsEach(s[2..]);
        var rest := Replace(s[2..], "~1", "/");
        var m := Replace(s, "~1", "/");
        if s[1] == '1' {
          assert "~1" <= s && m == "/" + rest && m[1..] == rest;
          assert m[0] != "~0"[0];
        } else {
          assert !("~1" <= s) && s[1..][1..] == s[2..];
          assert m == ['~'] + (['0'] + rest) && m[2..] == rest && "~0" <= m;
        }
      } else {
        UnescapeIsEach(s[1..]);
        var rest := Replace(s[1..], "~1", "/");
        var m := Replace(s, "~1", "/");
        assert "~1"[0] != s[0];
        assert m == [s[0]] + rest && m[1..] == rest;
        assert m[0] != "~0"[0];
      }
    }
  }

  /** Escaping can be undone, and leaves no bare slash and no bare tilde. */
  lemma {:induction false} EscapeRoundTrip(s: string)
    ensures WellEscaped(Escape(s)) && '/' !in Escape(s) && Unescape(Escape(s)) == s
    decreases |s|
  {
    EscapeIsEach(s);
    EachRoundTrip(s);
    UnescapeIsEach(EscapeEach(s));
  }

  lemma {:induction false} EachRoundTrip(s: string)
    ensures WellEscaped(EscapeEach(s)) && '/' !in EscapeEach(s) && UnescapeEach(EscapeEach(s)) == s
    decreases |s|
  {
    if s != [] {
      EachRoundTrip(s[1..]);
      var e := EscapeEach(s);
      if s[0] == '~' || s[0] == '/' {
        assert e[2..] == EscapeEach(s[1..]);
      } else {
        assert e[1..] == EscapeEach(s[1..]);
      }
    }
  }

  /** A well escaped token without slashes is the escaped form of what it stands for. */
  lemma {:induction false} UnescapeRoundTrip(s: string)
    requires WellEscaped(s) && '/' !in s
    ensures Escape(Unescape(s)) == s
    decreases |s|
  {
    UnescapeIsEach(s);
    EscapeIsEach(UnescapeEach(s));
    EachUnescaped(s);
  }

  lemma {:induction false} EachUnescaped(s: string)
    requires WellEscaped(s) && '/' !in s
    ensures EscapeEach(UnescapeEach(s)) == s
    decreases |s|
  {
    if s != [] {
      if s[0] == '~' {
        EachUnescaped(s[2..]);
        assert UnescapeEach(s)[1..] == UnescapeEach(s[2..]);
        assert s == [s[0], s[1]] + s[2..];
      } else {
        EachUnescaped(s[1..]);
        assert UnescapeEach(s)[1..] == UnescapeEach(s[1..]);
        assert s == [s[0]] + s[1..];
      }
    }
  }

  lemma {:induction false} NothingToReplace(s: string, f: string, t: string)
    requires |f| == 1 && forall i :: 0 <= i < |s| ==> s[i] != f[0]
    ensures Replace(s, f, t) == s
    decreases |s|
  {
    if s != "" {
      NothingToReplace(s[1..], f, t);
      assert s == [s[0]] + s[1..];
    }
  }

  lemma DigitsPlain(i: nat)
    ensures Escape(Digits(i)) == Digits(i)
  {
    NothingToReplace(Digits(i), "~", "~0");
    NothingToReplace(Digits(i), "/", "~1");
  }
}
