/** Where the program as written parts from what it is meant to keep, each on every state it concerns. */
module EngineDepartures {
  import opened Decimal
  import opened EngineState
  import opened EngineInvariant
  import opened EngineRuns
  import opened PageNames

  /**
   The reader branch of release_page looks in the writer counts, and is never right: a reader that leaves a
   page without a writer is not counted down, so its count outlives it; with a writer on the page, it is the
   writer that is counted down to zero, and what follows is undefined.
   */
  lemma ReaderNotCountedDown(s: Engine, i: nat, k: Key)
    requires Core(Repaired, s) && i < |s.slots| && Uses(s.slots[i], k) && !s.slots[i].isWriter
    ensures var free := s.slots[i := s.slots[i].(status := RAW)];
      var (written, meant) := (ReleasePage(AsCoded, s, k, false), ReleasePage(Repaired, s, k, false));
      && CountsOk(free, meant.writers, meant.readers) && meant.undefined == s.undefined
      && if k in s.writers then written.undefined else !CountsOk(free, written.writers, written.readers)
  {
    hide Count, PathOf, GenPageFullPath;
    var m := s.slots[i].(status := RAW);
    ReleaseCounts(Repaired, s, s.slots, i, k, m);
    CountedOnce(s.slots, i, k, false);
    CountPut(s.slots, i, m, k, false);
  }

  /** A refused writer that asks again, and is served. */
  function AskAgain(s: Engine, i: nat, page: int): Engine
    requires i < |s.slots|
  {
    Serve(AsCoded, Put(s, i, s.slots[i].(page := page, status := REQUESTING)), i)
  }

  /** A refused writer. */
  predicate Refused(m: Slot) {
    m.isWriter && Refusal(m.status) && m.last > 0
  }

  /**
   last_page_num is recorded for a refused page too, and the next request of a refused writer gives that page
   up. The counts stay right exactly when it asks for the same page again or nobody writes that page.
   */
  lemma RefusedReleasesOther(s: Engine, i: nat, page: int)
    requires CountsOk(s.slots, s.writers, s.readers) && i < |s.slots| && page > 0 && Refused(s.slots[i])
    ensures var m, t := s.slots[i], AskAgain(s, i, page);
      CountsOk(t.slots, t.writers, t.readers) <==> page == m.last || Key(m.folder, m.name, m.last) !in s.writers
  {
    hide CountsOk, AskAgain;
    if page != s.slots[i].last && Key(s.slots[i].folder, s.slots[i].name, s.slots[i].last) in s.writers {
      OthersPageLost(s, i, page);
    } else {
      NothingLost(s, i, page);
    }
  }

  /** Then the request is answered as if nothing had been held. */
  lemma NothingLost(s: Engine, i: nat, page: int)
    requires CountsOk(s.slots, s.writers, s.readers) && i < |s.slots| && page > 0 && Refused(s.slots[i])
    requires page == s.slots[i].last || Key(s.slots[i].folder, s.slots[i].name, s.slots[i].last) !in s.writers
    ensures var t := AskAgain(s, i, page); CountsOk(t.slots, t.writers, t.readers)
  {
    hide CountsOk, Count, InitiatePage;
    var m := s.slots[i].(page := page, status := REQUESTING);
    var asked := Put(s, i, m);
    var u := s.(slots := s.slots[i := m.(last := 0)]);
    CountsSame(s.slots, i, m.(last := 0), s.writers, s.readers);
    InitiateFrame(asked, u, Wanted(m), true);
    var n := m.(status := InitiatePage(u, Wanted(m), true).1, last := page);
    InitiateCounts(u, u.slots, i, n);
    assert u.slots[i := n] == asked.slots[i := n];
  }

  /** The writer that has the page is no longer counted. */
  lemma OthersPageLost(s: Engine, i: nat, page: int)
    requires CountsOk(s.slots, s.writers, s.readers) && i < |s.slots| && Refused(s.slots[i])
    requires page != s.slots[i].last && Key(s.slots[i].folder, s.slots[i].name, s.slots[i].last) in s.writers
    ensures var t := AskAgain(s, i, page); !CountsOk(t.slots, t.writers, t.readers)
  {
    hide Count, PathOf, GenPageFullPath;
    var k, t := Key(s.slots[i].folder, s.slots[i].name, s.slots[i].last), AskAgain(s, i, page);
    var asked := Put(s, i, s.slots[i].(page := page, status := REQUESTING));
    ServeFrame(AsCoded, asked, i);
    CountPut(s.slots, i, t.slots[i], k, true);
    assert t.slots == s.slots[i := t.slots[i]];
    assert k !in t.writers;
  }

  // ---------------------------------------------------------------- a run that ends with two writers

  /** A run of the program as written by clients that keep the slot protocol but not the promises of Legal. */
  ghost predicate Reaches(b: Build, s: Engine, es: seq<Event>, t: Engine)
    decreases |es|
  {
    if es == [] then t == s else Enabled(s, es[0]) && Reaches(b, Step(b, s, es[0]), es[1..], t)
  }

  lemma {:induction false} ReachesConcat(b: Build, s: Engine, d: seq<Event>, t: Engine, e: seq<Event>, u: Engine)
    requires Reaches(b, s, d, t) && Reaches(b, t, e, u)
    ensures Reaches(b, s, d + e, u)
    decreases |d|
  {
    hide Step, Enabled;
    if d == [] {
      assert d + e == e;
    } else {
      assert (d + e)[0] == d[0] && (d + e)[1..] == d[1..] + e;
      ReachesConcat(b, Step(b, s, d[0]), d[1..], t, e, u);
    }
  }

  lemma ReachesOne(b: Build, s: Engine, e: Event)
    requires Enabled(s, e)
    ensures Reaches(b, s, [e], Step(b, s, e))
  {
    hide Step, Enabled;
    assert [e][1..] == [];
  }

  lemma ReachesTwo(b: Build, s: Engine, e: Event, f: Event)
    requires Enabled(s, e) && Enabled(Step(b, s, e), f)
    ensures Reaches(b, s, [e, f], Step(b, Step(b, s, e), f))
  {
    hide Step, Enabled;
    ReachesOne(b, s, e);
    ReachesOne(b, Step(b, s, e), f);
    ReachesConcat(b, s, [e], Step(b, s, e), [f], Step(b, Step(b, s, e), f));
    assert [e] + [f] == [e, f];
  }

  const FOLDER := "journal"
  const JOURNAL := "orders"

  /** The page with number `page` of one journal. */
  function PageOf(page: int): Key {
    Key(FOLDER, JOURNAL, page)
  }

  /** A slot of that journal's writer. */
  function WriterSlot(status: int, page: int, last: int): Slot {
    Slot(status, FOLDER, JOURNAL, true, page, last)
  }

  /** Two slots are in use, and it is the turn of slot `scan`. */
  ghost predicate Two(s: Engine, scan: nat) {
    && |s.slots| == TABLE_SLOTS && s.maxIdx == 1 && s.scan == scan <= 1
    && (forall k :: k in s.writers ==> s.writers[k] == 1) && !s.undefined
  }

  lemma {:induction false} LegalReaches(b: Build, s: Engine, es: seq<Event>)
    requires LegalRun(b, s, es)
    ensures Reaches(b, s, es, Run(b, s, es))
    decreases |es|
  {
    hide Step;
    if es != [] {
      LegalReaches(b, Step(b, s, es[0]), es[1..]);
    }
  }

  /** A process registers, gets slot `i` and fills it in. */
  function Joining(name: string, pid: int, i: nat): seq<Event> {
    [Register(name, pid, true), NewJournal(name)] + FillIn(i, FOLDER, JOURNAL, true)
  }

  lemma Registers(s: Engine, name: string, pid: int, i: nat) returns (t: Engine)
    requires |s.slots| == TABLE_SLOTS && name !in s.clients && i < MAX_USERS && FirstRaw(s.slots, 0) == i && s.maxIdx <= i
    ensures Reaches(AsCoded, s, [Register(name, pid, true), NewJournal(name)], t)
    ensures t == s.(clients := t.clients, pids := t.pids, maxIdx := i, slots := s.slots[i := s.slots[i].(status := OCCUPIED, last := 0)])
    ensures t.clients.Keys == s.clients.Keys + {name}
  {
    hide FirstRaw;
    var s1 := Step(AsCoded, s, Register(name, pid, true));
    t := Step(AsCoded, s1, NewJournal(name));
    hide Step;
    ReachesTwo(AsCoded, s, Register(name, pid, true), NewJournal(name));
  }

  lemma Joins(s: Engine, name: string, pid: int, i: nat) returns (t: Engine)
    requires |s.slots| == TABLE_SLOTS && name !in s.clients && i < MAX_USERS && FirstRaw(s.slots, 0) == i
    requires s.slots[i] == FRESH_SLOT && s.maxIdx <= i
    ensures Reaches(AsCoded, s, Joining(name, pid, i), t)
    ensures t == s.(clients := t.clients, pids := t.pids, maxIdx := i, slots := s.slots[i := WriterSlot(HOLDING, 0, 0)])
    ensures t.clients.Keys == s.clients.Keys + {name}
  {
    hide FirstRaw, Reaches, LegalRun, Run, FillIn;
    var s2 := Registers(s, name, pid, i);
    FillInRun(AsCoded, s2, i, FOLDER, JOURNAL, true);
    LegalReaches(AsCoded, s2, FillIn(i, FOLDER, JOURNAL, true));
    t := Run(AsCoded, s2, FillIn(i, FOLDER, JOURNAL, true));
    ReachesConcat(AsCoded, s, [Register(name, pid, true), NewJournal(name)], s2, FillIn(i, FOLDER, JOURNAL, true), t);
  }

  /** Slot `i`, when it is idle and its turn is next, asks for a page and is served. */
  function Asking(i: nat, page: int): seq<Event> {
    Ask(i, page) + [ScanRound]
  }

  /** What slot `i` gives up as it asks for another page. */
  ghost function Kept(s: Engine, m: Slot): map<Key, int> {
    if m.last > 0 then s.writers - {Key(m.folder, m.name, m.last)} else s.writers
  }

  lemma ReleasesWriter(s: Engine, k: Key)
    requires k in s.writers ==> s.writers[k] == 1
    ensures var t := ReleasePage(AsCoded, s, k, true);
      t.writers == s.writers - {k} && t == s.(writers := t.writers, addrs := t.addrs)
  {
    hide PathOf, GenPageFullPath;
    if k !in s.writers {
      assert s.writers - {k} == s.writers;
    }
  }

  lemma InitiatesWriter(s: Engine, k: Key)
    ensures var (u, status) := InitiatePage(s, k, true);
      && u.writers == (if k in s.writers then s.writers else s.writers[k := 1])
      && status == (if k in s.writers then MORE_THAN_ONE_WRITE else ALLOCATED)
      && u == s.(writers := u.writers, addrs := u.addrs, files := u.files)
  {
    hide PathOf;
  }

  lemma ServesWriter(s: Engine, i: nat)
    requires i < |s.slots| && s.slots[i].isWriter && s.slots[i].last != s.slots[i].page && forall k :: k in s.writers ==> s.writers[k] == 1
    ensures var m, kept, k, t := s.slots[i], Kept(s, s.slots[i]), Wanted(s.slots[i]), Serve(AsCoded, s, i);
      && t.writers == (if k in kept then kept else kept[k := 1])
      && t.slots == s.slots[i := m.(last := m.page, status := if k in kept then MORE_THAN_ONE_WRITE else ALLOCATED)]
      && t == s.(slots := t.slots, writers := t.writers, addrs := t.addrs, files := t.files)
  {
    hide ReleasePage, InitiatePage;
    var m := s.slots[i];
    var k := Key(m.folder, m.name, m.last);
    ReleasesWriter(s, k);
    InitiatesWriter(if m.last > 0 then ReleasePage(AsCoded, s, k, true) else s, Wanted(m));
  }

  lemma Requests(s: Engine, i: nat, page: int) returns (t: Engine)
    requires |s.slots| == TABLE_SLOTS && i < |s.slots| && Idle(s.slots[i]) && s.slots[i].isWriter && page > 0
    ensures Reaches(AsCoded, s, Ask(i, page), t) && t == Put(s, i, s.slots[i].(status := REQUESTING, page := page))
  {
    var s1 := Step(AsCoded, s, SetPage(i, page));
    t := Step(AsCoded, s1, SetRequesting(i));
    assert s.slots[i := s.slots[i].(page := page)][i := s1.slots[i].(status := REQUESTING)] == t.slots;
    hide Step;
    ReachesTwo(AsCoded, s, SetPage(i, page), SetRequesting(i));
  }

  lemma Asks(s: Engine, i: nat, page: int) returns (t: Engine)
    requires Two(s, i) && Idle(s.slots[i]) && s.slots[i].isWriter && page > 0 && s.slots[i].last != page
    ensures Reaches(AsCoded, s, Asking(i, page), t) && Two(t, 1 - i)
    ensures var m, kept := s.slots[i], Kept(s, s.slots[i]);
      var k := Key(m.folder, m.name, page);
      && t.writers == (if k in kept then kept else kept[k := 1])
      && t.slots == s.slots[i := m.(page := page, last := page, status := if k in kept then MORE_THAN_ONE_WRITE else ALLOCATED)]
  {
    hide Reaches, Ask, Serve, Kept;
    var s1 := Requests(s, i, page);
    ServesWriter(s1, i);
    t := Step(AsCoded, s1, ScanRound);
    ReachesOne(AsCoded, s1, ScanRound);
    ReachesConcat(AsCoded, s, Ask(i, page), s1, [ScanRound], t);
    KeptSame(s, s1, i);
  }

  lemma KeptSame(s: Engine, t: Engine, i: nat)
    requires i < |s.slots| == |t.slots| && t.writers == s.writers && t.slots[i] == s.slots[i].(page := t.slots[i].page, status := t.slots[i].status)
    ensures Kept(t, t.slots[i]) == Kept(s, s.slots[i]) && forall k :: k in Kept(s, s.slots[i]) ==> k in s.writers && Kept(s, s.slots[i])[k] == s.writers[k]
  {
  }

  /** A round in which nobody asks. */
  lemma Passes(s: Engine) returns (t: Engine)
    requires Two(s, 0) && s.slots[0].status != REQUESTING
    ensures Reaches(AsCoded, s, [ScanRound], t) && t == s.(scan := 1) && Two(t, 1)
  {
    t := Step(AsCoded, s, ScanRound);
    ReachesOne(AsCoded, s, ScanRound);
  }

  /**
   Two writers, each with its own process and slot. The first gets page 1; the second asks for page 1 and is
   refused, asks for page 2, and asks for page 1 again.
   */
  function TwoWriters(): seq<Event> {
    Joining("first", 1, 0) + Joining("second", 2, 1)
    + Asking(0, 1) + Asking(1, 1) + [ScanRound] + Asking(1, 2) + [ScanRound] + Asking(1, 1)
  }

  /** That run starts from nothing and ends with both slots writing page 1. */
  lemma TwoWritersReached(s: Engine) returns (t: Engine)
    requires Initial(s)
    ensures Reaches(AsCoded, s, TwoWriters(), t) && |t.slots| == TABLE_SLOTS && !t.undefined
    ensures Uses(t.slots[0], PageOf(1)) && Uses(t.slots[1], PageOf(1)) && t.slots[0].isWriter && t.slots[1].isWriter
  {
    var a := BothJoin(s);
    hide Reaches, Initial, Joining, Asking, FirstRaw;
    var es := Joining("first", 1, 0) + Joining("second", 2, 1);
    var b := Asks(a, 0, 1);
    ReachesConcat(AsCoded, s, es, a, Asking(0, 1), b);
    assert b.slots[0] == WriterSlot(ALLOCATED, 1, 1) && b.slots[1] == WriterSlot(HOLDING, 0, 0) && PageOf(1) in b.writers;
    var c := Asks(b, 1, 1);
    ReachesConcat(AsCoded, s, es + Asking(0, 1), b, Asking(1, 1), c);
    assert c.slots[1] == WriterSlot(MORE_THAN_ONE_WRITE, 1, 1);
    var d := Passes(c);
    ReachesConcat(AsCoded, s, es + Asking(0, 1) + Asking(1, 1), c, [ScanRound], d);
    var e := Asks(d, 1, 2);
    ReachesConcat(AsCoded, s, es + Asking(0, 1) + Asking(1, 1) + [ScanRound], d, Asking(1, 2), e);
    assert e.slots[1] == WriterSlot(ALLOCATED, 2, 2) && PageOf(1) !in e.writers;
    var f := Passes(e);
    ReachesConcat(AsCoded, s, es + Asking(0, 1) + Asking(1, 1) + [ScanRound] + Asking(1, 2), e, [ScanRound], f);
    t := Asks(f, 1, 1);
    ReachesConcat(AsCoded, s, es + Asking(0, 1) + Asking(1, 1) + [ScanRound] + Asking(1, 2) + [ScanRound], f, Asking(1, 1), t);
  }

  lemma BothJoin(s: Engine) returns (t: Engine)
    requires Initial(s)
    ensures Reaches(AsCoded, s, Joining("first", 1, 0) + Joining("second", 2, 1), t)
    ensures |t.slots| == TABLE_SLOTS && t.slots[0] == t.slots[1] == WriterSlot(HOLDING, 0, 0)
    ensures t.writers == map[] && Two(t, 0)
  {
    hide Reaches, Joining;
    var a := Joins(s, "first", 1, 0);
    t := Joins(a, "second", 2, 1);
    ReachesConcat(AsCoded, s, Joining("first", 1, 0), a, Joining("second", 2, 1), t);
  }

  /** A writer that asks again for the page it holds is refused as written, and given it again as meant. */
  lemma HeldPageRefused(s: Engine, i: nat)
    requires i < |s.slots| && CountsOk(s.slots, s.writers, s.readers)
    requires var m := s.slots[i]; m.status == REQUESTING && m.isWriter && m.last == m.page > 0
    ensures Serve(AsCoded, s, i).slots[i].status == MORE_THAN_ONE_WRITE
    ensures Serve(Repaired, s, i).slots[i].status == ALLOCATED
  {
    hide Count, PathOf;
    CountedOnce(s.slots, i, Wanted(s.slots[i]), true);
  }

  /**
   A registration gets a slot that was free exactly when one of the first MAX_USERS slots is. When none is,
   the program as written gives the same index to everybody; the comparison meant refuses.
   */
  lemma FullTableShared(s: Engine, a: string, c: string)
    requires |s.slots| == TABLE_SLOTS && a in s.clients && c in s.clients
    ensures var (t, idx) := RegJournal(AsCoded, s, a);
      var free := exists i :: 0 <= i < MAX_USERS && s.slots[i].status == RAW;
      if free then 0 <= idx < MAX_USERS && s.slots[idx].status == RAW
      else idx == RegJournal(AsCoded, t, c).1 == MAX_USERS && RegJournal(Repaired, s, a) == (s, -1)
  {
    hide FirstRaw;
    var first := FirstRaw(s.slots, 0);
    if first == MAX_USERS {
      var t := RegJournal(AsCoded, s, a).0;
      assert forall i :: 0 <= i < MAX_USERS ==> t.slots[i] == s.slots[i];
    } else {
      assert s.slots[first].status == RAW;
    }
  }

  // ---------------------------------------------------------------- the path built the wrong way round

  const BETWEEN := "/" + PREFIX + "."

  /** `folder` is `name`, or several of them with "/optionHedge." in between. */
  predicate Repeats(folder: string, name: string)
    decreases |folder|
  {
    folder == name ||
    (|name| + |BETWEEN| <= |folder| && folder[..|name| + |BETWEEN|] == name + BETWEEN && Repeats(folder[|name| + |BETWEEN|..], name))
  }

  /** Exchanging the two gives the same text only for such a folder. */
  lemma {:induction false} Exchanged(folder: string, name: string)
    requires '/' !in name
    ensures name + BETWEEN + folder == folder + BETWEEN + name <==> Repeats(folder, name)
    decreases |folder|
  {
    var n, w := |name|, name + BETWEEN;
    var l, r := w + folder, folder + BETWEEN + name;
    if |folder| < n {
      assert r[|folder|] == '/' && l[|folder|] == name[|folder|];
    } else if |folder| < |w| {
      assert r[|folder|] == '/' && l[|folder|] == BETWEEN[|folder| - n];
      assert r[..|folder|] == folder && l[..n] == name;
    } else {
      var rest := folder[|w|..];
      assert folder == folder[..|w|] + rest;
      Exchanged(rest, name);
      if folder[..|w|] == w {
        assert l == w + (w + rest) && r == w + (rest + BETWEEN + name);
        assert l[|w|..] == w + rest && r[|w|..] == rest + BETWEEN + name;
      } else {
        assert l[..|w|] == w && r[..|w|] == folder[..|w|];
      }
    }
  }

  /** What follows the folder and the name in a path. */
  function Ending(page: int): string {
    "." + Printed(page) + "." + SUFFIX
  }

  lemma PathParts(folder: string, name: string, page: int)
    ensures GenPageFullPath(folder, name, page) == folder + BETWEEN + name + Ending(page)
  {
    hide Printed;
  }

  lemma ExchangedPath(k: Key)
    requires '/' !in k.name
    ensures GenPageFullPath(k.name, k.folder, k.page) == PathOf(k) <==> Repeats(k.folder, k.name)
  {
    hide Repeats, Ending, GenPageFullPath;
    PathParts(k.name, k.folder, k.page);
    PathParts(k.folder, k.name, k.page);
    Exchanged(k.folder, k.name);
    var a, b, e := k.name + BETWEEN + k.folder, k.folder + BETWEEN + k.name, Ending(k.page);
    assert (a + e)[..|a|] == a && (b + e)[..|b|] == b;
  }

  /**
   The path is built with folder and name exchanged: when the last user leaves, the page stays mapped, unless
   the exchanged path is the same. It is never the same for a folder that starts at the root.
   */
  lemma PageStaysMapped(s: Engine, k: Key)
    requires CountsOk(s.slots, s.writers, s.readers) && k in s.writers && k !in s.readers && PathOf(k) in s.addrs
    ensures var (written, meant) := (ReleasePage(AsCoded, s, k, true), ReleasePage(Repaired, s, k, true));
      && k !in written.writers && PathOf(k) !in meant.addrs
      && (PathOf(k) in written.addrs <==> GenPageFullPath(k.name, k.folder, k.page) != PathOf(k))
      && ('/' !in k.name ==> (PathOf(k) in written.addrs <==> !Repeats(k.folder, k.name)))
      && ('/' !in k.name && k.name != [] && k.folder != [] && k.folder[0] == '/' ==> PathOf(k) in written.addrs)
  {
    hide Count, GenPageFullPath;
    if '/' !in k.name { ExchangedPath(k); }
  }

  // ---------------------------------------------------------------- the branch that is never taken

  /** Only paths of pages are mapped. */
  ghost predicate PathsMapped(s: Engine) {
    forall p :: p in s.addrs ==> exists k: Key :: p == PathOf(k)
  }

  lemma ReleaseMaps(b: Build, s: Engine, k: Key, w: bool)
    ensures ReleasePage(b, s, k, w).addrs <= s.addrs
  {
  }

  lemma {:induction false} ExitMaps(b: Build, s: Engine, idxs: seq<nat>)
    requires InTable(s, idxs)
    ensures ExitSlots(b, s, idxs).addrs <= s.addrs
    decreases |idxs|
  {
    hide ReleasePage;
    if idxs != [] {
      var m := s.slots[idxs[0]];
      ReleaseMaps(b, s, Wanted(m), m.isWriter);
      ReleaseFrame(b, s, Wanted(m), m.isWriter);
      var t := if m.status == ALLOCATED then ReleasePage(b, s, Wanted(m), m.isWriter) else s;
      assert forall k :: 0 <= k < |idxs[1..]| ==> idxs[1..][k] == idxs[k + 1];
      ExitMaps(b, t.(slots := t.slots[idxs[0] := m.(status := RAW)]), idxs[1..]);
    }
  }

  lemma ServeMaps(b: Build, s: Engine, i: nat)
    requires i < |s.slots|
    ensures Serve(b, s, i).addrs <= s.addrs + {PathOf(Wanted(s.slots[i]))}
  {
    hide ReleasePage;
    var m := s.slots[i];
    ReleaseMaps(b, s, Key(m.folder, m.name, m.last), m.isWriter);
  }

  lemma StepMaps(b: Build, s: Engine, e: Event)
    requires Enabled(s, e) && PathsMapped(s)
    ensures PathsMapped(Step(b, s, e))
  {
    hide Serve, ExitSlots, FirstRaw, PathOf;
    match e
    case ScanRound => ServeMaps(b, s, s.scan);
    case Exit(name) =>
      if name in s.clients {
        assert forall k :: 0 <= k < |s.clients[name].indices| ==> CanLeave(Repaired, s, s.clients[name].indices[k]);
        ExitMaps(b, s, s.clients[name].indices);
      }
    case _ =>
  }

  lemma {:induction false} ReachedMaps(b: Build, s: Engine, es: seq<Event>, t: Engine)
    requires Reaches(b, s, es, t) && PathsMapped(s)
    ensures PathsMapped(t)
    decreases |es|
  {
    hide PathsMapped, Step, Enabled;
    if es != [] {
      StepMaps(b, s, es[0]);
      ReachedMaps(b, Step(b, s, es[0]), es[1..], t);
    }
  }

  /** In no run of either build, whatever its clients promise, does the engine map a page under the name
      TEMP_PAGE, so the rename branch is never taken. */
  lemma TempPageNeverMapped(b: Build, s: Engine, es: seq<Event>, t: Engine, folder: string)
    requires Initial(s) && Reaches(b, s, es, t)
    ensures folder + "TEMP_PAGE" !in t.addrs
  {
    hide Reaches;
    ReachedMaps(b, s, es, t);
    var temp := folder + "TEMP_PAGE";
    forall k: Key ensures PathOf(k) != temp {
      var path := PathOf(k);
      assert temp[|temp| - 1] == "TEMP_PAGE"[8] && path[|path| - 1] == SUFFIX[6];
    }
  }
}
