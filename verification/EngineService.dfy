/** Requests are served: within one round of the table, as they were written, and with the right answer. */
module EngineService {
  import opened EngineState
  import opened EngineInvariant
  import opened EngineRuns

  /** Rounds of the scan loop before slot `i` is looked at, if the table does not grow. */
  function Distance(s: Engine, i: nat): nat
    requires i <= s.maxIdx && s.scan <= s.maxIdx
  {
    if s.scan <= i then i - s.scan else s.maxIdx + 1 - s.scan + i
  }

  predicate Serves(s: Engine, e: Event, i: nat) {
    e == ScanRound && s.scan == i
  }

  function Rounds(es: seq<Event>): nat
    decreases |es|
  {
    if es == [] then 0 else (if es[0] == ScanRound then 1 else 0) + Rounds(es[1..])
  }

  lemma ScanMoves(s: Engine, i: nat)
    requires s.scan <= s.maxIdx && i <= s.maxIdx && s.scan != i
    ensures var next := (s.scan + 1) % (s.maxIdx + 1);
      next <= s.maxIdx && Distance(s, i) == 1 + Distance(s.(scan := next), i)
  {
    if s.scan == s.maxIdx {
      assert (s.scan + 1) % (s.maxIdx + 1) == 0;
    } else {
      assert (s.scan + 1) % (s.maxIdx + 1) == s.scan + 1;
    }
  }

  /** The owner of a requesting slot waits, so only its turn in the scan changes it. */
  lemma WaitingIsPrivate(b: Build, s: Engine, e: Event, i: nat)
    requires Inv(b, s) && Legal(b, s, e) && i < |s.slots| && s.slots[i].status == REQUESTING && !Serves(s, e, i)
    ensures !Concerns(s, e, i)
  {
    hide CountsOk, AddrsOk, OwnersOk, PidsOk, SlotsOk, PositivePages;
    if e.Exit? && e.name in s.clients {
      var idxs := s.clients[e.name].indices;
      forall k | 0 <= k < |idxs| ensures idxs[k] != i { assert CanLeave(b, s, idxs[k]); }
    }
  }

  /** How a step moves the scan and the end of the scanned part. */
  lemma StepTable(b: Build, s: Engine, e: Event)
    requires Inv(b, s) && Legal(b, s, e)
    ensures var t := Step(b, s, e);
      if e == ScanRound then t.scan == (s.scan + 1) % (s.maxIdx + 1) && t.maxIdx == s.maxIdx
      else t.scan == s.scan && t.maxIdx >= s.maxIdx
  {
    hide CountsOk, AddrsOk, OwnersOk, PidsOk, PositivePages, Serve, ExitSlots, FirstRaw;
    match e
    case ScanRound => ServeFrame(b, s, s.scan);
    case Exit(name) =>
      if name in s.clients { ExitSlotsKeeps(b, s, s.clients[name].indices); }
    case _ =>
  }

  /** Each step that is not its turn leaves the request as it is, and brings its turn nearer or lets the table grow. */
  lemma StepWaits(b: Build, s: Engine, e: Event, i: nat)
    requires Inv(b, s) && Legal(b, s, e) && i < |s.slots| && s.slots[i].status == REQUESTING && !Serves(s, e, i)
    ensures var t := Step(b, s, e);
      && i <= s.maxIdx <= t.maxIdx && s.scan <= s.maxIdx && t.scan <= t.maxIdx
      && |t.slots| == |s.slots| && t.slots[i] == s.slots[i]
      && (if e == ScanRound then 1 else 0) + Distance(t, i) <= Distance(s, i) + (t.maxIdx - s.maxIdx)
  {
    hide CountsOk, AddrsOk, OwnersOk, PidsOk, SlotsOk, PositivePages, Step, Legal, Concerns;
    WaitingIsPrivate(b, s, e, i);
    SlotPrivate(b, s, e, i);
    StepKeeps(b, s, e);
    StepTable(b, s, e);
    if e == ScanRound { ScanMoves(s, i); }
  }

  /** The first state in which it is the turn of slot `i`, as a number of steps; |es| if there is none. */
  ghost function Turn(b: Build, s: Engine, es: seq<Event>, i: nat): (n: nat)
    requires LegalRun(b, s, es)
    ensures n <= |es|
    decreases |es|
  {
    if es == [] || Serves(s, es[0], i) then 0 else 1 + Turn(b, Step(b, s, es[0]), es[1..], i)
  }

  lemma {:induction false} LegalPrefix(b: Build, s: Engine, es: seq<Event>, n: nat)
    requires LegalRun(b, s, es) && n <= |es|
    ensures LegalRun(b, s, es[..n])
    decreases n
  {
    hide Step, Legal;
    if n > 0 {
      LegalPrefix(b, Step(b, s, es[0]), es[1..], n - 1);
      assert es[..n][1..] == es[1..][..n - 1] && es[..n][0] == es[0];
    }
  }

  lemma {:induction false} TurnWaits(b: Build, s: Engine, es: seq<Event>, i: nat)
    requires Inv(b, s) && LegalRun(b, s, es) && i < |s.slots| && s.slots[i].status == REQUESTING
    ensures var n := Turn(b, s, es, i);
      && LegalRun(b, s, es[..n])
      && var t := Run(b, s, es[..n]);
      && i <= s.maxIdx <= t.maxIdx < MAX_USERS && s.scan <= s.maxIdx && t.scan <= t.maxIdx
      && |t.slots| == |s.slots| && t.slots[i] == s.slots[i]
      && Rounds(es[..n]) + Distance(t, i) <= Distance(s, i) + (t.maxIdx - s.maxIdx)
      && (n < |es| ==> Serves(t, es[n], i))
    decreases |es|
  {
    hide Step, Legal, CountsOk, AddrsOk, OwnersOk, PidsOk, SlotsOk, PositivePages;
    var n := Turn(b, s, es, i);
    LegalPrefix(b, s, es, n);
    if n > 0 {
      var next := Step(b, s, es[0]);
      StepWaits(b, s, es[0], i);
      StepKeeps(b, s, es[0]);
      TurnWaits(b, next, es[1..], i);
      assert es[..n][1..] == es[1..][..n - 1] && es[..n][0] == es[0];
      assert n < |es| ==> es[1..][n - 1] == es[n];
    } else {
      assert es[..0] == [];
    }
  }

  // ---------------------------------------------------------------- the answer

  /** Another slot uses the page, for writing if `writing`. */
  ghost predicate UsedElsewhere(s: Engine, i: nat, k: Key, writing: bool) {
    exists j :: 0 <= j < |s.slots| && j != i && Uses(s.slots[j], k) && (writing ==> s.slots[j].isWriter)
  }

  /** Giving up the old page first: the state the new page is taken in. */
  ghost function Freed(b: Build, s: Engine, i: nat): Engine
    requires i < |s.slots|
  {
    var m := s.slots[i];
    var t := if m.last > 0 && m.last != m.page then ReleasePage(b, s, Key(m.folder, m.name, m.last), m.isWriter) else s;
    t.(slots := t.slots[i := m.(last := 0)])
  }

  lemma FreedCore(b: Build, s: Engine, i: nat)
    requires Core(b, s) && i < |s.slots| && s.slots[i].status == REQUESTING && Serviceable(b, s.slots[i])
    requires b.AsCoded? || s.slots[i].last == 0 || s.slots[i].last != s.slots[i].page
    ensures Core(b, Freed(b, s, i)) && Freed(b, s, i).slots == s.slots[i := s.slots[i].(last := 0)] && Freed(b, s, i).files == s.files
  {
    hide CountsOk, AddrsOk, Count, ReleasePage;
    var m := s.slots[i];
    var k := Key(m.folder, m.name, m.last);
    assert SlotOk(b, m);
    ReleaseFrame(b, s, k, m.isWriter);
    if m.last > 0 {
      ReleaseCore(b, s, i, k, m.(last := 0));
    } else {
      assert s.slots[i := m.(last := 0)] == s.slots;
    }
  }

  lemma MappedIfUsed(addrs: set<string>, writers: map<Key, int>, readers: map<Key, int>, k: Key)
    requires AddrsOk(addrs, writers, readers) && '/' !in k.name
    ensures PathOf(k) in addrs <==> k in writers || k in readers
  {
  }

  /** The counts of a page nobody but slot `i` could be using. */
  lemma CountsElsewhere(s: Engine, t: Engine, i: nat, k: Key)
    requires CountsOk(t.slots, t.writers, t.readers)
    requires i < |s.slots| == |t.slots| && t.slots == s.slots[i := t.slots[i]] && Unused(t.slots[i])
    ensures k in t.writers <==> UsedElsewhere(s, i, k, true)
    ensures k in t.writers || k in t.readers <==> UsedElsewhere(s, i, k, false)
  {
    hide Count;
    if k in t.writers { CountUsed(t.slots, k, true); }
    if k in t.readers { CountUsed(t.slots, k, false); }
    forall j | 0 <= j < |s.slots| && j != i && Uses(s.slots[j], k) ensures Count(t.slots, k, s.slots[j].isWriter) > 0 {
      assert t.slots[j] == s.slots[j];
      CountedOnce(t.slots, j, k, t.slots[j].isWriter);
    }
  }

  lemma InitiateAnswer(t: Engine, k: Key, w: bool)
    ensures InitiatePage(t, k, w).1 ==
      if w then (if k in t.writers then MORE_THAN_ONE_WRITE else ALLOCATED)
      else if PathOf(k) in t.addrs || PathOf(k) in t.files then ALLOCATED else NON_EXIST
  {
  }

  /** A request for a page not held is answered in the state without the old page. */
  lemma ServeAnswer(b: Build, s: Engine, i: nat)
    requires i < |s.slots| && (b.AsCoded? || s.slots[i].last <= 0 || s.slots[i].last != s.slots[i].page)
    ensures var m, n := s.slots[i], InitiatePage(Freed(b, s, i), Wanted(s.slots[i]), s.slots[i].isWriter).1;
      |Serve(b, s, i).slots| == |s.slots| &&
      Serve(b, s, i).slots[i] == m.(status := n, last := if b.AsCoded? || n == ALLOCATED then m.page else 0)
  {
    hide ReleasePage, InitiatePage;
    var m := s.slots[i];
    var k := Key(m.folder, m.name, m.last);
    ReleaseFrame(b, s, k, m.isWriter);
    var t := if m.last > 0 && m.last != m.page then ReleasePage(b, s, k, m.isWriter) else s;
    InitiateFrame(t, Freed(b, s, i), Wanted(m), m.isWriter);
  }

  /**
   What a served request gets. A writer gets the page exactly when no other slot writes it; a reader gets
   it exactly when it holds it already, somebody uses it, or its file exists. A slot uses the page it asked
   for exactly when it got it.
   */
  lemma Answer(b: Build, s: Engine, i: nat)
    requires Inv(b, s) && i < |s.slots| && s.slots[i].status == REQUESTING && Serviceable(b, s.slots[i])
    ensures var m, k := s.slots[i], Wanted(s.slots[i]);
      && |Serve(b, s, i).slots| == |s.slots|
      && var n := Serve(b, s, i).slots[i];
      && Wanted(n) == k && (Uses(n, k) <==> n.status == ALLOCATED)
      && var given :=
           if m.isWriter then !UsedElsewhere(s, i, k, true)
           else Uses(m, k) || UsedElsewhere(s, i, k, false) || PathOf(k) in s.files;
      n.status == if given then ALLOCATED else if m.isWriter then MORE_THAN_ONE_WRITE else NON_EXIST
  {
    hide CountsOk, AddrsOk, OwnersOk, PidsOk, Count, PositivePages, ReleasePage, InitiatePage, UsedElsewhere, PathOf, Freed;
    var m := s.slots[i];
    var k := Wanted(m);
    assert SlotOk(b, m);
    if b.Repaired? && m.last > 0 && m.last == m.page {
      HeldAlone(s, i, k);
    } else {
      FreedCore(b, s, i);
      var t := Freed(b, s, i);
      CountsElsewhere(s, t, i, k);
      if b.Repaired? { MappedIfUsed(t.addrs, t.writers, t.readers, k); }
      InitiateAnswer(t, k, m.isWriter);
      ServeKeeps(b, s, i);
      ServeAnswer(b, s, i);
      assert SlotOk(b, Serve(b, s, i).slots[i]);
      hide Serve;
    }
  }

  /** A writer's page is written by nobody else. */
  lemma HeldAlone(s: Engine, i: nat, k: Key)
    requires CountsOk(s.slots, s.writers, s.readers) && i < |s.slots| && Uses(s.slots[i], k)
    ensures s.slots[i].isWriter ==> !UsedElsewhere(s, i, k, true)
  {
    hide Count, Uses;
    if s.slots[i].isWriter {
      CountedOnce(s.slots, i, k, true);
      forall j | 0 <= j < |s.slots| && j != i && Uses(s.slots[j], k) ensures !s.slots[j].isWriter {
        if s.slots[j].isWriter {
          CountedTwice(s.slots, if i < j then i else j, if i < j then j else i, k, true);
          assert false;
        }
      }
    }
  }

  // ---------------------------------------------------------------- a round, and a request from end to end

  /**
   The status a requesting slot is due: a writer gets the page exactly when no other slot writes it, a reader
   exactly when it holds it already, somebody uses it, or its file exists.
   */
  ghost function Due(s: Engine, i: nat): int
    requires i < |s.slots|
  {
    var m, k := s.slots[i], Wanted(s.slots[i]);
    var given :=
      if m.isWriter then !UsedElsewhere(s, i, k, true)
      else Uses(m, k) || UsedElsewhere(s, i, k, false) || PathOf(k) in s.files;
    if given then ALLOCATED else if m.isWriter then MORE_THAN_ONE_WRITE else NON_EXIST
  }

  /** The slot once it has been answered; as written, the page asked for is recorded even when it is refused. */
  ghost function Answered(b: Build, s: Engine, i: nat): Slot
    requires i < |s.slots|
  {
    s.slots[i].(status := Due(s, i), last := if b.AsCoded? || Due(s, i) == ALLOCATED then s.slots[i].page else 0)
  }

  lemma ServeAnswered(b: Build, s: Engine, i: nat)
    requires Inv(b, s) && i < |s.slots| && s.slots[i].status == REQUESTING && Serviceable(b, s.slots[i])
    ensures |Serve(b, s, i).slots| == |s.slots| && Serve(b, s, i).slots[i] == Answered(b, s, i)
  {
    hide CountsOk, AddrsOk, OwnersOk, PidsOk, PositivePages, UsedElsewhere, PathOf, ReleasePage, InitiatePage;
    Answer(b, s, i);
    assert SlotOk(b, s.slots[i]);
    ServeFrame(b, s, i);
    if b.AsCoded? || s.slots[i].last == 0 || s.slots[i].last != s.slots[i].page {
      ServeAnswer(b, s, i);
    }
  }

  lemma InitiateMaps(s: Engine, k: Key, w: bool)
    ensures var (u, status) := InitiatePage(s, k, w);
      && s.files <= u.files <= s.files + {PathOf(k)}
      && (status == ALLOCATED ==> PathOf(k) in u.addrs && (PathOf(k) !in s.addrs ==> PathOf(k) in u.files))
  {
    hide PathOf;
  }

  lemma ReleaseUnmaps(b: Build, s: Engine, k: Key, w: bool)
    ensures ReleasePage(b, s, k, w).addrs <= s.addrs && ReleasePage(b, s, k, w).files == s.files
  {
    hide PathOf;
  }

  /** What serving does to the pages mapped and to the files. */
  lemma ServeMaps(b: Build, s: Engine, i: nat)
    requires i < |s.slots|
    ensures var m, t := s.slots[i], Serve(b, s, i);
      var path := PathOf(Wanted(m));
      && s.files <= t.files <= s.files + {path}
      && (t.slots[i].status == ALLOCATED && (b.AsCoded? || m.last <= 0 || m.last != m.page) ==> path in t.addrs)
      && (path !in s.addrs && t.slots[i].status == ALLOCATED && (b.AsCoded? || m.last <= 0 || m.last != m.page) ==> path in t.files)
  {
    hide PathOf, ReleasePage, InitiatePage;
    var m := s.slots[i];
    var k := Key(m.folder, m.name, m.last);
    ReleaseFrame(b, s, k, m.isWriter);
    ReleaseUnmaps(b, s, k, m.isWriter);
    InitiateMaps(if m.last > 0 && m.last != m.page then ReleasePage(b, s, k, m.isWriter) else s, Wanted(m), m.isWriter);
    InitiateFrame(if m.last > 0 && m.last != m.page then ReleasePage(b, s, k, m.isWriter) else s,
                  if m.last > 0 && m.last != m.page then ReleasePage(b, s, k, m.isWriter) else s, Wanted(m), m.isWriter);
  }

  /**
   One round of the scan loop answers the slot whose turn it is, if it asks, and touches no other slot. A page
   given out is mapped, and exists on disk if it was not mapped before.
   */
  lemma RoundAnswers(b: Build, s: Engine)
    requires Inv(b, s) && s.slots[s.scan].status == REQUESTING
    ensures Legal(b, s, ScanRound)
    ensures var t, i := Step(b, s, ScanRound), s.scan;
      && t.slots == s.slots[i := Answered(b, s, i)]
      && t.scan == (s.scan + 1) % (s.maxIdx + 1) && t.maxIdx == s.maxIdx && t.clients == s.clients && t.pids == s.pids
      && s.files <= t.files <= s.files + {PathOf(Wanted(s.slots[i]))}
      && (Due(s, i) == ALLOCATED ==> PathOf(Wanted(s.slots[i])) in t.addrs)
      && (Due(s, i) == ALLOCATED && PathOf(Wanted(s.slots[i])) !in s.addrs ==> PathOf(Wanted(s.slots[i])) in t.files)
  {
    hide CountsOk, AddrsOk, OwnersOk, PidsOk, PositivePages, Serve, Due, PathOf;
    ScanNeverBlocked(b, s);
    var i := s.scan;
    assert SlotOk(b, s.slots[i]);
    ServeAnswered(b, s, i);
    ServeFrame(b, s, i);
    ServeMaps(b, s, i);
    if b.Repaired? && Due(s, i) == ALLOCATED && s.slots[i].last == s.slots[i].page > 0 {
      HeldMapped(s, i);
      HeldStays(s, i);
    }
  }

  /** A page held is mapped, and asking for it again changes nothing but the slot. */
  lemma HeldMapped(s: Engine, i: nat)
    requires Inv(Repaired, s) && i < |s.slots| && Uses(s.slots[i], Wanted(s.slots[i]))
    ensures PathOf(Wanted(s.slots[i])) in s.addrs
  {
    hide OwnersOk, PidsOk, Count, PathOf;
    assert SlotOk(Repaired, s.slots[i]);
    CountedOnce(s.slots, i, Wanted(s.slots[i]), s.slots[i].isWriter);
  }

  lemma HeldStays(s: Engine, i: nat)
    requires i < |s.slots| && s.slots[i].last == s.slots[i].page > 0
    ensures Serve(Repaired, s, i) == s.(slots := s.slots[i := s.slots[i].(status := ALLOCATED)])
  {
  }

  /** A round whose turn it is of a slot that does not ask only moves on. */
  lemma RoundPasses(b: Build, s: Engine)
    requires Inv(b, s) && s.slots[s.scan].status != REQUESTING
    ensures Legal(b, s, ScanRound) && Step(b, s, ScanRound) == s.(scan := (s.scan + 1) % (s.maxIdx + 1))
  {
    hide CountsOk, AddrsOk, OwnersOk, PidsOk, PositivePages;
    ScanNeverBlocked(b, s);
  }

  lemma {:induction false} RunSnoc(b: Build, s: Engine, es: seq<Event>, n: nat)
    requires LegalRun(b, s, es) && n < |es|
    ensures LegalRun(b, s, es[..n]) && LegalRun(b, s, es[..n + 1])
    ensures var t := Run(b, s, es[..n]); Legal(b, t, es[n]) && Run(b, s, es[..n + 1]) == Step(b, t, es[n])
    decreases n
  {
    hide Step, Legal;
    LegalPrefix(b, s, es, n);
    LegalPrefix(b, s, es, n + 1);
    if n > 0 {
      RunSnoc(b, Step(b, s, es[0]), es[1..], n - 1);
      assert es[..n][1..] == es[1..][..n - 1] && es[..n + 1][1..] == es[1..][..n];
    } else {
      assert es[..1] == [es[0]] && [es[0]][1..] == [];
    }
  }

  /** `t` is the state after the first `n` events. */
  ghost predicate After(b: Build, s: Engine, es: seq<Event>, n: nat, t: Engine) {
    n <= |es| && LegalRun(b, s, es[..n]) && t == Run(b, s, es[..n])
  }

  /**
   A request is answered within MAX_USERS rounds of the scan loop, whatever the other clients do meanwhile: up
   to its turn the slot holds what its client wrote, and right after it the slot has the answer that is due in
   the state its turn finds.
   */
  lemma ServedInTime(b: Build, s: Engine, es: seq<Event>, i: nat) returns (n: nat, t: Engine, u: Engine)
    requires Inv(b, s) && LegalRun(b, s, es) && i < |s.slots| && s.slots[i].status == REQUESTING
    requires Rounds(es) >= MAX_USERS
    ensures n < |es| && Rounds(es[..n]) < MAX_USERS && After(b, s, es, n, t) && After(b, s, es, n + 1, u)
    ensures Serves(t, es[n], i) && i < |t.slots| && t.slots[i] == s.slots[i]
    ensures i < |u.slots| && u.slots[i] == Answered(b, t, i) && (u.slots[i].status == ALLOCATED || Refusal(u.slots[i].status))
  {
    hide Run, LegalRun, Turn, Inv, Answered, Due, PathOf, Step, Legal, Rounds, Refusal;
    TurnWaits(b, s, es, i);
    assert es[..|es|] == es;
    n := Turn(b, s, es, i);
    RunSnoc(b, s, es, n);
    RunKeeps(b, s, es[..n]);
    t, u := Run(b, s, es[..n]), Run(b, s, es[..n + 1]);
    RoundAnswers(b, t);
    AnsweredStatus(b, t, i);
  }

  lemma AnsweredStatus(b: Build, s: Engine, i: nat)
    requires i < |s.slots|
    ensures Answered(b, s, i).status == ALLOCATED || Refusal(Answered(b, s, i).status)
  {
    hide UsedElsewhere, PathOf, Uses;
  }
}
