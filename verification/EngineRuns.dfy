/** The invariant over whole runs of the engine: at most one writer a page, exact counts, disjoint slots. */
module EngineRuns {
  import opened EngineState
  import opened EngineInvariant

  /** The part of the invariant about slots, counts and mapped pages. */
  ghost predicate Core(b: Build, s: Engine) {
    && SlotsOk(b, s.slots)
    && CountsOk(s.slots, s.writers, s.readers)
    && (b.Repaired? ==> AddrsOk(s.addrs, s.writers, s.readers))
  }

  lemma OwnersPut(slots: seq<Slot>, i: nat, m: Slot, clients: map<string, Client>, maxIdx: nat)
    requires i < |slots| && OwnersOk(slots, clients, maxIdx) && m.status != RAW
    ensures OwnersOk(slots[i := m], clients, maxIdx)
  {
  }

  // ---------------------------------------------------------------- stores of a client

  lemma PutKeeps(b: Build, s: Engine, i: nat, m: Slot)
    requires Inv(b, s) && i < |s.slots| && s.slots[i].status != RAW && m.status != RAW && SlotOk(b, m)
    requires forall k, w :: Tally(s.slots[i], k, w) == Tally(m, k, w)
    ensures Inv(b, Put(s, i, m))
  {
    hide CountsOk, AddrsOk, OwnersOk, PidsOk, Count, Tally, SlotOk;
    CountsSame(s.slots, i, m, s.writers, s.readers);
    OwnersPut(s.slots, i, m, s.clients, s.maxIdx);
  }

  // ---------------------------------------------------------------- serving a request

  lemma ReleaseCore(b: Build, s: Engine, i: nat, k: Key, m: Slot)
    requires Core(b, s) && i < |s.slots| && Uses(s.slots[i], k) && Serviceable(b, s.slots[i])
    requires Unused(m) && SlotOk(b, m)
    ensures var t := ReleasePage(b, s, k, s.slots[i].isWriter); Core(b, t.(slots := t.slots[i := m]))
  {
    hide CountsOk, AddrsOk, Count;
    ReleaseCounts(b, s, s.slots, i, k, m);
    if b.Repaired? {
      assert SlotOk(b, s.slots[i]);
      ReleaseAddrs(s, k, s.slots[i].isWriter);
    }
  }

  lemma InitiateCore(b: Build, s: Engine, i: nat, m: Slot)
    requires Core(b, s) && i < |s.slots| && Unused(s.slots[i]) && PositivePages(s.files)
    requires '/' !in m.name && m.status == REQUESTING && (m.isWriter ==> m.page > 0) && Serviceable(b, m)
    ensures var (u, status) := InitiatePage(s, Wanted(m), m.isWriter);
      var last := if b.AsCoded? || status == ALLOCATED then m.page else 0;
      Core(b, u.(slots := u.slots[i := m.(status := status, last := last)])) && PositivePages(u.files)
  {
    hide CountsOk, AddrsOk, Count, PositivePages;
    var r := InitiatePage(s, Wanted(m), m.isWriter);
    var n := m.(status := r.1, last := if b.AsCoded? || r.1 == ALLOCATED then m.page else 0);
    forall j | j in s.writers || j in s.readers ensures j.page > 0 { KeyPlain(b, s.slots, s.writers, s.readers, j); }
    InitiatePositive(b, s, Wanted(m), m.isWriter);
    InitiateCounts(s, s.slots, i, n);
    if b.Repaired? { InitiateAddrs(s, Wanted(m), m.isWriter); }
    assert SlotOk(b, n);
  }

  lemma ServeKeeps(b: Build, s: Engine, i: nat)
    requires Inv(b, s) && i < |s.slots| && s.slots[i].status == REQUESTING && Serviceable(b, s.slots[i])
    ensures Inv(b, Serve(b, s, i))
  {
    hide CountsOk, AddrsOk, OwnersOk, PidsOk, Count, PositivePages, ReleasePage, InitiatePage;
    var m := s.slots[i];
    assert SlotOk(b, m);
    if b.Repaired? && m.last > 0 && m.last == m.page {
      PutKeeps(b, s, i, m.(status := ALLOCATED));
    } else {
      var none := m.(last := 0);
      var t := if m.last > 0 then ReleasePage(b, s, Key(m.folder, m.name, m.last), m.isWriter) else s;
      ReleaseFrame(b, s, Key(m.folder, m.name, m.last), m.isWriter);
      if m.last > 0 {
        ReleaseCore(b, s, i, Key(m.folder, m.name, m.last), none);
      } else {
        assert t.(slots := t.slots[i := none]) == s;
      }
      var t1 := t.(slots := t.slots[i := none]);
      InitiateCore(b, t1, i, none);
      InitiateFrame(t, t1, Wanted(m), m.isWriter);
      var u := Serve(b, s, i);
      assert u.slots == t1.slots[i := u.slots[i]];
      OwnersPut(s.slots, i, u.slots[i], s.clients, s.maxIdx);
    }
  }

  lemma ReleaseFrame(b: Build, s: Engine, k: Key, w: bool)
    ensures var t := ReleasePage(b, s, k, w);
      && t == s.(writers := t.writers, readers := t.readers, addrs := t.addrs, undefined := t.undefined)
      && (b.Repaired? || w ==> t.undefined == s.undefined)
  {
  }

  lemma InitiateFrame(s: Engine, t: Engine, k: Key, w: bool)
    requires t == s.(slots := t.slots)
    ensures var (u, v) := (InitiatePage(s, k, w), InitiatePage(t, k, w));
      v.1 == u.1 && v.0 == u.0.(slots := t.slots) && u.0.slots == s.slots &&
      u.0 == s.(writers := u.0.writers, readers := u.0.readers, addrs := u.0.addrs, files := u.0.files) &&
      (u.1 == ALLOCATED || Refusal(u.1))
  {
  }

  // ---------------------------------------------------------------- registering

  lemma TakeSlot(b: Build, s: Engine, idx: nat)
    requires Inv(b, s) && idx < MAX_USERS && s.slots[idx].status == RAW
    ensures Inv(b, Taken(s, idx))
  {
    hide CountsOk, AddrsOk, PidsOk, Count, PositivePages;
    var m := s.slots[idx].(status := OCCUPIED, last := 0);
    assert SlotOk(b, s.slots[idx]);
    CountsSame(s.slots, idx, m, s.writers, s.readers);
    hide Tally;
    assert OwnersOk(s.slots[idx := m], s.clients, Taken(s, idx).maxIdx);
  }

  function Taken(s: Engine, idx: nat): Engine
    requires idx < |s.slots|
  {
    s.(maxIdx := if idx > s.maxIdx then idx else s.maxIdx, slots := s.slots[idx := s.slots[idx].(status := OCCUPIED, last := 0)])
  }

  function Given(clients: map<string, Client>, name: string, idx: nat): map<string, Client>
    requires name in clients
  {
    clients[name := clients[name].(indices := clients[name].indices + [idx])]
  }

  lemma GiveSlot(slots: seq<Slot>, clients: map<string, Client>, maxIdx: nat, name: string, idx: nat)
    requires OwnersOk(slots, clients, maxIdx) && name in clients
    requires idx <= maxIdx && idx < |slots| && slots[idx].status != RAW
    requires forall n, k :: n in clients && 0 <= k < |clients[n].indices| ==> clients[n].indices[k] != idx
    ensures OwnersOk(slots, Given(clients, name, idx), maxIdx)
  {
    var given := Given(clients, name, idx);
    assert forall n, k :: n in given && 0 <= k < |given[n].indices| ==>
      given[n].indices[k] == if n == name && k == |clients[name].indices| then idx else clients[n].indices[k];
    hide Given;
    forall n, j, o, k | n in given && o in given && 0 <= j < |given[n].indices| && 0 <= k < |given[o].indices| && given[n].indices[j] == given[o].indices[k]
      ensures n == o && j == k
    {
      if given[n].indices[j] != idx { assert clients[n].indices[j] == clients[o].indices[k]; }
    }
  }

  lemma GiveSlotPids(pids: map<int, seq<string>>, clients: map<string, Client>, name: string, idx: nat)
    requires PidsOk(pids, clients) && name in clients
    ensures PidsOk(pids, Given(clients, name, idx))
  {
  }

  lemma NewJournalKeeps(b: Build, s: Engine, name: string)
    requires Inv(b, s) && (b.AsCoded? ==> FirstRaw(s.slots, 0) < MAX_USERS)
    ensures Inv(b, RegJournal(b, s, name).0)
  {
    var idx := FirstRaw(s.slots, 0);
    if idx < MAX_USERS {
      TakeSlot(b, s, idx);
      if name in s.clients {
        GiveSlot(Taken(s, idx).slots, s.clients, Taken(s, idx).maxIdx, name, idx) by { hide CountsOk, AddrsOk, PidsOk, SlotsOk; }
        GiveSlotPids(s.pids, s.clients, name, idx);
      }
    }
    hide CountsOk, AddrsOk, OwnersOk, PidsOk, SlotsOk, PositivePages, FirstRaw;
  }

  lemma RegisterKeeps(b: Build, s: Engine, name: string, pid: int, w: bool)
    requires Inv(b, s)
    ensures Inv(b, RegClient(s, name, pid, w).0)
  {
    hide CountsOk, AddrsOk, SlotsOk, PositivePages, PidsOk;
    if name !in s.clients { ListClient(s.pids, s.clients, name, Client(pid, w, [])); }
  }

  /** A new client is listed last for its process. */
  lemma ListClient(pids: map<int, seq<string>>, clients: map<string, Client>, name: string, info: Client)
    requires PidsOk(pids, clients) && name !in clients
    ensures var before := if info.pid in pids then pids[info.pid] else [];
      PidsOk(pids[info.pid := before + [name]], clients[name := info])
  {
    var before := if info.pid in pids then pids[info.pid] else [];
    assert name !in before;
  }

  // ---------------------------------------------------------------- leaving

  /** One slot given back. */
  ghost function GivenBack(b: Build, s: Engine, i: nat): Engine
    requires i < |s.slots|
  {
    var m := s.slots[i];
    var t := if m.status == ALLOCATED then ReleasePage(b, s, Wanted(m), m.isWriter) else s;
    t.(slots := t.slots[i := m.(status := RAW)])
  }

  lemma GivesBack(b: Build, s: Engine, i: nat)
    requires Core(b, s) && CanLeave(b, s, i)
    ensures var t := GivenBack(b, s, i);
      && Core(b, t) && t.slots == s.slots[i := s.slots[i].(status := RAW)]
      && t == s.(slots := t.slots, writers := t.writers, readers := t.readers, addrs := t.addrs)
  {
    hide CountsOk, AddrsOk, Count, ReleasePage;
    var m := s.slots[i];
    assert SlotOk(b, m);
    var n := m.(status := RAW);
    if m.status == ALLOCATED {
      ReleaseFrame(b, s, Wanted(m), m.isWriter);
      ReleaseCore(b, s, i, Wanted(m), n);
    } else {
      CountsSame(s.slots, i, n, s.writers, s.readers);
    }
  }

  /** Giving back slots: they become free, the others stay, and the counts follow. */
  lemma {:induction false} ExitSlotsKeeps(b: Build, s: Engine, idxs: seq<nat>)
    requires Core(b, s) && InTable(s, idxs) && forall k :: 0 <= k < |idxs| ==> CanLeave(b, s, idxs[k])
    ensures var t := ExitSlots(b, s, idxs);
      && Core(b, t)
      && t == s.(slots := t.slots, writers := t.writers, readers := t.readers, addrs := t.addrs)
      && |t.slots| == |s.slots|
      && forall i :: 0 <= i < |s.slots| ==> if i in idxs then t.slots[i].status == RAW else t.slots[i] == s.slots[i]
    decreases |idxs|
  {
    hide Core, ReleasePage;
    if idxs != [] {
      var i, rest := idxs[0], idxs[1..];
      assert CanLeave(b, s, i);
      GivesBack(b, s, i);
      var u := GivenBack(b, s, i);
      hide GivenBack;
      forall k | 0 <= k < |rest| ensures CanLeave(b, u, rest[k]) { assert rest[k] == idxs[k + 1] && CanLeave(b, s, idxs[k + 1]); }
      assert ExitSlots(b, s, idxs) == ExitSlots(b, u, rest);
      ExitSlotsKeeps(b, u, rest);
      assert forall j :: j in idxs <==> j == i || j in rest;
    }
  }

  lemma {:induction false} WithoutLaw(names: seq<string>, name: string)
    requires forall j, k :: 0 <= j < k < |names| ==> names[j] != names[k]
    ensures var r := Without(names, name);
      && (forall n :: n in r <==> n in names && n != name)
      && (forall j, k :: 0 <= j < k < |r| ==> r[j] != r[k])
    decreases |names|
  {
    if names != [] {
      var tail := names[1..];
      forall k | 0 <= k < |tail| ensures tail[k] != names[0] { assert tail[k] == names[k + 1]; }
      assert names[0] !in tail;
      WithoutLaw(tail, name);
      var r := Without(tail, name);
      assert names == [names[0]] + tail;
      assert Without(names, name) == if names[0] == name then r else [names[0]] + r;
    }
  }

  function Left(pids: map<int, seq<string>>, pid: int, name: string): map<int, seq<string>>
    requires pid in pids
  {
    var left := Without(pids[pid], name);
    if left == [] then pids - {pid} else pids[pid := left]
  }

  lemma ExitPids(pids: map<int, seq<string>>, clients: map<string, Client>, name: string)
    requires PidsOk(pids, clients) && name in clients
    ensures clients[name].pid in pids && PidsOk(Left(pids, clients[name].pid, name), clients - {name})
  {
    hide Without;
    var pid := clients[name].pid;
    var left := Without(pids[pid], name);
    WithoutLaw(pids[pid], name);
    var rest := Left(pids, pid, name);
    forall p, k | p in rest && 0 <= k < |rest[p]|
      ensures rest[p][k] in clients - {name} && clients[rest[p][k]].pid == p
    {
      if p == pid { assert left[k] in left; } else { assert pids[p][k] in clients; }
    }
    forall n | n in clients && n != name ensures clients[n].pid in rest && n in rest[clients[n].pid] {
      if clients[n].pid == pid { assert n in left; }
    }
  }

  lemma ExitOwners(slots: seq<Slot>, after: seq<Slot>, clients: map<string, Client>, maxIdx: nat, name: string)
    requires OwnersOk(slots, clients, maxIdx) && name in clients && |after| == |slots|
    requires forall i :: 0 <= i < |slots| && i !in clients[name].indices ==> after[i] == slots[i]
    ensures OwnersOk(after, clients - {name}, maxIdx)
  {
  }

  lemma ExitKeeps(b: Build, s: Engine, name: string)
    requires Inv(b, s) && Legal(b, s, Exit(name))
    ensures Inv(b, ExitClient(b, s, name))
  {
    hide CountsOk, AddrsOk, OwnersOk, PidsOk, SlotsOk, PositivePages, ExitSlots;
    if name in s.clients {
      var info := s.clients[name];
      assert forall k :: 0 <= k < |info.indices| ==> CanLeave(b, s, info.indices[k]);
      ExitSlotsKeeps(b, s, info.indices);
      var t := ExitSlots(b, s, info.indices);
      ExitPids(s.pids, s.clients, name);
      ExitOwners(s.slots, t.slots, s.clients, s.maxIdx, name);
    }
  }

  // ---------------------------------------------------------------- every step, every run

  /** Every step of the engine and of its clients keeps the invariant. */
  lemma StepKeeps(b: Build, s: Engine, e: Event)
    requires Inv(b, s) && Legal(b, s, e)
    ensures Inv(b, Step(b, s, e))
  {
    match e
    case Register(name, pid, w) => RegisterKeeps(b, s, name, pid, w);
    case NewJournal(name) => NewJournalKeeps(b, s, name);
    case Exit(name) => ExitKeeps(b, s, name);
    case ScanRound => ScanKeeps(b, s);
    case Disk(files) =>
    case _ => StoreKeeps(b, s, e);
  }

  lemma ScanKeeps(b: Build, s: Engine)
    requires Inv(b, s) && Legal(b, s, ScanRound)
    ensures Inv(b, Scan(b, s))
  {
    hide CountsOk, AddrsOk, OwnersOk, PidsOk, SlotsOk, PositivePages, Serve;
    if s.slots[s.scan].status == REQUESTING {
      ServeKeeps(b, s, s.scan);
      ServeFrame(b, s, s.scan);
    }
  }

  lemma ServeFrame(b: Build, s: Engine, i: nat)
    requires i < |s.slots|
    ensures var t := Serve(b, s, i);
      && t.maxIdx == s.maxIdx && t.scan == s.scan && t.clients == s.clients && t.pids == s.pids
      && |t.slots| == |s.slots| && t.slots == s.slots[i := t.slots[i]]
      && t.slots[i] == s.slots[i].(status := t.slots[i].status, last := t.slots[i].last)
      && (t.slots[i].status == ALLOCATED || Refusal(t.slots[i].status))
  {
    var m := s.slots[i];
    var k := Key(m.folder, m.name, m.last);
    ReleaseFrame(b, s, k, m.isWriter);
    var t := if m.last > 0 && m.last != m.page then ReleasePage(b, s, k, m.isWriter) else s;
    InitiateFrame(t, t, Wanted(m), m.isWriter);
    hide ReleasePage, InitiatePage;
  }

  lemma StoreKeeps(b: Build, s: Engine, e: Event)
    requires Inv(b, s) && Legal(b, s, e)
    requires e.SetFolder? || e.SetName? || e.SetWriter? || e.SetHolding? || e.SetPage? || e.SetRequesting?
    ensures Inv(b, Step(b, s, e))
  {
    var t := Step(b, s, e);
    var m := s.slots[e.i];
    assert SlotOk(b, m);
    hide Inv, CountsOk, AddrsOk, OwnersOk, PidsOk, SlotsOk;
    assert t == Put(s, e.i, t.slots[e.i]);
    PutKeeps(b, s, e.i, t.slots[e.i]);
  }

  /** The scan loop can always go on: a requesting slot is one the build can serve. */
  lemma ScanNeverBlocked(b: Build, s: Engine)
    requires Inv(b, s)
    ensures Legal(b, s, ScanRound)
  {
    hide CountsOk, AddrsOk, OwnersOk, PidsOk;
    assert SlotOk(b, s.slots[s.scan]);
  }

  lemma InitialInv(b: Build, s: Engine)
    requires Initial(s) && PositivePages(s.files)
    ensures Inv(b, s)
  {
    forall k, w ensures Count(s.slots, k, w) == 0 {
      if Count(s.slots, k, w) > 0 { CountUsed(s.slots, k, w); }
    }
  }

  lemma {:induction false} RunKeeps(b: Build, s: Engine, es: seq<Event>)
    requires Inv(b, s) && LegalRun(b, s, es)
    ensures Inv(b, Run(b, s, es))
    decreases |es|
  {
    hide Inv, Step, Legal;
    if es != [] {
      StepKeeps(b, s, es[0]);
      RunKeeps(b, Step(b, s, es[0]), es[1..]);
    }
  }

  // ---------------------------------------------------------------- what holds in every reachable state

  /** No page is ever used for writing by two slots. */
  lemma OneWriter(b: Build, s: Engine, es: seq<Event>, i: nat, j: nat, k: Key)
    requires Initial(s) && PositivePages(s.files) && LegalRun(b, s, es)
    requires i < j < |Run(b, s, es).slots|
    ensures var t := Run(b, s, es);
      !(Uses(t.slots[i], k) && t.slots[i].isWriter && Uses(t.slots[j], k) && t.slots[j].isWriter)
  {
    hide Run, LegalRun, Uses, Initial;
    InitialInv(b, s);
    RunKeeps(b, s, es);
    var t := Run(b, s, es);
    if Uses(t.slots[i], k) && t.slots[i].isWriter && Uses(t.slots[j], k) && t.slots[j].isWriter {
      CountedTwice(t.slots, i, j, k, true);
      assert false;
    }
  }

  /**
   The writer and reader counts of every page are the numbers of slots that use it, and (in the repaired
   program) a page is mapped exactly when some slot uses it.
   */
  lemma CountsConserved(b: Build, s: Engine, es: seq<Event>, k: Key)
    requires Initial(s) && PositivePages(s.files) && LegalRun(b, s, es)
    ensures var t := Run(b, s, es);
      && Count(t.slots, k, true) == (if k in t.writers then t.writers[k] else 0) <= 1
      && Count(t.slots, k, false) == (if k in t.readers then t.readers[k] else 0)
      && (b.Repaired? && '/' !in k.name ==>
            (PathOf(k) in t.addrs <==> exists i :: 0 <= i < |t.slots| && Uses(t.slots[i], k)))
  {
    hide Run, LegalRun, Uses, Initial, Count, PathOf;
    InitialInv(b, s);
    RunKeeps(b, s, es);
    var t := Run(b, s, es);
    if k in t.writers { CountUsed(t.slots, k, true); }
    if k in t.readers { CountUsed(t.slots, k, false); }
    if i :| 0 <= i < |t.slots| && Uses(t.slots[i], k) { CountedOnce(t.slots, i, k, t.slots[i].isWriter); }
  }

  /** Nothing undefined is ever done. */
  lemma NeverUndefined(b: Build, s: Engine, es: seq<Event>)
    requires Initial(s) && PositivePages(s.files) && LegalRun(b, s, es)
    ensures !Run(b, s, es).undefined
  {
    hide Run, LegalRun, Initial, SlotsOk, CountsOk, AddrsOk, OwnersOk, PidsOk;
    InitialInv(b, s);
    RunKeeps(b, s, es);
  }

  /** Two journals never share a slot; a slot in someone's hands is taken and within the scanned part. */
  lemma SlotsOwned(b: Build, s: Engine, es: seq<Event>, n: string, j: nat, o: string, k: nat)
    requires Initial(s) && PositivePages(s.files) && LegalRun(b, s, es)
    requires var t := Run(b, s, es);
      n in t.clients && j < |t.clients[n].indices| && o in t.clients && k < |t.clients[o].indices|
    ensures var t := Run(b, s, es);
      && t.clients[n].indices[j] <= t.maxIdx < MAX_USERS && t.maxIdx < |t.slots|
      && t.slots[t.clients[n].indices[j]].status != RAW
      && (t.clients[n].indices[j] == t.clients[o].indices[k] ==> n == o && j == k)
  {
    hide Run, LegalRun, Initial, SlotsOk, CountsOk, AddrsOk, PidsOk;
    InitialInv(b, s);
    RunKeeps(b, s, es);
  }

  /** The list of a process holds exactly its clients, each once, and is never empty. */
  lemma PidsListed(b: Build, s: Engine, es: seq<Event>, pid: int)
    requires Initial(s) && PositivePages(s.files) && LegalRun(b, s, es)
    ensures var t := Run(b, s, es);
      var names := if pid in t.pids then t.pids[pid] else [];
      && (forall n :: n in names <==> n in t.clients && t.clients[n].pid == pid)
      && (forall j, k :: 0 <= j < k < |names| ==> names[j] != names[k])
      && (pid in t.pids <==> names != [])
  {
    hide Run, LegalRun, Initial, SlotsOk, CountsOk, AddrsOk, OwnersOk;
    InitialInv(b, s);
    RunKeeps(b, s, es);
    var t := Run(b, s, es);
    var names := if pid in t.pids then t.pids[pid] else [];
    forall n ensures n in names <==> n in t.clients && t.clients[n].pid == pid {
      if n in names {
        var k :| 0 <= k < |names| && names[k] == n;
        assert t.pids[pid][k] in t.clients;
      }
    }
  }

  // ---------------------------------------------------------------- a slot is its owner's alone

  /** Events by which the owner of slot `i`, or the engine serving it, changes the slot. */
  predicate Concerns(s: Engine, e: Event, i: nat) {
    match e
    case Register(_, _, _) => false
    case NewJournal(_) => false
    case Exit(name) => name in s.clients && i in s.clients[name].indices
    case ScanRound => s.scan == i
    case Disk(_) => false
    case _ => e.i == i
  }

  /** Nothing else touches a slot that is taken. */
  lemma SlotPrivate(b: Build, s: Engine, e: Event, i: nat)
    requires Inv(b, s) && Legal(b, s, e) && i < |s.slots| && s.slots[i].status != RAW && !Concerns(s, e, i)
    ensures var t := Step(b, s, e); |t.slots| == |s.slots| && t.slots[i] == s.slots[i]
  {
    hide CountsOk, AddrsOk, OwnersOk, PidsOk, SlotsOk, PositivePages;
    match e
    case ScanRound => ServeFrame(b, s, s.scan);
    case Exit(name) =>
      if name in s.clients { ExitSlotsKeeps(b, s, s.clients[name].indices); }
    case NewJournal(name) =>
    case _ =>
  }

  /** A registered client gets a slot that was free and becomes its last one; nobody else's changes. */
  lemma NewJournalGives(b: Build, s: Engine, name: string)
    requires Inv(b, s) && name in s.clients && FirstRaw(s.slots, 0) < MAX_USERS
    ensures var (t, idx) := RegJournal(b, s, name);
      && 0 <= idx < MAX_USERS && |t.slots| == |s.slots| && t.maxIdx == (if idx < s.maxIdx then s.maxIdx else idx)
      && s.slots[idx].status == RAW && t.slots[idx].status == OCCUPIED && t.slots[idx].last == 0
      && name in t.clients && t.clients[name] == s.clients[name].(indices := s.clients[name].indices + [idx])
      && (forall i :: 0 <= i < |s.slots| && i != idx ==> t.slots[i] == s.slots[i])
      && (forall n :: n in s.clients && n != name ==> n in t.clients && t.clients[n] == s.clients[n] && idx !in s.clients[n].indices)
  {
    hide CountsOk, AddrsOk, PidsOk, SlotsOk, FirstRaw;
    var idx := FirstRaw(s.slots, 0);
    forall n | n in s.clients ensures idx !in s.clients[n].indices {
      assert forall k :: 0 <= k < |s.clients[n].indices| ==> s.clients[n].indices[k] != idx;
    }
  }

  /** register_journal: the stores by which a client fills in a slot it was given. */
  function FillIn(i: nat, dir: string, jname: string, w: bool): seq<Event> {
    [SetFolder(i, dir), SetName(i, jname), SetWriter(i, w), SetHolding(i)]
  }

  /** getPage: the stores of a request. */
  function Ask(i: nat, page: int): seq<Event> {
    [SetPage(i, page), SetRequesting(i)]
  }

  lemma FillInRun(b: Build, s: Engine, i: nat, dir: string, jname: string, w: bool)
    requires |s.slots| == TABLE_SLOTS && i < |s.slots| && s.slots[i].status == OCCUPIED && '/' !in jname && (b.AsCoded? ==> w)
    ensures LegalRun(b, s, FillIn(i, dir, jname, w))
    ensures Run(b, s, FillIn(i, dir, jname, w)) == Put(s, i, s.slots[i].(status := HOLDING, folder := dir, name := jname, isWriter := w))
  {
    var es := FillIn(i, dir, jname, w);
    var s1 := Step(b, s, es[0]);
    var s2 := Step(b, s1, es[1]);
    var s3 := Step(b, s2, es[2]);
    assert es[1..][0] == es[1] && es[1..][1..][0] == es[2] && es[1..][1..][1..] == [es[3]];
    RunOne(b, s3, es[3]);
    assert Run(b, s2, es[1..][1..]) == Run(b, s3, [es[3]]);
    assert Run(b, s1, es[1..]) == Run(b, s2, es[1..][1..]);
  }

  lemma RunOne(b: Build, s: Engine, e: Event)
    requires Legal(b, s, e)
    ensures LegalRun(b, s, [e]) && Run(b, s, [e]) == Step(b, s, e)
  {
    hide Step, Legal;
    assert [e][1..] == [];
  }

  lemma AskRun(b: Build, s: Engine, i: nat, page: int)
    requires |s.slots| == TABLE_SLOTS && i < |s.slots| && Idle(s.slots[i]) && (s.slots[i].isWriter ==> page > 0)
    requires b.AsCoded? ==> !Refusal(s.slots[i].status) && page != s.slots[i].last
    ensures LegalRun(b, s, Ask(i, page))
    ensures Run(b, s, Ask(i, page)) == Put(s, i, s.slots[i].(status := REQUESTING, page := page))
  {
    var es := Ask(i, page);
    var s1 := Step(b, s, es[0]);
    assert es[1..] == [es[1]];
    RunOne(b, s1, es[1]);
  }
}
