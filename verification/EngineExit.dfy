/** What registering gives a client, and what leaving takes from it and from nobody else. */
module EngineExit {
  import opened EngineState
  import opened EngineInvariant
  import opened EngineRuns

  /** A client is registered exactly when its name is new; it then has its process and its side, and no slot yet. */
  lemma RegisterGives(b: Build, s: Engine, name: string, pid: int, w: bool)
    requires Inv(b, s)
    ensures var (t, ok) := RegClient(s, name, pid, w);
      && t == Step(b, s, Register(name, pid, w)) && (ok <==> name !in s.clients)
      && name in t.clients && (ok ==> t.clients == s.clients[name := Client(pid, w, [])])
      && (ok ==> t.pids == s.pids[pid := (if pid in s.pids then s.pids[pid] else []) + [name]])
      && (!ok ==> t == s)
      && t == s.(clients := t.clients, pids := t.pids)
  {
  }

  /** A journal for a client that is not registered is refused, but takes a slot all the same. */
  lemma NewJournalRefused(b: Build, s: Engine, name: string)
    requires Inv(b, s) && name !in s.clients
    ensures var (t, idx) := RegJournal(b, s, name);
      && idx == -1 && t.clients == s.clients && t.pids == s.pids
      && (FirstRaw(s.slots, 0) < MAX_USERS ==>
            t.slots == s.slots[FirstRaw(s.slots, 0) := s.slots[FirstRaw(s.slots, 0)].(status := OCCUPIED, last := 0)])
  {
    hide FirstRaw;
  }

  // ---------------------------------------------------------------- leaving

  /** The slots a client owns. */
  predicate Owns(s: Engine, name: string, i: nat) {
    name in s.clients && i in s.clients[name].indices
  }

  /** The list of names with the one at `k` taken out, the others in their order. */
  function TakenOut(names: seq<string>, k: nat): seq<string>
    requires k < |names|
  {
    names[..k] + names[k + 1..]
  }

  lemma {:induction false} NoneTaken(names: seq<string>, name: string)
    requires name !in names
    ensures Without(names, name) == names
    decreases |names|
  {
    if names != [] {
      assert names == [names[0]] + names[1..];
      NoneTaken(names[1..], name);
    }
  }

  lemma {:induction false} WithoutTakesOut(names: seq<string>, k: nat)
    requires k < |names| && forall j :: 0 <= j < |names| && j != k ==> names[j] != names[k]
    ensures Without(names, names[k]) == TakenOut(names, k)
    decreases |names|
  {
    var tail := names[1..];
    if k == 0 {
      forall j | 0 <= j < |tail| ensures tail[j] != names[0] { assert tail[j] == names[j + 1]; }
      NoneTaken(tail, names[0]);
      assert TakenOut(names, 0) == tail;
    } else {
      forall j | 0 <= j < |tail| && j != k - 1 ensures tail[j] != tail[k - 1] { assert tail[j] == names[j + 1]; }
      WithoutTakesOut(tail, k - 1);
      assert TakenOut(names, k) == [names[0]] + TakenOut(tail, k - 1);
    }
  }

  /** The leaving of a client that is not registered changes nothing. */
  lemma StrangerLeaves(b: Build, s: Engine, name: string)
    requires Legal(b, s, Exit(name)) && name !in s.clients
    ensures Step(b, s, Exit(name)) == s
  {
  }

  /**
   A client that leaves is gone: its slots are free, it is in no registry, and its pages are no longer counted,
   nor (in the repaired program) mapped, unless somebody else uses them. All other slots, clients, process lists
   and counts are what they were.
   */
  lemma ExitLeaves(b: Build, s: Engine, name: string)
    requires Inv(b, s) && Legal(b, s, Exit(name)) && name in s.clients
    ensures var t := Step(b, s, Exit(name));
      && t.clients == s.clients - {name}
      && |t.slots| == |s.slots|
      && (forall i :: 0 <= i < |s.slots| ==>
            if Owns(s, name, i) then t.slots[i].status == RAW else t.slots[i] == s.slots[i])
      && t == s.(slots := t.slots, clients := t.clients, pids := t.pids, writers := t.writers, readers := t.readers, addrs := t.addrs)
  {
    hide CountsOk, AddrsOk, OwnersOk, PidsOk, SlotsOk, PositivePages, ExitSlots;
    var info := s.clients[name];
    assert forall k :: 0 <= k < |info.indices| ==> CanLeave(b, s, info.indices[k]);
    ExitSlotsKeeps(b, s, info.indices);
    ExitKeeps(b, s, name);
  }

  /** Its process lists the other clients in the order they were in, or nobody. */
  lemma ExitUnlists(b: Build, s: Engine, name: string) returns (k: nat)
    requires Inv(b, s) && Legal(b, s, Exit(name)) && name in s.clients
    ensures var t, pid := Step(b, s, Exit(name)), s.clients[name].pid;
      && (forall p :: p != pid ==> (p in t.pids <==> p in s.pids) && (p in s.pids ==> t.pids[p] == s.pids[p]))
      && pid in s.pids && k < |s.pids[pid]| && s.pids[pid][k] == name
      && var left := TakenOut(s.pids[pid], k);
         if left == [] then pid !in t.pids else pid in t.pids && t.pids[pid] == left
    ensures forall p :: p in Step(b, s, Exit(name)).pids ==> name !in Step(b, s, Exit(name)).pids[p]
  {
    hide CountsOk, AddrsOk, OwnersOk, SlotsOk, PositivePages, ExitSlots, Without, TakenOut;
    var info := s.clients[name];
    assert forall j :: 0 <= j < |info.indices| ==> CanLeave(b, s, info.indices[j]);
    ExitSlotsKeeps(b, s, info.indices);
    k :| 0 <= k < |s.pids[info.pid]| && s.pids[info.pid][k] == name;
    WithoutTakesOut(s.pids[info.pid], k);
    ExitKeeps(b, s, name);
    var t := Step(b, s, Exit(name));
    assert name !in t.clients;
    assert forall p, j :: p in t.pids && 0 <= j < |t.pids[p]| ==> t.pids[p][j] in t.clients;
  }

  /** A page is used by a slot that stays. */
  ghost predicate UsedByOthers(s: Engine, name: string, k: Key, w: bool) {
    exists i :: 0 <= i < |s.slots| && !Owns(s, name, i) && Uses(s.slots[i], k) && s.slots[i].isWriter == w
  }

  /** A page stays counted exactly when a slot that stays uses it; in the repaired program it stays mapped then. */
  lemma ExitUncounts(b: Build, s: Engine, name: string, k: Key)
    requires Inv(b, s) && Legal(b, s, Exit(name)) && name in s.clients
    ensures var t := Step(b, s, Exit(name));
      && (k in t.writers <==> UsedByOthers(s, name, k, true)) && (k in t.readers <==> UsedByOthers(s, name, k, false))
      && (k in t.writers ==> k in s.writers && t.writers[k] == s.writers[k])
      && (k in t.readers ==> k in s.readers && t.readers[k] <= s.readers[k])
      && (b.Repaired? && '/' !in k.name ==>
            (PathOf(k) in t.addrs <==> UsedByOthers(s, name, k, true) || UsedByOthers(s, name, k, false)))
  {
    hide OwnersOk, PidsOk, PositivePages, SlotsOk, Step, Legal, Count, Uses, PathOf;
    var t := Step(b, s, Exit(name));
    ExitLeaves(b, s, name);
    StepKeeps(b, s, Exit(name));
    forall w ensures Count(t.slots, k, w) > 0 <==> UsedByOthers(s, name, k, w) {
      CountedIfUsed(t.slots, k, w);
      UsedAfterExit(s, t, name, k, w);
    }
    if k in t.writers { CountedFewer(s.slots, t.slots, k, true); }
    if k in t.readers { CountedFewer(s.slots, t.slots, k, false); }
  }

  lemma CountedIfUsed(slots: seq<Slot>, k: Key, w: bool)
    ensures Count(slots, k, w) > 0 <==> exists i :: 0 <= i < |slots| && Uses(slots[i], k) && slots[i].isWriter == w
  {
    hide Count, Uses;
    if Count(slots, k, w) > 0 { CountUsed(slots, k, w); }
    if i :| 0 <= i < |slots| && Uses(slots[i], k) && slots[i].isWriter == w { CountedOnce(slots, i, k, w); }
  }

  lemma UsedAfterExit(s: Engine, t: Engine, name: string, k: Key, w: bool)
    requires |t.slots| == |s.slots|
    requires forall i :: 0 <= i < |s.slots| ==> if Owns(s, name, i) then t.slots[i].status == RAW else t.slots[i] == s.slots[i]
    ensures (exists i :: 0 <= i < |t.slots| && Uses(t.slots[i], k) && t.slots[i].isWriter == w) <==> UsedByOthers(s, name, k, w)
  {
    hide Owns;
    if i :| 0 <= i < |t.slots| && Uses(t.slots[i], k) && t.slots[i].isWriter == w {
      assert !Owns(s, name, i) && t.slots[i] == s.slots[i];
    }
    if i :| 0 <= i < |s.slots| && !Owns(s, name, i) && Uses(s.slots[i], k) && s.slots[i].isWriter == w {
      assert t.slots[i] == s.slots[i];
    }
  }

  lemma {:induction false} CountedFewer(slots: seq<Slot>, after: seq<Slot>, k: Key, w: bool)
    requires |after| == |slots| && forall i :: 0 <= i < |slots| ==> after[i].status == RAW || after[i] == slots[i]
    ensures Count(after, k, w) <= Count(slots, k, w)
    decreases |slots|
  {
    if slots != [] {
      assert forall i :: 0 <= i < |slots[1..]| ==> slots[1..][i] == slots[i + 1] && after[1..][i] == after[i + 1];
      CountedFewer(slots[1..], after[1..], k, w);
    }
  }
}
