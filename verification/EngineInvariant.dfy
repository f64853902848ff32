/** What every step of the engine and of its clients keeps. */
module EngineInvariant {
  import opened EngineState
  import opened PageNames

  // ---------------------------------------------------------------- the invariant

  predicate SlotOk(b: Build, m: Slot) {
    && '/' !in m.name && m.last >= 0
    && (m.status in {RAW, OCCUPIED, HOLDING, REQUESTING, ALLOCATED} || Refusal(m.status))
    && (m.status == OCCUPIED || m.status == HOLDING ==> m.last == 0)
    && (m.status == ALLOCATED ==> m.last > 0)
    && (m.status == REQUESTING && m.isWriter ==> m.page > 0)
    && (b.Repaired? && Refusal(m.status) ==> m.last == 0)
    && (b.AsCoded? ==> (m.status == REQUESTING ==> m.page != m.last) && (m.status in {RAW, OCCUPIED} || m.isWriter))
  }

  predicate SlotsOk(b: Build, slots: seq<Slot>) {
    forall i :: 0 <= i < |slots| ==> SlotOk(b, slots[i])
  }

  function Tally(m: Slot, k: Key, w: bool): nat {
    if Uses(m, k) && m.isWriter == w then 1 else 0
  }

  /** The slots using a page for writing, or for reading. */
  function Count(slots: seq<Slot>, k: Key, w: bool): nat
    decreases |slots|
  {
    if slots == [] then 0 else Tally(slots[0], k, w) + Count(slots[1..], k, w)
  }

  /** The counts are exactly the slots in use, and no page has two writers. */
  ghost predicate CountsOk(slots: seq<Slot>, writers: map<Key, int>, readers: map<Key, int>) {
    && (forall k :: k in writers <==> Count(slots, k, true) > 0)
    && (forall k :: k in writers ==> writers[k] == 1 && Count(slots, k, true) == 1)
    && (forall k :: k in readers <==> Count(slots, k, false) > 0)
    && (forall k :: k in readers ==> readers[k] == Count(slots, k, false))
  }

  /** A page is mapped exactly when its counts are not both zero, and nothing else is mapped. */
  ghost predicate AddrsOk(addrs: set<string>, writers: map<Key, int>, readers: map<Key, int>) {
    && (forall k: Key | '/' !in k.name :: PathOf(k) in addrs <==> k in writers || k in readers)
    && (forall p :: p in addrs ==> exists k: Key :: '/' !in k.name && p == PathOf(k))
  }

  /** Indices belong to one client each, are taken, and lie within the scanned part of the table. */
  ghost predicate OwnersOk(slots: seq<Slot>, clients: map<string, Client>, maxIdx: nat) {
    && (forall n, k :: n in clients && 0 <= k < |clients[n].indices| ==>
          clients[n].indices[k] <= maxIdx && clients[n].indices[k] < |slots| && slots[clients[n].indices[k]].status != RAW)
    && (forall n, j, o, k :: n in clients && o in clients && 0 <= j < |clients[n].indices| && 0 <= k < |clients[o].indices| ==>
          clients[n].indices[j] == clients[o].indices[k] ==> n == o && j == k)
  }

  /** A process lists each of its clients once and no others, and no list is empty. */
  ghost predicate PidsOk(pids: map<int, seq<string>>, clients: map<string, Client>) {
    && (forall p :: p in pids ==> pids[p] != [])
    && (forall p, k :: p in pids && 0 <= k < |pids[p]| ==> pids[p][k] in clients && clients[pids[p][k]].pid == p)
    && (forall p, j, k :: p in pids && 0 <= j < k < |pids[p]| ==> pids[p][j] != pids[p][k])
    && (forall n :: n in clients ==> clients[n].pid in pids && n in pids[clients[n].pid])
  }

  predicate TableOk(s: Engine) {
    && |s.slots| == TABLE_SLOTS && s.maxIdx < MAX_USERS && s.scan <= s.maxIdx
    && forall i :: s.maxIdx < i < |s.slots| ==> s.slots[i].status == RAW
  }

  ghost predicate Inv(b: Build, s: Engine) {
    && TableOk(s)
    && SlotsOk(b, s.slots)
    && CountsOk(s.slots, s.writers, s.readers)
    && (b.Repaired? ==> AddrsOk(s.addrs, s.writers, s.readers))
    && PositivePages(s.files)
    && OwnersOk(s.slots, s.clients, s.maxIdx)
    && PidsOk(s.pids, s.clients)
    && !s.undefined
  }

  // ---------------------------------------------------------------- counting

  lemma {:induction false} CountPut(slots: seq<Slot>, i: nat, m: Slot, k: Key, w: bool)
    requires i < |slots|
    ensures Count(slots[i := m], k, w) == Count(slots, k, w) - Tally(slots[i], k, w) + Tally(m, k, w)
    decreases |slots|
  {
    hide Tally;
    if i > 0 {
      CountPut(slots[1..], i - 1, m, k, w);
      assert slots[i := m][1..] == slots[1..][i - 1 := m];
    } else {
      assert slots[i := m][1..] == slots[1..];
    }
  }

  lemma {:induction false} CountedOnce(slots: seq<Slot>, i: nat, k: Key, w: bool)
    requires i < |slots| && Uses(slots[i], k) && slots[i].isWriter == w
    ensures Count(slots, k, w) > 0
    decreases |slots|
  {
    if i > 0 { CountedOnce(slots[1..], i - 1, k, w); }
  }

  lemma {:induction false} CountedTwice(slots: seq<Slot>, i: nat, j: nat, k: Key, w: bool)
    requires i < j < |slots| && Uses(slots[i], k) && Uses(slots[j], k) && slots[i].isWriter == slots[j].isWriter == w
    ensures Count(slots, k, w) > 1
    decreases |slots|
  {
    if i > 0 { CountedTwice(slots[1..], i - 1, j - 1, k, w); } else { CountedOnce(slots[1..], j - 1, k, w); }
  }

  lemma {:induction false} CountUsed(slots: seq<Slot>, k: Key, w: bool)
    requires Count(slots, k, w) > 0
    ensures exists i :: 0 <= i < |slots| && Uses(slots[i], k) && slots[i].isWriter == w
    decreases |slots|
  {
    if Tally(slots[0], k, w) == 0 {
      CountUsed(slots[1..], k, w);
      var i :| 0 <= i < |slots[1..]| && Uses(slots[1..][i], k) && slots[1..][i].isWriter == w;
      assert slots[i + 1] == slots[1..][i];
    }
  }

  /** A slot rewritten without a change of the page it uses changes no count. */
  lemma CountsSame(slots: seq<Slot>, i: nat, m: Slot, writers: map<Key, int>, readers: map<Key, int>)
    requires i < |slots| && CountsOk(slots, writers, readers)
    requires forall k, w :: Tally(slots[i], k, w) == Tally(m, k, w)
    ensures CountsOk(slots[i := m], writers, readers)
  {
    hide Tally, Count;
    forall k, w ensures Count(slots[i := m], k, w) == Count(slots, k, w) { CountPut(slots, i, m, k, w); }
  }

  /** A used page belongs to a slot: its name has no slash and its number is positive. */
  lemma KeyPlain(b: Build, slots: seq<Slot>, writers: map<Key, int>, readers: map<Key, int>, k: Key)
    requires SlotsOk(b, slots) && CountsOk(slots, writers, readers) && (k in writers || k in readers)
    ensures '/' !in k.name && k.page > 0
  {
    hide Count;
    CountUsed(slots, k, k in writers);
    var i :| 0 <= i < |slots| && Uses(slots[i], k) && slots[i].isWriter == (k in writers);
    assert SlotOk(b, slots[i]);
  }

  // ---------------------------------------------------------------- giving up a page

  predicate Unused(m: Slot) {
    m.last == 0 || (m.status != ALLOCATED && m.status != REQUESTING)
  }

  /** A slot gives up its page: the counts follow, once the slot no longer uses it. */
  lemma ReleaseCounts(b: Build, s: Engine, slots: seq<Slot>, i: nat, k: Key, m: Slot)
    requires i < |slots| && CountsOk(slots, s.writers, s.readers)
    requires Uses(slots[i], k) && Serviceable(b, slots[i]) && Unused(m)
    ensures var t := ReleasePage(b, s, k, slots[i].isWriter); CountsOk(slots[i := m], t.writers, t.readers)
  {
    hide Count, PathOf, GenPageFullPath;
    var w := slots[i].isWriter;
    CountedOnce(slots, i, k, w);
    forall j, v ensures Count(slots[i := m], j, v) == Count(slots, j, v) - (if j == k && v == w then 1 else 0) {
      CountPut(slots, i, m, j, v);
    }
  }

  lemma ReleaseKeys(s: Engine, k: Key, w: bool)
    ensures var t := ReleasePage(Repaired, s, k, w);
      && (forall j :: j != k ==> (j in t.writers <==> j in s.writers) && (j in t.readers <==> j in s.readers))
      && (k in t.writers || k in t.readers ==> k in s.writers || k in s.readers)
      && t.addrs == if k in t.writers || k in t.readers || !(k in s.writers || k in s.readers) then s.addrs else s.addrs - {PathOf(k)}
  {
    hide PathOf;
    var counts := if w then s.writers else s.readers;
    if k in counts && counts[k] == 1 {
      assert forall j :: j in counts - {k} <==> j in counts && j != k;
    }
  }

  /** With the path built the right way round, the page is unmapped exactly when nobody is left. */
  lemma ReleaseAddrs(s: Engine, k: Key, w: bool)
    requires AddrsOk(s.addrs, s.writers, s.readers) && '/' !in k.name
    ensures var t := ReleasePage(Repaired, s, k, w); AddrsOk(t.addrs, t.writers, t.readers)
  {
    hide PathOf, ReleasePage;
    ReleaseKeys(s, k, w);
    var t := ReleasePage(Repaired, s, k, w);
    forall j: Key | '/' !in j.name ensures PathOf(j) in t.addrs <==> j in t.writers || j in t.readers {
      if PathOf(j) == PathOf(k) { SamePath(j, k); }
    }
  }

  lemma SamePath(j: Key, k: Key)
    requires '/' !in j.name && '/' !in k.name && PathOf(j) == PathOf(k)
    ensures j == k
  {
    PathInjective(j.folder, j.name, j.page, k.folder, k.name, k.page);
  }

  // ---------------------------------------------------------------- taking a page

  lemma InitiateCounts(s: Engine, slots: seq<Slot>, i: nat, m: Slot)
    requires i < |slots| && CountsOk(slots, s.writers, s.readers) && Unused(slots[i])
    requires var r := InitiatePage(s, Wanted(m), m.isWriter);
      m.status == r.1 && (r.1 == ALLOCATED ==> m.last == m.page > 0)
    ensures var u := InitiatePage(s, Wanted(m), m.isWriter).0; CountsOk(slots[i := m], u.writers, u.readers)
  {
    hide Count, PathOf;
    var k, w := Wanted(m), m.isWriter;
    forall j, v
      ensures Count(slots[i := m], j, v) == Count(slots, j, v) + (if j == k && v == w && m.status == ALLOCATED then 1 else 0)
    {
      CountPut(slots, i, m, j, v);
    }
  }

  lemma InitiateAddrs(s: Engine, k: Key, w: bool)
    requires AddrsOk(s.addrs, s.writers, s.readers) && '/' !in k.name
    ensures var u := InitiatePage(s, k, w).0; AddrsOk(u.addrs, u.writers, u.readers)
  {
    hide PathOf;
    var u := InitiatePage(s, k, w).0;
    forall j: Key | '/' !in j.name ensures PathOf(j) in u.addrs <==> j in u.writers || j in u.readers {
      if PathOf(j) == PathOf(k) { SamePath(j, k); }
    }
  }

  /** A page that is given out has a positive number. */
  lemma InitiatePositive(b: Build, s: Engine, k: Key, w: bool)
    requires SlotsOk(b, s.slots) && '/' !in k.name && (w ==> k.page > 0) && PositivePages(s.files)
    requires b.AsCoded? ==> w
    requires b.Repaired? ==> AddrsOk(s.addrs, s.writers, s.readers) && forall j :: j in s.writers || j in s.readers ==> j.page > 0
    ensures var r := InitiatePage(s, k, w); r.1 == ALLOCATED ==> k.page > 0
    ensures PositivePages(InitiatePage(s, k, w).0.files)
  {
    hide PathOf;
    var u := InitiatePage(s, k, w).0;
    forall j: Key | j.page <= 0 && '/' !in j.name ensures PathOf(j) !in u.files {
      if PathOf(j) == PathOf(k) { SamePath(j, k); }
    }
  }
}
