/**
 The page engine: a table of request slots shared with its clients, the registries of clients and
 processes, and the writers and readers counted for each page. Every entry point is one function from
 the state before to the state after.
 */
module EngineState {
  import opened KeyOrder
  import opened PageNames

  // ---------------------------------------------------------------- slots

  const RAW := 0
  const OCCUPIED := 1
  const HOLDING := 2
  const REQUESTING := 3
  const ALLOCATED := 4
  const NON_EXIST := 11
  const MEM_OVERFLOW := 12
  const MORE_THAN_ONE_WRITE := 13
  const CANNOT_RENAME := 14

  predicate Refusal(status: int) {
    NON_EXIST <= status <= CANNOT_RENAME
  }

  /** Slots the search for a free one looks at, and slots the shared file has room for. */
  const MAX_USERS: nat := 1000
  const SLOT_BYTES := 1 + 100 + 30 + 1 + 2 + 2
  const TABLE_SLOTS: nat := (MAX_USERS * SLOT_BYTES + 1024) / SLOT_BYTES

  datatype Slot = Slot(status: int, folder: string, name: string, isWriter: bool, page: int, last: int)

  /** What the comparison of two slots looks at. */
  datatype Key = Key(folder: string, name: string, page: int)

  predicate KeyLess(a: Key, b: Key) {
    if a.folder != b.folder then Less(a.folder, b.folder)
    else if a.name != b.name then Less(a.name, b.name)
    else a.page < b.page
  }

  /** The order is total on keys, so a map ordered by it has one entry for each folder, name and page. */
  lemma KeyOrderTotal(a: Key, b: Key, c: Key)
    ensures !KeyLess(a, b) && !KeyLess(b, a) <==> a == b
    ensures KeyLess(a, b) && KeyLess(b, c) ==> KeyLess(a, c)
  {
    LessTotal(a.folder, b.folder);
    LessTotal(a.name, b.name);
    LessTotal(b.folder, c.folder);
    LessTotal(b.name, c.name);
    if KeyLess(a, b) && KeyLess(b, c) {
      if a.folder != b.folder && b.folder != c.folder { LessTransitive(a.folder, b.folder, c.folder); LessTotal(a.folder, c.folder); }
      if a.name != b.name && b.name != c.name && a.folder == b.folder == c.folder { LessTransitive(a.name, b.name, c.name); LessTotal(a.name, c.name); }
    }
  }

  function PathOf(k: Key): string {
    GenPageFullPath(k.folder, k.name, k.page)
  }

  /** The page a slot is using: the last one allocated to it, also while it waits for the next. */
  predicate Uses(m: Slot, k: Key) {
    (m.status == ALLOCATED || m.status == REQUESTING) && m.last > 0 && k == Key(m.folder, m.name, m.last)
  }

  function Wanted(m: Slot): Key {
    Key(m.folder, m.name, m.page)
  }

  // ---------------------------------------------------------------- the state

  datatype Client = Client(pid: int, isWriting: bool, indices: seq<nat>)

  /** `undefined` is set by a call whose effect C++ leaves undefined; nothing is meant by the state after that. */
  datatype Engine = Engine(
    slots: seq<Slot>,
    clients: map<string, Client>,
    pids: map<int, seq<string>>,
    writers: map<Key, int>,
    readers: map<Key, int>,
    addrs: set<string>,
    files: set<string>,
    maxIdx: nat,
    scan: nat,
    undefined: bool)

  /**
   AsCoded is the program text; Repaired differs where the text departs from its own messages: the
   reader branch of release_page uses the reader counts and builds the path folder first, a full table is
   noticed, last_page_num is kept only for a page that was allocated, and a page already held is given
   again.
   */
  datatype Build = AsCoded | Repaired

  const FRESH_SLOT := Slot(RAW, "", "", false, 0, 0)

  // ---------------------------------------------------------------- registering

  function FirstRaw(slots: seq<Slot>, from: nat): (r: nat)
    requires |slots| >= MAX_USERS && from <= MAX_USERS
    ensures from <= r <= MAX_USERS
    ensures forall i :: from <= i < r ==> slots[i].status != RAW
    ensures r < MAX_USERS ==> slots[r].status == RAW
    decreases MAX_USERS - from
  {
    if from == MAX_USERS || slots[from].status == RAW then from else FirstRaw(slots, from + 1)
  }

  /** The index given to a client for one more journal, or -1. A slot is taken before the client is looked up. */
  function RegJournal(b: Build, s: Engine, name: string): (Engine, int)
    requires |s.slots| == TABLE_SLOTS
  {
    var idx: int := FirstRaw(s.slots, 0);
    if b.Repaired? && idx == MAX_USERS then (s, -1) else
      var t := s.(maxIdx := if idx > s.maxIdx then idx else s.maxIdx,
                  slots := s.slots[idx := s.slots[idx].(status := OCCUPIED, last := 0)]);
      if name !in s.clients then (t, -1)
      else (t.(clients := t.clients[name := t.clients[name].(indices := t.clients[name].indices + [idx])]), idx)
  }

  function RegClient(s: Engine, name: string, pid: int, isWriter: bool): (Engine, bool) {
    if name in s.clients then (s, false) else
      (s.(pids := s.pids[pid := (if pid in s.pids then s.pids[pid] else []) + [name]],
          clients := s.clients[name := Client(pid, isWriter, [])]), true)
  }

  // ---------------------------------------------------------------- pages

  /**
   release_page for the page a slot gives up. As written, the count of a reader is looked up among the writers,
   so it is a writer that is counted down; once that count is zero, the entry is erased through the map of the
   readers, which is undefined.
   */
  function ReleasePage(b: Build, s: Engine, k: Key, isWriter: bool): Engine {
    var inWriters := isWriter || b.AsCoded?;
    var counts := if inWriters then s.writers else s.readers;
    if k !in counts then s
    else if counts[k] != 1 then
      (if inWriters then s.(writers := counts[k := counts[k] - 1]) else s.(readers := counts[k := counts[k] - 1]))
    else if inWriters && !isWriter then s.(undefined := true)
    else
      var t := if isWriter then s.(writers := counts - {k}) else s.(readers := counts - {k});
      var path := if b.Repaired? then PathOf(k) else GenPageFullPath(k.name, k.folder, k.page);
      if k in t.writers || k in t.readers then t else t.(addrs := t.addrs - {path})
  }

  /** initiate_page: the new state and the status for the slot. */
  function InitiatePage(s: Engine, k: Key, isWriter: bool): (Engine, int) {
    var path := PathOf(k);
    if path !in s.addrs && path !in s.files && !isWriter then (s, NON_EXIST) else
      var t := s.(addrs := s.addrs + {path}, files := if path in s.addrs then s.files else s.files + {path});
      if isWriter then
        (if k in t.writers then (t, MORE_THAN_ONE_WRITE) else (t.(writers := t.writers[k := 1]), ALLOCATED))
      else
        (t.(readers := t.readers[k := if k in t.readers then t.readers[k] + 1 else 1]), ALLOCATED)
  }

  /** The critical section of start_comm for a requesting slot. */
  function Serve(b: Build, s: Engine, i: nat): Engine
    requires i < |s.slots|
  {
    var m := s.slots[i];
    if b.Repaired? && m.last > 0 && m.last == m.page then s.(slots := s.slots[i := m.(status := ALLOCATED)]) else
      var t := if m.last > 0 && m.last != m.page then ReleasePage(b, s, Key(m.folder, m.name, m.last), m.isWriter) else s;
      var (u, status) := InitiatePage(t, Wanted(m), m.isWriter);
      var last := if b.AsCoded? || status == ALLOCATED then m.page else 0;
      u.(slots := u.slots[i := m.(status := status, last := last)])
  }

  /** One round of the scan loop. */
  function Scan(b: Build, s: Engine): Engine
    requires s.scan < |s.slots|
  {
    var t := if s.slots[s.scan].status == REQUESTING then Serve(b, s, s.scan) else s;
    t.(scan := (s.scan + 1) % (s.maxIdx + 1))
  }

  // ---------------------------------------------------------------- leaving

  /** The slots of a client given back, one after the other. */
  function ExitSlots(b: Build, s: Engine, idxs: seq<nat>): (t: Engine)
    requires forall k :: 0 <= k < |idxs| ==> idxs[k] < |s.slots|
    ensures |t.slots| == |s.slots|
    decreases |idxs|
  {
    if idxs == [] then s else
      var i := idxs[0];
      var m := s.slots[i];
      var t := if m.status == ALLOCATED then ReleasePage(b, s, Wanted(m), m.isWriter) else s;
      ExitSlots(b, t.(slots := t.slots[i := m.(status := RAW)]), idxs[1..])
  }

  function Without(names: seq<string>, name: string): seq<string> {
    if names == [] then [] else (if names[0] == name then [] else [names[0]]) + Without(names[1..], name)
  }

  predicate InTable(s: Engine, idxs: seq<nat>) {
    forall k :: 0 <= k < |idxs| ==> idxs[k] < |s.slots|
  }

  function ExitClient(b: Build, s: Engine, name: string): Engine
    requires name in s.clients ==> InTable(s, s.clients[name].indices)
  {
    if name !in s.clients then s else
      var info := s.clients[name];
      var t := ExitSlots(b, s, info.indices);
      var left := Without(if info.pid in t.pids then t.pids[info.pid] else [], name);
      t.(pids := if left == [] then t.pids - {info.pid} else t.pids[info.pid := left], clients := t.clients - {name})
  }

  // ---------------------------------------------------------------- steps

  /** A socket call, a round of the scan loop, one store of a client into its slot, or a change on disk. */
  datatype Event =
    | Register(name: string, pid: int, isWriter: bool)
    | NewJournal(name: string)
    | Exit(name: string)
    | ScanRound
    | SetFolder(i: nat, folder: string)
    | SetName(i: nat, jname: string)
    | SetWriter(i: nat, writing: bool)
    | SetHolding(i: nat)
    | SetPage(i: nat, page: int)
    | SetRequesting(i: nat)
    | Disk(files: set<string>)

  /** A slot whose client may ask for a page. */
  predicate Idle(m: Slot) {
    m.status == HOLDING || m.status == ALLOCATED || Refusal(m.status)
  }

  /** No file carries a page number below 1. */
  ghost predicate PositivePages(files: set<string>) {
    forall k: Key | k.page <= 0 && '/' !in k.name :: PathOf(k) !in files
  }

  /**
   What the clients promise: a slot is filled in before it is marked HOLDING and its owner waits while it
   is REQUESTING; names hold no slash; a writer asks for pages from 1 on; nobody leaves with a request
   under way. For the program as written, they also promise to be writers, to ask for nothing after a
   refusal and not to ask for the page they hold, and the table is not full.
   */
  ghost predicate Legal(b: Build, s: Engine, e: Event) {
    && |s.slots| == TABLE_SLOTS
    && match e
       case Register(_, _, w) => true
       case NewJournal(_) => b.AsCoded? ==> FirstRaw(s.slots, 0) < MAX_USERS
       case Exit(name) =>
         name in s.clients ==>
           forall k :: 0 <= k < |s.clients[name].indices| ==> CanLeave(b, s, s.clients[name].indices[k])
       case ScanRound =>
         && s.scan < |s.slots|
         && (s.slots[s.scan].status == REQUESTING ==> Serviceable(b, s.slots[s.scan]))
       case SetFolder(i, _) => i < |s.slots| && s.slots[i].status == OCCUPIED
       case SetName(i, n) => i < |s.slots| && s.slots[i].status == OCCUPIED && '/' !in n
       case SetWriter(i, w) => i < |s.slots| && s.slots[i].status == OCCUPIED
       case SetHolding(i) => i < |s.slots| && s.slots[i].status == OCCUPIED && Serviceable(b, s.slots[i])
       case SetPage(i, p) => i < |s.slots| && Idle(s.slots[i]) && (s.slots[i].isWriter ==> p > 0)
       case SetRequesting(i) =>
         && i < |s.slots| && Idle(s.slots[i]) && (s.slots[i].isWriter ==> s.slots[i].page > 0)
         && (b.AsCoded? ==> !Refusal(s.slots[i].status) && s.slots[i].page != s.slots[i].last)
       case Disk(files) => PositivePages(files)
  }

  /** What can happen at all: the promises that are made for the program as written are left out. */
  ghost predicate Enabled(s: Engine, e: Event) {
    Legal(Repaired, s, e)
  }

  predicate Serviceable(b: Build, m: Slot) {
    b.Repaired? || m.isWriter
  }

  predicate CanLeave(b: Build, s: Engine, i: nat) {
    && i < |s.slots| && s.slots[i].status != REQUESTING && Serviceable(b, s.slots[i])
    && (s.slots[i].status == ALLOCATED ==> s.slots[i].page == s.slots[i].last)
  }

  function Put(s: Engine, i: nat, m: Slot): Engine
    requires i < |s.slots|
  {
    s.(slots := s.slots[i := m])
  }

  function Step(b: Build, s: Engine, e: Event): Engine
    requires Legal(b, s, e) || Enabled(s, e)
  {
    match e
    case Register(name, pid, w) => RegClient(s, name, pid, w).0
    case NewJournal(name) => RegJournal(b, s, name).0
    case Exit(name) => ExitClient(b, s, name)
    case ScanRound => Scan(b, s)
    case SetFolder(i, f) => Put(s, i, s.slots[i].(folder := f))
    case SetName(i, n) => Put(s, i, s.slots[i].(name := n))
    case SetWriter(i, w) => Put(s, i, s.slots[i].(isWriter := w))
    case SetHolding(i) => Put(s, i, s.slots[i].(status := HOLDING))
    case SetPage(i, p) => Put(s, i, s.slots[i].(page := p))
    case SetRequesting(i) => Put(s, i, s.slots[i].(status := REQUESTING))
    case Disk(files) => s.(files := files)
  }

  /** start: an empty shared file and empty registries. */
  predicate Initial(s: Engine) {
    && s.slots == seq(TABLE_SLOTS, _ => FRESH_SLOT)
    && s.clients == map[] && s.pids == map[] && s.writers == map[] && s.readers == map[]
    && s.addrs == {} && s.maxIdx == 0 && s.scan == 0 && !s.undefined
  }

  ghost predicate LegalRun(b: Build, s: Engine, es: seq<Event>)
    decreases |es|
  {
    es == [] || (Legal(b, s, es[0]) && LegalRun(b, Step(b, s, es[0]), es[1..]))
  }

  ghost function Run(b: Build, s: Engine, es: seq<Event>): Engine
    requires LegalRun(b, s, es)
    decreases |es|
  {
    if es == [] then s else Run(b, Step(b, s, es[0]), es[1..])
  }
}
